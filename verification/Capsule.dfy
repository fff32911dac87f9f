/** The worker-side copy of a legacy job capsule into the role layout: which file goes
    where, and that none is lost or overwritten. */
module Capsule {
  import opened Common

  type Blob = nat

  /** A top-level entry of a legacy capsule, by the list of the copy script it is on. */
  datatype Name =
    | PayloadName(index: nat)        // launcher.sh, wrapper.sh and the other runtime payload files
    | StateName(index: nat)          // pgid, gpus, started_at, finished_at, exit_code
    | CancelMark                     // .dt-cancel
    | ExitTemporary(suffix: string)  // exit_code.tmp.*
    | Meta                           // meta.json
    | Cmd                            // cmd.sh
    | ControlName(index: nat)        // setup.sh, env-key, code_dirty.patch, code-pruned.json
    | ControlDir                     // .dt, reserved for the role layout
    | Other(name: string)

  datatype Place =
    | Top(entry: Name)
    | InPayload(entry: Name)
    | InState(entry: Name)
    | CancelState                    // .dt/state/cancel
    | InControl(entry: Name)
    | Command                        // .dt/command.sh

  type Files = map<Name, Blob>
  type Tree = map<Place, Blob>

  const PAYLOAD_FILES: nat := 10
  const STATE_FILES: nat := 5
  const CONTROL_FILES: nat := 4

  /** Where the role layout keeps a legacy file. */
  function Relocate(n: Name): Place {
    match n
    case PayloadName(i) => if i < PAYLOAD_FILES then InPayload(n) else Top(n)
    case StateName(i) => if i < STATE_FILES then InState(n) else Top(n)
    case CancelMark => CancelState
    case ExitTemporary(_) => InState(n)
    case Meta => InControl(n)
    case Cmd => Command
    case ControlName(i) => if i < CONTROL_FILES then InControl(n) else Top(n)
    case _ => Top(n)
  }

  /** The legacy file a place can only have come from. */
  function Origin(p: Place): Name {
    match p
    case CancelState => CancelMark
    case Command => Cmd
    case _ => p.entry
  }

  /** The script stops on a capsule without metadata or with a control directory of its own. */
  predicate Copyable(files: Files) {
    Meta in files && ControlDir !in files
  }

  function Where(placed: map<Name, Place>, n: Name): Place {
    if n in placed then placed[n] else Top(n)
  }

  /** Every file is where placed says, and nothing else is in the tree. */
  ghost predicate Arranged(tree: Tree, files: Files, placed: map<Name, Place>) {
    && (forall n | n in files :: Where(placed, n) in tree && tree[Where(placed, n)] == files[n])
    && (forall p | p in tree :: Origin(p) in files && Where(placed, Origin(p)) == p)
    && (forall n | n in placed :: Origin(placed[n]) == n)
  }

  /** The finished role tree of a legacy capsule. */
  ghost predicate Migrated(tree: Tree, files: Files) {
    && (forall n | n in files :: Relocate(n) in tree && tree[Relocate(n)] == files[n])
    && (forall p | p in tree :: Origin(p) in files && Relocate(Origin(p)) == p)
  }

  lemma RelocateKeepsNames(n: Name, m: Name)
    ensures Origin(Relocate(n)) == n
    ensures Relocate(n) == Relocate(m) ==> n == m
  {
  }

  /** The role tree is determined by the capsule, and the capsule by its role tree:
      nothing is lost, merged or invented. */
  lemma MigrationIsLossless(t1: Tree, f1: Files, t2: Tree, f2: Files)
    requires Migrated(t1, f1) && Migrated(t2, f2)
    ensures t1 == t2 <==> f1 == f2
  {
    if f1 == f2 {
      forall p | p in t1 ensures p in t2 && t2[p] == t1[p] {
        assert p == Relocate(Origin(p));
      }
      forall p | p in t2 ensures p in t1 {
        assert p == Relocate(Origin(p));
      }
      assert t1 == t2;
    }
    if t1 == t2 {
      forall n | n in f1 ensures n in f2 && f2[n] == f1[n] {
        RelocateKeepsNames(n, n);
      }
      forall n | n in f2 ensures n in f1 {
        RelocateKeepsNames(n, n);
      }
      assert f1 == f2;
    }
  }

  lemma MoveKeepsArranged(tree: Tree, files: Files, placed: map<Name, Place>, n: Name, p: Place)
    requires Arranged(tree, files, placed) && Origin(p) == n && n in files && p !in tree
    ensures var w := Where(placed, n); w in tree && Arranged(tree[p := tree[w]] - {w}, files, placed[n := p])
  {
  }

  class Stager {
    var tree: Tree
    /** Where each moved file has gone so far. */
    ghost var placed: map<Name, Place>

    constructor (files: Files)
      ensures Arranged(tree, files, placed) && placed == map[]
    {
      tree := map p | p in (set n | n in files :: Top(n)) :: files[Origin(p)];
      placed := map[];
      new;
      forall n | n in files ensures Top(n) in tree && tree[Top(n)] == files[n] {
        assert Origin(Top(n)) == n;
      }
    }

    /** `mv -- "$tmp/old" "$tmp/new"`, if the file is there. */
    method Move(ghost files: Files, n: Name, source: Place, target: Place)
      requires Arranged(tree, files, placed) && source != target
      requires Origin(source) == n && Origin(target) == n
      modifies this
      ensures Arranged(tree, files, placed)
      ensures placed == Moved(old(placed), files, n, source, target)
    {
      if source in tree {
        assert target !in tree;
        MoveKeepsArranged(tree, files, placed, n, target);
        tree := tree[target := tree[source]] - {source};
        placed := placed[n := target];
      }
    }

    /** `for name in ...; do mv; done` over one of the script's lists. */
    method MoveAll(ghost files: Files, names: seq<Name>)
      requires Arranged(tree, files, placed)
      requires forall n | n in names :: Relocate(n) != Top(n)
      modifies this
      ensures Arranged(tree, files, placed)
      ensures AfterLoop(old(placed), placed, files, names)
    {
      hide Arranged;
      for i := 0 to |names|
        invariant Arranged(tree, files, placed)
        invariant AfterLoop(old(placed), placed, files, names[..i])
      {
        RelocateKeepsNames(names[i], names[i]);
        Move(files, names[i], Top(names[i]), Relocate(names[i]));
        assert names[..i + 1] == names[..i] + [names[i]];
      }
      assert names[..|names|] == names;
    }
  }

  /** A loop over names has moved the listed files that were still at the top. */
  ghost predicate AfterLoop(before: map<Name, Place>, after: map<Name, Place>, files: Files, names: seq<Name>) {
    forall n | n in files ::
      Where(after, n) == if n in names && Where(before, n) == Top(n) then Relocate(n) else Where(before, n)
  }

  function Listed(f: nat -> Name, n: nat): (r: seq<Name>)
    ensures |r| == n && forall i | 0 <= i < n :: r[i] == f(i)
  {
    seq(n, i requires 0 <= i < n => f(i))
  }

  /** The two runs of consecutive loops; a cancel mark is renamed between them. */
  const EARLY := Listed((i: nat) => PayloadName(i), PAYLOAD_FILES) + Listed((i: nat) => StateName(i), STATE_FILES)

  function Late(temporaries: seq<Name>): seq<Name> {
    temporaries + [Meta, Cmd] + Listed((i: nat) => ControlName(i), CONTROL_FILES)
  }

  /** Together with the cancel mark the loops name exactly the files that have to move. */
  lemma EarlyIsComplete(n: Name)
    ensures n in EARLY <==> (n.PayloadName? || n.StateName?) && Relocate(n) != Top(n)
  {
    if n.PayloadName? && n.index < PAYLOAD_FILES {
      assert EARLY[n.index] == n;
    } else if n.StateName? && n.index < STATE_FILES {
      assert EARLY[PAYLOAD_FILES + n.index] == n;
    }
  }

  lemma LateIsComplete(n: Name, temporaries: seq<Name>)
    requires forall m :: m in temporaries ==> m.ExitTemporary?
    requires n.ExitTemporary? ==> n in temporaries
    ensures n in Late(temporaries) <==> (n.ExitTemporary? || n.Meta? || n.Cmd? || n.ControlName?) && Relocate(n) != Top(n)
  {
    if n.ControlName? && n.index < CONTROL_FILES {
      assert Late(temporaries)[|temporaries| + 2 + n.index] == n;
    } else if n.Meta? || n.Cmd? {
      assert Late(temporaries)[|temporaries| + if n.Meta? then 0 else 1] == n;
    }
  }

  lemma ListedFilesMove(temporaries: seq<Name>)
    requires forall m :: m in temporaries ==> m.ExitTemporary?
    ensures forall n | n in EARLY :: Relocate(n) != Top(n)
    ensures forall n | n in Late(temporaries) :: Relocate(n) != Top(n)
  {
    forall n | n in EARLY ensures Relocate(n) != Top(n) {
      EarlyIsComplete(n);
    }
    forall n | n in Late(temporaries) ensures Relocate(n) != Top(n) {
      assert n.ExitTemporary? ==> n in temporaries;
      LateIsComplete(n, temporaries);
    }
  }

  /** The copy script's renames, in its order, on a verified copy of the capsule. */
  method Arrange(files: Files, temporaries: seq<Name>) returns (tree: Tree)
    requires Copyable(files)
    requires forall n :: n in temporaries ==> n.ExitTemporary?
    requires forall n | n in files && n.ExitTemporary? :: n in temporaries
    ensures Migrated(tree, files)
  {
    hide *;
    var s := new Stager(files);
    ListedFilesMove(temporaries);
    s.MoveAll(files, EARLY);
    ghost var p1 := s.placed;
    OriginsOfCancel();
    s.Move(files, CancelMark, Top(CancelMark), InState(CancelMark));
    s.Move(files, CancelMark, InState(CancelMark), CancelState);
    ghost var p2 := s.placed;
    s.MoveAll(files, Late(temporaries));
    ScriptMigrates(s.tree, files, temporaries, p1, p2, s.placed);
    return s.tree;
  }

  lemma OriginsOfCancel()
    ensures Origin(Top(CancelMark)) == Origin(InState(CancelMark)) == Origin(CancelState) == CancelMark
  {
  }

  /** p1, p2 and p3 are where the files are after the early loops, the cancel mark and the late loops. */
  lemma Course(files: Files, temporaries: seq<Name>, p1: map<Name, Place>, p2: map<Name, Place>, p3: map<Name, Place>, n: Name)
    requires n in files && (n.ExitTemporary? ==> n in temporaries) && forall m :: m in temporaries ==> m.ExitTemporary?
    requires AfterLoop(map[], p1, files, EARLY) && AfterLoop(p2, p3, files, Late(temporaries))
    requires p2 == Moved(Moved(p1, files, CancelMark, Top(CancelMark), InState(CancelMark)),
                         files, CancelMark, InState(CancelMark), CancelState)
    ensures Where(p3, n) == Relocate(n)
  {
    hide Late, Listed, Moved;
    EarlyIsComplete(n);
    EarlyIsComplete(CancelMark);
    LateIsComplete(n, temporaries);
    CancelMove(p1, files, n);
  }

  /** What `Move` leaves: the effect of one `mv` on where the files are. */
  function Moved(placed: map<Name, Place>, files: Files, n: Name, source: Place, target: Place): map<Name, Place> {
    if n in files && Where(placed, n) == source then placed[n := target] else placed
  }

  lemma CancelMove(p1: map<Name, Place>, files: Files, n: Name)
    requires n in files && (CancelMark in files ==> Where(p1, CancelMark) == Top(CancelMark))
    ensures Where(Moved(Moved(p1, files, CancelMark, Top(CancelMark), InState(CancelMark)),
                        files, CancelMark, InState(CancelMark), CancelState), n) == if n == CancelMark then CancelState else Where(p1, n)
  {
  }

  lemma ScriptMigrates(tree: Tree, files: Files, temporaries: seq<Name>, p1: map<Name, Place>, p2: map<Name, Place>, p3: map<Name, Place>)
    requires forall m :: m in temporaries ==> m.ExitTemporary?
    requires forall n | n in files && n.ExitTemporary? :: n in temporaries
    requires AfterLoop(map[], p1, files, EARLY) && AfterLoop(p2, p3, files, Late(temporaries))
    requires p2 == Moved(Moved(p1, files, CancelMark, Top(CancelMark), InState(CancelMark)),
                         files, CancelMark, InState(CancelMark), CancelState)
    requires Arranged(tree, files, p3)
    ensures Migrated(tree, files)
  {
    hide AfterLoop, Late, Listed, Moved, Arranged, Relocate, Migrated;
    forall n | n in files ensures Where(p3, n) == Relocate(n) {
      Course(files, temporaries, p1, p2, p3, n);
    }
    SettledIsMigrated(tree, files, p3);
  }

  lemma SettledIsMigrated(tree: Tree, files: Files, placed: map<Name, Place>)
    requires Arranged(tree, files, placed)
    requires forall n | n in files :: Where(placed, n) == Relocate(n)
    ensures Migrated(tree, files)
  {
  }

  /** A file on none of the lists stays where it was; the process identity file that the
      role layout looks for in its state directory is one of them. */
  lemma UnlistedFilesStay(tree: Tree, files: Files, name: string)
    requires Migrated(tree, files) && Other(name) in files
    ensures Top(Other(name)) in tree && InState(Other(name)) !in tree
  {
    assert Relocate(Other(name)) == Top(Other(name));
  }
}
