/** One compaction run over the nodes: batches under job locks, remote answers, and the
    memo on the head. */
module CompactBatch {
  import opened Common
  import NodePrune

  type Job = nat

  datatype Status =
    | StateChanged | Unreachable | Failed | Unsafe
    | Compacted | ReceiptRepaired | AlreadyCompact | Missing
    | Other(name: string)

  /** One parsed marker line of the remote program. */
  datatype Line = Line(job: Job, status: Status)

  /** The head could not launch the command, it failed or timed out on a node that may be
      the head itself, or it ended with some lines and a return code. */
  datatype Answer = NotLaunched | Raised(local: bool) | Answered(lines: seq<Line>, returncode: int)

  datatype Report = Report(job: Job, status: Status)

  const BATCH_SIZE: nat := 40

  /** Outcomes proving that the node holds no code tree for the job. */
  predicate ProvesPruned(s: Status) {
    s.Compacted? || s.ReceiptRepaired? || s.AlreadyCompact? || s.Missing?
  }

  /** Only the first line about a job counts. */
  function FirstLine(lines: seq<Line>, job: Job): Option<Status> {
    if lines == [] then None
    else if lines[0].job == job then Some(lines[0].status)
    else FirstLine(lines[1..], job)
  }

  function Verdict(answer: Answer, job: Job): Status {
    match answer
    case NotLaunched => Failed
    case Raised(local) => if local then Failed else Unreachable
    case Answered(lines, returncode) =>
      var first := FirstLine(lines, job);
      if first.Some? then first.value else if returncode == 255 then Unreachable else Failed
  }

  function Jobs(rows: seq<Report>): (r: seq<Job>)
    ensures |r| == |rows| && forall i | 0 <= i < |rows| :: r[i] == rows[i].job
  {
    seq(|rows|, i requires 0 <= i < |rows| => rows[i].job)
  }

  lemma JobsAppend(rows: seq<Report>, row: Report)
    ensures multiset(Jobs(rows + [row])) == multiset(Jobs(rows)) + multiset{row.job}
  {
    assert Jobs(rows + [row]) == Jobs(rows) + [row.job];
  }

  lemma OneMoreJob(jobs: seq<Job>, i: nat)
    requires i < |jobs|
    ensures multiset(jobs[..i + 1]) == multiset(jobs[..i]) + multiset{jobs[i]}
  {
    assert jobs[..i + 1] == jobs[..i] + [jobs[i]];
  }

  lemma OneJobLess(jobs: seq<Job>, i: nat)
    requires i < |jobs|
    ensures multiset(jobs[i..]) == multiset{jobs[i]} + multiset(jobs[i + 1..])
  {
    assert jobs[i..] == [jobs[i]] + jobs[i + 1..];
  }

  lemma NoJobs()
    ensures Jobs([]) == []
  {
  }

  function Flat(groups: seq<seq<Job>>): seq<Job> {
    if groups == [] then [] else Flat(groups[..|groups| - 1]) + groups[|groups| - 1]
  }

  /** What the run meets: whether a reloaded row still has the identity and state preflight
      saw, what the node answers to a batch, and whether saving a memo works. */
  datatype World = World(same: Job -> bool, answer: seq<Job> -> Answer, saves: Job -> bool)

  /** Why a row reads as it does: its identity changed, or some command that covered the
      job, with every other job of that command unchanged too, gave this verdict. */
  ghost predicate Justified(w: World, apply: bool, row: Report) {
    || (apply && !w.same(row.job) && row.status == StateChanged)
    || ((apply ==> w.same(row.job)) && exists batch :: InBatch(w, apply, batch, row))
  }

  ghost predicate InBatch(w: World, apply: bool, batch: seq<Job>, row: Report) {
    && row.job in batch && row.status == Verdict(w.answer(batch), row.job)
    && forall j | j in batch :: apply ==> w.same(j)
  }

  /** Line i is the first one about the job. */
  ghost predicate FirstAbout(lines: seq<Line>, i: int, job: Job) {
    0 <= i < |lines| && lines[i].job == job && forall k | 0 <= k < i :: lines[k].job != job
  }

  lemma {:induction false} FirstLineMeans(lines: seq<Line>, job: Job)
    ensures FirstLine(lines, job).None? <==> forall i | 0 <= i < |lines| :: lines[i].job != job
    ensures forall i | FirstAbout(lines, i, job) :: FirstLine(lines, job) == Some(lines[i].status)
    ensures FirstLine(lines, job).Some? ==> exists i :: FirstAbout(lines, i, job)
  {
    if lines != [] {
      var rest := lines[1..];
      FirstLineMeans(rest, job);
      if lines[0].job == job {
        assert FirstAbout(lines, 0, job);
      } else {
        forall i | FirstAbout(lines, i, job) ensures FirstLine(lines, job) == Some(lines[i].status) {
          assert FirstAbout(rest, i - 1, job);
        }
        if i :| FirstAbout(rest, i, job) {
          assert FirstAbout(lines, i + 1, job);
        }
        assert lines == [lines[0]] + rest;
      }
    }
  }

  /** The status of a job after a command that covered it. */
  ghost predicate Says(answer: Answer, job: Job, status: Status) {
    match answer
    case NotLaunched => status == Failed
    case Raised(local) => status == if local then Failed else Unreachable
    case Answered(lines, returncode) =>
      && (forall i | FirstAbout(lines, i, job) :: status == lines[i].status)
      && ((forall i | 0 <= i < |lines| :: lines[i].job != job) ==> status == if returncode == 255 then Unreachable else Failed)
  }

  lemma VerdictSays(answer: Answer, job: Job)
    ensures Says(answer, job, Verdict(answer, job))
    ensures answer.Answered? && Verdict(answer, job) !in {Unreachable, Failed} ==> exists i :: FirstAbout(answer.lines, i, job)
  {
    if answer.Answered? {
      FirstLineMeans(answer.lines, job);
    }
  }

  /** The command that gave a row its status: it covered the job and only jobs that were
      unchanged. */
  ghost predicate Covers(w: World, apply: bool, batch: seq<Job>, job: Job) {
    job in batch && forall j | j in batch :: apply ==> w.same(j)
  }

  ghost predicate Explained(w: World, apply: bool, row: Report) {
    exists batch :: Covers(w, apply, batch, row.job) && Says(w.answer(batch), row.job, row.status)
  }

  lemma RowsAreExplained(w: World, apply: bool, row: Report)
    requires Justified(w, apply, row)
    ensures apply && !w.same(row.job) ==> row.status == StateChanged
    ensures !apply || w.same(row.job) ==> Explained(w, apply, row)
  {
    if !apply || w.same(row.job) {
      var batch :| InBatch(w, apply, batch, row);
      VerdictSays(w.answer(batch), row.job);
      assert Covers(w, apply, batch, row.job);
    }
  }

  /** The first line about the job, in the answer to a command that covered it, names an
      outcome that leaves no code tree. */
  ghost predicate Proof(w: World, batch: seq<Job>, i: int, j: Job) {
    && Covers(w, true, batch, j) && w.answer(batch).Answered? && FirstAbout(w.answer(batch).lines, i, j)
    && w.answer(batch).lines[i].status in {Compacted, ReceiptRepaired, AlreadyCompact, Missing}
  }

  /** A memo rests on the first line about the job in the answer to its own batch. */
  lemma MemoIsProved(w: World, rows: seq<Report>, j: Job)
    requires (forall i | 0 <= i < |rows| :: Justified(w, true, rows[i])) && Shown(rows, j)
    ensures exists batch, i :: Proof(w, batch, i, j)
  {
    var k :| 0 <= k < |rows| && rows[k].job == j && ProvesPruned(rows[k].status);
    assert Justified(w, true, rows[k]);
    var batch :| InBatch(w, true, batch, rows[k]);
    VerdictSays(w.answer(batch), j);
    assert Covers(w, true, batch, j);
    var i :| FirstAbout(w.answer(batch).lines, i, j);
    assert Proof(w, batch, i, j);
  }

  ghost predicate Shown(rows: seq<Report>, j: Job) {
    exists i :: 0 <= i < |rows| && rows[i].job == j && ProvesPruned(rows[i].status)
  }

  class CompactRun {
    const w: World
    const apply: bool
    var rows: seq<Report>
    /** Jobs whose head row carries code_pruned_at. */
    var memo: set<Job>

    constructor (w: World, apply: bool, memo: set<Job>)
      ensures this.w == w && this.apply == apply && this.memo == memo && rows == []
    {
      this.w, this.apply, this.memo, rows := w, apply, memo, [];
    }

    /** Every row has a reason, and a job is memoed exactly when a row proves it pruned
        while its lock was held. */
    ghost predicate Valid(memo0: set<Job>)
      reads this
    {
      && (forall i | 0 <= i < |rows| :: Justified(w, apply, rows[i]))
      && (forall j :: j in memo <==> j in memo0 || (apply && w.saves(j) && Shown(rows, j)))
    }

    method Append(row: Report, ghost memo0: set<Job>)
      requires Valid(memo0) && Justified(w, apply, row)
      modifies this
      ensures Valid(memo0) && rows == old(rows) + [row]
      ensures multiset(Jobs(rows)) == multiset(Jobs(old(rows))) + multiset{row.job}
    {
      JobsAppend(rows, row);
      ghost var before := rows;
      rows := rows + [row];
      if apply && ProvesPruned(row.status) && w.saves(row.job) {
        memo := memo + {row.job};
      }
      forall j ensures Shown(rows, j) <==> Shown(before, j) || (row.job == j && ProvesPruned(row.status)) {
        if Shown(before, j) {
          var i :| 0 <= i < |before| && before[i].job == j && ProvesPruned(before[i].status);
          assert rows[i] == before[i];
        }
        if row.job == j && ProvesPruned(row.status) {
          assert rows[|before|] == row;
        }
      }
    }

    lemma ChangedIsJustified(job: Job)
      requires apply && !w.same(job)
      ensures Justified(w, apply, Report(job, StateChanged))
    {
    }

    lemma AnsweredIsJustified(batch: seq<Job>, row: Report)
      requires InBatch(w, apply, batch, row)
      ensures Justified(w, apply, row)
    {
    }

    /** One batch of one node, its job locks held. */
    method RunBatch(batch: seq<Job>, ghost memo0: set<Job>)
      requires Valid(memo0)
      modifies this
      ensures Valid(memo0) && multiset(Jobs(rows)) == multiset(Jobs(old(rows))) + multiset(batch)
    {
      hide Jobs, Valid, Justified;
      var stable: seq<Job> := [];
      for i := 0 to |batch|
        invariant Valid(memo0)
        invariant forall k | 0 <= k < |stable| :: apply ==> w.same(stable[k])
        invariant multiset(Jobs(rows)) + multiset(stable) == multiset(Jobs(old(rows))) + multiset(batch[..i])
      {
        OneMoreJob(batch, i);
        ghost var reported, kept, x := multiset(Jobs(rows)), multiset(stable), multiset{batch[i]};
        assert (reported + x) + kept == (reported + kept) + x == reported + (kept + x);
        if apply && !w.same(batch[i]) {
          ChangedIsJustified(batch[i]);
          Append(Report(batch[i], StateChanged), memo0);
        } else {
          assert multiset(stable + [batch[i]]) == multiset(stable) + multiset{batch[i]};
          stable := stable + [batch[i]];
        }
      }
      assert batch[..|batch|] == batch;
      if stable == [] {
        return;
      }
      var answer := w.answer(stable);
      for i := 0 to |stable|
        invariant Valid(memo0)
        invariant multiset(Jobs(rows)) + multiset(stable[i..]) == multiset(Jobs(old(rows))) + multiset(batch)
      {
        var row := Report(stable[i], Verdict(answer, stable[i]));
        assert InBatch(w, apply, stable, row);
        AnsweredIsJustified(stable, row);
        OneJobLess(stable, i);
        ghost var reported, left, x := multiset(Jobs(rows)), multiset(stable[i + 1..]), multiset{stable[i]};
        assert (reported + x) + left == reported + (x + left);
        Append(row, memo0);
      }
    }

    /** `_remote_rows`: node by node, batch by batch, every candidate gets exactly one row. */
    method RemoteRows(groups: seq<seq<Job>>)
      requires rows == []
      modifies this
      ensures Valid(old(memo)) && multiset(Jobs(rows)) == multiset(Flat(groups))
      // a row says what changed, or what a command that covered the job said of it
      ensures forall i | 0 <= i < |rows| && apply && !w.same(rows[i].job) :: rows[i].status == StateChanged
      ensures forall i | 0 <= i < |rows| && (!apply || w.same(rows[i].job)) :: Explained(w, apply, rows[i])
      // a job is memoed only on the first line about it in the answer to its batch, and only
      // when that is an outcome that leaves no code tree
      ensures !apply ==> memo == old(memo)
      ensures forall j | j in memo && j !in old(memo) ::
                exists batch, i :: Proof(w, batch, i, j)
      // and every row with such an outcome is memoed, if that can be saved
      ensures forall i | 0 <= i < |rows| && apply && w.saves(rows[i].job)
                         && rows[i].status in {Compacted, ReceiptRepaired, AlreadyCompact, Missing} :: rows[i].job in memo
    {
      ghost var memo0 := memo;
      assert Valid(memo0);
      hide Jobs, Valid;
      hide Explained, Proof;
      NoJobs();
      for g := 0 to |groups|
        invariant Valid(memo0) && multiset(Jobs(rows)) == multiset(Flat(groups[..g]))
      {
        var group := groups[g];
        assert groups[..g + 1][..g] == groups[..g];
        var offset := 0;
        while offset < |group|
          invariant offset <= |group| && Valid(memo0)
          invariant multiset(Jobs(rows)) == multiset(Flat(groups[..g])) + multiset(group[..offset])
        {
          var end := Min(offset + BATCH_SIZE, |group|);
          assert group[..end] == group[..offset] + group[offset..end];
          RunBatch(group[offset..end], memo0);
          offset := end;
        }
        assert group[..|group|] == group;
      }
      assert groups[..|groups|] == groups;
      WhatItMeans(memo0);
    }

    lemma WhatItMeans(memo0: set<Job>)
      requires Valid(memo0)
      ensures forall i | 0 <= i < |rows| && apply && !w.same(rows[i].job) :: rows[i].status == StateChanged
      ensures forall i | 0 <= i < |rows| && (!apply || w.same(rows[i].job)) :: Explained(w, apply, rows[i])
      ensures !apply ==> memo == memo0
      ensures forall j | j in memo && j !in memo0 ::
                exists batch, i :: Proof(w, batch, i, j)
      ensures forall i | 0 <= i < |rows| && apply && w.saves(rows[i].job)
                         && rows[i].status in {Compacted, ReceiptRepaired, AlreadyCompact, Missing} :: rows[i].job in memo
    {
      forall i | 0 <= i < |rows| && (!apply || w.same(rows[i].job))
        ensures Explained(w, apply, rows[i])
      {
        RowsAreExplained(w, apply, rows[i]);
      }
      forall j | j in memo && j !in memo0
        ensures exists batch, i :: Proof(w, batch, i, j)
      {
        MemoIsProved(w, rows, j);
      }
      forall i | 0 <= i < |rows| && apply && w.saves(rows[i].job)
                 && rows[i].status in {Compacted, ReceiptRepaired, AlreadyCompact, Missing}
        ensures rows[i].job in memo
      {
        assert Shown(rows, rows[i].job);
      }
    }
  }

  // ---------- a memo and the node's code tree ----------

  /** The marker line of one node-side outcome; a program that is cut prints none. */
  function Emitted(s: NodePrune.Status): Option<Status> {
    match s
    case Cut => None
    case Missing => Some(Missing)
    case AlreadyCompact => Some(AlreadyCompact)
    case ReceiptRepaired => Some(ReceiptRepaired)
    case Compacted => Some(Compacted)
    case RootUnavailable | Running | LivenessUnproven | ReceiptBesideCode => Some(StateChanged)
    case UnsafeRoot | UnsafeCode | UnsafeControl => Some(Unsafe)
    case ReceiptFailed | ListNotRecorded | NoSyncTool | DeleteFailed => Some(Failed)
    case ReceiptMissing => Some(Other("receipt_missing"))
    case CodeModified => Some(Other("code_modified"))
    case Planned => Some(Other("planned"))
  }

  /** The node holds no code tree for the job. */
  predicate NoCode(node: NodePrune.NodeJob)
    reads node
  {
    !node.present || node.code.Gone?
  }

  /** The part of the remote program that deals with one job. */
  method RunPart(job: Job, node: NodePrune.NodeJob, request: NodePrune.Request, host: NodePrune.Host, cut: nat)
    returns (line: Option<Line>)
    requires node.Valid()
    modifies node
    ensures node.Valid()
    ensures line.Some? ==> line.value.job == job
    ensures line.Some? && line.value.status in {Compacted, ReceiptRepaired, AlreadyCompact, Missing} ==> NoCode(node)
  {
    NodePrune.OnTreeIsPossible(node, host);
    var s := node.Run(request, NodePrune.OnTree(host, node.code, node.wrote), cut);
    return if Emitted(s).Some? then Some(Line(job, Emitted(s).value)) else None;
  }

  /** The remote program on the jobs of one batch, in their order, each part on its own tree
      and cut anywhere. */
  method RunProgram(batch: seq<Job>, nodes: seq<NodePrune.NodeJob>, requests: seq<NodePrune.Request>, hosts: seq<NodePrune.Host>,
                    cuts: seq<nat>) returns (lines: seq<Line>)
    requires |batch| == |nodes| == |requests| == |hosts| == |cuts|
    requires forall i, k | 0 <= i < k < |nodes| :: nodes[i] != nodes[k] && batch[i] != batch[k]
    requires forall i | 0 <= i < |nodes| :: nodes[i].Valid()
    modifies set i | 0 <= i < |nodes| :: nodes[i]
    ensures forall i | 0 <= i < |nodes| :: nodes[i].Valid()
    ensures forall l | l in lines :: l.job in batch
    ensures forall l, i | l in lines && 0 <= i < |batch| && batch[i] == l.job
              && l.status in {Compacted, ReceiptRepaired, AlreadyCompact, Missing} :: NoCode(nodes[i])
  {
    lines := [];
    for i := 0 to |batch|
      invariant forall k | 0 <= k < |nodes| :: nodes[k].Valid()
      invariant forall l | l in lines :: l.job in batch[..i]
      invariant forall l, k | l in lines && 0 <= k < i && batch[k] == l.job
                  && l.status in {Compacted, ReceiptRepaired, AlreadyCompact, Missing} :: NoCode(nodes[k])
    {
      var line := RunPart(batch[i], nodes[i], requests[i], hosts[i], cuts[i]);
      assert batch[..i + 1] == batch[..i] + [batch[i]];
      if line.Some? {
        lines := lines + [line.value];
      }
    }
  }

  /** One batch of unchanged jobs, compacted by that program: every job that the head
      memoes as pruned has no code tree left on its node, whatever the return code. */
  method MemoMeansGone(batch: seq<Job>, nodes: seq<NodePrune.NodeJob>, requests: seq<NodePrune.Request>, hosts: seq<NodePrune.Host>,
                       cuts: seq<nat>, returncode: int, saves: Job -> bool, memo: set<Job>) returns (run: CompactRun)
    requires |batch| == |nodes| == |requests| == |hosts| == |cuts|
    requires forall i, k | 0 <= i < k < |nodes| :: nodes[i] != nodes[k] && batch[i] != batch[k]
    requires forall i | 0 <= i < |nodes| :: nodes[i].Valid()
    modifies set i | 0 <= i < |nodes| :: nodes[i]
    ensures memo <= run.memo
    ensures forall j | j in run.memo && j !in memo :: exists i :: 0 <= i < |batch| && batch[i] == j && NoCode(nodes[i])
  {
    var lines := RunProgram(batch, nodes, requests, hosts, cuts);
    var w := World(_ => true, _ => Answered(lines, returncode), saves);
    run := new CompactRun(w, true, memo);
    run.RemoteRows([batch]);
    forall j | j in run.memo && j !in memo ensures exists i :: 0 <= i < |batch| && batch[i] == j && NoCode(nodes[i]) {
      var covered, k :| Proof(w, covered, k, j);
      assert lines[k] in lines;
      var i :| 0 <= i < |batch| && batch[i] == j;
    }
  }
}
