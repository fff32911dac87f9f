/** Clean sweeps and compaction batches that delete concurrently: the head must keep
    the archive of every registered job whose node-side code compaction deleted. */
module Retention {
  import opened Common

  type Job = nat
  type Digest = nat
  type Pid = nat

  /** A registry row; a job's digest never changes while its row exists. */
  datatype Row = Row(digest: Digest, readable: bool)

  /** A submission that captured its source but has not registered its job yet. */
  datatype Submission = Submission(digest: Digest, capturedAt: nat)

  datatype Proc =
    | Sweep(cutoff: nat, removed: set<Digest>)
    | Cleaning(cutoff: nat, removed: set<Digest>, job: Job)       // job lock held, victim revalidated
    | Collecting(cutoff: nat, pending: set<Digest>)               // snapshot-store lock held
    | Attesting(listed: map<Job, Digest>, candidates: map<Job, Digest>)
    | Pruning(candidates: map<Job, Digest>, batch: set<Job>, stable: set<Job>)  // job locks of the batch held

  datatype State = State(
    clock: nat,
    rows: map<Job, Row>,
    used: set<Job>,                        // ids ever handed out
    store: map<Digest, nat>,               // intact archives with their modification times
    inFlight: map<nat, Submission>,
    pruned: set<Job>,                      // node-side code deleted by compaction
    procs: map<Pid, Proc>)

  datatype Action =
    | Tick
    | Capture(sub: nat, digest: Digest)
    | Register(sub: nat, job: Job)
    | Fork(source: Job, job: Job)
    | SetReadable(job: Job, readable: bool)
    | StartSweep(pid: Pid, cutoff: nat)
    | LockRow(pid: Pid, job: Job)
    | RemoveRow(pid: Pid)
    | SkipRow(pid: Pid)
    | StartCollect(pid: Pid)
    | DropDigest(pid: Pid, digest: Digest)
    | ListRows(pid: Pid, picked: set<Job>)
    | Attest(pid: Pid, digest: Digest)
    | LockBatch(pid: Pid, batch: set<Job>)
    | Prune(pid: Pid, job: Job)
    | EndBatch(pid: Pid)
    | Exit(pid: Pid)                       // finished, or crashed anywhere

  predicate Holds(proc: Proc, j: Job) {
    (proc.Cleaning? && proc.job == j) || (proc.Pruning? && j in proc.batch)
  }

  predicate JobLockFree(s: State, j: Job) {
    forall p | p in s.procs :: !Holds(s.procs[p], j)
  }

  predicate StoreLockFree(s: State) {
    forall p | p in s.procs :: !s.procs[p].Collecting?
  }

  /** The digests that the rows refer to, as far as they can be read. */
  function Referenced(rows: map<Job, Row>): (r: set<Digest>)
    ensures forall d :: d in r <==> exists j :: j in rows && rows[j].readable && rows[j].digest == d
  {
    set j | j in rows && rows[j].readable :: rows[j].digest
  }

  /** A collector that still has the digest on its list finds its archive old enough to drop. */
  predicate Threatens(s: State, p: Pid, digest: Digest) {
    && p in s.procs && s.procs[p].Collecting? && digest in s.procs[p].pending
    && digest in s.store && s.store[digest] < s.procs[p].cutoff
  }

  /** No collector is about to drop the archive this submission captured. */
  predicate Timely(s: State, sub: Submission) {
    forall p | p in s.procs :: !Threatens(s, p, sub.digest)
  }

  predicate OnTime(s: State, a: Action) {
    a.Register? && a.sub in s.inFlight ==> Timely(s, s.inFlight[a.sub])
  }

  /** What preflight lists: the readable rows its age, status and identity gates picked. */
  function Listed(s: State, picked: set<Job>): map<Job, Digest> {
    map j | j in s.rows && s.rows[j].readable && j in picked :: s.rows[j].digest
  }

  function Matching(m: map<Job, Digest>, d: Digest): map<Job, Digest> {
    map j | j in m && m[j] == d :: d
  }

  /** The batch members whose reloaded row still has the identity preflight saw. */
  function Stable(s: State, candidates: map<Job, Digest>, batch: set<Job>): set<Job> {
    set j | j in batch && j in candidates && j in s.rows && s.rows[j].readable && s.rows[j].digest == candidates[j]
  }

  predicate OfProc(a: Action) {
    !a.Tick? && !a.Capture? && !a.Register? && !a.Fork? && !a.SetReadable?
  }

  predicate Enabled(s: State, a: Action) {
    match a
    case Tick => true
    case Capture(sub, _) => sub !in s.inFlight && StoreLockFree(s)
    case Register(sub, job) =>
      sub in s.inFlight && job !in s.used
    case Fork(source, job) => source in s.rows && JobLockFree(s, source) && job !in s.used
    case SetReadable(job, _) => job in s.rows
    case StartSweep(pid, _) => pid !in s.procs
    case LockRow(pid, job) =>
      pid in s.procs && s.procs[pid].Sweep? && JobLockFree(s, job) && job in s.rows && s.rows[job].readable
    case RemoveRow(pid) => pid in s.procs && s.procs[pid].Cleaning? && s.procs[pid].job in s.rows
    case SkipRow(pid) => pid in s.procs && s.procs[pid].Cleaning?
    case StartCollect(pid) =>
      pid in s.procs && s.procs[pid].Sweep? && StoreLockFree(s)
      // fails closed: one unreadable row and nothing is collected
      && (forall j | j in s.rows :: s.rows[j].readable)
    case DropDigest(pid, digest) =>
      pid in s.procs && s.procs[pid].Collecting? && digest in s.procs[pid].pending
      && digest in s.store && s.store[digest] < s.procs[pid].cutoff
    case ListRows(pid, _) => pid !in s.procs
    case Attest(pid, digest) => pid in s.procs && s.procs[pid].Attesting? && digest in s.store
    case LockBatch(pid, batch) =>
      pid in s.procs && s.procs[pid].Attesting? && batch <= s.procs[pid].candidates.Keys
      && (forall j | j in batch :: JobLockFree(s, j))
    case Prune(pid, job) => pid in s.procs && s.procs[pid].Pruning? && job in s.procs[pid].stable
    case EndBatch(pid) => pid in s.procs && s.procs[pid].Pruning?
    case Exit(pid) => pid in s.procs
  }

  /** Where the process of a step goes; None when it ends. */
  function NextProc(s: State, a: Action): Option<Proc>
    requires OfProc(a) && Enabled(s, a)
  {
    match a
    case StartSweep(_, cutoff) => Some(Sweep(cutoff, {}))
    case LockRow(pid, job) => Some(Cleaning(s.procs[pid].cutoff, s.procs[pid].removed, job))
    case RemoveRow(pid) =>
      Some(Sweep(s.procs[pid].cutoff, s.procs[pid].removed + {s.rows[s.procs[pid].job].digest}))
    case SkipRow(pid) => Some(Sweep(s.procs[pid].cutoff, s.procs[pid].removed))
    case StartCollect(pid) => Some(Collecting(s.procs[pid].cutoff, s.procs[pid].removed - Referenced(s.rows)))
    case DropDigest(pid, digest) => Some(Collecting(s.procs[pid].cutoff, s.procs[pid].pending - {digest}))
    case ListRows(_, picked) => Some(Attesting(Listed(s, picked), map[]))
    case Attest(pid, digest) =>
      Some(Attesting(s.procs[pid].listed,
                     s.procs[pid].candidates + Matching(s.procs[pid].listed, digest)))
    case LockBatch(pid, batch) =>
      Some(Pruning(s.procs[pid].candidates, batch, Stable(s, s.procs[pid].candidates, batch)))
    case Prune(pid, _) => Some(s.procs[pid])
    case EndBatch(pid) => Some(Attesting(map[], s.procs[pid].candidates))
    case Exit(_) => None
  }

  /** The registry, store and node effects of a step. */
  function Effect(s: State, a: Action): State
    requires Enabled(s, a)
  {
    match a
    case Tick => s.(clock := s.clock + 1)
    case Capture(sub, digest) =>
      s.(store := s.store[digest := s.clock], inFlight := s.inFlight[sub := Submission(digest, s.clock)])
    case Register(sub, job) =>
      s.(rows := s.rows[job := Row(s.inFlight[sub].digest, true)], used := s.used + {job}, inFlight := s.inFlight - {sub})
    case Fork(source, job) =>
      s.(rows := s.rows[job := Row(s.rows[source].digest, true)], used := s.used + {job})
    case SetReadable(job, readable) => s.(rows := s.rows[job := s.rows[job].(readable := readable)])
    case RemoveRow(pid) => s.(rows := s.rows - {s.procs[pid].job})
    case DropDigest(_, digest) => s.(store := s.store - {digest})
    case Prune(_, job) => s.(pruned := s.pruned + {job})
    case _ => s
  }

  function SetProc(s: State, pid: Pid, next: Option<Proc>): State {
    s.(procs := if next.Some? then s.procs[pid := next.value] else s.procs - {pid})
  }

  function After(s: State, a: Action): State
    requires Enabled(s, a)
  {
    if OfProc(a) then SetProc(Effect(s, a), a.pid, NextProc(s, a)) else Effect(s, a)
  }

  ghost predicate Step(s: State, a: Action, s': State) {
    Enabled(s, a) && s' == After(s, a)
  }

  ghost predicate Init(s: State) {
    && s.procs == map[] && s.pruned == {} && s.inFlight == map[] && s.rows.Keys <= s.used
    && (forall d | d in s.store :: s.store[d] <= s.clock)
  }

  // ---------- the invariant ----------

  /** Every registered job that compaction pruned still has its archive on the head. */
  ghost predicate ArchivesKept(s: State) {
    forall j | j in s.pruned && j in s.rows :: s.rows[j].digest in s.store
  }

  ghost predicate RowsIn(m: map<Job, Digest>, s: State) {
    forall j | j in m && j in s.rows && s.rows[j].digest == m[j] :: m[j] in s.store
  }

  ghost predicate ProcOk(s: State, proc: Proc) {
    match proc
    case Sweep(_, _) => true
    case Cleaning(_, _, job) => job in s.used
    case Collecting(cutoff, pending) =>
      // a digest about to be dropped is unreferenced, or too young to be dropped
      forall j | j in s.rows && s.rows[j].digest in pending && s.rows[j].digest in s.store ::
        s.store[s.rows[j].digest] >= cutoff
    case Attesting(listed, candidates) =>
      listed.Keys <= s.used && candidates.Keys <= s.used && RowsIn(candidates, s)
    case Pruning(candidates, batch, stable) =>
      && candidates.Keys <= s.used && RowsIn(candidates, s)
      && stable <= batch <= candidates.Keys
      && (forall j | j in stable :: j in candidates && j in s.rows && s.rows[j].digest == candidates[j])
  }

  ghost predicate Mutex(s: State) {
    && (forall p, q, j | p in s.procs && q in s.procs && p != q && Holds(s.procs[p], j) :: !Holds(s.procs[q], j))
    && (forall p, q | p in s.procs && q in s.procs && p != q && s.procs[p].Collecting? :: !s.procs[q].Collecting?)
  }

  ghost predicate Books(s: State) {
    && s.rows.Keys <= s.used && s.pruned <= s.used
    && (forall d | d in s.store :: s.store[d] <= s.clock)
    && (forall u | u in s.inFlight :: s.inFlight[u].capturedAt <= s.clock)
    && (forall u | u in s.inFlight :: s.inFlight[u].digest in s.store ==> s.inFlight[u].capturedAt <= s.store[s.inFlight[u].digest])
  }

  ghost predicate Invariant(s: State) {
    && ArchivesKept(s) && Mutex(s) && Books(s)
    && (forall p | p in s.procs :: ProcOk(s, s.procs[p]))
  }

  // ---------- every step keeps it ----------

  lemma EffectKeepsBooks(s: State, a: Action)
    requires Invariant(s) && Enabled(s, a) && OnTime(s, a)
    ensures Books(Effect(s, a))
  {
    hide ArchivesKept, Mutex, Holds;
    if a.Prune? {
      assert ProcOk(s, s.procs[a.pid]);
    }
  }

  /** A dropped digest is referenced by no registered row, readable or not. */
  lemma DroppedIsUnreferenced(s: State, pid: Pid, digest: Digest, j: Job)
    requires Invariant(s) && Enabled(s, DropDigest(pid, digest)) && j in s.rows
    ensures s.rows[j].digest != digest
  {
    assert ProcOk(s, s.procs[pid]);
  }

  lemma EffectKeepsArchives(s: State, a: Action)
    requires Invariant(s) && Enabled(s, a) && OnTime(s, a)
    ensures ArchivesKept(Effect(s, a))
  {
    hide Mutex, Holds;
    var e := Effect(s, a);
    forall j | j in e.pruned && j in e.rows ensures e.rows[j].digest in e.store {
      match a
      case DropDigest(pid, digest) => DroppedIsUnreferenced(s, pid, digest, j);
      case Prune(pid, job) => assert ProcOk(s, s.procs[pid]);
      case _ => assert j in s.pruned && j in s.rows;
    }
  }

  lemma EffectKeepsProc(s: State, a: Action, p: Pid)
    requires Invariant(s) && Enabled(s, a) && OnTime(s, a) && p in s.procs && (a.RemoveRow? ==> a.pid != p)
    ensures ProcOk(Effect(s, a), s.procs[p])
  {
    assert ProcOk(s, s.procs[p]);
    if a.DropDigest? {
      forall j | j in s.rows ensures s.rows[j].digest != a.digest {
        DroppedIsUnreferenced(s, a.pid, a.digest, j);
      }
    } else if a.RemoveRow? {
      assert Holds(s.procs[a.pid], s.procs[a.pid].job);
    }
  }

  lemma NextProcOk(s: State, a: Action)
    requires Invariant(s) && OfProc(a) && Enabled(s, a) && OnTime(s, a) && NextProc(s, a).Some?
    ensures ProcOk(Effect(s, a), NextProc(s, a).value)
  {
    if a.pid in s.procs {
      assert ProcOk(s, s.procs[a.pid]);
    }
  }

  lemma NextKeepsMutex(s: State, a: Action)
    requires Mutex(s) && Enabled(s, a) && OnTime(s, a)
    ensures Mutex(After(s, a))
  {
  }

  lemma ProcOkFrame(s: State, s': State, proc: Proc)
    requires ProcOk(s, proc) && s'.rows == s.rows && s'.used == s.used && s'.store == s.store
    ensures ProcOk(s', proc)
  {
  }

  lemma SameStores(s: State, s': State)
    requires s' == s.(procs := s'.procs) && Books(s) && ArchivesKept(s)
    ensures Books(s') && ArchivesKept(s')
  {
  }

  lemma StepKeepsProc(s: State, a: Action, s': State, p: Pid)
    requires Invariant(s) && Step(s, a, s') && OnTime(s, a) && p in s'.procs
    ensures ProcOk(s', s'.procs[p])
  {
    if OfProc(a) && p == a.pid {
      NextProcOk(s, a);
    } else {
      EffectKeepsProc(s, a, p);
    }
    hide Effect, NextProc, Enabled, Mutex, Holds, ProcOk;
    ProcOkFrame(Effect(s, a), s', s'.procs[p]);
  }

  lemma StepKeepsStores(s: State, a: Action, s': State)
    requires Invariant(s) && Step(s, a, s') && OnTime(s, a)
    ensures Books(s') && ArchivesKept(s') && Mutex(s')
  {
    hide Effect, NextProc, Enabled, Mutex, ProcOk, Books, ArchivesKept, OnTime;
    EffectKeepsBooks(s, a);
    EffectKeepsArchives(s, a);
    NextKeepsMutex(s, a);
    SameStores(Effect(s, a), s');
  }

  lemma StepKeeps(s: State, a: Action, s': State)
    requires Invariant(s) && Step(s, a, s') && OnTime(s, a)
    ensures Invariant(s')
  {
    hide Step, Mutex, ProcOk, Books, ArchivesKept;
    StepKeepsStores(s, a, s');
    forall p | p in s'.procs ensures ProcOk(s', s'.procs[p]) {
      StepKeepsProc(s, a, s', p);
    }
  }

  // ---------- whole runs ----------

  ghost predicate Path(run: seq<State>, acts: seq<Action>) {
    && |run| == |acts| + 1
    && forall i | 0 <= i < |acts| :: Step(run[i], acts[i], run[i + 1])
  }

  ghost predicate Run(run: seq<State>, acts: seq<Action>) {
    Path(run, acts) && Init(run[0])
  }

  /** No submission registers while a collector is about to drop its archive. */
  ghost predicate AllOnTime(run: seq<State>, acts: seq<Action>)
    requires |run| == |acts| + 1
  {
    forall i | 0 <= i < |acts| :: OnTime(run[i], acts[i])
  }

  lemma {:induction false} PathKeeps(run: seq<State>, acts: seq<Action>, i: nat)
    requires Path(run, acts) && Invariant(run[0]) && AllOnTime(run, acts) && i < |run|
    ensures Invariant(run[i])
  {
    if i > 0 {
      PathKeeps(run, acts, i - 1);
      StepKeeps(run[i - 1], acts[i - 1], run[i]);
    }
  }

  lemma EveryRunKeeps(run: seq<State>, acts: seq<Action>, i: nat)
    requires Run(run, acts) && AllOnTime(run, acts) && i < |run|
    ensures Invariant(run[i])
  {
    assert Invariant(run[0]);
    hide Invariant, Init;
    PathKeeps(run, acts, i);
  }

  /** Over any interleaving of sweeps, batches, submissions and crashes: a job that is
      still registered, and whose node-side code compaction deleted, can be recovered. */
  lemma EveryPrunedJobIsRecoverable(run: seq<State>, acts: seq<Action>, i: nat, j: Job)
    requires Run(run, acts) && AllOnTime(run, acts) && i < |run|
    requires j in run[i].pruned && j in run[i].rows
    ensures run[i].rows[j].digest in run[i].store
  {
    EveryRunKeeps(run, acts, i);
  }

  /** An archive leaves the store only by a collector, only when no registered row,
      readable or not, references it. */
  lemma OnlyUnreferencedArchivesGo(run: seq<State>, acts: seq<Action>, i: nat, d: Digest)
    requires Run(run, acts) && AllOnTime(run, acts) && i < |acts|
    requires d in run[i].store && d !in run[i + 1].store
    ensures acts[i] == DropDigest(acts[i].pid, d)
    ensures forall j | j in run[i].rows :: run[i].rows[j].digest != d
  {
    EveryRunKeeps(run, acts, i);
    var a := acts[i];
    assert Step(run[i], a, run[i + 1]);
    assert a.DropDigest? && a.digest == d;
    forall j | j in run[i].rows ensures run[i].rows[j].digest != d {
      DroppedIsUnreferenced(run[i], a.pid, d, j);
    }
  }

  /** A submission that registers before any running sweep's cutoff passes its capture is
      on time. */
  lemma PromptIsOnTime(s: State, sub: nat, job: Job)
    requires Invariant(s) && sub in s.inFlight
    requires forall p | p in s.procs && s.procs[p].Collecting? :: s.procs[p].cutoff <= s.inFlight[sub].capturedAt
    ensures OnTime(s, Register(sub, job))
  {
  }

  // ---------- being on time is exactly what is needed ----------

  lemma FreshPid(procs: map<Pid, Proc>) returns (q: Pid)
    ensures q !in procs
  {
    q := Bound(procs.Keys);
  }

  lemma {:induction false} Bound(pids: set<Pid>) returns (q: Pid)
    ensures forall p | p in pids :: p < q
    decreases pids
  {
    q := 0;
    if pids != {} {
      var p :| p in pids;
      var rest := Bound(pids - {p});
      q := if p < rest then rest else p + 1;
      forall r | r in pids ensures r < q {
        assert r == p || r in pids - {p};
      }
    }
  }

  lemma NobodyHoldsTheNew(s: State, job: Job)
    requires Invariant(s) && job !in s.used
    ensures JobLockFree(s, job)
  {
    forall p | p in s.procs ensures !Holds(s.procs[p], job) {
      assert ProcOk(s, s.procs[p]);
    }
  }

  lemma ListsTheJob(s: State, q: Pid, job: Job, d: Digest)
    requires q !in s.procs && job in s.rows && s.rows[job] == Row(d, true)
    ensures Step(s, ListRows(q, {job}), s.(procs := s.procs[q := Attesting(map[job := d], map[])]))
  {
    assert Listed(s, {job}) == map[job := d];
  }

  lemma AttestsTheJob(s: State, q: Pid, job: Job, d: Digest)
    requires d in s.store && q in s.procs && s.procs[q] == Attesting(map[job := d], map[])
    ensures Step(s, Attest(q, d), s.(procs := s.procs[q := Attesting(map[job := d], map[job := d])]))
  {
    assert map[] + Matching(map[job := d], d) == map[job := d];
  }

  lemma LocksTheJob(s: State, q: Pid, job: Job, d: Digest)
    requires job in s.rows && s.rows[job] == Row(d, true) && JobLockFree(s, job)
    requires q in s.procs && s.procs[q] == Attesting(map[job := d], map[job := d])
    ensures Step(s, LockBatch(q, {job}), s.(procs := s.procs[q := Pruning(map[job := d], {job}, {job})]))
  {
    assert Stable(s, map[job := d], {job}) == {job};
  }

  lemma PrunesTheJob(s: State, q: Pid, job: Job, d: Digest)
    requires q in s.procs && s.procs[q] == Pruning(map[job := d], {job}, {job})
    ensures Step(s, Prune(q, job), s.(pruned := s.pruned + {job}))
  {
    assert s.procs[q := s.procs[q]] == s.procs;
  }

  lemma DropsTheArchive(s: State, p: Pid, job: Job, d: Digest)
    requires Threatens(s, p, d) && job in s.rows && s.rows[job].digest == d && job in s.pruned
    ensures Enabled(s, DropDigest(p, d)) && !ArchivesKept(After(s, DropDigest(p, d)))
  {
    var s' := After(s, DropDigest(p, d));
    assert job in s'.pruned && job in s'.rows && s'.rows[job].digest == d;
  }

  lemma Extend(run: seq<State>, acts: seq<Action>, a: Action, s: State)
    requires Path(run, acts) && Step(run[|acts|], a, s)
    ensures Path(run + [s], acts + [a])
  {
    hide Step;
    var run', acts' := run + [s], acts + [a];
    forall i | 0 <= i < |acts'| ensures Step(run'[i], acts'[i], run'[i + 1]) {
      assert i < |acts| ==> Step(run[i], acts[i], run[i + 1]);
    }
  }

  lemma SetTwice(procs: map<Pid, Proc>, q: Pid, first: Proc, second: Proc)
    ensures procs[q := first][q := second] == procs[q := second]
  {
  }

  /** A compaction batch over one registered job whose archive is there. */
  lemma CompactsTheJob(s: State, q: Pid, job: Job, d: Digest) returns (run: seq<State>, acts: seq<Action>)
    requires q !in s.procs && job in s.rows && s.rows[job] == Row(d, true) && d in s.store && JobLockFree(s, job)
    ensures Path(run, acts) && run[0] == s && |acts| == 4 && forall i | 0 <= i < 4 :: OfProc(acts[i])
    ensures run[4] == s.(procs := s.procs[q := Pruning(map[job := d], {job}, {job})], pruned := s.pruned + {job})
  {
    var c := map[job := d];
    SetTwice(s.procs, q, Attesting(c, map[]), Attesting(c, c));
    SetTwice(s.procs, q, Attesting(c, c), Pruning(c, {job}, {job}));
    hide Step;
    ListsTheJob(s, q, job, d);
    var s1 := s.(procs := s.procs[q := Attesting(c, map[])]);
    AttestsTheJob(s1, q, job, d);
    var s2 := s.(procs := s.procs[q := Attesting(c, c)]);
    LocksTheJob(s2, q, job, d);
    var s3 := s.(procs := s.procs[q := Pruning(c, {job}, {job})]);
    PrunesTheJob(s3, q, job, d);
    var s4 := s3.(pruned := s3.pruned + {job});
    run := [s, s1, s2, s3, s4];
    acts := [ListRows(q, {job}), Attest(q, d), LockBatch(q, {job}), Prune(q, job)];
  }

  /** A late registration leaves a registered job whose archive a collector may drop next. */
  lemma LateRegistration(s: State, sub: nat, job: Job) returns (p: Pid)
    requires Invariant(s) && Enabled(s, Register(sub, job)) && !OnTime(s, Register(sub, job))
    ensures var s', d := After(s, Register(sub, job)), s.inFlight[sub].digest;
            && s'.procs == s.procs && job in s'.rows && s'.rows[job] == Row(d, true) && JobLockFree(s', job)
            && Threatens(s', p, d)
            && Enabled(s', DropDigest(p, d)) && d in Referenced(After(s', DropDigest(p, d)).rows)
            && d !in After(s', DropDigest(p, d)).store
  {
    var d := s.inFlight[sub].digest;
    p :| p in s.procs && Threatens(s, p, d);
    NobodyHoldsTheNew(s, job);
    hide Invariant;
    var s' := After(s, Register(sub, job));
    assert job in After(s', DropDigest(p, d)).rows;
  }

  /** From every safe state: after a registration that is not on time, a compaction batch
      and one drop lose the archive of a pruned job. */
  lemma LateLosesAnArchive(s: State, sub: nat, job: Job) returns (run: seq<State>, acts: seq<Action>)
    requires Invariant(s) && Enabled(s, Register(sub, job)) && !OnTime(s, Register(sub, job))
    ensures Path(run, acts) && run[0] == After(s, Register(sub, job))
    ensures AllOnTime(run, acts)
    ensures !ArchivesKept(run[|acts|])
  {
    var p := LateRegistration(s, sub, job);
    var q := FreshPid(s.procs);
    hide Invariant, ArchivesKept, After, Enabled, Effect, NextProc, Referenced, JobLockFree, Path;
    var s0, d := After(s, Register(sub, job)), s.inFlight[sub].digest;
    run, acts := CompactsTheJob(s0, q, job, d);
    DropsTheArchive(run[4], p, job, d);
    var s5 := After(run[4], DropDigest(p, d));
    Extend(run, acts, DropDigest(p, d), s5);
    run, acts := run + [s5], acts + [DropDigest(p, d)];
  }

  /** A registration is on time exactly when what follows it is safe: as long as every
      later one is on time, each pruned and registered job keeps its archive. */
  lemma OnTimeExactly(s: State, sub: nat, job: Job)
    requires Invariant(s) && Enabled(s, Register(sub, job))
    ensures OnTime(s, Register(sub, job)) <==>
            forall run, acts ::
              Path(run, acts) && run[0] == After(s, Register(sub, job)) && AllOnTime(run, acts) ==> ArchivesKept(run[|acts|])
  {
    var a := Register(sub, job);
    if OnTime(s, a) {
      assert Step(s, a, After(s, a));
      StepKeeps(s, a, After(s, a));
      hide After, Enabled, Mutex, Books, ProcOk, ArchivesKept, Path, AllOnTime;
      forall run, acts | Path(run, acts) && run[0] == After(s, a) && AllOnTime(run, acts)
        ensures ArchivesKept(run[|acts|])
      {
        PathLength(run, acts);
        PathKeeps(run, acts, |acts|);
      }
    } else {
      var run, acts := LateLosesAnArchive(s, sub, job);
    }
  }

  lemma PathLength(run: seq<State>, acts: seq<Action>)
    requires Path(run, acts)
    ensures |run| == |acts| + 1
  {
  }

  // ---------- and runs that are not on time exist ----------

  /** A collector about to drop digest 7, and a submission that captured it two ticks ago. */
  const LATE := State(2, map[], {0}, map[7 := 0], map[0 := Submission(7, 0)], {}, map[1 := Collecting(1, {7})])

  lemma LateThreatens()
    ensures Enabled(LATE, Register(0, 1)) && !OnTime(LATE, Register(0, 1))
  {
    assert Threatens(LATE, 1, 7);
  }

  /** A submission captures what job 0 already has, and a sweep removes that job's row
      and starts collecting before the submission registers. */
  lemma LateIsReached() returns (run: seq<State>, acts: seq<Action>)
    ensures Run(run, acts) && AllOnTime(run, acts) && run[|acts|] == LATE
    ensures Enabled(LATE, Register(0, 1)) && !OnTime(LATE, Register(0, 1))
  {
    var rows: map<Job, Row>, store: map<Digest, nat> := map[0 := Row(7, true)], map[7 := 0];
    var sub: map<nat, Submission> := map[0 := Submission(7, 0)];
    var s0 := State(0, rows, {0}, map[], map[], {}, map[]);
    var s1 := State(0, rows, {0}, store, sub, {}, map[]);
    var s2, s3 := s1.(clock := 1), s1.(clock := 2);
    var s4 := s3.(procs := map[1 := Sweep(1, {})]);
    var s5 := s3.(procs := map[1 := Cleaning(1, {}, 0)]);
    var s6 := s3.(rows := map[], procs := map[1 := Sweep(1, {7})]);
    LateThreatens();
    hide Step, Init, Enabled, OnTime, Timely, Threatens;
    LateCaptures(s0, s1, s2, s3);
    LateRemoves(s3, s4, s5, s6);
    LateCollects(s6);
    run := [s0, s1, s2, s3, s4, s5, s6, LATE];
    acts := [Capture(0, 7), Tick, Tick, StartSweep(1, 1), LockRow(1, 0), RemoveRow(1), StartCollect(1)];
  }

  lemma LateCaptures(s0: State, s1: State, s2: State, s3: State)
    requires s0 == State(0, map[0 := Row(7, true)], {0}, map[], map[], {}, map[])
    requires s1 == s0.(store := map[7 := 0], inFlight := map[0 := Submission(7, 0)])
    requires s2 == s1.(clock := 1) && s3 == s1.(clock := 2)
    ensures Step(s0, Capture(0, 7), s1) && Step(s1, Tick, s2) && Step(s2, Tick, s3) && Init(s0)
  {
  }

  lemma LateRemoves(s3: State, s4: State, s5: State, s6: State)
    requires s3 == State(2, map[0 := Row(7, true)], {0}, map[7 := 0], map[0 := Submission(7, 0)], {}, map[])
    requires s4 == s3.(procs := map[1 := Sweep(1, {})])
    requires s5 == s3.(procs := map[1 := Cleaning(1, {}, 0)])
    requires s6 == s3.(rows := map[], procs := map[1 := Sweep(1, {7})])
    ensures Step(s3, StartSweep(1, 1), s4) && Step(s4, LockRow(1, 0), s5) && Step(s5, RemoveRow(1), s6)
  {
    assert s3.procs[1 := Sweep(1, {})] == s4.procs;
    assert s4.procs[1 := Cleaning(1, {}, 0)] == s5.procs;
    assert s5.rows - {0} == map[] && s5.procs[1 := Sweep(1, {7})] == s6.procs && {} + {7} == {7};
  }

  lemma LateCollects(s6: State)
    requires s6 == State(2, map[], {0}, map[7 := 0], map[0 := Submission(7, 0)], {}, map[1 := Sweep(1, {7})])
    ensures Step(s6, StartCollect(1), LATE)
  {
    assert {7} - Referenced(map[]) == {7} && s6.procs[1 := Collecting(1, {7})] == LATE.procs;
  }

  /** So the property fails in a run from the start. */
  lemma SomeRunLosesAnArchive() returns (run: seq<State>, acts: seq<Action>)
    ensures Run(run, acts) && !ArchivesKept(run[|acts|])
  {
    run, acts := LateIsReached();
    EveryRunKeeps(run, acts, |acts|);
    var more, after := LateLosesAnArchive(LATE, 0, 1);
    hide Invariant, ArchivesKept, Enabled, OnTime;
    assert Step(LATE, Register(0, 1), After(LATE, Register(0, 1)));
    hide After;
    Extend(run, acts, Register(0, 1), more[0]);
    Join(run + [more[0]], acts + [Register(0, 1)], more, after);
    run, acts := run + [more[0]] + more[1..], acts + [Register(0, 1)] + after;
  }

  lemma Join(run: seq<State>, acts: seq<Action>, more: seq<State>, after: seq<Action>)
    requires Path(run, acts) && Path(more, after) && run[|acts|] == more[0]
    ensures Path(run + more[1..], acts + after) && (run + more[1..])[|acts + after|] == more[|after|]
  {
    hide Step;
    var all, does := run + more[1..], acts + after;
    forall i | 0 <= i < |does| ensures Step(all[i], does[i], all[i + 1]) {
      if i < |acts| {
        assert Step(run[i], acts[i], run[i + 1]);
      } else {
        assert Step(more[i - |acts|], after[i - |acts|], more[i - |acts| + 1]);
      }
    }
  }

  // ---------- the collector's own loop ----------

  /** Old enough, unreferenced, and not stuck in place. */
  function Doomed(store: map<Digest, nat>, victims: set<Digest>, rows: map<Job, Row>, cutoff: nat, stuck: set<Digest>): set<Digest> {
    set d | d in victims && d in store && d !in Referenced(rows) && store[d] < cutoff && d !in stuck
  }

  function Keeping(baselines: map<nat, Digest>, gone: set<Digest>): map<nat, Digest> {
    map p | p in baselines && baselines[p] !in gone :: baselines[p]
  }

  lemma KeepingAll(baselines: map<nat, Digest>)
    ensures Keeping(baselines, {}) == baselines
  {
  }

  class SnapshotStore {
    var store: map<Digest, nat>
    /** The last captured digest of each project. */
    var baselines: map<nat, Digest>

    constructor (store: map<Digest, nat>, baselines: map<nat, Digest>)
      ensures this.store == store && this.baselines == baselines
    {
      this.store, this.baselines := store, baselines;
    }

    /** `_remove_unreferenced_snapshots`, run under the snapshot-store lock. An object in
        stuck cannot be renamed away; everything else old and unreferenced goes. */
    method RemoveUnreferenced(victims: set<Digest>, rows: map<Job, Row>, cutoff: nat, stuck: set<Digest>)
      modifies this
      ensures (exists j :: j in rows && !rows[j].readable) ==>
                store == old(store) && baselines == old(baselines)
      // an archive stays as it is or goes, and it goes exactly when no row refers to it and
      // it is an old victim that can be renamed away
      ensures forall d | d in store :: d in old(store) && store[d] == old(store)[d]
      ensures (forall j | j in rows :: rows[j].readable) ==>
                forall d | d in old(store) ::
                  d !in store <==> && d in victims && old(store)[d] < cutoff && d !in stuck
                                   && forall j | j in rows :: rows[j].digest != d
      // a project forgets its last capture exactly when that goes
      ensures forall p | p in baselines :: p in old(baselines) && baselines[p] == old(baselines)[p]
      ensures forall p | p in old(baselines) ::
                p !in baselines <==> old(baselines)[p] in old(store) && old(baselines)[p] !in store
    {
      hide Referenced, Keeping;
      ghost var doomed := Doomed(store, victims, rows, cutoff, stuck);
      if victims == {} || exists j :: j in rows && !rows[j].readable {
        assert victims == {} ==> doomed == {} && store - {} == store;
        KeepingAll(baselines);
        return;
      }
      var pending := victims - Referenced(rows);
      ghost var all := pending;
      var removed: set<Digest> := {};
      while pending != {}
        invariant pending <= all
        invariant removed <= doomed
        invariant forall d | d in doomed :: d in removed || d in pending
        invariant store == old(store) - removed
        invariant baselines == old(baselines)
        decreases |pending|
      {
        var d :| d in pending;
        pending := pending - {d};
        if d in store && store[d] < cutoff && d !in stuck {
          store := store - {d};
          removed := removed + {d};
        }
      }
      assert removed == doomed;
      baselines := Keeping(baselines, removed);
      RemovalMeans(old(store), old(baselines), victims, rows, cutoff, stuck);
      hide *;
    }
  }

  lemma RemovalMeans(store: map<Digest, nat>, baselines: map<nat, Digest>, victims: set<Digest>, rows: map<Job, Row>, cutoff: nat,
                     stuck: set<Digest>)
    requires forall j | j in rows :: rows[j].readable
    ensures var gone := Doomed(store, victims, rows, cutoff, stuck); var left, last := store - gone, Keeping(baselines, gone);
            && (forall d | d in left :: d in store && left[d] == store[d])
            && (forall d | d in store ::
                  d !in left <==> && d in victims && store[d] < cutoff && d !in stuck
                                  && forall j | j in rows :: rows[j].digest != d)
            && (forall p | p in last :: p in baselines && last[p] == baselines[p])
            && (forall p | p in baselines :: p !in last <==> baselines[p] in store && baselines[p] !in left)
  {
    DoomedMeans(store, victims, rows, cutoff, stuck);
    KeepingMeans(baselines, Doomed(store, victims, rows, cutoff, stuck));
    hide Doomed, Keeping;
  }

  lemma DoomedMeans(store: map<Digest, nat>, victims: set<Digest>, rows: map<Job, Row>, cutoff: nat, stuck: set<Digest>)
    requires forall j | j in rows :: rows[j].readable
    ensures forall d :: d in Doomed(store, victims, rows, cutoff, stuck) <==>
              && d in victims && d in store && store[d] < cutoff && d !in stuck
              && forall j | j in rows :: rows[j].digest != d
  {
  }

  lemma KeepingMeans(baselines: map<nat, Digest>, gone: set<Digest>)
    ensures forall p :: p in Keeping(baselines, gone) <==> p in baselines && baselines[p] !in gone
    ensures forall p | p in Keeping(baselines, gone) :: Keeping(baselines, gone)[p] == baselines[p]
  {
  }

  // ---------- the loop is a collector's run of steps ----------

  /** What a collector in state s may drop for a sweep with these victims. */
  ghost predicate Droppable(s: State, pid: Pid, gone: set<Digest>) {
    && pid in s.procs && s.procs[pid].Collecting?
    && forall d | d in gone :: d in s.procs[pid].pending && d in s.store && s.store[d] < s.procs[pid].cutoff
  }

  lemma DropOne(s: State, pid: Pid, d: Digest, gone: set<Digest>)
    requires d in gone && Droppable(s, pid, gone)
    ensures Enabled(s, DropDigest(pid, d)) && Step(s, DropDigest(pid, d), After(s, DropDigest(pid, d)))
    ensures Droppable(After(s, DropDigest(pid, d)), pid, gone - {d})
    ensures After(s, DropDigest(pid, d)).store == s.store - {d} && After(s, DropDigest(pid, d)).rows == s.rows
  {
  }

  lemma {:induction false} DropAll(s: State, pid: Pid, gone: set<Digest>) returns (run: seq<State>, acts: seq<Action>)
    requires Droppable(s, pid, gone)
    ensures Path(run, acts) && run[0] == s && run[|acts|].rows == s.rows && run[|acts|].store == s.store - gone
    ensures forall i | 0 <= i < |acts| :: acts[i].DropDigest? && acts[i].pid == pid && acts[i].digest in gone
    decreases gone
  {
    if gone == {} {
      run, acts := [s], [];
      assert s.store - {} == s.store;
    } else {
      var d :| d in gone;
      DropOne(s, pid, d, gone);
      var s' := After(s, DropDigest(pid, d));
      hide Step, After, Enabled, Droppable;
      var more, rest := DropAll(s', pid, gone - {d});
      run, acts := [s] + more, [DropDigest(pid, d)] + rest;
      forall i | 0 <= i < |acts| ensures Step(run[i], acts[i], run[i + 1]) {
        if i > 0 {
          assert Step(more[i - 1], rest[i - 1], more[i]);
        }
      }
      assert s.store - {d} - (gone - {d}) == s.store - gone;
    }
  }

  lemma StartsCollecting(s: State, pid: Pid, victims: set<Digest>, cutoff: nat, gone: set<Digest>)
    requires pid in s.procs && s.procs[pid] == Sweep(cutoff, victims) && Enabled(s, StartCollect(pid))
    requires forall d | d in gone ::
               d in victims && d in s.store && s.store[d] < cutoff && forall j | j in s.rows :: s.rows[j].digest != d
    ensures var t := After(s, StartCollect(pid)); Step(s, StartCollect(pid), t) && t.store == s.store && t.rows == s.rows
    ensures Droppable(After(s, StartCollect(pid)), pid, gone)
  {
  }

  /** Run by a sweep that has removed the rows of these victims, the loop is one StartCollect
      and then DropDigest steps of that sweep, so what holds of every run holds of it. */
  method Collect(objects: SnapshotStore, s: State, pid: Pid, stuck: set<Digest>) returns (ghost run: seq<State>, ghost acts: seq<Action>)
    requires pid in s.procs && s.procs[pid].Sweep? && Enabled(s, StartCollect(pid)) && objects.store == s.store
    modifies objects
    ensures Path(run, acts) && run[0] == s && |acts| > 0 && acts[0] == StartCollect(pid)
    ensures forall i | 0 < i < |acts| :: acts[i].DropDigest? && acts[i].pid == pid
    ensures run[|acts|].store == objects.store && run[|acts|].rows == s.rows
    ensures Invariant(s) ==> Invariant(run[|acts|])
  {
    ghost var victims, cutoff := s.procs[pid].removed, s.procs[pid].cutoff;
    objects.RemoveUnreferenced(s.procs[pid].removed, s.rows, s.procs[pid].cutoff, stuck);
    ghost var gone := s.store.Keys - objects.store.Keys;
    StartsCollecting(s, pid, victims, cutoff, gone);
    ghost var t := After(s, StartCollect(pid));
    hide After, Enabled, Invariant, Effect, NextProc, Droppable;
    ghost var more, rest := DropAll(t, pid, gone);
    assert s.store - gone == objects.store;
    run, acts := [s] + more, [StartCollect(pid)] + rest;
    JoinFirst(s, StartCollect(pid), more, rest);
    if Invariant(s) {
      PathLength(run, acts);
      PathKeeps(run, acts, |acts|);
    }
  }

  lemma JoinFirst(s: State, a: Action, more: seq<State>, rest: seq<Action>)
    requires Path(more, rest) && Step(s, a, more[0])
    ensures Path([s] + more, [a] + rest)
  {
    hide Step;
    var run, acts := [s] + more, [a] + rest;
    forall i | 0 <= i < |acts| ensures Step(run[i], acts[i], run[i + 1]) {
      if i > 0 {
        assert Step(more[i - 1], rest[i - 1], more[i]);
      }
    }
  }
}
