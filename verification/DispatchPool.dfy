/** The dispatch pool as interleaved steps of the tick thread and the workers. */
module DispatchPool {
  import opened Common

  type JobId = string

  /** One dispatch: listed in the in-flight table, its future done, its callback
      registered (armed) and run (called), and reported by a harvest. */
  datatype Flight = Flight(job: JobId, listed: bool, done: bool, armed: bool, called: bool, harvested: bool)

  /** Where the tick thread stands: inside submit, or between harvest's clear and scan. */
  datatype Phase = Idle | Submitted(created: nat) | Listed(created: nat) | Cleared

  datatype State = State(workers: nat, flights: seq<Flight>, completed: bool, phase: Phase, harvests: seq<nat>)

  predicate Inflight(f: Flight) {
    f.listed && !f.harvested
  }

  function CountInflight(flights: seq<Flight>): nat {
    if flights == [] then 0
    else CountInflight(flights[..|flights| - 1]) + if Inflight(flights[|flights| - 1]) then 1 else 0
  }

  // ---------- the steps ----------

  /** The tick submits only a job that is not in flight, to a pool with room. */
  ghost predicate Submit(s: State, s': State, job: JobId) {
    && s.phase == Idle
    && CountInflight(s.flights) < s.workers
    && (forall d | 0 <= d < |s.flights| && Inflight(s.flights[d]) :: s.flights[d].job != job)
    && s' == s.(flights := s.flights + [Flight(job, false, false, false, false, false)], phase := Submitted(|s.flights|))
  }

  ghost predicate ListIt(s: State, s': State) {
    && s.phase.Submitted? && s.phase.created < |s.flights|
    && var d := s.phase.created;
       s' == s.(flights := s.flights[d := s.flights[d].(listed := true)], phase := Listed(d))
  }

  /** `add_done_callback`: runs at once when the future is already done. */
  ghost predicate Arm(s: State, s': State) {
    && s.phase.Listed? && s.phase.created < |s.flights|
    && var d := s.phase.created;
       s' == if s.flights[d].done
             then s.(flights := s.flights[d := s.flights[d].(called := true)], completed := true, phase := Idle)
             else s.(flights := s.flights[d := s.flights[d].(armed := true)], phase := Idle)
  }

  /** A worker's future becomes done; its callback runs later, as a step of its own. */
  ghost predicate Finish(s: State, s': State, d: nat) {
    && d < |s.flights| && !s.flights[d].done
    && s' == s.(flights := s.flights[d := s.flights[d].(done := true)])
  }

  ghost predicate Callback(s: State, s': State, d: nat) {
    && d < |s.flights| && s.flights[d].done && s.flights[d].armed && !s.flights[d].called
    && s' == s.(flights := s.flights[d := s.flights[d].(called := true)], completed := true)
  }

  ghost predicate Clear(s: State, s': State) {
    && s.phase == Idle
    && s' == s.(completed := false, phase := Cleared)
  }

  predicate Ripe(f: Flight) {
    Inflight(f) && f.done
  }

  /** The dispatches one scan reports, in table order. */
  function RipeIn(flights: seq<Flight>, n: nat): seq<nat>
    requires n <= |flights|
  {
    if n == 0 then [] else RipeIn(flights, n - 1) + if Ripe(flights[n - 1]) then [n - 1] else []
  }

  function Reaped(flights: seq<Flight>): (reaped: seq<Flight>)
    ensures |reaped| == |flights|
    ensures forall d | 0 <= d < |flights| ::
              reaped[d] == if Ripe(flights[d]) then flights[d].(harvested := true) else flights[d]
  {
    seq(|flights|, d requires 0 <= d < |flights| => if Ripe(flights[d]) then flights[d].(harvested := true) else flights[d])
  }

  ghost predicate Scan(s: State, s': State) {
    && s.phase == Cleared
    && s' == s.(flights := Reaped(s.flights), phase := Idle, harvests := s.harvests + RipeIn(s.flights, |s.flights|))
  }

  ghost predicate Next(s: State, s': State) {
    || (exists job :: Submit(s, s', job))
    || ListIt(s, s')
    || Arm(s, s')
    || (exists d :: Finish(s, s', d))
    || (exists d :: Callback(s, s', d))
    || Clear(s, s')
    || Scan(s, s')
  }

  ghost predicate Init(s: State) {
    s.workers >= 1 && s.flights == [] && !s.completed && s.phase == Idle && s.harvests == []
  }

  // ---------- the invariant ----------

  ghost predicate FlightOk(s: State, d: nat)
    requires d < |s.flights|
  {
    var f := s.flights[d];
    && (f.harvested ==> f.listed && f.done)
    && (f.called ==> f.done)
    && (f.listed <==> s.phase != Submitted(d))
    && (f.armed || f.called <==> s.phase != Submitted(d) && s.phase != Listed(d))
    // no lost wakeup
    && (f.called && !f.harvested && s.phase != Cleared ==> s.completed)
  }

  ghost predicate Invariant(s: State) {
    && (forall d | 0 <= d < |s.flights| :: FlightOk(s, d))
    && CountInflight(s.flights) + (if s.phase.Submitted? then 1 else 0) <= s.workers
    && (s.phase.Submitted? || s.phase.Listed? ==> s.phase.created == |s.flights| - 1)
    && (forall d, e | 0 <= d < e < |s.flights| && !s.flights[d].harvested && !s.flights[e].harvested ::
          s.flights[d].job != s.flights[e].job)
    && (forall i, j | 0 <= i < j < |s.harvests| :: s.harvests[i] != s.harvests[j])
    && (forall d: nat :: d in s.harvests <==> d < |s.flights| && s.flights[d].harvested)
  }

  lemma {:induction false} CountUpdate(flights: seq<Flight>, d: nat, f: Flight)
    requires d < |flights|
    ensures CountInflight(flights[d := f])
            == CountInflight(flights) - (if Inflight(flights[d]) then 1 else 0) + (if Inflight(f) then 1 else 0)
  {
    var last := |flights| - 1;
    if d < last {
      CountUpdate(flights[..last], d, f);
      assert flights[d := f][..last] == flights[..last][d := f];
    } else {
      assert flights[d := f][..last] == flights[..last];
    }
  }

  lemma {:induction false} CountReaped(flights: seq<Flight>)
    ensures CountInflight(Reaped(flights)) <= CountInflight(flights)
  {
    if flights != [] {
      var shorter := flights[..|flights| - 1];
      CountReaped(shorter);
      assert Reaped(flights)[..|flights| - 1] == Reaped(shorter);
    }
  }

  lemma {:induction false} RipeInMeaning(flights: seq<Flight>, n: nat)
    requires n <= |flights|
    ensures forall d: nat :: d in RipeIn(flights, n) <==> d < n && Ripe(flights[d])
    ensures forall i, j | 0 <= i < j < |RipeIn(flights, n)| :: RipeIn(flights, n)[i] < RipeIn(flights, n)[j]
  {
    if n > 0 {
      RipeInMeaning(flights, n - 1);
      var before := RipeIn(flights, n - 1);
      forall i | 0 <= i < |before| ensures before[i] < n - 1 { assert before[i] in before; }
    }
  }

  lemma SubmitKeeps(s: State, s': State, job: JobId)
    requires Invariant(s) && Submit(s, s', job)
    ensures Invariant(s')
  {
    assert s'.flights[..|s.flights|] == s.flights;
    forall d | 0 <= d < |s.flights| ensures FlightOk(s', d) && s'.flights[d] == s.flights[d] {
      assert FlightOk(s, d);
    }
  }

  lemma FlightStepKeeps(s: State, s': State, d: nat)
    requires Invariant(s) && d < |s.flights|
    requires (Finish(s, s', d) || Callback(s, s', d))
             || (s.phase.Submitted? && d == s.phase.created && ListIt(s, s'))
             || (s.phase.Listed? && d == s.phase.created && Arm(s, s'))
    ensures Invariant(s')
  {
    CountUpdate(s.flights, d, s'.flights[d]);
    assert FlightOk(s, d);
    forall e | 0 <= e < |s.flights| ensures FlightOk(s', e) {
      assert FlightOk(s, e);
    }
  }

  lemma ScanKeeps(s: State, s': State)
    requires Invariant(s) && Scan(s, s')
    ensures Invariant(s')
  {
    CountReaped(s.flights);
    RipeInMeaning(s.flights, |s.flights|);
    forall e | 0 <= e < |s.flights| ensures FlightOk(s', e) {
      assert FlightOk(s, e);
    }
    var now := RipeIn(s.flights, |s.flights|);
    forall i, j | 0 <= i < |s.harvests| && 0 <= j < |now| ensures s.harvests[i] != now[j] {
      assert now[j] in now && s.harvests[i] in s.harvests;
    }
  }

  lemma NextKeeps(s: State, s': State)
    requires Invariant(s) && Next(s, s')
    ensures Invariant(s')
  {
    if job :| Submit(s, s', job) {
      SubmitKeeps(s, s', job);
    } else if ListIt(s, s') || Arm(s, s') {
      FlightStepKeeps(s, s', s.phase.created);
    } else if d :| Finish(s, s', d) {
      FlightStepKeeps(s, s', d);
    } else if d :| Callback(s, s', d) {
      FlightStepKeeps(s, s', d);
    } else if Clear(s, s') {
      forall e | 0 <= e < |s.flights| ensures FlightOk(s', e) {
        assert FlightOk(s, e);
      }
    } else {
      ScanKeeps(s, s');
    }
  }

  ghost predicate Run(run: seq<State>) {
    run != [] && Init(run[0]) && forall i | 0 <= i < |run| - 1 :: Next(run[i], run[i + 1])
  }

  /** Safety over every interleaving. */
  lemma {:induction false} EveryRunIsSafe(run: seq<State>)
    requires Run(run)
    ensures forall i | 0 <= i < |run| :: Invariant(run[i])
  {
    if |run| > 1 {
      var shorter := run[..|run| - 1];
      forall i | 0 <= i < |shorter| - 1 ensures Next(shorter[i], shorter[i + 1]) {
        assert Next(run[i], run[i + 1]);
      }
      EveryRunIsSafe(shorter);
      forall i | 0 <= i < |run| ensures Invariant(run[i]) {
        if i < |shorter| {
          assert shorter[i] == run[i];
        } else {
          assert shorter[i - 1] == run[i - 1] && Next(run[i - 1], run[i]);
          NextKeeps(run[i - 1], run[i]);
        }
      }
    }
  }

  /** When the tick thread sleeps with `completed` unset, no finished dispatch is
      waiting for it except one whose callback has yet to run and will set it. */
  lemma SleepMissesNothing(run: seq<State>, d: nat)
    requires Run(run)
    requires var s := run[|run| - 1]; s.phase == Idle && !s.completed && d < |s.flights| && !s.flights[d].harvested
    ensures var s := run[|run| - 1];
            && Inflight(s.flights[d])
            && (s.flights[d].done ==> exists s' :: Callback(s, s', d) && s'.completed)
  {
    EveryRunIsSafe(run);
    var s := run[|run| - 1];
    assert FlightOk(s, d);
    if s.flights[d].done {
      var s' := s.(flights := s.flights[d := s.flights[d].(called := true)], completed := true);
      assert Callback(s, s', d);
    }
  }

  /** Between harvest's clear and its scan only other threads move; whatever was
      done at the clear is reported by the scan, once. */
  lemma {:induction false} HarvestReportsAllDone(run: seq<State>, start: nat, d: nat)
    requires Run(run) && start < |run| - 1
    requires run[start].phase == Idle && d < |run[start].flights| && Ripe(run[start].flights[d])
    requires forall i | start < i < |run| - 1 :: run[i].phase == Cleared
    requires Scan(run[|run| - 2], run[|run| - 1])
    ensures d in run[|run| - 1].harvests && d !in run[start].harvests
  {
    EveryRunIsSafe(run);
    assert Invariant(run[start]) && Invariant(run[|run| - 1]);
    RipeStays(run, start, |run| - 2, d);
    var s := run[|run| - 2];
    RipeInMeaning(s.flights, |s.flights|);
  }

  lemma {:induction false} RipeStays(run: seq<State>, start: nat, upto: nat, d: nat)
    requires Run(run) && start <= upto < |run|
    requires d < |run[start].flights| && Ripe(run[start].flights[d])
    requires forall i | start < i <= upto :: run[i].phase == Cleared
    ensures d < |run[upto].flights| && Ripe(run[upto].flights[d])
    decreases upto
  {
    if start < upto {
      RipeStays(run, start, upto - 1, d);
      assert Next(run[upto - 1], run[upto]);
    }
  }

  // ---------- the object whose fields change in place ----------

  class Pool {
    var flights: seq<Flight>
    var completed: bool
    var phase: Phase
    const workers: nat
    ghost var harvests: seq<nat>

    ghost function View(): State
      reads this
    {
      State(workers, flights, completed, phase, harvests)
    }

    constructor (workers: nat)
      ensures Init(View()) && this.workers == Max(1, workers)
    {
      this.workers := Max(1, workers);
      flights, completed, phase, harvests := [], false, Idle, [];
    }

    /** `submit`, up to its first lock: refused exactly when the tick would not call it. */
    method BeginSubmit(job: JobId) returns (ok: bool)
      requires Invariant(View()) && phase == Idle
      modifies this
      ensures Invariant(View())
      ensures ok ==> Submit(old(View()), View(), job)
      ensures !ok ==> View() == old(View())
      ensures ok <==> (CountInflight(old(flights)) < workers
                       && forall d | 0 <= d < |old(flights)| && Inflight(old(flights)[d]) :: old(flights)[d].job != job)
    {
      var saturated := CountInflight(flights) >= workers;
      var present := false;
      for d := 0 to |flights|
        invariant present <==> exists e | 0 <= e < d :: Inflight(flights[e]) && flights[e].job == job
        invariant View() == old(View())
      {
        if Inflight(flights[d]) && flights[d].job == job {
          present := true;
        }
      }
      ok := !saturated && !present;
      if ok {
        flights := flights + [Flight(job, false, false, false, false, false)];
        phase := Submitted(|flights| - 1);
        SubmitKeeps(old(View()), View(), job);
      }
    }

    method FinishSubmit(list: bool)
      requires Invariant(View())
      requires if list then phase.Submitted? else phase.Listed?
      modifies this
      ensures Invariant(View())
      ensures if list then ListIt(old(View()), View()) else Arm(old(View()), View())
    {
      var d := phase.created;
      if list {
        flights, phase := flights[d := flights[d].(listed := true)], Listed(d);
      } else if flights[d].done {
        flights, completed, phase := flights[d := flights[d].(called := true)], true, Idle;
      } else {
        flights, phase := flights[d := flights[d].(armed := true)], Idle;
      }
      FlightStepKeeps(old(View()), View(), d);
    }

    /** The first half of `harvest`. */
    method ClearCompleted()
      requires Invariant(View()) && phase == Idle
      modifies this
      ensures Invariant(View()) && Clear(old(View()), View())
    {
      completed, phase := false, Cleared;
      NextKeeps(old(View()), View());
    }

    /** The second half of `harvest`: collect the done items, then drop them. */
    method ScanFinished() returns (finished: seq<nat>)
      requires Invariant(View()) && phase == Cleared
      modifies this
      ensures Invariant(View()) && Scan(old(View()), View())
      ensures harvests == old(harvests) + finished
      ensures forall d: nat :: d in finished <==> d < |old(flights)| && Ripe(old(flights)[d])
    {
      finished := [];
      var table := flights;
      for d := 0 to |flights|
        invariant finished == RipeIn(old(flights), d)
        invariant |table| == |flights| && View() == old(View())
        invariant forall e | 0 <= e < d :: table[e] == Reaped(old(flights))[e]
        invariant forall e | d <= e < |table| :: table[e] == old(flights)[e]
      {
        if Ripe(flights[d]) {
          finished := finished + [d];
          table := table[d := flights[d].(harvested := true)];
        }
      }
      assert table == Reaped(old(flights));
      RipeInMeaning(old(flights), |flights|);
      flights, phase, harvests := table, Idle, harvests + finished;
      ScanKeeps(old(View()), View());
    }
  }
}
