/** Retry-safe group submission: processes that may overlap, be interrupted and crash
    submit the members of one group in order under one request id. */
module ForkRepeat {
  import opened Common

  type Job = nat

  const EXIT_ENV: nat := 3

  datatype Phase = Preparing | Uncertain | Confirmed(exitCode: nat)

  /** The durable group record; only a confirmed one is a terminal receipt. */
  datatype Record = Record(intent: nat, submitted: nat, phase: Phase)

  /** The durable receipt of one member's own request id. */
  datatype Child = Child(job: Job, confirmed: bool)

  /** Everything on disk. created lists the member index of every job ever registered. */
  datatype Group = Group(
    requested: nat,
    record: Option<Record>,
    children: map<nat, Child>,
    nextJob: Job,
    created: seq<nat>)

  datatype Failure = NoFailure | Certain(exitCode: nat) | Unsure

  /** Where one process is. have counts the members it knows to be durable. */
  datatype Local =
    | Outside
    | Ready(have: nat)
    | Holding(have: nat, failed: bool)   // member have + 1 is registered, not yet recorded
    | Finishing(failure: Failure)
    | Replaying                          // a terminal receipt whose first member is submitted again

  /** How one call of submit_fork ends. The last two do not say whether they registered. */
  datatype Answer =
    | Registered
    | FailedBeforeStart(uncertainLaunch: bool)
    | Refused(exitCode: nat)
    | Broken(registered: bool, confirmed: bool)
    | Interrupted(registered: bool, confirmed: bool)

  /** A durable write may fail before or after it took effect. */
  datatype Write = Written(ok: bool) | NotWritten

  datatype Event =
    | Begin(intent: nat, claim: Write)
    | Submit(answer: Answer)
    | RecordMember(write: Write)
    | Finish(write: Write)
    | Crash

  predicate Terminal(g: Group) {
    g.record.Some? && g.record.value.phase.Confirmed?
  }

  function Submitted(g: Group): nat {
    if g.record.Some? then g.record.value.submitted else 0
  }

  /** A request id always resolves to one job: it registers the member's job once. */
  function Resolve(g: Group, index: nat, register: bool, confirm: bool): Group {
    if index in g.children then
      g.(children := g.children[index := g.children[index].(confirmed := g.children[index].confirmed || confirm)])
    else if register then
      g.(children := g.children[index := Child(g.nextJob, confirm)], nextJob := g.nextJob + 1, created := g.created + [index])
    else g
  }

  /** `_claim_fork_repeat`; a terminal receipt is only replayed. */
  function DoBegin(g: Group, intent: nat, claim: Write): (Group, Local) {
    if g.record.None? then
      if claim.NotWritten? then (g, Outside)
      else (g.(record := Some(Record(intent, 0, Preparing))), if claim.ok then Ready(0) else Outside)
    else if g.record.value.intent != intent then (g, Outside)
    else if Terminal(g) then (g, if g.record.value.submitted > 0 then Replaying else Outside)
    else (g, Ready(g.record.value.submitted))
  }

  function DoSubmit(g: Group, have: nat, answer: Answer): (Group, Local) {
    match answer
    case Registered => (Resolve(g, have + 1, true, true), Holding(have, false))
    case FailedBeforeStart(uncertain) =>
      (Resolve(g, have + 1, true, !uncertain), if uncertain then Finishing(Unsure) else Holding(have, true))
    case Refused(code) => (g, Finishing(Certain(code)))
    case Broken(registered, confirmed) => (Resolve(g, have + 1, registered, confirmed), Finishing(Unsure))
    case Interrupted(registered, confirmed) => (Resolve(g, have + 1, registered, confirmed), Finishing(Unsure))
  }

  /** `_verify_terminal_replay`: the first member of a terminal group is submitted again
      under its own request id, and must resolve to the recorded job. */
  function DoVerify(g: Group, answer: Answer): (Group, Local) {
    match answer
    case Registered => (Resolve(g, 1, true, true), Outside)
    case FailedBeforeStart(uncertain) => (Resolve(g, 1, true, !uncertain), Outside)
    case Refused(code) => (g, Finishing(Certain(code)))
    case Broken(registered, confirmed) => (Resolve(g, 1, registered, confirmed), Finishing(Unsure))
    case Interrupted(registered, confirmed) => (Resolve(g, 1, registered, confirmed), Outside)
  }

  /** `locked_record_job`: strict prefix order, and nothing beyond a terminal receipt. */
  function DoRecord(g: Group, have: nat, failed: bool, write: Write): (Group, Local)
    requires g.record.Some?
  {
    var r, index := g.record.value, have + 1;
    var next := if failed then Finishing(Certain(EXIT_ENV)) else Ready(index);
    if index <= r.submitted then (g, next)
    else if Terminal(g) || index > r.submitted + 1 || index !in g.children || !g.children[index].confirmed || write.NotWritten? then
      (g, Finishing(Unsure))
    else
      (g.(record := Some(Record(r.intent, index, Preparing))), if write.ok then next else Finishing(Unsure))
  }

  /** `_finalize_fork_repeat`: a terminal receipt is never overwritten. */
  function DoFinish(g: Group, failure: Failure, write: Write): Group
    requires g.record.Some?
  {
    if Terminal(g) || write.NotWritten? then g
    else g.(record := Some(g.record.value.(phase :=
      match failure
      case NoFailure => Confirmed(0)
      case Certain(code) => Confirmed(if code == 0 then 1 else code)
      case Unsure => Uncertain)))
  }

  /** One step of one process. */
  function Step(g: Group, local: Local, e: Event): (Group, Local) {
    match e
    case Begin(intent, claim) => if local.Outside? then DoBegin(g, intent, claim) else (g, local)
    case Submit(answer) =>
      if local.Ready? then
        if local.have < g.requested then DoSubmit(g, local.have, answer) else (g, Finishing(NoFailure))
      else if local.Replaying? then DoVerify(g, answer)
      else (g, local)
    case RecordMember(write) =>
      if local.Holding? && g.record.Some? then DoRecord(g, local.have, local.failed, write) else (g, local)
    case Finish(write) =>
      if local.Finishing? && g.record.Some? then (DoFinish(g, local.failure, write), Outside) else (g, local)
    case Crash => (g, Outside)
  }

  // ---------- the invariant ----------

  ghost predicate GroupOk(g: Group) {
    && (forall i | 0 <= i < |g.created| :: g.created[i] == i + 1)
    && (forall i :: i in g.children <==> 1 <= i <= |g.created|)
    && (forall i | i in g.children :: g.children[i].job < g.nextJob)
    && (forall i, k | i in g.children && k in g.children && i != k :: g.children[i].job != g.children[k].job)
    && (g.record.None? ==> g.created == [])
    && Submitted(g) <= |g.created| <= Submitted(g) + 1
    && |g.created| <= g.requested
    && (forall i | 1 <= i <= Submitted(g) :: g.children[i].confirmed)
    && (g.record.Some? && g.record.value.phase == Confirmed(0) ==> g.record.value.submitted == g.requested)
  }

  ghost predicate LocalOk(g: Group, local: Local) {
    match local
    case Outside => true
    case Ready(have) => g.record.Some? && have <= Submitted(g)
    case Holding(have, _) => g.record.Some? && have <= Submitted(g) && have + 1 in g.children && g.children[have + 1].confirmed
    case Finishing(failure) => g.record.Some? && (failure.NoFailure? ==> Submitted(g) == g.requested)
    case Replaying => Terminal(g) && Submitted(g) > 0
  }

  /** What one step never undoes: jobs, confirmations, progress and the receipt. */
  ghost predicate Grows(g: Group, g': Group) {
    && g'.requested == g.requested
    && g.created <= g'.created
    && (forall i | i in g.children ::
          i in g'.children && g'.children[i].job == g.children[i].job && (g.children[i].confirmed ==> g'.children[i].confirmed))
    && Submitted(g) <= Submitted(g')
    && (g.record.Some? ==> g'.record.Some? && g'.record.value.intent == g.record.value.intent)
    && (Terminal(g) ==> g'.record == g.record)
  }

  lemma ConfirmKeeps(g: Group, index: nat, register: bool, confirm: bool)
    requires GroupOk(g) && index in g.children
    ensures var g' := Resolve(g, index, register, confirm); GroupOk(g') && Grows(g, g') && g'.record == g.record
  {
  }

  lemma RegisterKeeps(g: Group, index: nat, confirm: bool)
    requires GroupOk(g) && index !in g.children && 1 <= index <= Submitted(g) + 1 && index <= g.requested && g.record.Some?
    ensures var g' := Resolve(g, index, true, confirm); GroupOk(g') && Grows(g, g') && g'.record == g.record
  {
    var g' := Resolve(g, index, true, confirm);
    assert index == |g.created| + 1;
    assert forall i | i in g'.children :: g'.children[i].job < g'.nextJob;
  }

  lemma ResolveKeeps(g: Group, index: nat, register: bool, confirm: bool)
    requires GroupOk(g) && g.record.Some? && 1 <= index <= Submitted(g) + 1 && index <= g.requested
    ensures var g' := Resolve(g, index, register, confirm);
            && GroupOk(g') && Grows(g, g') && g'.record == g.record
            && (register ==> index in g'.children && (confirm ==> g'.children[index].confirmed))
  {
    if index in g.children {
      ConfirmKeeps(g, index, register, confirm);
    } else if register {
      RegisterKeeps(g, index, confirm);
    }
    hide GroupOk, Grows;
    Unchanged(g);
  }

  lemma BeginKeeps(g: Group, intent: nat, claim: Write)
    requires GroupOk(g)
    ensures var r := DoBegin(g, intent, claim); GroupOk(r.0) && LocalOk(r.0, r.1) && Grows(g, r.0)
  {
  }

  lemma SubmitKeeps(g: Group, have: nat, answer: Answer)
    requires GroupOk(g) && LocalOk(g, Ready(have)) && have < g.requested
    ensures var r := DoSubmit(g, have, answer); GroupOk(r.0) && LocalOk(r.0, r.1) && Grows(g, r.0)
  {
    hide Resolve, GroupOk, Grows;
    match answer
    case Registered => ResolveKeeps(g, have + 1, true, true);
    case FailedBeforeStart(uncertain) => ResolveKeeps(g, have + 1, true, !uncertain);
    case Refused(_) => Unchanged(g);
    case Broken(registered, confirmed) => ResolveKeeps(g, have + 1, registered, confirmed);
    case Interrupted(registered, confirmed) => ResolveKeeps(g, have + 1, registered, confirmed);
  }

  lemma Unchanged(g: Group)
    ensures Grows(g, g)
  {
  }

  /** Submitting a durable member again changes nothing at all, and the job it resolves
      to is the recorded one. */
  lemma DurableResolves(g: Group, index: nat, register: bool, confirm: bool)
    requires GroupOk(g) && 1 <= index <= Submitted(g)
    ensures Resolve(g, index, register, confirm) == g && index in g.children
  {
    assert g.children[index].confirmed;
    assert g.children == g.children[index := g.children[index]];
  }

  /** The check of a terminal receipt registers nothing, whatever it is answered. */
  lemma VerifyKeeps(g: Group, answer: Answer)
    requires GroupOk(g) && LocalOk(g, Replaying)
    ensures DoVerify(g, answer).0 == g && LocalOk(g, DoVerify(g, answer).1)
  {
    hide GroupOk, Resolve;
    DurableResolves(g, 1, true, true);
    DurableResolves(g, 1, true, false);
    DurableResolves(g, 1, false, false);
    DurableResolves(g, 1, false, true);
  }

  lemma RecordKeeps(g: Group, have: nat, failed: bool, write: Write)
    requires GroupOk(g) && LocalOk(g, Holding(have, failed))
    ensures var r := DoRecord(g, have, failed, write); GroupOk(r.0) && LocalOk(r.0, r.1) && Grows(g, r.0)
  {
  }

  lemma FinishKeeps(g: Group, failure: Failure, write: Write)
    requires GroupOk(g) && LocalOk(g, Finishing(failure))
    ensures var g' := DoFinish(g, failure, write); GroupOk(g') && Grows(g, g')
  {
  }

  lemma StepKeeps(g: Group, local: Local, e: Event)
    requires GroupOk(g) && LocalOk(g, local)
    ensures var r := Step(g, local, e); GroupOk(r.0) && LocalOk(r.0, r.1) && Grows(g, r.0)
  {
    AllRecordedWhenDone(g);
    hide GroupOk, Grows, DoBegin, DoSubmit, DoRecord, DoFinish, DoVerify;
    Unchanged(g);
    match e
    case Begin(intent, claim) => BeginKeeps(g, intent, claim);
    case Submit(answer) =>
      if local.Ready? && local.have < g.requested {
        SubmitKeeps(g, local.have, answer);
      } else if local.Replaying? {
        VerifyKeeps(g, answer);
      }
    case RecordMember(write) =>
      if local.Holding? {
        RecordKeeps(g, local.have, local.failed, write);
      }
    case Finish(write) =>
      if local.Finishing? {
        FinishKeeps(g, local.failure, write);
      }
    case Crash =>
  }

  lemma AllRecordedWhenDone(g: Group)
    requires GroupOk(g)
    ensures Submitted(g) <= g.requested
  {
  }

  /** What one process knows survives every step of another one. */
  lemma OthersKeep(g: Group, g': Group, local: Local)
    requires GroupOk(g) && GroupOk(g') && Grows(g, g') && LocalOk(g, local)
    ensures LocalOk(g', local)
  {
  }

  // ---------- any interleaving of any number of processes ----------

  datatype System = System(group: Group, locals: seq<Local>)

  predicate Fresh(g: Group) {
    g.record.None? && g.children == map[] && g.created == []
  }

  function Next(s: System, pid: nat, e: Event): System {
    if pid < |s.locals| then
      var r := Step(s.group, s.locals[pid], e);
      System(r.0, s.locals[pid := r.1])
    else s
  }

  function Run(s: System, events: seq<(nat, Event)>): System
    decreases |events|
  {
    if events == [] then s
    else Run(Next(s, events[0].0, events[0].1), events[1..])
  }

  ghost predicate Safe(s: System) {
    GroupOk(s.group) && forall p | 0 <= p < |s.locals| :: LocalOk(s.group, s.locals[p])
  }

  lemma NextKeeps(s: System, pid: nat, e: Event)
    requires Safe(s)
    ensures Safe(Next(s, pid, e)) && Grows(s.group, Next(s, pid, e).group)
  {
    if pid < |s.locals| {
      StepKeeps(s.group, s.locals[pid], e);
      var s' := Next(s, pid, e);
      forall p | 0 <= p < |s'.locals| ensures LocalOk(s'.group, s'.locals[p]) {
        if p != pid {
          OthersKeep(s.group, s'.group, s.locals[p]);
        }
      }
    } else {
      Unchanged(s.group);
    }
  }

  lemma SameIntent(g: Group, g': Group)
    requires Grows(g, g') && g.record.Some?
    ensures g'.record.Some? && g'.record.value.intent == g.record.value.intent
  {
  }

  lemma GrowsChains(a: Group, b: Group, c: Group)
    requires Grows(a, b) && Grows(b, c)
    ensures Grows(a, c)
  {
  }

  lemma {:induction false} RunKeeps(s: System, events: seq<(nat, Event)>)
    requires Safe(s)
    ensures Safe(Run(s, events)) && Grows(s.group, Run(s, events).group)
    decreases |events|
  {
    if events == [] {
      Unchanged(s.group);
    } else {
      var s' := Next(s, events[0].0, events[0].1);
      NextKeeps(s, events[0].0, events[0].1);
      RunKeeps(s', events[1..]);
      GrowsChains(s.group, s'.group, Run(s', events[1..]).group);
    }
  }

  /** From a fresh request, whatever happens to however many processes: members are
      registered once each and in order 1, 2, 3, and so on, their jobs differ, the durable
      prefix is confirmed and at most one member ahead of it exists, and a success
      receipt means that every requested member is durable. */
  lemma MembersAreAPrefix(s: System, events: seq<(nat, Event)>)
    requires Fresh(s.group) && forall p | 0 <= p < |s.locals| :: s.locals[p] == Outside
    ensures var g := Run(s, events).group;
            && (forall i | 0 <= i < |g.created| :: g.created[i] == i + 1)
            && (forall i :: i in g.children <==> 1 <= i <= |g.created|)
            && (forall i, k | i in g.children && k in g.children && i != k :: g.children[i].job != g.children[k].job)
            && Submitted(g) <= |g.created| <= Submitted(g) + 1 && |g.created| <= s.group.requested
            && (forall i | 1 <= i <= Submitted(g) :: g.children[i].confirmed)
            && (g.record.Some? && g.record.value.phase == Confirmed(0) ==> Submitted(g) == s.group.requested)
  {
    RunKeeps(s, events);
  }

  // ---------- after the terminal receipt ----------

  /** A process that claimed before the receipt and has not failed. */
  predicate Going(local: Local) {
    local.Ready? || (local.Holding? && !local.failed)
  }

  /** No member stands ahead of the receipt, not all were asked for, and some process
      is still going. */
  ghost predicate StragglerPossible(s: System) {
    && |s.group.created| == Submitted(s.group) < s.group.requested
    && exists p | 0 <= p < |s.locals| :: Going(s.locals[p])
  }

  lemma SettledSubmit(g: Group, have: nat, answer: Answer)
    requires GroupOk(g) && LocalOk(g, Ready(have)) && have < g.requested
    requires |g.created| == Submitted(g) == g.requested || |g.created| > Submitted(g)
    ensures DoSubmit(g, have, answer).0.created == g.created
  {
    assert have + 1 in g.children;
  }

  lemma SettledStep(s: System, pid: nat, e: Event)
    requires Safe(s) && Terminal(s.group) && !StragglerPossible(s)
    ensures var t := Next(s, pid, e); Terminal(t.group) && t.group.created == s.group.created && !StragglerPossible(t)
  {
    NextKeeps(s, pid, e);
    if pid < |s.locals| {
      var g, local := s.group, s.locals[pid];
      if local.Replaying? {
        if e.Submit? {
          VerifyKeeps(g, e.answer);
        }
      }
      if local.Ready? && e.Submit? && local.have < g.requested {
        assert Going(s.locals[pid]);
        SettledSubmit(g, local.have, e.answer);
      }
      hide GroupOk, Safe, LocalOk, Grows;
      var t := Next(s, pid, e);
      assert Going(t.locals[pid]) ==> Going(s.locals[pid]);
      forall p | 0 <= p < |t.locals| && Going(t.locals[p]) ensures Going(s.locals[p]) {}
    }
  }

  lemma {:induction false} SettledRun(s: System, events: seq<(nat, Event)>)
    requires Safe(s) && Terminal(s.group) && !StragglerPossible(s)
    ensures Run(s, events).group.created == s.group.created
    decreases |events|
  {
    if events != [] {
      NextKeeps(s, events[0].0, events[0].1);
      SettledStep(s, events[0].0, events[0].1);
      SettledRun(Next(s, events[0].0, events[0].1), events[1..]);
    }
  }

  /** How many more steps a process takes to reach the first member that is not durable. */
  ghost function Distance(g: Group, local: Local): int {
    if local.Ready? then 2 * (Submitted(g) - local.have) + 1
    else if local.Holding? then 2 * (Submitted(g) - local.have)
    else 0
  }

  /** One step of a process that is still going behind the receipt. */
  lemma CatchUp(s: System, p: nat) returns (e: Event)
    requires Safe(s) && Terminal(s.group) && |s.group.created| == Submitted(s.group) < s.group.requested
    requires p < |s.locals| && Going(s.locals[p]) && s.locals[p] != Ready(Submitted(s.group))
    ensures var t := Next(s, p, e);
            && t.group.record == s.group.record && t.group.requested == s.group.requested && t.group.created == s.group.created
            && |t.locals| == |s.locals| && Going(t.locals[p])
            && 0 <= Distance(t.group, t.locals[p]) < Distance(s.group, s.locals[p])
  {
    var g, local := s.group, s.locals[p];
    assert LocalOk(g, local);
    assert local.have + 1 in g.children && local.have + 1 <= Submitted(g);
    if local.Ready? {
      e := Submit(Registered);
      DurableResolves(g, local.have + 1, true, true);
    } else {
      e := RecordMember(NotWritten);
    }
  }

  lemma {:induction false} Straggle(s: System, p: nat) returns (events: seq<(nat, Event)>)
    requires Safe(s) && Terminal(s.group) && |s.group.created| == Submitted(s.group) < s.group.requested
    requires p < |s.locals| && Going(s.locals[p])
    ensures Run(s, events).group.created == s.group.created + [|s.group.created| + 1]
    decreases Distance(s.group, s.locals[p])
  {
    if s.locals[p] == Ready(Submitted(s.group)) {
      events := [(p, Submit(Registered))];
      assert events[1..] == [];
      assert Run(Next(s, p, Submit(Registered)), []) == Next(s, p, Submit(Registered));
    } else {
      var e := CatchUp(s, p);
      NextKeeps(s, p, e);
      hide GroupOk, LocalOk, Going, Grows, Distance;
      var rest := Straggle(Next(s, p, e), p);
      events := [(p, e)] + rest;
      assert events[1..] == rest;
    }
  }

  /** Exactly when a further member can still be registered after a terminal receipt. */
  lemma StragglersExactly(s: System)
    requires Safe(s) && Terminal(s.group)
    ensures (exists events :: Run(s, events).group.created != s.group.created) <==> StragglerPossible(s)
  {
    hide Run, GroupOk, LocalOk;
    if StragglerPossible(s) {
      var p :| 0 <= p < |s.locals| && Going(s.locals[p]);
      var events := Straggle(s, p);
      assert |Run(s, events).group.created| == |s.group.created| + 1;
    } else {
      forall events: seq<(nat, Event)> ensures Run(s, events).group.created == s.group.created {
        SettledRun(s, events);
      }
    }
  }

  /** There is never more than one, it is the next member, and neither the receipt nor any
      recorded job ever changes: every durable member goes on resolving to its job. */
  lemma AfterTheReceipt(s: System, events: seq<(nat, Event)>)
    requires Safe(s) && Terminal(s.group)
    ensures var g, h := s.group, Run(s, events).group;
            && h.record == g.record
            && (h.created == g.created || (h.created == g.created + [Submitted(g) + 1] && |g.created| == Submitted(g)))
            && (forall i | 1 <= i <= Submitted(g) :: i in g.children && i in h.children && h.children[i].job == g.children[i].job)
            && (forall i, register, confirm | 1 <= i <= Submitted(g) :: Resolve(h, i, register, confirm) == h)
  {
    RunKeeps(s, events);
    var g, h := s.group, Run(s, events).group;
    if |h.created| > |g.created| {
      assert h.created[..|g.created|] == g.created;
      assert h.created == g.created + [h.created[|g.created|]];
    }
    forall i, register, confirm | 1 <= i <= Submitted(g) ensures Resolve(h, i, register, confirm) == h {
      DurableResolves(h, i, register, confirm);
    }
  }

  /** Such a state is reached: a process that claimed before another one's receipt
      registers one more member, which the receipt never mentions. */
  lemma OverlapLeavesAStraggler()
    ensures var s := System(Group(2, None, map[], 0, []), [Outside, Outside]);
            var t := Run(s, [(0, Begin(7, Written(true))), (1, Begin(7, Written(true))), (0, Submit(Refused(3))),
                             (0, Finish(Written(true)))]);
            var u := Run(t, [(1, Submit(Registered)), (1, RecordMember(Written(true)))]);
            Terminal(t.group) && t.group.children == map[] && u.group.children.Keys == {1} && u.group.record == t.group.record
  {
    var g0 := Group(2, None, map[], 0, []);
    var g1 := g0.(record := Some(Record(7, 0, Preparing)));
    var g2 := g0.(record := Some(Record(7, 0, Confirmed(3))));
    var events: seq<(nat, Event)> := [(0, Begin(7, Written(true))), (1, Begin(7, Written(true))), (0, Submit(Refused(3))), (0, Finish(Written(true)))];
    var s0 := System(g0, [Outside, Outside]);
    var s1 := System(g1, [Ready(0), Outside]);
    assert Next(s0, 0, Begin(7, Written(true))) == s1;
    var s2 := System(g1, [Ready(0), Ready(0)]);
    assert Next(s1, 1, Begin(7, Written(true))) == s2;
    var s3 := System(g1, [Finishing(Certain(3)), Ready(0)]);
    assert Next(s2, 0, Submit(Refused(3))) == s3;
    var s4 := System(g2, [Outside, Ready(0)]);
    assert Next(s3, 0, Finish(Written(true))) == s4;
    assert |events[1..][1..][1..][1..]| == 0;
    assert Run(s0, events) == Run(s1, events[1..]) == Run(s2, events[1..][1..]) == Run(s3, events[1..][1..][1..]) == s4;
    var more: seq<(nat, Event)> := [(1, Submit(Registered)), (1, RecordMember(Written(true)))];
    var s5 := Next(s4, 1, Submit(Registered));
    var s6 := Next(s5, 1, RecordMember(Written(true)));
    assert |more[1..][1..]| == 0;
    assert Run(s4, more) == Run(s5, more[1..]) == s6;
  }

  // ---------- one process, without a crash ----------

  lemma SubmitMeans(g: Group, have: nat, answer: Answer)
    requires GroupOk(g) && g.record.Some? && have == Submitted(g) < g.requested
    ensures var r := DoSubmit(g, have, answer);
            && r.0.record == g.record && |r.0.created| <= have + 1
            && (r.1.Finishing? || r.1 == Holding(have, answer.FailedBeforeStart?))
            && (r.1.Finishing? <==> answer.Refused? || answer.Broken? || answer.Interrupted? || answer == FailedBeforeStart(true))
            && (r.1.Finishing? ==> r.1.failure == if answer.Refused? then Certain(answer.exitCode) else Unsure)
            && (answer.FailedBeforeStart? ==> have + 1 in r.0.children)
  {
  }

  lemma RecordMeans(g: Group, have: nat, failed: bool)
    requires GroupOk(g) && LocalOk(g, Holding(have, failed)) && have == Submitted(g) && !Terminal(g)
    ensures var r := DoRecord(g, have, failed, Written(true));
            && Submitted(r.0) == have + 1 && !Terminal(r.0) && r.0.children == g.children && r.0.created == g.created
  {
  }

  ghost predicate FirstJobs(g: Group, entries: seq<Job>) {
    forall k | 1 <= k <= |entries| :: k in g.children && entries[k - 1] == g.children[k].job
  }

  lemma EntriesKept(g: Group, g': Group, entries: seq<Job>)
    requires Grows(g, g') && FirstJobs(g, entries)
    ensures FirstJobs(g', entries)
  {
  }

  lemma SameRequest(g: Group, g': Group)
    requires Grows(g, g')
    ensures g'.requested == g.requested
  {
  }

  /** `_RepeatProgress`: what one process carries through its phases. */
  class RepeatProgress {
    var group: Group
    var entries: seq<Job>
    var failure: Failure
    var replay: bool

    constructor (group: Group)
      ensures this.group == group && entries == [] && failure == NoFailure && !replay
    {
      this.group, entries, failure, replay := group, [], NoFailure, false;
    }

    /** The entries are the jobs of the first members, in order. */
    ghost predicate EntriesOk()
      reads this
    {
      FirstJobs(group, entries)
    }

    /** `load_entries_or_fail`: never fails on a reachable group. */
    method LoadEntries()
      requires GroupOk(group) && group.record.Some?
      modifies this`entries
      ensures EntriesOk() && |entries| == Submitted(group)
    {
      entries := [];
      for index := 1 to Submitted(group) + 1
        invariant EntriesOk() && |entries| == index - 1
      {
        assert index in group.children;
        entries := entries + [group.children[index].job];
      }
    }

    /** Between two members: everything known to be durable is listed, nothing else is. */
    ghost predicate Steady()
      reads this
    {
      && GroupOk(group) && group.record.Some? && !Terminal(group)
      && EntriesOk() && |entries| == Submitted(group)
    }

    /** One pass of the loop: submit member |entries| + 1 and record it. */
    method SubmitOne(answer: Answer)
      requires Steady() && failure == NoFailure && |entries| < group.requested
      modifies this`group, this`entries, this`failure
      ensures GroupOk(group) && EntriesOk() && Grows(old(group), group) && group.record.Some? && !Terminal(group)
      ensures failure.NoFailure? <==> answer.Registered?
      ensures answer.Refused? ==> failure == Certain(answer.exitCode)
      ensures answer == FailedBeforeStart(false) ==> failure == Certain(EXIT_ENV)
      ensures answer.Broken? || answer.Interrupted? || answer == FailedBeforeStart(true) ==> failure == Unsure
      ensures answer.Registered? ==> Steady() && |entries| == |old(entries)| + 1
      ensures |group.created| <= |old(entries)| + 1
    {
      hide DoSubmit, DoRecord;
      ghost var g0 := group;
      var r := DoSubmit(group, |entries|, answer);
      SubmitKeeps(group, |entries|, answer);
      SubmitMeans(group, |entries|, answer);
      EntriesKept(g0, r.0, entries);
      group := r.0;
      if r.1.Finishing? {
        failure := r.1.failure;
        if answer.FailedBeforeStart? {
          entries := entries + [group.children[|entries| + 1].job];
        }
        return;
      }
      hide GroupOk, Grows;
      RecordOne(r.1.failed);
      GrowsChains(g0, r.0, group);
    }

    /** Record the member just registered. */
    method RecordOne(failed: bool)
      requires GroupOk(group) && group.record.Some? && !Terminal(group) && failure == NoFailure
      requires EntriesOk() && |entries| == Submitted(group) && LocalOk(group, Holding(|entries|, failed))
      modifies this`group, this`entries, this`failure
      ensures GroupOk(group) && EntriesOk() && Grows(old(group), group) && group.record.Some? && !Terminal(group)
      ensures |entries| == Submitted(group) == |old(entries)| + 1 && group.created == old(group).created
      ensures failure == if failed then Certain(EXIT_ENV) else NoFailure
    {
      hide DoRecord;
      var q := DoRecord(group, |entries|, failed, Written(true));
      RecordKeeps(group, |entries|, failed, Written(true));
      RecordMeans(group, |entries|, failed);
      EntriesKept(group, q.0, entries);
      hide GroupOk, Grows;
      entries := entries + [group.children[|entries| + 1].job];
      group := q.0;
      if failed {
        failure := Certain(EXIT_ENV);
      }
    }

    /** `_submit_repeat_items`: every member that is not durable yet, in strict order. */
    method SubmitItems(answer: nat -> Answer)
      requires Steady() && failure == NoFailure
      modifies this`group, this`entries, this`failure
      ensures GroupOk(group) && EntriesOk() && Grows(old(group), group) && group.record.Some? && !Terminal(group)
      ensures failure.NoFailure? <==> AllRegister(answer, |old(entries)|, group.requested)
      ensures failure.NoFailure? ==> Submitted(group) == |entries| == group.requested
      // the first member that is not registered outright ends the loop
      ensures !failure.NoFailure? ==> exists k | |old(entries)| < k <= group.requested ::
                StopsAt(answer, |old(entries)|, k) && |group.created| <= k
      ensures forall k | |old(entries)| < k <= group.requested && StopsAt(answer, |old(entries)|, k) ::
                && (answer(k).Refused? ==> failure == Certain(answer(k).exitCode))
                && (answer(k) == FailedBeforeStart(false) ==> failure == Certain(EXIT_ENV))
                && (Doubtful(answer(k)) ==> failure == Unsure)
    {
      hide GroupOk, Grows;
      Unchanged(group);
      AllRecordedWhenDone(group);
      ghost var g0 := group;
      ghost var start := |entries|;
      var index := |entries| + 1;
      while index <= group.requested
        invariant start < index <= group.requested + 1 && group.requested == g0.requested
        invariant Steady() && failure == NoFailure && Grows(g0, group) && |entries| == index - 1
        invariant AllRegister(answer, start, index - 1)
        decreases group.requested - index
      {
        ghost var g1 := group;
        SubmitOne(answer(index));
        GrowsChains(g0, g1, group);
        SameRequest(g0, group);
        if !failure.NoFailure? {
          assert StopsAt(answer, start, index);
          forall k | start < k <= group.requested && StopsAt(answer, start, k) ensures k == index {
            FirstStop(answer, start, k, index);
          }
          return;
        }
        index := index + 1;
      }
    }

    /** `_verify_terminal_replay`: registers nothing, and never finds a different job. An
        interrupt, which ends the process here, is one of the ways it stays unanswered. */
    method VerifyTerminalReplay(answer: Answer)
      requires GroupOk(group) && Terminal(group) && EntriesOk() && |entries| == Submitted(group) > 0 && replay
      modifies this`group, this`failure, this`replay
      ensures group == old(group)
      ensures replay <==> answer.Registered? || answer.FailedBeforeStart?
      ensures if replay then failure == old(failure) else !failure.NoFailure?
    {
      VerifyKeeps(group, answer);
      var r := DoVerify(group, answer);
      group := r.0;
      match answer
      case Registered | FailedBeforeStart(_) =>
        replay := group.children[1].job == entries[0];
        failure := if replay then failure else Unsure;
      case Refused(code) => failure, replay := Certain(code), false;
      case Broken(_, _) | Interrupted(_, _) => failure, replay := Unsure, false;
    }

    /** `run`: claim or resume, submit, and write the final receipt. */
    method Run(intent: nat, answer: nat -> Answer)
      requires GroupOk(group) && entries == [] && failure == NoFailure && !replay
      modifies this
      ensures GroupOk(group) && Grows(old(group), group) && EntriesOk()
      // a different intent and a terminal receipt change nothing on disk
      ensures !Advances(old(group), intent) ==> group == old(group)
      // and a terminal receipt comes back as a replay of its durable members, unless the
      // check of the first one could not be answered
      ensures Replays(old(group), intent) ==> |entries| == Submitted(group)
      ensures Replays(old(group), intent) && (entries == [] || answer(1).Registered? || answer(1).FailedBeforeStart?) ==>
                replay && failure == Receipt(group.record.value.phase.exitCode)
      ensures Replays(old(group), intent) && entries != [] && !answer(1).Registered? && !answer(1).FailedBeforeStart? ==>
                !replay && !failure.NoFailure?
      ensures Advances(old(group), intent) ==> group.record.Some? && group.record.value.intent == intent
      ensures Advances(old(group), intent) ==>
                (group.record.value.phase == Confirmed(0) <==> AllRegister(answer, Submitted(old(group)), group.requested))
      ensures Advances(old(group), intent) && AllRegister(answer, Submitted(old(group)), group.requested) ==>
                Submitted(group) == |group.created| == group.requested
      // otherwise the first member that does not register decides: a definite failure ends
      // the group with its exit code, a doubtful one leaves it open for another run
      ensures Advances(old(group), intent) ==>
                forall k | Submitted(old(group)) < k <= group.requested && StopsAt(answer, Submitted(old(group)), k) ::
                  if Doubtful(answer(k)) then group.record.value.phase == Uncertain
                  else group.record.value.phase == Confirmed(if !answer(k).Refused? then EXIT_ENV
                                                             else if answer(k).exitCode == 0 then 1 else answer(k).exitCode)
      ensures Advances(old(group), intent) ==>
                (Terminal(group) <==>
                   AllRegister(answer, Submitted(old(group)), group.requested)
                   || exists k | Submitted(old(group)) < k <= group.requested ::
                        StopsAt(answer, Submitted(old(group)), k) && !Doubtful(answer(k)))
    {
      ghost var g0 := group;
      Unchanged(group);
      if Terminal(group) || (group.record.Some? && group.record.value.intent != intent) {
        if group.record.value.intent == intent {
          replay, failure := true, Receipt(group.record.value.phase.exitCode);
          LoadEntries();
          if entries != [] {
            VerifyTerminalReplay(answer(1));
          }
        }
        return;
      }
      BeginKeeps(group, intent, Written(true));
      group := DoBegin(group, intent, Written(true)).0;
      ghost var g1 := group;
      LoadEntries();
      hide GroupOk, Grows;
      SubmitItems(answer);
      ghost var g2 := group;
      GrowsChains(g0, g1, g2);
      FinishKeeps(group, failure, Written(true));
      EntriesKept(g2, DoFinish(group, failure, Written(true)), entries);
      group := DoFinish(group, failure, Written(true));
      GrowsChains(g0, g2, group);
      SameRequest(g0, group);
      SameRequest(g2, group);
      SameIntent(g1, g2);
      if !AllRegister(answer, Submitted(g0), group.requested) {
        StopsSomewhere(answer, Submitted(g0), group.requested);
        var k :| Submitted(g0) < k <= group.requested && StopsAt(answer, Submitted(g0), k);
        forall j | Submitted(g0) < j <= group.requested && StopsAt(answer, Submitted(g0), j) ensures j == k {
          FirstStop(answer, Submitted(g0), j, k);
        }
      } else {
        AllDurable(group);
      }
    }
  }

  lemma AllDurable(g: Group)
    requires GroupOk(g) && Submitted(g) == g.requested
    ensures |g.created| == g.requested
  {
  }

  /** A run stopped by doubt, and a second one whose answers all register: every member is
      durable and the receipt is a success. */
  method RunTwice(group: Group, intent: nat, first: nat -> Answer, second: nat -> Answer) returns (last: Group)
    requires GroupOk(group) && Advances(group, intent)
    requires exists k | Submitted(group) < k <= group.requested :: StopsAt(first, Submitted(group), k) && Doubtful(first(k))
    requires forall i: nat :: second(i).Registered?
    ensures GroupOk(last) && last.requested == group.requested && last.record.Some?
    ensures last.record.value.phase == Confirmed(0) && Submitted(last) == |last.created| == group.requested
    ensures forall i | 1 <= i <= group.requested :: i in last.children && last.children[i].confirmed
  {
    ghost var k :| Submitted(group) < k <= group.requested && StopsAt(first, Submitted(group), k) && Doubtful(first(k));
    var before := new RepeatProgress(group);
    before.Run(intent, first);
    SameRequest(group, before.group);
    assert before.group.record.value.phase == Uncertain;
    var after := new RepeatProgress(before.group);
    after.Run(intent, second);
    SameRequest(before.group, after.group);
    last := after.group;
  }

  /** Member k is the first after have that is not registered outright. */
  ghost predicate StopsAt(answer: nat -> Answer, have: nat, k: nat) {
    k > have && !answer(k).Registered? && AllRegister(answer, have, k - 1)
  }

  lemma FirstStop(answer: nat -> Answer, have: nat, j: nat, k: nat)
    requires StopsAt(answer, have, j) && StopsAt(answer, have, k)
    ensures j == k
  {
  }

  lemma StopsSomewhere(answer: nat -> Answer, have: nat, requested: nat)
    requires !AllRegister(answer, have, requested)
    ensures exists k :: have < k <= requested && StopsAt(answer, have, k)
    decreases requested
  {
    if AllRegister(answer, have, requested - 1) {
      assert StopsAt(answer, have, requested);
    } else {
      StopsSomewhere(answer, have, requested - 1);
    }
  }

  /** Answers that do not say whether the member was registered. */
  predicate Doubtful(answer: Answer) {
    answer.Broken? || answer.Interrupted? || answer == FailedBeforeStart(true)
  }

  /** Is every member after have registered outright? */
  ghost predicate AllRegister(answer: nat -> Answer, have: nat, requested: nat) {
    forall i | have < i <= requested :: answer(i).Registered?
  }

  /** The failure a terminal receipt reports again. */
  function Receipt(exitCode: nat): Failure {
    if exitCode == 0 then NoFailure else Certain(exitCode)
  }

  /** Does a run with this intent only replay the group? */
  predicate Replays(g: Group, intent: nat) {
    Terminal(g) && g.record.value.intent == intent
  }

  /** Does a run with this intent claim or resume the group? */
  predicate Advances(g: Group, intent: nat) {
    !Terminal(g) && (g.record.Some? ==> g.record.value.intent == intent)
  }
}
