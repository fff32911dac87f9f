/** Concurrent `ensure` calls for one digest in one site: the two transfer locks, the
    site cache, and transfers that may deliver anything. */
module Distribution {
  import opened Common

  /** A directory tree, up to its content digest: two trees with one digest are one tree. */
  type Tree = nat
  type Dest = nat

  /** The published cache object; marked says its completion marker names the digest. */
  datatype Cache = Absent | Present(code: Tree, marked: bool)

  datatype Source = SiteCache | Peer | Direct

  /** Where one caller stands in `ensure`. */
  datatype Pc =
    | Want(fallback: bool)                       // waiting for the destination lock
    | LocalCheck                                 // topology-aware: destination already right?
    | Peers(failed: bool, unavailable: bool)     // topology-aware: replicas one by one
    | Precheck                                   // a replica is unreachable: is the cache warm?
    | WantSite                                   // waiting for the site lock
    | Probing                                    // site lock held: is the cache warm?
    | Uploading(checksum: bool)                  // writing the staging tree
    | Staged(checksum: bool)                     // verifying the staging tree
    | Publishing                                 // marker written, old object still in place
    | Swapping                                   // old object quarantined
    | LeavingSite
    | Deliver(source: Source, checksum: bool)    // writing the destination
    | Verify(source: Source, checksum: bool)
    | Done(at: nat)                              // verified, destination lock still held
    | Succeeded(at: nat)
    | Failed

  datatype State = State(
    want: Tree,
    fallbackDirect: bool,
    dests: seq<Dest>,            // the destination of each caller
    pcs: seq<Pc>,
    destLock: map<Dest, nat>,
    siteLock: Option<nat>,
    cache: Cache,
    staging: Tree,
    tree: map<Dest, Tree>,       // the destination trees
    writes: map<Dest, nat>,      // how often each destination has been written
    uploads: nat,                // published cross-site uploads
    damages: nat)                // times a good cache object was damaged from outside

  datatype Action =
    | TakeDest(c: nat, topologyAware: bool)
    | CheckLocal(c: nat, readable: bool)
    | TryPeer(c: nat, usable: bool, reachable: bool)
    | PeersExhausted(c: nat)
    | CheckCache(c: nat)
    | TakeSite(c: nat)
    | Probe(c: nat)
    | WriteStaging(c: nat, t: Tree)
    | EndUpload(c: nat)
    | CheckStaging(c: nat)
    | Quarantine(c: nat)
    | Publish(c: nat)
    | ReleaseSite(c: nat)
    | WriteDest(c: nat, t: Tree)
    | EndDelivery(c: nat)
    | CheckDest(c: nat)
    | ReleaseDest(c: nat)
    | Fail(c: nat, distributionError: bool)
    | Damage(cache: Cache)

  predicate HoldsDest(pc: Pc) {
    !pc.Want? && !pc.Succeeded? && !pc.Failed?
  }

  predicate HoldsSite(pc: Pc) {
    pc.Probing? || pc.Uploading? || pc.Staged? || pc.Publishing? || pc.Swapping? || pc.LeavingSite?
  }

  predicate Filling(pc: Pc) {
    pc.Uploading? || pc.Staged? || pc.Publishing? || pc.Swapping?
  }

  predicate Warm(s: State) {
    s.cache == Present(s.want, true)
  }

  /** The direct fallback is the last attempt a caller makes. */
  predicate InFallback(pc: Pc) {
    pc == Want(true) || ((pc.Deliver? || pc.Verify?) && pc.source == Direct)
  }

  predicate WellFormed(s: State) {
    && |s.pcs| == |s.dests|
    && (forall c | 0 <= c < |s.dests| :: s.dests[c] in s.tree && s.dests[c] in s.writes)
  }

  predicate At(s: State, c: nat) {
    WellFormed(s) && c < |s.pcs|
  }

  /** Move caller c. Both locks are `with` scopes, so entering or leaving one is what
      takes or releases its lock. */
  function Move(s: State, c: nat, pc: Pc): State
    requires At(s, c)
  {
    var d, before := s.dests[c], s.pcs[c];
    s.(pcs := s.pcs[c := pc],
       destLock := if HoldsDest(pc) == HoldsDest(before) then s.destLock
                   else if HoldsDest(pc) then s.destLock[d := c] else s.destLock - {d},
       siteLock := if HoldsSite(pc) == HoldsSite(before) then s.siteLock
                   else if HoldsSite(pc) then Some(c) else None)
  }

  /** May caller c take this step now? The two Take steps wait for a free lock. */
  predicate Enabled(s: State, a: Action)
    requires !a.Damage? && At(s, a.c)
  {
    var pc := s.pcs[a.c];
    match a
    case TakeDest(c, _) => pc.Want? && s.dests[c] !in s.destLock
    case CheckLocal(_, _) => pc.LocalCheck?
    case TryPeer(_, _, _) => pc.Peers?
    case PeersExhausted(_) => pc.Peers?
    case CheckCache(_) => pc.Precheck?
    case TakeSite(_) => pc.WantSite? && s.siteLock.None?
    case Probe(_) => pc.Probing?
    case WriteStaging(_, _) => pc.Uploading?
    case EndUpload(_) => pc.Uploading?
    case CheckStaging(_) => pc.Staged?
    case Quarantine(_) => pc.Publishing?
    case Publish(_) => pc.Swapping?
    case ReleaseSite(_) => pc.LeavingSite?
    case WriteDest(_, _) => pc.Deliver?
    case EndDelivery(_) => pc.Deliver?
    case CheckDest(_) => pc.Verify?
    case ReleaseDest(_) => pc.Done?
    case Fail(_, _) => !pc.Done? && !pc.Succeeded? && !pc.Failed?
  }

  /** Where a failed attempt goes: the direct fallback, if configured and not already tried. */
  function GiveUp(s: State, pc: Pc, distributionError: bool): Pc {
    if distributionError && s.fallbackDirect && !InFallback(pc) then Want(true) else Failed
  }

  function Next(s: State, a: Action): Pc
    requires !a.Damage? && At(s, a.c) && Enabled(s, a)
  {
    var pc, d := s.pcs[a.c], s.dests[a.c];
    match a
    case TakeDest(_, topologyAware) =>
      if pc.fallback then Deliver(Direct, false) else if topologyAware then LocalCheck else WantSite
    case CheckLocal(_, readable) =>
      if readable && s.tree[d] == s.want then Done(s.writes[d]) else Peers(false, false)
    case TryPeer(_, usable, reachable) =>
      if usable && reachable then Deliver(Peer, false)
      else if reachable then pc else pc.(unavailable := true)
    case PeersExhausted(_) =>
      if pc.failed then GiveUp(s, pc, true) else if pc.unavailable then Precheck else WantSite
    case CheckCache(_) => if Warm(s) then WantSite else GiveUp(s, pc, true)
    case TakeSite(_) => Probing
    case Probe(_) => if Warm(s) then LeavingSite else Uploading(false)
    case WriteStaging(_, _) => pc
    case EndUpload(_) => Staged(pc.checksum)
    case CheckStaging(_) =>
      if s.staging == s.want then Publishing
      else if !pc.checksum then Uploading(true) else GiveUp(s, pc, true)
    case Quarantine(_) => Swapping
    case Publish(_) => LeavingSite
    case ReleaseSite(_) => Deliver(SiteCache, false)
    case WriteDest(_, _) => pc
    case EndDelivery(_) => Verify(pc.source, pc.checksum)
    case CheckDest(_) =>
      if s.tree[d] == s.want then Done(s.writes[d])
      else if !pc.checksum then Deliver(pc.source, true)
      else if pc.source == Peer then Peers(true, false) else GiveUp(s, pc, true)
    case ReleaseDest(_) => Succeeded(pc.at)
    case Fail(_, distributionError) =>
      // any exception, a failed command included; a crash is one that is not retried
      if pc.Deliver? && pc.source == Peer && distributionError then Peers(true, false)
      else GiveUp(s, pc, distributionError)
  }

  /** What a step writes, apart from moving its caller. */
  function Written(s: State, a: Action): State
    requires !a.Damage? && At(s, a.c)
  {
    var d := s.dests[a.c];
    match a
    case WriteStaging(_, t) => s.(staging := t)
    case Quarantine(_) => s.(cache := Absent)
    case Publish(_) => s.(cache := Present(s.staging, true), uploads := s.uploads + 1)
    case WriteDest(_, t) => s.(tree := s.tree[d := t], writes := s.writes[d := s.writes[d] + 1])
    case _ => s
  }

  /** One step of one caller, or one outside event. */
  ghost predicate Step(s: State, a: Action, s': State) {
    if a.Damage? then
      a.cache != Present(s.want, true)
      && s' == s.(cache := a.cache, damages := if Warm(s) then s.damages + 1 else s.damages)
    else
      At(s, a.c) && Enabled(s, a) && s' == Move(Written(s, a), a.c, Next(s, a))
  }

  ghost predicate Init(s: State) {
    && WellFormed(s)
    && (forall c | 0 <= c < |s.pcs| :: s.pcs[c] == Want(false))
    && s.destLock == map[] && s.siteLock == None
    && s.uploads == 0 && s.damages == 0
  }

  // ---------- the invariant ----------

  /** Both locks are held by exactly the callers inside their scopes. */
  ghost predicate LocksOk(s: State) {
    && WellFormed(s)
    && (forall c | 0 <= c < |s.pcs| && HoldsDest(s.pcs[c]) :: s.dests[c] in s.destLock && s.destLock[s.dests[c]] == c)
    && (forall c | 0 <= c < |s.pcs| && HoldsSite(s.pcs[c]) :: s.siteLock == Some(c))
    && (forall d | d in s.destLock :: s.destLock[d] < |s.pcs| && HoldsDest(s.pcs[s.destLock[d]]) && s.dests[s.destLock[d]] == d)
  }

  /** What a caller's position says about the stores, d being its destination. */
  predicate PlaceOk(s: State, d: Dest, pc: Pc) {
    && d in s.tree && d in s.writes
    && (Filling(pc) ==> !Warm(s))
    && (pc.Publishing? || pc.Swapping? ==> s.staging == s.want)
    && (pc.Done? ==> pc.at == s.writes[d] && s.tree[d] == s.want)
    && (pc.Succeeded? ==> pc.at <= s.writes[d] && (pc.at == s.writes[d] ==> s.tree[d] == s.want))
  }

  predicate CallerOk(s: State, c: nat)
    requires At(s, c)
  {
    PlaceOk(s, s.dests[c], s.pcs[c])
  }

  /** Uploads and damages alternate; warm0 says whether the cache was warm at the start. */
  predicate CountsOk(s: State, warm0: bool) {
    s.uploads + (if warm0 then 1 else 0) == s.damages + (if Warm(s) then 1 else 0)
  }

  ghost predicate Invariant(s: State, warm0: bool) {
    && LocksOk(s)
    && (forall c | 0 <= c < |s.pcs| :: CallerOk(s, c))
    && CountsOk(s, warm0)
  }

  lemma InitHolds(s: State)
    requires Init(s)
    ensures Invariant(s, Warm(s))
  {
    forall c | 0 <= c < |s.pcs| ensures CallerOk(s, c) {
      assert s.pcs[c] == Want(false);
    }
  }

  /** A step only enters the scope of a lock that is free, and the site scope lies
      inside the destination scope. */
  lemma NextRespectsLocks(s: State, a: Action)
    requires !a.Damage? && At(s, a.c) && Enabled(s, a)
    ensures HoldsDest(Next(s, a)) && !HoldsDest(s.pcs[a.c]) ==> s.dests[a.c] !in s.destLock
    ensures HoldsSite(Next(s, a)) && !HoldsSite(s.pcs[a.c]) ==> s.siteLock.None?
  {
  }

  lemma MoveKeepsLocks(s: State, c: nat, pc: Pc)
    requires LocksOk(s) && c < |s.pcs|
    requires HoldsDest(pc) && !HoldsDest(s.pcs[c]) ==> s.dests[c] !in s.destLock
    requires HoldsSite(pc) && !HoldsSite(s.pcs[c]) ==> s.siteLock.None?
    ensures LocksOk(Move(s, c, pc))
  {
    hide HoldsDest, HoldsSite;
  }

  /** Only a caller in the right place writes the staging tree, the cache or its own destination. */
  lemma WrittenFrame(s: State, a: Action, e: nat)
    requires !a.Damage? && At(s, a.c) && Enabled(s, a) && e < |s.pcs|
    ensures var w := Written(s, a);
            && WellFormed(w) && w.pcs == s.pcs && w.dests == s.dests && w.want == s.want
            && w.destLock == s.destLock && w.siteLock == s.siteLock && w.damages == s.damages
            && (w.staging != s.staging || w.cache != s.cache ==> Filling(s.pcs[a.c]))
            && w.writes[s.dests[e]] >= s.writes[s.dests[e]]
            && (w.writes[s.dests[e]] == s.writes[s.dests[e]] ==> w.tree[s.dests[e]] == s.tree[s.dests[e]])
            && (w.writes[s.dests[e]] != s.writes[s.dests[e]] ==> s.pcs[a.c].Deliver? && s.dests[e] == s.dests[a.c])
  {
  }

  lemma WrittenKeepsLocks(s: State, a: Action)
    requires LocksOk(s) && !a.Damage? && At(s, a.c) && Enabled(s, a)
    ensures LocksOk(Written(s, a))
  {
    WrittenFrame(s, a, a.c);
    hide Enabled, HoldsDest, HoldsSite, Written;
  }

  /** A caller other than the one that moved keeps its part of the invariant. */
  lemma OthersKeep(s: State, a: Action, e: nat)
    requires LocksOk(s) && !a.Damage? && At(s, a.c) && Enabled(s, a) && e < |s.pcs| && e != a.c && CallerOk(s, e)
    requires a.Publish? ==> CallerOk(s, a.c)
    ensures CallerOk(Written(s, a), e)
  {
    WrittenFrame(s, a, e);
    hide Written, Enabled;
    if Filling(s.pcs[a.c]) {
      assert HoldsSite(s.pcs[a.c]) && s.siteLock == Some(a.c);
    }
    if s.pcs[a.c].Deliver? && s.dests[e] == s.dests[a.c] {
      assert HoldsDest(s.pcs[a.c]);
    }
  }

  lemma MoverKeeps(s: State, a: Action)
    requires !a.Damage? && At(s, a.c) && Enabled(s, a) && CallerOk(s, a.c)
    ensures PlaceOk(Written(s, a), s.dests[a.c], Next(s, a))
  {
    hide HoldsDest, HoldsSite;
  }

  lemma CountsKept(s: State, a: Action, warm0: bool)
    requires !a.Damage? && At(s, a.c) && Enabled(s, a) && CallerOk(s, a.c) && CountsOk(s, warm0)
    ensures CountsOk(Written(s, a), warm0)
  {
    hide HoldsDest, HoldsSite;
  }

  lemma MoveKeepsPlaces(s: State, c: nat, pc: Pc, e: nat)
    requires At(s, c) && e < |s.pcs| && PlaceOk(s, s.dests[e], if e == c then pc else s.pcs[e])
    ensures CallerOk(Move(s, c, pc), e)
  {
  }

  lemma DamageKeeps(s: State, cache: Cache, warm0: bool)
    requires Invariant(s, warm0) && cache != Present(s.want, true)
    ensures Invariant(s.(cache := cache, damages := if Warm(s) then s.damages + 1 else s.damages), warm0)
  {
    hide HoldsDest, HoldsSite;
    var s' := s.(cache := cache, damages := if Warm(s) then s.damages + 1 else s.damages);
    forall e | 0 <= e < |s'.pcs| ensures CallerOk(s', e) {
      assert CallerOk(s, e);
    }
  }

  lemma CallerStepKeeps(s: State, a: Action, warm0: bool)
    requires Invariant(s, warm0) && !a.Damage? && At(s, a.c) && Enabled(s, a)
    ensures WellFormed(Written(s, a)) && |Written(s, a).pcs| == |s.pcs|
    ensures Invariant(Move(Written(s, a), a.c, Next(s, a)), warm0)
  {
    var c, w, pc := a.c, Written(s, a), Next(s, a);
    WrittenFrame(s, a, c);
    NextRespectsLocks(s, a);
    MoverKeeps(s, a);
    CountsKept(s, a, warm0);
    WrittenKeepsLocks(s, a);
    hide Written, Next, Enabled, HoldsDest, HoldsSite, PlaceOk, Warm, LocksOk;
    MoveKeepsLocks(w, c, pc);
    var s' := Move(w, c, pc);
    forall e | 0 <= e < |s'.pcs| ensures CallerOk(s', e) {
      if e != c {
        OthersKeep(s, a, e);
      }
      MoveKeepsPlaces(w, c, pc, e);
    }
  }

  lemma StepKeeps(s: State, a: Action, s': State, warm0: bool)
    requires Invariant(s, warm0) && Step(s, a, s')
    ensures Invariant(s', warm0)
  {
    hide Invariant, Enabled, Written, Next, Move;
    if a.Damage? {
      DamageKeeps(s, a.cache, warm0);
    } else {
      CallerStepKeeps(s, a, warm0);
    }
  }

  ghost predicate Run(run: seq<State>, acts: seq<Action>) {
    && |run| == |acts| + 1 && Init(run[0])
    && forall i | 0 <= i < |acts| :: Step(run[i], acts[i], run[i + 1])
  }

  lemma {:induction false} EveryRunIsSafe(run: seq<State>, acts: seq<Action>, i: nat)
    requires Run(run, acts) && i < |run|
    ensures Invariant(run[i], Warm(run[0]))
  {
    if i == 0 {
      InitHolds(run[0]);
    } else {
      EveryRunIsSafe(run, acts, i - 1);
      StepKeeps(run[i - 1], acts[i - 1], run[i], Warm(run[0]));
    }
  }

  /** At most one cross-site upload is published while the cache object stays
      intact, however many callers there are; none when it was warm already. */
  lemma OneUploadWhileIntact(run: seq<State>, acts: seq<Action>, i: nat)
    requires Run(run, acts) && i < |run|
    ensures run[i].uploads <= run[i].damages + 1
    ensures run[i].damages == 0 ==> run[i].uploads <= (if Warm(run[0]) then 0 else 1)
  {
    EveryRunIsSafe(run, acts, i);
  }

  /** No destination, and not the staging tree, ever has two writers, the direct
      fallback included. */
  lemma NoTwoWriters(run: seq<State>, acts: seq<Action>, i: nat, c: nat, e: nat)
    requires Run(run, acts) && i < |run| && c < |run[i].pcs| && e < |run[i].pcs| && c != e
    ensures |run[i].dests| == |run[i].pcs|
    ensures run[i].pcs[c].Deliver? && run[i].pcs[e].Deliver? ==> run[i].dests[c] != run[i].dests[e]
    ensures !(Filling(run[i].pcs[c]) && Filling(run[i].pcs[e]))
  {
    EveryRunIsSafe(run, acts, i);
    assert CallerOk(run[i], c) && CallerOk(run[i], e);
  }

  /** A caller that succeeded left the requested tree, by whichever branch, and it
      is still there unless somebody wrote to that destination afterwards. */
  lemma SuccessLeavesTheTree(run: seq<State>, acts: seq<Action>, i: nat, c: nat)
    requires Run(run, acts) && i < |run| && c < |run[i].pcs| && run[i].pcs[c].Succeeded?
    ensures |run[i].dests| == |run[i].pcs|
    ensures var d := run[i].dests[c];
            && d in run[i].tree && d in run[i].writes
            && (run[i].writes[d] == run[i].pcs[c].at ==> run[i].tree[d] == run[i].want)
    ensures i > 0 && |run[i - 1].pcs| > c && run[i - 1].pcs[c].Done? ==>
              run[i].dests[c] in run[i].tree && run[i].tree[run[i].dests[c]] == run[i].want
  {
    EveryRunIsSafe(run, acts, i);
    assert CallerOk(run[i], c);
    if i > 0 {
      EveryRunIsSafe(run, acts, i - 1);
      assert Step(run[i - 1], acts[i - 1], run[i]);
      if |run[i - 1].pcs| > c {
        assert CallerOk(run[i - 1], c);
      }
    }
  }

  // ---------- the direct fallback ----------

  /** Caller c has started the direct attempt by state i. */
  ghost predicate WentDirect(run: seq<State>, i: nat, c: nat) {
    exists k :: 0 <= k <= i && k < |run| && c < |run[k].pcs| && run[k].pcs[c] == Want(true)
  }

  lemma FallbackNext(s: State, a: Action)
    requires !a.Damage? && At(s, a.c) && Enabled(s, a)
    ensures var pc, next := s.pcs[a.c], Next(s, a);
            && (InFallback(next) ==> InFallback(pc) || (next == Want(true) && s.fallbackDirect))
            && (next.Failed? && s.fallbackDirect ==> InFallback(pc) || a == Fail(a.c, false))
  {
    hide Warm, WellFormed;
  }

  lemma FallbackStep(s: State, a: Action, s': State, c: nat)
    requires Step(s, a, s') && c < |s.pcs|
    ensures |s'.pcs| == |s.pcs| && s'.fallbackDirect == s.fallbackDirect
    ensures InFallback(s'.pcs[c]) ==> InFallback(s.pcs[c]) || (s'.pcs[c] == Want(true) && s.fallbackDirect)
    ensures s'.pcs[c].Failed? && s.fallbackDirect ==> s.pcs[c].Failed? || InFallback(s.pcs[c]) || a == Fail(c, false)
  {
    if !a.Damage? {
      FallbackNext(s, a);
    }
    hide HoldsDest, HoldsSite, Next, Enabled, InFallback;
  }

  /** Over every run: where the direct fallback is configured, a caller fails only by an
      error that is not the distribution's own or after its direct attempt; where it is
      not, nobody ever makes one. */
  lemma {:induction false} DirectComesLast(run: seq<State>, acts: seq<Action>, i: nat, c: nat)
    requires Run(run, acts) && i < |run| && c < |run[0].pcs|
    ensures |run[i].pcs| == |run[0].pcs| && run[i].fallbackDirect == run[0].fallbackDirect
    ensures InFallback(run[i].pcs[c]) ==> WentDirect(run, i, c) && run[0].fallbackDirect
    ensures run[i].pcs[c].Failed? && run[0].fallbackDirect ==>
              (exists k :: 0 <= k < i && acts[k] == Fail(c, false)) || WentDirect(run, i, c)
    ensures !run[0].fallbackDirect ==>
              run[i].pcs[c] != Want(true) && !(run[i].pcs[c].Deliver? && run[i].pcs[c].source == Direct)
  {
    if i > 0 {
      DirectComesLast(run, acts, i - 1, c);
      assert Step(run[i - 1], acts[i - 1], run[i]);
      hide Step, Init;
      FallbackStep(run[i - 1], acts[i - 1], run[i], c);
    }
  }

  // ---------- exactly when a returned caller's destination can be wrong ----------

  /** Step k delivers something into d. */
  predicate Delivers(run: seq<State>, acts: seq<Action>, k: nat, d: Dest)
    requires k < |acts| <= |run|
  {
    acts[k].WriteDest? && At(run[k], acts[k].c) && run[k].dests[acts[k].c] == d
  }

  /** Some caller has just verified d and still holds its lock. */
  ghost predicate Verified(s: State, d: Dest) {
    WellFormed(s) && exists f :: 0 <= f < |s.pcs| && s.dests[f] == d && s.pcs[f].Done?
  }

  ghost predicate LastDelivery(run: seq<State>, acts: seq<Action>, d: Dest, j: nat)
    requires |run| == |acts| + 1
  {
    && j < |acts| && Delivers(run, acts, j, d)
    && forall k | j < k < |acts| :: !Delivers(run, acts, k, d)
  }

  /** Nobody has verified d since something was last delivered into it. */
  ghost predicate Unverified(run: seq<State>, acts: seq<Action>, d: Dest)
    requires |run| == |acts| + 1
  {
    exists j: nat :: LastDelivery(run, acts, d, j) && forall k | j < k <= |acts| :: !Verified(run[k], d)
  }

  /** The same run, except perhaps for what the transfers into destinations brought. */
  ghost predicate Alike(run: seq<State>, acts: seq<Action>, run': seq<State>, acts': seq<Action>) {
    && Run(run, acts) && Run(run', acts') && |acts'| == |acts|
    && (forall k | 0 <= k <= |acts| ::
          run'[k].pcs == run[k].pcs && run'[k].dests == run[k].dests && run'[k].want == run[k].want)
    && (forall k | 0 <= k < |acts| ::
          acts'[k] == acts[k] || (acts'[k].WriteDest? && acts[k].WriteDest? && acts'[k].c == acts[k].c))
  }

  lemma StepFrame(s: State, a: Action, s': State, d: Dest)
    requires WellFormed(s) && Step(s, a, s') && d in s.tree
    ensures WellFormed(s') && s'.dests == s.dests && s'.want == s.want && d in s'.tree
    ensures !(a.WriteDest? && s.dests[a.c] == d) ==> s'.tree[d] == s.tree[d]
  {
    hide Next, HoldsDest, HoldsSite, Enabled;
  }

  /** While nothing is delivered into d, its tree stays. */
  lemma {:induction false} TreeStays(run: seq<State>, acts: seq<Action>, d: Dest, i: nat, k: nat)
    requires Run(run, acts) && i <= k <= |acts| && d in run[i].tree
    requires forall h | i <= h < k :: !Delivers(run, acts, h, d)
    ensures d in run[k].tree && run[k].tree[d] == run[i].tree[d]
    ensures run[k].dests == run[i].dests && run[k].want == run[i].want
    decreases k
  {
    if i < k {
      TreeStays(run, acts, d, i, k - 1);
      EveryRunIsSafe(run, acts, k - 1);
      assert Step(run[k - 1], acts[k - 1], run[k]) && !Delivers(run, acts, k - 1, d);
      hide Step;
      StepFrame(run[k - 1], acts[k - 1], run[k], d);
      assert acts[k - 1].WriteDest? ==> At(run[k - 1], acts[k - 1].c) by { WriterIsThere(run[k - 1], acts[k - 1], run[k]); }
    }
  }

  lemma WriterIsThere(s: State, a: Action, s': State)
    requires Step(s, a, s')
    ensures !a.Damage? ==> At(s, a.c)
  {
  }

  lemma VerifiedIsRight(run: seq<State>, acts: seq<Action>, d: Dest, k: nat)
    requires Run(run, acts) && k <= |acts| && Verified(run[k], d)
    ensures d in run[k].tree && run[k].tree[d] == run[k].want
  {
    EveryRunIsSafe(run, acts, k);
    var f :| 0 <= f < |run[k].pcs| && run[k].dests[f] == d && run[k].pcs[f].Done?;
    assert CallerOk(run[k], f);
  }

  lemma SucceedsFromDone(s: State, a: Action, s': State, c: nat)
    requires WellFormed(s) && Step(s, a, s') && c < |s'.pcs| && s'.pcs[c].Succeeded?
    ensures |s'.pcs| == |s.pcs| && s'.dests == s.dests
    ensures s.pcs[c].Done? || s.pcs[c].Succeeded?
  {
    if !a.Damage? && a.c == c {
      SucceedsNext(s, a);
    }
    hide HoldsDest, HoldsSite, Next, Enabled;
  }

  lemma SucceedsNext(s: State, a: Action)
    requires !a.Damage? && At(s, a.c) && Enabled(s, a) && Next(s, a).Succeeded?
    ensures s.pcs[a.c].Done?
  {
  }

  /** A caller that returned has verified its destination at some point. */
  lemma {:induction false} VerifiedBefore(run: seq<State>, acts: seq<Action>, c: nat, i: nat) returns (k: nat)
    requires Run(run, acts) && i <= |acts| && c < |run[i].pcs| && run[i].pcs[c].Succeeded?
    ensures |run[i].dests| == |run[i].pcs|
    ensures k <= i && Verified(run[k], run[i].dests[c])
  {
    EveryRunIsSafe(run, acts, i);
    k := 0;
    if i > 0 {
      RunIsWellFormed(run, acts, i - 1);
      hide Step, Invariant;
      SucceedsFromDone(run[i - 1], acts[i - 1], run[i], c);
      if run[i - 1].pcs[c].Done? {
        k := i - 1;
      } else {
        k := VerifiedBefore(run, acts, c, i - 1);
      }
    }
  }

  lemma {:induction false} FindLast(run: seq<State>, acts: seq<Action>, d: Dest, i: nat, n: nat) returns (j: Option<nat>)
    requires |run| == |acts| + 1 && i <= n <= |acts|
    requires forall k | n <= k < |acts| :: !Delivers(run, acts, k, d)
    ensures j.Some? ==> i <= j.value && LastDelivery(run, acts, d, j.value)
    ensures j.None? ==> forall k | i <= k < |acts| :: !Delivers(run, acts, k, d)
    decreases n
  {
    if i == n {
      j := None;
    } else if Delivers(run, acts, n - 1, d) {
      j := Some(n - 1);
    } else {
      j := FindLast(run, acts, d, i, n - 1);
    }
  }

  /** A wrong tree under a returned caller is one that was delivered and not verified. */
  lemma WrongIsUnverified(run: seq<State>, acts: seq<Action>, c: nat)
    requires Run(run, acts) && c < |run[|acts|].pcs| && run[|acts|].pcs[c].Succeeded?
    ensures |run[|acts|].dests| == |run[|acts|].pcs| && run[|acts|].dests[c] in run[|acts|].tree
    ensures run[|acts|].tree[run[|acts|].dests[c]] != run[|acts|].want ==> Unverified(run, acts, run[|acts|].dests[c])
  {
    EveryRunIsSafe(run, acts, |acts|);
    var n, d := |acts|, run[|acts|].dests[c];
    if run[n].tree[d] != run[n].want {
      hide Invariant, Run, Verified, Delivers;
      var k0 := VerifiedBefore(run, acts, c, n);
      RightUntilDelivered(run, acts, d, k0);
      var j := FindLast(run, acts, d, k0, n);
      assert j.Some?;
      forall k | j.value < k <= n ensures !Verified(run[k], d) {
        if Verified(run[k], d) {
          RightUntilDelivered(run, acts, d, k);
        }
      }
    }
  }

  lemma RightUntilDelivered(run: seq<State>, acts: seq<Action>, d: Dest, k: nat)
    requires Run(run, acts) && k <= |acts| && Verified(run[k], d)
    ensures (forall h | k <= h < |acts| :: !Delivers(run, acts, h, d)) ==>
              d in run[|acts|].tree && run[|acts|].tree[d] == run[|acts|].want
  {
    hide Verified, Delivers;
    VerifiedIsRight(run, acts, d, k);
    if forall h | k <= h < |acts| :: !Delivers(run, acts, h, d) {
      TreeStays(run, acts, d, k, |acts|);
    }
  }

  /** The state as it would be had d received t instead. */
  function Swapped(s: State, d: Dest, t: Tree): State {
    s.(tree := s.tree[d := t])
  }

  /** A step that neither delivers into d nor verifies it does not see what is there. */
  lemma StepIsBlind(s: State, a: Action, s': State, d: Dest, t: Tree)
    requires WellFormed(s) && Step(s, a, s') && d in s.tree && s.tree[d] == s.want
    requires !(a.WriteDest? && s.dests[a.c] == d) && !Verified(s', d)
    ensures Step(Swapped(s, d, t), a, Swapped(s', d, t))
  {
    if !a.Damage? {
      var u := Swapped(s, d, t);
      NextIsBlind(s, a, s', d, t);
      assert Written(u, a) == Swapped(Written(s, a), d, t) by { WrittenCommutes(s, a, d, t); }
      hide Written, Next, HoldsDest, HoldsSite, Enabled, Verified;
      assert Enabled(u, a) by { EnabledIsBlind(s, a, d, t); }
    }
  }

  lemma EnabledIsBlind(s: State, a: Action, d: Dest, t: Tree)
    requires !a.Damage? && At(s, a.c) && d in s.tree && Enabled(s, a)
    ensures At(Swapped(s, d, t), a.c) && Enabled(Swapped(s, d, t), a)
  {
  }

  lemma WrittenCommutes(s: State, a: Action, d: Dest, t: Tree)
    requires !a.Damage? && At(s, a.c) && d in s.tree && !(a.WriteDest? && s.dests[a.c] == d)
    ensures At(Swapped(s, d, t), a.c) && Written(Swapped(s, d, t), a) == Swapped(Written(s, a), d, t)
  {
    if a.WriteDest? {
      assert s.tree[d := t][s.dests[a.c] := a.t] == s.tree[s.dests[a.c] := a.t][d := t];
    }
  }

  lemma NextIsBlind(s: State, a: Action, s': State, d: Dest, t: Tree)
    requires WellFormed(s) && Step(s, a, s') && d in s.tree && s.tree[d] == s.want
    requires !a.Damage? && !Verified(s', d)
    ensures At(Swapped(s, d, t), a.c) && Enabled(Swapped(s, d, t), a)
    ensures Next(Swapped(s, d, t), a) == Next(s, a)
  {
    EnabledIsBlind(s, a, d, t);
    if Next(s, a).Done? && s.dests[a.c] == d {
      assert s'.dests[a.c] == d && s'.pcs[a.c].Done?;
    }
    hide Written, Move, HoldsDest, HoldsSite, Verified;
  }

  /** What was delivered last could have been anything: nobody has looked at it. */
  lemma AnyDelivery(run: seq<State>, acts: seq<Action>, d: Dest, j: nat, t: Tree) returns (run': seq<State>, acts': seq<Action>)
    requires Run(run, acts) && d in run[|acts|].tree && run[|acts|].tree[d] == run[|acts|].want
    requires LastDelivery(run, acts, d, j) && forall k | j < k <= |acts| :: !Verified(run[k], d)
    ensures Alike(run, acts, run', acts') && d in run'[|acts|].tree && run'[|acts|].tree[d] == t
  {
    var n := |acts|;
    run' := seq(n + 1, k requires 0 <= k <= n => if k <= j then run[k] else Swapped(run[k], d, t));
    acts' := acts[j := WriteDest(acts[j].c, t)];
    forall k | 0 <= k < n ensures Step(run'[k], acts'[k], run'[k + 1]) {
      assert Step(run[k], acts[k], run[k + 1]);
      hide Step, Verified, LastDelivery;
      if k == j {
        DeliversInstead(run[j], acts[j], run[j + 1], d, t);
      } else if k > j {
        RightAfterDelivery(run, acts, d, j, k);
        assert !Verified(run[k + 1], d) && !Delivers(run, acts, k, d);
        StepIsBlind(run[k], acts[k], run[k + 1], d, t);
      }
    }
    hide Step, Verified, LastDelivery, Delivers;
  }

  lemma DeliversInstead(s: State, a: Action, s': State, d: Dest, t: Tree)
    requires Step(s, a, s') && a.WriteDest? && At(s, a.c) && s.dests[a.c] == d
    ensures Step(s, WriteDest(a.c, t), Swapped(s', d, t))
  {
    assert s.tree[d := a.t][d := t] == s.tree[d := t];
  }

  lemma RightAfterDelivery(run: seq<State>, acts: seq<Action>, d: Dest, j: nat, k: nat)
    requires Run(run, acts) && LastDelivery(run, acts, d, j) && j < k <= |acts|
    requires d in run[|acts|].tree && run[|acts|].tree[d] == run[|acts|].want
    ensures WellFormed(run[k]) && d in run[k].tree && run[k].tree[d] == run[k].want
    ensures k < |acts| && acts[k].WriteDest? && At(run[k], acts[k].c) ==> run[k].dests[acts[k].c] != d
  {
    EveryRunIsSafe(run, acts, k);
    DeliveredIsThere(run, acts, d, j);
    TreeStays(run, acts, d, j + 1, k);
    TreeStays(run, acts, d, k, |acts|);
    if k < |acts| {
      assert !Delivers(run, acts, k, d);
    }
  }

  lemma DeliveredIsThere(run: seq<State>, acts: seq<Action>, d: Dest, j: nat)
    requires Run(run, acts) && j < |acts| && Delivers(run, acts, j, d)
    ensures d in run[j + 1].tree && run[j + 1].tree[d] == acts[j].t
  {
    assert Step(run[j], acts[j], run[j + 1]);
    hide HoldsDest, HoldsSite, Next;
  }

  lemma AlikeUnverified(run: seq<State>, acts: seq<Action>, run': seq<State>, acts': seq<Action>, d: Dest)
    requires Alike(run, acts, run', acts') && Unverified(run', acts', d)
    ensures Unverified(run, acts, d)
  {
    var j: nat :| LastDelivery(run', acts', d, j) && forall k | j < k <= |acts| :: !Verified(run'[k], d);
    forall k | 0 <= k <= |acts| ensures WellFormed(run[k]) && WellFormed(run'[k]) {
      EveryRunIsSafe(run, acts, k);
      EveryRunIsSafe(run', acts', k);
    }
    hide Run;
    forall k | j < k <= |acts| ensures !Verified(run[k], d) {
      assert !Verified(run'[k], d);
    }
    forall k | 0 <= k < |acts| ensures Delivers(run, acts, k, d) <==> Delivers(run', acts', k, d) {}
    assert LastDelivery(run, acts, d, j);
  }

  /** After a caller has returned, its destination can be wrong exactly while what was
      last delivered into it has been verified by nobody: only then does a run with the
      same steps, transfers bringing something else, end with a wrong tree. */
  lemma DisturbedExactly(run: seq<State>, acts: seq<Action>, c: nat)
    requires Run(run, acts) && c < |run[|acts|].pcs| && run[|acts|].pcs[c].Succeeded?
    ensures |run[|acts|].dests| == |run[|acts|].pcs|
    ensures var d := run[|acts|].dests[c];
            Unverified(run, acts, d) <==>
            exists run': seq<State>, acts': seq<Action> :: Alike(run, acts, run', acts') && d in run'[|acts|].tree && run'[|acts|].tree[d] != run'[|acts|].want
  {
    WrongIsUnverified(run, acts, c);
    var n, d := |acts|, run[|acts|].dests[c];
    assert Alike(run, acts, run, acts);
    hide Run, LastDelivery, Verified;
    if Unverified(run, acts, d) && run[n].tree[d] == run[n].want {
      hide Alike;
      var j: nat :| LastDelivery(run, acts, d, j) && forall k | j < k <= n :: !Verified(run[k], d);
      var run', acts' := AnyDelivery(run, acts, d, j, run[n].want + 1);
      assert run'[n].want == run[n].want by { AlikeEnds(run, acts, run', acts'); }
    }
    forall run': seq<State>, acts': seq<Action> | Alike(run, acts, run', acts') && d in run'[n].tree && run'[n].tree[d] != run'[n].want
      ensures Unverified(run, acts, d)
    {
      AlikeEnds(run, acts, run', acts');
      hide Alike, Unverified;
      WrongIsUnverified(run', acts', c);
      AlikeUnverified(run, acts, run', acts', d);
    }
  }

  lemma AlikeEnds(run: seq<State>, acts: seq<Action>, run': seq<State>, acts': seq<Action>)
    requires Alike(run, acts, run', acts')
    ensures |run'| == |acts'| + 1 == |acts| + 1 == |run| && Run(run', acts')
    ensures run'[|acts|].pcs == run[|acts|].pcs && run'[|acts|].dests == run[|acts|].dests && run'[|acts|].want == run[|acts|].want
  {
  }

  /** Where the caller of an unverified delivery can be. */
  predicate Unsettled(pc: Pc) {
    pc.Deliver? || pc.Verify? || (pc.Peers? && pc.failed) || pc == Want(true) || pc.Failed?
  }

  lemma UnsettledNext(s: State, a: Action)
    requires !a.Damage? && At(s, a.c) && Enabled(s, a) && Unsettled(s.pcs[a.c])
    ensures Unsettled(Next(s, a)) || Next(s, a).Done?
  {
  }

  lemma UnsettledStep(s: State, a: Action, s': State, e: nat)
    requires Step(s, a, s') && e < |s.pcs| && Unsettled(s.pcs[e])
    ensures |s'.pcs| == |s.pcs| && (Unsettled(s'.pcs[e]) || s'.pcs[e].Done?)
  {
    if !a.Damage? && a.c == e {
      UnsettledNext(s, a);
    }
    hide HoldsDest, HoldsSite, Next, Unsettled, Enabled;
  }

  lemma StepKeepsDests(s: State, a: Action, s': State)
    requires WellFormed(s) && Step(s, a, s')
    ensures s'.dests == s.dests && |s'.pcs| == |s.pcs|
  {
    hide HoldsDest, HoldsSite, Next, Enabled;
  }

  lemma RunIsWellFormed(run: seq<State>, acts: seq<Action>, k: nat)
    requires Run(run, acts) && k <= |acts|
    ensures |run| == |acts| + 1 && WellFormed(run[k])
    ensures k < |acts| ==> Step(run[k], acts[k], run[k + 1])
  {
    EveryRunIsSafe(run, acts, k);
  }

  lemma NotVerified(s: State, d: Dest, e: nat)
    requires WellFormed(s) && !Verified(s, d) && e < |s.pcs| && s.dests[e] == d
    ensures !s.pcs[e].Done?
  {
  }

  /** Its caller is still delivering or verifying, is about to try again, or has failed. */
  lemma {:induction false} UnverifiedCaller(run: seq<State>, acts: seq<Action>, d: Dest, j: nat, k: nat)
    requires Run(run, acts) && LastDelivery(run, acts, d, j) && j < k <= |acts|
    requires forall h | j < h <= |acts| :: !Verified(run[h], d)
    ensures WellFormed(run[k])
    ensures var e := acts[j].c; e < |run[k].pcs| && run[k].dests[e] == d && Unsettled(run[k].pcs[e])
  {
    hide WellFormed, Verified, Step, Run, Unsettled;
    var e := acts[j].c;
    RunIsWellFormed(run, acts, k);
    RunIsWellFormed(run, acts, k - 1);
    hide LastDelivery, Delivers;
    if k == j + 1 {
      DelivererDelivers(run, acts, d, j);
    } else {
      UnverifiedCaller(run, acts, d, j, k - 1);
    }
    UnsettledStep(run[k - 1], acts[k - 1], run[k], e);
    StepKeepsDests(run[k - 1], acts[k - 1], run[k]);
    NotVerified(run[k], d, e);
  }

  lemma DelivererDelivers(run: seq<State>, acts: seq<Action>, d: Dest, j: nat)
    requires Run(run, acts) && LastDelivery(run, acts, d, j)
    ensures var e := acts[j].c; e < |run[j].pcs| == |run[j].dests| && run[j].dests[e] == d && Unsettled(run[j].pcs[e])
  {
    assert Step(run[j], acts[j], run[j + 1]);
  }

  // ---------- and such a run exists ----------

  /** Caller 0 finds destination 0 right and returns; caller 1 fetches from a peer into
      it, writes something else and dies. */
  function Two(first: Pc, second: Pc, lock: map<Dest, nat>, tree: Tree, writes: nat): State {
    State(1, false, [0, 0], [first, second], lock, None, Absent, 0, map[0 := tree], map[0 := writes], 0, 0)
  }

  lemma BothStart()
    ensures Init(Two(Want(false), Want(false), map[], 1, 0))
    ensures Step(Two(Want(false), Want(false), map[], 1, 0), TakeDest(0, true), Two(LocalCheck, Want(false), map[0 := 0], 1, 0))
  {
  }

  lemma FirstReturns()
    ensures Step(Two(LocalCheck, Want(false), map[0 := 0], 1, 0), CheckLocal(0, true), Two(Done(0), Want(false), map[0 := 0], 1, 0))
    ensures Step(Two(Done(0), Want(false), map[0 := 0], 1, 0), ReleaseDest(0), Two(Succeeded(0), Want(false), map[], 1, 0))
  {
  }

  lemma SecondFetches()
    ensures Step(Two(Succeeded(0), Want(false), map[], 1, 0), TakeDest(1, true), Two(Succeeded(0), LocalCheck, map[0 := 1], 1, 0))
    ensures Step(Two(Succeeded(0), LocalCheck, map[0 := 1], 1, 0), CheckLocal(1, false),
                 Two(Succeeded(0), Peers(false, false), map[0 := 1], 1, 0))
    ensures Step(Two(Succeeded(0), Peers(false, false), map[0 := 1], 1, 0), TryPeer(1, true, true),
                 Two(Succeeded(0), Deliver(Peer, false), map[0 := 1], 1, 0))
  {
  }

  lemma SecondDies(t: Tree)
    ensures Step(Two(Succeeded(0), Deliver(Peer, false), map[0 := 1], 1, 0), WriteDest(1, t),
                 Two(Succeeded(0), Deliver(Peer, false), map[0 := 1], t, 1))
    ensures Step(Two(Succeeded(0), Deliver(Peer, false), map[0 := 1], t, 1), Fail(1, false),
                 Two(Succeeded(0), Failed, map[], t, 1))
  {
  }

  /** The returned caller's tree is gone, and no one is left to put it right. */
  lemma LaterDeliveryDisturbs(t: Tree) returns (run: seq<State>, acts: seq<Action>)
    ensures Run(run, acts) && run[|acts|] == Two(Succeeded(0), Failed, map[], t, 1)
    ensures |run| == 9 && run[3] == Two(Succeeded(0), Want(false), map[], 1, 0)
  {
    BothStart();
    FirstReturns();
    SecondFetches();
    SecondDies(t);
    hide Step, Init;
    run := [Two(Want(false), Want(false), map[], 1, 0), Two(LocalCheck, Want(false), map[0 := 0], 1, 0),
            Two(Done(0), Want(false), map[0 := 0], 1, 0), Two(Succeeded(0), Want(false), map[], 1, 0),
            Two(Succeeded(0), LocalCheck, map[0 := 1], 1, 0), Two(Succeeded(0), Peers(false, false), map[0 := 1], 1, 0),
            Two(Succeeded(0), Deliver(Peer, false), map[0 := 1], 1, 0),
            Two(Succeeded(0), Deliver(Peer, false), map[0 := 1], t, 1), Two(Succeeded(0), Failed, map[], t, 1)];
    acts := [TakeDest(0, true), CheckLocal(0, true), ReleaseDest(0), TakeDest(1, true), CheckLocal(1, false),
             TryPeer(1, true, true), WriteDest(1, t), Fail(1, false)];
  }

  // ---------- the two-attempt transfer, on one remote tree ----------

  datatype Attempt = Attempt(delivers: Tree, bytes: nat, files: Option<nat>, ok: bool, readable: bool)

  datatype Transfer = Moved(bytes: nat, files: Option<nat>) | Corrupt | Broken

  class RemoteTree {
    var content: Tree
    /** How many transfers wrote this tree. */
    var transfers: nat

    constructor (content: Tree)
      ensures this.content == content && transfers == 0
    {
      this.content, transfers := content, 0;
    }

    /** `_verified_transfer`: the checksum pass runs only after a proven mismatch. */
    method VerifiedTransfer(want: Tree, quick: Attempt, repair: Attempt) returns (r: Transfer)
      modifies this
      ensures r.Moved? ==> content == want
      ensures transfers == old(transfers) + if quick.ok && quick.readable && quick.delivers != want then 2 else 1
      ensures r == if !quick.ok || !quick.readable then Broken
                   else if quick.delivers == want then Moved(quick.bytes, quick.files)
                   else if !repair.ok || !repair.readable then Broken
                   else if repair.delivers != want then Corrupt
                   else Moved(quick.bytes + repair.bytes,
                              if quick.files.Some? && repair.files.Some? then Some(quick.files.value + repair.files.value) else None)
    {
      content, transfers := quick.delivers, transfers + 1;
      if !quick.ok || !quick.readable {
        return Broken;
      }
      var bytes, files := quick.bytes, quick.files;
      if content != want {
        content, transfers := repair.delivers, transfers + 1;
        if !repair.ok || !repair.readable {
          return Broken;
        }
        if content != want {
          return Corrupt;
        }
        bytes := bytes + repair.bytes;
        if files.None? || repair.files.None? {
          files := None;
        } else {
          files := Some(files.value + repair.files.value);
        }
      }
      return Moved(bytes, files);
    }
  }
}
