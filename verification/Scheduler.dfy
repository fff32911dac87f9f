/** One poll tick's walk over the queue, with and without a dispatch pool. */
module Scheduler {
  import opened Common
  import opened Backoff

  type Node = string

  /** A queued registry row; dispatchNode is the node an earlier dispatch chose. */
  datatype Entry = Entry(id: JobId, gpus: nat, pin: Option<Node>, dispatchNode: Option<Node>)

  datatype Outcome = Started | Finished | Failed | Skipped | Killed | CancelFailed
                   | Busy | Blocked | Unreachable | Waiting | Raised

  datatype Said = Capped | Dispatching | Held | Backing | Tried(outcome: Outcome)

  /** What one tick recorded for one entry; handed holds the reserved nodes given
      to dispatch when the entry was handed over. */
  datatype Row = Row(said: Said, handed: Option<set<Node>>)

  /** The pool as the tick sees it: job ids in flight and the worker count. */
  datatype Pool = Pool(inflight: set<JobId>, workers: nat)

  /** Everything outside the walk: the cap, the slots owned by work that is not
      queued, the backoff deadlines, the clock at each entry, the pool, and what
      dispatching entry i answers and leaves owning. */
  datatype World = World(
    cap: Option<nat>,
    others: nat,
    waits: Waits,
    clock: nat -> real,
    pool: Option<Pool>,
    dispatch: (nat, set<Node>) -> (Outcome, bool))

  predicate ChangesQuota(o: Outcome) {
    o in {Started, Finished, Failed, Skipped, Killed, CancelFailed}
  }

  /** "busy" in the tick's results. */
  predicate RecordedBusy(r: Row) {
    r.said == Held || r.said == Tried(Busy)
  }

  // ---------- the rule, in terms of the rows recorded so far ----------

  /** Nodes a busy pinned GPU entry is waiting for. */
  ghost function BusyPins(queue: seq<Entry>, past: seq<Row>): set<Node>
    requires |past| <= |queue|
  {
    set i | 0 <= i < |past| && past[i].said == Tried(Busy) && queue[i].gpus > 0 && queue[i].pin.Some? :: queue[i].pin.value
  }

  /** The node a dispatch in flight is heading to, if it has one. */
  function Target(e: Entry, r: Row): Option<Node> {
    if r.said != Dispatching then None
    else if r.handed.None? && e.dispatchNode.Some? then e.dispatchNode
    else e.pin
  }

  ghost function Targets(queue: seq<Entry>, past: seq<Row>): set<Node>
    requires |past| <= |queue|
  {
    set i | 0 <= i < |past| && Target(queue[i], past[i]).Some? :: Target(queue[i], past[i]).value
  }

  /** A GPU entry that could still take a card on any node. */
  predicate Unplaced(e: Entry, r: Row) {
    && e.gpus > 0
    && ((r.said == Tried(Busy) && e.pin.None?) || (r.said == Dispatching && Target(e, r).None?))
  }

  ghost predicate UnplacedAhead(queue: seq<Entry>, past: seq<Row>)
    requires |past| <= |queue|
  {
    exists i | 0 <= i < |past| :: Unplaced(queue[i], past[i])
  }

  function Submitted(past: seq<Row>): nat {
    if past == [] then 0
    else Submitted(past[..|past| - 1]) + if past[|past| - 1].said == Dispatching && past[|past| - 1].handed.Some? then 1 else 0
  }

  ghost predicate Saturated(pool: Pool, past: seq<Row>) {
    |pool.inflight| + Submitted(past) >= pool.workers
  }

  /** The slots owned by queued entries. */
  function Owned(owns: seq<bool>): nat {
    if owns == [] then 0 else Owned(owns[..|owns| - 1]) + if owns[|owns| - 1] then 1 else 0
  }

  /** What `quota_occupancy` counts. */
  function Occupancy(w: World, owns: seq<bool>): nat {
    w.others + Owned(owns)
  }

  ghost function Reserved(queue: seq<Entry>, past: seq<Row>, k: nat): set<Node>
    requires |past| <= |queue| && k < |queue|
  {
    if queue[k].pin.None? && queue[k].gpus > 0 then BusyPins(queue, past) + Targets(queue, past) else {}
  }

  /** What entry k must be told, given everything told before it and whether the
      cap stops the walk here. */
  ghost predicate RowFollows(w: World, queue: seq<Entry>, past: seq<Row>, k: nat, row: Row)
    requires |past| <= |queue| && k < |queue|
  {
    var e := queue[k];
    if row.said == Capped then
      row.handed.None? && w.cap.Some?
    else if w.pool.Some? && e.id in w.pool.value.inflight then
      row == Row(Dispatching, None)
    else if e.gpus > 0 && (UnplacedAhead(queue, past) || (e.pin.Some? && e.pin.value in BusyPins(queue, past))) then
      row == Row(Held, None)
    else if !Due(w.waits, e.id, w.clock(k)) then
      row == Row(Backing, None)
    else if w.pool.Some? then
      if (e.pin.Some? && e.pin.value in Targets(queue, past)) || Saturated(w.pool.value, past) then
        row == Row(Held, None)
      else
        row == Row(Dispatching, Some(Reserved(queue, past, k)))
    else
      row == Row(Tried(w.dispatch(k, Reserved(queue, past, k)).0), Some(Reserved(queue, past, k)))
  }

  ghost predicate Walked(w: World, queue: seq<Entry>, rows: seq<Row>) {
    && |rows| <= |queue|
    && (forall k | 0 <= k < |rows| :: RowFollows(w, queue, rows[..k], k, rows[k]))
    && (forall k | 0 <= k < |rows| :: rows[k].said == Capped ==> k == |rows| - 1)
    && (|rows| < |queue| ==> rows != [] && rows[|rows| - 1].said == Capped)
  }

  ghost predicate DistinctIds(queue: seq<Entry>) {
    forall i, j | 0 <= i < j < |queue| :: queue[i].id != queue[j].id
  }

  /** The backoff bookkeeping one recorded row leaves for its own job. */
  function Noted(waits: Waits, id: JobId, said: Said, now: real): Waits {
    if said.Tried? then
      if said.outcome in {Blocked, Unreachable, Raised} then Bumped(waits, id, now)
      else waits - {id}
    else waits
  }

  // ---------- the walk itself ----------

  lemma BusyPinsStep(queue: seq<Entry>, past: seq<Row>, row: Row)
    requires |past| < |queue|
    ensures BusyPins(queue, past + [row]) == BusyPins(queue, past) + PinsOf(queue[|past|], row)
  {
    var rows, e := past + [row], queue[|past|];
    forall n | n in BusyPins(queue, past) ensures n in BusyPins(queue, rows) {
      var i :| 0 <= i < |past| && past[i].said == Tried(Busy) && queue[i].gpus > 0 && queue[i].pin.Some? && queue[i].pin.value == n;
      assert rows[i] == past[i];
    }
    if row.said == Tried(Busy) && e.gpus > 0 && e.pin.Some? {
      assert rows[|past|] == row;
    }
  }

  lemma TargetsStep(queue: seq<Entry>, past: seq<Row>, row: Row)
    requires |past| < |queue|
    ensures Targets(queue, past + [row]) == Targets(queue, past) + TargetsOf(queue[|past|], row)
  {
    var rows := past + [row];
    forall n | n in Targets(queue, past) ensures n in Targets(queue, rows) {
      var i :| 0 <= i < |past| && Target(queue[i], past[i]).Some? && Target(queue[i], past[i]).value == n;
      assert rows[i] == past[i];
    }
    if Target(queue[|past|], row).Some? {
      assert rows[|past|] == row;
    }
  }

  lemma UnplacedStep(queue: seq<Entry>, past: seq<Row>, row: Row)
    requires |past| < |queue|
    ensures UnplacedAhead(queue, past + [row]) <==> UnplacedAhead(queue, past) || Unplaced(queue[|past|], row)
  {
    var rows := past + [row];
    if UnplacedAhead(queue, past) {
      var i :| 0 <= i < |past| && Unplaced(queue[i], past[i]);
      assert rows[i] == past[i];
    }
    assert rows[|past|] == row;
  }

  lemma WalkedStep(w: World, queue: seq<Entry>, past: seq<Row>, row: Row)
    requires |past| < |queue|
    requires forall k | 0 <= k < |past| :: RowFollows(w, queue, past[..k], k, past[k])
    requires RowFollows(w, queue, past, |past|, row)
    ensures forall k | 0 <= k < |past| + 1 :: RowFollows(w, queue, (past + [row])[..k], k, (past + [row])[k])
  {
    var rows := past + [row];
    forall k | 0 <= k < |rows| ensures RowFollows(w, queue, rows[..k], k, rows[k]) {
      if k < |past| {
        assert rows[..k] == past[..k];
      } else {
        assert rows[..k] == past;
      }
    }
  }

  lemma {:induction false} OwnedUpdate(owns: seq<bool>, k: nat, b: bool)
    requires k < |owns|
    ensures Owned(owns[k := b]) == Owned(owns) - (if owns[k] then 1 else 0) + (if b then 1 else 0)
  {
    var last := |owns| - 1;
    if k < last {
      OwnedUpdate(owns[..last], k, b);
      assert owns[k := b][..last] == owns[..last][k := b];
    } else {
      assert owns[k := b][..last] == owns[..last];
    }
  }

  /** What one row adds to each flag of the walk. */
  function PinsOf(e: Entry, row: Row): set<Node> {
    if row.said == Tried(Busy) && e.gpus > 0 && e.pin.Some? then {e.pin.value} else {}
  }

  function TargetsOf(e: Entry, row: Row): set<Node> {
    if Target(e, row).Some? then {Target(e, row).value} else {}
  }

  function JoiningOf(e: Entry, row: Row): set<JobId> {
    if row.said == Dispatching && row.handed.Some? then {e.id} else {}
  }

  /** The local variables of the walk. */
  datatype Walk = Walk(
    running: nat,
    owns: seq<bool>,
    waits: Waits,
    inflight: set<JobId>,
    busyPins: set<Node>,
    unpinnedGpuWait: bool,
    inflightNodes: set<Node>)

  /** The loop body's verdict for one entry that the cap lets through. */
  method JudgeEntry(w: World, queue: seq<Entry>, k: nat, v: Walk, ghost past: seq<Row>) returns (row: Row)
    requires k < |queue| && |past| == k && Mirrors(w, queue, past, v)
    ensures RowFollows(w, queue, past, k, row)
    ensures row.said != Capped
    ensures row.said == Dispatching && row.handed.Some? ==> w.pool.Some? && queue[k].id !in v.inflight && |v.inflight| < w.pool.value.workers
    ensures row.said.Tried? ==> row.handed.Some? && row.said.outcome == w.dispatch(k, row.handed.value).0
  {
    hide BusyPins, Targets, UnplacedAhead, Submitted;
    var entry := queue[k];
    if w.pool.Some? && entry.id in v.inflight {
      return Row(Dispatching, None);
    }
    if entry.gpus > 0 && (v.unpinnedGpuWait || (entry.pin.Some? && entry.pin.value in v.busyPins)) {
      return Row(Held, None);
    }
    if entry.id in v.waits && w.clock(k) < v.waits[entry.id].deadline {
      return Row(Backing, None);
    }
    var reserved := if entry.pin.None? && entry.gpus > 0 then v.busyPins + v.inflightNodes else {};
    if w.pool.Some? {
      if entry.pin.Some? && entry.pin.value in v.inflightNodes {
        return Row(Held, None);
      }
      if |v.inflight| >= w.pool.value.workers {
        return Row(Held, None);
      }
      return Row(Dispatching, Some(reserved));
    }
    return Row(Tried(w.dispatch(k, reserved).0), Some(reserved));
  }

  /** The loop body's updates after that verdict. */
  method SettleEntry(w: World, entry: Entry, k: nat, v: Walk, row: Row) returns (v': Walk)
    requires k < |v.owns|
    requires row.said.Tried? ==> row.handed.Some? && row.said.outcome == w.dispatch(k, row.handed.value).0
    ensures v'.busyPins == v.busyPins + PinsOf(entry, row)
    ensures v'.inflightNodes == v.inflightNodes + TargetsOf(entry, row)
    ensures v'.unpinnedGpuWait <==> v.unpinnedGpuWait || Unplaced(entry, row)
    ensures v'.waits == Noted(v.waits, entry.id, row.said, w.clock(k))
    ensures v'.inflight == v.inflight + JoiningOf(entry, row)
    ensures SlotStep(w, k, v, row, v')
  {
    hide Noted, Owned;
    v' := v;
    if row.said == Dispatching {
      var target := if row.handed.None? && entry.dispatchNode.Some? then entry.dispatchNode else entry.pin;
      if row.handed.Some? {
        v' := v'.(inflight := v.inflight + {entry.id});
      }
      if target.Some? {
        v' := v'.(inflightNodes := v.inflightNodes + {target.value});
      } else if entry.gpus > 0 {
        v' := v'.(unpinnedGpuWait := true);
      }
    } else if row.said.Tried? {
      var (outcome, ownsAfter) := w.dispatch(k, row.handed.value);
      v' := v'.(owns := v.owns[k := ownsAfter]);
      if ChangesQuota(outcome) {
        v' := v'.(running := Occupancy(w, v'.owns));
      }
      if outcome == Busy && entry.gpus > 0 {
        if entry.pin.None? {
          v' := v'.(unpinnedGpuWait := true);
        } else {
          v' := v'.(busyPins := v.busyPins + {entry.pin.value});
        }
      }
    }
    v' := v'.(waits := Noted(v.waits, entry.id, row.said, w.clock(k)));
  }

  /** The flags of the walk say what the recorded rows say. */
  ghost predicate Mirrors(w: World, queue: seq<Entry>, past: seq<Row>, v: Walk)
    requires |past| <= |queue|
  {
    && v.busyPins == BusyPins(queue, past)
    && v.inflightNodes == Targets(queue, past)
    && (v.unpinnedGpuWait <==> UnplacedAhead(queue, past))
    && (w.pool.Some? ==> |v.inflight| == |w.pool.value.inflight| + Submitted(past))
    && (w.pool.Some? && |past| < |queue| ==>
          (queue[|past|].id in v.inflight <==> queue[|past|].id in w.pool.value.inflight))
    && (|past| < |queue| ==>
          (Due(v.waits, queue[|past|].id, w.clock(|past|)) <==> Due(w.waits, queue[|past|].id, w.clock(|past|))))
  }

  ghost predicate SameWait(a: Waits, b: Waits, id: JobId) {
    (id in a <==> id in b) && (id in a ==> a[id] == b[id])
  }

  /** Entries not reached yet have their original slot, pool membership and wait. */
  ghost predicate Untouched(w: World, queue: seq<Entry>, owns0: seq<bool>, k: nat, v: Walk)
    requires |owns0| == |queue| == |v.owns|
  {
    forall i | k <= i < |queue| ::
      && v.owns[i] == owns0[i]
      && SameWait(v.waits, w.waits, queue[i].id)
      && (w.pool.Some? ==> (queue[i].id in v.inflight <==> queue[i].id in w.pool.value.inflight))
  }

  ghost predicate WaitsNoted(w: World, queue: seq<Entry>, rows: seq<Row>, waits: Waits)
    requires |rows| <= |queue|
  {
    forall i | 0 <= i < |rows| :: SameWait(waits, Noted(w.waits, queue[i].id, rows[i].said, w.clock(i)), queue[i].id)
  }

  /** Each visit changes at most the visited entry's slot, by dispatching it. */
  ghost predicate SlotsFollow(w: World, rows: seq<Row>, slots: seq<seq<bool>>)
    requires |slots| == |rows| + 1
  {
    forall k | 0 <= k < |rows| ::
      slots[k + 1] == if rows[k].said.Tried? && rows[k].handed.Some? && k < |slots[k]|
                      then slots[k][k := w.dispatch(k, rows[k].handed.value).1] else slots[k]
  }

  /** The occupancy the walk believes in after some rows: it recounts only after an
      outcome that changes quota. */
  ghost function Counted(w: World, rows: seq<Row>, slots: seq<seq<bool>>): nat
    requires |slots| == |rows| + 1
  {
    if rows == [] then Occupancy(w, slots[0])
    else
      var last := rows[|rows| - 1].said;
      if last.Tried? && ChangesQuota(last.outcome) then Occupancy(w, slots[|rows|])
      else Counted(w, rows[..|rows| - 1], slots[..|rows|])
  }

  /** The cap ends the walk at an entry exactly when the believed occupancy,
      without the slot the entry already owns, has reached it. */
  ghost predicate CapFollows(w: World, owns0: seq<bool>, rows: seq<Row>, slots: seq<seq<bool>>)
    requires |rows| < |slots| && |rows| <= |owns0|
  {
    forall k | 0 <= k < |rows| ::
      rows[k].said == Capped <==>
        w.cap.Some? && Counted(w, rows[..k], slots[..k + 1]) - (if owns0[k] then 1 else 0) >= w.cap.value
  }

  lemma CapFollowsStep(w: World, owns0: seq<bool>, past: seq<Row>, slots: seq<seq<bool>>, row: Row, after: seq<bool>)
    requires |slots| == |past| + 1 && |past| < |owns0| && CapFollows(w, owns0, past, slots)
    requires row.said == Capped <==> w.cap.Some? && Counted(w, past, slots) - (if owns0[|past|] then 1 else 0) >= w.cap.value
    ensures CapFollows(w, owns0, past + [row], slots + [after])
    ensures Counted(w, past + [row], slots + [after])
            == if row.said.Tried? && ChangesQuota(row.said.outcome) then Occupancy(w, after) else Counted(w, past, slots)
  {
    var rows, more := past + [row], slots + [after];
    assert rows[..|past|] == past && more[..|rows|] == slots;
    forall k | 0 <= k < |rows|
      ensures rows[..k] == (if k < |past| then past[..k] else past)
      ensures more[..k + 1] == (if k < |past| then slots[..k + 1] else slots)
    {
    }
  }

  lemma SubmittedStep(past: seq<Row>, row: Row)
    ensures Submitted(past + [row]) == Submitted(past) + if row.said == Dispatching && row.handed.Some? then 1 else 0
  {
    assert (past + [row])[..|past|] == past;
  }

  /** The slots after one visited entry. */
  ghost predicate SlotStep(w: World, k: nat, v: Walk, row: Row, next: Walk)
    requires k < |v.owns|
    requires row.said.Tried? ==> row.handed.Some?
  {
    if row.said.Tried? then
      var answer := w.dispatch(k, row.handed.value);
      && row.said.outcome == answer.0 && next.owns == v.owns[k := answer.1]
      && next.running == if ChangesQuota(answer.0) then Occupancy(w, next.owns) else v.running
    else next.owns == v.owns && next.running == v.running
  }

  lemma MirrorsStep(w: World, queue: seq<Entry>, owns0: seq<bool>, past: seq<Row>, v: Walk, row: Row, next: Walk)
    requires |past| < |queue| == |owns0| == |v.owns| == |next.owns| && DistinctIds(queue)
    requires Mirrors(w, queue, past, v) && Untouched(w, queue, owns0, |past|, v) && WaitsNoted(w, queue, past, v.waits)
    requires (row.said.Tried? ==> row.handed.Some?) && SlotStep(w, |past|, v, row, next)
    requires next.busyPins == v.busyPins + PinsOf(queue[|past|], row)
    requires next.inflightNodes == v.inflightNodes + TargetsOf(queue[|past|], row)
    requires next.unpinnedGpuWait <==> v.unpinnedGpuWait || Unplaced(queue[|past|], row)
    requires next.waits == Noted(v.waits, queue[|past|].id, row.said, w.clock(|past|))
    requires next.inflight == v.inflight + JoiningOf(queue[|past|], row)
    requires row.said == Dispatching && row.handed.Some? ==> queue[|past|].id !in v.inflight
    ensures Mirrors(w, queue, past + [row], next)
    ensures Untouched(w, queue, owns0, |past| + 1, next)
    ensures WaitsNoted(w, queue, past + [row], next.waits)
  {
    BusyPinsStep(queue, past, row);
    TargetsStep(queue, past, row);
    UnplacedStep(queue, past, row);
    InflightStep(w, queue, past, v, row, next);
    UntouchedStep(w, queue, owns0, past, v, row, next);
    NextIsUntouched(w, queue, owns0, |past| + 1, next);
    hide BusyPins, Targets, UnplacedAhead, Submitted, PinsOf, TargetsOf, Unplaced, Noted, SlotStep, WaitsNoted,
      DistinctIds, Untouched, JoiningOf, Due;
  }

  lemma InflightStep(w: World, queue: seq<Entry>, past: seq<Row>, v: Walk, row: Row, next: Walk)
    requires |past| < |queue| && next.inflight == v.inflight + JoiningOf(queue[|past|], row)
    requires row.said == Dispatching && row.handed.Some? ==> queue[|past|].id !in v.inflight
    requires w.pool.Some? ==> |v.inflight| == |w.pool.value.inflight| + Submitted(past)
    ensures w.pool.Some? ==> |next.inflight| == |w.pool.value.inflight| + Submitted(past + [row])
  {
    SubmittedStep(past, row);
  }

  /** What Mirrors says of the entry to come. */
  lemma NextIsUntouched(w: World, queue: seq<Entry>, owns0: seq<bool>, k: nat, v: Walk)
    requires k <= |queue| == |owns0| == |v.owns| && Untouched(w, queue, owns0, k, v)
    ensures w.pool.Some? && k < |queue| ==> (queue[k].id in v.inflight <==> queue[k].id in w.pool.value.inflight)
    ensures k < |queue| ==> (Due(v.waits, queue[k].id, w.clock(k)) <==> Due(w.waits, queue[k].id, w.clock(k)))
  {
  }

  lemma UntouchedStep(w: World, queue: seq<Entry>, owns0: seq<bool>, past: seq<Row>, v: Walk, row: Row, next: Walk)
    requires |past| < |queue| == |owns0| == |v.owns| == |next.owns| && DistinctIds(queue)
    requires Untouched(w, queue, owns0, |past|, v) && WaitsNoted(w, queue, past, v.waits)
    requires (row.said.Tried? ==> row.handed.Some?) && SlotStep(w, |past|, v, row, next)
    requires next.waits == Noted(v.waits, queue[|past|].id, row.said, w.clock(|past|))
    requires next.inflight == v.inflight + JoiningOf(queue[|past|], row)
    ensures Untouched(w, queue, owns0, |past| + 1, next)
    ensures WaitsNoted(w, queue, past + [row], next.waits)
  {
    var id := queue[|past|].id;
    forall i | 0 <= i < |queue| && i != |past| ensures queue[i].id != id && SameWait(next.waits, v.waits, queue[i].id) {
      if i < |past| { assert queue[i].id != queue[|past|].id; }
    }
    assert SameWait(v.waits, w.waits, id);
    forall i | 0 <= i < |past| + 1
      ensures SameWait(next.waits, Noted(w.waits, queue[i].id, (past + [row])[i].said, w.clock(i)), queue[i].id)
    {
      if i < |past| {
        assert SameWait(v.waits, Noted(w.waits, queue[i].id, past[i].said, w.clock(i)), queue[i].id);
      }
    }
  }

  ghost predicate WalkInvariant(w: World, queue: seq<Entry>, owns0: seq<bool>, rows: seq<Row>, v: Walk, slots: seq<seq<bool>>)
    requires |rows| <= |queue| == |owns0| == |v.owns| && |slots| == |rows| + 1
  {
    && (forall i | 0 <= i < |rows| :: RowFollows(w, queue, rows[..i], i, rows[i]) && rows[i].said != Capped)
    && Mirrors(w, queue, rows, v)
    && Untouched(w, queue, owns0, |rows|, v)
    && WaitsNoted(w, queue, rows, v.waits)
    && slots[0] == owns0 && slots[|rows|] == v.owns && SlotsFollow(w, rows, slots)
    && CapFollows(w, owns0, rows, slots) && v.running == Counted(w, rows, slots)
    && (w.pool.Some? ==> |v.inflight| <= Max(w.pool.value.workers, |w.pool.value.inflight|))
  }

  lemma WalkStarts(w: World, queue: seq<Entry>, owns0: seq<bool>, v: Walk, slots: seq<seq<bool>>)
    requires |owns0| == |queue|
    requires v == Walk(Occupancy(w, owns0), owns0, w.waits, if w.pool.Some? then w.pool.value.inflight else {}, {}, false, {})
    requires slots == [v.owns]
    ensures WalkInvariant(w, queue, owns0, [], v, slots)
  {
  }

  lemma WalkKnows(w: World, queue: seq<Entry>, owns0: seq<bool>, rows: seq<Row>, v: Walk, slots: seq<seq<bool>>)
    requires |rows| <= |queue| == |owns0| == |v.owns| && |slots| == |rows| + 1
    requires WalkInvariant(w, queue, owns0, rows, v, slots)
    ensures Mirrors(w, queue, rows, v)
  {
  }

  lemma WalkStep(w: World, queue: seq<Entry>, owns0: seq<bool>, past: seq<Row>, v: Walk, row: Row, next: Walk, slots: seq<seq<bool>>)
    requires |past| < |queue| == |owns0| == |v.owns| && |slots| == |past| + 1 && DistinctIds(queue)
    requires WalkInvariant(w, queue, owns0, past, v, slots)
    requires !(w.cap.Some? && v.running - (if v.owns[|past|] then 1 else 0) >= w.cap.value)
    requires RowFollows(w, queue, past, |past|, row) && row.said != Capped
    requires (row.said.Tried? ==> row.handed.Some?) && SlotStep(w, |past|, v, row, next)
    requires next.busyPins == v.busyPins + PinsOf(queue[|past|], row)
    requires next.inflightNodes == v.inflightNodes + TargetsOf(queue[|past|], row)
    requires next.unpinnedGpuWait <==> v.unpinnedGpuWait || Unplaced(queue[|past|], row)
    requires next.waits == Noted(v.waits, queue[|past|].id, row.said, w.clock(|past|))
    requires next.inflight == v.inflight + JoiningOf(queue[|past|], row)
    requires row.said == Dispatching && row.handed.Some? ==> w.pool.Some? && queue[|past|].id !in v.inflight && |v.inflight| < w.pool.value.workers
    ensures |next.owns| == |owns0|
    ensures WalkInvariant(w, queue, owns0, past + [row], next, slots + [next.owns])
  {
    hide RowFollows, Mirrors, Untouched, WaitsNoted, PinsOf, TargetsOf, Unplaced, Noted, Owned;
    WalkedStep(w, queue, past, row);
    MirrorsStep(w, queue, owns0, past, v, row, next);
    assert owns0[|past|] == v.owns[|past|] by { UntouchedHere(w, queue, owns0, |past|, v); }
    CapFollowsStep(w, owns0, past, slots, row, next.owns);
  }

  lemma UntouchedHere(w: World, queue: seq<Entry>, owns0: seq<bool>, k: nat, v: Walk)
    requires |owns0| == |queue| == |v.owns| && k < |queue| && Untouched(w, queue, owns0, k, v)
    ensures v.owns[k] == owns0[k] && SameWait(v.waits, w.waits, queue[k].id)
  {
  }

  /** What the finished walk promises. */
  ghost predicate WalkDone(w: World, queue: seq<Entry>, owns0: seq<bool>, rows: seq<Row>, v: Walk, slots: seq<seq<bool>>)
    requires |owns0| == |queue|
  {
    && Walked(w, queue, rows)
    && |v.owns| == |owns0| && |slots| == |rows| + 1
    && slots[0] == owns0 && slots[|rows|] == v.owns && SlotsFollow(w, rows, slots)
    && CapFollows(w, owns0, rows, slots)
    && (w.pool.Some? ==> |v.inflight| == |w.pool.value.inflight| + Submitted(rows))
    && (w.pool.Some? ==> |v.inflight| <= Max(w.pool.value.workers, |w.pool.value.inflight|))
    && WaitsNoted(w, queue, rows, v.waits)
  }

  lemma WalkCapped(w: World, queue: seq<Entry>, owns0: seq<bool>, past: seq<Row>, v: Walk, slots: seq<seq<bool>>)
    requires |past| < |queue| == |owns0| == |v.owns| && |slots| == |past| + 1
    requires WalkInvariant(w, queue, owns0, past, v, slots)
    requires w.cap.Some? && v.running - (if v.owns[|past|] then 1 else 0) >= w.cap.value
    ensures WalkDone(w, queue, owns0, past + [Row(Capped, None)], v, slots + [v.owns])
  {
    hide CapFollows, Counted, RowFollows, WaitsNoted, Mirrors, Untouched, SlotsFollow, Owned, Submitted;
    UntouchedHere(w, queue, owns0, |past|, v);
    CappedRow(w, queue, owns0, past, v, slots);
    WalkedStep(w, queue, past, Row(Capped, None));
    MirrorsPool(w, queue, past, v);
    SubmittedStep(past, Row(Capped, None));
    CapFollowsStep(w, owns0, past, slots, Row(Capped, None), v.owns);
  }

  lemma MirrorsPool(w: World, queue: seq<Entry>, past: seq<Row>, v: Walk)
    requires |past| <= |queue| && Mirrors(w, queue, past, v)
    ensures w.pool.Some? ==> |v.inflight| == |w.pool.value.inflight| + Submitted(past)
  {
  }

  lemma CappedRow(w: World, queue: seq<Entry>, owns0: seq<bool>, past: seq<Row>, v: Walk, slots: seq<seq<bool>>)
    requires |past| < |queue| == |owns0| == |v.owns| && |slots| == |past| + 1
    requires w.cap.Some? && v.running - (if owns0[|past|] then 1 else 0) >= w.cap.value
    requires slots[|past|] == v.owns && SlotsFollow(w, past, slots)
    requires WaitsNoted(w, queue, past, v.waits) && SameWait(v.waits, w.waits, queue[|past|].id)
    ensures RowFollows(w, queue, past, |past|, Row(Capped, None))
    ensures SlotsFollow(w, past + [Row(Capped, None)], slots + [v.owns])
    ensures WaitsNoted(w, queue, past + [Row(Capped, None)], v.waits)
  {
    hide Owned;
  }

  lemma WalkEnds(w: World, queue: seq<Entry>, owns0: seq<bool>, rows: seq<Row>, v: Walk, slots: seq<seq<bool>>)
    requires |rows| == |queue| == |owns0| == |v.owns| && |slots| == |rows| + 1
    requires WalkInvariant(w, queue, owns0, rows, v, slots)
    ensures WalkDone(w, queue, owns0, rows, v, slots)
  {
    hide RowFollows, BusyPins, Targets, UnplacedAhead;
  }

  /** The queue walk of `_process_once_with_snapshot`. slots[k][i] says
      whether entry i owns a quota slot just before entry k is visited. */
  method WalkQueue(w: World, queue: seq<Entry>, owns0: seq<bool>)
    returns (rows: seq<Row>, owns: seq<bool>, waits: Waits, inflight: set<JobId>, slots: seq<seq<bool>>)
    requires |owns0| == |queue| && DistinctIds(queue)
    ensures Walked(w, queue, rows)
    ensures |owns| == |owns0| && |slots| == |rows| + 1
    ensures slots[0] == owns0 && slots[|rows|] == owns && SlotsFollow(w, rows, slots)
    ensures CapFollows(w, owns0, rows, slots)
    ensures NoHiddenTake(w, queue, owns0) ==> QuotaHolds(w, owns0, rows, slots)
    ensures RecountsEveryChange(w, queue, owns0) ==> StopsExactly(w, owns0, rows, slots)
    ensures w.pool.Some? ==> |inflight| == |w.pool.value.inflight| + Submitted(rows)
    ensures w.pool.Some? ==> |inflight| <= Max(w.pool.value.workers, |w.pool.value.inflight|)
    ensures WaitsNoted(w, queue, rows, waits)
  {
    hide WalkInvariant, Walked, QuotaHolds, StopsExactly, NoHiddenTake, RecountsEveryChange, Mirrors, RowFollows, WaitsNoted, Submitted, Owned, SlotStep,
      PinsOf, TargetsOf, JoiningOf, Unplaced, Noted, DistinctIds;
    rows := [];
    var v := Walk(Occupancy(w, owns0), owns0, w.waits,
                  if w.pool.Some? then w.pool.value.inflight else {}, {}, false, {});
    slots := [v.owns];
    WalkStarts(w, queue, owns0, v, slots);
    var k := 0;
    while k < |queue|
      invariant 0 <= k <= |queue| && |rows| == k && |v.owns| == |owns0| == |queue| && |slots| == k + 1
      invariant WalkInvariant(w, queue, owns0, rows, v, slots)
    {
      WalkKnows(w, queue, owns0, rows, v, slots);
      if w.cap.Some? && v.running - (if v.owns[k] then 1 else 0) >= w.cap.value {
        WalkCapped(w, queue, owns0, rows, v, slots);
        QuotaFollows(w, queue, owns0, rows + [Row(Capped, None)], slots + [v.owns]);
        return rows + [Row(Capped, None)], v.owns, v.waits, v.inflight, slots + [v.owns];
      }
      var row := JudgeEntry(w, queue, k, v, rows);
      var next := SettleEntry(w, queue[k], k, v, row);
      WalkStep(w, queue, owns0, rows, v, row, next, slots);
      rows, slots, v := rows + [row], slots + [next.owns], next;
      k := k + 1;
    }
    WalkEnds(w, queue, owns0, rows, v, slots);
    QuotaFollows(w, queue, owns0, rows, slots);
    return rows, v.owns, v.waits, v.inflight, slots;
  }

  // ---------- the quota ----------

  /** A dispatch that leaves its entry owning a slot it did not own before, with an
      outcome after which the tick does not recount. */
  predicate TakesUnseen(answer: (Outcome, bool), owned: bool) {
    !ChangesQuota(answer.0) && answer.1 && !owned
  }

  /** The reserved sets an entry can be handed. */
  predicate Handable(e: Entry, reserved: set<Node>) {
    reserved == {} || (e.pin.None? && e.gpus > 0)
  }

  ghost predicate NoHiddenTake(w: World, queue: seq<Entry>, owns: seq<bool>)
    requires |owns| == |queue|
  {
    forall i: nat, reserved: set<Node> ::
      i < |queue| && Handable(queue[i], reserved) ==> !TakesUnseen(w.dispatch(i, reserved), owns[i])
  }

  /** No prefix of the walk pushes the occupancy above the cap or where it started, and
      only entries that fit below the cap are let through. */
  ghost predicate QuotaHolds(w: World, owns0: seq<bool>, rows: seq<Row>, slots: seq<seq<bool>>)
    requires |rows| < |slots| && |rows| <= |owns0|
  {
    w.cap.Some? ==>
      && (forall i | 0 <= i <= |rows| :: Occupancy(w, slots[i]) <= Max(w.cap.value, Occupancy(w, slots[0])))
      && (forall i | 0 <= i < |rows| ::
            rows[i].said != Capped ==> Occupancy(w, slots[i]) - (if owns0[i] then 1 else 0) < w.cap.value)
  }

  /** One walk and the slots around each visit. */
  ghost predicate SlotWalk(w: World, queue: seq<Entry>, owns0: seq<bool>, rows: seq<Row>, slots: seq<seq<bool>>) {
    && |owns0| == |queue| && Walked(w, queue, rows)
    && |slots| == |rows| + 1 && slots[0] == owns0
    && SlotsFollow(w, rows, slots) && CapFollows(w, owns0, rows, slots)
  }

  lemma TriedRow(w: World, queue: seq<Entry>, rows: seq<Row>, k: nat)
    requires Walked(w, queue, rows) && k < |rows| && rows[k].said.Tried?
    ensures rows[k].handed.Some? && Handable(queue[k], rows[k].handed.value)
    ensures rows[k].said.outcome == w.dispatch(k, rows[k].handed.value).0
  {
    assert RowFollows(w, queue, rows[..k], k, rows[k]);
    hide BusyPins, Targets, UnplacedAhead;
  }

  lemma {:induction false} SlotsSoFar(w: World, queue: seq<Entry>, owns0: seq<bool>, rows: seq<Row>, slots: seq<seq<bool>>, k: nat)
    requires SlotWalk(w, queue, owns0, rows, slots) && k <= |rows|
    ensures |slots[k]| == |owns0| && forall j | k <= j < |owns0| :: slots[k][j] == owns0[j]
  {
    hide Walked, CapFollows;
    if k > 0 {
      SlotsSoFar(w, queue, owns0, rows, slots, k - 1);
    }
  }

  /** Without hidden takes the believed occupancy is never too low. */
  lemma {:induction false} BelievedCoversReal(w: World, queue: seq<Entry>, owns0: seq<bool>, rows: seq<Row>, slots: seq<seq<bool>>, k: nat)
    requires SlotWalk(w, queue, owns0, rows, slots) && NoHiddenTake(w, queue, owns0) && k <= |rows|
    ensures Counted(w, rows[..k], slots[..k + 1]) >= Occupancy(w, slots[k])
  {
    assert |rows| <= |queue|;
    if k > 0 {
      var j := k - 1;
      BelievedCoversReal(w, queue, owns0, rows, slots, j);
      SlotsSoFar(w, queue, owns0, rows, slots, j);
      CountedStep(w, rows, slots, j);
      if rows[j].said.Tried? {
        TriedRow(w, queue, rows, j);
        OwnedUpdate(slots[j], j, w.dispatch(j, rows[j].handed.value).1);
      }
    }
  }

  /** Every change of a slot comes with an outcome after which the tick recounts. */
  ghost predicate RecountsEveryChange(w: World, queue: seq<Entry>, owns: seq<bool>)
    requires |owns| == |queue|
  {
    forall i: nat, reserved: set<Node> ::
      i < |queue| && Handable(queue[i], reserved) && !ChangesQuota(w.dispatch(i, reserved).0) ==>
        w.dispatch(i, reserved).1 == owns[i]
  }

  /** Then the walk also stops at the cap no earlier than it has to. */
  ghost predicate StopsExactly(w: World, owns0: seq<bool>, rows: seq<Row>, slots: seq<seq<bool>>)
    requires |rows| < |slots| && |rows| <= |owns0|
  {
    w.cap.Some? ==>
      forall i | 0 <= i < |rows| ::
        rows[i].said == Capped <==> Occupancy(w, slots[i]) - (if owns0[i] then 1 else 0) >= w.cap.value
  }

  lemma {:induction false} BelievedIsReal(w: World, queue: seq<Entry>, owns0: seq<bool>, rows: seq<Row>, slots: seq<seq<bool>>, k: nat)
    requires SlotWalk(w, queue, owns0, rows, slots) && RecountsEveryChange(w, queue, owns0) && k <= |rows|
    ensures Counted(w, rows[..k], slots[..k + 1]) == Occupancy(w, slots[k])
  {
    assert |rows| <= |queue|;
    if k > 0 {
      var j := k - 1;
      BelievedIsReal(w, queue, owns0, rows, slots, j);
      SlotsSoFar(w, queue, owns0, rows, slots, j);
      CountedStep(w, rows, slots, j);
      if rows[j].said.Tried? {
        TriedRow(w, queue, rows, j);
        OwnedUpdate(slots[j], j, w.dispatch(j, rows[j].handed.value).1);
      }
    }
  }

  lemma CountedStep(w: World, rows: seq<Row>, slots: seq<seq<bool>>, j: nat)
    requires |slots| == |rows| + 1 && j < |rows|
    ensures Counted(w, rows[..j + 1], slots[..j + 2])
            == if rows[j].said.Tried? && ChangesQuota(rows[j].said.outcome) then Occupancy(w, slots[j + 1])
               else Counted(w, rows[..j], slots[..j + 1])
  {
    assert rows[..j + 1][..j] == rows[..j] && slots[..j + 2][..j + 1] == slots[..j + 1];
  }

  /** Hence the quota holds, whichever entries release slots unseen. */
  lemma QuotaFollows(w: World, queue: seq<Entry>, owns0: seq<bool>, rows: seq<Row>, slots: seq<seq<bool>>)
    requires SlotWalk(w, queue, owns0, rows, slots)
    ensures |rows| <= |owns0|
    ensures NoHiddenTake(w, queue, owns0) ==> QuotaHolds(w, owns0, rows, slots)
    ensures RecountsEveryChange(w, queue, owns0) ==> StopsExactly(w, owns0, rows, slots)
  {
    assert |rows| <= |queue| by { hide RowFollows; }
    if RecountsEveryChange(w, queue, owns0) {
      forall i | 0 <= i < |rows| ensures Counted(w, rows[..i], slots[..i + 1]) == Occupancy(w, slots[i]) {
        BelievedIsReal(w, queue, owns0, rows, slots, i);
      }
    }
    if NoHiddenTake(w, queue, owns0) && w.cap.Some? {
      forall i | 0 <= i <= |rows| ensures Occupancy(w, slots[i]) <= Max(w.cap.value, Occupancy(w, slots[0])) {
        OccupancyBound(w, queue, owns0, rows, slots, i);
      }
      forall i | 0 <= i < |rows| && rows[i].said != Capped
        ensures Occupancy(w, slots[i]) - (if owns0[i] then 1 else 0) < w.cap.value
      {
        BelievedCoversReal(w, queue, owns0, rows, slots, i);
      }
    }
  }

  lemma {:induction false} OccupancyBound(w: World, queue: seq<Entry>, owns0: seq<bool>, rows: seq<Row>, slots: seq<seq<bool>>, k: nat)
    requires SlotWalk(w, queue, owns0, rows, slots) && NoHiddenTake(w, queue, owns0) && k <= |rows| && w.cap.Some?
    ensures Occupancy(w, slots[k]) <= Max(w.cap.value, Occupancy(w, slots[0]))
  {
    assert |rows| <= |queue|;
    if k > 0 {
      var j := k - 1;
      OccupancyBound(w, queue, owns0, rows, slots, j);
      SlotsSoFar(w, queue, owns0, rows, slots, j);
      if rows[j].said.Tried? {
        TriedRow(w, queue, rows, j);
        BelievedCoversReal(w, queue, owns0, rows, slots, j);
        OwnedUpdate(slots[j], j, w.dispatch(j, rows[j].handed.value).1);
      }
    }
  }

  // ---------- what the rule guarantees ----------

  lemma {:induction false} SubmittedGrows(rows: seq<Row>, i: nat, j: nat)
    requires i <= j <= |rows|
    ensures Submitted(rows[..i]) <= Submitted(rows[..j])
    decreases j
  {
    if i < j {
      SubmittedGrows(rows, i, j - 1);
      assert rows[..j][..j - 1] == rows[..j - 1];
    }
  }

  lemma HistoryPersists(queue: seq<Entry>, rows: seq<Row>, i: nat, j: nat)
    requires i <= j <= |rows| <= |queue|
    ensures UnplacedAhead(queue, rows[..i]) ==> UnplacedAhead(queue, rows[..j])
    ensures BusyPins(queue, rows[..i]) <= BusyPins(queue, rows[..j])
    ensures Targets(queue, rows[..i]) <= Targets(queue, rows[..j])
  {
    forall h | 0 <= h < i ensures rows[..i][h] == rows[..j][h] {}
    if UnplacedAhead(queue, rows[..i]) {
      var h :| 0 <= h < i && Unplaced(queue[h], rows[..i][h]);
      assert Unplaced(queue[h], rows[..j][h]);
    }
  }

  /** No overtaking, with and without a pool: a later GPU job is handed to dispatch
      past a busy one only when the busy one is pinned, the later one is not
      pinned to that node, and an unpinned one is told to keep off it. */
  lemma NoOvertaking(w: World, queue: seq<Entry>, rows: seq<Row>, i: nat, j: nat)
    requires Walked(w, queue, rows) && i < j < |rows|
    requires queue[i].gpus > 0 && queue[j].gpus > 0
    requires RecordedBusy(rows[i]) && rows[j].handed.Some?
    ensures queue[i].pin.Some? && queue[j].pin != queue[i].pin
    ensures queue[j].pin.None? ==> queue[i].pin.value in rows[j].handed.value
  {
    assert RowFollows(w, queue, rows[..i], i, rows[i]);
    assert RowFollows(w, queue, rows[..j], j, rows[j]);
    assert rows[..j][i] == rows[i];
    HistoryPersists(queue, rows, i, j);
    SubmittedGrows(rows, i, j);
    if rows[i].said == Tried(Busy) {
      assert !Unplaced(queue[i], rows[..j][i]);
      assert queue[i].pin.value in BusyPins(queue, rows[..j]);
    }
  }

  /** With a pool, nothing pinned is handed over towards a node that an earlier
      entry's dispatch is heading to, and no GPU job follows a dispatch that has
      not chosen its node. */
  lemma OneDispatchPerTarget(w: World, queue: seq<Entry>, rows: seq<Row>, i: nat, j: nat)
    requires Walked(w, queue, rows) && i < j < |rows| && w.pool.Some?
    requires rows[i].said == Dispatching && rows[j].handed.Some?
    ensures var target := Target(queue[i], rows[i]);
            && (target.Some? ==> queue[j].pin != target)
            && (target.Some? && queue[j].gpus > 0 && queue[j].pin.None? ==> target.value in rows[j].handed.value)
            && (target.None? && queue[i].gpus > 0 ==> queue[j].gpus == 0)
  {
    assert RowFollows(w, queue, rows[..j], j, rows[j]);
    assert rows[..j][i] == rows[i];
    var target := Target(queue[i], rows[i]);
    if target.Some? {
      assert target.value in Targets(queue, rows[..j]);
    } else if queue[i].gpus > 0 {
      assert Unplaced(queue[i], rows[..j][i]);
    }
  }

  /** Work that takes no card never waits for one: without a pool a CPU job is
      handed over unless the cap ends the walk or its own backoff runs. */
  lemma CpuWorkIsNotHeld(w: World, queue: seq<Entry>, rows: seq<Row>, k: nat)
    requires Walked(w, queue, rows) && k < |rows| && queue[k].gpus == 0 && w.pool.None?
    ensures rows[k].handed.Some? <==> rows[k].said != Capped && Due(w.waits, queue[k].id, w.clock(k))
  {
    assert RowFollows(w, queue, rows[..k], k, rows[k]);
  }

  // ---------- exactly which entries are handed over ----------

  /** A recorded dispatch on its way to node n. */
  ghost predicate HeadsTo(e: Entry, r: Row, n: Node) {
    r.said == Dispatching
    && if r.handed.None? && e.dispatchNode.Some? then e.dispatchNode.value == n else e.pin == Some(n)
  }

  /** A recorded busy GPU entry that waits for its own node n. */
  ghost predicate WaitsFor(e: Entry, r: Row, n: Node) {
    r.said == Tried(Busy) && e.gpus > 0 && e.pin == Some(n)
  }

  /** A recorded GPU entry that could still take a card anywhere: busy without a pin, or a
      dispatch that has not chosen its node. */
  ghost predicate Roams(e: Entry, r: Row) {
    e.gpus > 0 && ((r.said == Tried(Busy) && e.pin.None?) || (r.said == Dispatching && forall n :: !HeadsTo(e, r, n)))
  }

  /** FIFO holds a GPU entry behind roaming work, and behind work that waits for its pin. */
  ghost predicate HeldInOrder(queue: seq<Entry>, rows: seq<Row>, k: nat)
    requires k < |rows| <= |queue|
  {
    queue[k].gpus > 0
    && exists i | 0 <= i < k ::
         Roams(queue[i], rows[i]) || (queue[k].pin.Some? && WaitsFor(queue[i], rows[i], queue[k].pin.value))
  }

  /** How many earlier entries were handed over. */
  ghost function HandedBefore(rows: seq<Row>, k: nat): nat
    requires k <= |rows|
  {
    |set i | 0 <= i < k && rows[i].handed.Some?|
  }

  lemma {:induction false} SubmittedIsHanded(rows: seq<Row>, k: nat)
    requires k <= |rows| && forall i | 0 <= i < k && rows[i].handed.Some? :: rows[i].said == Dispatching
    ensures Submitted(rows[..k]) == HandedBefore(rows, k)
  {
    if k > 0 {
      SubmittedIsHanded(rows, k - 1);
      assert rows[..k][..k - 1] == rows[..k - 1];
      assert Submitted(rows[..k]) == Submitted(rows[..k - 1]) + if rows[k - 1].handed.Some? then 1 else 0;
      hide Submitted;
      var before, all := set i | 0 <= i < k - 1 && rows[i].handed.Some?, set i | 0 <= i < k && rows[i].handed.Some?;
      assert all == if rows[k - 1].handed.Some? then before + {k - 1} else before;
    }
  }

  lemma RoamsMeans(e: Entry, r: Row)
    ensures Roams(e, r) <==> Unplaced(e, r)
    ensures forall n :: HeadsTo(e, r, n) <==> Target(e, r) == Some(n)
  {
    if Target(e, r).Some? {
      assert HeadsTo(e, r, Target(e, r).value);
    }
  }

  lemma HeldMeans(queue: seq<Entry>, rows: seq<Row>, k: nat)
    requires k < |rows| <= |queue|
    ensures HeldInOrder(queue, rows, k) <==>
            queue[k].gpus > 0 && (UnplacedAhead(queue, rows[..k])
                                  || (queue[k].pin.Some? && queue[k].pin.value in BusyPins(queue, rows[..k])))
  {
    var past := rows[..k];
    forall i | 0 <= i < k ensures past[i] == rows[i] && (Roams(queue[i], rows[i]) <==> Unplaced(queue[i], past[i])) {
      RoamsMeans(queue[i], rows[i]);
    }
    hide Roams, Unplaced;
  }

  lemma TargetsMean(queue: seq<Entry>, rows: seq<Row>, k: nat, n: Node)
    requires k < |rows| <= |queue|
    ensures n in Targets(queue, rows[..k]) <==> exists i :: 0 <= i < k && HeadsTo(queue[i], rows[i], n)
    ensures n in BusyPins(queue, rows[..k]) <==> exists i :: 0 <= i < k && WaitsFor(queue[i], rows[i], n)
  {
    var past := rows[..k];
    forall i | 0 <= i < k
      ensures past[i] == rows[i] && (HeadsTo(queue[i], rows[i], n) <==> Target(queue[i], past[i]) == Some(n))
    {
      RoamsMeans(queue[i], rows[i]);
    }
    hide HeadsTo, Target;
  }

  /** The nodes an entry is told to keep off: for an unpinned GPU entry those that earlier
      work waits for or is heading to, for any other entry none. */
  lemma KeepsOff(queue: seq<Entry>, rows: seq<Row>, k: nat, n: Node)
    requires k < |rows| <= |queue|
    ensures n in Reserved(queue, rows[..k], k) <==>
            && queue[k].gpus > 0 && queue[k].pin.None?
            && exists i :: 0 <= i < k && (WaitsFor(queue[i], rows[i], n) || HeadsTo(queue[i], rows[i], n))
  {
    TargetsMean(queue, rows, k, n);
    hide Targets, BusyPins, HeadsTo, WaitsFor;
  }

  lemma OnlyDispatchesAreHanded(w: World, queue: seq<Entry>, rows: seq<Row>, k: nat)
    requires Walked(w, queue, rows) && k < |rows| && w.pool.Some? && rows[k].handed.Some?
    ensures rows[k].said == Dispatching
  {
    assert RowFollows(w, queue, rows[..k], k, rows[k]);
    hide UnplacedAhead, BusyPins, Targets, Saturated;
  }

  /** With a pool, over any walk: exactly which entries are handed to a dispatcher, what
      the others are told, and which nodes a dispatcher must keep off. */
  lemma PoolHandsOver(w: World, queue: seq<Entry>, rows: seq<Row>, k: nat)
    requires Walked(w, queue, rows) && k < |rows| <= |queue| && w.pool.Some? && rows[k].said != Capped
    ensures var e, pool := queue[k], w.pool.value;
            var flying := e.id in pool.inflight;
            var due := e.id in w.waits ==> w.clock(k) >= w.waits[e.id].deadline;
            var awaited := e.pin.Some? && exists i :: 0 <= i < k && HeadsTo(queue[i], rows[i], e.pin.value);
            var held := HeldInOrder(queue, rows, k);
            && (rows[k].handed.Some? <==>
                  !flying && !held && due && !awaited && |pool.inflight| + HandedBefore(rows, k) < pool.workers)
            && (rows[k].said == Dispatching <==> flying || rows[k].handed.Some?)
            && (rows[k].said == Backing <==> !flying && !held && !due)
            && (rows[k].said == Held <==> !flying && (held || (due && rows[k].handed.None?)))
    ensures rows[k].handed.Some? ==>
              forall n :: n in rows[k].handed.value <==>
                && queue[k].gpus > 0 && queue[k].pin.None?
                && exists i :: 0 <= i < k && (WaitsFor(queue[i], rows[i], n) || HeadsTo(queue[i], rows[i], n))
  {
    assert RowFollows(w, queue, rows[..k], k, rows[k]);
    HeldMeans(queue, rows, k);
    if queue[k].pin.Some? {
      TargetsMean(queue, rows, k, queue[k].pin.value);
    }
    forall i | 0 <= i < k && rows[i].handed.Some? ensures rows[i].said == Dispatching {
      OnlyDispatchesAreHanded(w, queue, rows, i);
    }
    SubmittedIsHanded(rows, k);
    forall n ensures n in Reserved(queue, rows[..k], k) <==>
                       && queue[k].gpus > 0 && queue[k].pin.None?
                       && exists i :: 0 <= i < k && (WaitsFor(queue[i], rows[i], n) || HeadsTo(queue[i], rows[i], n))
    {
      KeepsOff(queue, rows, k, n);
    }
    hide Reserved, HeldInOrder, UnplacedAhead, BusyPins, Targets, HeadsTo, WaitsFor, Submitted, HandedBefore, Walked;
  }

  /** Without a pool: exactly which entries are tried, with which nodes kept off, and what
      is recorded of them. */
  lemma InlineTries(w: World, queue: seq<Entry>, rows: seq<Row>, k: nat)
    requires Walked(w, queue, rows) && k < |rows| <= |queue| && w.pool.None? && rows[k].said != Capped
    ensures var e := queue[k];
            var due := e.id in w.waits ==> w.clock(k) >= w.waits[e.id].deadline;
            var held := HeldInOrder(queue, rows, k);
            && (rows[k].handed.Some? <==> !held && due)
            && (rows[k].handed.Some? ==> rows[k].said == Tried(w.dispatch(k, rows[k].handed.value).0))
            && (rows[k].said == Held <==> held) && (rows[k].said == Backing <==> !held && !due)
    ensures rows[k].handed.Some? ==>
              forall n :: n in rows[k].handed.value <==>
                && queue[k].gpus > 0 && queue[k].pin.None?
                && exists i :: 0 <= i < k && (WaitsFor(queue[i], rows[i], n) || HeadsTo(queue[i], rows[i], n))
  {
    assert RowFollows(w, queue, rows[..k], k, rows[k]);
    HeldMeans(queue, rows, k);
    forall n ensures n in Reserved(queue, rows[..k], k) <==>
                       && queue[k].gpus > 0 && queue[k].pin.None?
                       && exists i :: 0 <= i < k && (WaitsFor(queue[i], rows[i], n) || HeadsTo(queue[i], rows[i], n))
    {
      KeepsOff(queue, rows, k, n);
    }
    hide Reserved, HeldInOrder, UnplacedAhead, BusyPins, Targets, HeadsTo, WaitsFor, Walked;
  }

  // ---------- what the walk leaves for the next tick ----------

  /** Blocked, unreachable and raised attempts push the next one back, any other attempt
      forgets the job's waiting, and an entry that was not tried keeps it. */
  lemma WaitsAfter(w: World, queue: seq<Entry>, rows: seq<Row>, waits: Waits, i: nat)
    requires |rows| <= |queue| && WaitsNoted(w, queue, rows, waits) && i < |rows|
    ensures var id, now := queue[i].id, w.clock(i);
            var retries := if id in w.waits then w.waits[id].retries else 0;
            if !rows[i].said.Tried? then (id in waits <==> id in w.waits) && (id in waits ==> waits[id] == w.waits[id])
            else if rows[i].said.outcome in {Blocked, Unreachable, Raised} then
              id in waits && waits[id] == Wait(Min(retries + 1, 16), now + Delay(retries))
            else id !in waits
  {
  }

  /** The slots owned are the entries that own one. */
  lemma {:induction false} OwnedIsCount(owns: seq<bool>)
    ensures Owned(owns) == |set i | 0 <= i < |owns| && owns[i]|
  {
    if owns != [] {
      var n := |owns| - 1;
      OwnedIsCount(owns[..n]);
      var before, all := set i | 0 <= i < n && owns[..n][i], set i | 0 <= i < |owns| && owns[i];
      assert all == if owns[n] then before + {n} else before;
    }
  }

  // ---------- the guard is exact ----------

  /** What dispatching one entry answers, by the nodes it is told to keep off. */
  type Answer = set<Node> -> (Outcome, bool)

  /** A queue in which entry k answers as given, and every other entry takes slots only
      in the open. */
  ghost predicate Behind(w: World, queue: seq<Entry>, owns0: seq<bool>, k: nat, e: Entry, answer: Answer, owned: bool) {
    && k < |queue| == |owns0| && DistinctIds(queue)
    && queue[k] == e && owns0[k] == owned
    && (forall r: set<Node> :: w.dispatch(k, r) == answer(r))
    && (forall i: nat, r: set<Node> :: i < |queue| && i != k && Handable(queue[i], r) ==> !TakesUnseen(w.dispatch(i, r), owns0[i]))
  }

  /** Whatever cap, load, queue and clock an entry meets, the quota holds. */
  ghost predicate QuotaSafe(e: Entry, answer: Answer, owned: bool) {
    forall w: World, queue: seq<Entry>, owns0: seq<bool>, k: nat, rows: seq<Row>, slots: seq<seq<bool>> ::
      Behind(w, queue, owns0, k, e, answer, owned) && SlotWalk(w, queue, owns0, rows, slots) ==>
        |rows| <= |owns0| && QuotaHolds(w, owns0, rows, slots)
  }

  /** The quota is safe with an entry exactly when its dispatch never takes a slot under
      an outcome the tick does not recount. */
  lemma QuotaIsSafeExactly(e: Entry, answer: Answer, owned: bool)
    ensures QuotaSafe(e, answer, owned) <==>
            forall r: set<Node> :: Handable(e, r) ==> !TakesUnseen(answer(r), owned)
  {
    if forall r: set<Node> :: Handable(e, r) ==> !TakesUnseen(answer(r), owned) {
      forall w: World, queue: seq<Entry>, owns0: seq<bool>, k: nat, rows: seq<Row>, slots: seq<seq<bool>>
        | Behind(w, queue, owns0, k, e, answer, owned) && SlotWalk(w, queue, owns0, rows, slots)
        ensures |rows| <= |owns0| && QuotaHolds(w, owns0, rows, slots)
      {
        NothingHidden(w, queue, owns0, k, e, answer, owned);
        QuotaFollows(w, queue, owns0, rows, slots);
      }
    } else {
      var r: set<Node> :| Handable(e, r) && TakesUnseen(answer(r), owned);
      var w, queue, owns0, k, rows, slots := HiddenTakeOverrunsTheCap(e, answer, r);
    }
  }

  lemma NothingHidden(w: World, queue: seq<Entry>, owns0: seq<bool>, k: nat, e: Entry, answer: Answer, owned: bool)
    requires Behind(w, queue, owns0, k, e, answer, owned)
    requires forall r: set<Node> :: Handable(e, r) ==> !TakesUnseen(answer(r), owned)
    ensures NoHiddenTake(w, queue, owns0)
  {
  }

  ghost function Listed(nodes: set<Node>): (r: seq<Node>)
    ensures |r| == |nodes| && (forall i, j | 0 <= i < j < |r| :: r[i] != r[j]) && forall n :: n in r <==> n in nodes
    decreases nodes
  {
    if nodes == {} then []
    else
      var n :| n in nodes;
      [n] + Listed(nodes - {n})
  }

  /** An id that differs from every other one by its length. */
  function Id(e: Entry, j: nat): JobId {
    seq(|e.id| + 1 + j, _ => 'x')
  }

  /** One busy waiter for each node, then the entry, then an ordinary CPU job. */
  function Waiter(e: Entry, nodes: seq<Node>, j: nat): Entry {
    if j < |nodes| then Entry(Id(e, j), 1, Some(nodes[j]), None)
    else if j == |nodes| then e
    else Entry(Id(e, j), 0, None, None)
  }

  function WaitersThen(e: Entry, nodes: seq<Node>): (queue: seq<Entry>)
    ensures |queue| == |nodes| + 2 && forall j | 0 <= j < |queue| :: queue[j] == Waiter(e, nodes, j)
  {
    seq(|nodes| + 2, j requires 0 <= j => Waiter(e, nodes, j))
  }

  ghost function OverrunWorld(answer: Answer, n: nat): World {
    World(Some(1), 0, map[], _ => 0.0, None,
          (i, reserved) => if i < n then (Busy, false) else if i == n then answer(reserved) else (Started, true))
  }

  ghost function OverrunRow(answer: Answer, r: set<Node>, j: nat): Row {
    if j < |r| then Row(Tried(Busy), Some({}))
    else if j == |r| then Row(Tried(answer(r).0), Some(r))
    else Row(Tried(Started), Some({}))
  }

  ghost function OverrunRows(answer: Answer, r: set<Node>): (rows: seq<Row>)
    ensures |rows| == |r| + 2 && forall j | 0 <= j < |rows| :: rows[j] == OverrunRow(answer, r, j)
  {
    seq(|r| + 2, j requires 0 <= j => OverrunRow(answer, r, j))
  }

  /** The slots: none until the entry takes one, then two. */
  ghost function OverrunSlots(n: nat): seq<seq<bool>> {
    seq(n + 3, k requires 0 <= k => seq(n + 2, i requires 0 <= i => i >= n && i < k))
  }

  lemma WaitersDiffer(e: Entry, nodes: seq<Node>)
    ensures DistinctIds(WaitersThen(e, nodes))
  {
    hide Waiter;
    forall i, j | 0 <= i < j < |nodes| + 2 ensures Waiter(e, nodes, i).id != Waiter(e, nodes, j).id {
      WaiterLength(e, nodes, i);
      WaiterLength(e, nodes, j);
    }
  }

  lemma WaiterLength(e: Entry, nodes: seq<Node>, j: nat)
    requires j < |nodes| + 2
    ensures |Waiter(e, nodes, j).id| == if j == |nodes| then |e.id| else |e.id| + 1 + j
  {
  }

  /** What a row of busy waiters leaves for the entries behind them. */
  lemma BusyWaiters(queue: seq<Entry>, past: seq<Row>, nodes: seq<Node>)
    requires |past| <= |queue| && |past| <= |nodes|
    requires forall j | 0 <= j < |past| :: past[j].said == Tried(Busy) && queue[j].gpus > 0 && queue[j].pin == Some(nodes[j])
    ensures BusyPins(queue, past) == set j | 0 <= j < |past| :: nodes[j]
    ensures Targets(queue, past) == {} && !UnplacedAhead(queue, past)
  {
  }

  lemma WaitersAhead(e: Entry, answer: Answer, r: set<Node>, k: nat)
    requires k <= |r|
    ensures BusyPins(WaitersThen(e, Listed(r)), OverrunRows(answer, r)[..k]) == set j | 0 <= j < k :: Listed(r)[j]
    ensures Targets(WaitersThen(e, Listed(r)), OverrunRows(answer, r)[..k]) == {}
    ensures !UnplacedAhead(WaitersThen(e, Listed(r)), OverrunRows(answer, r)[..k])
  {
    hide BusyPins, Targets, UnplacedAhead, Listed, WaitersThen, OverrunRows, Id;
    var nodes, queue, past := Listed(r), WaitersThen(e, Listed(r)), OverrunRows(answer, r)[..k];
    forall j | 0 <= j < |past|
      ensures past[j].said == Tried(Busy) && queue[j].gpus > 0 && queue[j].pin == Some(nodes[j])
    {
      assert past[j] == OverrunRow(answer, r, j) && queue[j] == Waiter(e, nodes, j);
    }
    hide *;
    BusyWaiters(queue, past, nodes);
  }

  /** The rule for an entry that no earlier one holds back, without a pool. */
  lemma FreeToTry(w: World, queue: seq<Entry>, past: seq<Row>, k: nat, r: set<Node>)
    requires |past| <= |queue| && k < |queue| && w.pool.None? && w.waits == map[]
    requires queue[k].gpus > 0 ==> !UnplacedAhead(queue, past)
    requires queue[k].gpus > 0 && queue[k].pin.Some? ==> queue[k].pin.value !in BusyPins(queue, past)
    requires r == Reserved(queue, past, k)
    ensures RowFollows(w, queue, past, k, Row(Tried(w.dispatch(k, r).0), Some(r)))
  {
    hide BusyPins, Targets, UnplacedAhead, Reserved;
  }
  lemma FirstPinsFree(nodes: seq<Node>, k: nat)
    requires k < |nodes| && forall i, j | 0 <= i < j < |nodes| :: nodes[i] != nodes[j]
    ensures nodes[k] !in set j | 0 <= j < k :: nodes[j]
  {
  }

  lemma AllPins(r: set<Node>)
    ensures (set j | 0 <= j < |r| :: Listed(r)[j]) == r
  {
    hide Listed;
    var nodes := Listed(r);
    forall n | n in r ensures n in set j | 0 <= j < |r| :: nodes[j] {
      assert n in nodes;
    }
  }

  lemma WaiterFollows(e: Entry, answer: Answer, r: set<Node>, k: nat)
    requires k < |r|
    ensures RowFollows(OverrunWorld(answer, |r|), WaitersThen(e, Listed(r)), OverrunRows(answer, r)[..k], k, OverrunRow(answer, r, k))
  {
    hide BusyPins, Targets, UnplacedAhead, Listed, OverrunRows, WaitersThen;
    var queue, past := WaitersThen(e, Listed(r)), OverrunRows(answer, r)[..k];
    WaitersAhead(e, answer, r, k);
    FirstPinsFree(Listed(r), k);
    hide RowFollows;
    FreeToTry(OverrunWorld(answer, |r|), queue, past, k, {});
  }

  lemma EntryFollows(e: Entry, answer: Answer, r: set<Node>)
    requires Handable(e, r)
    ensures RowFollows(OverrunWorld(answer, |r|), WaitersThen(e, Listed(r)), OverrunRows(answer, r)[..|r|], |r|, OverrunRow(answer, r, |r|))
  {
    hide BusyPins, Targets, UnplacedAhead, Listed, OverrunRows, WaitersThen;
    var queue, past := WaitersThen(e, Listed(r)), OverrunRows(answer, r)[..|r|];
    WaitersAhead(e, answer, r, |r|);
    AllPins(r);
    hide RowFollows;
    assert queue[|r|] == e;
    FreeToTry(OverrunWorld(answer, |r|), queue, past, |r|, r);
  }

  lemma LastFollows(e: Entry, answer: Answer, r: set<Node>)
    ensures RowFollows(OverrunWorld(answer, |r|), WaitersThen(e, Listed(r)), OverrunRows(answer, r)[..|r| + 1], |r| + 1,
                       OverrunRow(answer, r, |r| + 1))
  {
    hide BusyPins, Targets, UnplacedAhead, Listed, OverrunRows, WaitersThen, RowFollows;
    var queue, past := WaitersThen(e, Listed(r)), OverrunRows(answer, r)[..|r| + 1];
    assert queue[|r| + 1].gpus == 0;
    FreeToTry(OverrunWorld(answer, |r|), queue, past, |r| + 1, {});
  }

  lemma NoneCapped(answer: Answer, r: set<Node>, k: nat)
    ensures OverrunRow(answer, r, k).said != Capped
  {
  }

  lemma OverrunWalked(e: Entry, answer: Answer, r: set<Node>)
    requires Handable(e, r)
    ensures Walked(OverrunWorld(answer, |r|), WaitersThen(e, Listed(r)), OverrunRows(answer, r))
  {
    hide RowFollows;
    hide OverrunRow, Waiter, Listed, OverrunWorld, WaitersThen, OverrunRows;
    var w, queue, rows := OverrunWorld(answer, |r|), WaitersThen(e, Listed(r)), OverrunRows(answer, r);
    forall k | 0 <= k < |rows| ensures RowFollows(w, queue, rows[..k], k, rows[k]) && rows[k].said != Capped {
      NoneCapped(answer, r, k);
      assert rows[k] == OverrunRow(answer, r, k);
      if k < |r| {
        WaiterFollows(e, answer, r, k);
      } else if k == |r| {
        EntryFollows(e, answer, r);
      } else {
        LastFollows(e, answer, r);
      }
    }
  }

  lemma OverrunSlotsFollow(answer: Answer, r: set<Node>)
    requires TakesUnseen(answer(r), false)
    ensures |OverrunSlots(|r|)| == |OverrunRows(answer, r)| + 1
    ensures SlotsFollow(OverrunWorld(answer, |r|), OverrunRows(answer, r), OverrunSlots(|r|))
  {
    var w, n, rows, slots := OverrunWorld(answer, |r|), |r|, OverrunRows(answer, r), OverrunSlots(|r|);
    forall k | 0 <= k < |rows| ensures slots[k + 1] == slots[k][k := w.dispatch(k, rows[k].handed.value).1] {
    }
  }

  lemma {:induction false} NothingOwned(owns: seq<bool>)
    requires forall i | 0 <= i < |owns| :: !owns[i]
    ensures Owned(owns) == 0
  {
    if owns != [] {
      NothingOwned(owns[..|owns| - 1]);
    }
  }

  lemma TwoOwned(n: nat)
    ensures Owned(OverrunSlots(n)[0]) == 0 && Owned(OverrunSlots(n)[n + 2]) == 2
  {
    var last := OverrunSlots(n)[n + 2];
    NothingOwned(OverrunSlots(n)[0]);
    NothingOwned(last[..n + 1][..n]);
    assert last[..n + 1][..n] == last[..n];
  }

  /** Until the last entry is visited the tick believes that nothing is owned. */
  lemma {:induction false} OverrunCounted(answer: Answer, r: set<Node>, k: nat)
    requires TakesUnseen(answer(r), false) && k <= |r| + 1
    ensures |OverrunSlots(|r|)| == |OverrunRows(answer, r)| + 1 == |r| + 3
    ensures Counted(OverrunWorld(answer, |r|), OverrunRows(answer, r)[..k], OverrunSlots(|r|)[..k + 1]) == 0
  {
    var w, rows, slots := OverrunWorld(answer, |r|), OverrunRows(answer, r), OverrunSlots(|r|);
    if k == 0 {
      NothingOwned(slots[0]);
    } else {
      OverrunCounted(answer, r, k - 1);
      CountedStep(w, rows, slots, k - 1);
    }
  }

  /** Before the walk nobody owns a slot, and every other entry takes one in the open. */
  lemma OthersInTheOpen(answer: Answer, n: nat)
    ensures |OverrunSlots(n)| == n + 3 && |OverrunSlots(n)[0]| == n + 2 && !OverrunSlots(n)[0][n]
    ensures forall r: set<Node> :: OverrunWorld(answer, n).dispatch(n, r) == answer(r)
    ensures forall i: nat, r: set<Node> :: i < n + 2 && i != n ==>
              !TakesUnseen(OverrunWorld(answer, n).dispatch(i, r), OverrunSlots(n)[0][i])
  {
  }

  lemma BehindOthers(w: World, queue: seq<Entry>, owns0: seq<bool>, k: nat, e: Entry, answer: Answer)
    requires k < |queue| == |owns0| && DistinctIds(queue) && queue[k] == e && !owns0[k]
    requires forall r: set<Node> :: w.dispatch(k, r) == answer(r)
    requires forall i: nat, r: set<Node> :: i < |queue| && i != k ==> !TakesUnseen(w.dispatch(i, r), owns0[i])
    ensures Behind(w, queue, owns0, k, e, answer, false)
  {
    hide DistinctIds, Handable, TakesUnseen;
  }

  lemma OverrunBehind(e: Entry, answer: Answer, r: set<Node>)
    ensures Behind(OverrunWorld(answer, |r|), WaitersThen(e, Listed(r)), OverrunSlots(|r|)[0], |r|, e, answer, false)
  {
    WaitersDiffer(e, Listed(r));
    OthersInTheOpen(answer, |r|);
    assert WaitersThen(e, Listed(r))[|r|] == Waiter(e, Listed(r), |r|);
    hide *;
    BehindOthers(OverrunWorld(answer, |r|), WaitersThen(e, Listed(r)), OverrunSlots(|r|)[0], |r|, e, answer);
  }

  lemma OverrunCaps(answer: Answer, r: set<Node>)
    requires TakesUnseen(answer(r), false)
    ensures |OverrunSlots(|r|)| == |OverrunRows(answer, r)| + 1 == |r| + 3
    ensures CapFollows(OverrunWorld(answer, |r|), OverrunSlots(|r|)[0], OverrunRows(answer, r), OverrunSlots(|r|))
  {
    var w, rows, slots := OverrunWorld(answer, |r|), OverrunRows(answer, r), OverrunSlots(|r|);
    forall j | 0 <= j < |rows| ensures Counted(w, rows[..j], slots[..j + 1]) == 0 && rows[j].said != Capped {
      OverrunCounted(answer, r, j);
    }
    hide Counted, OverrunRows;
  }

  /** Any answer that takes a slot unseen overruns some cap: the walk ends above both the
      cap and where it started. */
  lemma HiddenTakeOverrunsTheCap(e: Entry, answer: Answer, r: set<Node>)
    returns (w: World, queue: seq<Entry>, owns0: seq<bool>, k: nat, rows: seq<Row>, slots: seq<seq<bool>>)
    requires Handable(e, r) && TakesUnseen(answer(r), false)
    ensures Behind(w, queue, owns0, k, e, answer, false) && SlotWalk(w, queue, owns0, rows, slots)
    ensures w.cap.Some? && |rows| == |queue| && Occupancy(w, slots[|rows|]) > Max(w.cap.value, Occupancy(w, slots[0]))
    ensures !QuotaHolds(w, owns0, rows, slots)
  {
    k := |r|;
    w, queue, rows, slots := OverrunWorld(answer, k), WaitersThen(e, Listed(r)), OverrunRows(answer, r), OverrunSlots(k);
    owns0 := slots[0];
    OverrunBehind(e, answer, r);
    OverrunWalked(e, answer, r);
    OverrunSlotsFollow(answer, r);
    OverrunCaps(answer, r);
    TwoOwned(k);
    hide Walked, SlotsFollow, CapFollows, Owned, Behind, Waiter, OverrunRow;
  }
}
