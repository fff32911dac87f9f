/** The scheduler progress record and the health reader that judges it. */
module TickRecord {
  import opened Common
  import Json

  const GRACE_S: real := 120.0

  /** Readers take no more of the record file than this. */
  const MAX_RECORD_BYTES: nat := 1024

  /** The names, punctuation and schema text of the record file. */
  const FRAME_BYTES: nat := 183

  /** No text of a positive finite double is longer. */
  const MAX_FLOAT_BYTES: nat := 23

  /** Failure kinds are cut to this many characters, */
  const MAX_KIND: nat := 128

  /** but what must be short enough for the bound is what is written of them. */
  const MAX_KIND_BYTES: nat := 719

  datatype Record = Record(
    lastSuccess: Option<real>,
    lastAttempt: real,
    attemptSucceeded: bool,
    lastFailure: Option<real>,
    failureKind: Option<string>,
    nextDue: real)

  /** One scheduler attempt: when it was stamped, how long until the next poll. */
  datatype Attempt = Attempt(at: real, nextPoll: real, success: bool, kind: string)

  /** What the health reader concludes for a live or dead agent. */
  datatype Health = Health(accepted: bool, stalled: bool, lastSuccess: Option<real>)

  /** The checks `heartbeat_health` makes before it trusts a record. */
  predicate Accepts(r: Record) {
    && (r.lastSuccess.Some? ==> r.lastSuccess.value > 0.0 && r.nextDue >= r.lastSuccess.value)
    && r.nextDue > 0.0
    && r.lastAttempt > 0.0
    && (r.lastFailure.Some? ==> r.lastFailure.value > 0.0)
  }

  /** How a number is written. */
  type Show = real -> string

  function Bytes(x: real, show: Show): nat {
    |show(x)|
  }

  ghost predicate FloatText(show: Show) {
    forall x :: x > 0.0 ==> Bytes(x, show) <= MAX_FLOAT_BYTES
  }

  function TimeBytes(time: Option<real>, show: Show): nat {
    if time.Some? then Bytes(time.value, show) else 4
  }

  /** The record file: the last success stands in it twice. */
  function FileBytes(r: Record, show: Show): nat {
    FRAME_BYTES + 2 * TimeBytes(r.lastSuccess, show) + Bytes(r.lastAttempt, show) + (if r.attemptSucceeded then 4 else 5)
      + TimeBytes(r.lastFailure, show) + (if r.failureKind.Some? then |Json.Quoted(r.failureKind.value)| else 4) + Bytes(r.nextDue, show)
  }

  predicate Fits(r: Record, show: Show) {
    FileBytes(r, show) <= MAX_RECORD_BYTES
  }

  predicate ShortKind(kind: string) {
    |Json.Escaped(kind)| <= MAX_KIND_BYTES
  }

  lemma ShortKindFits(r: Record, show: Show)
    requires FloatText(show) && Accepts(r)
    ensures (r.failureKind.Some? ==> ShortKind(r.failureKind.value)) ==> Fits(r, show)
  {
    assert TimeBytes(r.lastSuccess, show) <= MAX_FLOAT_BYTES && TimeBytes(r.lastFailure, show) <= MAX_FLOAT_BYTES;
    assert Bytes(r.lastAttempt, show) <= MAX_FLOAT_BYTES && Bytes(r.nextDue, show) <= MAX_FLOAT_BYTES;
  }

  /** The longest record a kind can stand in. */
  lemma LongKindDoesNotFit(kind: string) returns (r: Record, show: Show)
    requires !ShortKind(kind)
    ensures FloatText(show) && Accepts(r) && r.failureKind == Some(kind) && !Fits(r, show)
  {
    show := (x: real) => seq(MAX_FLOAT_BYTES, _ => '1');
    r := Record(Some(1.0), 1.0, false, Some(1.0), Some(kind), 1.0);
  }

  /** Every record with a kind fits the bound, whatever its times and however they are
      written, if and only if the kind is written in at most 719 bytes. */
  lemma KindFitsExactly(kind: string)
    ensures (forall r, show | FloatText(show) && Accepts(r) && r.failureKind == Some(kind) :: Fits(r, show)) <==> ShortKind(kind)
  {
    hide Fits, ShortKind, Accepts, FloatText;
    if ShortKind(kind) {
      forall r, show | FloatText(show) && Accepts(r) && r.failureKind == Some(kind) ensures Fits(r, show) {
        ShortKindFits(r, show);
      }
    } else {
      var r, show := LongKindDoesNotFit(kind);
    }
  }

  lemma PlainKindsAreShort(kind: string)
    requires Json.Unescaped(kind)
    ensures ShortKind(Take(kind, MAX_KIND))
  {
    Json.UnescapedIsKept(Take(kind, MAX_KIND));
  }

  lemma {:induction false} WideKindLength(kind: string)
    requires forall i | 0 <= i < |kind| :: kind[i] as int >= 0x1_0000
    ensures |Json.Escaped(kind)| == 12 * |kind|
  {
    if kind != [] {
      WideKindLength(kind[1..]);
    }
  }

  /** The cut to 128 characters does not bound the bytes: a kind of 128 characters above
      the basic plane makes every record too long to be read again. */
  lemma WideKindDoesNotFit(r: Record, show: Show)
    requires r.failureKind.Some? && |r.failureKind.value| == MAX_KIND
    requires forall i | 0 <= i < MAX_KIND :: r.failureKind.value[i] as int >= 0x1_0000
    ensures !Fits(r, show)
  {
    WideKindLength(r.failureKind.value);
  }

  class SchedulerTick {
    const show: Show
    var stored: Option<Record>
    /** The bare timestamp an early build left when there is no record. */
    var bare: Option<real>

    constructor (show: Show, bare: Option<real>)
      ensures stored == None && this.show == show && this.bare == bare
    {
      this.show, stored, this.bare := show, None, bare;
    }

    /** What a reader of the file gets. */
    function Readable(): Option<Record>
      reads this`stored
    {
      if stored.Some? && Fits(stored.value, show) then stored else None
    }

    /** `_write_scheduler_tick`. */
    method WriteTick(a: Attempt)
      requires a.at > 0.0
      requires stored.Some? ==> Accepts(stored.value)
      modifies this
      ensures stored.Some? && Accepts(stored.value) && bare.None?
      ensures FloatText(show) && (!a.success ==> ShortKind(Take(a.kind, MAX_KIND))) && KindIsShort(old(Readable())) ==>
                Readable() == stored && KindIsShort(stored)
      ensures stored.value.lastAttempt == a.at && stored.value.attemptSucceeded == a.success
      ensures a.success || old(Readable()).None? ==>
                stored.value.nextDue == a.at + if a.nextPoll > 0.0 then a.nextPoll else 0.0
      ensures a.success ==> stored.value.lastSuccess == Some(a.at)
      ensures a.success && old(Readable()).Some? ==>
                stored.value.lastFailure == old(Readable()).value.lastFailure
                && stored.value.failureKind == old(Readable()).value.failureKind
      ensures a.success && old(Readable()).None? ==> stored.value.lastFailure == None && stored.value.failureKind == None
      ensures !a.success ==> stored.value.lastFailure == Some(a.at) && stored.value.failureKind == Some(Take(a.kind, MAX_KIND))
      ensures !a.success && old(Readable()).Some? ==>
                stored.value.lastSuccess == old(Readable()).value.lastSuccess
                && stored.value.nextDue == old(Readable()).value.nextDue
      ensures !a.success && old(Readable()).None? ==> stored.value.lastSuccess == None
    {
      var previous := Readable();
      var poll := if a.nextPoll > 0.0 then a.nextPoll else 0.0;
      var priorSuccess := if previous.Some? then previous.value.lastSuccess else None;
      var priorFailure := if previous.Some? then previous.value.lastFailure else None;
      var priorKind := if previous.Some? then previous.value.failureKind else None;
      stored := Some(Record(
        if a.success then Some(a.at) else priorSuccess,
        a.at,
        a.success,
        if a.success then priorFailure else Some(a.at),
        if a.success then priorKind else Some(Take(a.kind, MAX_KIND)),
        if a.success || previous.None? then a.at + poll else previous.value.nextDue));
      bare := None;
      if FloatText(show) {
        ShortKindFits(stored.value, show);
      }
    }

    /** The scheduler half of `heartbeat_health`. A record that fails a check loses its
        success time, but the deadline read before the check stays; a bare timestamp counts
        as a success that is due again after the usual grace. */
    method ReadHealth(now: real, alive: bool, pollS: real) returns (h: Health)
      ensures h.accepted <==> Readable().Some? && Accepts(Readable().value)
      ensures Readable().Some? ==>
                && (h.stalled <==> alive && now > Readable().value.nextDue + 120.0)
                && h.lastSuccess == if h.accepted then Readable().value.lastSuccess else None
      ensures Readable().None? ==>
                && h.lastSuccess == (if stored.None? && bare.Some? && bare.value > 0.0 then bare else None)
                && (h.stalled <==> && alive && h.lastSuccess.Some? && now > h.lastSuccess.value + 120.0
                                   && now > h.lastSuccess.value + 2.0 * pollS + 5.0)
    {
      if Readable().None? {
        if stored.Some? || bare.None? || bare.value <= 0.0 {
          return Health(false, false, None);
        }
        return Health(false, alive && now > bare.value + StaleAfter(pollS), bare);
      }
      var r := stored.value;
      var stalled := alive && now > r.nextDue + GRACE_S;
      if (r.lastSuccess.Some? && (r.lastSuccess.value <= 0.0 || r.nextDue < r.lastSuccess.value))
         || r.nextDue <= 0.0 || r.lastAttempt <= 0.0
         || (r.lastFailure.Some? && r.lastFailure.value <= 0.0) {
        return Health(false, stalled, None);
      }
      return Health(true, stalled, r.lastSuccess);
    }

    /** Any run of attempts from an empty store whose failure kinds are short, and the
        verdict a later reader of the file reaches. Clocks may jump: no order between the
        attempts is assumed. */
    method RunAttempts(attempts: seq<Attempt>, now: real, pollS: real) returns (h: Health)
      requires stored == None && FloatText(show)
      requires forall i | 0 <= i < |attempts| :: attempts[i].at > 0.0
      modifies this
      ensures attempts != [] && KindsAreShort(attempts) ==> h.accepted && Readable().Some? && Accepts(Readable().value)
      ensures attempts != [] && KindsAreShort(attempts) ==>
                var since := LastDeadlineWriter(attempts);
                && since < |attempts|
                && h.lastSuccess == (if attempts[since].success then Some(attempts[since].at) else None)
                && (h.stalled <==>
                      now > attempts[since].at + (if attempts[since].nextPoll > 0.0 then attempts[since].nextPoll else 0.0) + 120.0)
    {
      for i := 0 to |attempts|
        invariant i == 0 ==> stored == None
        invariant i > 0 ==> stored.Some? && Accepts(stored.value)
        invariant KindsAreShort(attempts) && i > 0 ==>
                    var since := LastDeadlineWriter(attempts[..i]);
                    && Readable() == stored && since < i
                    && KindIsShort(stored)
                    && stored.value.nextDue == DeadlineOf(attempts[since])
                    && stored.value.lastSuccess == (if attempts[since].success then Some(attempts[since].at) else None)
      {
        hide Accepts, Fits, FileBytes;
        WriteTick(attempts[i]);
        assert attempts[..i + 1][..i] == attempts[..i];
      }
      assert attempts[..|attempts|] == attempts;
      h := ReadHealth(now, true, pollS);
    }
  }

  /** How long without a new timestamp before an agent counts as stale. */
  function StaleAfter(pollS: real): real {
    if 2.0 * pollS + 5.0 > GRACE_S then 2.0 * pollS + 5.0 else GRACE_S
  }

  predicate KindIsShort(r: Option<Record>) {
    r.Some? && r.value.failureKind.Some? ==> ShortKind(r.value.failureKind.value)
  }

  /** Every cut failure kind is written in few enough bytes. */
  ghost predicate KindsAreShort(attempts: seq<Attempt>) {
    forall i | 0 <= i < |attempts| && !attempts[i].success :: ShortKind(Take(attempts[i].kind, MAX_KIND))
  }

  function DeadlineOf(a: Attempt): real {
    a.at + if a.nextPoll > 0.0 then a.nextPoll else 0.0
  }

  /** The attempt that fixed the deadline: the last success, or the first
      attempt when none has succeeded yet. */
  function LastDeadlineWriter(attempts: seq<Attempt>): (since: nat)
    requires attempts != []
    ensures since < |attempts|
  {
    if attempts[|attempts| - 1].success || |attempts| == 1 then |attempts| - 1
    else LastDeadlineWriter(attempts[..|attempts| - 1])
  }

  /** It is what its name says. */
  lemma {:induction false} LastDeadlineWriterMeaning(attempts: seq<Attempt>)
    requires attempts != []
    ensures var since := LastDeadlineWriter(attempts);
            && (forall i | since < i < |attempts| :: !attempts[i].success)
            && (attempts[since].success || since == 0)
  {
    if !attempts[|attempts| - 1].success && |attempts| > 1 {
      LastDeadlineWriterMeaning(attempts[..|attempts| - 1]);
    }
  }
}
