/** The capped exponential backoff of jobs that placement keeps refusing. */
module Backoff {
  import opened Common

  type JobId = string

  const BASE_S: real := 5.0
  const CAP_S: real := 300.0
  const MAX_RETRIES: nat := 16

  /** How often a job was blocked in a row, and when it may be tried again. */
  datatype Wait = Wait(retries: nat, deadline: real)

  type Waits = map<JobId, Wait>

  function Pow2(n: nat): real {
    if n == 0 then 1.0 else 2.0 * Pow2(n - 1)
  }

  function Delay(retries: nat): real {
    var raw := BASE_S * Pow2(Min(retries, MAX_RETRIES));
    if raw < CAP_S then raw else CAP_S
  }

  function Retries(waits: Waits, job: JobId): nat {
    if job in waits then waits[job].retries else 0
  }

  function Bumped(waits: Waits, job: JobId, now: real): Waits {
    waits[job := Wait(Min(Retries(waits, job) + 1, MAX_RETRIES), now + Delay(Retries(waits, job)))]
  }

  predicate Due(waits: Waits, job: JobId, now: real) {
    job in waits ==> now >= waits[job].deadline
  }

  /** The dictionary the resident agent keeps between ticks. */
  class BlockedBackoff {
    var waits: Waits

    ghost predicate Valid()
      reads this
    {
      forall job | job in waits :: waits[job].retries <= MAX_RETRIES
    }

    constructor ()
      ensures Valid() && waits == map[]
    {
      waits := map[];
    }

    /** `_bump_blocked_backoff`. */
    method Bump(job: JobId, now: real)
      requires Valid()
      modifies this
      ensures Valid() && waits == Bumped(old(waits), job, now)
      ensures now + BASE_S <= waits[job].deadline <= now + CAP_S
      ensures waits[job].retries == Min((if job in old(waits) then old(waits)[job].retries else 0) + 1, MAX_RETRIES)
      ensures forall other | other != job :: other in waits <==> other in old(waits)
      ensures forall other | other != job && other in waits :: waits[other] == old(waits)[other]
    {
      var retries := if job in waits then waits[job].retries else 0;
      var exponent := Min(retries, MAX_RETRIES);
      var raw := BASE_S * Pow2(exponent);
      DelayBounds(retries);
      waits := waits[job := Wait(Min(retries + 1, MAX_RETRIES), now + (if raw < CAP_S then raw else CAP_S))];
    }

    /** Every full attempt at one job that stays blocked, over any tick times. */
    method PollBlocked(job: JobId, ticks: seq<real>) returns (attempts: seq<real>)
      requires Valid() && job !in waits
      modifies this
      ensures Valid()
      ensures forall a | a in attempts :: a in ticks
      ensures |attempts| >= 1 ==> attempts[|attempts| - 1] - attempts[0] >= MinSpan(|attempts|)
      ensures |attempts| >= 7 ==> attempts[|attempts| - 1] - attempts[0] >= 315.0 + 300.0 * (|attempts| - 7) as real
    {
      attempts := [];
      for i := 0 to |ticks|
        invariant Valid()
        invariant forall a | a in attempts :: a in ticks
        invariant attempts == [] ==> job !in waits
        invariant attempts != [] ==>
                    && job in waits && waits[job].retries == Min(|attempts|, MAX_RETRIES)
                    && waits[job].deadline == attempts[|attempts| - 1] + Delay(|attempts| - 1)
                    && attempts[|attempts| - 1] - attempts[0] >= MinSpan(|attempts|)
      {
        if job !in waits || ticks[i] >= waits[job].deadline {
          DelaySaturates(|attempts|);
          Bump(job, ticks[i]);
          attempts := attempts + [ticks[i]];
        }
      }
      if |attempts| >= 7 {
        MinSpanClosedForm(|attempts|);
      }
    }
  }

  /** The least time n consecutive attempts can take. */
  function MinSpan(n: nat): real {
    if n <= 1 then 0.0 else MinSpan(n - 1) + Delay(n - 2)
  }

  lemma Pow2Grows(n: nat)
    ensures Pow2(n) >= 1.0
  {
  }

  lemma DelayBounds(retries: nat)
    ensures BASE_S <= Delay(retries) <= CAP_S
  {
    Pow2Grows(Min(retries, MAX_RETRIES));
  }

  lemma {:induction false} Pow2Monotone(a: nat, b: nat)
    requires a <= b
    ensures Pow2(a) <= Pow2(b)
    decreases b
  {
    if a < b {
      Pow2Monotone(a, b - 1);
      Pow2Grows(b - 1);
    }
  }

  /** Later blocks never wait less than earlier ones. */
  lemma DelayMonotone(a: nat, b: nat)
    requires a <= b
    ensures Delay(a) <= Delay(b)
  {
    Pow2Monotone(Min(a, MAX_RETRIES), Min(b, MAX_RETRIES));
  }

  lemma DelaySaturates(retries: nat)
    ensures Delay(Min(retries, MAX_RETRIES)) == Delay(retries)
    ensures retries >= 6 ==> Delay(retries) == CAP_S
  {
    if retries >= 6 {
      Pow2Monotone(6, Min(retries, MAX_RETRIES));
      assert Pow2(4) == 16.0 && Pow2(6) == 64.0;
    }
  }

  /** The delays themselves: 5, 10, 20, 40, 80, 160 and then 300 seconds. */
  lemma DelayValues(retries: nat)
    ensures Delay(0) == 5.0 && Delay(1) == 10.0 && Delay(2) == 20.0 && Delay(3) == 40.0 && Delay(4) == 80.0 && Delay(5) == 160.0
    ensures retries >= 6 ==> Delay(retries) == 300.0
  {
    DelaySaturates(retries);
    assert Pow2(2) == 4.0;
    assert Pow2(4) == 16.0;
  }

  lemma {:induction false} MinSpanClosedForm(n: nat)
    requires n >= 7
    ensures MinSpan(n) == 315.0 + 300.0 * (n - 7) as real
  {
    if n > 7 {
      MinSpanClosedForm(n - 1);
      DelaySaturates(n - 2);
    } else {
      assert Delay(0) == 5.0 && Delay(1) == 10.0 && Delay(2) == 20.0;
      assert Pow2(2) == 4.0;
      assert Delay(3) == 40.0 && Delay(4) == 80.0;
      assert Pow2(4) == 16.0;
      assert Delay(5) == 160.0;
      assert MinSpan(4) == 35.0;
    }
  }
}
