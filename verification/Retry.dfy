/**
 Bounded retry with exponential backoff, internal/reliability/retry.go. `Duration` is a signed 64-bit
 number of nanoseconds, so every doubling below is checked not to overflow. Jitter is computed in
 real numbers.
 */
module Retry {
  import opened Common

  newtype Duration = d: int | -0x8000_0000_0000_0000 <= d < 0x8000_0000_0000_0000

  datatype Policy = Policy(attempts: int, baseDelay: Duration, maxDelay: Duration, jitter: real) {
    predicate Valid() {
      attempts > 0 && 0 <= baseDelay <= maxDelay && 0.0 <= jitter <= 1.0
    }
  }

  datatype Outcome<+T> = Success(value: T) | Failure(error: string)

  const INVALID_POLICY: string := "invalid retry policy"

  /** The delay before jitter, one doubling at a time. */
  function Doubled(base: nat, max: nat, retry: nat): nat {
    if retry == 0 then base
    else
      var d := Doubled(base, max, retry - 1);
      if d >= max / 2 then max else 2 * d
  }

  /** d is min(p, max), or one more in the one case where p lands just below an odd maximum. */
  ghost predicate CappedAt(p: nat, d: nat, max: nat, retry: nat) {
    && Min(p, max) <= d <= Min(p + 1, max)
    && (d != Min(p, max) <==> retry >= 1 && max % 2 == 1 && p == max - 1)
  }

  lemma CappedStep(p: nat, d: nat, max: nat, retry: nat)
    requires CappedAt(p, d, max, retry)
    ensures CappedAt(2 * p, if d >= max / 2 then max else 2 * d, max, retry + 1)
  {
  }

  /** It is min(base * 2^retry, max), except that it is one more when the doubled value lands exactly
      one below an odd maximum. */
  lemma {:induction false} DoubledIsCappedPower(base: nat, max: nat, retry: nat)
    requires base <= max
    ensures var exact := Min(base * Power2(retry), max);
            && exact <= Doubled(base, max, retry) <= Min(base * Power2(retry) + 1, max)
            && (Doubled(base, max, retry) != exact <==> retry >= 1 && max % 2 == 1 && base * Power2(retry) == max - 1)
  {
    CappedAlways(base, max, retry);
  }

  lemma {:induction false} CappedAlways(base: nat, max: nat, retry: nat)
    requires base <= max
    ensures CappedAt(base * Power2(retry), Doubled(base, max, retry), max, retry)
  {
    if retry > 0 {
      CappedAlways(base, max, retry - 1);
      CappedStep(base * Power2(retry - 1), Doubled(base, max, retry - 1), max, retry - 1);
      MoveTwo(base, Power2(retry - 1));
    }
  }

  lemma MoveTwo(a: nat, b: nat)
    ensures a * (2 * b) == 2 * (a * b)
  {
  }

  /** The delay never falls from one retry to the next. */
  lemma DoubledGrows(base: nat, max: nat, retry: nat)
    requires base <= max
    ensures Doubled(base, max, retry) <= Doubled(base, max, retry + 1) <= max
  {
    DoubledIsCappedPower(base, max, retry);
  }

  /** The doubling loop of retryDelay. */
  method DoublingLoop(policy: Policy, retry: nat) returns (delay: Duration)
    requires policy.Valid()
    ensures 0 <= delay <= policy.maxDelay
    ensures delay as int == Doubled(policy.baseDelay as int, policy.maxDelay as int, retry)
  {
    delay := policy.baseDelay;
    var i := 0;
    while i < retry
      invariant 0 <= i <= retry && 0 <= delay <= policy.maxDelay
      invariant delay as int == Doubled(policy.baseDelay as int, policy.maxDelay as int, i)
    {
      if delay >= policy.maxDelay / 2 {
        delay := policy.maxDelay;
        StaysAtMax(policy.baseDelay as int, policy.maxDelay as int, i + 1, retry);
        break;
      }
      delay := delay * 2;
      i := i + 1;
    }
  }

  /** Within a fraction `jitter` of the plain delay, up to the rounding to whole nanoseconds. */
  predicate Around(plain: int, jitter: real, delay: int) {
    plain as real * (1.0 - jitter) - 1.0 <= delay as real <= plain as real * (1.0 + jitter)
  }

  /** Spread by up to a fraction `jitter` either way; the conversion to nanoseconds drops the fraction. */
  function Jitter(plain: int, jitter: real, random: real): int {
    (plain as real * (1.0 + jitter * (2.0 * random - 1.0))).Floor
  }

  /** The pause asked for after the retry-th failure. */
  function Pause(policy: Policy, retry: nat, random: real): int
    requires policy.Valid()
  {
    var plain, max := Doubled(policy.baseDelay as int, policy.maxDelay as int, retry), policy.maxDelay as int;
    if policy.jitter > 0.0 && plain > 0 then Min(Jitter(plain, policy.jitter, random), max) else plain
  }

  method RetryDelay(policy: Policy, retry: nat, random: real) returns (delay: Duration)
    requires policy.Valid() && 0.0 <= random < 1.0
    ensures 0 <= delay <= policy.maxDelay && delay as int == Pause(policy, retry, random)
  {
    delay := DoublingLoop(policy, retry);
    if policy.jitter > 0.0 && delay > 0 {
      var jittered := Jitter(delay as int, policy.jitter, random);
      assert 0 <= jittered by {
        JitterStays(delay as int, policy.maxDelay as int, policy.jitter, random);
      }
      delay := if jittered <= policy.maxDelay as int then jittered as Duration else policy.maxDelay;
    }
  }

  /** The jittered and capped delay is never negative and stays around the plain one. */
  lemma JitterStays(plain: nat, max: nat, jitter: real, random: real)
    requires plain <= max && 0.0 <= jitter <= 1.0 && 0.0 <= random < 1.0
    ensures 0 <= Jitter(plain, jitter, random)
    ensures Around(plain, jitter, Min(Jitter(plain, jitter, random), max)) && Around(plain, jitter, plain)
  {
    var p := plain as real;
    var factor := 1.0 + jitter * (2.0 * random - 1.0);
    var scaled := p * factor;
    ScaleBounds(p, jitter, random, factor, scaled);
    var jittered := scaled.Floor;
    assert scaled - 1.0 <= jittered as real <= scaled;
    assert Min(jittered, max) as real <= p * (1.0 + jitter);
  }

  /** The random number sweeps the whole range evenly: 0 shortens the pause by the fraction `jitter`, one
      half leaves it as it is, and a larger number never gives a shorter pause. */
  lemma JitterSweeps(plain: nat, jitter: real, less: real, more: real)
    requires 0.0 <= jitter <= 1.0 && 0.0 <= less <= more < 1.0
    ensures Jitter(plain, jitter, 0.0) == (plain as real - plain as real * jitter).Floor
    ensures Jitter(plain, jitter, 0.5) == plain
    ensures Jitter(plain, jitter, less) <= Jitter(plain, jitter, more)
  {
    var p := plain as real;
    assert jitter * (2.0 * 0.5 - 1.0) == 0.0;
    assert p * (1.0 + jitter * (2.0 * 0.0 - 1.0)) == p - p * jitter;
    SpreadGrows(p, jitter, 2.0 * less - 1.0, 2.0 * more - 1.0, jitter * (2.0 * less - 1.0),
                jitter * (2.0 * more - 1.0));
  }

  lemma SpreadGrows(p: real, jitter: real, least: real, most: real, low: real, high: real)
    requires p >= 0.0 && jitter >= 0.0 && least <= most && low == jitter * least && high == jitter * most
    ensures p * (1.0 + low) <= p * (1.0 + high)
  {
    ProductGrows(jitter, least, most);
    ProductGrows(p, 1.0 + low, 1.0 + high);
  }

  /** The pause comes from this plain delay, spread by at most the fraction `jitter`. */
  predicate Spreads(policy: Policy, plain: nat, pause: int) {
    Around(plain, policy.jitter, pause) && (policy.jitter == 0.0 ==> pause == plain)
  }

  /** Every pause comes from the base delay doubled once per earlier retry and capped (one more in the one
      odd case). */
  lemma PauseIsSpreadPower(policy: Policy, retry: nat, random: real) returns (plain: nat)
    requires policy.Valid() && 0.0 <= random < 1.0
    ensures Spreads(policy, plain, Pause(policy, retry, random))
    ensures CappedAt(policy.baseDelay as int * Power2(retry), plain, policy.maxDelay as int, retry)
  {
    var base, max := policy.baseDelay as int, policy.maxDelay as int;
    plain := Doubled(base, max, retry);
    CappedAlways(base, max, retry);
    DoubledIsCappedPower(base, max, retry);
    JitterStays(plain, max, policy.jitter, random);
  }

  lemma {:induction false} StaysAtMax(base: nat, max: nat, i: nat, retry: nat)
    requires i <= retry && Doubled(base, max, i) == max
    ensures Doubled(base, max, retry) == max
  {
    if i < retry {
      StaysAtMax(base, max, i, retry - 1);
    }
  }

  lemma ProductGrows(p: real, a: real, b: real)
    requires p >= 0.0 && a <= b
    ensures p * a <= p * b
  {
    var d := b - a;
    assert p * d >= 0.0;
    assert p * (a + d) == p * a + p * d;
  }

  lemma ScaleBounds(plain: real, jitter: real, random: real, factor: real, scaled: real)
    requires plain >= 0.0 && 0.0 <= jitter <= 1.0 && 0.0 <= random < 1.0
    requires factor == 1.0 + jitter * (2.0 * random - 1.0) && scaled == plain * factor
    ensures 0.0 <= plain * (1.0 - jitter) <= scaled <= plain * (1.0 + jitter)
    ensures plain * (1.0 - jitter) <= plain <= plain * (1.0 + jitter)
  {
    var spread := 2.0 * random - 1.0;
    ProductGrows(jitter, -1.0, spread);
    ProductGrows(jitter, spread, 1.0);
    var least, most := 1.0 - jitter, 1.0 + jitter;
    ProductGrows(plain, 0.0, least);
    ProductGrows(plain, least, factor);
    ProductGrows(plain, factor, most);
    ProductGrows(plain, least, 1.0);
    ProductGrows(plain, 1.0, most);
  }

  function Sum(xs: seq<int>): int {
    if xs == [] then 0 else Sum(xs[..|xs| - 1]) + xs[|xs| - 1]
  }

  /** How many calls a retried operation takes and whether it ends well, when every error may be
      retried and nothing is cancelled. */
  function Tries(succeeds: nat -> bool, attempts: nat): (nat, bool)
  {
    TriesFrom(succeeds, 0, attempts)
  }

  function TriesFrom(succeeds: nat -> bool, from: nat, attempts: nat): (nat, bool)
    decreases attempts - from
  {
    if from >= attempts then (attempts, false)
    else if succeeds(from) then (from + 1, true)
    else TriesFrom(succeeds, from + 1, attempts)
  }

  lemma {:induction false} TriesSkip(succeeds: nat -> bool, to: nat, attempts: nat)
    requires to <= attempts && forall i: nat | i < to :: !succeeds(i)
    ensures TriesFrom(succeeds, 0, attempts) == TriesFrom(succeeds, to, attempts)
  {
    if to > 0 {
      TriesSkip(succeeds, to - 1, attempts);
    }
  }

  /** Pauses of at most `max` each, at most n of them. */
  lemma {:induction false} TotalPause(slept: seq<int>, max: nat, n: nat)
    requires |slept| <= n && forall i | 0 <= i < |slept| :: 0 <= slept[i] <= max
    ensures 0 <= Sum(slept) <= n * max
  {
    if slept != [] {
      TotalPause(slept[..|slept| - 1], max, n - 1);
      assert n * max == (n - 1) * max + max;
    } else {
      assert 0 <= n * max;
    }
  }

  /** The n-th call returns `call(n)`; `contextError(n)` is what the context reports before it and
      `sleepError(n)` how the pause after it ended. `slept` lists the pauses asked for, one between any
      two calls. */
  method RetryValue<T>(policy: Policy, call: nat -> Outcome<T>, contextError: nat -> Option<string>,
                       sleepError: nat -> Option<string>, retryable: string -> bool, random: nat -> real)
    returns (result: Outcome<T>, calls: nat, slept: seq<int>)
    requires forall n: nat :: 0.0 <= random(n) < 1.0
    ensures !policy.Valid() ==> result == Failure(INVALID_POLICY) && calls == 0 && slept == []
    ensures policy.Valid() ==>
              && calls <= policy.attempts
              && |slept| <= policy.attempts - 1
              && (forall i | 0 <= i < |slept| ::
                    0 <= slept[i] <= policy.maxDelay as int && slept[i] == Pause(policy, i, random(i)))
              && Sum(slept) <= (policy.attempts - 1) * policy.maxDelay as int
    ensures forall i | 0 <= i < calls - 1 :: call(i).Failure? && retryable(call(i).error) && sleepError(i).None?
    ensures forall i | 0 <= i < calls :: contextError(i).None?
    ensures result.Success? <==> calls > 0 && call(calls - 1).Success?
    ensures result.Success? ==> result == call(calls - 1) && |slept| == calls - 1
    ensures policy.Valid() && result.Failure? ==>
              || (calls < policy.attempts && contextError(calls) == Some(result.error) && |slept| == calls)
              || (calls > 0 && result == call(calls - 1) && (calls == policy.attempts || !retryable(result.error))
                  && |slept| == calls - 1)
              || (0 < calls < policy.attempts && sleepError(calls - 1) == Some(result.error) && |slept| == calls)
    ensures policy.Valid() && (forall n: nat :: contextError(n) == None && sleepError(n) == None)
            && (forall e :: retryable(e)) ==>
              (calls, result.Success?) == Tries((n: nat) => call(n).Success?, policy.attempts)
  {
    slept := [];
    if !policy.Valid() {
      return Failure(INVALID_POLICY), 0, [];
    }
    result, calls, slept := RetryLoop(policy, call, contextError, sleepError, retryable, random);
    TotalPause(slept, policy.maxDelay as int, policy.attempts - 1);
    if (forall n: nat :: contextError(n) == None && sleepError(n) == None) && (forall e :: retryable(e)) {
      var succeeds := (n: nat) => call(n).Success?;
      TriesSkip(succeeds, calls - 1, policy.attempts);
    }
  }

  method RetryLoop<T>(policy: Policy, call: nat -> Outcome<T>, contextError: nat -> Option<string>,
                      sleepError: nat -> Option<string>, retryable: string -> bool, random: nat -> real)
    returns (result: Outcome<T>, calls: nat, slept: seq<int>)
    requires policy.Valid() && forall n: nat :: 0.0 <= random(n) < 1.0
    ensures calls <= policy.attempts && |slept| <= policy.attempts - 1
    ensures forall i | 0 <= i < |slept| ::
              0 <= slept[i] <= policy.maxDelay as int && slept[i] == Pause(policy, i, random(i))
    ensures forall i | 0 <= i < calls - 1 :: call(i).Failure? && retryable(call(i).error) && sleepError(i).None?
    ensures forall i | 0 <= i < calls :: contextError(i).None?
    ensures result.Success? <==> calls > 0 && call(calls - 1).Success?
    ensures result.Success? ==> result == call(calls - 1) && |slept| == calls - 1
    ensures result.Failure? ==>
              || (calls < policy.attempts && contextError(calls) == Some(result.error) && |slept| == calls)
              || (calls > 0 && result == call(calls - 1) && (calls == policy.attempts || !retryable(result.error))
                  && |slept| == calls - 1)
              || (0 < calls < policy.attempts && sleepError(calls - 1) == Some(result.error) && |slept| == calls)
  {
    calls, slept := 0, [];
    for attempt := 0 to policy.attempts
      invariant attempt < policy.attempts && calls == attempt == |slept|
      invariant forall i | 0 <= i < calls ::
                  call(i).Failure? && retryable(call(i).error) && sleepError(i).None? && contextError(i).None?
      invariant forall i | 0 <= i < |slept| ::
                  0 <= slept[i] <= policy.maxDelay as int && slept[i] == Pause(policy, i, random(i))
    {
      if contextError(attempt).Some? {
        return Failure(contextError(attempt).value), calls, slept;
      }
      calls := attempt + 1;
      var value := call(attempt);
      if value.Success? {
        return value, calls, slept;
      }
      if attempt == policy.attempts - 1 || !retryable(value.error) {
        return value, calls, slept;
      }
      var delay := RetryDelay(policy, attempt, random(attempt));
      slept := slept + [delay as int];
      if sleepError(attempt).Some? {
        return Failure(sleepError(attempt).value), calls, slept;
      }
    }
    assert false;
  }
}
