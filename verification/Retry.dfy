/** Retry with exponential backoff and jitter. */
module Retry {

  /** What one call of an async function does. */
  datatype Outcome<+V, +E> = Returned(value: V) | Raised(error: E)

  /** How a retried call ends. With a negative retry count the attempt loop is empty. */
  datatype RetryResult<+V, +E> = Done(value: V) | Reraised(error: E) | NoAttemptMade

  datatype RetryPolicy = RetryPolicy(
    maxRetries: int,
    baseDelay: real,
    maxDelay: real,
    exponentialBase: real,
    jitter: bool)

  /** A policy that sets only the retry count and leaves the rest at the defaults. */
  function PolicyWithRetries(retries: int): RetryPolicy
  {
    RetryPolicy(retries, 0.1, 30.0, 2.0, true)
  }

  function Min(a: real, b: real): real
  {
    if a <= b then a else b
  }

  function Pow(base: real, n: nat): real
  {
    if n == 0 then 1.0 else base * Pow(base, n - 1)
  }

  /** The exponentially growing delay, before the cap. */
  function Uncapped(policy: RetryPolicy, attempt: nat): real
  {
    policy.baseDelay * Pow(policy.exponentialBase, attempt)
  }

  /** The pause after failed attempt number `attempt`, before jitter. */
  function Delay(policy: RetryPolicy, attempt: nat): real
  {
    Min(Uncapped(policy, attempt), policy.maxDelay)
  }

  /** The first return value within the allowed attempts, else the last exception. */
  function Retried<V, E>(func: nat -> Outcome<V, E>, maxRetries: int): RetryResult<V, E>
  {
    if maxRetries < 0 then NoAttemptMade else RetriedFrom(func, 0, maxRetries)
  }

  function RetriedFrom<V, E>(func: nat -> Outcome<V, E>, attempt: nat, maxRetries: nat): RetryResult<V, E>
    requires attempt <= maxRetries
    decreases maxRetries - attempt
  {
    match func(attempt)
    case Returned(v) => Done(v)
    case Raised(e) => if attempt == maxRetries then Reraised(e) else RetriedFrom(func, attempt + 1, maxRetries)
  }

  /** `attempts` is the number of calls made when the retried call ends with r. */
  ghost predicate EndsAfter<V, E>(func: nat -> Outcome<V, E>, maxRetries: int, r: RetryResult<V, E>, attempts: nat)
  {
    && attempts <= (if maxRetries < 0 then 0 else maxRetries + 1)
    && (forall i: nat :: i + 1 < attempts ==> func(i).Raised?)
    && match r
       case Done(v) => attempts >= 1 && func(attempts - 1) == Returned(v)
       case Reraised(e) => attempts == maxRetries + 1 && attempts >= 1 && func(attempts - 1) == Raised(e)
       case NoAttemptMade => maxRetries < 0 && attempts == 0
  }

  /** The ending is determined: two accounts of the same call agree with each other and with `Retried`. */
  lemma {:induction false} EndingIsUnique<V, E>(func: nat -> Outcome<V, E>, maxRetries: int, r: RetryResult<V, E>,
                                                attempts: nat)
    requires EndsAfter(func, maxRetries, r, attempts)
    ensures r == Retried(func, maxRetries)
  {
    if maxRetries >= 0 {
      EndingFrom(func, maxRetries, r, attempts, 0);
    }
  }

  lemma {:induction false} EndingFrom<V, E>(func: nat -> Outcome<V, E>, maxRetries: nat, r: RetryResult<V, E>,
                                            attempts: nat, from: nat)
    requires EndsAfter(func, maxRetries, r, attempts) && from < attempts
    ensures r == RetriedFrom(func, from, maxRetries)
    decreases attempts - from
  {
    if from + 1 < attempts {
      assert func(from).Raised?;
      EndingFrom(func, maxRetries, r, attempts, from + 1);
    }
  }

  /** A retried call returns v exactly when some allowed attempt returns it and every earlier one raises. */
  lemma DoneIffReturned<V, E>(func: nat -> Outcome<V, E>, maxRetries: int, v: V)
    ensures Retried(func, maxRetries) == Done(v)
            <==> exists i: nat ::
                   i <= maxRetries && func(i) == Returned(v) && forall j: nat :: j < i ==> func(j).Raised?
  {
    if maxRetries >= 0 {
      DoneFromIffReturned(func, 0, maxRetries, v);
    }
  }

  lemma {:induction false} DoneFromIffReturned<V, E>(func: nat -> Outcome<V, E>, from: nat, maxRetries: nat, v: V)
    requires from <= maxRetries && forall j: nat :: j < from ==> func(j).Raised?
    ensures RetriedFrom(func, from, maxRetries) == Done(v)
            <==> exists i: nat ::
                   i <= maxRetries && func(i) == Returned(v) && forall j: nat :: j < i ==> func(j).Raised?
    decreases maxRetries - from
  {
    if func(from).Raised? && from < maxRetries {
      DoneFromIffReturned(func, from + 1, maxRetries, v);
    }
  }

  /** The pause requested after failed attempt number `attempt`; `factor` is a draw from uniform(0.5, 1.5). */
  function Pause(policy: RetryPolicy, attempt: nat, factor: real): real
  {
    if policy.jitter then Delay(policy, attempt) * factor else Delay(policy, attempt)
  }

  function LongestPause(policy: RetryPolicy): real
  {
    if policy.jitter then 1.5 * policy.maxDelay else policy.maxDelay
  }

  /** What is slept between the given number of attempts: after each but the last, the pause that the policy asks for,
      and in all no more than the retries times the longest pause. */
  ghost predicate Sleeps(policy: RetryPolicy, jitterFactor: nat -> real, attempts: nat, delays: seq<real>, slept: real)
  {
    && |delays| == (if attempts == 0 then 0 else attempts - 1)
    && (forall i :: 0 <= i < |delays| ==>
          var grown := policy.baseDelay * Pow(policy.exponentialBase, i);
          var capped := if grown <= policy.maxDelay then grown else policy.maxDelay;
          delays[i] == if policy.jitter then capped * jitterFactor(i) else capped)
    && slept == RealSum(delays)
    && (policy.maxDelay >= 0.0 && policy.maxRetries >= 0 ==>
          slept <= policy.maxRetries as real * if policy.jitter then 1.5 * policy.maxDelay else policy.maxDelay)
  }

  /** The attempt loop. `jitterFactor(i)` is the i-th draw; `delays` lists the pauses requested
      between attempts and `slept` is their total. */
  method RetryWithBackoff<V, E>(func: nat -> Outcome<V, E>, policy: RetryPolicy, jitterFactor: nat -> real)
    returns (r: RetryResult<V, E>, attempts: nat, delays: seq<real>, slept: real)
    requires forall i :: 0.5 <= jitterFactor(i) <= 1.5
    ensures EndsAfter(func, policy.maxRetries, r, attempts)
    ensures Sleeps(policy, jitterFactor, attempts, delays, slept)
  {
    hide Pause, RealSum, LongestPause, Sleeps;
    attempts, delays, slept := 0, [], 0.0;
    NoSleep(policy, jitterFactor);
    r := NoAttemptMade;
    var limit := if policy.maxRetries < 0 then 0 else policy.maxRetries + 1;
    for attempt := 0 to limit
      invariant attempts == attempt
      invariant forall i: nat :: i < attempt ==> func(i).Raised?
      invariant Slept(policy, jitterFactor, attempt, delays, slept)
      invariant attempt > 0 ==> attempt <= policy.maxRetries
    {
      attempts := attempt + 1;
      SleepsBounded(policy, jitterFactor, attempt, delays, slept);
      match func(attempt) {
        case Returned(v) =>
          return Done(v), attempts, delays, slept;
        case Raised(e) =>
          if attempt == policy.maxRetries {
            return Reraised(e), attempts, delays, slept;
          }
          var delay := Pause(policy, attempt, jitterFactor(attempt));
          SleepOnce(policy, jitterFactor, attempt, delays, slept);
          delays := delays + [delay];
          slept := slept + delay;
      }
    }
  }

  /** The pauses after each of the attempts so far. */
  ghost predicate Slept(policy: RetryPolicy, jitterFactor: nat -> real, attempts: nat, delays: seq<real>, slept: real)
  {
    && |delays| == attempts && slept == RealSum(delays)
    && forall i :: 0 <= i < |delays| ==> delays[i] == Pause(policy, i, jitterFactor(i))
  }

  lemma NoSleep(policy: RetryPolicy, jitterFactor: nat -> real)
    ensures Slept(policy, jitterFactor, 0, [], 0.0)
    ensures policy.maxRetries < 0 ==> Sleeps(policy, jitterFactor, 0, [], 0.0)
  {
  }

  lemma SleepOnce(policy: RetryPolicy, jitterFactor: nat -> real, attempts: nat, delays: seq<real>, slept: real)
    requires Slept(policy, jitterFactor, attempts, delays, slept)
    ensures var delay := Pause(policy, attempts, jitterFactor(attempts));
            Slept(policy, jitterFactor, attempts + 1, delays + [delay], slept + delay)
  {
    hide Pause, RealSum;
    RealSumSnoc(delays, Pause(policy, attempts, jitterFactor(attempts)));
  }

  lemma SleepsBounded(policy: RetryPolicy, jitterFactor: nat -> real, attempts: nat, delays: seq<real>, slept: real)
    requires Slept(policy, jitterFactor, attempts, delays, slept) && attempts <= policy.maxRetries
    requires forall i :: 0.5 <= jitterFactor(i) <= 1.5
    ensures Sleeps(policy, jitterFactor, attempts + 1, delays, slept)
  {
    hide Pause, RealSum, Pow;
    TotalPauseBounded(policy, jitterFactor, delays);
    forall i | 0 <= i < |delays| { PauseWritten(policy, i, jitterFactor(i)); }
  }

  lemma PauseWritten(policy: RetryPolicy, attempt: nat, factor: real)
    ensures var grown := policy.baseDelay * Pow(policy.exponentialBase, attempt);
            var capped := if grown <= policy.maxDelay then grown else policy.maxDelay;
            Pause(policy, attempt, factor) == if policy.jitter then capped * factor else capped
  {
    hide Pow;
  }

  lemma PauseBounded(policy: RetryPolicy, attempt: nat, factor: real)
    requires policy.maxDelay >= 0.0 && 0.5 <= factor <= 1.5
    ensures Pause(policy, attempt, factor) <= LongestPause(policy)
  {
    CapBounds(Delay(policy, attempt), policy.maxDelay, factor);
  }

  /** However the draws fall, all the pauses of one retried call together stay within
      `maxRetries` times the longest pause. */
  lemma {:induction false} PausesSumBounded(policy: RetryPolicy, jitterFactor: nat -> real, delays: seq<real>)
    requires forall i :: 0.5 <= jitterFactor(i) <= 1.5
    requires forall i :: 0 <= i < |delays| ==> delays[i] == Pause(policy, i, jitterFactor(i))
    requires policy.maxDelay >= 0.0
    ensures RealSum(delays) <= |delays| as real * LongestPause(policy)
  {
    hide Pause, LongestPause;
    if delays != [] {
      var n := |delays| - 1;
      PausesSumBounded(policy, jitterFactor, delays[..n]);
      PauseBounded(policy, n, jitterFactor(n));
      OneMore(n, LongestPause(policy));
    }
  }

  lemma OneMore(n: nat, c: real)
    ensures (n + 1) as real * c == n as real * c + c
  {
  }

  lemma ScaleMonotone(x: real, n: real, m: real, c: real)
    requires x <= n * c && n <= m && c >= 0.0
    ensures x <= m * c
  {
    assert (m - n) * c >= 0.0;
  }

  lemma LongestPauseNonNegative(policy: RetryPolicy)
    requires policy.maxDelay >= 0.0
    ensures LongestPause(policy) >= 0.0
  {
  }

  lemma TotalPauseBounded(policy: RetryPolicy, jitterFactor: nat -> real, delays: seq<real>)
    requires forall i :: 0.5 <= jitterFactor(i) <= 1.5
    requires forall i :: 0 <= i < |delays| ==> delays[i] == Pause(policy, i, jitterFactor(i))
    requires |delays| <= policy.maxRetries
    ensures policy.maxDelay >= 0.0 ==> RealSum(delays) <= policy.maxRetries as real * LongestPause(policy)
  {
    hide LongestPause, Pause, RealSum;
    if policy.maxDelay >= 0.0 {
      PausesSumBounded(policy, jitterFactor, delays);
      LongestPauseNonNegative(policy);
      ScaleMonotone(RealSum(delays), |delays| as real, policy.maxRetries as real, LongestPause(policy));
    }
  }

  function RealSum(xs: seq<real>): real
  {
    if xs == [] then 0.0 else RealSum(xs[..|xs| - 1]) + xs[|xs| - 1]
  }

  lemma RealSumSnoc(xs: seq<real>, x: real)
    ensures RealSum(xs + [x]) == RealSum(xs) + x
  {
    assert (xs + [x])[..|xs|] == xs;
  }

  lemma CapBounds(delay: real, cap: real, factor: real)
    requires delay <= cap && 0.5 <= factor <= 1.5
    ensures cap >= 0.0 ==> delay * factor <= 1.5 * cap
  {
    if cap >= 0.0 {
      if delay >= 0.0 {
        assert delay * factor <= delay * 1.5;
      } else {
        assert delay * factor <= 0.0;
      }
    }
  }

  lemma {:induction false} PowGrows(base: real, n: nat)
    requires base >= 1.0
    ensures 1.0 <= Pow(base, n) <= Pow(base, n + 1)
  {
    if n > 0 {
      PowGrows(base, n - 1);
      ProductGrows(base, 1.0, Pow(base, n - 1));
    }
    ProductGrows(Pow(base, n), 1.0, base);
  }

  /** Without jitter the pauses never shrink. */
  lemma {:induction false} DelaysNeverShrink(policy: RetryPolicy, i: nat, j: nat)
    requires policy.exponentialBase >= 1.0 && policy.baseDelay >= 0.0 && i <= j
    ensures Delay(policy, i) <= Delay(policy, j) <= policy.maxDelay
    decreases j - i
  {
    hide Delay, Pow;
    DelayStep(policy, i);
    if i < j {
      DelaysNeverShrink(policy, i + 1, j);
    }
  }

  lemma DelayStep(policy: RetryPolicy, i: nat)
    requires policy.exponentialBase >= 1.0 && policy.baseDelay >= 0.0
    ensures Delay(policy, i) <= Delay(policy, i + 1)
    ensures Delay(policy, i) <= policy.maxDelay
  {
    PowGrows(policy.exponentialBase, i);
    hide Pow;
    ProductGrows(policy.baseDelay, Pow(policy.exponentialBase, i), Pow(policy.exponentialBase, i + 1));
  }

  lemma ProductGrows(a: real, p: real, q: real)
    requires a >= 0.0 && p <= q
    ensures a * p <= a * q
  {
    assert a * (q - p) >= 0.0;
  }

  /** The pauses start at the base delay and, as long as they stay under the cap, each is the previous one times
      the exponential base; once one has reached the cap, all later ones are the cap. */
  lemma DelaysGrowGeometrically(policy: RetryPolicy, i: nat, j: nat)
    ensures policy.baseDelay <= policy.maxDelay ==> Delay(policy, 0) == policy.baseDelay
    ensures Delay(policy, i) < policy.maxDelay && Delay(policy, i + 1) < policy.maxDelay ==>
              Delay(policy, i + 1) == policy.exponentialBase * Delay(policy, i)
    ensures policy.exponentialBase >= 1.0 && policy.baseDelay >= 0.0 && i <= j ==>
              (Delay(policy, i) == policy.maxDelay ==> Delay(policy, j) == policy.maxDelay)
  {
    if policy.exponentialBase >= 1.0 && policy.baseDelay >= 0.0 && i <= j {
      DelaysNeverShrink(policy, i, j);
    }
    RegroupProduct(policy.exponentialBase, policy.baseDelay, Pow(policy.exponentialBase, i));
  }

  lemma RegroupProduct(a: real, b: real, c: real)
    ensures b * (a * c) == a * (b * c)
  {
  }

  /** The cap is applied before the jitter: a pause may exceed `maxDelay` exactly when the policy has jitter
      and one and a half times the uncapped delay is over it, and then by no more than half. */
  lemma JitterCanExceedCap(policy: RetryPolicy, attempt: nat)
    requires policy.maxDelay >= 0.0
    ensures (exists factor :: 0.5 <= factor <= 1.5 && Pause(policy, attempt, factor) > policy.maxDelay)
            <==> policy.jitter && policy.maxDelay > 0.0
                 && 1.5 * Uncapped(policy, attempt) > policy.maxDelay
    ensures forall factor :: 0.5 <= factor <= 1.5 ==> Pause(policy, attempt, factor) <= 1.5 * policy.maxDelay
  {
    hide *;
    PauseOverCap(policy, attempt, 1.5);
    forall factor | 0.5 <= factor <= 1.5
      ensures Pause(policy, attempt, factor) <= 1.5 * policy.maxDelay
      ensures Pause(policy, attempt, factor) > policy.maxDelay ==> Pause(policy, attempt, 1.5) > policy.maxDelay
    {
      FullJitterIsWorst(policy, attempt, factor);
    }
  }

  lemma FullJitterIsWorst(policy: RetryPolicy, attempt: nat, factor: real)
    requires policy.maxDelay >= 0.0 && 0.5 <= factor <= 1.5
    ensures Pause(policy, attempt, factor) <= 1.5 * policy.maxDelay
    ensures Pause(policy, attempt, factor) > policy.maxDelay ==> Pause(policy, attempt, 1.5) > policy.maxDelay
  {
    hide *;
    PauseOverCap(policy, attempt, factor);
    PauseOverCap(policy, attempt, 1.5);
    ScaleUp(Uncapped(policy, attempt), factor, policy.maxDelay);
  }

  lemma PauseOverCap(policy: RetryPolicy, attempt: nat, factor: real)
    requires policy.maxDelay >= 0.0 && 0.5 <= factor <= 1.5
    ensures Pause(policy, attempt, factor) <= 1.5 * policy.maxDelay
    ensures Pause(policy, attempt, factor) > policy.maxDelay
            <==> policy.jitter && policy.maxDelay > 0.0 && factor > 1.0
                 && factor * Uncapped(policy, attempt) > policy.maxDelay
  {
    hide Uncapped;
    var raw := Uncapped(policy, attempt);
    CapBounds(Delay(policy, attempt), policy.maxDelay, factor);
    if policy.maxDelay > 0.0 {
      ScaledMin(raw, policy.maxDelay, factor);
    }
  }

  lemma ScaleUp(raw: real, factor: real, cap: real)
    requires 0.5 <= factor <= 1.5 && cap >= 0.0
    ensures factor * raw > cap ==> 1.5 * raw > cap
  {
    if raw > 0.0 {
      assert raw * (1.5 - factor) >= 0.0;
    } else {
      assert factor * raw <= 0.0;
    }
  }

  lemma ScaledMin(raw: real, cap: real, factor: real)
    requires cap > 0.0 && factor >= 0.5
    ensures Min(raw, cap) * factor > cap <==> factor * raw > cap && factor > 1.0
  {
    if factor <= 1.0 {
      if Min(raw, cap) >= 0.0 {
        assert Min(raw, cap) * factor <= Min(raw, cap);
      } else {
        assert Min(raw, cap) * factor <= 0.0;
      }
    } else {
      assert cap * factor > cap;
      if raw > cap {
        assert raw * factor > cap * factor;
      }
    }
  }
}
