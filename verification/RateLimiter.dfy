/** The token-bucket rate limiter, over real time. */
module RateLimiters {
  import opened Retry

  datatype Config = Config(maxTokens: real, refillRate: real)

  datatype Bucket = Bucket(tokens: real, lastRefill: real)

  /** Tokens added between two times. */
  function Refilled(c: Config, from: real, to: real): real
  {
    (to - from) * c.refillRate
  }

  /** What the bucket would hold at time t: the lazily refilled level. */
  function Level(c: Config, b: Bucket, t: real): real
  {
    Min(c.maxTokens, b.tokens + Refilled(c, b.lastRefill, t))
  }

  function Refill(c: Config, b: Bucket, now: real): Bucket
  {
    Bucket(Level(c, b, now), now)
  }

  class RateLimiter {
    const config: Config
    var tokens: real
    var lastRefill: real

    function Snapshot(): Bucket
      reads this
    {
      Bucket(tokens, lastRefill)
    }

    constructor (config: Config, now: real)
      ensures this.config == config && Snapshot() == Bucket(config.maxTokens, now)
    {
      this.config := config;
      tokens, lastRefill := config.maxTokens, now;
    }

    method DoRefill(now: real)
      modifies this
      ensures Snapshot() == Refill(config, old(Snapshot()), now)
    {
      var elapsed := now - lastRefill;
      tokens := Min(config.maxTokens, tokens + elapsed * config.refillRate);
      lastRefill := now;
    }

    method AvailableTokens(now: real) returns (available: real)
      modifies this
      ensures Snapshot() == Refill(config, old(Snapshot()), now)
      ensures available == Min(config.maxTokens, old(tokens) + config.refillRate * (now - old(lastRefill)))
    {
      RefilledWritten(config, lastRefill, now);
      hide Refilled, Min;
      DoRefill(now);
      available := tokens;
    }

    /** One pass of the acquire loop under the lock. */
    method TryAcquire(n: real, now: real) returns (granted: bool)
      modifies this
      ensures (Snapshot(), granted) == Attempt(config, old(Snapshot()), n, now)
      ensures granted <==> n <= config.maxTokens && n <= old(tokens) + config.refillRate * (now - old(lastRefill))
      ensures lastRefill == now
      ensures tokens == Min(config.maxTokens, Inflow(config, old(Snapshot()), now)) - if granted then n else 0.0
    {
      GrantedExactly(config, Snapshot(), n, now);
      InflowWritten(config, Snapshot(), now);
      hide Attempt, Level, Refilled, Min, Inflow;
      granted := Pass(n, now);
    }

    method Pass(n: real, now: real) returns (granted: bool)
      modifies this
      ensures (Snapshot(), granted) == Attempt(config, old(Snapshot()), n, now)
    {
      DoRefill(now);
      if tokens >= n {
        tokens := tokens - n;
        return true;
      }
      return false;
    }

    /** A lone acquirer. `clock(i)` is the time of the i-th pass; a sleep lasts at least 1/refillRate.
        It is turned down at every pass but the last, which takes its tokens and is the first at which
        enough has come in, and it returns after at most ceil(n) sleeps: the first k with k >= n bounds
        their number. */
    method Acquire(n: real, clock: nat -> real, k: nat) returns (sleeps: nat)
      requires ValidConfig(config) && 0.0 <= tokens && n <= config.maxTokens && n <= k as real
      requires lastRefill <= clock(0) && Naps(config, clock)
      modifies this
      ensures sleeps <= k
      ensures TurnedDown(config, old(Snapshot()), n, clock, sleeps)
      ensures Attempt(config, Waited(config, old(Snapshot()), n, clock, sleeps), n, clock(sleeps)) == (Snapshot(), true)
      ensures n <= Inflow(config, old(Snapshot()), clock(sleeps))
      ensures forall i: nat :: i < sleeps ==> Inflow(config, old(Snapshot()), clock(i)) < n
      ensures tokens == Min(config.maxTokens, Inflow(config, old(Snapshot()), clock(sleeps))) - n
      ensures 0.0 <= tokens <= config.maxTokens - n
    {
      ghost var start := Snapshot();
      sleeps := PassUntilGranted(n, clock, k);
      hide *;
      FirstEnough(config, start, n, clock, sleeps);
    }

    method PassUntilGranted(n: real, clock: nat -> real, k: nat) returns (sleeps: nat)
      requires ValidConfig(config) && 0.0 <= tokens && n <= config.maxTokens && n <= k as real
      requires lastRefill <= clock(0) && Naps(config, clock)
      modifies this
      ensures sleeps <= k
      ensures TurnedDown(config, old(Snapshot()), n, clock, sleeps)
      ensures Attempt(config, Waited(config, old(Snapshot()), n, clock, sleeps), n, clock(sleeps)) == (Snapshot(), true)
    {
      sleeps := 0;
      ghost var start := Snapshot();
      hide Attempt, Waited, TurnedDown, GrantedAt, Naps, Min;
      NothingYet(config, start, n, clock);
      while true
        invariant sleeps <= k
        invariant Snapshot() == Waited(config, start, n, clock, sleeps)
        invariant TurnedDown(config, start, n, clock, sleeps)
        decreases k - sleeps
      {
        var granted := Pass(n, clock(sleeps));
        if granted {
          return;
        }
        OnePassMore(config, start, n, clock, sleeps, k);
        sleeps := sleeps + 1;
      }
    }
  }

  /** Between two passes lies a sleep of at least 1/refillRate. */
  ghost predicate Naps(c: Config, clock: nat -> real)
    requires c.refillRate > 0.0
  {
    forall i: nat :: clock(i) + 1.0 / c.refillRate <= clock(i + 1)
  }

  /** The bucket that an acquirer of n tokens finds at its i-th pass. */
  function Waited(c: Config, b: Bucket, n: real, clock: nat -> real, i: nat): Bucket
  {
    if i == 0 then b else Attempt(c, Waited(c, b, n, clock, i - 1), n, clock(i - 1)).0
  }

  predicate GrantedAt(c: Config, b: Bucket, n: real, clock: nat -> real, i: nat)
  {
    Attempt(c, Waited(c, b, n, clock, i), n, clock(i)).1
  }

  predicate TurnedDown(c: Config, b: Bucket, n: real, clock: nat -> real, passes: nat)
  {
    forall i: nat :: i < passes ==> !GrantedAt(c, b, n, clock, i)
  }

  function Attempt(c: Config, b: Bucket, n: real, now: real): (Bucket, bool)
  {
    var b' := Refill(c, b, now);
    if b'.tokens >= n then (b'.(tokens := b'.tokens - n), true) else (b', false)
  }

  lemma RefilledSplits(c: Config, r: real, s: real, t: real)
    ensures Refilled(c, r, s) + Refilled(c, s, t) == Refilled(c, r, t)
  {
  }

  lemma RefilledGrows(c: Config, r: real, s: real, t: real)
    requires c.refillRate >= 0.0 && r <= s <= t
    ensures 0.0 <= Refilled(c, s, t) <= Refilled(c, r, t)
  {
    assert (t - s) * c.refillRate >= 0.0;
    assert (s - r) * c.refillRate >= 0.0;
  }

  lemma RefillNeverDrains(c: Config, b: Bucket, now: real)
    requires c.refillRate >= 0.0 && b.lastRefill <= now
    ensures Level(c, b, now) >= Min(c.maxTokens, b.tokens)
  {
    RefilledGrows(c, b.lastRefill, b.lastRefill, now);
  }

  lemma SleepRefillsOne(c: Config, b: Bucket, now: real, k: real)
    requires c.refillRate > 0.0 && b.lastRefill + 1.0 / c.refillRate <= now
    requires Min(c.maxTokens, k) <= b.tokens
    ensures Level(c, b, now) >= Min(c.maxTokens, k + 1.0)
  {
    var nap := 1.0 / c.refillRate;
    assert nap * c.refillRate == 1.0;
    assert (now - b.lastRefill - nap) * c.refillRate >= 0.0;
    assert Refilled(c, b.lastRefill, now) >= 1.0;
  }

  /** What the bucket would hold at t if nothing had been taken since and it had no capacity. */
  function Inflow(c: Config, b: Bucket, t: real): real
  {
    b.tokens + c.refillRate * (t - b.lastRefill)
  }

  /** A pass finds in the bucket what was there and what has been refilled since, up to the capacity, and is granted
      its tokens exactly when that is enough. */
  lemma GrantedExactly(c: Config, b: Bucket, n: real, now: real)
    ensures Attempt(c, b, n, now).1 <==> n <= c.maxTokens && n <= Inflow(c, b, now)
    ensures Attempt(c, b, n, now).0.lastRefill == now
    ensures Attempt(c, b, n, now).0.tokens
         == Min(c.maxTokens, Inflow(c, b, now)) - if Attempt(c, b, n, now).1 then n else 0.0
  {
    LevelIsInflow(c, b, now);
    hide Level, Inflow;
  }

  lemma LevelIsInflow(c: Config, b: Bucket, t: real)
    ensures Level(c, b, t) == Min(c.maxTokens, Inflow(c, b, t))
  {
  }

  lemma InflowWritten(c: Config, b: Bucket, t: real)
    ensures Inflow(c, b, t) == b.tokens + c.refillRate * (t - b.lastRefill)
  {
  }

  /** Being turned down leaves no trace: the next pass does what it would have done had it been the first. */
  lemma WaitedForNothing(c: Config, b: Bucket, n: real, clock: nat -> real, i: nat)
    requires ValidConfig(c) && b.lastRefill <= clock(0) && Naps(c, clock) && TurnedDown(c, b, n, clock, i)
    ensures Attempt(c, Waited(c, b, n, clock, i), n, clock(i)) == Attempt(c, b, n, clock(i))
  {
    ClockRuns(c, clock, i);
    hide Naps, TurnedDown, Waited, Level;
    SinceTurnedDown(c, b, n, clock, i, clock(i));
  }

  lemma NothingYet(c: Config, b: Bucket, n: real, clock: nat -> real)
    ensures Waited(c, b, n, clock, 0) == b && TurnedDown(c, b, n, clock, 0)
  {
  }

  /** A pass that is turned down is not the k-th, and leaves the bucket for the next one. */
  lemma OnePassMore(c: Config, b: Bucket, n: real, clock: nat -> real, i: nat, k: nat)
    requires ValidConfig(c) && 0.0 <= b.tokens && n <= c.maxTokens && n <= k as real && i <= k
    requires b.lastRefill <= clock(0) && Naps(c, clock) && TurnedDown(c, b, n, clock, i)
    requires !Attempt(c, Waited(c, b, n, clock, i), n, clock(i)).1
    ensures i < k && TurnedDown(c, b, n, clock, i + 1)
    ensures Waited(c, b, n, clock, i + 1) == Attempt(c, Waited(c, b, n, clock, i), n, clock(i)).0
  {
    assert !GrantedAt(c, b, n, clock, i);
    if i == k {
      WaitingFills(c, b, n, clock, k);
    }
  }

  lemma TurnedDownFirst(c: Config, b: Bucket, n: real, clock: nat -> real, i: nat, j: nat)
    requires ValidConfig(c) && b.lastRefill <= clock(0) && Naps(c, clock) && TurnedDown(c, b, n, clock, i) && j < i
    requires n <= c.maxTokens
    ensures Inflow(c, b, clock(j)) < n
  {
    assert !GrantedAt(c, b, n, clock, j) && TurnedDown(c, b, n, clock, j);
    WaitedForNothing(c, b, n, clock, j);
    hide *;
    GrantedExactly(c, b, n, clock(j));
  }

  /** The pass at which a lone acquirer is granted its tokens is the first at which enough has come in. */
  lemma FirstEnough(c: Config, b: Bucket, n: real, clock: nat -> real, i: nat)
    requires ValidConfig(c) && 0.0 <= b.tokens && n <= c.maxTokens
    requires b.lastRefill <= clock(0) && Naps(c, clock) && TurnedDown(c, b, n, clock, i)
    requires Attempt(c, Waited(c, b, n, clock, i), n, clock(i)).1
    ensures n <= Inflow(c, b, clock(i)) && forall j: nat :: j < i ==> Inflow(c, b, clock(j)) < n
    ensures var tokens := Attempt(c, Waited(c, b, n, clock, i), n, clock(i)).0.tokens;
            tokens == Min(c.maxTokens, Inflow(c, b, clock(i))) - n && 0.0 <= tokens <= c.maxTokens - n
  {
    hide *;
    WaitedForNothing(c, b, n, clock, i);
    GrantedExactly(c, b, n, clock(i));
    StaysWithin(c, b, n, clock(i));
    forall j: nat | j < i ensures Inflow(c, b, clock(j)) < n {
      TurnedDownFirst(c, b, n, clock, i, j);
    }
  }

  lemma StaysWithin(c: Config, b: Bucket, n: real, now: real)
    ensures Attempt(c, b, n, now).1 ==> 0.0 <= Attempt(c, b, n, now).0.tokens <= c.maxTokens - n
  {
    hide Refilled;
  }

  lemma {:induction false} SinceTurnedDown(c: Config, b: Bucket, n: real, clock: nat -> real, i: nat, t: real)
    requires ValidConfig(c) && b.lastRefill <= clock(0) && Naps(c, clock) && TurnedDown(c, b, n, clock, i)
    requires i > 0 ==> clock(i - 1) <= t
    ensures Level(c, Waited(c, b, n, clock, i), t) == Level(c, b, t)
    decreases i
  {
    if i > 0 {
      assert !GrantedAt(c, b, n, clock, i - 1);
      ClockRuns(c, clock, i - 1);
      RefillComposes(c, Waited(c, b, n, clock, i - 1), clock(i - 1), t);
      SinceTurnedDown(c, b, n, clock, i - 1, t);
    }
  }

  lemma ClockRuns(c: Config, clock: nat -> real, i: nat)
    requires ValidConfig(c) && Naps(c, clock)
    ensures i > 0 ==> clock(i - 1) <= clock(i)
  {
    if i > 0 {
      assert clock(i - 1) + 1.0 / c.refillRate <= clock(i - 1 + 1);
    }
  }

  /** As long as it is turned down, a lone acquirer finds a token more at every pass. */
  lemma {:induction false} WaitingFills(c: Config, b: Bucket, n: real, clock: nat -> real, i: nat)
    requires ValidConfig(c) && 0.0 <= b.tokens && b.lastRefill <= clock(0) && Naps(c, clock)
    requires TurnedDown(c, b, n, clock, i)
    ensures var w := Waited(c, b, n, clock, i); Level(c, w, clock(i)) >= Min(c.maxTokens, i as real)
    ensures i > 0 ==> Waited(c, b, n, clock, i).lastRefill == clock(i - 1)
  {
    if i == 0 {
      RefillNeverDrains(c, b, clock(0));
    } else {
      WaitingFills(c, b, n, clock, i - 1);
      assert !GrantedAt(c, b, n, clock, i - 1);
      SleepRefillsOne(c, Waited(c, b, n, clock, i), clock(i), (i - 1) as real);
    }
  }

  /** A lone acquirer gets its tokens in the end exactly when it asks for no more than the capacity; for
      more it waits for ever. */
  lemma WaitEndsIffWithinCapacity(c: Config, b: Bucket, n: real, clock: nat -> real)
    requires ValidConfig(c) && 0.0 <= b.tokens && b.lastRefill <= clock(0) && Naps(c, clock)
    ensures (exists i: nat :: GrantedAt(c, b, n, clock, i)) <==> n <= c.maxTokens
  {
    if n <= c.maxTokens && !exists i: nat :: GrantedAt(c, b, n, clock, i) {
      var k := if n <= 0.0 then 0 else n.Floor + 1;
      WaitingFills(c, b, n, clock, k);
      assert GrantedAt(c, b, n, clock, k);
    }
  }

  // ---------------------------------------------------------------------------
  // Runs: attempts of any number of acquirers, and reads, in any interleaving
  // ---------------------------------------------------------------------------

  datatype Event = Read(now: real) | TryTake(n: real, now: real)

  function Grants(c: Config, b: Bucket, e: Event): bool
  {
    e.TryTake? && Attempt(c, b, e.n, e.now).1
  }

  function Step(c: Config, b: Bucket, e: Event): Bucket
  {
    match e
    case Read(now) => Refill(c, b, now)
    case TryTake(n, now) => Attempt(c, b, n, now).0
  }

  function After(c: Config, b: Bucket, events: seq<Event>): Bucket
    decreases |events|
  {
    if events == [] then b else After(c, Step(c, b, events[0]), events[1..])
  }

  /** The clock never runs backwards and nobody asks for a negative number of tokens. */
  predicate ValidRun(from: real, events: seq<Event>)
    decreases |events|
  {
    events == [] || (from <= events[0].now && (events[0].TryTake? ==> events[0].n >= 0.0)
      && ValidRun(events[0].now, events[1..]))
  }

  function Granted(c: Config, b: Bucket, events: seq<Event>): real
    decreases |events|
  {
    if events == [] then 0.0
    else (if Grants(c, b, events[0]) then events[0].n else 0.0) + Granted(c, Step(c, b, events[0]), events[1..])
  }

  function Decisions(c: Config, b: Bucket, events: seq<Event>): seq<bool>
    decreases |events|
  {
    if events == [] then [] else [Grants(c, b, events[0])] + Decisions(c, Step(c, b, events[0]), events[1..])
  }

  predicate ValidConfig(c: Config)
  {
    c.maxTokens >= 0.0 && c.refillRate > 0.0
  }

  lemma StepBounds(c: Config, b: Bucket, e: Event)
    requires ValidConfig(c) && 0.0 <= b.tokens <= c.maxTokens && ValidRun(b.lastRefill, [e])
    ensures 0.0 <= Step(c, b, e).tokens <= c.maxTokens && Step(c, b, e).lastRefill == e.now
    ensures (if Grants(c, b, e) then e.n else 0.0) + Step(c, b, e).tokens <= b.tokens + Refilled(c, b.lastRefill, e.now)
  {
    RefillNeverDrains(c, b, e.now);
    hide Refilled;
  }

  /** The bucket never holds less than nothing or more than its capacity. */
  lemma {:induction false} BucketWithinBounds(c: Config, b: Bucket, events: seq<Event>)
    requires ValidConfig(c) && 0.0 <= b.tokens <= c.maxTokens && ValidRun(b.lastRefill, events)
    ensures 0.0 <= After(c, b, events).tokens <= c.maxTokens
    decreases |events|
  {
    if events != [] {
      StepBounds(c, b, events[0]);
      BucketWithinBounds(c, Step(c, b, events[0]), events[1..]);
    }
  }

  /** What is granted comes out of the bucket and of the time that passed. */
  lemma {:induction false} GrantedFromBucket(c: Config, b: Bucket, events: seq<Event>, t: real)
    requires ValidConfig(c) && 0.0 <= b.tokens <= c.maxTokens && ValidRun(b.lastRefill, events)
    requires b.lastRefill <= t && (events != [] ==> events[|events| - 1].now <= t)
    ensures Granted(c, b, events) <= b.tokens + Refilled(c, b.lastRefill, t)
    decreases |events|
  {
    hide Refilled, Step, Grants;
    if events == [] {
      RefilledGrows(c, b.lastRefill, b.lastRefill, t);
    } else {
      var e, rest := events[0], events[1..];
      LastIsLatest(b.lastRefill, events);
      StepBounds(c, b, e);
      GrantedFromBucket(c, Step(c, b, e), rest, t);
      RefilledSplits(c, b.lastRefill, e.now, t);
    }
  }

  lemma {:induction false} LastIsLatest(from: real, events: seq<Event>)
    requires ValidRun(from, events) && events != []
    ensures from <= events[0].now <= events[|events| - 1].now
    decreases |events|
  {
    if |events| > 1 {
      LastIsLatest(events[0].now, events[1..]);
    }
  }

  lemma GrantedWithin(c: Config, start: Bucket, before: seq<Event>, during: seq<Event>, s: real, t: real)
    requires ValidConfig(c) && 0.0 <= start.tokens <= c.maxTokens && ValidRun(start.lastRefill, before)
    requires ValidRun(After(c, start, before).lastRefill, during)
    requires during != [] ==> s <= during[0].now && during[|during| - 1].now <= t
    requires s <= t
    ensures Granted(c, After(c, start, before), during) <= c.maxTokens + Refilled(c, s, t)
  {
    hide Refilled, Step, Grants;
    var b := After(c, start, before);
    BucketWithinBounds(c, start, before);
    if during != [] {
      var e, rest := during[0], during[1..];
      LastIsLatest(b.lastRefill, during);
      StepBounds(c, b, e);
      FirstGrantCapped(c, b, e);
      GrantedFromBucket(c, Step(c, b, e), rest, t);
      RefilledGrows(c, s, e.now, t);
    } else {
      RefilledGrows(c, s, s, t);
    }
  }

  lemma RefilledWritten(c: Config, s: real, t: real)
    ensures Refilled(c, s, t) == c.refillRate * (t - s)
  {
  }

  /** The rate bound. From any moment of any run on, the tokens granted to all acquirers together
      within [s, t] are at most the capacity plus what the refill rate brings in that time. */
  lemma GrantedInInterval(c: Config, start: Bucket, before: seq<Event>, during: seq<Event>, s: real, t: real)
    requires ValidConfig(c) && 0.0 <= start.tokens <= c.maxTokens && ValidRun(start.lastRefill, before)
    requires ValidRun(After(c, start, before).lastRefill, during)
    requires during != [] ==> s <= during[0].now && during[|during| - 1].now <= t
    requires s <= t
    ensures Granted(c, After(c, start, before), during) <= c.maxTokens + c.refillRate * (t - s)
  {
    hide *;
    GrantedWithin(c, start, before, during, s, t);
    RefilledWritten(c, s, t);
  }

  /** A request at t from a bucket last touched at s is granted exactly when the capacity and what has come in since
      allow it. */
  lemma GrantedIffEnough(c: Config, b: Bucket, n: real, t: real)
    ensures Grants(c, b, TryTake(n, t)) <==> n <= c.maxTokens && n <= b.tokens + c.refillRate * (t - b.lastRefill)
  {
    hide Attempt, Inflow;
    GrantedExactly(c, b, n, t);
    InflowWritten(c, b, t);
  }

  lemma FirstGrantCapped(c: Config, b: Bucket, e: Event)
    ensures (if Grants(c, b, e) then e.n else 0.0) + Step(c, b, e).tokens <= c.maxTokens
  {
  }

  // ---------------------------------------------------------------------------
  // Lazy refill is unobservable
  // ---------------------------------------------------------------------------

  /** Two buckets that hold the same at every time from `from` on. */
  ghost predicate SameLevels(c: Config, b1: Bucket, b2: Bucket, from: real)
  {
    forall t :: from <= t ==> Level(c, b1, t) == Level(c, b2, t)
  }

  lemma RefillComposes(c: Config, b: Bucket, now: real, t: real)
    requires c.refillRate >= 0.0 && now <= t
    ensures Level(c, Refill(c, b, now), t) == Level(c, b, t)
  {
    RefilledSplits(c, b.lastRefill, now, t);
    RefilledGrows(c, now, now, t);
  }

  lemma UngrantedIsInvisible(c: Config, b: Bucket, e: Event)
    requires c.refillRate >= 0.0 && !Grants(c, b, e)
    ensures SameLevels(c, Step(c, b, e), b, e.now)
  {
    forall t | e.now <= t ensures Level(c, Step(c, b, e), t) == Level(c, b, t) {
      RefillComposes(c, b, e.now, t);
    }
  }

  lemma SameStep(c: Config, b1: Bucket, b2: Bucket, from: real, e: Event)
    requires SameLevels(c, b1, b2, from) && from <= e.now
    ensures Grants(c, b1, e) == Grants(c, b2, e)
    ensures Step(c, b1, e) == Step(c, b2, e)
  {
    assert Level(c, b1, e.now) == Level(c, b2, e.now);
  }

  lemma {:induction false} SameDecisions(c: Config, b1: Bucket, b2: Bucket, from: real, events: seq<Event>)
    requires SameLevels(c, b1, b2, from) && ValidRun(from, events)
    ensures Decisions(c, b1, events) == Decisions(c, b2, events)
    decreases |events|
  {
    if events != [] {
      SameStep(c, b1, b2, from, events[0]);
    }
  }

  lemma {:induction false} DecisionsSplit(c: Config, b: Bucket, first: seq<Event>, second: seq<Event>)
    ensures Decisions(c, b, first + second) == Decisions(c, b, first) + Decisions(c, After(c, b, first), second)
    decreases |first|
  {
    if first == [] {
      assert first + second == second;
    } else {
      assert (first + second)[1..] == first[1..] + second;
      DecisionsSplit(c, Step(c, b, first[0]), first[1..], second);
    }
  }

  /** Putting a read, or an attempt that is turned down, anywhere into a run changes no decision. */
  lemma ReadsAreUnobservable(c: Config, b: Bucket, first: seq<Event>, extra: Event, second: seq<Event>)
    requires c.refillRate >= 0.0 && !Grants(c, After(c, b, first), extra) && ValidRun(extra.now, second)
    ensures Decisions(c, b, first + second) == Decisions(c, b, first) + Decisions(c, After(c, b, first), second)
    ensures Decisions(c, b, first + [extra] + second)
         == Decisions(c, b, first) + [false] + Decisions(c, After(c, b, first), second)
  {
    var mid := After(c, b, first);
    DecisionsSplit(c, b, first, second);
    assert first + [extra] + second == first + ([extra] + second);
    DecisionsSplit(c, b, first, [extra] + second);
    assert ([extra] + second)[1..] == second;
    UngrantedIsInvisible(c, mid, extra);
    SameDecisions(c, Step(c, mid, extra), mid, extra.now, second);
  }

  /** The granting events of a run. */
  function Effective(c: Config, b: Bucket, events: seq<Event>): seq<Event>
    decreases |events|
  {
    if events == [] then []
    else (if Grants(c, b, events[0]) then [events[0]] else []) + Effective(c, Step(c, b, events[0]), events[1..])
  }

  /** Leaving out every read and every refused attempt at once: the remaining attempts are all still granted,
      and the bucket ends up indistinguishable. */
  lemma {:induction false} EffectiveRunAgrees(c: Config, b: Bucket, b': Bucket, from: real, events: seq<Event>,
                                              end: real)
    requires c.refillRate >= 0.0 && SameLevels(c, b, b', from) && ValidRun(from, events)
    requires from <= end && (events != [] ==> events[|events| - 1].now <= end)
    ensures forall d :: d in Decisions(c, b', Effective(c, b, events)) ==> d
    ensures SameLevels(c, After(c, b, events), After(c, b', Effective(c, b, events)), end)
    decreases |events|
  {
    if events != [] {
      var e, rest := events[0], events[1..];
      var b1 := Step(c, b, e);
      LastIsLatest(from, events);
      if Grants(c, b, e) {
        SameStep(c, b, b', from, e);
        var tail := Effective(c, b1, rest);
        assert Effective(c, b, events) == [e] + tail;
        assert ([e] + tail)[1..] == tail;
        EffectiveRunAgrees(c, b1, b1, e.now, rest, end);
      } else {
        UngrantedIsInvisible(c, b, e);
        assert Effective(c, b, events) == Effective(c, b1, rest);
        EffectiveRunAgrees(c, b1, b', e.now, rest, end);
      }
    }
  }
}
