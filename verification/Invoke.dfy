/** One invocation of a task function: retries around the circuit breaker. */
module Invocations {
  import opened Retry
  import opened CircuitBreakers

  /** What other callers of the same breaker do while this one is suspended. */
  datatype OtherUse = OtherCall(now: real) | OtherFailure(now: real) | OtherSuccess

  datatype CallError<+E> = CircuitOpenError | FunctionError(error: E)

  /** What an invocation meets: `func(k)` is what the k-th call of the function does; before the i-th attempt
      and during its call other callers do `before(i)` and `during(i)` to the breaker; the attempt asks for
      admission at `asked(i)`, and what its call came to is recorded at `recorded(i)`. */
  datatype Surroundings<V, E> = Surroundings(
    func: nat -> Outcome<V, E>,
    before: nat -> seq<OtherUse>,
    during: nat -> seq<OtherUse>,
    asked: nat -> real,
    recorded: nat -> real)

  /** How far an invocation has got: the breaker, and how often the function has been called. */
  datatype Standing = Standing(b: Breaker, calls: nat)

  function Interfere(c: Config, b: Breaker, uses: seq<OtherUse>): Breaker
    decreases |uses|
  {
    if uses == [] then b
    else
      var b' := match uses[0]
                case OtherCall(now) => Admit(c, b, now).0
                case OtherFailure(now) => RecordFailure(c, b, now)
                case OtherSuccess => RecordSuccess(b);
      Interfere(c, b', uses[1..])
  }

  method LetOthersRun(cb: CircuitBreaker, uses: seq<OtherUse>)
    modifies cb
    ensures cb.Snapshot() == Interfere(cb.config, old(cb.Snapshot()), uses)
  {
    var i := 0;
    while i < |uses|
      invariant 0 <= i <= |uses|
      invariant Interfere(cb.config, cb.Snapshot(), uses[i..]) == Interfere(cb.config, old(cb.Snapshot()), uses)
    {
      assert uses[i..][1..] == uses[i + 1..];
      match uses[i] {
        case OtherCall(now) => var _ := cb.RequestAdmission(now);
        case OtherFailure(now) => cb.NoteFailure(now);
        case OtherSuccess => cb.NoteSuccess();
      }
      i := i + 1;
    }
  }

  function FunctionOutcome<V, E>(o: Outcome<V, E>): Outcome<V, CallError<E>>
  {
    match o
    case Returned(v) => Returned(v)
    case Raised(e) => Raised(FunctionError(e))
  }

  function Record<V, E>(c: Config, b: Breaker, result: Outcome<V, E>, now: real): Breaker
  {
    match result
    case Returned(_) => RecordSuccess(b)
    case Raised(_) => RecordFailure(c, b, now)
  }

  /** The breaker's answer when the i-th attempt asks for admission. */
  function Asked<V, E>(c: Config, b: Breaker, env: Surroundings<V, E>, i: nat): (Breaker, bool)
  {
    Admit(c, Interfere(c, b, env.before(i)), env.asked(i))
  }

  /** The i-th attempt: turned away by the breaker, or one more call of the function whose outcome the
      breaker, by then perhaps changed by others, is told. */
  function Attempted<V, E>(c: Config, s: Standing, env: Surroundings<V, E>, i: nat): Standing
  {
    var (b, admitted) := Asked(c, s.b, env, i);
    if !admitted then Standing(b, s.calls)
    else Standing(Record(c, Interfere(c, b, env.during(i)), env.func(s.calls), env.recorded(i)), s.calls + 1)
  }

  /** Where an invocation that starts with the given breaker stands after n attempts. */
  function AfterAttempts<V, E>(c: Config, b: Breaker, env: Surroundings<V, E>, n: nat): Standing
  {
    if n == 0 then Standing(b, 0) else Attempted(c, AfterAttempts(c, b, env, n - 1), env, n - 1)
  }

  // ---------------------------------------------------------------------------
  // The breaker's own events
  // ---------------------------------------------------------------------------

  /** The events that others' uses are to the breaker; only the caller itself goes by the number 1. */
  function OthersEvents(uses: seq<OtherUse>): seq<Event>
  {
    if uses == [] then []
    else
      OthersEvents(uses[..|uses| - 1])
      + [match uses[|uses| - 1]
         case OtherCall(now) => Call(0, now)
         case OtherFailure(now) => Fail(0, now)
         case OtherSuccess => Succeed(0, 0.0)]
  }

  /** The breaker as others' runs and this one's leave it: after the given events from the given breaker. */
  function BreakerAfter(c: Config, b: Breaker, events: seq<Event>): Breaker
  {
    After(c, System(b, map[], 0, 0.0), events).b
  }

  /** The events of an invocation's first n attempts, and how often the function is called in them. An attempt is a
      Call and, if that is admitted, a Succeed when the function returns and a Fail when it raises. */
  function Trace<V, E>(c: Config, b: Breaker, env: Surroundings<V, E>, n: nat): (seq<Event>, nat)
  {
    if n == 0 then ([], 0)
    else
      var i := n - 1;
      var (events, calls) := Trace(c, b, env, i);
      var asking := events + OthersEvents(env.before(i));
      var call := Call(1, env.asked(i));
      if !Admitted(c, After(c, System(b, map[], 0, 0.0), asking), call) then (asking + [call], calls)
      else
        var completion := match env.func(calls)
                          case Returned(_) => Succeed(1, env.recorded(i))
                          case Raised(_) => Fail(1, env.recorded(i));
        (asking + [call] + OthersEvents(env.during(i)) + [completion], calls + 1)
  }

  lemma {:induction false} AfterJoined(c: Config, s: System, first: seq<Event>, second: seq<Event>)
    ensures After(c, s, first + second) == After(c, After(c, s, first), second)
    decreases |first|
  {
    hide Step;
    if first == [] {
      assert first + second == second;
    } else {
      assert (first + second)[1..] == first[1..] + second;
      AfterJoined(c, Step(c, s, first[0]), first[1..], second);
    }
  }

  lemma AfterOne(c: Config, s: System, e: Event)
    ensures After(c, s, [e]) == Step(c, s, e)
  {
    assert [e][1..] == [];
  }

  lemma InterfereSnoc(c: Config, b: Breaker, uses: seq<OtherUse>, use: OtherUse)
    ensures Interfere(c, b, uses + [use]) == Interfere(c, Interfere(c, b, uses), [use])
    decreases |uses|
  {
    hide Admit;
    if uses == [] {
      assert [] + [use] == [use];
    } else {
      assert (uses + [use])[1..] == uses[1..] + [use];
      var b' := match uses[0]
                case OtherCall(now) => Admit(c, b, now).0
                case OtherFailure(now) => RecordFailure(c, b, now)
                case OtherSuccess => RecordSuccess(b);
      InterfereSnoc(c, b', uses[1..], use);
    }
  }

  /** Others' uses do to the breaker what their events do. */
  lemma {:induction false} OthersAreEvents(c: Config, s: System, uses: seq<OtherUse>)
    ensures After(c, s, OthersEvents(uses)).b == Interfere(c, s.b, uses)
    decreases |uses|
  {
    if uses != [] {
      var front, use := uses[..|uses| - 1], uses[|uses| - 1];
      OthersAreEvents(c, s, front);
      InterfereSnoc(c, s.b, front, use);
      assert uses == front + [use];
      var e := match use
               case OtherCall(now) => Call(0, now)
               case OtherFailure(now) => Fail(0, now)
               case OtherSuccess => Succeed(0, 0.0);
      AfterJoined(c, s, OthersEvents(front), [e]);
      AfterOne(c, After(c, s, OthersEvents(front)), e);
      OneUse(c, After(c, s, OthersEvents(front)), use, e);
    }
  }

  lemma OneUse(c: Config, s: System, use: OtherUse, e: Event)
    requires e == match use
                  case OtherCall(now) => Call(0, now)
                  case OtherFailure(now) => Fail(0, now)
                  case OtherSuccess => Succeed(0, 0.0)
    ensures Step(c, s, e).b == Interfere(c, s.b, [use])
  {
    assert [use][1..] == [];
  }

  /** One attempt does to the breaker what its events do. */
  lemma AttemptIsEvents<V, E>(c: Config, s: System, env: Surroundings<V, E>, i: nat, calls: nat)
    ensures var asking := After(c, s, OthersEvents(env.before(i)));
            var call := Call(1, env.asked(i));
            var completion := match env.func(calls)
                              case Returned(_) => Succeed(1, env.recorded(i))
                              case Raised(_) => Fail(1, env.recorded(i));
            var after := if Admitted(c, asking, call)
                         then Step(c, After(c, Step(c, asking, call), OthersEvents(env.during(i))), completion)
                         else Step(c, asking, call);
            Attempted(c, Standing(s.b, calls), env, i)
            == Standing(after.b, if Admitted(c, asking, call) then calls + 1 else calls)
  {
    var asking := After(c, s, OthersEvents(env.before(i)));
    OthersAreEvents(c, s, env.before(i));
    OthersAreEvents(c, Step(c, asking, Call(1, env.asked(i))), env.during(i));
    hide Interfere, After, OthersEvents, Admit;
  }

  /** An invocation is a run of the breaker: it leaves the breaker as the events of its attempts, among those of the
      other callers, do. */
  lemma {:induction false} InvocationIsRun<V, E>(c: Config, b: Breaker, env: Surroundings<V, E>, n: nat)
    ensures AfterAttempts(c, b, env, n)
         == Standing(BreakerAfter(c, b, Trace(c, b, env, n).0), Trace(c, b, env, n).1)
  {
    hide *;
    if n > 0 {
      InvocationIsRun(c, b, env, n - 1);
      NextAttempt(c, b, env, n - 1);
    } else {
      NoAttempt(c, b, env);
    }
  }

  lemma NoAttempt<V, E>(c: Config, b: Breaker, env: Surroundings<V, E>)
    ensures AfterAttempts(c, b, env, 0) == Standing(BreakerAfter(c, b, Trace(c, b, env, 0).0), Trace(c, b, env, 0).1)
  {
  }

  lemma NextAttempt<V, E>(c: Config, b: Breaker, env: Surroundings<V, E>, i: nat)
    requires AfterAttempts(c, b, env, i) == Standing(BreakerAfter(c, b, Trace(c, b, env, i).0), Trace(c, b, env, i).1)
    ensures AfterAttempts(c, b, env, i + 1)
         == Standing(BreakerAfter(c, b, Trace(c, b, env, i + 1).0), Trace(c, b, env, i + 1).1)
  {
    var s := After(c, System(b, map[], 0, 0.0), Trace(c, b, env, i).0);
    TraceExtends(c, b, env, i);
    AttemptIsEvents(c, s, env, i, Trace(c, b, env, i).1);
    hide Trace, After, Attempted, Step, Admitted, OthersEvents;
  }

  lemma TraceExtends<V, E>(c: Config, b: Breaker, env: Surroundings<V, E>, i: nat)
    ensures var (events, calls) := Trace(c, b, env, i);
            var s := After(c, System(b, map[], 0, 0.0), events);
            var asking := After(c, s, OthersEvents(env.before(i)));
            var call := Call(1, env.asked(i));
            var completion := match env.func(calls)
                              case Returned(_) => Succeed(1, env.recorded(i))
                              case Raised(_) => Fail(1, env.recorded(i));
            var after := if Admitted(c, asking, call)
                         then Step(c, After(c, Step(c, asking, call), OthersEvents(env.during(i))), completion)
                         else Step(c, asking, call);
            && After(c, System(b, map[], 0, 0.0), Trace(c, b, env, i + 1).0) == after
            && Trace(c, b, env, i + 1).1 == if Admitted(c, asking, call) then calls + 1 else calls
  {
    var start := System(b, map[], 0, 0.0);
    var (events, calls) := Trace(c, b, env, i);
    var before, during, call := OthersEvents(env.before(i)), OthersEvents(env.during(i)), Call(1, env.asked(i));
    var completion := match env.func(calls)
                      case Returned(_) => Succeed(1, env.recorded(i))
                      case Raised(_) => Fail(1, env.recorded(i));
    hide After, Step, Admitted, OthersEvents;
    AfterJoined(c, start, events, before);
    AfterJoined(c, start, events + before, [call]);
    AfterOne(c, After(c, start, events + before), call);
    AfterJoined(c, start, events + before + [call], during);
    AfterJoined(c, start, events + before + [call] + during, [completion]);
    AfterOne(c, After(c, start, events + before + [call] + during), completion);
  }

  // ---------------------------------------------------------------------------
  // Invocations
  // ---------------------------------------------------------------------------

  /** What the i-th attempt comes to, as seen by the retry loop: a rejection exactly when the breaker, in the
      state that all earlier attempts and all other callers have left it in, refuses admission. */
  function AttemptOutcome<V, E>(c: Config, b: Breaker, env: Surroundings<V, E>, i: nat): Outcome<V, CallError<E>>
  {
    OutcomeFrom(c, AfterAttempts(c, b, env, i), env, i)
  }

  function OutcomeFrom<V, E>(c: Config, s: Standing, env: Surroundings<V, E>, i: nat): Outcome<V, CallError<E>>
  {
    if Asked(c, s.b, env, i).1 then FunctionOutcome(env.func(s.calls)) else Raised(CircuitOpenError)
  }

  /** How many of the first n attempts the breaker turns away. */
  function Rejections<V, E>(c: Config, b: Breaker, env: Surroundings<V, E>, n: nat): nat
  {
    if n == 0 then 0
    else Rejections(c, b, env, n - 1) + if AttemptOutcome(c, b, env, n - 1) == Raised(CircuitOpenError) then 1 else 0
  }

  /** Conservation: every attempt is one call of the function or one rejection. */
  lemma {:induction false} CallsAndRejections<V, E>(c: Config, b: Breaker, env: Surroundings<V, E>, n: nat)
    ensures AfterAttempts(c, b, env, n).calls + Rejections(c, b, env, n) == n
  {
    if n > 0 {
      CallsAndRejections(c, b, env, n - 1);
      hide Admit, Interfere, Record;
    }
  }

  lemma Undisturbed(c: Config, b: Breaker)
    ensures Interfere(c, b, []) == b
  {
  }

  /** One attempt: asks the breaker, calls the function if let through, and records what the call came to. */
  method CallThrough<V, E>(cb: CircuitBreaker, env: Surroundings<V, E>, i: nat, callsBefore: nat)
    returns (outcome: Outcome<V, CallError<E>>, calls: nat)
    modifies cb
    ensures Standing(cb.Snapshot(), calls) == Attempted(cb.config, Standing(old(cb.Snapshot()), callsBefore), env, i)
    ensures outcome == OutcomeFrom(cb.config, Standing(old(cb.Snapshot()), callsBefore), env, i)
    ensures callsBefore <= calls <= callsBefore + 1
    ensures outcome.Returned? && env.during(i) == [] ==> cb.state == CLOSED
    ensures outcome == if calls == callsBefore then Raised(CircuitOpenError) else FunctionOutcome(env.func(callsBefore))
    ensures env.before(i) == env.during(i) == [] ==>
              && (calls == callsBefore + 1 <==>
                    match old(cb.state)
                    case CLOSED => true
                    case OPEN => env.asked(i) >= old(cb.lastFailureTime) + cb.config.recoveryTimeout
                                 && 0 < cb.config.halfOpenMaxCalls
                    case HALF_OPEN => old(cb.halfOpenCalls) < cb.config.halfOpenMaxCalls)
              && (calls == callsBefore ==> cb.failureCount == old(cb.failureCount) && cb.state != CLOSED)
              && (calls > callsBefore && env.func(callsBefore).Returned? ==>
                    && cb.state == CLOSED
                    && cb.failureCount == if old(cb.state) == CLOSED then old(cb.failureCount) else 0)
              && (calls > callsBefore && env.func(callsBefore).Raised? ==>
                    && cb.failureCount == old(cb.failureCount) + 1 && cb.lastFailureTime == env.recorded(i)
                    && (cb.failureCount >= cb.config.failureThreshold ==> cb.state == OPEN)
                    && (cb.failureCount < cb.config.failureThreshold ==>
                          (cb.state == CLOSED <==> old(cb.state) == CLOSED)))
  {
    hide Interfere;
    Undisturbed(cb.config, cb.Snapshot());
    LetOthersRun(cb, env.before(i));
    var admitted := cb.RequestAdmission(env.asked(i));
    if !admitted {
      return Raised(CircuitOpenError), callsBefore;
    }
    var result := env.func(callsBefore);
    Undisturbed(cb.config, cb.Snapshot());
    LetOthersRun(cb, env.during(i));
    RecordOutcome(cb, result, env.recorded(i));
    return FunctionOutcome(result), callsBefore + 1;
  }

  /** Attempts through the breaker, which starts as the method finds it: the retry law holds of the attempts'
      outcomes, and the breaker ends where the attempts and the other callers together take it. */
  method InvokeThroughBreaker<V, E>(cb: CircuitBreaker, env: Surroundings<V, E>, policy: RetryPolicy,
                                    jitterFactor: nat -> real)
    returns (r: RetryResult<V, CallError<E>>, attempts: nat, calls: nat, delays: seq<real>, slept: real)
    requires forall i :: 0.5 <= jitterFactor(i) <= 1.5
    modifies cb
    ensures EndsAfter((i: nat) => AttemptOutcome(cb.config, old(cb.Snapshot()), env, i), policy.maxRetries, r, attempts)
    ensures Sleeps(policy, jitterFactor, attempts, delays, slept)
    ensures Standing(cb.Snapshot(), calls) == AfterAttempts(cb.config, old(cb.Snapshot()), env, attempts)
    ensures var (events, called) := Trace(cb.config, old(cb.Snapshot()), env, attempts);
            cb.Snapshot() == BreakerAfter(cb.config, old(cb.Snapshot()), events) && calls == called
    ensures attempts == 1 && r.Done? && env.before(0) == env.during(0) == [] ==>
              cb.state == CLOSED && cb.failureCount == if old(cb.state) == CLOSED then old(cb.failureCount) else 0
    ensures r.Done? && env.during(attempts - 1) == [] ==> cb.state == CLOSED
    ensures calls + Rejections(cb.config, old(cb.Snapshot()), env, attempts) == attempts
    ensures LoneAndFailing(cb.config, old(cb.Snapshot()), env, policy.maxRetries + 1) ==>
              calls == AtMost(policy.maxRetries + 1, cb.config.failureThreshold - old(cb.Snapshot()).failureCount)
  {
    hide Interfere, Admit, Record, LoneAndFailing, OutcomeFrom, Attempted, Rejections, Sleeps, Pause, RealSum, Trace,
      BreakerAfter;
    ghost var c, start := cb.config, cb.Snapshot();
    var maxRetries := policy.maxRetries;
    r, attempts, calls, delays, slept := NoAttemptMade, 0, 0, [], 0.0;
    NoSleep(policy, jitterFactor);
    CallsAndRejections(c, start, env, 0);
    InvocationIsRun(c, start, env, 0);
    FailingCapped(c, start, env, maxRetries + 1, 0);
    var limit := if maxRetries < 0 then 0 else maxRetries + 1;
    for attempt := 0 to limit
      invariant attempts == attempt
      invariant forall i: nat :: i < attempt ==> AttemptOutcome(c, start, env, i).Raised?
      invariant Standing(cb.Snapshot(), calls) == AfterAttempts(c, start, env, attempt)
      invariant Slept(policy, jitterFactor, attempt, delays, slept)
      invariant attempt > 0 ==> attempt <= maxRetries
    {
      attempts := attempt + 1;
      CallsAndRejections(c, start, env, attempts);
      InvocationIsRun(c, start, env, attempts);
      FailingCapped(c, start, env, maxRetries + 1, attempts);
      SleepsBounded(policy, jitterFactor, attempt, delays, slept);
      var outcome: Outcome<V, CallError<E>>;
      outcome, calls := CallThrough(cb, env, attempt, calls);
      assert outcome == AttemptOutcome(c, start, env, attempt);
      if outcome.Returned? {
        return Done(outcome.value), attempts, calls, delays, slept;
      }
      if attempt == maxRetries {
        return Reraised(outcome.error), attempts, calls, delays, slept;
      }
      var delay := Pause(policy, attempt, jitterFactor(attempt));
      SleepOnce(policy, jitterFactor, attempt, delays, slept);
      delays, slept := delays + [delay], slept + delay;
    }
  }

  method RecordOutcome<V, E>(cb: CircuitBreaker, result: Outcome<V, E>, now: real)
    modifies cb
    ensures cb.Snapshot() == Record(cb.config, old(cb.Snapshot()), result, now)
  {
    if result.Raised? {
      cb.NoteFailure(now);
    } else {
      cb.NoteSuccess();
    }
  }

  // ---------------------------------------------------------------------------
  // A lone caller of a function that keeps failing
  // ---------------------------------------------------------------------------

  function AtMost(n: int, bound: int): int
  {
    if n <= bound then n else bound
  }

  /** Nobody else uses the closed breaker, every call raises, and n attempts are over before the cool-down
      of the first failure is. */
  ghost predicate LoneAndFailing<V, E>(c: Config, b: Breaker, env: Surroundings<V, E>, n: int)
  {
    && b.state == CLOSED && b.failureCount < c.failureThreshold && 0 <= n
    && (forall i :: env.before(i) == env.during(i) == [])
    && (forall k :: env.func(k).Raised?)
    && (forall i, j :: 0 <= i <= j < n ==> env.recorded(i) <= env.recorded(j))
    && (forall i, j :: 0 <= i < j < n ==> env.asked(j) < env.recorded(i) + c.recoveryTimeout)
  }

  lemma LoneAttempt<V, E>(c: Config, s: Standing, env: Surroundings<V, E>, i: nat)
    requires env.before(i) == env.during(i) == [] && env.func(s.calls).Raised?
    ensures s.b.state == CLOSED ==>
              Attempted(c, s, env, i) == Standing(RecordFailure(c, s.b, env.recorded(i)), s.calls + 1)
    ensures s.b.state == OPEN && env.asked(i) < s.b.lastFailureTime + c.recoveryTimeout ==>
              Attempted(c, s, env, i) == s
  {
  }

  /** A closed breaker lets each of the failing calls through until the threshold is reached, and none after. */
  lemma {:induction false} BreakerCapsRetries<V, E>(c: Config, b: Breaker, env: Surroundings<V, E>, n: nat, k: nat)
    requires LoneAndFailing(c, b, env, n) && k <= n
    ensures var s := AfterAttempts(c, b, env, k);
            && s.calls == AtMost(k, c.failureThreshold - b.failureCount)
            && s.b.failureCount == b.failureCount + s.calls
            && (s.b.state == CLOSED <==> s.calls < c.failureThreshold - b.failureCount) && s.b.state != HALF_OPEN
            && (s.calls > 0 ==> s.b.lastFailureTime == env.recorded(s.calls - 1))
  {
    if k > 0 {
      BreakerCapsRetries(c, b, env, n, k - 1);
      var s := AfterAttempts(c, b, env, k - 1);
      assert env.before(k - 1) == env.during(k - 1) == [] && env.func(s.calls).Raised?;
      hide Attempted;
      LoneAttempt(c, s, env, k - 1);
    }
  }

  lemma FailingCapped<V, E>(c: Config, b: Breaker, env: Surroundings<V, E>, n: int, attempts: nat)
    ensures LoneAndFailing(c, b, env, n) && attempts <= n ==>
              AfterAttempts(c, b, env, attempts).calls == AtMost(attempts, c.failureThreshold - b.failureCount)
    ensures LoneAndFailing(c, b, env, n) ==>
              0 <= n && forall i: nat :: i < n ==> AttemptOutcome(c, b, env, i).Raised?
  {
    if LoneAndFailing(c, b, env, n) {
      if attempts <= n {
        BreakerCapsRetries(c, b, env, n, attempts);
      }
      hide Asked, AfterAttempts;
      assert forall k :: env.func(k).Raised?;
    }
  }
}
