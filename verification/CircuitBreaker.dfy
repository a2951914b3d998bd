/** The circuit breaker. Admission and recording are atomic; the protected call runs between
    them without the lock, so completions of old calls can arrive in any state. */
module CircuitBreakers {
  import opened Prelude

  datatype CircuitState = CLOSED | OPEN | HALF_OPEN

  datatype Config = Config(failureThreshold: int, recoveryTimeout: real, halfOpenMaxCalls: int)

  datatype Breaker = Breaker(
    state: CircuitState,
    failureCount: int,
    successCount: int,
    lastFailureTime: real,
    halfOpenCalls: int)

  const FRESH := Breaker(CLOSED, 0, 0, 0.0, 0)

  function MaybeTransition(c: Config, b: Breaker, now: real): Breaker
  {
    if b.state == OPEN && now - b.lastFailureTime >= c.recoveryTimeout
    then b.(state := HALF_OPEN, halfOpenCalls := 0)
    else b
  }

  /** The breaker after a call asked for admission at `now`, and whether it was let through. */
  function Admit(c: Config, b: Breaker, now: real): (Breaker, bool)
  {
    var b' := MaybeTransition(c, b, now);
    match b'.state
    case OPEN => (b', false)
    case HALF_OPEN =>
      if b'.halfOpenCalls >= c.halfOpenMaxCalls then (b', false)
      else (b'.(halfOpenCalls := b'.halfOpenCalls + 1), true)
    case CLOSED => (b', true)
  }

  function RecordFailure(c: Config, b: Breaker, now: real): Breaker
  {
    b.(failureCount := b.failureCount + 1,
       successCount := 0,
       lastFailureTime := now,
       state := if b.failureCount + 1 >= c.failureThreshold then OPEN else b.state)
  }

  function RecordSuccess(b: Breaker): Breaker
  {
    if b.state == HALF_OPEN
    then Breaker(CLOSED, 0, b.successCount + 1, b.lastFailureTime, 0)
    else b.(successCount := b.successCount + 1)
  }

  class CircuitBreaker {
    const config: Config
    var state: CircuitState
    var failureCount: int
    var successCount: int
    var lastFailureTime: real
    var halfOpenCalls: int

    function Snapshot(): Breaker
      reads this
    {
      Breaker(state, failureCount, successCount, lastFailureTime, halfOpenCalls)
    }

    constructor (config: Config)
      ensures this.config == config && Snapshot() == FRESH
    {
      this.config := config;
      state, failureCount, successCount, lastFailureTime, halfOpenCalls := CLOSED, 0, 0, 0.0, 0;
    }

    /** The locked part before the protected call; false stands for CircuitOpenError. */
    method RequestAdmission(now: real) returns (admitted: bool)
      modifies this
      ensures (Snapshot(), admitted) == Admit(config, old(Snapshot()), now)
    {
      if state == OPEN {
        var elapsed := now - lastFailureTime;
        if elapsed >= config.recoveryTimeout {
          state := HALF_OPEN;
          halfOpenCalls := 0;
        }
      }
      if state == OPEN {
        return false;
      }
      if state == HALF_OPEN {
        if halfOpenCalls >= config.halfOpenMaxCalls {
          return false;
        }
        halfOpenCalls := halfOpenCalls + 1;
      }
      return true;
    }

    method NoteFailure(now: real)
      modifies this
      ensures Snapshot() == RecordFailure(config, old(Snapshot()), now)
    {
      failureCount := failureCount + 1;
      successCount := 0;
      lastFailureTime := now;
      if failureCount >= config.failureThreshold {
        state := OPEN;
      }
    }

    method NoteSuccess()
      modifies this
      ensures Snapshot() == RecordSuccess(old(Snapshot()))
    {
      successCount := successCount + 1;
      if state == HALF_OPEN {
        state := CLOSED;
        failureCount := 0;
        halfOpenCalls := 0;
      }
    }
  }

  // ---------------------------------------------------------------------------
  // Overlapping calls
  // ---------------------------------------------------------------------------

  datatype Event =
    | Call(id: nat, now: real)       // a caller asks for admission
    | Fail(id: nat, now: real)       // an admitted call raised
    | Succeed(id: nat, now: real)    // an admitted call returned

  /** How a call in flight was admitted: normally, or as a probe of the given half-open period. */
  datatype Admission = Regular | Probe(period: nat)

  datatype System = System(b: Breaker, inFlight: map<nat, Admission>, period: nat, clock: real)

  const START := System(FRESH, map[], 0, 0.0)

  predicate Enabled(s: System, e: Event)
  {
    e.now >= s.clock && if e.Call? then e.id !in s.inFlight else e.id in s.inFlight
  }

  predicate Admitted(c: Config, s: System, e: Event)
  {
    e.Call? && Admit(c, s.b, e.now).1
  }

  function Step(c: Config, s: System, e: Event): System
  {
    match e
    case Call(id, now) =>
      var (b, admitted) := Admit(c, s.b, now);
      var period := if s.b.state == OPEN && b.state == HALF_OPEN then s.period + 1 else s.period;
      var admission := if b.state == HALF_OPEN then Probe(period) else Regular;
      var inFlight := if admitted then s.inFlight[id := admission] else s.inFlight;
      System(b, inFlight, period, now)
    case Fail(id, now) =>
      System(RecordFailure(c, s.b, now), s.inFlight - {id}, s.period, now)
    case Succeed(id, now) =>
      System(RecordSuccess(s.b), s.inFlight - {id}, s.period, now)
  }

  function After(c: Config, s: System, events: seq<Event>): System
    decreases |events|
  {
    if events == [] then s else After(c, Step(c, s, events[0]), events[1..])
  }

  predicate ValidRun(c: Config, s: System, events: seq<Event>)
    decreases |events|
  {
    events == [] || (Enabled(s, events[0]) && ValidRun(c, Step(c, s, events[0]), events[1..]))
  }

  /** The probes of the current half-open period that have not completed. */
  function LiveProbes(s: System): set<nat>
  {
    set id | id in s.inFlight && s.inFlight[id] == Probe(s.period)
  }

  predicate ValidConfig(c: Config)
  {
    c.failureThreshold >= 1 && c.halfOpenMaxCalls >= 1
  }

  ghost predicate Invariant(c: Config, s: System)
  {
    && 0 <= s.b.failureCount
    && (s.b.state == CLOSED <==> s.b.failureCount < c.failureThreshold)
    && (s.b.state == HALF_OPEN ==> s.b.halfOpenCalls == |LiveProbes(s)| <= c.halfOpenMaxCalls)
    && (forall id :: id in s.inFlight && s.inFlight[id].Probe? ==> s.inFlight[id].period <= s.period)
  }

  lemma CallKeepsInvariant(c: Config, s: System, e: Event)
    requires ValidConfig(c) && Invariant(c, s) && Enabled(s, e) && e.Call?
    ensures Invariant(c, Step(c, s, e))
  {
    var s' := Step(c, s, e);
    if s'.b.state == HALF_OPEN {
      ProbesAfterCall(c, s, e);
    }
  }

  lemma ProbesAfterCall(c: Config, s: System, e: Event)
    requires Invariant(c, s) && Enabled(s, e) && e.Call? && Step(c, s, e).b.state == HALF_OPEN
    ensures var before := if s.b.state == OPEN then {} else LiveProbes(s);
            LiveProbes(Step(c, s, e)) == if Admitted(c, s, e) then before + {e.id} else before
  {
    if s.b.state == OPEN {
      assert forall id :: id in s.inFlight ==> s.inFlight[id] != Probe(s.period + 1);
    }
  }

  /** What every event keeps, in whatever state it arrives: CLOSED means fewer failures counted than
      the threshold, and a half-open breaker has counted exactly its live probes. */
  lemma StepKeepsInvariant(c: Config, s: System, e: Event)
    requires ValidConfig(c) && Invariant(c, s) && Enabled(s, e)
    ensures Invariant(c, Step(c, s, e))
  {
    if e.Call? {
      CallKeepsInvariant(c, s, e);
    }
  }

  lemma {:induction false} RunKeepsInvariant(c: Config, s: System, events: seq<Event>)
    requires ValidConfig(c) && Invariant(c, s) && ValidRun(c, s, events)
    ensures Invariant(c, After(c, s, events))
    decreases |events|
  {
    if events != [] {
      StepKeepsInvariant(c, s, events[0]);
      RunKeepsInvariant(c, Step(c, s, events[0]), events[1..]);
    }
  }

  /** After any run from a fresh breaker with overlapping calls: a half-open breaker that turns
      a caller away has a probe in flight, and whichever call completes next, in either way and
      however old it is, takes the breaker out of HALF_OPEN. */
  lemma NeverWedges(c: Config, events: seq<Event>, e: Event)
    requires ValidConfig(c) && ValidRun(c, START, events)
    requires var s := After(c, START, events); Enabled(s, e)
    ensures var s := After(c, START, events);
            && (s.b.state == CLOSED <==> s.b.failureCount < c.failureThreshold)
            && (s.b.state == CLOSED && e.Call? ==> Admitted(c, s, e))
            && (s.b.state == HALF_OPEN && e.Call? ==> (Admitted(c, s, e) <==> |LiveProbes(s)| < c.halfOpenMaxCalls))
            && (s.b.state == HALF_OPEN && e.Call? && !Admitted(c, s, e) ==> LiveProbes(s) != {})
            && (s.b.state == HALF_OPEN && e.Fail? ==> Step(c, s, e).b.state == OPEN)
            && (s.b.state == HALF_OPEN && e.Succeed? ==>
                  Step(c, s, e).b.state == CLOSED && Step(c, s, e).b.failureCount == 0)
            && (s.b.state == OPEN && e.Call? ==>
                (Admitted(c, s, e) <==> e.now - s.b.lastFailureTime >= c.recoveryTimeout))
  {
    RunKeepsInvariant(c, START, events);
    var s := After(c, START, events);
    if s.b.state == HALF_OPEN && e.Call? && !Admitted(c, s, e) {
      assert |LiveProbes(s)| >= 1;
    }
  }

  /** A half-open breaker is stuck exactly in one case (see StuckOnlyThen): its probe slots are used up and no
      call is in flight to give one back. Then it turns every caller away for the rest of every run. With a
      positive limit no run gets there (NeverWedges); without one, entering HALF_OPEN is enough. */
  lemma {:induction false} NoLiveProbeMeansWedged(c: Config, s: System, events: seq<Event>)
    requires s.b.state == HALF_OPEN && s.b.halfOpenCalls >= c.halfOpenMaxCalls && s.inFlight == map[]
    requires ValidRun(c, s, events)
    ensures After(c, s, events).b == s.b && After(c, s, events).inFlight == map[]
    ensures forall i :: 0 <= i < |events| ==> !Admitted(c, After(c, s, events[..i]), events[i])
    decreases |events|
  {
    if events != [] {
      var s' := Step(c, s, events[0]);
      assert s'.b == s.b;
      NoLiveProbeMeansWedged(c, s', events[1..]);
      AdmissionsShift(c, s, events);
    }
  }

  /** In every other half-open state the next event can be one that is admitted or that leaves HALF_OPEN. */
  lemma StuckOnlyThen(c: Config, s: System)
    requires s.b.state == HALF_OPEN && !(s.b.halfOpenCalls >= c.halfOpenMaxCalls && s.inFlight == map[])
    ensures exists e :: Enabled(s, e) && (Admitted(c, s, e) || Step(c, s, e).b.state != HALF_OPEN)
  {
    if s.inFlight == map[] {
      assert Enabled(s, Call(0, s.clock)) && Admitted(c, s, Call(0, s.clock));
    } else {
      var id := Pick(s.inFlight.Keys);
      assert Enabled(s, Succeed(id, s.clock)) && Step(c, s, Succeed(id, s.clock)).b.state == CLOSED;
    }
  }

  /** Looking up an admission inside a run, one event later. */
  lemma AdmissionsShift(c: Config, s: System, events: seq<Event>)
    requires events != []
    ensures After(c, s, events[..0]) == s
    ensures forall i :: 1 <= i < |events| ==>
              After(c, s, events[..i]) == After(c, Step(c, s, events[0]), events[1..][..i - 1])
  {
    forall i | 1 <= i < |events|
      ensures After(c, s, events[..i]) == After(c, Step(c, s, events[0]), events[1..][..i - 1])
    {
      assert events[..i][0] == events[0];
      assert events[..i][1..] == events[1..][..i - 1];
    }
  }

  // ---------------------------------------------------------------------------
  // Cool-down
  // ---------------------------------------------------------------------------

  /** While the breaker is OPEN from a failure at or after `since`, nothing is admitted before
      `since` plus the recovery timeout, whatever else completes in the meantime. */
  lemma {:induction false} NothingAdmittedWhileCooling(c: Config, s: System, events: seq<Event>, since: real)
    requires s.b.state == OPEN && s.b.lastFailureTime >= since && s.clock >= since
    requires s.b.failureCount >= c.failureThreshold && ValidRun(c, s, events)
    ensures forall i :: 0 <= i < |events| && events[i].now < since + c.recoveryTimeout ==>
              !Admitted(c, After(c, s, events[..i]), events[i])
    decreases |events|
  {
    if events != [] {
      AdmissionsShift(c, s, events);
      ClockMonotone(c, s, events);
      if events[0].now < since + c.recoveryTimeout {
        var s' := Step(c, s, events[0]);
        NothingAdmittedWhileCooling(c, s', events[1..], since);
        forall i | 1 <= i < |events| && events[i].now < since + c.recoveryTimeout
          ensures !Admitted(c, After(c, s, events[..i]), events[i])
        {
          assert events[1..][i - 1] == events[i];
        }
      }
    }
  }

  lemma {:induction false} ClockMonotone(c: Config, s: System, events: seq<Event>)
    requires ValidRun(c, s, events)
    ensures forall i :: 0 <= i < |events| ==> s.clock <= events[i].now
    ensures events != [] ==> forall i :: 0 <= i < |events| ==> events[0].now <= events[i].now
    decreases |events|
  {
    if events != [] {
      var rest := events[1..];
      ClockMonotone(c, Step(c, s, events[0]), rest);
      forall i | 0 <= i < |events| ensures events[0].now <= events[i].now {
        if i > 0 {
          assert events[i] == rest[i - 1];
        }
      }
    }
  }

  /** After a failure that leaves the breaker OPEN at time T, in any run that follows, no call is
      admitted before T plus the recovery timeout. */
  lemma CoolDown(c: Config, before: seq<Event>, failure: Event, events: seq<Event>)
    requires ValidConfig(c) && ValidRun(c, START, before) && failure.Fail?
    requires Enabled(After(c, START, before), failure)
    requires var s := Step(c, After(c, START, before), failure); s.b.state == OPEN && ValidRun(c, s, events)
    ensures var s := Step(c, After(c, START, before), failure);
            forall i :: 0 <= i < |events| && events[i].now < failure.now + c.recoveryTimeout ==>
              !Admitted(c, After(c, s, events[..i]), events[i])
  {
    RunKeepsInvariant(c, START, before);
    var s := Step(c, After(c, START, before), failure);
    StepKeepsInvariant(c, After(c, START, before), failure);
    NothingAdmittedWhileCooling(c, s, events, failure.now);
  }

  /** When it is over: a call made when nothing else has happened since a failure at time T that left the breaker
      OPEN is admitted exactly from T plus the recovery timeout on. */
  lemma ReopensExactly(c: Config, before: seq<Event>, failure: Event, call: Event)
    requires ValidConfig(c) && ValidRun(c, START, before) && failure.Fail? && call.Call?
    requires Enabled(After(c, START, before), failure)
    requires var s := Step(c, After(c, START, before), failure); s.b.state == OPEN && Enabled(s, call)
    ensures var s := Step(c, After(c, START, before), failure);
            Admitted(c, s, call) <==> call.now >= failure.now + c.recoveryTimeout
  {
    RunKeepsInvariant(c, START, before);
  }

  // ---------------------------------------------------------------------------
  // What is counted
  // ---------------------------------------------------------------------------

  function Failures(events: seq<Event>): nat
  {
    if events == [] then 0 else Failures(events[..|events| - 1]) + if events[|events| - 1].Fail? then 1 else 0
  }

  lemma {:induction false} AfterSnoc(c: Config, s: System, events: seq<Event>, e: Event)
    ensures After(c, s, events + [e]) == Step(c, After(c, s, events), e)
    ensures ValidRun(c, s, events + [e]) ==> ValidRun(c, s, events)
    decreases |events|
  {
    if events != [] {
      assert (events + [e])[1..] == events[1..] + [e];
      AfterSnoc(c, Step(c, s, events[0]), events[1..], e);
    } else {
      assert [] + [e] == [e];
    }
  }

  /** A closed breaker counts every failure since it closed and forgets none on success: it stays
      CLOSED exactly while fewer failures in all than the threshold have arrived. The documented
      "consecutive failures" is not what is counted. */
  lemma {:induction false} ClosedCountsAllFailures(c: Config, s: System, events: seq<Event>)
    requires s.b.state == CLOSED && s.b.failureCount < c.failureThreshold && ValidRun(c, s, events)
    ensures (forall i :: 0 <= i <= |events| ==> After(c, s, events[..i]).b.state == CLOSED)
            <==> s.b.failureCount + Failures(events) < c.failureThreshold
    ensures s.b.failureCount + Failures(events) < c.failureThreshold ==>
              After(c, s, events).b.failureCount == s.b.failureCount + Failures(events)
  {
    assert events[..|events|] == events;
    if events != [] {
      var front, last := events[..|events| - 1], events[|events| - 1];
      assert events == front + [last];
      AfterSnoc(c, s, front, last);
      ClosedCountsAllFailures(c, s, front);
      forall i | 0 <= i <= |front| ensures front[..i] == events[..i] {}
      assert After(c, s, events) == Step(c, After(c, s, front), last);
    }
  }

  /** Failure, success, failure: never two failures in a row, yet a threshold of two opens the breaker. */
  lemma NotConsecutive()
    ensures var c := Config(2, 30.0, 1);
            var run := [Call(0, 0.0), Fail(0, 1.0), Call(1, 2.0), Succeed(1, 3.0), Call(2, 4.0), Fail(2, 5.0)];
            ValidRun(c, START, run) && After(c, START, run).b.state == OPEN
  {
  }
}
