/** The request limiter in front of the API: per client, at most `requestsPerMinute` requests in
    any minute, decided on a history that is pruned as it is read. */
module SlidingWindows {
  import opened Prelude

  const WINDOW := 60.0

  datatype Request = Request(path: string, client: Option<Name>, now: real)

  datatype Decision = Exempted | Accepted | Rejected

  type History = map<Name, seq<real>>

  predicate Exempt(path: string)
  {
    path == "/health" || path == "/metrics"
  }

  function ClientKey(r: Request): Name
  {
    match r.client
    case Some(host) => host
    case None => Name("unknown")
  }

  /** The entries less than a minute old at `now`. */
  function Recent(times: seq<real>, now: real): seq<real>
  {
    if times == [] then []
    else (if now - times[0] < WINDOW then [times[0]] else []) + Recent(times[1..], now)
  }

  function Entries(h: History, client: Name): seq<real>
  {
    if client in h then h[client] else []
  }

  /** One request: the table afterwards and what became of the request. */
  function Handle(limit: int, requests: History, r: Request): (History, Decision)
  {
    if Exempt(r.path) then (requests, Exempted)
    else
      var client := ClientKey(r);
      var pruned := if client in requests then requests[client := Recent(requests[client], r.now)] else requests;
      if client in pruned && |pruned[client]| >= limit then (pruned, Rejected)
      else (pruned[client := Entries(pruned, client) + [r.now]], Accepted)
  }

  class RateLimitMiddleware {
    const requestsPerMinute: int
    var requests: map<Name, seq<real>>

    constructor (requestsPerMinute: int)
      ensures this.requestsPerMinute == requestsPerMinute && requests == map[]
    {
      this.requestsPerMinute := requestsPerMinute;
      requests := map[];
    }

    method Dispatch(r: Request) returns (d: Decision)
      modifies this
      ensures (requests, d) == Handle(requestsPerMinute, old(requests), r)
      ensures d == Exempted <==> r.path == "/health" || r.path == "/metrics"
    {
      hide ClientKey, Recent;
      if Exempt(r.path) {
        return Exempted;
      }
      var clientIp := ClientKey(r);
      if clientIp in requests {
        requests := requests[clientIp := Recent(requests[clientIp], r.now)];
      }
      if clientIp in requests {
        if |requests[clientIp]| >= requestsPerMinute {
          return Rejected;
        }
      }
      ghost var pruned := requests;
      if clientIp !in requests {
        requests := requests[clientIp := []];
      }
      assert requests[clientIp] == Entries(pruned, clientIp);
      assert requests[clientIp := requests[clientIp] + [r.now]]
          == pruned[clientIp := Entries(pruned, clientIp) + [r.now]];
      requests := requests[clientIp := requests[clientIp] + [r.now]];
      return Accepted;
    }
  }

  // ---------------------------------------------------------------------------
  // The reference: remember every accepted request for ever
  // ---------------------------------------------------------------------------

  function Judge(limit: int, accepted: History, r: Request): (History, Decision)
  {
    if Exempt(r.path) then (accepted, Exempted)
    else
      var client := ClientKey(r);
      var entries := Entries(accepted, client);
      if |Recent(entries, r.now)| >= limit then (accepted, Rejected)
      else (accepted[client := entries + [r.now]], Accepted)
  }

  function HandleAll(limit: int, requests: History, run: seq<Request>): (decisions: seq<Decision>)
    ensures |decisions| == |run|
    decreases |run|
  {
    if run == [] then []
    else var (next, d) := Handle(limit, requests, run[0]); [d] + HandleAll(limit, next, run[1..])
  }

  function JudgeAll(limit: int, accepted: History, run: seq<Request>): seq<Decision>
    decreases |run|
  {
    if run == [] then []
    else var (next, d) := Judge(limit, accepted, run[0]); [d] + JudgeAll(limit, next, run[1..])
  }

  function AcceptedBy(limit: int, accepted: History, run: seq<Request>): History
    decreases |run|
  {
    if run == [] then accepted else AcceptedBy(limit, Judge(limit, accepted, run[0]).0, run[1..])
  }

  predicate Chronological(from: real, run: seq<Request>)
    decreases |run|
  {
    run == [] || (from <= run[0].now && Chronological(run[0].now, run[1..]))
  }

  lemma {:induction false} PruningKeepsRecent(times: seq<real>, now: real, later: real)
    requires now <= later
    ensures Recent(Recent(times, now), later) == Recent(times, later)
  {
    if times != [] {
      PruningKeepsRecent(times[1..], now, later);
      if now - times[0] < WINDOW {
        assert ([times[0]] + Recent(times[1..], now))[1..] == Recent(times[1..], now);
      } else {
        assert Recent(times, now) == Recent(times[1..], now);
        assert Recent(times, later) == Recent(times[1..], later);
      }
    }
  }

  lemma {:induction false} RecentSnoc(times: seq<real>, t: real, now: real)
    ensures Recent(times + [t], now) == Recent(times, now) + if now - t < WINDOW then [t] else []
  {
    if times == [] {
      assert [t][1..] == [];
    } else {
      assert (times + [t])[1..] == times[1..] + [t];
      RecentSnoc(times[1..], t, now);
    }
  }

  /** The pruned table and the full history look alike to every request from `clock` on. */
  ghost predicate LooksLike(requests: History, accepted: History, clock: real)
  {
    forall client, t :: clock <= t ==> Recent(Entries(requests, client), t) == Recent(Entries(accepted, client), t)
  }

  lemma HandleAgrees(limit: int, requests: History, accepted: History, clock: real, r: Request)
    requires limit >= 1 && LooksLike(requests, accepted, clock) && clock <= r.now
    ensures Handle(limit, requests, r).1 == Judge(limit, accepted, r).1
    ensures LooksLike(Handle(limit, requests, r).0, Judge(limit, accepted, r).0, r.now)
  {
    hide Exempt, ClientKey;
    if !Exempt(r.path) {
      var client := ClientKey(r);
      var (requests', d) := Handle(limit, requests, r);
      var (accepted', _) := Judge(limit, accepted, r);
      assert Recent([], r.now) == [];
      assert |Recent(Entries(requests, client), r.now)| == |Recent(Entries(accepted, client), r.now)|;
      forall other, t | r.now <= t
        ensures Recent(Entries(requests', other), t) == Recent(Entries(accepted', other), t)
      {
        assert Recent(Entries(requests, other), t) == Recent(Entries(accepted, other), t);
        if other == client {
          SameEntry(requests, accepted, client, r.now, t);
        }
      }
    }
  }

  lemma SameEntry(requests: History, accepted: History, client: Name, now: real, t: real)
    requires now <= t
    requires Recent(Entries(requests, client), t) == Recent(Entries(accepted, client), t)
    ensures Recent(Recent(Entries(requests, client), now), t) == Recent(Entries(accepted, client), t)
    ensures Recent(Recent(Entries(requests, client), now) + [now], t) == Recent(Entries(accepted, client) + [now], t)
    ensures Recent(Entries(requests, client) + [now], t) == Recent(Entries(accepted, client) + [now], t)
  {
    PruningKeepsRecent(Entries(requests, client), now, t);
    RecentSnoc(Recent(Entries(requests, client), now), now, t);
    RecentSnoc(Entries(requests, client), now, t);
    RecentSnoc(Entries(accepted, client), now, t);
  }

  lemma {:induction false} RunsAgree(limit: int, requests: History, accepted: History, clock: real, run: seq<Request>)
    requires limit >= 1 && LooksLike(requests, accepted, clock) && Chronological(clock, run)
    ensures HandleAll(limit, requests, run) == JudgeAll(limit, accepted, run)
    decreases |run|
  {
    if run != [] {
      HandleAgrees(limit, requests, accepted, clock, run[0]);
      RunsAgree(limit, Handle(limit, requests, run[0]).0, Judge(limit, accepted, run[0]).0, run[0].now, run[1..]);
    }
  }

  /** Forgetting old entries is unobservable: with a positive limit every request of every run is
      decided as the complete history would decide it. */
  lemma PruningRefinesHistory(limit: int, clock: real, run: seq<Request>)
    requires limit >= 1 && Chronological(clock, run)
    ensures HandleAll(limit, map[], run) == JudgeAll(limit, map[], run)
  {
    RunsAgree(limit, map[], map[], clock, run);
  }

  /** When the requests of one client that a run lets through were made. */
  function AcceptedTimes(limit: int, requests: History, run: seq<Request>, client: Name): seq<real>
    decreases |run|
  {
    if run == [] then []
    else
      var (next, d) := Handle(limit, requests, run[0]);
      (if d == Accepted && ClientKey(run[0]) == client then [run[0].now] else [])
      + AcceptedTimes(limit, next, run[1..], client)
  }

  /** The pruned table keeps looking like the complete history. */
  lemma {:induction false} StillLooksLike(limit: int, requests: History, accepted: History, clock: real,
                                          run: seq<Request>, end: real)
    requires limit >= 1 && LooksLike(requests, accepted, clock) && Chronological(clock, run)
    requires clock <= end && (run != [] ==> run[|run| - 1].now <= end)
    ensures LooksLike(TableAfter(limit, requests, run), AcceptedBy(limit, accepted, run), end)
    decreases |run|
  {
    if run != [] {
      LatestIsLast(clock, run);
      HandleAgrees(limit, requests, accepted, clock, run[0]);
      hide Handle, Judge, LooksLike;
      StillLooksLike(limit, Handle(limit, requests, run[0]).0, Judge(limit, accepted, run[0]).0, run[0].now, run[1..],
        end);
    }
  }

  /** The complete history is that of the requests which the pruning code lets through. */
  lemma {:induction false} HistoryIsAccepted(limit: int, requests: History, accepted: History, clock: real,
                                             run: seq<Request>, client: Name)
    requires limit >= 1 && LooksLike(requests, accepted, clock) && Chronological(clock, run)
    ensures Entries(AcceptedBy(limit, accepted, run), client)
         == Entries(accepted, client) + AcceptedTimes(limit, requests, run, client)
    decreases |run|
  {
    if run != [] {
      var r, rest := run[0], run[1..];
      var (next, d) := Judge(limit, accepted, r);
      var requests' := Handle(limit, requests, r).0;
      HandleAgrees(limit, requests, accepted, clock, r);
      JudgeAppends(limit, accepted, r, client);
      HistoryIsAccepted(limit, requests', next, r.now, rest, client);
      hide Handle, Judge, LooksLike, Entries, ClientKey;
      Associates(Entries(accepted, client), if d == Accepted && ClientKey(r) == client then [r.now] else [],
                 AcceptedTimes(limit, requests', rest, client));
    }
  }

  lemma Associates<T>(a: seq<T>, b: seq<T>, c: seq<T>)
    ensures a + b + c == a + (b + c)
  {
  }

  lemma JudgeAppends(limit: int, accepted: History, r: Request, client: Name)
    ensures var (next, d) := Judge(limit, accepted, r);
            Entries(next, client)
              == Entries(accepted, client) + if d == Accepted && ClientKey(r) == client then [r.now] else []
  {
    hide Exempt, ClientKey, Recent;
  }

  /** Only a positive limit is kept: without one, the first request of a client still gets through. */
  lemma FirstRequestAlwaysAccepted(limit: int, r: Request)
    requires r.path != "/health" && r.path != "/metrics"
    ensures HandleAll(limit, map[], [r]) == [Accepted]
    ensures limit <= 0 ==> JudgeAll(limit, map[], [r]) == [Rejected]
  {
    assert [r][1..] == [];
    assert HandleAll(limit, Handle(limit, map[], r).0, []) == [];
    assert JudgeAll(limit, Judge(limit, map[], r).0, []) == [];
  }

  function TableAfter(limit: int, requests: History, run: seq<Request>): History
    decreases |run|
  {
    if run == [] then requests else TableAfter(limit, Handle(limit, requests, run[0]).0, run[1..])
  }

  lemma {:induction false} HandleAllSplits(limit: int, requests: History, first: seq<Request>, second: seq<Request>)
    ensures HandleAll(limit, requests, first + second)
         == HandleAll(limit, requests, first) + HandleAll(limit, TableAfter(limit, requests, first), second)
    decreases |first|
  {
    hide Handle;
    if first == [] {
      assert first + second == second;
    } else {
      assert (first + second)[1..] == first[1..] + second;
      HandleAllSplits(limit, Handle(limit, requests, first[0]).0, first[1..], second);
    }
  }

  /** Health checks and metrics are never limited and never counted: one inserted anywhere in a run is let
      through and changes no other decision. */
  lemma ExemptIsInvisible(limit: int, requests: History, first: seq<Request>, r: Request, second: seq<Request>)
    requires r.path == "/health" || r.path == "/metrics"
    ensures HandleAll(limit, requests, first + [r] + second)
         == HandleAll(limit, requests, first) + [Exempted]
            + HandleAll(limit, TableAfter(limit, requests, first), second)
    ensures HandleAll(limit, requests, first + second)
         == HandleAll(limit, requests, first) + HandleAll(limit, TableAfter(limit, requests, first), second)
  {
    assert Exempt(r.path);
    hide *;
    var table := TableAfter(limit, requests, first);
    HandleAllSplits(limit, requests, first, second);
    HandleAllSplits(limit, requests, first, [r] + second);
    ExemptFirst(limit, table, r, second);
    Associates(first, [r], second);
    Associates(HandleAll(limit, requests, first), [Exempted], HandleAll(limit, table, second));
  }

  lemma ExemptFirst(limit: int, requests: History, r: Request, second: seq<Request>)
    requires Exempt(r.path)
    ensures HandleAll(limit, requests, [r] + second) == [Exempted] + HandleAll(limit, requests, second)
  {
    hide Exempt;
    assert ([r] + second)[1..] == second;
  }

  // ---------------------------------------------------------------------------
  // The rate bound
  // ---------------------------------------------------------------------------

  function InWindow(times: seq<real>, w: real): nat
  {
    if times == [] then 0 else (if w <= times[0] < w + WINDOW then 1 else 0) + InWindow(times[1..], w)
  }

  lemma {:induction false} InWindowSnoc(times: seq<real>, t: real, w: real)
    ensures InWindow(times + [t], w) == InWindow(times, w) + if w <= t < w + WINDOW then 1 else 0
  {
    if times == [] {
      assert [t][1..] == [];
    } else {
      assert (times + [t])[1..] == times[1..] + [t];
      InWindowSnoc(times[1..], t, w);
    }
  }

  lemma {:induction false} WindowIsRecent(times: seq<real>, w: real, now: real)
    requires now < w + WINDOW
    ensures InWindow(times, w) <= |Recent(times, now)|
  {
    if times != [] {
      WindowIsRecent(times[1..], w, now);
    }
  }

  ghost predicate WithinLimit(limit: int, accepted: History)
  {
    forall client, w :: InWindow(Entries(accepted, client), w) <= limit
  }

  lemma JudgeWithinLimit(limit: int, accepted: History, r: Request)
    requires WithinLimit(limit, accepted)
    ensures WithinLimit(limit, Judge(limit, accepted, r).0)
  {
    hide Exempt, ClientKey;
    var accepted' := Judge(limit, accepted, r).0;
    forall client, w ensures InWindow(Entries(accepted', client), w) <= limit {
      assert InWindow(Entries(accepted, client), w) <= limit;
      if Judge(limit, accepted, r).1 == Accepted && client == ClientKey(r) {
        InWindowSnoc(Entries(accepted, client), r.now, w);
        if r.now < w + WINDOW {
          WindowIsRecent(Entries(accepted, client), w, r.now);
        }
      }
    }
  }

  lemma {:induction false} RunWithinLimit(limit: int, accepted: History, run: seq<Request>)
    requires WithinLimit(limit, accepted)
    ensures WithinLimit(limit, AcceptedBy(limit, accepted, run))
    decreases |run|
  {
    if run != [] {
      JudgeWithinLimit(limit, accepted, run[0]);
      RunWithinLimit(limit, Judge(limit, accepted, run[0]).0, run[1..]);
    }
  }

  function EarliestRecent(times: seq<real>, now: real): (w: real)
    ensures now - WINDOW < w <= now
  {
    if times == [] then now
    else
      var w := EarliestRecent(times[1..], now);
      if now - WINDOW < times[0] < w then times[0] else w
  }

  /** The entries of the last minute lie in one half-open minute. */
  lemma {:induction false} RecentFitsWindow(times: seq<real>, now: real, w: real)
    requires forall i :: 0 <= i < |times| ==> times[i] <= now
    requires now - WINDOW < w <= EarliestRecent(times, now)
    ensures |Recent(times, now)| <= InWindow(times, w)
  {
    if times != [] {
      RecentFitsWindow(times[1..], now, w);
    }
  }

  ghost predicate NoneAfter(accepted: History, now: real)
  {
    forall client, i :: 0 <= i < |Entries(accepted, client)| ==> Entries(accepted, client)[i] <= now
  }

  lemma JudgeInPast(limit: int, accepted: History, clock: real, r: Request)
    requires NoneAfter(accepted, clock) && clock <= r.now
    ensures NoneAfter(Judge(limit, accepted, r).0, r.now)
  {
    hide Exempt, ClientKey, Recent;
    var accepted' := Judge(limit, accepted, r).0;
    forall client, i | 0 <= i < |Entries(accepted', client)| ensures Entries(accepted', client)[i] <= r.now {
      if i < |Entries(accepted, client)| {
        assert Entries(accepted, client)[i] <= clock;
      }
    }
  }

  lemma {:induction false} AcceptedInPast(limit: int, accepted: History, clock: real, run: seq<Request>, now: real)
    requires NoneAfter(accepted, clock) && Chronological(clock, run) && clock <= now
    requires run != [] ==> run[|run| - 1].now <= now
    ensures NoneAfter(AcceptedBy(limit, accepted, run), now)
    decreases |run|
  {
    if run != [] {
      var next := Judge(limit, accepted, run[0]).0;
      hide Exempt, ClientKey, Recent, Judge;
      JudgeInPast(limit, accepted, clock, run[0]);
      LatestIsLast(clock, run);
      AcceptedInPast(limit, next, run[0].now, run[1..], now);
    }
  }

  lemma {:induction false} LatestIsLast(clock: real, run: seq<Request>)
    requires Chronological(clock, run) && run != []
    ensures clock <= run[0].now <= run[|run| - 1].now
    decreases |run|
  {
    if |run| > 1 {
      LatestIsLast(run[0].now, run[1..]);
    }
  }

  lemma WithinLimitFrom(limit: int, clock: real, run: seq<Request>, client: Name, w: real)
    requires limit >= 1 && Chronological(clock, run)
    ensures InWindow(AcceptedTimes(limit, map[], run, client), w) <= limit
  {
    RunWithinLimit(limit, map[], run);
    AcceptedFromNothing(limit, clock, run, client, if run == [] then clock else run[|run| - 1].now);
  }

  lemma AcceptedFromNothing(limit: int, clock: real, run: seq<Request>, client: Name, end: real)
    requires limit >= 1 && Chronological(clock, run)
    requires run == [] ==> clock <= end
    requires run != [] ==> run[|run| - 1].now <= end
    ensures Entries(AcceptedBy(limit, map[], run), client) == AcceptedTimes(limit, map[], run, client)
    ensures LooksLike(TableAfter(limit, map[], run), AcceptedBy(limit, map[], run), end)
  {
    if run != [] {
      LatestIsLast(clock, run);
    }
    HistoryIsAccepted(limit, map[], map[], clock, run, client);
    StillLooksLike(limit, map[], map[], clock, run, end);
  }

  lemma RejectedIffFull(limit: int, clock: real, run: seq<Request>, r: Request)
    requires limit >= 1 && Chronological(clock, run) && clock <= r.now && (run != [] ==> run[|run| - 1].now <= r.now)
    requires !Exempt(r.path)
    ensures Handle(limit, TableAfter(limit, map[], run), r).1 == Rejected
            <==> |Recent(AcceptedTimes(limit, map[], run, ClientKey(r)), r.now)| == limit
  {
    var client := ClientKey(r);
    var times, accepted := AcceptedTimes(limit, map[], run, client), AcceptedBy(limit, map[], run);
    AcceptedFromNothing(limit, clock, run, client, r.now);
    HandleAgrees(limit, TableAfter(limit, map[], run), accepted, r.now, r);
    AcceptedInPast(limit, map[], clock, run, r.now);
    var w := EarliestRecent(times, r.now);
    assert forall i :: 0 <= i < |times| ==> Entries(accepted, client)[i] <= r.now;
    RecentFitsWindow(times, r.now, w);
    WithinLimitFrom(limit, clock, run, client, w);
  }

  // ---------------------------------------------------------------------------
  // The same, counting requests
  // ---------------------------------------------------------------------------

  /** The request counts against this host; requests without one share a budget. */
  predicate IsFrom(r: Request, host: Name)
  {
    r.client == Some(host) || (r.client == None && host == Name("unknown"))
  }

  /** The i-th request of the run is let through on the host's budget. */
  predicate LetThrough(decisions: seq<Decision>, run: seq<Request>, host: Name, i: int)
    requires |decisions| == |run|
  {
    0 <= i < |run| && decisions[i] == Accepted && IsFrom(run[i], host)
  }

  /** When the first k requests of the run that are let through on the host's budget were made. */
  function TimesThrough(decisions: seq<Decision>, run: seq<Request>, host: Name, k: nat): seq<real>
    requires k <= |decisions| == |run|
  {
    if k == 0 then []
    else
      TimesThrough(decisions, run, host, k - 1)
      + if LetThrough(decisions, run, host, k - 1) then [run[k - 1].now] else []
  }

  lemma {:induction false} TimesCons(d: Decision, r: Request, decisions: seq<Decision>, run: seq<Request>,
                                     host: Name, k: nat)
    requires k <= |decisions| == |run|
    ensures TimesThrough([d] + decisions, [r] + run, host, k + 1)
         == (if d == Accepted && IsFrom(r, host) then [r.now] else []) + TimesThrough(decisions, run, host, k)
  {
    hide IsFrom;
    if k > 0 {
      TimesCons(d, r, decisions, run, host, k - 1);
    } else {
      assert TimesThrough([d] + decisions, [r] + run, host, 0) == [];
    }
  }

  lemma {:induction false} TimesAreAccepted(limit: int, requests: History, run: seq<Request>, host: Name)
    ensures AcceptedTimes(limit, requests, run, host)
         == TimesThrough(HandleAll(limit, requests, run), run, host, |run|)
    decreases |run|
  {
    if run != [] {
      var (next, d) := Handle(limit, requests, run[0]);
      TimesAreAccepted(limit, next, run[1..], host);
      KeyIsHost(run[0], host);
      hide Handle, IsFrom, ClientKey;
      TimesCons(d, run[0], HandleAll(limit, next, run[1..]), run[1..], host, |run| - 1);
      assert [run[0]] + run[1..] == run;
    }
  }

  lemma KeyIsHost(r: Request, host: Name)
    ensures IsFrom(r, host) <==> ClientKey(r) == host
  {
  }

  function ThroughSince(decisions: seq<Decision>, run: seq<Request>, host: Name, k: nat, now: real): set<int>
    requires k <= |decisions| == |run|
  {
    set i | 0 <= i < k && LetThrough(decisions, run, host, i) && now - run[i].now < 60.0
  }

  function ThroughFrom(decisions: seq<Decision>, run: seq<Request>, host: Name, k: nat, from: real): set<int>
    requires k <= |decisions| == |run|
  {
    set i | 0 <= i < k && LetThrough(decisions, run, host, i) && from <= run[i].now < from + 60.0
  }

  lemma {:induction false} CountsMatch(decisions: seq<Decision>, run: seq<Request>, host: Name, k: nat, t: real)
    requires k <= |decisions| == |run|
    ensures |ThroughFrom(decisions, run, host, k, t)| == InWindow(TimesThrough(decisions, run, host, k), t)
    ensures |ThroughSince(decisions, run, host, k, t)| == |Recent(TimesThrough(decisions, run, host, k), t)|
  {
    hide LetThrough;
    if k > 0 {
      CountsMatch(decisions, run, host, k - 1, t);
      var last, before := run[k - 1].now, TimesThrough(decisions, run, host, k - 1);
      InWindowSnoc(before, last, t);
      RecentSnoc(before, last, t);
      OneMoreThrough(decisions, run, host, k - 1, t);
      OneMoreSince(decisions, run, host, k - 1, t);
      assert before + [] == before;
    }
  }

  lemma OneMoreThrough(decisions: seq<Decision>, run: seq<Request>, host: Name, k: nat, t: real)
    requires k < |decisions| == |run|
    ensures |ThroughFrom(decisions, run, host, k + 1, t)| == |ThroughFrom(decisions, run, host, k, t)|
              + if LetThrough(decisions, run, host, k) && t <= run[k].now < t + 60.0 then 1 else 0
  {
    hide LetThrough;
    var more := LetThrough(decisions, run, host, k);
    assert ThroughFrom(decisions, run, host, k + 1, t)
        == ThroughFrom(decisions, run, host, k, t) + if more && t <= run[k].now < t + 60.0 then {k} else {};
  }

  lemma OneMoreSince(decisions: seq<Decision>, run: seq<Request>, host: Name, k: nat, t: real)
    requires k < |decisions| == |run|
    ensures |ThroughSince(decisions, run, host, k + 1, t)| == |ThroughSince(decisions, run, host, k, t)|
              + if LetThrough(decisions, run, host, k) && t - run[k].now < 60.0 then 1 else 0
  {
    hide LetThrough;
    var more := LetThrough(decisions, run, host, k);
    assert ThroughSince(decisions, run, host, k + 1, t)
        == ThroughSince(decisions, run, host, k, t) + if more && t - run[k].now < 60.0 then {k} else {};
  }

  /** In every half-open minute, wherever it starts, at most `limit` requests are let through on a host's budget. */
  lemma AtMostLimitPerMinute(limit: int, clock: real, run: seq<Request>, host: Name, from: real)
    requires limit >= 1 && Chronological(clock, run)
    ensures var decisions := HandleAll(limit, map[], run);
            |set i | 0 <= i < |run| && decisions[i] == Accepted && IsFrom(run[i], host)
                     && from <= run[i].now < from + 60.0| <= limit
  {
    var decisions := HandleAll(limit, map[], run);
    WithinLimitFrom(limit, clock, run, host, from);
    TimesAreAccepted(limit, map[], run, host);
    CountsMatch(decisions, run, host, |run|, from);
    hide IsFrom;
    assert ThroughFrom(decisions, run, host, |run|, from)
        == set i |
             && 0 <= i < |run| && decisions[i] == Accepted && IsFrom(run[i], host)
             && from <= run[i].now < from + 60.0;
  }

  /** After any run, a request to anything but the health and metrics pages is turned down exactly when `limit`
      requests, no more and no fewer, were let through on its host's budget in the last sixty seconds. */
  lemma RejectedOnlyWhenFull(limit: int, clock: real, run: seq<Request>, r: Request, host: Name)
    requires limit >= 1 && Chronological(clock, run) && clock <= r.now && (run != [] ==> run[|run| - 1].now <= r.now)
    requires r.path != "/health" && r.path != "/metrics" && IsFrom(r, host)
    ensures var decisions := HandleAll(limit, map[], run);
            HandleAll(limit, map[], run + [r])[|run|] == Rejected
            <==> |set i | 0 <= i < |run| && decisions[i] == Accepted && IsFrom(run[i], host)
                          && r.now - run[i].now < 60.0| == limit
  {
    var decisions := HandleAll(limit, map[], run);
    RejectedIffFull(limit, clock, run, r);
    TimesAreAccepted(limit, map[], run, host);
    CountsMatch(decisions, run, host, |run|, r.now);
    KeyIsHost(r, host);
    LastDecision(limit, map[], run, r);
    hide IsFrom;
    assert ThroughSince(decisions, run, host, |run|, r.now)
        == set i | 0 <= i < |run| && decisions[i] == Accepted && IsFrom(run[i], host) && r.now - run[i].now < 60.0;
  }

  lemma LastDecision(limit: int, requests: History, run: seq<Request>, r: Request)
    ensures HandleAll(limit, requests, run + [r])[|run|] == Handle(limit, TableAfter(limit, requests, run), r).1
  {
    hide Handle;
    HandleAllSplits(limit, requests, run, [r]);
    assert [r][1..] == [];
  }

  /** What is not limited: exactly the health and metrics pages. */
  lemma {:induction false} ExemptExactly(limit: int, requests: History, run: seq<Request>, i: nat)
    requires i < |run|
    ensures HandleAll(limit, requests, run)[i] == Exempted <==> run[i].path == "/health" || run[i].path == "/metrics"
    decreases |run|
  {
    hide ClientKey, Recent;
    if i > 0 {
      ExemptExactly(limit, Handle(limit, requests, run[0]).0, run[1..], i - 1);
    }
  }

  // ---------------------------------------------------------------------------
  // Clients do not affect each other
  // ---------------------------------------------------------------------------

  function OfClient(run: seq<Request>, client: Name): seq<Request>
  {
    if run == [] then []
    else (if IsFrom(run[0], client) then [run[0]] else []) + OfClient(run[1..], client)
  }

  /** The decisions on one client's requests within a mixed run. */
  function DecisionsFor(limit: int, requests: History, run: seq<Request>, client: Name): seq<Decision>
    decreases |run|
  {
    if run == [] then []
    else
      var (next, d) := Handle(limit, requests, run[0]);
      (if IsFrom(run[0], client) then [d] else []) + DecisionsFor(limit, next, run[1..], client)
  }

  ghost predicate SameEntryFor(h1: History, h2: History, client: Name)
  {
    (client in h1 <==> client in h2) && Entries(h1, client) == Entries(h2, client)
  }

  lemma HandleIsolated(limit: int, h1: History, h2: History, r: Request, client: Name)
    requires SameEntryFor(h1, h2, client)
    ensures ClientKey(r) == client ==>
              Handle(limit, h1, r).1 == Handle(limit, h2, r).1
              && SameEntryFor(Handle(limit, h1, r).0, Handle(limit, h2, r).0, client)
    ensures ClientKey(r) != client ==> SameEntryFor(Handle(limit, h1, r).0, h2, client)
  {
    hide Exempt, ClientKey, Recent;
  }

  /** A client's requests are decided as if the other clients' requests had never been made. */
  lemma {:induction false} ClientsAreIndependent(limit: int, h1: History, h2: History, run: seq<Request>, client: Name)
    requires SameEntryFor(h1, h2, client)
    ensures DecisionsFor(limit, h1, run, client) == HandleAll(limit, h2, OfClient(run, client))
    decreases |run|
  {
    hide Handle, SameEntryFor, ClientKey, IsFrom;
    if run != [] {
      var r, rest := run[0], run[1..];
      HandleIsolated(limit, h1, h2, r, client);
      KeyIsHost(r, client);
      if IsFrom(r, client) {
        ClientsAreIndependent(limit, Handle(limit, h1, r).0, Handle(limit, h2, r).0, rest, client);
        assert OfClient(run, client) == [r] + OfClient(rest, client);
        assert OfClient(run, client)[1..] == OfClient(rest, client);
      } else {
        ClientsAreIndependent(limit, Handle(limit, h1, r).0, h2, rest, client);
        assert OfClient(run, client) == OfClient(rest, client);
      }
    }
  }
}
