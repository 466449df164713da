// The rate limiter: one Redis counter per client address, incremented and given a new expiry by every
// request, over timed traces of requests.
module RateLimit {
  import opened Options

  // A counter and the time at which it is gone.
  datatype Entry = Entry(count: nat, expiry: int)

  type Store = map<string, Entry>

  datatype Arrival = Arrival(ip: string, time: int)

  // INCR: a counter that is absent or expired starts from one.
  function Incr(store: Store, a: Arrival): (n: nat)
    ensures n >= 1
  {
    if a.ip in store && a.time < store[a.ip].expiry then store[a.ip].count + 1 else 1
  }

  // INCR and EXPIRE as one step; window is the one second the counter lives.
  function Hit(store: Store, window: nat, a: Arrival): Store {
    store[a.ip := Entry(Incr(store, a), a.time + window)]
  }

  const MAX_INT64 := 0x7fff_ffff_ffff_ffff
  const MIN_INT64 := -0x8000_0000_0000_0000

  function Truncated(x: real): int {
    if x >= 0.0 then x.Floor else -((-x).Floor)
  }

  predicate FitsInt64(x: real) { MIN_INT64 <= Truncated(x) <= MAX_INT64 }

  // int(x): truncation toward zero. What becomes of a value that does not fit is up to the
  // implementation: other.
  function Converted(x: real, other: int): int {
    if FitsInt64(x) then Truncated(x) else other
  }

  // The limit that the settings give, if there is a limiter at all. redis: it is configured and answers.
  function LimitOf(rate: Option<real>, redis: bool, other: int): Option<int> {
    if !redis || rate.None? || rate.value == 0.0 then None else Some(Converted(rate.value, other))
  }

  // The limit is the whole number of requests in a second, toward zero.
  lemma LimitPlainly(n: nat, rate: real, other: int)
    requires n <= 9223372036854775807 && rate != 0.0
    ensures n as real <= rate < (n + 1) as real ==> LimitOf(Some(rate), true, other) == Some(n)
    ensures n as real <= -rate < (n + 1) as real ==> LimitOf(Some(rate), true, other) == Some(0 - n)
    ensures LimitOf(Some(rate), false, other) == LimitOf(None, true, other) == LimitOf(Some(0.0), true, other) == None
  {
  }

  class RateLimiter {
    const limit: int
    const window: nat
    var store: Store

    constructor (limit: int, window: nat)
      ensures this.limit == limit && this.window == window && store == map[]
    {
      this.limit, this.window, store := limit, window, map[];
    }

    // No limiter without a rate, a Redis configuration or a Redis that answers.
    static method New(rate: Option<real>, window: nat, redis: bool, other: int) returns (rl: RateLimiter?)
      ensures rl == null <==> !redis || rate.None? || rate.value == 0.0
      ensures rl != null ==> fresh(rl) && rl.window == window && rl.store == map[]
      ensures rl != null ==> rl.limit == Converted(rate.value, other)
    {
      if !redis || rate.None? || rate.value == 0.0 {
        return null;
      }
      rl := new RateLimiter(Converted(rate.value, other), window);
    }

    // failed: the pipeline did not run. The limiter fails open.
    method Allow(a: Arrival, failed: bool) returns (ok: bool)
      modifies this`store
      ensures failed ==> ok && store == old(store)
      ensures !failed ==> ok == (Incr(old(store), a) <= limit) && store == Hit(old(store), window, a)
    {
      if failed {
        return true;
      }
      var count := 1;
      if a.ip in store && a.time < store[a.ip].expiry {
        count := store[a.ip].count + 1;
      }
      store := store[a.ip := Entry(count, a.time + window)];
      if count > limit {
        return false;
      }
      return true;
    }
  }

  // ----- Traces -----

  function StoreAfter(window: nat, trace: seq<Arrival>): Store {
    if trace == [] then map[]
    else Hit(StoreAfter(window, trace[..|trace| - 1]), window, trace[|trace| - 1])
  }

  // What Allow answers to each request of the trace, without Redis errors.
  function Answers(limit: int, window: nat, trace: seq<Arrival>): (r: seq<bool>)
    ensures |r| == |trace|
  {
    if trace == [] then []
    else
      var before, a := trace[..|trace| - 1], trace[|trace| - 1];
      Answers(limit, window, before) + [Incr(StoreAfter(window, before), a) <= limit]
  }

  // What becomes of the requests with these settings: without a limiter all are allowed.
  function Decisions(limit: Option<int>, window: nat, trace: seq<Arrival>): (r: seq<bool>)
    ensures |r| == |trace|
  {
    match limit
    case None => seq(|trace|, _ => true)
    case Some(l) => Answers(l, window, trace)
  }

  // A new limiter, if the settings make one, and the requests of a trace one after another.
  method Decide(rate: Option<real>, window: nat, redis: bool, other: int, trace: seq<Arrival>)
    returns (answers: seq<bool>)
    ensures answers == Decisions(LimitOf(rate, redis, other), window, trace)
  {
    var rl := RateLimiter.New(rate, window, redis, other);
    answers := [];
    var i := 0;
    while i < |trace|
      invariant 0 <= i <= |trace|
      invariant answers == Decisions(LimitOf(rate, redis, other), window, trace[..i])
      invariant rl != null ==> rl.store == StoreAfter(window, trace[..i])
    {
      assert trace[..i + 1][..i] == trace[..i];
      var ok := true;
      if rl != null {
        ok := rl.Allow(trace[i], false);
      }
      answers := answers + [ok];
      i := i + 1;
    }
    assert trace[..i] == trace;
  }

  function TimesOf(trace: seq<Arrival>, ip: string): seq<int> {
    if trace == [] then []
    else TimesOf(trace[..|trace| - 1], ip) + if trace[|trace| - 1].ip == ip then [trace[|trace| - 1].time] else []
  }

  // The answers to one client.
  function AnswersTo(trace: seq<Arrival>, answers: seq<bool>, ip: string): seq<bool>
    requires |trace| == |answers|
  {
    if trace == [] then []
    else
      var last := |trace| - 1;
      AnswersTo(trace[..last], answers[..last], ip) + if trace[last].ip == ip then [answers[last]] else []
  }

  // The place of request k in its run: the requests before it, each less than a window after the last.
  function Position(ts: seq<int>, window: nat, k: nat): nat
    requires k < |ts|
  {
    if k == 0 || ts[k] - ts[k - 1] >= window then 1 else Position(ts, window, k - 1) + 1
  }

  function Verdicts(limit: int, window: nat, ts: seq<int>): seq<bool> {
    seq(|ts|, k requires 0 <= k < |ts| => Position(ts, window, k) <= limit)
  }

  lemma {:induction false} PositionPrefix(ts: seq<int>, more: seq<int>, window: nat, k: nat)
    requires k < |ts|
    ensures Position(ts + more, window, k) == Position(ts, window, k)
  {
    if k > 0 { PositionPrefix(ts, more, window, k - 1); }
  }

  lemma {:induction false} StoreHoldsPosition(window: nat, trace: seq<Arrival>, ip: string)
    ensures var ts, store := TimesOf(trace, ip), StoreAfter(window, trace);
      && (ip in store <==> ts != [])
      && (ts != [] ==> store[ip] == Entry(Position(ts, window, |ts| - 1), ts[|ts| - 1] + window))
  {
    if trace != [] {
      var before, a := trace[..|trace| - 1], trace[|trace| - 1];
      StoreHoldsPosition(window, before, ip);
      CountIsPosition(window, before, a, ip);
      if a.ip == ip {
        assert TimesOf(trace, ip) == TimesOf(before, ip) + [a.time];
      } else {
        assert TimesOf(trace, ip) == TimesOf(before, ip);
      }
    }
  }

  lemma CountIsPosition(window: nat, before: seq<Arrival>, a: Arrival, ip: string)
    requires var ts, store := TimesOf(before, ip), StoreAfter(window, before);
      && (ip in store <==> ts != [])
      && (ts != [] ==> store[ip] == Entry(Position(ts, window, |ts| - 1), ts[|ts| - 1] + window))
    ensures a.ip == ip ==>
      var ts := TimesOf(before, ip);
      Incr(StoreAfter(window, before), a) == Position(ts + [a.time], window, |ts|)
  {
    var ts := TimesOf(before, ip);
    if ts != [] { PositionPrefix(ts, [a.time], window, |ts| - 1); }
  }

  // A client's answers depend on its own requests only, and each is decided by the request's place in
  // its run: clients are independent of each other.
  lemma {:induction false} AnsweredByPosition(limit: int, window: nat, trace: seq<Arrival>, ip: string)
    ensures AnswersTo(trace, Answers(limit, window, trace), ip) == Verdicts(limit, window, TimesOf(trace, ip))
  {
    if trace != [] {
      var before, a := trace[..|trace| - 1], trace[|trace| - 1];
      AnsweredByPosition(limit, window, before, ip);
      StoreHoldsPosition(window, before, ip);
      CountIsPosition(window, before, a, ip);
      var answers := Answers(limit, window, trace);
      assert answers[..|trace| - 1] == Answers(limit, window, before);
      if a.ip == ip {
        VerdictsNext(limit, window, TimesOf(before, ip), a.time);
      } else {
        assert TimesOf(trace, ip) == TimesOf(before, ip);
      }
    }
  }

  lemma VerdictsNext(limit: int, window: nat, ts: seq<int>, t: int)
    ensures Verdicts(limit, window, ts + [t])
         == Verdicts(limit, window, ts) + [Position(ts + [t], window, |ts|) <= limit]
  {
    forall k | 0 <= k < |ts| ensures Position(ts + [t], window, k) == Position(ts, window, k) {
      PositionPrefix(ts, [t], window, k);
    }
  }

  // ----- What a client gets -----

  // Requests a up to b follow each other by less than a window.
  ghost predicate Close(ts: seq<int>, window: nat, a: nat, b: nat) {
    a <= b <= |ts| && forall k | a < k < b :: ts[k] - ts[k - 1] < window
  }

  ghost predicate StartsRun(ts: seq<int>, window: nat, a: nat) {
    a < |ts| && (a == 0 || ts[a] - ts[a - 1] >= window)
  }

  lemma {:induction false} PositionInRun(ts: seq<int>, window: nat, a: nat, k: nat)
    requires a <= k < |ts| && Close(ts, window, a, k + 1)
    ensures Position(ts, window, k) == Position(ts, window, a) + (k - a)
  {
    if a < k { PositionInRun(ts, window, a, k - 1); }
  }

  // In a run exactly the first limit requests are allowed, however long it lasts.
  lemma FirstOfRunAllowed(limit: int, window: nat, ts: seq<int>, a: nat, b: nat)
    requires StartsRun(ts, window, a) && Close(ts, window, a, b)
    ensures forall k | a <= k < b :: Verdicts(limit, window, ts)[k] <==> k - a < limit
  {
    forall k | a <= k < b ensures Verdicts(limit, window, ts)[k] <==> k - a < limit {
      PositionInRun(ts, window, a, k);
    }
  }

  ghost predicate Ordered(ts: seq<int>) {
    forall i, j | 0 <= i < j < |ts| :: ts[i] <= ts[j]
  }

  // Requests allowed among a up to b.
  function Granted(answers: seq<bool>, a: nat, b: nat): (n: nat)
    requires a <= b <= |answers|
    ensures n <= b - a
    decreases b
  {
    if a == b then 0 else Granted(answers, a, b - 1) + if answers[b - 1] then 1 else 0
  }

  function Smaller(limit: int, n: nat): nat {
    if limit < 0 then 0 else if limit < n then limit else n
  }

  lemma {:induction false} GrantedFirst(answers: seq<bool>, a: nat, b: nat, limit: int)
    requires a <= b <= |answers|
    ensures (forall k | a <= k < b :: answers[k] <==> k - a < limit) ==>
      Granted(answers, a, b) == Smaller(limit, b - a)
    ensures (forall k | a <= k < b :: answers[k] ==> k - a < limit) ==>
      Granted(answers, a, b) <= Smaller(limit, b - a)
    decreases b
  {
    if a < b { GrantedFirst(answers, a, b - 1, limit); }
  }

  // A run is granted limit requests, or all of them if it has fewer.
  lemma RunIsGrantedLimit(limit: int, window: nat, ts: seq<int>, a: nat, b: nat)
    requires StartsRun(ts, window, a) && Close(ts, window, a, b)
    ensures Granted(Verdicts(limit, window, ts), a, b) == Smaller(limit, b - a)
  {
    FirstOfRunAllowed(limit, window, ts, a, b);
    GrantedFirst(Verdicts(limit, window, ts), a, b, limit);
  }

  // Any stretch of requests shorter than a window has at most limit allowed ones.
  lemma WindowBound(limit: int, window: nat, ts: seq<int>, a: nat, b: nat)
    requires Ordered(ts) && a < b <= |ts| && ts[b - 1] - ts[a] < window
    ensures Granted(Verdicts(limit, window, ts), a, b) <= Smaller(limit, b - a)
  {
    forall k | a <= k < b ensures Verdicts(limit, window, ts)[k] ==> k - a < limit {
      PositionInRun(ts, window, a, k);
    }
    GrantedFirst(Verdicts(limit, window, ts), a, b, limit);
  }

  lemma {:induction false} RunStart(ts: seq<int>, window: nat, k: nat) returns (a: nat)
    requires k < |ts|
    ensures StartsRun(ts, window, a) && a <= k && Close(ts, window, a, k + 1)
    ensures Position(ts, window, k) == k - a + 1
  {
    if k == 0 || ts[k] - ts[k - 1] >= window {
      a := k;
    } else {
      a := RunStart(ts, window, k - 1);
    }
  }

  // A client is never refused exactly when none of its runs is longer than limit. The rate does not
  // decide: every request, allowed or not, gives the counter another window to live.
  lemma NeverRefusedIff(limit: int, window: nat, ts: seq<int>)
    ensures (forall k | 0 <= k < |ts| :: Verdicts(limit, window, ts)[k])
       <==> (forall a: nat, b: nat | StartsRun(ts, window, a) && Close(ts, window, a, b) && a < b ::
               b - a <= limit)
  {
    if forall k | 0 <= k < |ts| :: Verdicts(limit, window, ts)[k] {
      forall a: nat, b: nat | StartsRun(ts, window, a) && Close(ts, window, a, b) && a < b ensures b - a <= limit {
        FirstOfRunAllowed(limit, window, ts, a, b);
        assert Verdicts(limit, window, ts)[b - 1];
      }
    } else {
      var k :| 0 <= k < |ts| && !Verdicts(limit, window, ts)[k];
      var a := RunStart(ts, window, k);
      assert Close(ts, window, a, k + 1);
    }
  }

  function Steady(gap: nat, n: nat): seq<int> {
    seq(n, k requires 0 <= k < n => k * gap)
  }

  // So a client within the rate is refused: it sends one request every gap, with at most limit of them in
  // any stretch shorter than a window, and after the first limit requests no other is ever allowed.
  lemma SteadyClientRefused(limit: nat, window: nat, gap: nat, n: nat)
    requires 0 < gap < window <= limit * gap
    ensures var ts := Steady(gap, n);
      && (forall a, b | 0 <= a <= b < n && ts[b] - ts[a] < window :: b - a + 1 <= limit)
      && forall k | 0 <= k < n :: Verdicts(limit, window, ts)[k] <==> k < limit
  {
    var ts := Steady(gap, n);
    forall a: nat, b: nat | a <= b < n && ts[b] - ts[a] < window ensures b - a + 1 <= limit {
      Gaps(b - a, limit, gap);
      assert ts[b] - ts[a] == (b - a) * gap;
    }
    if n > 0 {
      assert forall k | 0 < k < n :: ts[k] - ts[k - 1] == gap by {
        forall k | 0 < k < n ensures ts[k] - ts[k - 1] == gap { assert k * gap == (k - 1) * gap + gap; }
      }
      FirstOfRunAllowed(limit, window, ts, 0, n);
    }
  }

  // A client that lets a whole window pass between its requests is never refused by a limit of one or more.
  lemma SpacedClientAllowed(limit: nat, window: nat, ts: seq<int>)
    requires limit >= 1 && forall k | 0 < k < |ts| :: ts[k] - ts[k - 1] >= window
    ensures forall k | 0 <= k < |ts| :: Verdicts(limit, window, ts)[k]
  {
    forall k | 0 <= k < |ts| ensures Verdicts(limit, window, ts)[k] {
      FirstOfRunAllowed(limit, window, ts, k, k + 1);
    }
  }

  lemma Gaps(d: nat, limit: nat, gap: nat)
    ensures d >= limit ==> d * gap >= limit * gap
  {
    if d >= limit { assert (d - limit) * gap >= 0; }
  }

  // Two a second allowed, one every 0.6 seconds sent.
  lemma SteadyExample()
    ensures Verdicts(2, 1000, [0, 600, 1200, 1800]) == [true, true, false, false]
  {
    SteadyClientRefused(2, 1000, 600, 4);
    assert Steady(600, 4) == [0, 600, 1200, 1800];
  }

  // Every request is refused exactly when there is a limiter and its limit is zero or less. For a rate
  // that fits into an int64 this means: not zero, which makes no limiter, and below one a second.
  lemma RefusesAllIff(rate: Option<real>, window: nat, redis: bool, other: int, trace: seq<Arrival>)
    requires trace != []
    ensures var limit := LimitOf(rate, redis, other);
      && (Refused(Decisions(limit, window, trace)) <==> limit.Some? && limit.value <= 0)
      && (rate.Some? && FitsInt64(rate.value) ==>
            (Refused(Decisions(limit, window, trace)) <==> redis && rate.value != 0.0 && rate.value < 1.0))
      && (limit.None? ==> forall k | 0 <= k < |trace| :: Decisions(limit, window, trace)[k])
  {
    var limit := LimitOf(rate, redis, other);
    if limit.None? {
      assert Decisions(limit, window, trace)[0];
    } else if limit.value <= 0 {
      RefusesAll(limit.value, window, trace);
    } else {
      FirstAnswer(limit.value, window, trace);
    }
  }

  predicate Refused(answers: seq<bool>) {
    forall k | 0 <= k < |answers| :: !answers[k]
  }

  lemma {:induction false} RefusesAll(limit: int, window: nat, trace: seq<Arrival>)
    requires limit <= 0
    ensures forall k | 0 <= k < |trace| :: !Answers(limit, window, trace)[k]
  {
    if trace != [] { RefusesAll(limit, window, trace[..|trace| - 1]); }
  }

  lemma {:induction false} FirstAnswer(limit: int, window: nat, trace: seq<Arrival>)
    requires trace != []
    ensures Answers(limit, window, trace)[0] <==> limit >= 1
  {
    if |trace| > 1 { FirstAnswer(limit, window, trace[..|trace| - 1]); }
  }

  // So half a request a second lets none through, ever.
  lemma HalfRateRefuses(window: nat, other: int, trace: seq<Arrival>)
    ensures Refused(Decisions(LimitOf(Some(0.5), true, other), window, trace))
  {
    if trace != [] { RefusesAllIff(Some(0.5), window, true, other, trace); }
  }
}
