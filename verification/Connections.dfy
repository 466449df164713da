// Connection accounting: handlers select a backend, count themselves on it and discount themselves,
// interleaved with each other and with reloads that build new pools beside the old ones.
module Connections {
  import opened Options
  import opened Sequences
  import opened Sums
  import opened Uint64
  import Pool
  import Scores

  // Whose handlers a pool serves. L7 handlers count themselves only under least-connections and
  // weighted-least-connections; a TCP handler counts itself once it has dialled the backend.
  datatype Protocol = L7(counting: bool) | TCP

  // A handler between its selection and its end.
  datatype Holder = Holder(backend: nat, protocol: Protocol, counted: bool)

  // The backends of a pool, by their index in counters.
  datatype BackendPool = BackendPool(backends: seq<nat>, protocol: Protocol)

  // The counters of all backends and all pools ever built: a reload replaces the pools of the tables,
  // while handlers, proxies and requests in flight keep the pool they have.
  datatype State = State(counters: seq<uint64>, pools: seq<BackendPool>, holders: seq<Holder>)

  const START := State([], [], [])

  function Zeros(n: nat): seq<uint64> { seq<uint64>(n, _ => 0) }

  function Range(from: nat, n: nat): seq<nat> {
    seq<nat>(n, i requires 0 <= i < n => from + i)
  }

  function Without<T>(s: seq<T>, k: nat): seq<T>
    requires k < |s|
  {
    s[..k] + s[k + 1..]
  }

  // ----- Steps -----

  // Build: a reload makes its pools one after another, from new backends.
  // Select: a handler picks backend i of pool p.
  // Increment, Decrement: handler h counts itself and later discounts itself.
  // Leave: a handler that never counts itself, or whose dial failed, ends.
  datatype Event =
    | Build(n: nat, protocol: Protocol)
    | Select(p: nat, i: nat)
    | Increment(h: nat)
    | Leave(h: nat)
    | Decrement(h: nat)

  predicate Enabled(s: State, e: Event) {
    match e
    case Build(_, _) => true
    case Select(p, i) => p < |s.pools| && i < |s.pools[p].backends|
    case Increment(h) =>
      h < |s.holders| && !s.holders[h].counted && s.holders[h].protocol != L7(false)
      && s.holders[h].backend < |s.counters|
    case Leave(h) => h < |s.holders| && !s.holders[h].counted && s.holders[h].protocol != L7(true)
    case Decrement(h) => h < |s.holders| && s.holders[h].counted && s.holders[h].backend < |s.counters|
  }

  // Discounting adds 2^64 - 1.
  function Step(s: State, e: Event): State
    requires Enabled(s, e)
  {
    match e
    case Build(n, protocol) =>
      s.(counters := s.counters + Zeros(n),
         pools := s.pools + [BackendPool(Range(|s.counters|, n), protocol)])
    case Select(p, i) =>
      s.(holders := s.holders + [Holder(s.pools[p].backends[i], s.pools[p].protocol, false)])
    case Increment(h) =>
      var b := s.holders[h].backend;
      var c: nat := s.counters[b];
      s.(counters := s.counters[b := Wrap(c + 1)],
         holders := s.holders[h := s.holders[h].(counted := true)])
    case Leave(h) => s.(holders := Without(s.holders, h))
    case Decrement(h) =>
      var b := s.holders[h].backend;
      var c: nat := s.counters[b];
      s.(counters := s.counters[b := Wrap(c + (U64 - 1))], holders := Without(s.holders, h))
  }

  // s is reached by these events, in this order.
  ghost predicate Reached(events: seq<Event>, s: State) {
    if events == [] then s == START
    else
      var last := |events| - 1;
      exists before :: Reached(events[..last], before) && Enabled(before, events[last])
        && s == Step(before, events[last])
  }

  // ----- Counting holders -----

  // Handlers counted on one of these backends.
  function Held(hs: seq<Holder>, backends: set<nat>): nat { Tally(hs, CountedOn(backends)) }

  function CountedOn(backends: set<nat>): Holder -> bool {
    (h: Holder) => h.counted && h.backend in backends
  }

  function Weight(h: Holder, backends: set<nat>): nat {
    if h.counted && h.backend in backends then 1 else 0
  }

  lemma HeldWithout(hs: seq<Holder>, k: nat, bs: set<nat>)
    requires k < |hs|
    ensures Held(hs, bs) == Held(Without(hs, k), bs) + Weight(hs[k], bs)
  {
    TallyWithout(hs, k, CountedOn(bs));
  }

  lemma HeldUpdate(hs: seq<Holder>, k: nat, h: Holder, bs: set<nat>)
    requires k < |hs|
    ensures Held(hs[k := h], bs) == Held(hs, bs) - Weight(hs[k], bs) + Weight(h, bs)
  {
    assert Without(hs[k := h], k) == Without(hs, k);
    HeldWithout(hs, k, bs);
    HeldWithout(hs[k := h], k, bs);
  }

  lemma {:induction false} HeldNone(hs: seq<Holder>, bs: set<nat>)
    requires forall h | h in hs :: Weight(h, bs) == 0
    ensures Held(hs, bs) == 0
  {
    if hs != [] {
      assert Weight(hs[|hs| - 1], bs) == 0;
      HeldNone(hs[..|hs| - 1], bs);
    }
  }

  lemma {:induction false} HeldDisjoint(hs: seq<Holder>, bs: set<nat>, cs: set<nat>)
    requires bs !! cs
    ensures Held(hs, bs + cs) == Held(hs, bs) + Held(hs, cs)
  {
    if hs != [] { HeldDisjoint(hs[..|hs| - 1], bs, cs); }
  }

  // ----- The invariant -----

  ghost predicate Accounted(s: State) {
    forall b | 0 <= b < |s.counters| :: s.counters[b] == Wrap(Held(s.holders, {b}))
  }

  predicate InPool(s: State, b: nat, p: nat) {
    p < |s.pools| && b in s.pools[p].backends
  }

  ghost predicate FromPool(s: State, h: Holder) {
    exists p: nat :: InPool(s, h.backend, p) && s.pools[p].protocol == h.protocol
  }

  // Pools are made of distinct, existing backends, no two pools share one, and every holder has a
  // backend of a pool of its protocol.
  ghost predicate WellFormed(s: State) {
    && (forall p: nat, b: nat | InPool(s, b, p) :: b < |s.counters|)
    && (forall p: nat, q: nat, b: nat | InPool(s, b, p) && InPool(s, b, q) :: p == q)
    && (forall p | 0 <= p < |s.pools| :: Distinct(s.pools[p].backends))
    && forall h | h in s.holders :: FromPool(s, h) && (h.counted ==> h.protocol != L7(false))
  }

  lemma DecrementKeepsCount(n: nat)
    requires n >= 1
    ensures Wrap(Wrap(n) + (U64 - 1)) == Wrap(n - 1)
  {
    WrapAdd(n, U64 - 1);
    assert n + (U64 - 1) - U64 == n - 1;
  }

  lemma StepAccounts(s: State, e: Event, b: nat)
    requires WellFormed(s) && Accounted(s) && Enabled(s, e)
    requires b < |Step(s, e).counters|
    ensures Step(s, e).counters[b] == Wrap(Held(Step(s, e).holders, {b}))
  {
    var s' := Step(s, e);
    match e
    case Build(_, _) =>
      if b >= |s.counters| {
        forall h | h in s.holders ensures Weight(h, {b}) == 0 {
          var p: nat :| InPool(s, h.backend, p) && s.pools[p].protocol == h.protocol;
          assert h.backend < |s.counters|;
        }
        HeldNone(s.holders, {b});
      }
    case Select(_, _) =>
      assert s'.holders[..|s.holders|] == s.holders;
    case Increment(h) =>
      IncrementAccounts(s, h, b);
    case Leave(h) =>
      HeldWithout(s.holders, h, {b});
    case Decrement(h) =>
      DecrementAccounts(s, h, b);
  }

  lemma IncrementAccounts(s: State, h: nat, b: nat)
    requires Accounted(s) && Enabled(s, Increment(h)) && b < |s.counters|
    ensures var s' := Step(s, Increment(h)); s'.counters[b] == Wrap(Held(s'.holders, {b}))
  {
    HeldUpdate(s.holders, h, s.holders[h].(counted := true), {b});
    WrapAdd(Held(s.holders, {b}), 1);
  }

  lemma DecrementAccounts(s: State, h: nat, b: nat)
    requires Accounted(s) && Enabled(s, Decrement(h)) && b < |s.counters|
    ensures var s' := Step(s, Decrement(h)); s'.counters[b] == Wrap(Held(s'.holders, {b}))
  {
    HeldWithout(s.holders, h, {b});
    if b == s.holders[h].backend { DecrementKeepsCount(Held(s.holders, {b})); }
  }

  lemma StepWellFormed(s: State, e: Event)
    requires WellFormed(s) && Enabled(s, e)
    ensures WellFormed(Step(s, e))
  {
    var s' := Step(s, e);
    match e
    case Build(n, _) =>
      BuildPools(s, e);
      forall h | h in s'.holders ensures FromPool(s', h) {
        var p: nat :| InPool(s, h.backend, p) && s.pools[p].protocol == h.protocol;
        assert InPool(s', h.backend, p);
      }
    case Select(p, i) =>
      assert InPool(s, s.pools[p].backends[i], p);
      SamePools(s, s', s'.holders[|s.holders|]);
    case Increment(h) =>
      SamePools(s, s', s'.holders[h]);
    case Leave(h) =>
      SamePools(s, s', s.holders[h]);
    case Decrement(h) =>
      SamePools(s, s', s.holders[h]);
  }

  // A step that makes no pool keeps well-formedness if it does for the one holder that is new.
  lemma SamePools(s: State, s': State, h: Holder)
    requires WellFormed(s) && s'.pools == s.pools && |s'.counters| == |s.counters|
    requires FromPool(s, h) && (h.counted ==> h.protocol != L7(false))
    requires forall g | g in s'.holders :: g == h || g in s.holders
    ensures WellFormed(s')
  {
    forall p: nat, b: nat ensures InPool(s', b, p) == InPool(s, b, p) {}
    forall g | g in s'.holders ensures FromPool(s', g) {
      var p: nat :| InPool(s, g.backend, p) && s.pools[p].protocol == g.protocol;
      assert InPool(s', g.backend, p);
    }
  }

  lemma BuildPools(s: State, e: Event)
    requires WellFormed(s) && e.Build?
    ensures var s' := Step(s, e);
      && (forall p: nat, b: nat | InPool(s', b, p) :: b < |s'.counters|)
      && (forall p: nat, q: nat, b: nat | InPool(s', b, p) && InPool(s', b, q) :: p == q)
      && forall p | 0 <= p < |s'.pools| :: Distinct(s'.pools[p].backends)
  {
    var s' := Step(s, e);
    forall p: nat, b: nat | InPool(s', b, p)
      ensures InPool(s, b, p) || (p == |s.pools| && |s.counters| <= b < |s'.counters|)
    {
    }
  }

  lemma {:induction false} Invariant(events: seq<Event>, s: State)
    requires Reached(events, s)
    ensures WellFormed(s) && Accounted(s)
  {
    if events != [] {
      var last := |events| - 1;
      var before :| Reached(events[..last], before) && Enabled(before, events[last]) && s == Step(before, events[last]);
      Invariant(events[..last], before);
      StepWellFormed(before, events[last]);
      forall b | 0 <= b < |s.counters| ensures s.counters[b] == Wrap(Held(s.holders, {b})) {
        StepAccounts(before, events[last], b);
      }
    }
  }

  // ----- What the counters mean -----

  // A counter is the number of handlers counted on its backend.
  lemma CounterIsHolders(events: seq<Event>, s: State, b: nat)
    requires Reached(events, s) && b < |s.counters|
    ensures s.counters[b] == Wrap(Held(s.holders, {b}))
    ensures s.counters[b] == Held(s.holders, {b}) <==> Held(s.holders, {b}) < U64
  {
    Invariant(events, s);
  }

  // Adding 2^64 - 1 is subtracting one: a decrement meets a counter of at least one, as long as fewer
  // than 2^64 handlers are counted on the backend, and no other counter moves.
  lemma DecrementIsMinusOne(events: seq<Event>, s: State, h: nat)
    requires Reached(events, s) && Enabled(s, Decrement(h))
    requires Held(s.holders, {s.holders[h].backend}) < U64
    ensures var b, s' := s.holders[h].backend, Step(s, Decrement(h));
      s.counters[b] >= 1 && s'.counters == s.counters[b := s.counters[b] - 1]
  {
    Invariant(events, s);
    var b := s.holders[h].backend;
    var n: nat, c: nat := Held(s.holders, {b}), s.counters[b];
    assert n >= 1 by { HeldWithout(s.holders, h, {b}); }
    MinusOne(n);
    assert c == n;
    assert Step(s, Decrement(h)).counters == s.counters[b := Wrap(c + (U64 - 1))];
  }

  lemma MinusOne(n: nat)
    requires 1 <= n < U64
    ensures Wrap(n) == n && Wrap(n + (U64 - 1)) == n - 1
  {
    DecrementKeepsCount(n);
  }

  function CountersOf(s: State, bs: seq<nat>): seq<nat>
    requires forall i | 0 <= i < |bs| :: bs[i] < |s.counters|
  {
    seq<nat>(|bs|, i requires 0 <= i < |bs| => s.counters[bs[i]])
  }

  function Members(bs: seq<nat>): set<nat> { set b | b in bs }

  // The total of a pool, with the wrap of its uint64 accumulator, is the number of handlers counted on
  // its backends.
  lemma PoolTotal(events: seq<Event>, s: State, p: nat)
    requires Reached(events, s) && p < |s.pools|
    ensures var bs := s.pools[p].backends;
      && (forall i | 0 <= i < |bs| :: bs[i] < |s.counters|)
      && Wrap(Pool.Total(CountersOf(s, bs), |bs|)) == Wrap(Held(s.holders, Members(bs)))
  {
    Invariant(events, s);
    var bs := s.pools[p].backends;
    forall i | 0 <= i < |bs| ensures bs[i] < |s.counters| { assert InPool(s, bs[i], p); }
    TotalOf(s, bs, |bs|);
    assert bs[..|bs|] == bs;
  }

  lemma WrapSum(t: nat, n: nat, c: nat, m: nat)
    requires Wrap(t) == Wrap(n) && c == Wrap(m)
    ensures Wrap(t + c) == Wrap(n + m)
  {
    Congruent(t, n, c);
    WrapAdd(m, n);
  }

  lemma {:induction false} TotalOf(s: State, bs: seq<nat>, k: nat)
    requires Accounted(s) && Distinct(bs) && forall i | 0 <= i < |bs| :: bs[i] < |s.counters|
    requires k <= |bs|
    ensures Wrap(Pool.Total(CountersOf(s, bs), k)) == Wrap(Held(s.holders, Members(bs[..k])))
  {
    if k == 0 {
      HeldNone(s.holders, Members(bs[..0]));
    } else {
      var rest, last := bs[..k - 1], bs[k - 1];
      TotalOf(s, bs, k - 1);
      assert Members(bs[..k]) == Members(rest) + {last};
      HeldDisjoint(s.holders, Members(rest), {last});
      var n, m := Held(s.holders, Members(rest)), Held(s.holders, {last});
      WrapSum(Pool.Total(CountersOf(s, bs), k - 1), n, s.counters[last], m);
    }
  }

  // ----- A total read counter by counter -----

  // The loop over a pool while handlers go on: either something happens, or the next counter is read.
  datatype Action = Happen(e: Event) | Read

  // pos counters have been read; total is the uint64 accumulator, sum the number of handlers found at the
  // reads, moved the increments and decrements meanwhile.
  datatype Scan = Scan(s: State, pos: nat, total: uint64, sum: nat, moved: nat)

  predicate CanAct(bs: seq<nat>, r: Scan, a: Action) {
    match a
    case Happen(e) => Enabled(r.s, e)
    case Read => r.pos < |bs| && bs[r.pos] < |r.s.counters|
  }

  function Act(bs: seq<nat>, r: Scan, a: Action): Scan
    requires CanAct(bs, r, a)
  {
    match a
    case Happen(e) => r.(s := Step(r.s, e), moved := r.moved + if e.Increment? || e.Decrement? then 1 else 0)
    case Read =>
      var t: nat, c: nat := r.total, r.s.counters[bs[r.pos]];
      r.(pos := r.pos + 1, total := Wrap(t + c), sum := r.sum + Held(r.s.holders, {bs[r.pos]}))
  }

  ghost predicate Scanned(bs: seq<nat>, start: State, actions: seq<Action>, r: Scan) {
    if actions == [] then r == Scan(start, 0, 0, 0, 0)
    else
      var last := |actions| - 1;
      exists before :: Scanned(bs, start, actions[..last], before) && CanAct(bs, before, actions[last])
        && r == Act(bs, before, actions[last])
  }

  // What has been read plus what is left to read is what there was, up to what moved.
  ghost predicate NearlyRight(bs: seq<nat>, start: State, r: Scan) {
    && WellFormed(r.s) && Accounted(r.s)
    && r.pos <= |bs| && r.total == Wrap(r.sum)
    && 0 - r.moved <= r.sum + Held(r.s.holders, Members(bs[r.pos..])) - Held(start.holders, Members(bs)) <= r.moved
  }

  lemma StepMovesOne(s: State, e: Event, bs: set<nat>)
    requires Enabled(s, e)
    ensures -1 <= Held(Step(s, e).holders, bs) - Held(s.holders, bs) <= 1
    ensures !e.Increment? && !e.Decrement? ==> Held(Step(s, e).holders, bs) == Held(s.holders, bs)
  {
    var s' := Step(s, e);
    match e
    case Build(_, _) =>
    case Select(_, _) => assert s'.holders[..|s.holders|] == s.holders;
    case Increment(h) => HeldUpdate(s.holders, h, s.holders[h].(counted := true), bs);
    case Leave(h) => HeldWithout(s.holders, h, bs);
    case Decrement(h) => HeldWithout(s.holders, h, bs);
  }

  lemma ActKeeps(bs: seq<nat>, start: State, r: Scan, a: Action)
    requires Distinct(bs) && NearlyRight(bs, start, r) && CanAct(bs, r, a)
    ensures NearlyRight(bs, start, Act(bs, r, a))
  {
    match a
    case Happen(e) =>
      StepMovesOne(r.s, e, Members(bs[r.pos..]));
      StepWellFormed(r.s, e);
      forall b | 0 <= b < |Step(r.s, e).counters|
        ensures Step(r.s, e).counters[b] == Wrap(Held(Step(r.s, e).holders, {b}))
      {
        StepAccounts(r.s, e, b);
      }
    case Read =>
      var b := bs[r.pos];
      assert Members(bs[r.pos..]) == {b} + Members(bs[r.pos + 1..]);
      HeldDisjoint(r.s.holders, {b}, Members(bs[r.pos + 1..]));
      WrapSum(r.total, r.sum, r.s.counters[b], Held(r.s.holders, {b}));
  }

  lemma {:induction false} ScanKeeps(bs: seq<nat>, start: State, actions: seq<Action>, r: Scan)
    requires Distinct(bs) && WellFormed(start) && Accounted(start) && Scanned(bs, start, actions, r)
    ensures NearlyRight(bs, start, r)
  {
    if actions == [] {
      assert bs[0..] == bs;
    } else {
      var last := |actions| - 1;
      var before :| Scanned(bs, start, actions[..last], before) && CanAct(bs, before, actions[last])
        && r == Act(bs, before, actions[last]);
      ScanKeeps(bs, start, actions[..last], before);
      ActKeeps(bs, start, before, actions[last]);
    }
  }

  // The increments and decrements among these.
  function Moves(actions: seq<Action>): nat {
    Tally(actions, (a: Action) => a.Happen? && (a.e.Increment? || a.e.Decrement?))
  }

  lemma {:induction false} MovesCounted(bs: seq<nat>, start: State, actions: seq<Action>, r: Scan)
    requires Scanned(bs, start, actions, r)
    ensures r.moved == Moves(actions)
  {
    if actions != [] {
      var last := |actions| - 1;
      var before :| Scanned(bs, start, actions[..last], before) && CanAct(bs, before, actions[last])
        && r == Act(bs, before, actions[last]);
      MovesCounted(bs, start, actions[..last], before);
    }
  }

  // The total of a pool read while handlers go on misses the number of handlers at its start by at most
  // the increments and decrements that happened meanwhile; exact when there were none.
  lemma TotalWhileChanging(events: seq<Event>, start: State, p: nat, actions: seq<Action>, r: Scan)
    requires Reached(events, start) && p < |start.pools|
    requires Scanned(start.pools[p].backends, start, actions, r) && r.pos == |start.pools[p].backends|
    ensures r.total == Wrap(r.sum) && r.moved == Moves(actions)
    ensures 0 - r.moved <= r.sum - Held(start.holders, Members(start.pools[p].backends)) <= r.moved
  {
    var bs := start.pools[p].backends;
    Invariant(events, start);
    ScanKeeps(bs, start, actions, r);
    MovesCounted(bs, start, actions, r);
    assert Members(bs[r.pos..]) == {};
    HeldNone(r.s.holders, {});
  }

  // A reload leaves every existing counter as it is, and the pools it makes start at zero.
  lemma ReloadKeepsCounters(events: seq<Event>, s: State, n: nat, protocol: Protocol)
    requires Reached(events, s)
    ensures var s', p := Step(s, Build(n, protocol)), |s.pools|;
      && s'.counters[..|s.counters|] == s.counters && s'.holders == s.holders
      && Reached(events + [Build(n, protocol)], s')
      && Held(s'.holders, Members(s'.pools[p].backends)) == 0
      && forall b | b in s'.pools[p].backends :: b < |s'.counters| && s'.counters[b] == 0
  {
    var e := Build(n, protocol);
    var s', p := Step(s, e), |s.pools|;
    assert (events + [e])[..|events|] == events;
    assert Reached(events + [e], s');
    Invariant(events, s);
    forall h | h in s'.holders ensures Weight(h, Members(s'.pools[p].backends)) == 0 {
      var q: nat :| InPool(s, h.backend, q) && s.pools[q].protocol == h.protocol;
      assert h.backend < |s.counters|;
    }
    HeldNone(s'.holders, Members(s'.pools[p].backends));
  }

  // Under the other L7 strategies no counter of the pool ever leaves zero.
  lemma UncountedStaysZero(events: seq<Event>, s: State, p: nat, b: nat)
    requires Reached(events, s) && InPool(s, b, p) && s.pools[p].protocol == L7(false)
    ensures b < |s.counters| && s.counters[b] == 0
  {
    Invariant(events, s);
    forall h | h in s.holders ensures Weight(h, {b}) == 0 {
      var q: nat :| InPool(s, h.backend, q) && s.pools[q].protocol == h.protocol;
    }
    HeldNone(s.holders, {b});
  }

  // When the last handler has ended every counter is back at zero.
  lemma QuietIsZero(events: seq<Event>, s: State)
    requires Reached(events, s) && s.holders == []
    ensures forall b | 0 <= b < |s.counters| :: s.counters[b] == 0
  {
    Invariant(events, s);
  }

  // ----- Whose handlers they are -----

  // The state after these events.
  function After(events: seq<Event>): State {
    if events == [] then START
    else
      var before, e := After(events[..|events| - 1]), events[|events| - 1];
      if Enabled(before, e) then Step(before, e) else before
  }

  lemma {:induction false} ReachedIsAfter(events: seq<Event>, s: State)
    requires Reached(events, s)
    ensures s == After(events)
  {
    if events != [] {
      var last := |events| - 1;
      var before :| Reached(events[..last], before) && Enabled(before, events[last]) && s == Step(before, events[last]);
      ReachedIsAfter(events[..last], before);
    }
  }

  // How many handlers of backend b have left, or have discounted themselves.
  function Left(events: seq<Event>, b: nat): nat {
    if events == [] then 0
    else
      var front, e := events[..|events| - 1], events[|events| - 1];
      var hs := After(front).holders;
      Left(front, b) + if e.Leave? && e.h < |hs| && hs[e.h].backend == b then 1 else 0
  }

  function Discounted(events: seq<Event>, b: nat): nat {
    if events == [] then 0
    else
      var front, e := events[..|events| - 1], events[|events| - 1];
      var hs := After(front).holders;
      Discounted(front, b) + if e.Decrement? && e.h < |hs| && hs[e.h].backend == b then 1 else 0
  }

  // Selections of backend i of pool p.
  function Selected(events: seq<Event>, p: nat, i: nat): nat {
    Tally(events, (e: Event) => e == Select(p, i))
  }

  // Handlers that have this backend, counted or not.
  function Having(hs: seq<Holder>, b: nat): nat { Tally(hs, WithBackend(b)) }

  function WithBackend(b: nat): Holder -> bool { (h: Holder) => h.backend == b }

  // Before a pool is built nobody selects from it, and nobody has its backends.
  lemma {:induction false} NothingBefore(events: seq<Event>, s: State, p: nat, i: nat, b: nat)
    requires Reached(events, s) && p >= |s.pools| && b >= |s.counters|
    ensures Selected(events, p, i) == 0 && Left(events, b) == 0 && Discounted(events, b) == 0
  {
    if events != [] {
      var last := |events| - 1;
      var before :| Reached(events[..last], before) && Enabled(before, events[last]) && s == Step(before, events[last]);
      ReachedIsAfter(events[..last], before);
      NothingBefore(events[..last], before, p, i, b);
      HaveExisting(events[..last], before);
    }
  }

  lemma HaveExisting(events: seq<Event>, s: State)
    requires Reached(events, s)
    ensures forall h | 0 <= h < |s.holders| :: s.holders[h].backend < |s.counters|
  {
    Invariant(events, s);
    forall h | 0 <= h < |s.holders| ensures s.holders[h].backend < |s.counters| {
      assert FromPool(s, s.holders[h]);
      var q: nat :| InPool(s, s.holders[h].backend, q) && s.pools[q].protocol == s.holders[h].protocol;
    }
  }

  lemma {:induction false} NobodyHas(hs: seq<Holder>, b: nat)
    requires forall h | 0 <= h < |hs| :: hs[h].backend != b
    ensures Having(hs, b) == 0
  {
    if hs != [] { NobodyHas(hs[..|hs| - 1], b); }
  }

  // How one step moves the handlers of a backend.
  lemma StepHaving(s: State, e: Event, b: nat)
    requires Enabled(s, e)
    ensures Having(Step(s, e).holders, b) == Having(s.holders, b)
      + (if e.Select? && s.pools[e.p].backends[e.i] == b then 1 else 0)
      - (if (e.Leave? || e.Decrement?) && s.holders[e.h].backend == b then 1 else 0)
  {
    var s' := Step(s, e);
    match e
    case Build(_, _) =>
    case Select(_, _) => assert s'.holders[..|s.holders|] == s.holders;
    case Increment(h) =>
      TallyWithout(s.holders, h, WithBackend(b));
      TallyWithout(s'.holders, h, WithBackend(b));
      assert Without(s.holders, h) == Without(s'.holders, h);
    case Leave(h) => TallyWithout(s.holders, h, WithBackend(b));
    case Decrement(h) => TallyWithout(s.holders, h, WithBackend(b));
  }

  // Every selection of a backend is a handler that has that backend, one that has left, or one that has
  // discounted itself.
  lemma {:induction false} SelectionsAccounted(events: seq<Event>, s: State, p: nat, i: nat)
    requires Reached(events, s) && p < |s.pools| && i < |s.pools[p].backends|
    ensures var b := s.pools[p].backends[i];
      Selected(events, p, i) == Having(s.holders, b) + Left(events, b) + Discounted(events, b)
  {
    var last := |events| - 1;
    var front, e := events[..last], events[last];
    var before :| Reached(front, before) && Enabled(before, e) && s == Step(before, e);
    var b := s.pools[p].backends[i];
    ReachedIsAfter(front, before);
    StepHaving(before, e, b);
    if p < |before.pools| {
      SelectionsAccounted(front, before, p, i);
      Invariant(front, before);
      if e.Select? { SameBackend(before, p, i, e.p, e.i); }
    } else {
      NothingBefore(front, before, p, i, b);
      HaveExisting(front, before);
      NobodyHas(before.holders, b);
    }
  }

  lemma SameBackend(s: State, p: nat, i: nat, q: nat, j: nat)
    requires WellFormed(s) && p < |s.pools| && i < |s.pools[p].backends|
    requires q < |s.pools| && j < |s.pools[q].backends|
    ensures s.pools[p].backends[i] == s.pools[q].backends[j] <==> p == q && i == j
  {
    if s.pools[p].backends[i] == s.pools[q].backends[j] {
      assert InPool(s, s.pools[p].backends[i], p) && InPool(s, s.pools[p].backends[i], q);
    }
  }

  // A handler that counts itself under least-connections never just leaves, and one of another L7 strategy
  // never discounts itself.
  lemma {:induction false} WhoLeaves(events: seq<Event>, s: State, p: nat, i: nat)
    requires Reached(events, s) && p < |s.pools| && i < |s.pools[p].backends|
    ensures var b := s.pools[p].backends[i];
      && (s.pools[p].protocol == L7(true) ==> Left(events, b) == 0)
      && (s.pools[p].protocol == L7(false) ==> Discounted(events, b) == 0)
  {
    var last := |events| - 1;
    var front, e := events[..last], events[last];
    var before :| Reached(front, before) && Enabled(before, e) && s == Step(before, e);
    var b := s.pools[p].backends[i];
    ReachedIsAfter(front, before);
    if p < |before.pools| {
      WhoLeaves(front, before, p, i);
      HoldersOf(front, before, p, i);
    } else {
      NothingBefore(front, before, p, i, b);
      HaveExisting(front, before);
    }
  }

  lemma HoldersOf(events: seq<Event>, s: State, p: nat, i: nat)
    requires Reached(events, s) && p < |s.pools| && i < |s.pools[p].backends|
    ensures forall h | 0 <= h < |s.holders| && s.holders[h].backend == s.pools[p].backends[i] ::
      && s.holders[h].protocol == s.pools[p].protocol
      && (s.holders[h].counted ==> s.pools[p].protocol != L7(false))
  {
    Invariant(events, s);
    var b := s.pools[p].backends[i];
    assert InPool(s, b, p);
    forall h | 0 <= h < |s.holders| && s.holders[h].backend == b
      ensures s.holders[h].protocol == s.pools[p].protocol
      ensures s.holders[h].counted ==> s.pools[p].protocol != L7(false)
    {
      assert s.holders[h] in s.holders;
      var q: nat :| InPool(s, b, q) && s.pools[q].protocol == s.holders[h].protocol;
    }
  }

  // The pools are those that were built, each with as many backends as it was built with.
  lemma {:induction false} PoolsAsBuilt(events: seq<Event>, s: State)
    requires Reached(events, s)
    ensures var builds := Builds(events);
      && |s.pools| == |builds|
      && forall p | 0 <= p < |builds| ::
           |s.pools[p].backends| == builds[p].n && s.pools[p].protocol == builds[p].protocol
  {
    if events != [] {
      var last := |events| - 1;
      var before :| Reached(events[..last], before) && Enabled(before, events[last]) && s == Step(before, events[last]);
      PoolsAsBuilt(events[..last], before);
    }
  }

  function Builds(events: seq<Event>): (builds: seq<Event>)
    ensures forall e | e in builds :: e.Build?
  {
    if events == [] then []
    else Builds(events[..|events| - 1]) + if events[|events| - 1].Build? then [events[|events| - 1]] else []
  }

  // ----- The life of a handler -----

  lemma Next(events: seq<Event>, s: State, e: Event)
    requires Reached(events, s) && Enabled(s, e)
    ensures Reached(events + [e], Step(s, e))
  {
    assert (events + [e])[..|events|] == events;
  }

  // At any time a handler can select any backend of a pool. One that counts itself raises the counter of
  // the backend it selected and no other, and leaves everything as it was when it has discounted itself.
  lemma CountedLife(events: seq<Event>, s: State, p: nat, i: nat)
    requires Reached(events, s) && p < |s.pools| && i < |s.pools[p].backends|
    requires s.pools[p].protocol != L7(false)
    ensures var b, h := s.pools[p].backends[i], |s.holders|;
      && b < |s.counters|
      && var c: nat := s.counters[b];
      && Reached(events + [Select(p, i)] + [Increment(h)],
           State(s.counters[b := Wrap(c + 1)], s.pools, s.holders + [Holder(b, s.pools[p].protocol, true)]))
      && Reached(events + [Select(p, i)] + [Increment(h)] + [Decrement(h)], s)
  {
    var b, h := s.pools[p].backends[i], |s.holders|;
    Invariant(events, s);
    assert InPool(s, b, p);
    var s1 := Step(s, Select(p, i));
    CountsUp(s, b, s.pools[p].protocol);
    Next(events, s, Select(p, i));
    Next(events + [Select(p, i)], s1, Increment(h));
    Next(events + [Select(p, i)] + [Increment(h)], Step(s1, Increment(h)), Decrement(h));
  }

  lemma CountsUp(s: State, b: nat, protocol: Protocol)
    requires b < |s.counters| && protocol != L7(false)
    ensures var h, c: nat := |s.holders|, s.counters[b];
      var s1 := s.(holders := s.holders + [Holder(b, protocol, false)]);
      var s2 := State(s.counters[b := Wrap(c + 1)], s.pools, s.holders + [Holder(b, protocol, true)]);
      && Enabled(s1, Increment(h)) && Step(s1, Increment(h)) == s2
      && Enabled(s2, Decrement(h)) && Step(s2, Decrement(h)) == s
  {
    var h, c: nat := |s.holders|, s.counters[b];
    var s1 := s.(holders := s.holders + [Holder(b, protocol, false)]);
    assert s1.holders[h := s1.holders[h].(counted := true)] == s.holders + [Holder(b, protocol, true)];
    OneUpOneDown(c);
    assert s.counters[b := Wrap(c + 1)][b := c] == s.counters;
    assert Without(s.holders + [Holder(b, protocol, true)], h) == s.holders;
  }

  lemma OneUpOneDown(c: nat)
    requires c < U64
    ensures Wrap(Wrap(c + 1) + (U64 - 1)) == c
  {
    WrapAdd(c + 1, U64 - 1);
  }

  // One that does not count itself, or whose dial fails, touches no counter.
  lemma UncountedLife(events: seq<Event>, s: State, p: nat, i: nat)
    requires Reached(events, s) && p < |s.pools| && i < |s.pools[p].backends|
    requires s.pools[p].protocol != L7(true)
    ensures var b, h := s.pools[p].backends[i], |s.holders|;
      && Reached(events + [Select(p, i)],
           State(s.counters, s.pools, s.holders + [Holder(b, s.pools[p].protocol, false)]))
      && Reached(events + [Select(p, i)] + [Leave(h)], s)
  {
    var h := |s.holders|;
    var s1 := Step(s, Select(p, i));
    Next(events, s, Select(p, i));
    Next(events + [Select(p, i)], s1, Leave(h));
    assert Without(s1.holders, h) == s.holders;
  }

  // Two backends, the second selected: its counter rises.
  lemma SecondCounted()
    ensures Reached([Build(2, L7(true)), Select(0, 1), Increment(0)],
      State([0, 1], [BackendPool([0, 1], L7(true))], [Holder(1, L7(true), true)]))
  {
    var e, s := Build(2, L7(true)), State([0, 0], [BackendPool([0, 1], L7(true))], []);
    TwoBuilt();
    CountedLife([e], s, 0, 1);
    var counters: seq<uint64> := [0, 0];
    assert Wrap(1) == 1 && counters[1 := 1] == [0, 1];
    assert [e] + [Select(0, 1)] + [Increment(0)] == [e, Select(0, 1), Increment(0)];
  }

  lemma TwoBuilt()
    ensures Reached([Build(2, L7(true))], State([0, 0], [BackendPool([0, 1], L7(true))], []))
  {
    var e := Build(2, L7(true));
    assert Range(0, 2) == [0, 1] && Zeros(2) == [0, 0];
    assert START.counters + Zeros(2) == Zeros(2);
    Next([], START, e);
    assert [] + [e] == [e];
  }

  // ----- On the pool objects -----

  // These are the counters of pool p.
  ghost predicate Mirrors(s: State, p: nat, conns: seq<nat>) {
    && p < |s.pools| && |s.pools[p].backends| == |conns|
    && forall i | 0 <= i < |conns| ::
         s.pools[p].backends[i] < |s.counters| && s.counters[s.pools[p].backends[i]] == conns[i]
  }

  // The pool object stands for pool p, whose handlers count themselves under the two strategies that look
  // at the counters.
  ghost predicate Shows(s: State, p: nat, pool: Pool.BackendPool)
    reads pool.backends
  {
    && Mirrors(s, p, pool.Connections())
    && s.pools[p].protocol == L7(pool.strategy in {"least-connections", "weighted-least-connections"})
  }

  lemma CountMirrored(events: seq<Event>, s: State, p: nat, i: nat, h: nat, conns: seq<nat>)
    requires Reached(events, s) && Mirrors(s, p, conns) && i < |conns|
    requires h < |s.holders| && s.holders[h].backend == s.pools[p].backends[i]
    ensures Enabled(s, Increment(h)) ==> Mirrors(Step(s, Increment(h)), p, conns[i := Wrap(conns[i] + 1)])
    ensures Enabled(s, Decrement(h)) ==> Mirrors(Step(s, Decrement(h)), p, conns[i := Wrap(conns[i] + (U64 - 1))])
  {
    Invariant(events, s);
    assert Distinct(s.pools[p].backends);
  }

  // A backend counts up and down as the model does.
  method CountOn(pool: Pool.BackendPool, best: Pool.Backend, ghost i: nat)
    requires pool.Valid() && i < |pool.backends| && pool.backends[i] == best
    modifies best`connections
    ensures pool.Connections() == old(pool.Connections())[i := Wrap(old(pool.Connections())[i] + 1)]
  {
    best.IncrementConnections();
  }

  method DiscountOn(pool: Pool.BackendPool, best: Pool.Backend, ghost i: nat)
    requires pool.Valid() && i < |pool.backends| && pool.backends[i] == best
    modifies best`connections
    ensures pool.Connections() == old(pool.Connections())[i := Wrap(old(pool.Connections())[i] + (U64 - 1))]
  {
    ghost var c: nat := best.connections;
    best.DecrementConnections();
    Down(c);
  }

  lemma Down(c: nat)
    requires c < U64
    ensures Wrap(c + (U64 - 1)) == if c == 0 then U64 - 1 else c - 1
  {
    if c > 0 { assert Wrap(c + (U64 - 1)) == Wrap(c - 1); }
  }

  // A handler that has selected counts itself, is served, and discounts itself.
  method Counted(pool: Pool.BackendPool, best: Pool.Backend, ghost i: nat,
                 ghost events: seq<Event>, ghost s: State, ghost p: nat)
    returns (ghost during: seq<nat>)
    requires pool.Valid() && Reached(events, s) && Shows(s, p, pool) && s.pools[p].protocol != L7(false)
    requires i < |pool.backends| && pool.backends[i] == best
    modifies best`connections
    ensures during == old(pool.Connections())[i := Wrap(old(pool.Connections())[i] + 1)]
    ensures pool.Connections() == old(pool.Connections())
    ensures exists s' ::
      Reached(events + [Select(p, i)] + [Increment(|s.holders|)], s') && Mirrors(s', p, during)
    ensures Reached(events + [Select(p, i)] + [Increment(|s.holders|)] + [Decrement(|s.holders|)], s)
  {
    ghost var conns := pool.Connections();
    CountedMirrored(events, s, p, i, conns);
    CountOn(pool, best, i);
    during := pool.Connections();
    DiscountOn(pool, best, i);
    OneUpOneDown(conns[i]);
  }

  lemma CountedMirrored(events: seq<Event>, s: State, p: nat, i: nat, conns: seq<nat>)
    requires Reached(events, s) && Mirrors(s, p, conns) && i < |conns| && s.pools[p].protocol != L7(false)
    ensures conns[i] < U64
    ensures exists s' ::
      Reached(events + [Select(p, i)] + [Increment(|s.holders|)], s') && Mirrors(s', p, conns[i := Wrap(conns[i] + 1)])
    ensures Reached(events + [Select(p, i)] + [Increment(|s.holders|)] + [Decrement(|s.holders|)], s)
  {
    var h, s1 := |s.holders|, Step(s, Select(p, i));
    CountedLife(events, s, p, i);
    CountsUp(s, s.pools[p].backends[i], s.pools[p].protocol);
    Next(events, s, Select(p, i));
    Next(events + [Select(p, i)], s1, Increment(h));
    CountMirrored(events + [Select(p, i)], s1, p, i, h, conns);
  }

  // A selection moves no counter.
  method Choose(pool: Pool.BackendPool, clientIP: string, splitHost: string -> Option<string>, fnv: string -> nat,
                round: real -> real, seen: seq<bool>)
    returns (best: Pool.Backend?, ghost pick: nat)
    requires pool.Valid() && |seen| == |pool.backends|
    requires Scores.Rounding(round) && forall b | b in pool.backends :: b.Weight < U64
    requires forall h :: fnv(h) < 0x1_0000_0000
    modifies pool`current, (set b | b in pool.backends)`CurrentWeight
    ensures pool.Connections() == old(pool.Connections())
    ensures best != null ==> pick < |pool.backends| && pool.backends[pick] == best
  {
    best, pick := pool.GetNextBackend(clientIP, splitHost, fnv, round, seen);
  }

  // A request from its selection to its end: it is counted on the selected backend and no other while it is
  // served, under the two strategies that look at the counters, and leaves all counters as they were.
  method ServeRequest(pool: Pool.BackendPool, clientIP: string, splitHost: string -> Option<string>,
                      fnv: string -> nat, round: real -> real, seen: seq<bool>,
                      ghost events: seq<Event>, ghost s: State, ghost p: nat)
    returns (best: Pool.Backend?, ghost pick: nat, ghost during: seq<nat>, ghost events': seq<Event>)
    requires pool.Valid() && |seen| == |pool.backends|
    requires Scores.Rounding(round) && forall b | b in pool.backends :: b.Weight < U64
    requires forall h :: fnv(h) < 0x1_0000_0000
    requires Reached(events, s) && Shows(s, p, pool)
    modifies pool`current, (set b | b in pool.backends)
    ensures Reached(events', s) && Shows(s, p, pool) && pool.Connections() == old(pool.Connections())
    ensures best == null ==> events' == events && during == old(pool.Connections())
    ensures best != null ==>
      && pick < |pool.backends| && pool.backends[pick] == best
      && if pool.strategy in {"least-connections", "weighted-least-connections"}
         then
           && during == old(pool.Connections())[pick := Wrap(old(pool.Connections())[pick] + 1)]
           && events' == events + [Select(p, pick)] + [Increment(|s.holders|)] + [Decrement(|s.holders|)]
         else during == old(pool.Connections()) && events' == events + [Select(p, pick)] + [Leave(|s.holders|)]
  {
    ghost var conns := pool.Connections();
    best, pick := Choose(pool, clientIP, splitHost, fnv, round, seen);
    during, events' := conns, events;
    if best == null {
      return;
    }
    if pool.strategy == "least-connections" || pool.strategy == "weighted-least-connections" {
      events' := events + [Select(p, pick)] + [Increment(|s.holders|)] + [Decrement(|s.holders|)];
      during := Counted(pool, best, pick, events, s, p);
    } else {
      events' := events + [Select(p, pick)] + [Leave(|s.holders|)];
      UncountedLife(events, s, p, pick);
    }
    assert pool.Connections() == conns;
  }
}
