// Round-robin calls running at the same time: each draws its tickets one by one from the shared
// counter, so the tickets of one call need not be consecutive. Eligibility stays put.
module RoundRobinCallers {
  import opened Options
  import opened Sums
  import opened Uint64
  import opened RoundRobin

  // A call that has drawn tries tickets in vain since start tickets had been drawn by all calls, or one
  // that has found its backend and not yet returned it.
  datatype Caller = Looking(tries: nat, start: nat) | Found(backend: nat)

  // drawn counts the tickets, returned holds the answers of the completed calls.
  datatype State = State(current: uint64, drawn: nat, callers: seq<Caller>, returned: seq<Option<nat>>)

  datatype Event = Begin | Draw(p: nat) | Return(p: nat)

  function Start(cur: uint64): State { State(cur, 0, [], []) }

  predicate Enabled(on: seq<bool>, s: State, e: Event) {
    match e
    case Begin => true
    case Draw(p) => p < |s.callers| && s.callers[p].Looking? && s.callers[p].tries < |on|
    case Return(p) => p < |s.callers| && (s.callers[p].Looking? ==> s.callers[p].tries == |on|)
  }

  function Step(on: seq<bool>, s: State, e: Event): State
    requires Enabled(on, s, e)
  {
    match e
    case Begin => s.(callers := s.callers + [Looking(0, s.drawn)])
    case Draw(p) =>
      var cur: nat := s.current;
      var index := Attempt(|on|, cur, 0);
      var c := if on[index] then Found(index) else Looking(s.callers[p].tries + 1, s.callers[p].start);
      State(Wrap(cur + 1), s.drawn + 1, s.callers[p := c], s.returned)
    case Return(p) =>
      s.(callers := s.callers[..p] + s.callers[p + 1..],
         returned := s.returned + [if s.callers[p].Found? then Some(s.callers[p].backend) else None])
  }

  // s is reached from a counter of cur by these events, in this order.
  ghost predicate Reached(on: seq<bool>, cur: uint64, events: seq<Event>, s: State) {
    if events == [] then s == Start(cur)
    else
      var last := |events| - 1;
      exists before :: Reached(on, cur, events[..last], before) && Enabled(on, before, events[last])
        && s == Step(on, before, events[last])
  }

  lemma LastStep(on: seq<bool>, cur: uint64, events: seq<Event>, s: State) returns (before: State)
    requires events != [] && Reached(on, cur, events, s)
    ensures Reached(on, cur, events[..|events| - 1], before)
    ensures Enabled(on, before, events[|events| - 1]) && s == Step(on, before, events[|events| - 1])
  {
    var last := |events| - 1;
    before :| Reached(on, cur, events[..last], before) && Enabled(on, before, events[last])
      && s == Step(on, before, events[last]);
  }

  lemma Extend(on: seq<bool>, cur: uint64, events: seq<Event>, s: State, e: Event)
    requires Reached(on, cur, events, s) && Enabled(on, s, e)
    ensures Reached(on, cur, events + [e], Step(on, s, e))
  {
    assert (events + [e])[..|events|] == events;
  }

  lemma {:induction false} CounterFollows(on: seq<bool>, cur: uint64, events: seq<Event>, s: State)
    requires Reached(on, cur, events, s)
    ensures s.current == Wrap(cur + s.drawn)
  {
    if events != [] {
      var before := LastStep(on, cur, events, s);
      CounterFollows(on, cur, events[..|events| - 1], before);
      WrapAdd(cur + before.drawn, 1);
    }
  }

  lemma NextIndex(on: seq<bool>, cur: uint64, events: seq<Event>, s: State)
    requires on != [] && Reached(on, cur, events, s)
    ensures Attempt(|on|, s.current, 0) == Attempt(|on|, cur, s.drawn)
  {
    CounterFollows(on, cur, events, s);
    WrapAdd(cur + s.drawn, 1);
  }

  // ----- Who gets the tickets -----

  // How many of the tickets a .. b-1, counted from the first one drawn, fall on a flagged index.
  function Falls(sel: seq<bool>, cur: nat, a: nat, b: nat): nat
    requires sel != [] && a <= b
    decreases b
  {
    if a == b then 0 else Falls(sel, cur, a, b - 1) + if sel[Attempt(|sel|, cur, b - 1)] then 1 else 0
  }

  // Answers that name i, given and still to be given.
  function Share(s: State, i: nat): nat {
    Given(s.returned, i) + Held(s.callers, Some(i))
  }

  function Given(returned: seq<Option<nat>>, i: nat): nat {
    Tally(returned, (answer: Option<nat>) => answer == Some(i))
  }

  // Calls that have found this backend, or any.
  function Held(callers: seq<Caller>, which: Option<nat>): nat { Tally(callers, Holding(which)) }

  function Holding(which: Option<nat>): Caller -> bool {
    (c: Caller) => c.Found? && (which.Some? ==> c.backend == which.value)
  }

  lemma StepShare(on: seq<bool>, s: State, e: Event, i: nat)
    requires Enabled(on, s, e)
    ensures Share(Step(on, s, e), i)
         == Share(s, i) + if e.Draw? && Attempt(|on|, s.current, 0) == i && on[i] then 1 else 0
  {
    var s' := Step(on, s, e);
    match e
    case Begin =>
      assert s'.callers[..|s.callers|] == s.callers;
    case Draw(p) =>
      TallyWithout(s.callers, p, Holding(Some(i)));
      TallyWithout(s'.callers, p, Holding(Some(i)));
      assert s'.callers[..p] + s'.callers[p + 1..] == s.callers[..p] + s.callers[p + 1..];
    case Return(p) =>
      TallyWithout(s.callers, p, Holding(Some(i)));
      assert s'.returned[..|s.returned|] == s.returned;
  }

  // Every ticket that falls on an eligible backend becomes an answer naming it, in any schedule and
  // across any number of wraps; an ineligible backend is never answered.
  lemma {:induction false} TicketsAccounted(on: seq<bool>, cur: uint64, events: seq<Event>, s: State, i: nat)
    requires Reached(on, cur, events, s) && i < |on|
    ensures Share(s, i) == if on[i] then Falls(Only(Everyone(|on|), i), cur, 0, s.drawn) else 0
  {
    if events != [] {
      var before := LastStep(on, cur, events, s);
      var e := events[|events| - 1];
      TicketsAccounted(on, cur, events[..|events| - 1], before, i);
      StepShare(on, before, e, i);
      NextIndex(on, cur, events[..|events| - 1], before);
    }
  }

  // ----- Balance -----

  // Without a wrap, or with one that does not shift the cycle, tickets are consecutive numbers.
  lemma {:induction false} FallsPlain(sel: seq<bool>, cur: nat, a: nat, b: nat)
    requires sel != [] && a <= b && (Wrap(cur + 1) + b <= U64 || U64 % |sel| == 0)
    ensures Falls(sel, cur, a, b) == Hits(sel, Wrap(cur + 1) + a, Wrap(cur + 1) + b)
    decreases b
  {
    var first := Wrap(cur + 1);
    if a < b {
      FallsPlain(sel, cur, a, b - 1);
      AttemptPlain(|sel|, cur, first, first + b, b - 1);
    }
  }

  // How often the counter passes 2^64 in m tickets.
  function Wraps(cur: nat, m: nat): nat
    decreases m
  {
    var left := U64 - Wrap(cur + 1);
    if m <= left then 0 else 1 + Wraps(U64 - 1, m - left)
  }

  // Behind a wrap the tickets go on as from a counter of 2^64 - 1.
  lemma {:induction false} FallsAcrossWrap(sel: seq<bool>, cur: nat, left: nat, m: nat)
    requires sel != [] && left == U64 - Wrap(cur + 1) <= m
    ensures Falls(sel, cur, 0, m) == Falls(sel, cur, 0, left) + Falls(sel, U64 - 1, 0, m - left)
    decreases m
  {
    if m > left {
      FallsAcrossWrap(sel, cur, left, m - 1);
      SameTicket(cur, left, m - 1 - left);
    }
  }

  lemma SameTicket(cur: nat, left: nat, t: nat)
    requires left == U64 - Wrap(cur + 1)
    ensures Wrap(cur + 1 + (left + t)) == Wrap(U64 - 1 + 1 + t)
  {
    Congruent(cur + 1, U64 - left, left + t);
  }

  // Two backends differ by one ticket at most, and by one more for each wrap that shifts the cycle.
  lemma {:induction false} FallsBalanced(n: nat, cur: nat, m: nat, i: nat, j: nat)
    requires i < n && j < n
    ensures Falls(Only(Everyone(n), i), cur, 0, m)
         <= Falls(Only(Everyone(n), j), cur, 0, m) + 1 + if U64 % n == 0 then 0 else Wraps(cur, m)
    decreases m
  {
    var left, a, b := U64 - Wrap(cur + 1), Only(Everyone(n), i), Only(Everyone(n), j);
    if m <= left || U64 % n == 0 {
      FallsPlain(a, cur, 0, m);
      FallsPlain(b, cur, 0, m);
      HitsBalanced(n, Wrap(cur + 1), m, i);
      HitsBalanced(n, Wrap(cur + 1), m, j);
    } else {
      FallsBalanced(n, cur, left, i, j);
      FallsBalanced(n, U64 - 1, m - left, i, j);
      FallsAcrossWrap(a, cur, left, m);
      FallsAcrossWrap(b, cur, left, m);
    }
  }

  // In any schedule the answers are spread evenly over the eligible backends, up to one, plus one for
  // each wrap of the counter that shifts the cycle.
  lemma ConcurrentSpread(on: seq<bool>, cur: uint64, events: seq<Event>, s: State, i: nat, j: nat)
    requires Reached(on, cur, events, s) && i < |on| && j < |on| && on[i] && on[j]
    ensures Share(s, i) <= Share(s, j) + 1 + if U64 % |on| == 0 then 0 else Wraps(cur, s.drawn)
    ensures s.callers == [] ==> Share(s, i) == Given(s.returned, i)
  {
    TicketsAccounted(on, cur, events, s, i);
    TicketsAccounted(on, cur, events, s, j);
    FallsBalanced(|on|, cur, s.drawn, i, j);
  }

  // ----- All backends eligible -----

  // No call has missed, and every ticket has found a backend.
  ghost predicate NoneMissed(s: State) {
    && (forall c | c in s.callers && c.Looking? :: c.tries == 0)
    && (forall a | a in s.returned :: a.Some?)
    && s.drawn == |s.returned| + Held(s.callers, None)
  }

  lemma StepFinds(on: seq<bool>, s: State, e: Event)
    requires on != [] && (forall i | 0 <= i < |on| :: on[i]) && Enabled(on, s, e) && NoneMissed(s)
    ensures NoneMissed(Step(on, s, e))
  {
    var s' := Step(on, s, e);
    match e
    case Begin =>
      assert s'.callers[..|s.callers|] == s.callers;
    case Draw(p) =>
      TallyWithout(s.callers, p, Holding(None));
      TallyWithout(s'.callers, p, Holding(None));
      assert s'.callers[..p] + s'.callers[p + 1..] == s.callers[..p] + s.callers[p + 1..];
    case Return(p) =>
      assert s.callers[p] in s.callers;
      TallyWithout(s.callers, p, Holding(None));
  }

  lemma {:induction false} NobodyMisses(on: seq<bool>, cur: uint64, events: seq<Event>, s: State)
    requires on != [] && (forall i | 0 <= i < |on| :: on[i]) && Reached(on, cur, events, s)
    ensures NoneMissed(s)
  {
    if events != [] {
      var before := LastStep(on, cur, events, s);
      NobodyMisses(on, cur, events[..|events| - 1], before);
      StepFinds(on, before, events[|events| - 1]);
    }
  }

  // Once all calls have returned, m of them have answered each of the n backends floor(m/n) or
  // ceil(m/n) times.
  lemma ConcurrentBalance(on: seq<bool>, cur: uint64, events: seq<Event>, s: State, i: nat)
    requires i < |on| && (forall j | 0 <= j < |on| :: on[j]) && Reached(on, cur, events, s)
    requires s.callers == [] && CleanTickets(|on|, cur, s.drawn)
    ensures var n, m := |on|, |s.returned|;
      m / n <= Given(s.returned, i) <= m / n + if m % n == 0 then 0 else 1
  {
    AllReturned(on, cur, events, s, i);
    FallsFair(|on|, cur, |s.returned|, i);
  }

  lemma AllReturned(on: seq<bool>, cur: uint64, events: seq<Event>, s: State, i: nat)
    requires i < |on| && (forall j | 0 <= j < |on| :: on[j]) && Reached(on, cur, events, s) && s.callers == []
    ensures s.drawn == |s.returned|
    ensures Given(s.returned, i) == Falls(Only(Everyone(|on|), i), cur, 0, |s.returned|)
  {
    NobodyMisses(on, cur, events, s);
    TicketsAccounted(on, cur, events, s, i);
  }

  lemma FallsFair(n: nat, cur: nat, m: nat, i: nat)
    requires i < n && CleanTickets(n, cur, m)
    ensures m / n <= Falls(Only(Everyone(n), i), cur, 0, m) <= m / n + if m % n == 0 then 0 else 1
  {
    FallsPlain(Only(Everyone(n), i), cur, 0, m);
    HitsBalanced(n, Wrap(cur + 1), m, i);
  }

  // m tickets meet no wrap, or one that does not shift the cycle.
  predicate CleanTickets(n: nat, cur: nat, m: nat) {
    Wrap(cur + 1) + m <= U64 || (n > 0 && U64 % n == 0)
  }

  // ----- When a call comes back empty -----

  // The tickets of a call that is still looking were all in vain.
  ghost predicate InVain(on: seq<bool>, cur: nat, s: State, p: nat)
    requires on != []
  {
    && p < |s.callers| && s.callers[p].Looking?
    && var c := s.callers[p];
    && c.start <= s.drawn && c.tries + Falls(on, cur, c.start, s.drawn) <= s.drawn - c.start
  }

  // Where in the previous state a call was.
  function Before(e: Event, p: nat): nat {
    if e.Return? && p >= e.p then p + 1 else p
  }

  lemma StepInVain(on: seq<bool>, cur: nat, s: State, e: Event, p: nat)
    requires on != [] && Enabled(on, s, e) && Attempt(|on|, s.current, 0) == Attempt(|on|, cur, s.drawn)
    requires var s' := Step(on, s, e); p < |s'.callers| && s'.callers[p].Looking?
    requires Before(e, p) < |s.callers| ==> InVain(on, cur, s, Before(e, p))
    ensures InVain(on, cur, Step(on, s, e), p)
  {
  }

  lemma {:induction false} LookedInVain(on: seq<bool>, cur: uint64, events: seq<Event>, s: State, p: nat)
    requires on != [] && Reached(on, cur, events, s) && p < |s.callers| && s.callers[p].Looking?
    ensures InVain(on, cur, s, p)
    decreases |events|
  {
    var before := LastStep(on, cur, events, s);
    var e := events[|events| - 1];
    if Before(e, p) < |before.callers| {
      LookedInVain(on, cur, events[..|events| - 1], before, Before(e, p));
    }
    NextIndex(on, cur, events[..|events| - 1], before);
    StepInVain(on, cur, before, e, p);
  }

  // A call comes back empty only if others drew at least as many tickets in the meantime as there are
  // eligible backends.
  lemma MissNeedsOthers(on: seq<bool>, cur: uint64, events: seq<Event>, s: State, p: nat)
    requires on != [] && Reached(on, cur, events, s) && p < |s.callers|
    requires s.callers[p].Looking? && s.callers[p].tries == |on| && CleanTickets(|on|, cur, s.drawn)
    ensures s.drawn - s.callers[p].start >= |on| + Size(on, |on|)
  {
    var n, first, a := |on|, Wrap(cur + 1), s.callers[p].start;
    LookedInVain(on, cur, events, s, p);
    FallsPlain(on, cur, a, s.drawn);
    HitsSplit(on, first + a, first + a + n, first + s.drawn);
    HitsCycle(on, first + a);
  }

  // In some schedule some call comes back empty before more than bound tickets are drawn by all calls.
  ghost predicate CanMiss(on: seq<bool>, cur: uint64, bound: nat) {
    exists events, s: State, p: nat | Reached(on, cur, events, s) && p < |s.callers| ::
      s.callers[p].Looking? && s.callers[p].tries == |on| && s.drawn <= bound
  }

  // Calls at the same time can miss the eligible backends as soon as one backend is not eligible. It
  // takes n^2 tickets at most, or twice as many if the counter shifts the cycle meanwhile.
  lemma CanMissIff(on: seq<bool>, cur: uint64, bound: nat)
    requires 0 < |on| < U64 && bound >= |on| * Wait(|on|, cur)
    ensures CanMiss(on, cur, bound) <==> exists m :: 0 <= m < |on| && !on[m]
  {
    if forall m | 0 <= m < |on| :: on[m] {
      forall events, s: State, p: nat | Reached(on, cur, events, s) && p < |s.callers|
        ensures !(s.callers[p].Looking? && s.callers[p].tries == |on|)
      {
        NobodyMisses(on, cur, events, s);
        assert s.callers[p] in s.callers;
      }
    } else {
      var m: nat :| m < |on| && !on[m];
      var events, s := AlwaysUnlucky(on, cur, m, |on|);
      assert Reached(on, cur, events, s) && 0 < |s.callers|;
    }
  }

  // How many tickets an index can be away while n * n of them are drawn.
  function Wait(n: nat, cur: nat): nat {
    if CleanTickets(n, cur, n * n) then n else 2 * n
  }

  // A schedule in which the first call draws k tickets, all for m, and others draw the rest.
  lemma {:induction false} AlwaysUnlucky(on: seq<bool>, cur: uint64, m: nat, k: nat)
    returns (events: seq<Event>, s: State)
    requires m < |on| < U64 && !on[m] && k <= |on|
    ensures Reached(on, cur, events, s) && s.callers != [] && s.callers[0] == Looking(k, 0)
    ensures s.drawn <= k * Wait(|on|, cur)
    decreases k
  {
    if k == 0 {
      assert Reached(on, cur, [], Start(cur));
      Extend(on, cur, [], Start(cur), Begin);
      events, s := [] + [Begin], Step(on, Start(cur), Begin);
    } else {
      events, s := AlwaysUnlucky(on, cur, m, k - 1);
      CounterFollows(on, cur, events, s);
      if CleanTickets(|on|, cur, |on| * |on|) { WithinSquare(|on|, k, s.drawn); }
      var d := NextTicketFor(|on|, cur, s.drawn, |on| * |on|, m);
      events, s := OthersDraw(on, cur, events, s, m, d);
      Extend(on, cur, events, s, Draw(0));
      events, s := events + [Draw(0)], Step(on, s, Draw(0));
      Times(k, Wait(|on|, cur));
    }
  }

  lemma Times(k: nat, w: nat)
    requires k > 0
    ensures k * w == (k - 1) * w + w
  {
  }

  // After drawn tickets the next one for m is fewer than 2 n away, and fewer than n while all are clean.
  lemma NextTicketFor(n: nat, cur: nat, drawn: nat, all: nat, m: nat) returns (d: nat)
    requires m < n < U64 && (CleanTickets(n, cur, all) ==> drawn + n <= all)
    ensures d < 2 * n && (CleanTickets(n, cur, all) ==> d < n)
    ensures Attempt(n, Wrap(cur + drawn), d) == m
  {
    var now := Wrap(cur + drawn);
    if CleanTickets(n, cur, all) { StaysClean(n, cur, drawn, all); }
    if CleanWindow(n, now) {
      d := WindowCovers(n, now, m);
    } else {
      d := TicketBehindWrap(n, now, m);
    }
  }

  lemma WithinSquare(n: nat, k: nat, drawn: nat)
    requires 0 < k <= n && drawn <= (k - 1) * n
    ensures drawn + n <= n * n
  {
    Times(k, n);
    assert (n - k) * n >= 0;
  }

  // Behind the wrap the tickets start from zero again.
  lemma TicketBehindWrap(n: nat, cur: nat, m: nat) returns (d: nat)
    requires m < n < U64 && !CleanWindow(n, cur)
    ensures d < 2 * n && Attempt(n, cur, d) == m
  {
    var left := U64 - Wrap(cur + 1);
    TicketAcrossWrap(cur, left);
    Congruent(cur + 1 + left, 0, m);
    ModUnique(m, n, 0, m);
    d := left + m;
    assert cur + 1 + d == cur + 1 + left + m;
  }

  lemma StaysClean(n: nat, cur: nat, drawn: nat, all: nat)
    requires n > 0 && CleanTickets(n, cur, all) && drawn + n <= all
    ensures CleanWindow(n, Wrap(cur + drawn))
  {
    WrapAdd(cur + drawn, 1);
    WrapAdd(cur + 1, drawn);
  }

  // New calls take the d tickets before the one for m.
  lemma {:induction false} OthersDraw(on: seq<bool>, cur: uint64, events: seq<Event>, s: State, m: nat, d: nat)
    returns (events': seq<Event>, s': State)
    requires m < |on| && Reached(on, cur, events, s) && s.callers != [] && Attempt(|on|, s.current, d) == m
    ensures Reached(on, cur, events', s') && s'.callers != [] && s'.callers[0] == s.callers[0]
    ensures s'.drawn == s.drawn + d && Attempt(|on|, s'.current, 0) == m
    decreases d
  {
    if d == 0 {
      events', s' := events, s;
    } else {
      Extend(on, cur, events, s, Begin);
      var t := Step(on, s, Begin);
      Extend(on, cur, events + [Begin], t, Draw(|s.callers|));
      var u := Step(on, t, Draw(|s.callers|));
      WrapAdd(s.current + 1, d);
      events', s' := OthersDraw(on, cur, events + [Begin] + [Draw(|s.callers|)], u, m, d - 1);
    }
  }

  // Three tickets are enough: with one backend of two eligible, the first call draws the first and the
  // third, both for the other backend, and comes back empty; the second call gets the eligible one.
  lemma TwoCallersMiss()
    ensures exists events :: Reached([true, false], 0, events, State(3, 3, [], [None, Some(0)]))
  {
    var on, both := [true, false], State(1, 1, [Looking(1, 0), Looking(0, 1)], []);
    var s0, s1 := State(0, 0, [Looking(0, 0)], []), State(1, 1, [Looking(1, 0)], []);
    var events := Follow(on, 0, [], Start(0), Begin, s0);
    events := Follow(on, 0, events, s0, Draw(0), s1);
    events := Follow(on, 0, events, s1, Begin, both);
    events := FirstMisses(on, 0, events, both);
  }

  lemma FirstMisses(on: seq<bool>, cur: uint64, events: seq<Event>, s: State) returns (events': seq<Event>)
    requires on == [true, false] && s == State(1, 1, [Looking(1, 0), Looking(0, 1)], [])
    requires Reached(on, cur, events, s)
    ensures Reached(on, cur, events', State(3, 3, [], [None, Some(0)]))
  {
    var s3 := State(2, 2, [Looking(1, 0), Found(0)], []);
    var s4 := State(3, 3, [Looking(2, 0), Found(0)], []);
    events' := Follow(on, cur, events, s, Draw(1), s3);
    events' := Follow(on, cur, events', s3, Draw(0), s4);
    events' := BothReturn(on, cur, events', s4);
  }

  lemma BothReturn(on: seq<bool>, cur: uint64, events: seq<Event>, s: State) returns (events': seq<Event>)
    requires |on| == 2 && s == State(3, 3, [Looking(2, 0), Found(0)], [])
    requires Reached(on, cur, events, s)
    ensures Reached(on, cur, events', State(3, 3, [], [None, Some(0)]))
  {
    var s5, s6 := State(3, 3, [Found(0)], [None]), State(3, 3, [], [None, Some(0)]);
    assert Step(on, s5, Return(0)) == s6;
    events' := Follow(on, cur, events, s, Return(0), s5);
    events' := Follow(on, cur, events', s5, Return(0), s6);
  }

  lemma Follow(on: seq<bool>, cur: uint64, events: seq<Event>, s: State, e: Event, next: State)
    returns (events': seq<Event>)
    requires Reached(on, cur, events, s) && Enabled(on, s, e) && next == Step(on, s, e)
    ensures Reached(on, cur, events', next)
  {
    Extend(on, cur, events, s, e);
    events' := events + [e];
  }
}
