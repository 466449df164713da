// Round-robin: an atomic uint64 ticket counter and a skip loop over ineligible backends.
module RoundRobin {
  import opened Options
  import opened Sums
  import opened Uint64

  // The index a call tries at its j-th attempt (from 0) when the counter stood at cur.
  function Attempt(n: nat, cur: nat, j: nat): nat
    requires n > 0
  {
    Wrap(cur + 1 + j) % n
  }

  // One uninterrupted call over n backends: it draws tickets until one falls on a backend seen as
  // eligible, n at most. sees[j] is what the j-th attempt observed; across a wrap of the counter two
  // attempts may try the same backend and see different answers.
  ghost predicate Call(sees: seq<bool>, cur: nat, tries: nat, pick: Option<nat>, next: nat) {
    && next == Wrap(cur + tries)
    && tries <= |sees|
    && (tries == 0 <==> sees == [])
    && (forall j | 0 <= j < tries - 1 :: !sees[j])
    && match pick
       case Some(i) => tries > 0 && i == Attempt(|sees|, cur, tries - 1) && sees[tries - 1]
       case None => tries == |sees| && (tries > 0 ==> !sees[tries - 1])
  }

  ghost predicate Answers(sees: seq<bool>, cur: nat, pick: Option<nat>, next: nat) {
    exists tries :: Call(sees, cur, tries, pick, next)
  }

  // What the attempts observe while the backends in on, and only they, are eligible.
  function Seen(on: seq<bool>, cur: nat): seq<bool> {
    seq(|on|, j requires 0 <= j < |on| => on[Attempt(|on|, cur, j)])
  }

  // A call while eligibility stays put.
  ghost predicate SteadyCall(on: seq<bool>, cur: nat, tries: nat, pick: Option<nat>, next: nat) {
    && next == Wrap(cur + tries)
    && tries <= |on|
    && (tries == 0 <==> on == [])
    && (forall j | 0 <= j < tries - 1 :: !on[Attempt(|on|, cur, j)])
    && match pick
       case Some(i) => tries > 0 && i == Attempt(|on|, cur, tries - 1) && on[i]
       case None => tries == |on| && (tries > 0 ==> !on[Attempt(|on|, cur, tries - 1)])
  }

  lemma SteadyCallIsCall(on: seq<bool>, cur: nat, tries: nat, pick: Option<nat>, next: nat)
    ensures Call(Seen(on, cur), cur, tries, pick, next) <==> SteadyCall(on, cur, tries, pick, next)
  {
    var sees := Seen(on, cur);
    assert tries > 0 && tries <= |on| ==> sees[tries - 1] == on[Attempt(|on|, cur, tries - 1)];
    if SteadyCall(on, cur, tries, pick, next) {
      forall j: nat | j < tries - 1 ensures !sees[j] { assert !on[Attempt(|on|, cur, j)]; }
    }
    if Call(sees, cur, tries, pick, next) {
      forall j: nat | j < tries - 1 ensures !on[Attempt(|on|, cur, j)] { assert !sees[j]; }
    }
  }

  // Consecutive calls over a fixed eligible set.
  ghost predicate Run(on: seq<bool>, curs: seq<nat>, tries: seq<nat>, picks: seq<Option<nat>>) {
    && |curs| == |tries| + 1 == |picks| + 1
    && forall t | 0 <= t < |picks| :: SteadyCall(on, curs[t], tries[t], picks[t], curs[t + 1])
  }

  // The same where each call has found a backend.
  ghost predicate AnsweredRun(on: seq<bool>, curs: seq<nat>, tries: seq<nat>, picks: seq<nat>) {
    && |curs| == |tries| + 1 == |picks| + 1
    && forall t | 0 <= t < |picks| :: SteadyCall(on, curs[t], tries[t], Some(picks[t]), curs[t + 1])
  }

  // n tickets from cur on meet no wrap of the counter, or one that does not shift the cycle.
  predicate CleanWindow(n: nat, cur: nat)
    requires n > 0
  {
    Wrap(cur + 1) + n <= U64 || U64 % n == 0
  }

  // to is the first eligible index met when stepping cyclically from the index after from.
  ghost predicate NextInCycle(on: seq<bool>, from: nat, to: nat) {
    exists d: nat ::
      && 1 <= d <= |on| && to == Ahead(|on|, from, d) && to < |on| && on[to]
      && forall d': nat | 1 <= d' < d :: !on[Ahead(|on|, from, d')]
  }

  function Ahead(n: nat, from: nat, d: nat): nat {
    if n == 0 then 0 else (from + d) % n
  }

  // ----- Counting tickets -----

  // How many of the tickets a .. b-1 fall on a flagged index.
  function Hits(sel: seq<bool>, a: nat, b: nat): nat
    requires sel != [] && a <= b
  {
    if a == b then 0 else Hits(sel, a, b - 1) + if sel[(b - 1) % |sel|] then 1 else 0
  }

  lemma {:induction false} HitsSplit(sel: seq<bool>, a: nat, b: nat, c: nat)
    requires sel != [] && a <= b <= c
    ensures Hits(sel, a, c) == Hits(sel, a, b) + Hits(sel, b, c)
  {
    if b < c { HitsSplit(sel, a, b, c - 1); }
  }

  lemma {:induction false} HitsFromZero(sel: seq<bool>, k: nat)
    requires sel != [] && k <= |sel|
    ensures Hits(sel, 0, k) == Size(sel, k)
  {
    if k > 0 {
      HitsFromZero(sel, k - 1);
      ModUnique(k - 1, |sel|, 0, k - 1);
    }
  }

  // A whole cycle meets every flagged index once, wherever it starts.
  lemma {:induction false} HitsCycle(sel: seq<bool>, a: nat)
    requires sel != []
    ensures Hits(sel, a, a + |sel|) == Size(sel, |sel|)
  {
    var n := |sel|;
    if a == 0 {
      HitsFromZero(sel, n);
    } else {
      HitsCycle(sel, a - 1);
      HitsSplit(sel, a - 1, a, a + n);
      HitsSplit(sel, a - 1, a - 1 + n, a + n);
      ModUnique(a - 1 + n, n, (a - 1) / n + 1, (a - 1) % n);
    }
  }

  lemma {:induction false} HitsWitness(sel: seq<bool>, a: nat, b: nat) returns (x: nat)
    requires sel != [] && a <= b && Hits(sel, a, b) > 0
    ensures a <= x < b && sel[x % |sel|]
  {
    x := b - 1;
    if !sel[x % |sel|] { x := HitsWitness(sel, a, b - 1); }
  }

  lemma {:induction false} HitsNone(sel: seq<bool>, a: nat, b: nat)
    requires sel != [] && a <= b
    requires forall x | a <= x < b :: !sel[x % |sel|]
    ensures Hits(sel, a, b) == 0
  {
    if a < b { HitsNone(sel, a, b - 1); }
  }

  function Only(on: seq<bool>, i: nat): seq<bool> {
    seq(|on|, j requires 0 <= j < |on| => on[j] && j == i)
  }

  lemma {:induction false} SizeOnly(on: seq<bool>, i: nat, k: nat)
    requires i < |on| && k <= |on|
    ensures Size(Only(on, i), k) == if i < k && on[i] then 1 else 0
  {
    if k > 0 { SizeOnly(on, i, k - 1); }
  }

  lemma {:induction false} HitsOnly(on: seq<bool>, i: nat, a: nat, b: nat)
    requires on != [] && i < |on| && a <= b && Hits(on, a, b) == 0
    ensures Hits(Only(on, i), a, b) == 0
  {
    if a < b { HitsOnly(on, i, a, b - 1); }
  }

  // ----- Sequential calls -----

  // The next ticket after k calls, counted without wrap-around from first.
  function NextTicket(first: nat, tries: seq<nat>, k: nat): nat
    requires k <= |tries|
  {
    if k == 0 then first else NextTicket(first, tries, k - 1) + tries[k - 1]
  }

  // In a clean window the wrapped index is the plain remainder.
  lemma AttemptPlain(n: nat, cur: nat, x: nat, last: nat, j: nat)
    requires n > 0 && Wrap(cur + 1) == Wrap(x)
    requires x + j < last && (last <= U64 || U64 % n == 0)
    ensures Attempt(n, cur, j) == (x + j) % n
  {
    Congruent(cur + 1, x, j);
    WrapIsHarmless(n, x + j, last);
  }

  lemma WrapIsHarmless(n: nat, y: nat, last: nat)
    requires n > 0 && y < last && (last <= U64 || U64 % n == 0)
    ensures Wrap(y) % n == y % n
  {
    if U64 % n == 0 { WrapModDivisor(y, n); }
  }

  // After k calls of a cycle no ticket beyond the window is used and k eligible tickets are.
  lemma {:induction false} CycleSoFar(on: seq<bool>, curs: seq<nat>, tries: seq<nat>, picks: seq<nat>, k: nat,
                                      first: nat)
    requires AnsweredRun(on, curs, tries, picks) && k <= |picks| <= Size(on, |on|)
    requires on != [] && CleanWindow(|on|, curs[0]) && first == Wrap(curs[0] + 1)
    ensures var q := NextTicket(first, tries, k);
      && first <= q <= first + |on|
      && Wrap(curs[k] + 1) == Wrap(q)
      && Hits(on, first, q) == k
  {
    if k > 0 {
      CycleSoFar(on, curs, tries, picks, k - 1, first);
      var q := NextTicket(first, tries, k - 1);
      assert SteadyCall(on, curs[k - 1], tries[k - 1], Some(picks[k - 1]), curs[k]);
      CallUsesOneHit(on, curs[k - 1], tries[k - 1], picks[k - 1], curs[k], first, q);
    }
  }

  lemma CallUsesOneHit(on: seq<bool>, cur: nat, tries: nat, i: nat, next: nat, first: nat, q: nat)
    requires on != [] && SteadyCall(on, cur, tries, Some(i), next)
    requires first <= q <= first + |on| && Wrap(cur + 1) == Wrap(q)
    requires first + |on| <= U64 || U64 % |on| == 0
    requires Hits(on, first, q) < Size(on, |on|)
    ensures q + tries <= first + |on| && Wrap(next + 1) == Wrap(q + tries)
    ensures Hits(on, first, q + tries) == Hits(on, first, q) + 1
  {
    CallWithinWindow(on, cur, tries, i, next, first, q);
    HitsOfCall(on, q, q + tries);
    HitsSplit(on, first, q, q + tries);
  }

  // Each backend was returned once per ticket that fell on it.
  lemma {:induction false} CountsSoFar(on: seq<bool>, curs: seq<nat>, tries: seq<nat>, picks: seq<nat>, k: nat,
                                       first: nat, i: nat)
    requires AnsweredRun(on, curs, tries, picks) && k <= |picks| <= Size(on, |on|)
    requires on != [] && CleanWindow(|on|, curs[0]) && first == Wrap(curs[0] + 1)
    requires i < |on|
    ensures NextTicket(first, tries, k) >= first
    ensures Count(picks[..k], i) == Hits(Only(on, i), first, NextTicket(first, tries, k))
  {
    if k > 0 {
      CountsSoFar(on, curs, tries, picks, k - 1, first, i);
      SpanOfCall(on, curs, tries, picks, k - 1, first);
      var q := NextTicket(first, tries, k - 1);
      HitsOfCall(Only(on, i), q, q + tries[k - 1]);
      HitsSplit(Only(on, i), first, q, q + tries[k - 1]);
      assert picks[..k][..k - 1] == picks[..k - 1];
    }
  }

  // The tickets of one call hit a flagged index at the last of them or not at all.
  lemma HitsOfCall(sel: seq<bool>, q: nat, end: nat)
    requires sel != [] && q < end
    requires forall x | q <= x < end - 1 :: !sel[x % |sel|]
    ensures Hits(sel, q, end) == if sel[(end - 1) % |sel|] then 1 else 0
  {
    HitsNone(sel, q, end - 1);
  }

  // Of the tickets q .. q + tries - 1 only the last falls on an eligible backend, namely i.
  ghost predicate Span(on: seq<bool>, q: nat, tries: nat, i: nat) {
    && 1 <= tries <= |on|
    && i == (q + tries - 1) % |on| && on[i]
    && forall x | q <= x < q + tries - 1 :: !on[x % |on|]
  }

  // A call made while the window still holds an eligible ticket ends inside the window.
  lemma CallWithinWindow(on: seq<bool>, cur: nat, tries: nat, i: nat, next: nat, first: nat, q: nat)
    requires on != [] && SteadyCall(on, cur, tries, Some(i), next)
    requires first <= q <= first + |on| && Wrap(cur + 1) == Wrap(q)
    requires first + |on| <= U64 || U64 % |on| == 0
    requires Hits(on, first, q) < Size(on, |on|)
    ensures q + tries <= first + |on|
    ensures Wrap(next + 1) == Wrap(q + tries)
    ensures Span(on, q, tries, i)
  {
    var n, last := |on|, first + |on|;
    var x := EligibleTicketLeft(on, first, q);
    AttemptPlain(n, cur, q, last, x - q);
    assert tries - 1 <= x - q;
    forall j: nat | j < tries ensures Attempt(n, cur, j) == (q + j) % n { AttemptPlain(n, cur, q, last, j); }
    forall x | q <= x < q + tries - 1 ensures !on[x % n] {
      assert Attempt(n, cur, x - q) == (q + (x - q)) % n;
    }
    assert Wrap(next + 1) == Wrap(q + tries) by {
      WrapAdd(cur + tries, 1);
      Congruent(cur + 1, q, tries);
    }
  }

  lemma EligibleTicketLeft(on: seq<bool>, first: nat, q: nat) returns (x: nat)
    requires on != [] && first <= q <= first + |on| && Hits(on, first, q) < Size(on, |on|)
    ensures q <= x < first + |on| && on[x % |on|]
  {
    HitsCycle(on, first);
    HitsSplit(on, first, q, first + |on|);
    x := HitsWitness(on, q, first + |on|);
  }

  lemma OneOfEach(on: seq<bool>, curs: seq<nat>, tries: seq<nat>, picks: seq<nat>)
    requires AnsweredRun(on, curs, tries, picks)
    requires on != [] && |picks| == Size(on, |on|) && CleanWindow(|on|, curs[0])
    ensures forall i: nat | i < |on| :: Count(picks, i) == if on[i] then 1 else 0
    ensures NextTicket(0, tries, |tries|) <= |on|
  {
    var e, first := |picks|, Wrap(curs[0] + 1);
    CycleSoFar(on, curs, tries, picks, e, first);
    assert picks[..e] == picks;
    forall i: nat | i < |on| ensures Count(picks, i) == if on[i] then 1 else 0 {
      CountsSoFar(on, curs, tries, picks, e, first, i);
      OneEach(on, first, NextTicket(first, tries, e), i);
    }
    NextTicketShift(first, tries, e);
  }

  // Once a window has given up all its eligible tickets, each eligible index was hit once.
  lemma OneEach(on: seq<bool>, first: nat, q: nat, i: nat)
    requires i < |on| && first <= q <= first + |on| && Hits(on, first, q) == Size(on, |on|)
    ensures Hits(Only(on, i), first, q) == if on[i] then 1 else 0
  {
    HitsCycle(on, first);
    HitsSplit(on, first, q, first + |on|);
    HitsOnly(on, i, q, first + |on|);
    HitsCycle(Only(on, i), first);
    HitsSplit(Only(on, i), first, q, first + |on|);
    SizeOnly(on, i, |on|);
  }

  lemma {:induction false} NextTicketShift(first: nat, tries: seq<nat>, k: nat)
    requires k <= |tries|
    ensures NextTicket(first, tries, k) == first + NextTicket(0, tries, k)
  {
    if k > 0 { NextTicketShift(first, tries, k - 1); }
  }

  lemma OrderOfPicks(on: seq<bool>, curs: seq<nat>, tries: seq<nat>, picks: seq<nat>, k: nat)
    requires AnsweredRun(on, curs, tries, picks)
    requires on != [] && |picks| <= Size(on, |on|) && CleanWindow(|on|, curs[0])
    requires 1 <= k < |picks|
    ensures NextInCycle(on, picks[k - 1], picks[k])
  {
    var first := Wrap(curs[0] + 1);
    var q := NextTicket(first, tries, k);
    assert q >= 1 && picks[k - 1] == (q - 1) % |on| by { SpanOfCall(on, curs, tries, picks, k - 1, first); }
    assert Span(on, q, tries[k], picks[k]) by { SpanOfCall(on, curs, tries, picks, k, first); }
    OrderFromSpans(on, q, tries[k], picks[k - 1], picks[k]);
  }

  // The k-th call of a cycle skips ineligible tickets only and answers its last one.
  lemma SpanOfCall(on: seq<bool>, curs: seq<nat>, tries: seq<nat>, picks: seq<nat>, k: nat, first: nat)
    requires AnsweredRun(on, curs, tries, picks)
    requires on != [] && |picks| <= Size(on, |on|) && CleanWindow(|on|, curs[0]) && first == Wrap(curs[0] + 1)
    requires k < |picks|
    ensures NextTicket(first, tries, k) >= first && Span(on, NextTicket(first, tries, k), tries[k], picks[k])
  {
    CycleSoFar(on, curs, tries, picks, k, first);
    assert SteadyCall(on, curs[k], tries[k], Some(picks[k]), curs[k + 1]);
    CallWithinWindow(on, curs[k], tries[k], picks[k], curs[k + 1], first, NextTicket(first, tries, k));
  }

  lemma OrderFromSpans(on: seq<bool>, q: nat, d: nat, from: nat, to: nat)
    requires q >= 1 && on != [] && from == (q - 1) % |on| && Span(on, q, d, to)
    ensures NextInCycle(on, from, to)
  {
    var n := |on|;
    ModShift(q - 1, d, n);
    forall d': nat | 1 <= d' < d ensures !on[Ahead(n, from, d')] {
      ModShift(q - 1, d', n);
      assert !on[(q - 1 + d') % n];
    }
    assert to == Ahead(n, from, d);
  }

  // ----- A cycle answers every call -----

  function Backends(picks: seq<Option<nat>>): seq<nat>
    requires forall t | 0 <= t < |picks| :: picks[t].Some?
  {
    seq<nat>(|picks|, t requires 0 <= t < |picks| => picks[t].value)
  }

  // A call made while the window still holds an eligible ticket does not come back empty.
  lemma CallAnswers(on: seq<bool>, cur: nat, tries: nat, pick: Option<nat>, next: nat, first: nat, q: nat)
    requires on != [] && SteadyCall(on, cur, tries, pick, next)
    requires first <= q <= first + |on| && Wrap(cur + 1) == Wrap(q)
    requires first + |on| <= U64 || U64 % |on| == 0
    requires Hits(on, first, q) < Size(on, |on|)
    ensures pick.Some?
  {
    var x := EligibleTicketLeft(on, first, q);
    AttemptPlain(|on|, cur, q, first + |on|, x - q);
    assert on[Attempt(|on|, cur, x - q)];
  }

  lemma {:induction false} AllAnswered(on: seq<bool>, curs: seq<nat>, tries: seq<nat>, picks: seq<Option<nat>>, k: nat)
    requires Run(on, curs, tries, picks) && k <= |picks| <= Size(on, |on|)
    requires on != [] && CleanWindow(|on|, curs[0])
    ensures forall t | 0 <= t < k :: picks[t].Some?
  {
    if k > 0 {
      AllAnswered(on, curs, tries, picks, k - 1);
      var answered, first := Backends(picks[..k - 1]), Wrap(curs[0] + 1);
      assert AnsweredRun(on, curs[..k], tries[..k - 1], answered);
      CycleSoFar(on, curs[..k], tries[..k - 1], answered, k - 1, first);
      var q := NextTicket(first, tries[..k - 1], k - 1);
      CallAnswers(on, curs[k - 1], tries[k - 1], picks[k - 1], curs[k], first, q);
    }
  }

  // As many calls as there are eligible backends all find one, return each eligible backend exactly
  // once, and use at most one ticket per backend of the pool.
  lemma FullCycle(on: seq<bool>, curs: seq<nat>, tries: seq<nat>, picks: seq<Option<nat>>)
    requires Run(on, curs, tries, picks)
    requires on != [] && |picks| == Size(on, |on|) && CleanWindow(|on|, curs[0])
    ensures forall t | 0 <= t < |picks| :: picks[t].Some?
    ensures forall i: nat | i < |on| :: Count(Backends(picks), i) == if on[i] then 1 else 0
    ensures NextTicket(0, tries, |tries|) <= |on|
  {
    AllAnswered(on, curs, tries, picks, |picks|);
    OneOfEach(on, curs, tries, Backends(picks));
  }

  // Within a cycle each pick is the next eligible index after the previous one.
  lemma CyclicOrder(on: seq<bool>, curs: seq<nat>, tries: seq<nat>, picks: seq<Option<nat>>, k: nat)
    requires Run(on, curs, tries, picks)
    requires on != [] && |picks| <= Size(on, |on|) && CleanWindow(|on|, curs[0])
    requires 1 <= k < |picks|
    ensures picks[k - 1].Some? && picks[k].Some?
    ensures NextInCycle(on, picks[k - 1].value, picks[k].value)
  {
    AllAnswered(on, curs, tries, picks, |picks|);
    OrderOfPicks(on, curs, tries, Backends(picks), k);
  }

  // ----- The counter wraps at 2^64: exactly when that matters -----

  // Steps from one index forward to another.
  function Steps(n: nat, from: nat, to: nat): int {
    if to > from then to - from else to - from + n
  }

  // The next index in the cycle is the nearest eligible one ahead, the index itself coming last.
  lemma NextIsNearest(on: seq<bool>, from: nat, to: nat)
    requires from < |on| && to < |on|
    ensures NextInCycle(on, from, to) <==>
      on[to] && forall i: nat | i < |on| && on[i] :: Steps(|on|, from, to) <= Steps(|on|, from, i)
  {
    var n := |on|;
    forall i: nat | i < n ensures Ahead(n, from, Steps(n, from, i)) == i {
      ModUnique(from + Steps(n, from, i), n, if i > from then 0 else 1, i);
    }
    forall d: nat | 1 <= d <= n ensures Ahead(n, from, d) < n && Steps(n, from, Ahead(n, from, d)) == d {
      if from + d < n { ModUnique(from + d, n, 0, from + d); } else { ModUnique(from + d, n, 1, from + d - n); }
    }
    if NextInCycle(on, from, to) {
      forall i: nat | i < n && on[i] ensures Steps(n, from, to) <= Steps(n, from, i) {
        assert on[Ahead(n, from, Steps(n, from, i))];
      }
    }
    if on[to] && forall i: nat | i < n && on[i] :: Steps(n, from, to) <= Steps(n, from, i) {
      var d: nat := Steps(n, from, to);
      assert to == Ahead(n, from, d) && 1 <= d <= n;
      forall d': nat | 1 <= d' < d ensures !on[Ahead(n, from, d')] {
      }
    }
  }

  // Whatever backends are eligible, a call from this counter value finds one if there is one.
  ghost predicate NeverMisses(n: nat, cur: nat) {
    forall on: seq<bool>, tries, next | |on| == n && AnyOn(on) :: !SteadyCall(on, cur, tries, None, next)
  }

  // The n attempts of a clean window reach every index.
  lemma WindowCovers(n: nat, cur: nat, i: nat) returns (j: nat)
    requires i < n && CleanWindow(n, cur)
    ensures j < n && Attempt(n, cur, j) == i
  {
    var first := Wrap(cur + 1);
    var on := Everyone(n);
    HitsCycle(Only(on, i), first);
    SizeOnly(on, i, n);
    var x := HitsWitness(Only(on, i), first, first + n);
    j := x - first;
    AttemptPlain(n, cur, first, first + n, j);
  }

  // Across a shifting wrap one index is never tried.
  lemma WindowMisses(n: nat, cur: nat) returns (m: nat)
    requires n > 0 && !CleanWindow(n, cur) && n < U64
    ensures m < n && forall j: nat | j < n :: Attempt(n, cur, j) != m
  {
    var a := U64 - Wrap(cur + 1);  // tickets left before the wrap
    m := if U64 % n >= n - a then U64 % n else n - a;
    forall j: nat | j < n ensures Attempt(n, cur, j) != m {
      AttemptAcrossWrap(n, cur, j);
      if j < a {
        ModBack(U64, a - j, n);
        BackIsElsewhere(U64 % n, a, n, a - j);
      } else {
        ModUnique(j - a, n, 0, j - a);
      }
    }
  }

  lemma BackIsElsewhere(r: nat, a: nat, n: nat, d: nat)
    requires 0 < r < n && 1 <= d <= a < n
    ensures var m := if r >= n - a then r else n - a;
      (if d <= r then r - d else r - d + n) != m
  {
  }

  lemma AttemptAcrossWrap(n: nat, cur: nat, j: nat)
    requires j < n < U64
    ensures var a := U64 - Wrap(cur + 1);
      Attempt(n, cur, j) == if j < a then (U64 - (a - j)) % n else (j - a) % n
  {
    TicketAcrossWrap(cur, j);
  }

  lemma TicketAcrossWrap(cur: nat, j: nat)
    requires j < U64
    ensures var a := U64 - Wrap(cur + 1);
      Wrap(cur + 1 + j) == if j < a then U64 - (a - j) else j - a
  {
    WrapAdd(cur + 1, j);
  }

  lemma NeverMissesIff(n: nat, cur: nat)
    requires 0 < n < U64
    ensures NeverMisses(n, cur) <==> CleanWindow(n, cur)
  {
    if CleanWindow(n, cur) {
      forall on: seq<bool>, tries, next | |on| == n && AnyOn(on)
        ensures !SteadyCall(on, cur, tries, None, next)
      {
        var i :| 0 <= i < n && on[i];
        var j := WindowCovers(n, cur, i);
      }
    } else {
      var m := WindowMisses(n, cur);
      var on := Only(Everyone(n), m);
      assert on[m];
      assert SteadyCall(on, cur, n, None, Wrap(cur + n));
    }
  }

  // The wrap can hide the only healthy backend: three backends, counter at 2^64 - 2, only index 2 eligible.
  lemma WrapHidesBackend()
    ensures SteadyCall([false, false, true], U64 - 2, 3, None, 1)
    ensures AnyOn([false, false, true])
  {
    assert Wrap(U64 - 1) == U64 - 1 && Wrap(U64) == 0 && Wrap(U64 + 1) == 1;
    assert Attempt(3, U64 - 2, 0) == Attempt(3, U64 - 2, 1) == 0;
    assert Attempt(3, U64 - 2, 2) == 1;
    assert [false, false, true][2];
  }

  // Three backends, the second ineligible, the counter at 1: the third and the first in turn.
  lemma ExpectedCycle(on: seq<bool>)
    requires on == [true, false, true]
    ensures SteadyCall(on, 1, 1, Some(2), 2) && SteadyCall(on, 2, 1, Some(0), 3)
    ensures SteadyCall(on, 3, 2, Some(2), 5) && SteadyCall(on, 5, 1, Some(0), 6)
  {
    Answered(on, 1, 1, 2);
    Answered(on, 2, 1, 0);
    Answered(on, 3, 2, 2);
    Answered(on, 5, 1, 0);
  }

  // Far below 2^64 the counter does not wrap.
  lemma Answered(on: seq<bool>, cur: nat, tries: nat, i: nat)
    requires cur + tries < U64 && 1 <= tries <= 2 && tries <= |on|
    requires i == (cur + tries) % |on| && on[i] && (tries == 2 ==> !on[(cur + 1) % |on|])
    ensures SteadyCall(on, cur, tries, Some(i), cur + tries)
  {
  }

  // m consecutive tickets give a backend floor(m/n) or ceil(m/n) picks.
  lemma {:induction false} HitsBalanced(n: nat, first: nat, m: nat, i: nat)
    requires i < n
    ensures m / n <= Hits(Only(Everyone(n), i), first, first + m) <= m / n + if m % n == 0 then 0 else 1
    decreases m
  {
    var sel := Only(Everyone(n), i);
    SizeOnly(Everyone(n), i, n);
    HitsCycle(sel, first);
    DivideStep(m, n);
    if m >= n {
      HitsSplit(sel, first, first + n, first + m);
      HitsBalanced(n, first + n, m - n, i);
    } else {
      HitsSplit(sel, first, first + m, first + n);
    }
  }
}
