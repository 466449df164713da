// Least-connections and weighted least-connections. Scores conns / weight are compared exactly, by
// cross-multiplication, which is how rounded scores compare up to 2^25 (Scores.ComparesExactly); plain
// least-connections is the case where every weight is 1.
module LeastConns {
  // conns c over weight w scores lower than c' over w'.
  predicate Lighter(c: nat, w: nat, c': nat, w': nat) {
    c * w' < c' * w
  }

  ghost predicate Weights(ws: seq<nat>) {
    forall i | 0 <= i < |ws| :: ws[i] >= 1
  }

  // b is eligible, no eligible score is lower, and every earlier eligible score is higher.
  ghost predicate LeastScore(conns: seq<nat>, ws: seq<nat>, on: seq<bool>, b: nat) {
    && |conns| == |ws| == |on|
    && b < |on| && on[b]
    && (forall j | 0 <= j < |on| && on[j] :: !Lighter(conns[j], ws[j], conns[b], ws[b]))
    && forall j | 0 <= j < b && on[j] :: Lighter(conns[b], ws[b], conns[j], ws[j])
  }

  lemma NotLighterTrans(c1: nat, w1: nat, c2: nat, w2: nat, c3: nat, w3: nat)
    requires w1 >= 1 && w2 >= 1 && w3 >= 1
    ensures c1 * w2 <= c2 * w1 && c2 * w3 <= c3 * w2 ==> c1 * w3 <= c3 * w1
    ensures c1 * w2 < c2 * w1 && c2 * w3 <= c3 * w2 ==> c1 * w3 < c3 * w1
    ensures c1 * w2 <= c2 * w1 && c2 * w3 < c3 * w2 ==> c1 * w3 < c3 * w1
  {
    if c1 * w2 <= c2 * w1 && c2 * w3 <= c3 * w2 {
      Monotone(c1 * w2, c2 * w1, w3);
      Monotone(c2 * w3, c3 * w2, w1);
      Reassociate(c1, w2, w3);
      Reassociate(c2, w1, w3);
      Reassociate(c3, w2, w1);
      Cancel(c1 * w3, c3 * w1, w2);
    }
  }

  lemma Reassociate(a: nat, b: nat, c: nat)
    ensures a * b * c == (a * c) * b
  {
  }

  lemma Monotone(a: int, b: int, w: nat)
    requires w >= 1
    ensures a <= b ==> a * w <= b * w
    ensures a < b ==> a * w < b * w
  {
    if a < b { assert (b - a) * w >= 1; assert b * w == a * w + (b - a) * w; }
  }

  lemma Cancel(a: int, b: int, w: nat)
    requires w >= 1
    ensures a * w <= b * w ==> a <= b
    ensures a * w < b * w ==> a < b
  {
    Monotone(b, a, w);
  }

  // ----- Handlers scanning concurrently -----

  // A request handler between the start of its selection loop and its increment. It has passed the
  // backends below pos; best is the one it holds, read when its counter was value.
  datatype Best = Nothing | Best(backend: nat, value: nat)
  datatype Handler = Handler(pos: nat, best: Best)

  // left counts the requests that have finished on each backend.
  datatype State = State(conns: seq<nat>, left: seq<nat>, handlers: seq<Handler>)

  // The backends, their weights, and which of them are eligible.
  datatype Setting = Setting(ws: seq<nat>, on: seq<bool>)

  ghost predicate Sound(p: Setting) {
    |p.ws| == |p.on| && Weights(p.ws)
  }

  // One iteration of the selection loop: an ineligible backend is skipped, otherwise its counter is
  // read and compared.
  function Read(h: Handler, conns: seq<nat>, p: Setting): Handler
    requires h.pos < |conns| == |p.ws| == |p.on|
    requires h.best.Best? ==> h.best.backend < |p.ws|
  {
    var better := p.on[h.pos] &&
      (h.best.Nothing? || Lighter(conns[h.pos], p.ws[h.pos], h.best.value, p.ws[h.best.backend]));
    Handler(h.pos + 1, if better then Best(h.pos, conns[h.pos]) else h.best)
  }

  ghost predicate Begin(s: State, s': State) {
    s' == s.(handlers := s.handlers + [Handler(0, Nothing)])
  }

  ghost predicate Scan(p: Setting, s: State, h: nat, s': State) {
    && h < |s.handlers| && s.handlers[h].pos < |s.conns| == |p.ws| == |p.on|
    && (s.handlers[h].best.Best? ==> s.handlers[h].best.backend < |p.ws|)
    && s' == s.(handlers := s.handlers[h := Read(s.handlers[h], s.conns, p)])
  }

  ghost predicate Increment(s: State, h: nat, s': State) {
    && h < |s.handlers| && s.handlers[h].pos == |s.conns| && s.handlers[h].best.Best?
    && var b := s.handlers[h].best.backend;
    && b < |s.conns|
    && s' == s.(conns := s.conns[b := s.conns[b] + 1], handlers := s.handlers[..h] + s.handlers[h + 1..])
  }

  // A handler leaves without counting: it found no eligible backend, or its backend does not answer.
  ghost predicate Leave(s: State, h: nat, s': State) {
    && h < |s.handlers| && s.handlers[h].pos == |s.conns|
    && s' == s.(handlers := s.handlers[..h] + s.handlers[h + 1..])
  }

  // A request counted on b finishes.
  ghost predicate Depart(s: State, b: nat, s': State) {
    && b < |s.conns| == |s.left| && s.conns[b] >= 1
    && s' == s.(conns := s.conns[b := s.conns[b] - 1], left := s.left[b := s.left[b] + 1])
  }

  ghost predicate Next(p: Setting, s: State, s': State) {
    || Begin(s, s')
    || (exists h :: Scan(p, s, h, s'))
    || (exists h :: Increment(s, h, s'))
    || (exists h :: Leave(s, h, s'))
    || exists b :: Depart(s, b, s')
  }

  // Any interleaving that starts from equal scores of the eligible backends and never has more than K
  // handlers between the start of their selection and their increment.
  ghost predicate Interleaving(p: Setting, K: nat, trace: seq<State>) {
    && trace != []
    && Sound(p)
    && EvenStart(p, trace[0])
    && (forall k | 0 <= k < |trace| :: |trace[k].handlers| <= K)
    && forall k | 0 <= k < |trace| - 1 :: Next(p, trace[k], trace[k + 1])
  }

  ghost predicate EvenStart(p: Setting, s: State)
    requires Sound(p)
  {
    && |s.conns| == |s.left| == |p.ws| && s.handlers == []
    && (forall b | 0 <= b < |p.ws| :: s.left[b] == 0)
    && forall b, j | 0 <= b < |p.ws| && 0 <= j < |p.ws| && p.on[b] && p.on[j] ::
         s.conns[b] * p.ws[j] == s.conns[j] * p.ws[b]
  }

  // All requests ever counted on each backend, those at the start included. It only grows.
  function Arrived(s: State): (a: seq<nat>)
    requires |s.conns| == |s.left|
    ensures |a| == |s.conns|
  {
    seq<nat>(|s.conns|, b requires 0 <= b < |s.conns| => s.conns[b] + s.left[b])
  }

  // Whether h holds backend b with a value of at most x.
  predicate Holds(h: Handler, b: nat, x: nat) {
    h.best.Best? && h.best.backend == b && h.best.value <= x
  }

  function Holding(hs: seq<Handler>, b: nat, x: nat): (n: nat)
    ensures n <= |hs|
  {
    if hs == [] then 0
    else Holding(hs[..|hs| - 1], b, x) + if Holds(hs[|hs| - 1], b, x) then 1 else 0
  }

  // Handlers that have chosen b and not yet incremented it.
  function Pending(hs: seq<Handler>, n: nat, b: nat): nat {
    if hs == [] then 0
    else Pending(hs[..|hs| - 1], n, b) + if Chose(hs[|hs| - 1], n, b) then 1 else 0
  }

  predicate Chose(h: Handler, n: nat, b: nat) {
    h.pos == n && h.best.Best? && h.best.backend == b
  }

  lemma {:induction false} HoldingConcat(g: seq<Handler>, h: seq<Handler>, b: nat, x: nat)
    ensures Holding(g + h, b, x) == Holding(g, b, x) + Holding(h, b, x)
  {
    if h == [] {
      assert g + h == g;
    } else {
      assert (g + h)[..|g + h| - 1] == g + h[..|h| - 1];
      HoldingConcat(g, h[..|h| - 1], b, x);
    }
  }

  lemma HoldingSplit(hs: seq<Handler>, p: nat, h: Handler, b: nat, x: nat)
    requires p < |hs|
    ensures Holding(hs, b, x) == Holding(hs[..p] + hs[p + 1..], b, x) + if Holds(hs[p], b, x) then 1 else 0
    ensures Holding(hs[p := h], b, x) == Holding(hs[..p] + hs[p + 1..], b, x) + if Holds(h, b, x) then 1 else 0
  {
    HoldingAround(hs[..p], hs[p], hs[p + 1..], b, x);
    HoldingAround(hs[..p], h, hs[p + 1..], b, x);
    assert hs == hs[..p] + [hs[p]] + hs[p + 1..];
    assert hs[p := h] == hs[..p] + [h] + hs[p + 1..];
  }

  lemma HoldingAround(g: seq<Handler>, h: Handler, k: seq<Handler>, b: nat, x: nat)
    ensures Holding(g + [h] + k, b, x) == Holding(g + k, b, x) + if Holds(h, b, x) then 1 else 0
  {
    HoldingConcat(g + [h], k, b, x);
    HoldingConcat(g, [h], b, x);
    HoldingConcat(g, k, b, x);
    assert [h][..0] == [];
  }

  // ----- The invariant -----

  // x is at least the load at which b would score like j at load a.
  predicate AtLevel(a: nat, ws: seq<nat>, b: nat, j: nat, x: nat)
    requires b < |ws| && j < |ws|
  {
    a * ws[b] < (x + 1) * ws[j]
  }

  // What a handler holds was no heavier than anything eligible it has passed, and arrivals only grow.
  ghost predicate SoundHandler(arrived: seq<nat>, p: Setting, h: Handler)
    requires |arrived| == |p.ws| == |p.on|
  {
    && h.pos <= |arrived|
    && (h.best.Nothing? ==> forall j | 0 <= j < h.pos :: !p.on[j])
    && (h.best.Best? ==>
          && h.best.backend < h.pos && p.on[h.best.backend]
          && forall j | 0 <= j < h.pos && p.on[j] :: h.best.value * p.ws[j] <= arrived[j] * p.ws[h.best.backend])
  }

  // The increments that took b above level x, plus the handlers still holding b from below it, were
  // all in flight together, so they are at most K.
  ghost predicate Inv(p: Setting, K: nat, s: State) {
    && |s.conns| == |s.left| == |p.ws| == |p.on|
    && |s.handlers| <= K
    && (forall h | h in s.handlers :: SoundHandler(Arrived(s), p, h))
    && forall b: nat, j: nat, x: nat | Above(p, s, b, j, x) :: s.conns[b] - x + Holding(s.handlers, b, x) <= K
  }

  // b and j are eligible, and b has more than x connections where j's arrivals are at level x.
  predicate Above(p: Setting, s: State, b: nat, j: nat, x: nat)
    requires |s.conns| == |s.left| == |p.ws| == |p.on|
  {
    b < |p.ws| && j < |p.ws| && p.on[b] && p.on[j] && x < s.conns[b] && AtLevel(s.conns[j] + s.left[j], p.ws, b, j, x)
  }

  lemma BelowLevel(v: nat, wj: nat, a: nat, x: nat)
    requires wj >= 1 && v * wj <= a && a < (x + 1) * wj
    ensures v <= x
  {
    Cancel(v, x + 1, wj);
  }

  lemma BeginKeeps(p: Setting, K: nat, s: State, s': State)
    requires Inv(p, K, s) && Begin(s, s') && |s'.handlers| <= K
    ensures Inv(p, K, s')
  {
    assert Arrived(s') == Arrived(s);
    forall b: nat, j: nat, x: nat | Above(p, s', b, j, x) ensures s'.conns[b] - x + Holding(s'.handlers, b, x) <= K {
      assert Above(p, s, b, j, x);
      assert s'.handlers[..|s.handlers|] == s.handlers;
    }
  }

  lemma ReadIsSound(p: Setting, conns: seq<nat>, arrived: seq<nat>, h: Handler)
    requires Sound(p) && |conns| == |arrived| == |p.ws| && h.pos < |p.ws|
    requires forall j | 0 <= j < |conns| :: conns[j] <= arrived[j]
    requires SoundHandler(arrived, p, h)
    ensures SoundHandler(arrived, p, Read(h, conns, p))
  {
    var i, ws := h.pos, p.ws;
    if p.on[i] {
      Monotone(conns[i], arrived[i], ws[i]);
      if h.best.Best? {
        var b, v := h.best.backend, h.best.value;
        if Lighter(conns[i], ws[i], v, ws[b]) {
          forall j | 0 <= j < i && p.on[j] ensures conns[i] * ws[j] <= arrived[j] * ws[i] {
            NotLighterTrans(conns[i], ws[i], v, ws[b], arrived[j], ws[j]);
          }
        } else {
          Monotone(conns[i], arrived[i], ws[b]);
        }
      }
    }
  }

  lemma ScanKeeps(p: Setting, K: nat, s: State, q: nat, s': State)
    requires Sound(p) && Inv(p, K, s) && Scan(p, s, q, s')
    ensures Inv(p, K, s')
  {
    var h, h' := s.handlers[q], s'.handlers[q];
    assert h in s.handlers;
    assert Arrived(s') == Arrived(s);
    ReadIsSound(p, s.conns, Arrived(s), h);
    forall b: nat, j: nat, x: nat | Above(p, s', b, j, x) ensures s'.conns[b] - x + Holding(s'.handlers, b, x) <= K {
      HoldingSplit(s.handlers, q, h', b, x);
      assert Above(p, s, b, j, x);
    }
  }

  lemma IncrementKeeps(p: Setting, K: nat, s: State, q: nat, s': State)
    requires Sound(p) && Inv(p, K, s) && Increment(s, q, s')
    ensures Inv(p, K, s')
  {
    var i := s.handlers[q].best.backend;
    IncrementSound(p, K, s, q, s');
    forall b: nat, j: nat, x: nat | Above(p, s', b, j, x) ensures s'.conns[b] - x + Holding(s'.handlers, b, x) <= K {
      IncrementLevel(p, K, s, q, s', b, j, x);
    }
  }

  lemma IncrementSound(p: Setting, K: nat, s: State, q: nat, s': State)
    requires Sound(p) && Inv(p, K, s) && Increment(s, q, s')
    ensures |s'.conns| == |s'.left| == |p.ws|
    ensures forall g | g in s'.handlers :: SoundHandler(Arrived(s'), p, g)
  {
    var i := s.handlers[q].best.backend;
    assert Arrived(s') == Arrived(s)[i := Arrived(s)[i] + 1];
    forall g | g in s'.handlers ensures SoundHandler(Arrived(s'), p, g) {
      assert g in s.handlers && SoundHandler(Arrived(s), p, g);
      StillSound(p, Arrived(s), i, g);
    }
  }

  lemma IncrementLevel(p: Setting, K: nat, s: State, q: nat, s': State, b: nat, j: nat, x: nat)
    requires Sound(p) && Inv(p, K, s) && Increment(s, q, s') && Above(p, s', b, j, x)
    ensures s'.conns[b] - x + Holding(s'.handlers, b, x) <= K
  {
    var h := s.handlers[q];
    var i := h.best.backend;
    assert h in s.handlers && SoundHandler(Arrived(s), p, h);
    HoldingSplit(s.handlers, q, h, b, x);
    LevelBefore(p.ws, s.conns[j] + s.left[j], s'.conns[j] + s'.left[j], b, j, x);
    assert x < s.conns[b] ==> Above(p, s, b, j, x);
    if b == i && j != i {
      BelowLevel(h.best.value, p.ws[j], (s.conns[j] + s.left[j]) * p.ws[i], x);
    }
  }

  lemma StillSound(p: Setting, arrived: seq<nat>, i: nat, g: Handler)
    requires |arrived| == |p.ws| == |p.on| && i < |p.ws| && SoundHandler(arrived, p, g)
    ensures SoundHandler(arrived[i := arrived[i] + 1], p, g)
  {
    if g.best.Best? {
      var w := p.ws[g.best.backend];
      assert (arrived[i] + 1) * w == arrived[i] * w + w;
    }
  }

  // A level for more arrivals was one for fewer; and a backend at level x with itself has at most x.
  lemma LevelBefore(ws: seq<nat>, a: nat, a': nat, b: nat, j: nat, x: nat)
    requires Weights(ws) && b < |ws| && j < |ws| && a <= a'
    requires AtLevel(a', ws, b, j, x)
    ensures AtLevel(a, ws, b, j, x)
    ensures b == j ==> a' <= x
  {
    Monotone(a, a', ws[b]);
    if b == j { Cancel(a', x + 1, ws[b]); }
  }

  lemma LeaveKeeps(p: Setting, K: nat, s: State, q: nat, s': State)
    requires Inv(p, K, s) && Leave(s, q, s')
    ensures Inv(p, K, s')
  {
    assert Arrived(s') == Arrived(s);
    forall b: nat, j: nat, x: nat | Above(p, s', b, j, x) ensures s'.conns[b] - x + Holding(s'.handlers, b, x) <= K {
      HoldingSplit(s.handlers, q, s.handlers[q], b, x);
      assert Above(p, s, b, j, x);
    }
  }

  // A departure moves no arrivals and takes a connection away.
  lemma DepartKeeps(p: Setting, K: nat, s: State, i: nat, s': State)
    requires Inv(p, K, s) && Depart(s, i, s')
    ensures Inv(p, K, s')
  {
    assert Arrived(s') == Arrived(s);
    forall b: nat, j: nat, x: nat | Above(p, s', b, j, x) ensures s'.conns[b] - x + Holding(s'.handlers, b, x) <= K {
      assert Above(p, s, b, j, x);
    }
  }

  lemma StartHolds(p: Setting, K: nat, s: State)
    requires Sound(p) && EvenStart(p, s)
    ensures Inv(p, K, s)
  {
    forall b: nat, j: nat, x: nat ensures !Above(p, s, b, j, x) {
      if Above(p, s, b, j, x) {
        assert s.conns[b] * p.ws[j] == s.conns[j] * p.ws[b];
        Cancel(s.conns[b], x + 1, p.ws[j]);
        assert false;
      }
    }
  }

  lemma NextKeeps(p: Setting, K: nat, s: State, s': State)
    requires Sound(p) && Inv(p, K, s) && Next(p, s, s') && |s'.handlers| <= K
    ensures Inv(p, K, s')
  {
    if Begin(s, s') {
      BeginKeeps(p, K, s, s');
    } else if h: nat :| Scan(p, s, h, s') {
      ScanKeeps(p, K, s, h, s');
    } else if h: nat :| Increment(s, h, s') {
      IncrementKeeps(p, K, s, h, s');
    } else if h: nat :| Leave(s, h, s') {
      LeaveKeeps(p, K, s, h, s');
    } else {
      var b: nat :| Depart(s, b, s');
      DepartKeeps(p, K, s, b, s');
    }
  }

  lemma {:induction false} InvHolds(p: Setting, K: nat, trace: seq<State>, k: nat)
    requires Interleaving(p, K, trace) && k < |trace|
    ensures Inv(p, K, trace[k])
  {
    if k == 0 {
      StartHolds(p, K, trace[0]);
    } else {
      InvHolds(p, K, trace, k - 1);
      NextKeeps(p, K, trace[k - 1], trace[k]);
    }
  }

  // ----- Guarantees -----

  // The load of b, counting the handlers about to increment it, exceeds its fair share against the
  // arrivals of any other eligible backend j by at most K. Departures from j add to that.
  lemma WeightedSpread(p: Setting, K: nat, trace: seq<State>, k: nat, b: nat, j: nat)
    requires Interleaving(p, K, trace) && k < |trace| && b < |p.ws| && j < |p.ws| && p.on[b] && p.on[j]
    ensures |trace[k].conns| == |trace[k].left| == |p.ws|
    ensures var s := trace[k];
      (s.conns[b] + Pending(s.handlers, |p.ws|, b) - K) * p.ws[j] <= (s.conns[j] + s.left[j]) * p.ws[b]
  {
    InvHolds(p, K, trace, k);
    SpreadFromInv(p, K, trace[k], b, j);
  }

  lemma SpreadFromInv(p: Setting, K: nat, s: State, b: nat, j: nat)
    requires Sound(p) && Inv(p, K, s) && b < |p.ws| && j < |p.ws| && p.on[b] && p.on[j]
    ensures (s.conns[b] + Pending(s.handlers, |p.ws|, b) - K) * p.ws[j] <= (s.conns[j] + s.left[j]) * p.ws[b]
  {
    var a := s.conns[j] + s.left[j];
    var x := LevelOf(a * p.ws[b], p.ws[j]);
    assert x < s.conns[b] ==> Above(p, s, b, j, x);
    PendingHolds(p, Arrived(s), s.handlers, b, j, x);
    var over := s.conns[b] + Pending(s.handlers, |p.ws|, b) - K;
    assert over <= x;
    Monotone(over, x, p.ws[j]);
  }

  lemma LevelOf(a: nat, w: nat) returns (x: nat)
    requires w >= 1
    ensures x * w <= a < (x + 1) * w
  {
    x := a / w;
  }

  lemma {:induction false} PendingHolds(p: Setting, arrived: seq<nat>, hs: seq<Handler>, b: nat, j: nat, x: nat)
    requires Sound(p) && |arrived| == |p.ws| && b < |p.ws| && j < |p.ws| && p.on[j]
    requires forall h | h in hs :: SoundHandler(arrived, p, h)
    requires AtLevel(arrived[j], p.ws, b, j, x)
    ensures Pending(hs, |p.ws|, b) <= Holding(hs, b, x)
  {
    if hs != [] {
      var h := hs[|hs| - 1];
      PendingHolds(p, arrived, hs[..|hs| - 1], b, j, x);
      assert h in hs && SoundHandler(arrived, p, h);
      if Chose(h, |p.ws|, b) {
        BelowLevel(h.best.value, p.ws[j], arrived[j] * p.ws[b], x);
      }
    }
  }

  function Ones(n: nat): seq<nat> { seq(n, _ => 1) }

  // Plain least-connections: a load exceeds another that started equal by at most K, and by one more
  // for each departure from the other.
  lemma LeastConnsSpread(on: seq<bool>, K: nat, trace: seq<State>, k: nat, b: nat, j: nat)
    requires Interleaving(Setting(Ones(|on|), on), K, trace) && k < |trace|
    requires b < |on| && j < |on| && on[b] && on[j]
    ensures |trace[k].conns| == |trace[k].left| == |on|
    ensures trace[k].conns[b] + Pending(trace[k].handlers, |on|, b) <= trace[k].conns[j] + trace[k].left[j] + K
  {
    WeightedSpread(Setting(Ones(|on|), on), K, trace, k, b, j);
  }

  // The bound is reached for every K and every number D of departures: two backends end K + D apart.
  // So K alone bounds the spread of all runs exactly when there are no departures.
  lemma SpreadIsReached(K: nat, D: nat) returns (trace: seq<State>)
    ensures Interleaving(Pair(), K, trace)
    ensures var s := trace[|trace| - 1];
      |s.conns| == |s.left| == 2 && s.left == [0, D] && s.conns[0] == s.conns[1] + K + D
  {
    trace := LeaveSecond(K, D, D);
  }

  function Pair(): Setting { Setting(Ones(2), [true, true]) }

  lemma Append(K: nat, trace: seq<State>, s: State)
    requires Interleaving(Pair(), K, trace) && Next(Pair(), trace[|trace| - 1], s) && |s.handlers| <= K
    ensures Interleaving(Pair(), K, trace + [s])
  {
  }

  // k handlers that all read equal counters and hold the first backend.
  function Waiting(k: nat, D: nat): seq<Handler> { seq(k, _ => Handler(2, Best(0, D))) }

  lemma {:induction false} AllChooseFirst(K: nat, D: nat, k: nat) returns (trace: seq<State>)
    requires k <= K
    ensures Interleaving(Pair(), K, trace) && trace[|trace| - 1] == State([D, D], [0, 0], Waiting(k, D))
  {
    if k == 0 {
      trace := [State([D, D], [0, 0], Waiting(0, D))];
    } else {
      trace := AllChooseFirst(K, D, k - 1);
      var s0 := trace[|trace| - 1];
      var s1 := s0.(handlers := s0.handlers + [Handler(0, Nothing)]);
      assert Begin(s0, s1);
      Append(K, trace, s1);
      var s2 := s1.(handlers := s1.handlers[k - 1 := Handler(1, Best(0, D))]);
      assert Scan(Pair(), s1, k - 1, s2);
      Append(K, trace + [s1], s2);
      var s3 := s2.(handlers := s2.handlers[k - 1 := Handler(2, Best(0, D))]);
      assert Scan(Pair(), s2, k - 1, s3);
      Append(K, trace + [s1] + [s2], s3);
      assert s3.handlers == Waiting(k, D);
      trace := trace + [s1] + [s2] + [s3];
    }
  }

  lemma {:induction false} AllIncrement(K: nat, D: nat, t: nat) returns (trace: seq<State>)
    requires t <= K
    ensures Interleaving(Pair(), K, trace) && trace[|trace| - 1] == State([D + t, D], [0, 0], Waiting(K - t, D))
  {
    if t == 0 {
      trace := AllChooseFirst(K, D, K);
    } else {
      trace := AllIncrement(K, D, t - 1);
      var s := State([D + t, D], [0, 0], Waiting(K - t, D));
      assert Increment(trace[|trace| - 1], 0, s);
      Append(K, trace, s);
      trace := trace + [s];
    }
  }

  lemma {:induction false} LeaveSecond(K: nat, D: nat, d: nat) returns (trace: seq<State>)
    requires d <= D
    ensures Interleaving(Pair(), K, trace) && trace[|trace| - 1] == State([D + K, D - d], [0, d], [])
  {
    if d == 0 {
      trace := AllIncrement(K, D, K);
      assert Waiting(0, D) == [];
    } else {
      trace := LeaveSecond(K, D, d - 1);
      var s := State([D + K, D - d], [0, d], []);
      assert Depart(trace[|trace| - 1], 1, s);
      Append(K, trace, s);
      trace := trace + [s];
    }
  }

  // One request at a time: every pair keeps (conns_i - 1) * Weight_j <= arrived_j * Weight_i.
  lemma SequentialBalance(p: Setting, trace: seq<State>, k: nat, i: nat, j: nat)
    requires Interleaving(p, 1, trace) && k < |trace| && i < |p.ws| && j < |p.ws| && p.on[i] && p.on[j]
    ensures |trace[k].conns| == |trace[k].left| == |p.ws|
    ensures trace[k].conns[i] >= 1 ==>
      (trace[k].conns[i] - 1) * p.ws[j] <= (trace[k].conns[j] + trace[k].left[j]) * p.ws[i]
  {
    WeightedSpread(p, 1, trace, k, i, j);
    var s := trace[k];
    if s.conns[i] >= 1 {
      Monotone(s.conns[i] - 1, s.conns[i] + Pending(s.handlers, |p.ws|, i) - 1, p.ws[j]);
    }
  }

  // ----- The scan of one call, undisturbed -----

  function ScanFrom(h: Handler, conns: seq<nat>, p: Setting): Handler
    requires |conns| == |p.ws| == |p.on| && h.pos <= |p.ws|
    requires h.best.Best? ==> h.best.backend < |p.ws|
    decreases |p.ws| - h.pos
  {
    if h.pos == |p.ws| then h else ScanFrom(Read(h, conns, p), conns, p)
  }

  // A scan during which no counter moves ends on the first eligible backend of least score.
  lemma UndisturbedScan(conns: seq<nat>, p: Setting)
    requires Sound(p) && |conns| == |p.ws|
    ensures var best := ScanFrom(Handler(0, Nothing), conns, p).best;
      && (best.Nothing? ==> forall j | 0 <= j < |p.on| :: !p.on[j])
      && (best.Best? ==> LeastScore(conns, p.ws, p.on, best.backend) && best.value == conns[best.backend])
  {
    ScanKeepsFirst(Handler(0, Nothing), conns, p);
  }

  ghost predicate FirstSoFar(h: Handler, conns: seq<nat>, p: Setting)
    requires |conns| == |p.ws| == |p.on|
  {
    && SoundHandler(conns, p, h)
    && (h.best.Best? ==>
          && h.best.value == conns[h.best.backend]
          && forall j | 0 <= j < h.best.backend && p.on[j] ::
               Lighter(h.best.value, p.ws[h.best.backend], conns[j], p.ws[j]))
  }

  lemma {:induction false} ScanKeepsFirst(h: Handler, conns: seq<nat>, p: Setting)
    requires Sound(p) && |conns| == |p.ws| && FirstSoFar(h, conns, p)
    ensures FirstSoFar(ScanFrom(h, conns, p), conns, p) && ScanFrom(h, conns, p).pos == |p.ws|
    decreases |p.ws| - h.pos
  {
    if h.pos < |p.ws| {
      ReadIsSound(p, conns, conns, h);
      var h' := Read(h, conns, p);
      if h.best.Best? && h'.best != h.best {
        forall j | 0 <= j < h.pos && p.on[j] ensures Lighter(conns[h.pos], p.ws[h.pos], conns[j], p.ws[j]) {
          NotLighterTrans(conns[h.pos], p.ws[h.pos], h.best.value, p.ws[h.best.backend], conns[j], p.ws[j]);
        }
      }
      ScanKeepsFirst(h', conns, p);
    }
  }

  // With counters 2, 0, 1 the second backend is chosen; with weights 5, 1, 1 the first while its counter is
  // five times that of the third, and the third as soon as it is more.
  lemma ExpectedChoices()
    ensures var all := [true, true, true];
      && LeastScore([2, 0, 1], Ones(3), all, 1)
      && LeastScore([0, 0, 0], [5, 1, 1], all, 0)
      && LeastScore([5, 2, 1], [5, 1, 1], all, 0)
      && LeastScore([6, 2, 1], [5, 1, 1], all, 2)
  {
  }

  // There is never another choice.
  lemma LeastScoreUnique(conns: seq<nat>, ws: seq<nat>, on: seq<bool>, a: nat, b: nat)
    requires LeastScore(conns, ws, on, a) && LeastScore(conns, ws, on, b)
    ensures a == b
  {
  }
}
