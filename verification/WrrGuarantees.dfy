// What clients of weighted round-robin can rely on over whole runs.
module WrrGuarantees {
  import opened Sums
  import opened SmoothWrr

  // ----- Zero-started runs over a fixed eligible set -----

  // -W < CurrentWeight <= (W - 1) * (n - 1) at all times, W the eligible total, n the number eligible.
  lemma Magnitude(ws: seq<int>, on: seq<bool>, states: seq<seq<int>>, picks: seq<nat>, k: nat, i: nat)
    requires Run(ws, on, states, picks) && Positive(ws) && ZeroOn(on, states[0])
    requires k <= |picks| && i < |ws| && on[i]
    ensures -Sum(ws, on, |ws|) < states[k][i] <= (Sum(ws, on, |ws|) - 1) * (Size(on, |on|) - 1)
  {
    var d := Sum(ws, on, |ws|) - 1;
    assert forall j | 0 <= j < |ws| && on[j] :: states[k][j] >= -d by {
      NeverBelow(ws, on, states, picks, k, 0);
    }
    assert Sum(states[k], on, |ws|) == 0 by {
      RunConserves(ws, on, states, picks, k);
      SumOfZeros(on, states[0]);
    }
    SumBoundsOne(states[k], on, i, d);
  }

  lemma SumOfZeros(on: seq<bool>, cw: seq<int>)
    requires ZeroOn(on, cw)
    ensures Sum(cw, on, |cw|) == 0
  {
    SumAtMost(cw, on, |cw|, 0);
    SumAtLeast(cw, on, |cw|, 0);
  }

  // Each backend stays within its quota and lags it by a bounded amount, after any k calls.
  lemma Quota(ws: seq<int>, on: seq<bool>, states: seq<seq<int>>, picks: seq<nat>, k: nat, i: nat)
    requires Run(ws, on, states, picks) && Positive(ws) && ZeroOn(on, states[0])
    requires k <= |picks| && i < |ws| && on[i]
    ensures Sum(ws, on, |ws|) * Count(picks[..k], i) < k * ws[i] + Sum(ws, on, |ws|)
    ensures k * ws[i] - Sum(ws, on, |ws|) * Count(picks[..k], i)
         <= (Sum(ws, on, |ws|) - 1) * (Size(on, |on|) - 1)
  {
    Magnitude(ws, on, states, picks, k, i);
    ClosedForm(ws, on, states, picks, k, i);
  }

  // No value formed by a call leaves the int64 range while n * W stays within it.
  lemma NoOverflowFixed(ws: seq<int>, on: seq<bool>, states: seq<seq<int>>, picks: seq<nat>, k: nat, i: nat)
    requires Run(ws, on, states, picks) && Positive(ws) && ZeroOn(on, states[0])
    requires k <= |picks| && i < |ws| && on[i]
    requires Size(on, |on|) * Sum(ws, on, |ws|) <= INT64_MAX
    ensures -INT64_MAX <= states[k][i] <= INT64_MAX
    ensures -INT64_MAX <= Raised(ws, on, states[k])[i] <= INT64_MAX
    ensures forall j | 0 <= j <= |ws| :: 0 <= Sum(ws, on, j) <= INT64_MAX
  {
    Magnitude(ws, on, states, picks, k, i);
    TotalPositive(ws, on);
    ProductRoom(Size(on, |on|), Sum(ws, on, |ws|));
    forall j: nat | j <= |ws| ensures 0 <= Sum(ws, on, j) <= Sum(ws, on, |ws|) { SumMonotone(ws, on, j, |ws|); }
    assert ws[i] <= Sum(ws, on, |ws|) by {
      SumUpdate(ws, on, |ws|, i, 0);
      SumAtLeast(ws[i := 0], on, |ws|, 0);
    }
  }

  lemma ProductRoom(n: int, W: int)
    requires n >= 1 && W >= 1
    ensures (W - 1) * (n - 1) + W <= n * W && W <= n * W
  {
    assert (n - 1) * W >= 0;
  }

  lemma {:induction false} SumMonotone(ws: seq<int>, on: seq<bool>, j: nat, k: nat)
    requires j <= k <= |ws| == |on| && Positive(ws)
    ensures 0 <= Sum(ws, on, j) <= Sum(ws, on, k)
    decreases k
  {
    if j < k {
      SumMonotone(ws, on, j, k - 1);
    } else if j > 0 {
      SumMonotone(ws, on, j - 1, j - 1);
    }
  }

  // W calls give every eligible backend exactly its Weight and bring every CurrentWeight back.
  lemma ExactPeriod(ws: seq<int>, on: seq<bool>, states: seq<seq<int>>, picks: seq<nat>, W: nat)
    requires Run(ws, on, states, picks) && Positive(ws) && ZeroOn(on, states[0])
    requires W == Sum(ws, on, |ws|) <= |picks|
    ensures states[W] == states[0]
    ensures forall i: nat | i < |ws| :: Count(picks[..W], i) == if on[i] then ws[i] else 0
  {
    RunConserves(ws, on, states, picks, W);
    SumAgree(states[0], Zeros(|ws|), on, |ws|);
    SumAtMost(Zeros(|ws|), on, |ws|, 0);
    forall i: nat | i < |ws| && on[i] ensures states[W][i] >= 0 {
      NonNegativeAtPeriod(ws, on, states, picks, W, i);
    }
    forall i: nat | i < |ws|
      ensures states[W][i] == states[0][i] && Count(picks[..W], i) == if on[i] then ws[i] else 0
    {
      if on[i] {
        ClosedForm(ws, on, states, picks, W, i);
        SumBoundsOne(states[W], on, i, 0);
        TotalPositive(ws, on);
        SameFactor(W, ws[i], Count(picks[..W], i));
      } else {
        Untouched(ws, on, states, picks, 0, W, i);
        assert picks[0..W] == picks[..W];
      }
    }
  }

  function Zeros(n: nat): seq<int> { seq(n, _ => 0) }

  // At k == W the value is W * (Weight - picks), a multiple of W above -W.
  lemma NonNegativeAtPeriod(ws: seq<int>, on: seq<bool>, states: seq<seq<int>>, picks: seq<nat>, W: nat, i: nat)
    requires Run(ws, on, states, picks) && Positive(ws) && ZeroOn(on, states[0])
    requires W == Sum(ws, on, |ws|) <= |picks| && i < |ws| && on[i]
    ensures states[W][i] >= 0
  {
    NeverBelow(ws, on, states, picks, W, 0);
    ClosedForm(ws, on, states, picks, W, i);
    MultipleAbove(W, ws[i], Count(picks[..W], i));
  }

  lemma MultipleAbove(W: int, w: int, c: int)
    requires W >= 0 && W * w - W * c > -W
    ensures W * w - W * c >= 0
  {
    assert W * w - W * c == W * (w - c);
    if w - c < 0 { NegativeMultiple(W, w - c); } else { Product(W, w - c); }
  }

  lemma NegativeMultiple(W: int, d: int)
    requires W >= 0 && d < 0
    ensures W * d <= -W
  {
    Product(W, -1 - d);
    assert W * (-1 - d) == -W - W * d;
  }

  lemma Product(x: int, y: int)
    requires x >= 0 && y >= 0
    ensures x * y >= 0
  {
  }

  lemma SameFactor(W: int, a: int, b: int)
    requires W >= 1 && W * a - W * b <= 0 <= W * a - W * b
    ensures a == b
  {
    assert W * (a - b) == 0;
  }

  // The pick sequence repeats with period W.
  lemma {:induction false} Periodic(ws: seq<int>, on: seq<bool>, states: seq<seq<int>>, picks: seq<nat>, W: nat, t: nat)
    requires Run(ws, on, states, picks) && Positive(ws) && ZeroOn(on, states[0])
    requires W == Sum(ws, on, |ws|) && t + W <= |picks|
    ensures states[t + W] == states[t]
    ensures t + W < |picks| ==> picks[t + W] == picks[t]
  {
    if t == 0 {
      ExactPeriod(ws, on, states, picks, W);
    } else {
      Periodic(ws, on, states, picks, W, t - 1);
      assert Step(ws, on, states[t - 1], picks[t - 1], states[t]);
      assert Step(ws, on, states[t - 1 + W], picks[t - 1 + W], states[t + W]);
      StepDeterministic(ws, on, states[t - 1], picks[t - 1], states[t], picks[t - 1 + W], states[t + W]);
    }
    if t + W < |picks| {
      assert Step(ws, on, states[t], picks[t], states[t + 1]);
      assert Step(ws, on, states[t + W], picks[t + W], states[t + W + 1]);
      StepDeterministic(ws, on, states[t], picks[t], states[t + 1], picks[t + W], states[t + W + 1]);
    }
  }

  // Any W consecutive calls, at any offset, hold exactly Weight picks of each eligible backend.
  lemma EveryWindowFair(ws: seq<int>, on: seq<bool>, states: seq<seq<int>>, picks: seq<nat>, W: nat, t: nat, i: nat)
    requires Run(ws, on, states, picks) && Positive(ws) && ZeroOn(on, states[0])
    requires W == Sum(ws, on, |ws|) && t + W <= |picks| && i < |ws|
    ensures Count(picks[t..t + W], i) == if on[i] then ws[i] else 0
  {
    Periodic(ws, on, states, picks, W, t);
    if on[i] {
      WindowForm(ws, on, states, picks, t, W, i);
      TotalPositive(ws, on);
      SameFactor(Sum(ws, on, |ws|), ws[i], Count(picks[t..t + W], i));
    } else {
      Untouched(ws, on, states, picks, t, W, i);
    }
  }

  // ----- Arbitrary starts, as health churn leaves them -----

  // While i is passed over its value climbs, so k calls are enough once k * Weight_i exceeds what
  // the conserved sum S and the least starting value m leave room for.
  lemma NoStarvation(ws: seq<int>, on: seq<bool>, states: seq<seq<int>>, picks: seq<nat>, m: int, i: nat)
    requires Run(ws, on, states, picks) && Positive(ws)
    requires i < |ws| && on[i]
    requires forall j | 0 <= j < |ws| && on[j] :: states[0][j] >= m
    requires |picks| * ws[i] > Sum(states[0], on, |ws|) - states[0][i]
                              + (Sum(ws, on, |ws|) - 1 - m) * (Size(on, |on|) - 1)
    ensures i in picks
  {
    if i !in picks {
      Bounded(ws, on, states, picks, |picks|, m, i);
      Climb(ws, on, states, picks, |picks|, i);
      assert false;
    }
  }

  lemma {:induction false} Climb(ws: seq<int>, on: seq<bool>, states: seq<seq<int>>, picks: seq<nat>, k: nat, i: nat)
    requires Run(ws, on, states, picks) && k <= |picks| && i < |ws| && on[i] && i !in picks
    ensures states[k][i] == states[0][i] + k * ws[i]
  {
    if k > 0 {
      Climb(ws, on, states, picks, k - 1, i);
      StepAt(ws, on, states[k - 1], picks[k - 1], states[k], i);
    }
  }

  // The long-run share: W * picks_i follows k * Weight_i within a band that does not grow with k.
  lemma LongRunShare(ws: seq<int>, on: seq<bool>, states: seq<seq<int>>, picks: seq<nat>, k: nat, m: int, i: nat)
    requires Run(ws, on, states, picks) && Positive(ws)
    requires k <= |picks| && i < |ws| && on[i]
    requires forall j | 0 <= j < |ws| && on[j] :: states[0][j] >= m
    ensures var W, S, n := Sum(ws, on, |ws|), Sum(states[0], on, |ws|), Size(on, |on|);
      var drift := k * ws[i] - W * Count(picks[..k], i);
      m - W - states[0][i] < drift <= S + (W - 1 - m) * (n - 1) - states[0][i]
  {
    Bounded(ws, on, states, picks, k, m, i);
    ClosedForm(ws, on, states, picks, k, i);
  }

  // ----- Scaling all weights -----

  function Scale(g: int, xs: seq<int>): seq<int> {
    seq(|xs|, i requires 0 <= i < |xs| => g * xs[i])
  }

  lemma {:induction false} SumScale(g: int, xs: seq<int>, on: seq<bool>, k: nat)
    requires k <= |xs| == |on|
    ensures Sum(Scale(g, xs), on, k) == g * Sum(xs, on, k)
  {
    if k > 0 {
      SumScale(g, xs, on, k - 1);
      if on[k - 1] {
        assert g * (Sum(xs, on, k - 1) + xs[k - 1]) == g * Sum(xs, on, k - 1) + g * xs[k - 1];
      }
    }
  }

  lemma StepScale(g: nat, ws: seq<int>, on: seq<bool>, cw: seq<int>, b: nat, next: seq<int>)
    requires g >= 1 && Step(ws, on, cw, b, next)
    ensures Step(Scale(g, ws), on, Scale(g, cw), b, Scale(g, next))
  {
    var up, W := Raised(ws, on, cw), Sum(ws, on, |ws|);
    assert Raised(Scale(g, ws), on, Scale(g, cw)) == Scale(g, up) by { RaisedScale(g, ws, on, cw); }
    assert FirstMax(Scale(g, up), on, b) by { FirstMaxScale(g, up, on, b); }
    assert Sum(Scale(g, ws), on, |ws|) == g * W by { SumScale(g, ws, on, |ws|); }
    assert Scale(g, next) == Scale(g, up)[b := Scale(g, up)[b] - g * W] by { ScaleUpdate(g, up, b, W); }
  }

  lemma RaisedScale(g: nat, ws: seq<int>, on: seq<bool>, cw: seq<int>)
    requires |ws| == |on| == |cw|
    ensures Raised(Scale(g, ws), on, Scale(g, cw)) == Scale(g, Raised(ws, on, cw))
  {
    forall i | 0 <= i < |cw| ensures g * (cw[i] + ws[i]) == g * cw[i] + g * ws[i] {}
  }

  lemma FirstMaxScale(g: nat, up: seq<int>, on: seq<bool>, b: nat)
    requires g >= 1 && |up| == |on| && FirstMax(up, on, b)
    ensures FirstMax(Scale(g, up), on, b)
  {
    forall j | 0 <= j < |up| && on[j] ensures g * up[j] <= g * up[b] && (j < b ==> g * up[j] < g * up[b]) {
      ScaleOrder(g, up[j], up[b]);
    }
  }

  lemma ScaleUpdate(g: nat, up: seq<int>, b: nat, W: int)
    requires b < |up|
    ensures Scale(g, up[b := up[b] - W]) == Scale(g, up)[b := Scale(g, up)[b] - g * W]
  {
    assert g * (up[b] - W) == g * up[b] - g * W;
  }

  lemma ScaleOrder(g: nat, x: int, y: int)
    requires g >= 1
    ensures x <= y ==> g * x <= g * y
    ensures x < y ==> g * x < g * y
  {
    if x < y { assert g * (y - x) >= 1; assert g * y == g * x + g * (y - x); }
  }

  // Multiplying every weight by g > 0 leaves the picks alone and multiplies every CurrentWeight by g.
  lemma {:induction false} ScaleInvariant(g: nat, ws: seq<int>, on: seq<bool>,
                       states: seq<seq<int>>, picks: seq<nat>,
                       states': seq<seq<int>>, picks': seq<nat>, k: nat)
    requires g >= 1
    requires Run(ws, on, states, picks) && Run(Scale(g, ws), on, states', picks')
    requires states'[0] == Scale(g, states[0])
    requires k <= |picks| == |picks'|
    ensures states'[k] == Scale(g, states[k])
    ensures picks'[..k] == picks[..k]
  {
    if k > 0 {
      ScaleInvariant(g, ws, on, states, picks, states', picks', k - 1);
      assert Step(Scale(g, ws), on, states'[k - 1], picks'[k - 1], states'[k]);
      StepScale(g, ws, on, states[k - 1], picks[k - 1], states[k]);
      StepDeterministic(Scale(g, ws), on, states'[k - 1], picks'[k - 1], states'[k], picks[k - 1], Scale(g, states[k]));
      assert picks[..k] == picks[..k - 1] + [picks[k - 1]];
      assert picks'[..k] == picks'[..k - 1] + [picks'[k - 1]];
    }
  }

  // With a common factor g in all weights the schedule already repeats every W / g calls.
  lemma ReducedPeriod(g: nat, ws: seq<int>, on: seq<bool>, states: seq<seq<int>>, picks: seq<nat>, V: nat, t: nat)
    requires g >= 1 && |ws| == |on| && Positive(ws)
    requires Run(Scale(g, ws), on, states, picks) && states[0] == Zeros(|ws|)
    requires V == Sum(ws, on, |ws|) && t + V < |picks|
    ensures g * V == Sum(Scale(g, ws), on, |ws|)
    ensures picks[t + V] == picks[t]
  {
    SumScale(g, ws, on, |ws|);
    assert AnyOn(on) by {
      assert Step(Scale(g, ws), on, states[0], picks[0], states[1]);
      assert on[picks[0]];
    }
    var states0, picks0 := RunExists(ws, on, Zeros(|ws|), |picks|);
    assert Scale(g, Zeros(|ws|)) == Zeros(|ws|);
    ScaleInvariant(g, ws, on, states0, picks0, states, picks, |picks|);
    assert picks0[..|picks|] == picks0 && picks[..|picks|] == picks;
    Periodic(ws, on, states0, picks0, V, t);
  }

  // Weights 5, 1, 1 give the schedule the integration test expects, and no other.
  lemma ExpectedSchedule(states: seq<seq<int>>, picks: seq<nat>)
    requires Run([5, 1, 1], [true, true, true], states, picks)
    requires |picks| == 7 && states[0] == [0, 0, 0]
    ensures picks == [0, 0, 1, 0, 2, 0, 0] && states[7] == [0, 0, 0]
  {
    ExpectedHalf(states, picks);
    ExpectedCall(states, picks, 4, [4, -2, 5], 2, [4, -2, -2]);
    ExpectedCall(states, picks, 5, [9, -1, -1], 0, [2, -1, -1]);
    ExpectedCall(states, picks, 6, [7, 0, 0], 0, [0, 0, 0]);
    assert picks == picks[..4] + picks[4..];
  }

  lemma ExpectedHalf(states: seq<seq<int>>, picks: seq<nat>)
    requires Run([5, 1, 1], [true, true, true], states, picks)
    requires |picks| == 7 && states[0] == [0, 0, 0]
    ensures picks[..4] == [0, 0, 1, 0] && states[4] == [-1, -3, 4]
  {
    ExpectedCall(states, picks, 0, [5, 1, 1], 0, [-2, 1, 1]);
    ExpectedCall(states, picks, 1, [3, 2, 2], 0, [-4, 2, 2]);
    ExpectedCall(states, picks, 2, [1, 3, 3], 1, [1, -4, 3]);
    ExpectedCall(states, picks, 3, [6, -3, 4], 0, [-1, -3, 4]);
  }

  lemma ExpectedCall(states: seq<seq<int>>, picks: seq<nat>, k: nat, up: seq<int>, b: nat, next: seq<int>)
    requires Run([5, 1, 1], [true, true, true], states, picks) && k < |picks|
    requires |up| == 3 && states[k] == [up[0] - 5, up[1] - 1, up[2] - 1]
    requires FirstMax(up, [true, true, true], b) && next == up[b := up[b] - 7]
    ensures picks[k] == b && states[k + 1] == next
  {
    var ws, on := [5, 1, 1], [true, true, true];
    assert Sum(ws, on, 3) == 7 by { assert Sum(ws, on, 1) == 5; }
    assert Step(ws, on, states[k], picks[k], states[k + 1]);
    assert Raised(ws, on, states[k]) == up;
    StepDeterministic(ws, on, states[k], picks[k], states[k + 1], b, next);
  }
}
