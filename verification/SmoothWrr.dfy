// Smooth weighted round-robin: what one call does to the CurrentWeight vector, and what
// unbounded runs of calls guarantee.
module SmoothWrr {
  import opened Options
  import opened Sums

  const INT64_MAX := 0x7fff_ffff_ffff_ffff

  // CurrentWeight after every eligible backend has received its Weight.
  function Raised(ws: seq<int>, on: seq<bool>, cw: seq<int>): (r: seq<int>)
    requires |ws| == |on| == |cw|
  {
    seq(|cw|, i requires 0 <= i < |cw| => if on[i] then cw[i] + ws[i] else cw[i])
  }

  // b is eligible, no eligible value is larger, and every earlier eligible value is smaller.
  ghost predicate FirstMax(xs: seq<int>, on: seq<bool>, b: nat)
    requires |xs| == |on|
  {
    FirstMaxBelow(xs, on, |xs|, b)
  }

  ghost predicate FirstMaxBelow(xs: seq<int>, on: seq<bool>, k: nat, b: nat)
    requires k <= |xs| == |on|
  {
    && b < k && on[b]
    && forall j | 0 <= j < k && on[j] :: xs[j] <= xs[b] && (j < b ==> xs[j] < xs[b])
  }

  // One call that answers backend b and leaves the vector next.
  ghost predicate Step(ws: seq<int>, on: seq<bool>, cw: seq<int>, b: nat, next: seq<int>) {
    && |ws| == |on| == |cw|
    && var up := Raised(ws, on, cw);
    && FirstMax(up, on, b)
    && next == up[b := up[b] - Sum(ws, on, |ws|)]
  }

  // A run of calls while the eligible set stays put.
  ghost predicate Run(ws: seq<int>, on: seq<bool>, states: seq<seq<int>>, picks: seq<nat>) {
    && |ws| == |on|
    && |states| == |picks| + 1
    && (forall k | 0 <= k < |states| :: |states[k]| == |ws|)
    && forall k | 0 <= k < |picks| :: Step(ws, on, states[k], picks[k], states[k + 1])
  }

  ghost predicate Positive(ws: seq<int>) {
    forall i | 0 <= i < |ws| :: ws[i] >= 1
  }

  ghost predicate ZeroOn(on: seq<bool>, cw: seq<int>) {
    |on| == |cw| && forall i | 0 <= i < |cw| && on[i] :: cw[i] == 0
  }

  // ----- One call -----

  lemma {:induction false} SumRaised(ws: seq<int>, on: seq<bool>, cw: seq<int>, k: nat)
    requires k <= |ws| == |on| == |cw|
    ensures Sum(Raised(ws, on, cw), on, k) == Sum(cw, on, k) + Sum(ws, on, k)
  {
    if k > 0 { SumRaised(ws, on, cw, k - 1); }
  }

  // The sum over the eligible backends survives a call; the others are not touched.
  lemma StepConserves(ws: seq<int>, on: seq<bool>, cw: seq<int>, b: nat, next: seq<int>)
    requires Step(ws, on, cw, b, next)
    ensures |next| == |cw|
    ensures Sum(next, on, |cw|) == Sum(cw, on, |cw|)
    ensures forall i | 0 <= i < |cw| && !on[i] :: next[i] == cw[i]
  {
    var up, v := Raised(ws, on, cw), next[b];
    assert next == up[b := v];
    assert Sum(next, on, |cw|) == Sum(up, on, |cw|) - up[b] + v by { SumUpdate(up, on, |cw|, b, v); }
    assert Sum(up, on, |cw|) == Sum(cw, on, |cw|) + Sum(ws, on, |cw|) by { SumRaised(ws, on, cw, |cw|); }
    assert |ws| == |cw|;
  }

  lemma StepAt(ws: seq<int>, on: seq<bool>, cw: seq<int>, b: nat, next: seq<int>, i: nat)
    requires Step(ws, on, cw, b, next) && i < |ws|
    ensures |next| == |cw| && on[b]
    ensures next[i] == cw[i] + (if on[i] then ws[i] else 0) - if i == b then Sum(ws, on, |ws|) else 0
  {
  }

  lemma StepDeterministic(ws: seq<int>, on: seq<bool>, cw: seq<int>,
                          b: nat, next: seq<int>, b': nat, next': seq<int>)
    requires Step(ws, on, cw, b, next) && Step(ws, on, cw, b', next')
    ensures b == b' && next == next'
  {
    var up := Raised(ws, on, cw);
    assert up[b] <= up[b'] && up[b'] <= up[b];
  }

  // A call answers some backend as soon as one is eligible.
  lemma StepExists(ws: seq<int>, on: seq<bool>, cw: seq<int>) returns (b: nat, next: seq<int>)
    requires |ws| == |on| == |cw| && AnyOn(on)
    ensures Step(ws, on, cw, b, next)
  {
    var up := Raised(ws, on, cw);
    b := FindFirstMax(up, on, |up|);
    next := up[b := up[b] - Sum(ws, on, |ws|)];
  }

  // One more value: it takes over if it is eligible and larger, or the first that is eligible.
  lemma FirstMaxNext(xs: seq<int>, on: seq<bool>, k: nat, best: Option<nat>)
    requires k < |xs| == |on|
    requires match best
      case None => forall j | 0 <= j < k :: !on[j]
      case Some(b) => FirstMaxBelow(xs, on, k, b)
    ensures on[k] && (best.Some? ==> xs[k] > xs[best.value]) ==> FirstMaxBelow(xs, on, k + 1, k)
    ensures best.Some? && (on[k] ==> xs[k] <= xs[best.value]) ==> FirstMaxBelow(xs, on, k + 1, best.value)
  {
  }

  lemma {:induction false} FindFirstMax(xs: seq<int>, on: seq<bool>, k: nat) returns (b: nat)
    requires k <= |xs| == |on| && exists i | 0 <= i < k :: on[i]
    ensures FirstMaxBelow(xs, on, k, b)
  {
    if exists i | 0 <= i < k - 1 :: on[i] {
      b := FindFirstMax(xs, on, k - 1);
      if on[k - 1] && xs[k - 1] > xs[b] { b := k - 1; }
    } else {
      b := k - 1;
    }
  }

  // ----- Runs -----

  lemma RunNext(ws: seq<int>, on: seq<bool>, states: seq<seq<int>>, picks: seq<nat>, b: nat, next: seq<int>)
    requires Run(ws, on, states, picks) && Step(ws, on, states[|picks|], b, next)
    ensures Run(ws, on, states + [next], picks + [b])
  {
  }

  lemma {:induction false} RunExists(ws: seq<int>, on: seq<bool>, cw: seq<int>, k: nat)
    returns (states: seq<seq<int>>, picks: seq<nat>)
    requires |ws| == |on| == |cw| && AnyOn(on)
    ensures Run(ws, on, states, picks) && |picks| == k && states[0] == cw
  {
    if k == 0 {
      states, picks := [cw], [];
    } else {
      states, picks := RunExists(ws, on, cw, k - 1);
      var b, next := StepExists(ws, on, states[k - 1]);
      states, picks := states + [next], picks + [b];
    }
  }

  // One entry followed through a run: +w at each call, -W at each call that picks i.
  lemma {:induction false} Trajectory(xs: seq<int>, p: seq<nat>, i: nat, w: int, W: int)
    requires |xs| == |p| + 1
    requires forall j | 0 <= j < |p| :: xs[j + 1] == xs[j] + w - if p[j] == i then W else 0
    ensures xs[|p|] == xs[0] + |p| * w - W * Count(p, i)
  {
    if p != [] {
      var last := |p| - 1;
      Trajectory(xs[..|p|], p[..last], i, w, W);
      assert |p| * w == last * w + w;
      assert W * (Count(p[..last], i) + 1) == W * Count(p[..last], i) + W;
    }
  }

  // CurrentWeight_i over k calls from the t-th on.
  lemma Entry(ws: seq<int>, on: seq<bool>, states: seq<seq<int>>, picks: seq<nat>, t: nat, k: nat, i: nat)
    returns (xs: seq<int>)
    requires Run(ws, on, states, picks) && t + k <= |picks| && i < |ws| && on[i]
    ensures |xs| == k + 1 && xs[0] == states[t][i] && xs[k] == states[t + k][i]
    ensures forall j | 0 <= j < k ::
      xs[j + 1] == xs[j] + ws[i] - if picks[t..t + k][j] == i then Sum(ws, on, |ws|) else 0
  {
    xs := seq(k + 1, j requires 0 <= j <= k => states[t + j][i]);
    forall j | 0 <= j < k
      ensures xs[j + 1] == xs[j] + ws[i] - if picks[t..t + k][j] == i then Sum(ws, on, |ws|) else 0
    {
      StepAt(ws, on, states[t + j], picks[t + j], states[t + j + 1], i);
    }
  }

  // Over k calls CurrentWeight_i gains k * Weight_i and loses W for each time i was picked.
  lemma WindowForm(ws: seq<int>, on: seq<bool>, states: seq<seq<int>>, picks: seq<nat>, t: nat, k: nat, i: nat)
    requires Run(ws, on, states, picks) && t + k <= |picks| && i < |ws| && on[i]
    ensures states[t + k][i] == states[t][i] + k * ws[i] - Sum(ws, on, |ws|) * Count(picks[t..t + k], i)
  {
    var xs := Entry(ws, on, states, picks, t, k, i);
    Trajectory(xs, picks[t..t + k], i, ws[i], Sum(ws, on, |ws|));
  }

  // A backend outside the eligible set is neither picked nor changed.
  lemma {:induction false} Untouched(ws: seq<int>, on: seq<bool>, states: seq<seq<int>>, picks: seq<nat>, t: nat,
                                     k: nat, i: nat)
    requires Run(ws, on, states, picks) && t + k <= |picks| && i < |ws| && !on[i]
    ensures states[t + k][i] == states[t][i] && Count(picks[t..t + k], i) == 0
  {
    if k > 0 {
      Untouched(ws, on, states, picks, t, k - 1, i);
      StepAt(ws, on, states[t + k - 1], picks[t + k - 1], states[t + k], i);
      assert picks[t..t + k][..k - 1] == picks[t..t + k - 1];
    }
  }

  lemma ClosedForm(ws: seq<int>, on: seq<bool>, states: seq<seq<int>>, picks: seq<nat>, k: nat, i: nat)
    requires Run(ws, on, states, picks) && k <= |picks| && i < |ws| && on[i]
    ensures states[k][i] == states[0][i] + k * ws[i] - Sum(ws, on, |ws|) * Count(picks[..k], i)
  {
    WindowForm(ws, on, states, picks, 0, k, i);
    assert picks[0..k] == picks[..k];
  }

  lemma {:induction false} RunConserves(ws: seq<int>, on: seq<bool>, states: seq<seq<int>>, picks: seq<nat>, k: nat)
    requires Run(ws, on, states, picks) && k <= |picks|
    ensures Sum(states[k], on, |ws|) == Sum(states[0], on, |ws|)
  {
    if k > 0 {
      RunConserves(ws, on, states, picks, k - 1);
      StepConserves(ws, on, states[k - 1], picks[k - 1], states[k]);
    }
  }

  // The winner of a call exceeds any m that the eligible values reach on average.
  lemma WinnerExceeds(ws: seq<int>, on: seq<bool>, cw: seq<int>, b: nat, m: int)
    requires |ws| == |on| == |cw| && Positive(ws)
    requires FirstMax(Raised(ws, on, cw), on, b)
    requires Sum(cw, on, |cw|) >= m * Size(on, |on|)
    ensures Raised(ws, on, cw)[b] >= m + 1
  {
    var up := Raised(ws, on, cw);
    if up[b] <= m {
      SumAtMost(up, on, |up|, m);
      SumRaised(ws, on, cw, |cw|);
      SumAtLeast(ws, on, |ws|, 1);
      SizePositive(on, |on|, b);
      assert false;
    }
  }

  // From any start whose eligible values are at least m, no eligible value ever drops
  // below m - W + 1, however long the run.
  lemma {:induction false} NeverBelow(ws: seq<int>, on: seq<bool>, states: seq<seq<int>>, picks: seq<nat>, k: nat,
                                      m: int)
    requires Run(ws, on, states, picks) && Positive(ws) && k <= |picks| && AnyOn(on)
    requires forall i | 0 <= i < |ws| && on[i] :: states[0][i] >= m
    ensures forall i | 0 <= i < |ws| && on[i] :: states[k][i] >= m - Sum(ws, on, |ws|) + 1
  {
    TotalPositive(ws, on);
    if k > 0 {
      NeverBelow(ws, on, states, picks, k - 1, m);
      RunConserves(ws, on, states, picks, k - 1);
      SumAtLeast(states[0], on, |ws|, m);
      assert Step(ws, on, states[k - 1], picks[k - 1], states[k]);
      WinnerExceeds(ws, on, states[k - 1], picks[k - 1], m);
    }
  }

  lemma TotalPositive(ws: seq<int>, on: seq<bool>)
    requires |ws| == |on| && Positive(ws) && AnyOn(on)
    ensures Sum(ws, on, |ws|) >= Size(on, |on|) >= 1
  {
    var b :| 0 <= b < |on| && on[b];
    SumAtLeast(ws, on, |ws|, 1);
    SizePositive(on, |on|, b);
  }

  // Two-sided bound from any start: S is the conserved sum, n the number of eligible backends.
  lemma Bounded(ws: seq<int>, on: seq<bool>, states: seq<seq<int>>, picks: seq<nat>, k: nat, m: int, i: nat)
    requires Run(ws, on, states, picks) && Positive(ws) && k <= |picks|
    requires i < |ws| && on[i]
    requires forall j | 0 <= j < |ws| && on[j] :: states[0][j] >= m
    ensures m - Sum(ws, on, |ws|) < states[k][i]
    ensures states[k][i] <= Sum(states[0], on, |ws|) + (Sum(ws, on, |ws|) - 1 - m) * (Size(on, |on|) - 1)
  {
    Lower(ws, on, states, picks, k, m, i);
    Upper(ws, on, states, picks, k, m, i, Sum(ws, on, |ws|) - 1 - m);
  }

  lemma Lower(ws: seq<int>, on: seq<bool>, states: seq<seq<int>>, picks: seq<nat>, k: nat, m: int, i: nat)
    requires Run(ws, on, states, picks) && Positive(ws) && k <= |picks|
    requires i < |ws| && on[i]
    requires forall j | 0 <= j < |ws| && on[j] :: states[0][j] >= m
    ensures m - Sum(ws, on, |ws|) < states[k][i]
  {
    NeverBelow(ws, on, states, picks, k, m);
  }

  lemma Upper(ws: seq<int>, on: seq<bool>, states: seq<seq<int>>, picks: seq<nat>, k: nat, m: int, i: nat, d: int)
    requires Run(ws, on, states, picks) && Positive(ws) && k <= |picks|
    requires i < |ws| && on[i] && d == Sum(ws, on, |ws|) - 1 - m
    requires forall j | 0 <= j < |ws| && on[j] :: states[0][j] >= m
    ensures states[k][i] <= Sum(states[0], on, |ws|) + d * (Size(on, |on|) - 1)
  {
    assert forall j | 0 <= j < |ws| && on[j] :: states[k][j] >= -d by { NeverBelow(ws, on, states, picks, k, m); }
    SumBoundsOne(states[k], on, i, d);
    RunConserves(ws, on, states, picks, k);
  }
}
