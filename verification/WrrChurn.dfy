// Weighted round-robin while health checks and circuit breakers change the eligible set between calls.
module WrrChurn {
  import opened Options
  import opened Sums
  import opened SmoothWrr
  import opened WrrGuarantees

  // seen[k] is what the k-th call observed; a call that saw nobody eligible answers None.
  ghost predicate ChurnRun(ws: seq<int>, seen: seq<seq<bool>>, states: seq<seq<int>>, picks: seq<Option<nat>>) {
    && |states| == |picks| + 1 == |seen| + 1
    && (forall k | 0 <= k < |states| :: |states[k]| == |ws|)
    && forall k | 0 <= k < |picks| :: Call(ws, seen[k], states[k], picks[k], states[k + 1])
  }

  ghost predicate Call(ws: seq<int>, on: seq<bool>, cw: seq<int>, pick: Option<nat>, next: seq<int>) {
    && |on| == |ws| == |cw|
    && match pick
       case None => !AnyOn(on) && next == cw
       case Some(b) => Step(ws, on, cw, b, next)
  }

  // One call moves weight only among the backends it saw as eligible.
  lemma CallConserves(ws: seq<int>, on: seq<bool>, cw: seq<int>, pick: Option<nat>, next: seq<int>)
    requires Call(ws, on, cw, pick, next)
    ensures |next| == |cw|
    ensures pick == None <==> !AnyOn(on)
    ensures Sum(next, on, |cw|) == Sum(cw, on, |cw|)
    ensures Sum(next, Everyone(|cw|), |cw|) == Sum(cw, Everyone(|cw|), |cw|)
    ensures forall i | 0 <= i < |cw| && !on[i] :: next[i] == cw[i]
  {
    match pick
    case None =>
    case Some(b) =>
      StepConserves(ws, on, cw, b, next);
      OffPartAgrees(next, cw, on, |cw|);
  }

  // If two vectors agree off the eligible set, their totals differ by their eligible sums.
  lemma {:induction false} OffPartAgrees(xs: seq<int>, ys: seq<int>, on: seq<bool>, k: nat)
    requires k <= |xs| == |ys| == |on|
    requires forall i | 0 <= i < |xs| && !on[i] :: xs[i] == ys[i]
    ensures Sum(xs, Everyone(|xs|), k) - Sum(ys, Everyone(|xs|), k) == Sum(xs, on, k) - Sum(ys, on, k)
  {
    if k > 0 { OffPartAgrees(xs, ys, on, k - 1); }
  }

  // From a fresh pool the CurrentWeights add up to zero for ever, whatever the health checks do.
  lemma {:induction false} ChurnConserves(ws: seq<int>, seen: seq<seq<bool>>, states: seq<seq<int>>,
                                          picks: seq<Option<nat>>, k: nat)
    requires ChurnRun(ws, seen, states, picks) && k <= |picks|
    requires states[0] == Zeros(|ws|)
    ensures Sum(states[k], Everyone(|ws|), |ws|) == 0
  {
    if k == 0 {
      SumAtMost(Zeros(|ws|), Everyone(|ws|), |ws|, 0);
      SumAtLeast(Zeros(|ws|), Everyone(|ws|), |ws|, 0);
    } else {
      ChurnConserves(ws, seen, states, picks, k - 1);
      CallConserves(ws, seen[k - 1], states[k - 1], picks[k - 1], states[k]);
    }
  }

  function PowerOfTwo(d: nat): nat { if d == 0 then 1 else 2 * PowerOfTwo(d - 1) }

  // Over a fixed eligible set every value stays above minus the eligible total W. Under churn no bound
  // in terms of W remains: with 2^d backends of weight 1 and two of them eligible at each call, so that
  // W is always 2, some run takes a backend down to -d.
  lemma ChurnBreaksLowerBound(d: nat)
    ensures exists seen, states, picks ::
      var n := PowerOfTwo(d);
      && ChurnRun(Ones(n), seen, states, picks) && states[0] == Zeros(n)
      && Pairs(n, seen) && n > 0 && states[|picks|][0] == 0 - d
  {
    var n := PowerOfTwo(d);
    var seen, states, picks := Sink(n, Zeros(n), 0, d, 0);
  }

  function Ones(n: nat): seq<int> { seq(n, _ => 1) }

  // Every call sees an eligible total of 2.
  ghost predicate Pairs(n: nat, seen: seq<seq<bool>>) {
    forall k | 0 <= k < |seen| :: |seen[k]| == n && Sum(Ones(n), seen[k], n) == 2
  }

  // A knock-out among 2^d backends of the same value: the first of each half goes down by d - 1, and
  // when the two of them are eligible together the lower index wins and goes down once more.
  lemma {:induction false} Sink(n: nat, cw: seq<int>, lo: nat, d: nat, v: int)
    returns (seen: seq<seq<bool>>, states: seq<seq<int>>, picks: seq<Option<nat>>)
    requires lo + PowerOfTwo(d) <= n == |cw|
    requires forall i | lo <= i < lo + PowerOfTwo(d) :: cw[i] == v
    ensures PowerOfTwo(d) >= 1 && ChurnRun(Ones(n), seen, states, picks) && Pairs(n, seen)
    ensures states[0] == cw && states[|picks|][lo] == v - d
    ensures forall i | 0 <= i < n && !(lo <= i < lo + PowerOfTwo(d)) :: states[|picks|][i] == cw[i]
    decreases d
  {
    if d == 0 {
      seen, states, picks := [], [cw], [];
    } else {
      var half := PowerOfTwo(d - 1);
      seen, states, picks := Sink(n, cw, lo, d - 1, v);
      var seen', states', picks' := Sink(n, states[|picks|], lo + half, d - 1, v);
      seen, states, picks := Joined(Ones(n), seen, states, picks, seen', states', picks');
      var last := states[|picks|];
      var on := Nobody(n)[lo := true][lo + half := true];
      var next := last[lo := last[lo] - 1][lo + half := last[lo + half] + 1];
      PairCall(n, last, lo, lo + half);
      seen, states, picks := Joined(Ones(n), seen, states, picks, [on], [last, next], [Some(lo)]);
    }
  }

  // Of two eligible backends of the same value the first is chosen.
  lemma PairCall(n: nat, cw: seq<int>, i: nat, j: nat)
    requires i < j < n == |cw| && cw[i] == cw[j]
    ensures var on := Nobody(n)[i := true][j := true];
      && Call(Ones(n), on, cw, Some(i), cw[i := cw[i] - 1][j := cw[j] + 1])
      && Sum(Ones(n), on, n) == 2
  {
    var ws, on := Ones(n), Nobody(n)[i := true][j := true];
    SumNone(ws, Nobody(n), n);
    SumFlag(ws, Nobody(n), n, i, true);
    SumFlag(ws, Nobody(n)[i := true], n, j, true);
    var up := Raised(ws, on, cw);
    assert up[i := up[i] - 2] == cw[i := cw[i] - 1][j := cw[j] + 1];
  }

  // A run goes on where another ends.
  lemma Joined(ws: seq<int>, seen: seq<seq<bool>>, states: seq<seq<int>>, picks: seq<Option<nat>>,
               seen': seq<seq<bool>>, states': seq<seq<int>>, picks': seq<Option<nat>>)
    returns (allSeen: seq<seq<bool>>, allStates: seq<seq<int>>, allPicks: seq<Option<nat>>)
    requires ChurnRun(ws, seen, states, picks) && ChurnRun(ws, seen', states', picks')
    requires states'[0] == states[|picks|]
    ensures ChurnRun(ws, allSeen, allStates, allPicks)
    ensures allSeen == seen + seen' && |allPicks| == |picks| + |picks'|
    ensures allStates[0] == states[0] && allStates[|allPicks|] == states'[|picks'|]
  {
    allSeen, allStates, allPicks := seen + seen', states[..|picks|] + states', picks + picks';
    forall k | 0 <= k < |allPicks| ensures Call(ws, allSeen[k], allStates[k], allPicks[k], allStates[k + 1]) {
      if k < |picks| {
        assert Call(ws, seen[k], states[k], picks[k], states[k + 1]);
      } else {
        var l := k - |picks|;
        assert Call(ws, seen'[l], states'[l], picks'[l], states'[l + 1]);
      }
    }
  }

  // When a call keeps its winner above minus the eligible total: some eligible backend must have
  // reached 1 before the subtraction. From zero over a fixed eligible set one always has.
  lemma WinnerAboveIff(ws: seq<int>, on: seq<bool>, cw: seq<int>, b: nat, next: seq<int>)
    requires Step(ws, on, cw, b, next)
    ensures next[b] > -Sum(ws, on, |ws|) <==> exists i :: 0 <= i < |ws| && on[i] && cw[i] + ws[i] >= 1
  {
    var up := Raised(ws, on, cw);
    if next[b] > -Sum(ws, on, |ws|) {
      assert on[b] && cw[b] + ws[b] >= 1;
    }
    if i :| 0 <= i < |ws| && on[i] && cw[i] + ws[i] >= 1 {
      assert up[i] <= up[b];
    }
  }

  // ----- The bound that does hold under churn -----

  // What k of n backends together may have gained when all weights add up to W.
  function Room(W: int, n: int, k: int): int { W * (k * (n - k)) }

  lemma RoomIsConcave(W: int, n: int, k: int)
    ensures Room(W, n, k - 1) + Room(W, n, k + 1) + 2 * W == 2 * Room(W, n, k)
  {
    assert (k - 1) * (n - (k - 1)) + (k + 1) * (n - (k + 1)) + 2 == 2 * (k * (n - k));
    var a, b, c := (k - 1) * (n - (k - 1)), (k + 1) * (n - (k + 1)), k * (n - k);
    assert W * a + W * b + 2 * W == W * (a + b + 2);
    assert W * (2 * c) == 2 * (W * c);
  }

  // No set of backends has gained more than its room.
  ghost predicate WithinRoom(ws: seq<int>, cw: seq<int>) {
    && |cw| == |ws|
    && forall set_: seq<bool> | |set_| == |ws| ::
         Sum(cw, set_, |ws|) <= Room(Sum(ws, Everyone(|ws|), |ws|), |ws|, Size(set_, |ws|))
  }

  function Both(a: seq<bool>, b: seq<bool>): seq<bool>
    requires |a| == |b|
  {
    seq(|a|, i requires 0 <= i < |a| => a[i] && b[i])
  }

  // What a call adds to a set of backends: the weights of the eligible ones, and minus the eligible
  // total if the winner is one of them.
  lemma StepOnSet(ws: seq<int>, on: seq<bool>, cw: seq<int>, b: nat, next: seq<int>, a: seq<bool>)
    requires Step(ws, on, cw, b, next) && |a| == |ws|
    ensures |next| == |ws|
    ensures Sum(next, a, |ws|) == Sum(cw, a, |ws|) + Sum(ws, Both(a, on), |ws|)
                                  - if a[b] then Sum(ws, on, |ws|) else 0
  {
    var up, v := Raised(ws, on, cw), next[b];
    SumRaisedOnSet(ws, on, cw, a, |ws|);
    if a[b] {
      SumUpdate(up, a, |ws|, b, v);
    } else {
      SumAgree(up, next, a, |ws|);
    }
  }

  lemma {:induction false} SumRaisedOnSet(ws: seq<int>, on: seq<bool>, cw: seq<int>, a: seq<bool>, k: nat)
    requires k <= |ws| == |on| == |cw| == |a|
    ensures Sum(Raised(ws, on, cw), a, k) == Sum(cw, a, k) + Sum(ws, Both(a, on), k)
  {
    if k > 0 { SumRaisedOnSet(ws, on, cw, a, k - 1); }
  }

  lemma StepWithinRoom(ws: seq<int>, on: seq<bool>, cw: seq<int>, b: nat, next: seq<int>, a: seq<bool>)
    requires Positive(ws) && WithinRoom(ws, cw) && Step(ws, on, cw, b, next) && |a| == |ws|
    ensures |next| == |ws|
    ensures Sum(next, a, |ws|) <= Room(Sum(ws, Everyone(|ws|), |ws|), |ws|, Size(a, |ws|))
  {
    StepOnSet(ws, on, cw, b, next, a);
    var gained := Both(a, on);
    if a[b] {
      SumSubset(ws, gained, on, |ws|);
    } else if i :| 0 <= i < |ws| && gained[i] {
      PassedOver(ws, on, cw, b, next, a, i);
    } else {
      SumNone(ws, gained, |ws|);
    }
  }

  // The winner b is outside the set and i inside was passed over: compare with the set without i and
  // the set with b.
  lemma PassedOver(ws: seq<int>, on: seq<bool>, cw: seq<int>, b: nat, next: seq<int>, a: seq<bool>, i: nat)
    requires Positive(ws) && WithinRoom(ws, cw) && Step(ws, on, cw, b, next) && |a| == |ws|
    requires !a[b] && i < |ws| && a[i] && on[i]
    ensures Sum(cw, a, |ws|) + Sum(ws, Both(a, on), |ws|)
         <= Room(Sum(ws, Everyone(|ws|), |ws|), |ws|, Size(a, |ws|))
  {
    var n, W, k := |ws|, Sum(ws, Everyone(|ws|), |ws|), Size(a, |ws|);
    var fewer, more := a[i := false], a[b := true];
    SumFlag(cw, a, n, i, false);
    SumFlag(cw, a, n, b, true);
    SizeFlag(a, n, i, false);
    SizeFlag(a, n, b, true);
    assert Sum(cw, a, n) - cw[i] <= Room(W, n, k - 1) by { assert Size(fewer, n) == k - 1; }
    assert Sum(cw, a, n) + cw[b] <= Room(W, n, k + 1) by { assert Size(more, n) == k + 1; }
    RoomIsConcave(W, n, k);
    assert cw[i] + ws[i] <= cw[b] + ws[b] by {
      var up := Raised(ws, on, cw);
      assert up[i] <= up[b];
    }
    assert Sum(ws, Both(a, on), n) + ws[b] <= W by {
      SumFlag(ws, Both(a, on), n, b, true);
      SumSubset(ws, Both(a, on)[b := true], Everyone(n), n);
    }
  }

  lemma {:induction false} ChurnWithinRoom(ws: seq<int>, seen: seq<seq<bool>>, states: seq<seq<int>>,
                                           picks: seq<Option<nat>>, k: nat)
    requires ChurnRun(ws, seen, states, picks) && Positive(ws) && k <= |picks|
    requires states[0] == Zeros(|ws|)
    ensures WithinRoom(ws, states[k])
  {
    if k == 0 {
      forall a: seq<bool> | |a| == |ws|
        ensures Sum(states[0], a, |ws|) <= Room(Sum(ws, Everyone(|ws|), |ws|), |ws|, Size(a, |ws|))
      {
        SumAtMost(states[0], a, |ws|, 0);
        RoomPositive(ws, a);
      }
    } else {
      ChurnWithinRoom(ws, seen, states, picks, k - 1);
      assert Call(ws, seen[k - 1], states[k - 1], picks[k - 1], states[k]);
      if picks[k - 1].Some? {
        forall a: seq<bool> | |a| == |ws|
          ensures Sum(states[k], a, |ws|) <= Room(Sum(ws, Everyone(|ws|), |ws|), |ws|, Size(a, |ws|))
        {
          StepWithinRoom(ws, seen[k - 1], states[k - 1], picks[k - 1].value, states[k], a);
        }
      }
    }
  }

  lemma RoomPositive(ws: seq<int>, a: seq<bool>)
    requires Positive(ws) && |a| == |ws|
    ensures Room(Sum(ws, Everyone(|ws|), |ws|), |ws|, Size(a, |ws|)) >= 0
  {
    var n, k := |ws|, Size(a, |ws|);
    SizeAtMost(a, n);
    SumAtLeast(ws, Everyone(n), n, 0);
    Product(k, n - k);
    Product(Sum(ws, Everyone(n), n), k * (n - k));
  }

  // From a fresh pool, whatever the health checks do, every CurrentWeight stays within W * (n - 1) of
  // zero, W the total of all weights and n the number of backends.
  lemma ChurnMagnitude(ws: seq<int>, seen: seq<seq<bool>>, states: seq<seq<int>>, picks: seq<Option<nat>>, k: nat,
                       i: nat)
    requires ChurnRun(ws, seen, states, picks) && Positive(ws)
    requires states[0] == Zeros(|ws|) && k <= |picks| && i < |ws|
    ensures var W := Sum(ws, Everyone(|ws|), |ws|);
      -(W * (|ws| - 1)) <= states[k][i] <= W * (|ws| - 1)
  {
    ChurnWithinRoom(ws, seen, states, picks, k);
    ChurnConserves(ws, seen, states, picks, k);
    OneFromRoom(ws, states[k], i);
  }

  lemma OneFromRoom(ws: seq<int>, cw: seq<int>, i: nat)
    requires WithinRoom(ws, cw) && i < |ws| && Sum(cw, Everyone(|cw|), |cw|) == 0
    ensures var W := Sum(ws, Everyone(|ws|), |ws|);
      -(W * (|ws| - 1)) <= cw[i] <= W * (|ws| - 1)
  {
    var n := |ws|;
    var alone, others := Nobody(n)[i := true], Everyone(n)[i := false];
    assert Size(alone, n) == 1 && Sum(cw, alone, n) == cw[i] by {
      SizeFlag(Nobody(n), n, i, true);
      SumFlag(cw, Nobody(n), n, i, true);
      SizeNobody(n, n);
      SumNone(cw, Nobody(n), n);
    }
    assert Size(others, n) == n - 1 && Sum(cw, others, n) == -cw[i] by {
      SizeFlag(Everyone(n), n, i, false);
      SumFlag(cw, Everyone(n), n, i, false);
      SizeEveryone(n, n);
    }
    RoomOfOne(Sum(ws, Everyone(n), n), n);
  }

  lemma RoomOfOne(W: int, n: int)
    ensures Room(W, n, 1) == W * (n - 1) && Room(W, n, n - 1) == W * (n - 1)
  {
  }

  // So no value that any call forms leaves the int64 range while n * W stays within it.
  lemma NoOverflow(ws: seq<int>, seen: seq<seq<bool>>, states: seq<seq<int>>, picks: seq<Option<nat>>, k: nat, i: nat)
    requires ChurnRun(ws, seen, states, picks) && Positive(ws)
    requires states[0] == Zeros(|ws|) && k < |picks| && i < |ws|
    requires |ws| * Sum(ws, Everyone(|ws|), |ws|) <= INT64_MAX
    ensures -INT64_MAX <= states[k][i] <= INT64_MAX && -INT64_MAX <= states[k + 1][i] <= INT64_MAX
    ensures -INT64_MAX <= Raised(ws, seen[k], states[k])[i] <= INT64_MAX
    ensures forall j | 0 <= j <= |ws| :: 0 <= Sum(ws, seen[k], j) <= INT64_MAX
  {
    assert Call(ws, seen[k], states[k], picks[k], states[k + 1]);
    ValueFits(ws, seen, states, picks, k, i);
    ValueFits(ws, seen, states, picks, k + 1, i);
    PartOfTotal(ws, seen[k], i);
  }

  lemma ValueFits(ws: seq<int>, seen: seq<seq<bool>>, states: seq<seq<int>>, picks: seq<Option<nat>>, k: nat, i: nat)
    requires ChurnRun(ws, seen, states, picks) && Positive(ws)
    requires states[0] == Zeros(|ws|) && k <= |picks| && i < |ws|
    requires |ws| * Sum(ws, Everyone(|ws|), |ws|) <= INT64_MAX
    ensures -INT64_MAX <= states[k][i] && states[k][i] + ws[i] <= INT64_MAX
    ensures 0 <= ws[i] && Sum(ws, Everyone(|ws|), |ws|) <= INT64_MAX
  {
    var n, W := |ws|, Sum(ws, Everyone(|ws|), |ws|);
    var c, w := states[k][i], ws[i];
    assert -(W * (n - 1)) <= c <= W * (n - 1) by { ChurnMagnitude(ws, seen, states, picks, k, i); }
    assert 0 <= w <= W by { PartOfTotal(ws, Everyone(n), i); }
    Fits(c, w, W, n);
  }

  lemma PartOfTotal(ws: seq<int>, on: seq<bool>, i: nat)
    requires Positive(ws) && |on| == |ws| && i < |ws|
    ensures forall j | 0 <= j <= |ws| :: 0 <= Sum(ws, on, j) <= Sum(ws, Everyone(|ws|), |ws|)
    ensures 0 <= ws[i] <= Sum(ws, Everyone(|ws|), |ws|)
  {
    var n := |ws|;
    forall j: nat | j <= n ensures 0 <= Sum(ws, on, j) <= Sum(ws, Everyone(n), n) {
      SumMonotone(ws, on, j, n);
      SumSubset(ws, on, Everyone(n), n);
    }
    SumUpdate(ws, Everyone(n), n, i, 0);
    SumAtLeast(ws[i := 0], Everyone(n), n, 0);
  }

  lemma Fits(c: int, w: int, W: int, n: int)
    requires n >= 1 && 0 <= w <= W && -(W * (n - 1)) <= c <= W * (n - 1)
    ensures -(n * W) <= c <= n * W && -(n * W) <= c + w <= n * W && W <= n * W
  {
    Product(W, n - 1);
    assert W * (n - 1) + W == n * W;
  }
}
