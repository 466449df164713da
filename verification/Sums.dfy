// Sums and counts over a fixed set of backends, given as a vector of flags.
module Sums {

  // Sum of xs over the flagged indices below k.
  function Sum(xs: seq<int>, on: seq<bool>, k: nat): int
    requires k <= |xs| == |on|
  {
    if k == 0 then 0 else Sum(xs, on, k - 1) + if on[k - 1] then xs[k - 1] else 0
  }

  // Number of flagged indices below k.
  function Size(on: seq<bool>, k: nat): nat
    requires k <= |on|
  {
    if k == 0 then 0 else Size(on, k - 1) + if on[k - 1] then 1 else 0
  }

  // Number of times i was picked.
  function Count(picks: seq<nat>, i: nat): nat {
    if picks == [] then 0
    else Count(picks[..|picks| - 1], i) + if picks[|picks| - 1] == i then 1 else 0
  }

  // Number of elements that satisfy f.
  function Tally<T>(s: seq<T>, f: T -> bool): nat {
    if s == [] then 0 else Tally(s[..|s| - 1], f) + if f(s[|s| - 1]) then 1 else 0
  }

  lemma {:induction false} TallyConcat<T>(s: seq<T>, t: seq<T>, f: T -> bool)
    ensures Tally(s + t, f) == Tally(s, f) + Tally(t, f)
  {
    if t == [] {
      assert s + t == s;
    } else {
      assert (s + t)[..|s + t| - 1] == s + t[..|t| - 1];
      TallyConcat(s, t[..|t| - 1], f);
    }
  }

  lemma TallyWithout<T>(s: seq<T>, k: nat, f: T -> bool)
    requires k < |s|
    ensures Tally(s, f) == Tally(s[..k] + s[k + 1..], f) + if f(s[k]) then 1 else 0
  {
    assert s == s[..k] + ([s[k]] + s[k + 1..]);
    TallyConcat(s[..k], [s[k]] + s[k + 1..], f);
    TallyConcat([s[k]], s[k + 1..], f);
    TallyConcat(s[..k], s[k + 1..], f);
    assert [s[k]][..0] == [];
  }

  function Everyone(n: nat): seq<bool> { seq(n, _ => true) }

  ghost predicate AnyOn(on: seq<bool>) {
    exists i | 0 <= i < |on| :: on[i]
  }

  lemma {:induction false} SumAgree(xs: seq<int>, ys: seq<int>, on: seq<bool>, k: nat)
    requires k <= |xs| == |ys| == |on|
    requires forall i | 0 <= i < k && on[i] :: xs[i] == ys[i]
    ensures Sum(xs, on, k) == Sum(ys, on, k)
  {
    if k > 0 { SumAgree(xs, ys, on, k - 1); }
  }

  // One flagged entry changes: the sum moves by the same amount.
  lemma {:induction false} SumUpdate(xs: seq<int>, on: seq<bool>, k: nat, b: nat, v: int)
    requires b < k <= |xs| == |on| && on[b]
    ensures Sum(xs[b := v], on, k) == Sum(xs, on, k) - xs[b] + v
  {
    if b == k - 1 {
      SumAgree(xs, xs[b := v], on, b);
    } else {
      SumUpdate(xs, on, k - 1, b, v);
    }
  }

  // Values of at most c cannot add up to more than c each.
  lemma {:induction false} SumAtMost(xs: seq<int>, on: seq<bool>, k: nat, c: int)
    requires k <= |xs| == |on|
    requires forall i | 0 <= i < k && on[i] :: xs[i] <= c
    ensures Sum(xs, on, k) <= c * Size(on, k)
  {
    if k > 0 { SumAtMost(xs, on, k - 1, c); }
  }

  lemma {:induction false} SumAtLeast(xs: seq<int>, on: seq<bool>, k: nat, c: int)
    requires k <= |xs| == |on|
    requires forall i | 0 <= i < k && on[i] :: xs[i] >= c
    ensures Sum(xs, on, k) >= c * Size(on, k)
  {
    if k > 0 { SumAtLeast(xs, on, k - 1, c); }
  }

  // If no flagged value is below -d, none exceeds the sum by more than d for each of the others.
  lemma SumBoundsOne(xs: seq<int>, on: seq<bool>, b: nat, d: int)
    requires b < |xs| == |on| && on[b]
    requires forall i | 0 <= i < |xs| && on[i] :: xs[i] >= -d
    ensures xs[b] <= Sum(xs, on, |xs|) + d * (Size(on, |on|) - 1)
  {
    SumUpdate(xs, on, |xs|, b, -d);
    SumAtLeast(xs[b := -d], on, |xs|, -d);
  }

  lemma {:induction false} SizePositive(on: seq<bool>, k: nat, b: nat)
    requires b < k <= |on| && on[b]
    ensures Size(on, k) >= 1
  {
    if b < k - 1 { SizePositive(on, k - 1, b); }
  }

  lemma {:induction false} SizeGrows(on: seq<bool>, j: nat, k: nat)
    requires j <= k <= |on|
    ensures Size(on, j) <= Size(on, k)
  {
    if j < k { SizeGrows(on, j, k - 1); }
  }

  // ----- Changing the flags -----

  function Nobody(n: nat): seq<bool> { seq(n, _ => false) }

  lemma {:induction false} SumSameFlags(xs: seq<int>, on: seq<bool>, on': seq<bool>, k: nat)
    requires k <= |xs| == |on| == |on'|
    requires forall i | 0 <= i < k :: on[i] == on'[i]
    ensures Sum(xs, on, k) == Sum(xs, on', k) && Size(on, k) == Size(on', k)
  {
    if k > 0 { SumSameFlags(xs, on, on', k - 1); }
  }

  lemma {:induction false} SumFlag(xs: seq<int>, on: seq<bool>, k: nat, i: nat, v: bool)
    requires i < k <= |xs| == |on| && on[i] != v
    ensures Sum(xs, on[i := v], k) == Sum(xs, on, k) + if v then xs[i] else -xs[i]
  {
    if i == k - 1 {
      SumSameFlags(xs, on, on[i := v], i);
    } else {
      SumFlag(xs, on, k - 1, i, v);
    }
  }

  lemma {:induction false} SizeFlag(on: seq<bool>, k: nat, i: nat, v: bool)
    requires i < k <= |on| && on[i] != v
    ensures Size(on[i := v], k) == Size(on, k) + if v then 1 else -1
  {
    if i == k - 1 {
      SumSameFlags(seq(|on|, _ => 0), on, on[i := v], i);
    } else {
      SizeFlag(on, k - 1, i, v);
    }
  }

  lemma {:induction false} SumSubset(xs: seq<int>, on: seq<bool>, on': seq<bool>, k: nat)
    requires k <= |xs| == |on| == |on'|
    requires forall i | 0 <= i < k :: xs[i] >= 0 && (on[i] ==> on'[i])
    ensures Sum(xs, on, k) <= Sum(xs, on', k)
  {
    if k > 0 { SumSubset(xs, on, on', k - 1); }
  }

  lemma {:induction false} SumNone(xs: seq<int>, on: seq<bool>, k: nat)
    requires k <= |xs| == |on| && forall i | 0 <= i < k :: !on[i]
    ensures Sum(xs, on, k) == 0
  {
    if k > 0 { SumNone(xs, on, k - 1); }
  }

  lemma {:induction false} SizeAtMost(on: seq<bool>, k: nat)
    requires k <= |on|
    ensures Size(on, k) <= k
  {
    if k > 0 { SizeAtMost(on, k - 1); }
  }

  lemma {:induction false} SizeEveryone(n: nat, k: nat)
    requires k <= n
    ensures Size(Everyone(n), k) == k
  {
    if k > 0 { SizeEveryone(n, k - 1); }
  }

  lemma {:induction false} SizeNobody(n: nat, k: nat)
    requires k <= n
    ensures Size(Nobody(n), k) == 0
  {
    if k > 0 { SizeNobody(n, k - 1); }
  }
}
