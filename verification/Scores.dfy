// Scores of weighted least-connections in 64-bit floating point: what rounding can and cannot change.
module Scores {
  import opened LeastConns
  import opened Uint64

  const MANTISSA := 0x20_0000_0000_0000  // 2^53
  const M := MANTISSA as real
  const SMALL := 0x200_0000              // 2^25

  // The values that counters, weights and their quotients can take: zero, or from 2^-66 up to 2^66.
  predicate InRange(x: real) {
    x == 0.0 || (1.0 <= x * (4 * U64) as real && x <= (4 * U64) as real)
  }

  // r is off by half a unit in the last place of x at most: by x * 2^-53.
  predicate Near(r: real, x: real) { Within(r, x, M) }

  predicate Within(r: real, x: real, m: real) { x * (m - 1.0) <= r * m <= x * (m + 1.0) }

  // Rounding to nearest (IEEE 754, section 4.3.1), as conversion and division do it.
  ghost predicate Rounding(round: real -> real) {
    && (forall x | InRange(x) :: Near(round(x), x))
    && forall x: real | x.Floor as real == x && 0 <= x.Floor <= MANTISSA :: round(x) == x
  }

  // A counter and a weight in their 64 bits.
  predicate Words(c: nat, w: nat) { c < U64 && 1 <= w < U64 }

  // float64(conns) / float64(weight)
  function Score(round: real -> real, conns: nat, weight: nat): real {
    var w := round(weight as real);
    if w == 0.0 then 0.0 else round(round(conns as real) / w)
  }

  // The first eligible backend of least rounded score.
  ghost predicate LeastRounded(round: real -> real, conns: seq<nat>, ws: seq<nat>, on: seq<bool>, b: nat) {
    && |conns| == |ws| == |on|
    && b < |on| && on[b]
    && (forall j | 0 <= j < |on| && on[j] :: Score(round, conns[b], ws[b]) <= Score(round, conns[j], ws[j]))
    && forall j | 0 <= j < b && on[j] :: Score(round, conns[b], ws[b]) < Score(round, conns[j], ws[j])
  }

  // ----- One score -----

  lemma Scale(a: real, b: real, m: real)
    requires m >= 0.0 && a <= b
    ensures a * m <= b * m
  {
    assert (b - a) * m >= 0.0;
  }

  lemma QuotientInRange(x: real, y: real)
    requires x == 0.0 || (1.0 <= x * 2.0 && x <= (2 * U64) as real)
    requires 1.0 <= y * 2.0 && y <= (2 * U64) as real
    ensures x / y * y == x && InRange(x / y)
  {
    var q := x / y;
    assert q * y == x;
    if x > 0.0 {
      if q * (4 * U64) as real < 1.0 { Scale(y, (2 * U64) as real, q); }
      if q > (4 * U64) as real { Scale(1.0, y * 2.0, q); }
    }
  }

  // What rounding makes of a counter or a weight.
  lemma Word(round: real -> real, n: nat)
    requires Rounding(round) && n < U64
    ensures Near(round(n as real), n as real)
    ensures n == 0 ==> round(n as real) == 0.0
    ensures n >= 1 ==> 1.0 <= round(n as real) * 2.0 && round(n as real) <= (2 * U64) as real
  {
    assert InRange(n as real);
  }

  // What two roundings and a division make of the exact quotient s == c / w.
  lemma QuotientOfRounded(c: real, w: real, s: real, x: real, y: real, q: real, m: real)
    requires m >= 2.0 && y > 0.0 && s >= 0.0 && q >= 0.0 && s * w == c && q * y == x
    requires Within(x, c, m) && Within(y, w, m)
    ensures s * (m - 1.0) <= q * (m + 1.0) && q * (m - 1.0) <= s * (m + 1.0)
  {
    Lower(c, w, s, x, y, q, m);
    Upper(c, w, s, x, y, q, m);
  }

  lemma Lower(c: real, w: real, s: real, x: real, y: real, q: real, m: real)
    requires m >= 2.0 && y > 0.0 && s >= 0.0 && s * w == c && q * y == x
    requires c * (m - 1.0) <= x * m && y * m <= w * (m + 1.0)
    ensures s * (m - 1.0) <= q * (m + 1.0)
  {
    Scale(y * m, w * (m + 1.0), s * (m - 1.0));
    assert w * (m + 1.0) * (s * (m - 1.0)) == c * (m - 1.0) * (m + 1.0);
    Scale(c * (m - 1.0), x * m, m + 1.0);
    assert x * m * (m + 1.0) == q * (m + 1.0) * (y * m);
    Cancelled(s * (m - 1.0), q * (m + 1.0), y * m);
  }

  lemma Upper(c: real, w: real, s: real, x: real, y: real, q: real, m: real)
    requires m >= 2.0 && y > 0.0 && s >= 0.0 && s * w == c && q * y == x
    requires x * m <= c * (m + 1.0) && w * (m - 1.0) <= y * m
    ensures q * (m - 1.0) <= s * (m + 1.0)
  {
    Scale(w * (m - 1.0), y * m, s * (m + 1.0));
    assert w * (m - 1.0) * (s * (m + 1.0)) == c * (m + 1.0) * (m - 1.0);
    Scale(x * m, c * (m + 1.0), m - 1.0);
    assert x * m * (m - 1.0) == q * (m - 1.0) * (y * m);
    Cancelled(q * (m - 1.0), s * (m + 1.0), y * m);
  }

  lemma Cancelled(a: real, b: real, k: real)
    requires k > 0.0
    ensures a * k <= b * k ==> a <= b
  {
    if a > b { assert (a - b) * k > 0.0; }
  }

  const K := 0x8_0000_0000_0000  // 2^51

  // A rounded score is within 2^-51 of the exact one.
  lemma ScoreNear(round: real -> real, c: nat, w: nat)
    requires Rounding(round) && Words(c, w)
    ensures Within(Score(round, c, w), c as real / w as real, K as real)
  {
    var x, y := round(c as real), round(w as real);
    Word(round, c);
    Word(round, w);
    QuotientInRange(x, y);
    assert Near(Score(round, c, w), x / y);
    DivisionNear(c as real, w as real, x, y, Score(round, c, w));
  }

  lemma DivisionNear(c: real, w: real, x: real, y: real, f: real)
    requires c >= 0.0 && w > 0.0 && y > 0.0 && Within(x, c, M) && Within(y, w, M) && Within(f, x / y, M)
    ensures Within(f, c / w, K as real)
  {
    var s, q := c / w, x / y;
    assert s * w == c && q * y == x;
    QuotientOfRounded(c, w, s, x, y, q, M);
    ThreeRoundings(s, q, f);
  }

  lemma ThreeRoundings(s: real, q: real, f: real)
    requires s >= 0.0 && s * (M - 1.0) <= q * (M + 1.0) && q * (M - 1.0) <= s * (M + 1.0) && Within(f, q, M)
    ensures Within(f, s, K as real)
  {
  }

  // ----- Comparing two scores -----

  // Rounded scores are in the wrong order only if the exact ones are nearly equal.
  lemma NearlyLess(round: real -> real, c: nat, w: nat, c': nat, w': nat)
    requires Rounding(round) && Words(c, w) && Words(c', w')
    ensures Score(round, c, w) <= Score(round, c', w') ==> c * w' * (K - 1) <= c' * w * (K + 1)
  {
    ScoreNear(round, c, w);
    ScoreNear(round, c', w');
    if Score(round, c, w) <= Score(round, c', w') {
      Crossed(c, w, c', w', Score(round, c, w), Score(round, c', w'));
    }
  }

  lemma Crossed(c: nat, w: nat, c': nat, w': nat, f: real, f': real)
    requires w >= 1 && w' >= 1 && f <= f'
    requires Within(f, c as real / w as real, K as real) && Within(f', c' as real / w' as real, K as real)
    ensures c * w' * (K - 1) <= c' * w * (K + 1)
  {
    CrossMultiplied(c, w, w');
    CrossMultiplied(c', w', w);
    Bands(f, c as real / w as real, f', c' as real / w' as real, w * w', c * w', c' * w);
  }

  // Values f <= f' near s and s', which are a / p and b / p.
  lemma Bands(f: real, s: real, f': real, s': real, p: int, a: int, b: int)
    requires p >= 0 && f <= f' && Within(f, s, K as real) && Within(f', s', K as real)
    requires s * p as real == a as real && s' * p as real == b as real
    ensures a * (K - 1) <= b * (K + 1)
  {
    assert s * (K - 1) as real <= s' * (K + 1) as real;
    Scale(s * (K - 1) as real, s' * (K + 1) as real, p as real);
  }

  lemma CrossMultiplied(c: nat, w: nat, w': nat)
    requires w >= 1
    ensures c as real / w as real * (w * w') as real == (c * w') as real
    ensures w * w' == w' * w >= 0
  {
    assert c as real / w as real * w as real == c as real;
    assert (w * w') as real == w as real * w' as real && (c * w') as real == c as real * w' as real;
  }

  // Up to 2^25 rounding does not show: scores compare as the exact quotients do.
  lemma ComparesExactly(round: real -> real, c: nat, w: nat, c': nat, w': nat)
    requires Rounding(round) && 1 <= w <= SMALL && 1 <= w' <= SMALL && c <= SMALL && c' <= SMALL
    ensures Score(round, c, w) < Score(round, c', w') <==> Lighter(c, w, c', w')
  {
    Squared(c, w');
    Squared(c', w);
    if c * w' < c' * w {
      NearlyLess(round, c', w', c, w);
    } else if c' * w < c * w' {
      NearlyLess(round, c, w, c', w');
    } else {
      SameScore(round, c, w, c', w');
    }
  }

  lemma Squared(a: nat, b: nat)
    requires a <= SMALL && b <= SMALL
    ensures a * b <= SMALL * SMALL
  {
    Monotone(a, SMALL, SMALL);
    assert a * (SMALL - b) >= 0;
  }

  lemma SameScore(round: real -> real, c: nat, w: nat, c': nat, w': nat)
    requires Rounding(round) && 1 <= w <= SMALL && 1 <= w' <= SMALL && c <= SMALL && c' <= SMALL
    requires c * w' == c' * w
    ensures Score(round, c, w) == Score(round, c', w')
  {
    EqualQuotients(c, w, c', w');
    SmallScore(round, c, w);
    SmallScore(round, c', w');
  }

  lemma EqualQuotients(c: nat, w: nat, c': nat, w': nat)
    requires w >= 1 && w' >= 1 && c * w' == c' * w
    ensures c as real / w as real == c' as real / w' as real
  {
    CrossMultiplied(c, w, w');
    CrossMultiplied(c', w', w);
    Monotone(0, w, w');
    Equal(c as real / w as real, c' as real / w' as real, (w * w') as real);
  }

  lemma Equal(a: real, b: real, k: real)
    requires k > 0.0 && a * k == b * k
    ensures a == b
  {
    Cancelled(a, b, k);
    Cancelled(b, a, k);
  }

  lemma SmallScore(round: real -> real, c: nat, w: nat)
    requires Rounding(round) && 1 <= w <= SMALL && c <= SMALL
    ensures Score(round, c, w) == round(c as real / w as real)
  {
    assert (w as real).Floor == w && (c as real).Floor == c;
  }

  // ----- The choice -----

  // The chosen backend is nearly of least score, and up to 2^25 the first of least score.
  lemma RoundedChoice(round: real -> real, conns: seq<nat>, ws: seq<nat>, on: seq<bool>, b: nat)
    requires Rounding(round) && LeastRounded(round, conns, ws, on, b)
    requires forall j | 0 <= j < |on| :: Words(conns[j], ws[j])
    ensures forall j | 0 <= j < |on| && on[j] :: conns[b] * ws[j] * (K - 1) <= conns[j] * ws[b] * (K + 1)
    ensures (forall j | 0 <= j < |on| :: conns[j] <= SMALL && ws[j] <= SMALL) ==> LeastScore(conns, ws, on, b)
  {
    forall j | 0 <= j < |on| && on[j] ensures conns[b] * ws[j] * (K - 1) <= conns[j] * ws[b] * (K + 1) {
      NearlyLess(round, conns[b], ws[b], conns[j], ws[j]);
    }
    if forall j | 0 <= j < |on| :: conns[j] <= SMALL && ws[j] <= SMALL {
      forall j | 0 <= j < |on| && on[j]
        ensures !Lighter(conns[j], ws[j], conns[b], ws[b])
        ensures j < b ==> Lighter(conns[b], ws[b], conns[j], ws[j])
      {
        ComparesExactly(round, conns[j], ws[j], conns[b], ws[b]);
        ComparesExactly(round, conns[b], ws[b], conns[j], ws[j]);
      }
    }
  }
}
