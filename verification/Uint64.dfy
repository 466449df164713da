// Unsigned 64-bit arithmetic, and the division facts it needs.
module Uint64 {
  const U64 := 0x1_0000_0000_0000_0000

  type uint64 = x: nat | x < U64

  // The uint64 that an unbounded sum becomes: x modulo 2^64, written as repeated subtraction.
  function Wrap(x: nat): (r: nat)
    ensures r < U64
  {
    if x < U64 then x else Wrap(x - U64)
  }

  lemma {:induction false} WrapIsModulo(x: nat)
    ensures Wrap(x) == x % U64
  {
    if x >= U64 { WrapIsModulo(x - U64); }
  }

  lemma Width()
    ensures Wrap(18446744073709551615) == 18446744073709551615 && Wrap(18446744073709551616) == 0
  {
  }

  lemma {:induction false} WrapAdd(x: nat, d: nat)
    ensures Wrap(Wrap(x) + d) == Wrap(x + d)
  {
    if x >= U64 { WrapAdd(x - U64, d); }
  }

  lemma Congruent(x: nat, y: nat, d: nat)
    requires Wrap(x) == Wrap(y)
    ensures Wrap(x + d) == Wrap(y + d)
  {
    WrapAdd(x, d);
    WrapAdd(y, d);
  }

  lemma ModUnique(x: int, n: int, q: int, r: int)
    requires n > 0 && 0 <= r < n && x == q * n + r
    ensures x % n == r && x / n == q
  {
    var q', r' := x / n, x % n;
    assert x == q' * n + r';
    assert (q - q') * n == r' - r by { assert (q - q') * n == q * n - q' * n; }
    Spread(q - q', n);
  }

  lemma Spread(d: int, n: int)
    requires n > 0
    ensures d >= 1 ==> d * n >= n
    ensures d <= -1 ==> d * n <= -n
  {
    if d >= 1 { assert (d - 1) * n >= 0; }
    if d <= -1 { assert (-1 - d) * n >= 0; }
  }

  lemma ModShift(x: nat, y: nat, n: nat)
    requires n > 0
    ensures (x % n + y) % n == (x + y) % n
  {
    var z := x % n + y;
    var m := x / n + z / n;
    assert m * n == (x / n) * n + (z / n) * n;
    ModUnique(x + y, n, m, z % n);
  }

  // Going back d <= n from u.
  lemma ModBack(u: nat, d: nat, n: nat)
    requires n > 0 && d <= u && d <= n
    ensures (u - d) % n == if d <= u % n then u % n - d else u % n - d + n
  {
    var q, r := u / n, u % n;
    if d <= r {
      ModUnique(u - d, n, q, r - d);
    } else {
      assert (q - 1) * n == q * n - n;
      ModUnique(u - d, n, q - 1, r - d + n);
    }
  }

  lemma DivideStep(m: nat, n: nat)
    requires n > 0
    ensures m < n ==> m / n == 0 && m % n == m
    ensures m >= n ==> (m - n) / n == m / n - 1 && (m - n) % n == m % n
  {
    if m >= n {
      var q, r := m / n, m % n;
      assert (q - 1) * n == q * n - n;
      ModUnique(m - n, n, q - 1, r);
    }
  }

  // A wrap does not show modulo a divisor of 2^64.
  lemma {:induction false} WrapModDivisor(x: nat, n: nat)
    requires n > 0 && U64 % n == 0
    ensures Wrap(x) % n == x % n
  {
    if x >= U64 {
      WrapModDivisor(x - U64, n);
      var y := x - U64;
      assert (y / n + U64 / n) * n == (y / n) * n + (U64 / n) * n;
      ModUnique(x, n, y / n + U64 / n, y % n);
    }
  }
}
