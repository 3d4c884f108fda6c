/** Halving and powers of two: the arithmetic of block indices. */
module Arith {

  function Pow2(n: nat): (r: nat)
    ensures r > 0
  {
    if n == 0 then 1 else 2 * Pow2(n - 1)
  }

  /** `i` halved `d` times, rounding down: the index of the ancestor `d` levels up. */
  function Shr(i: nat, d: nat): nat
  {
    if d == 0 then i else Shr(i, d - 1) / 2
  }

  /** `i` halved `d` times, rounding up. */
  function CeilShr(i: nat, d: nat): nat
  {
    if d == 0 then i else (CeilShr(i, d - 1) + 1) / 2
  }

  /** `i` doubled `d` times: the first descendant `d` levels down. */
  function Shl(i: nat, d: nat): nat
  {
    if d == 0 then i else 2 * Shl(i, d - 1)
  }

  lemma ShrHalf(i: nat, d: nat)
    ensures Shr(i / 2, d) == Shr(i, d + 1)
  {
    if d > 0 { ShrHalf(i, d - 1); }
  }

  lemma ShrAdd(i: nat, a: nat, b: nat)
    ensures Shr(Shr(i, a), b) == Shr(i, a + b)
  {
    if b > 0 { ShrAdd(i, a, b - 1); }
  }

  lemma ShrShl(i: nat, d: nat)
    ensures Shr(Shl(i, d), d) == i
  {
    if d > 0 {
      ShlDouble(i, d - 1);
      ShrHalf(Shl(i, d), d - 1);
      ShrShl(i, d - 1);
    }
  }

  lemma ShlDouble(i: nat, d: nat)
    ensures Shl(2 * i, d) == 2 * Shl(i, d) == Shl(i, d + 1)
  {
    if d > 0 { ShlDouble(i, d - 1); }
  }

  lemma ShlPow2(i: nat, d: nat)
    ensures Shl(i, d) == i * Pow2(d)
  {
    if d > 0 { ShlPow2(i, d - 1); }
  }

  /** Halving `d` times is division by 2^d. */
  lemma ShrIsDiv(i: nat, d: nat)
    ensures Shr(i, d) == i / Pow2(d)
  {
    if d > 0 {
      ShrIsDiv(i, d - 1);
      DivTwice(i, Pow2(d - 1));
    }
  }

  lemma MulAtLeast(a: int, d: int)
    requires a >= 1 && d > 0
    ensures a * d >= d
  {
  }

  lemma MulGap(a: int, b: int, d: int)
    requires a > b && d > 0
    ensures a * d >= b * d + d
  {
    MulAtLeast(a - b, d);
    assert (a - b) * d == a * d - b * d;
  }

  lemma DivUnique(i: int, d: int, q: int, r: int)
    requires d > 0 && 0 <= r < d && i == q * d + r
    ensures i / d == q && i % d == r
  {
    if q > i / d {
      MulGap(q, i / d, d);
    } else if q < i / d {
      MulGap(i / d, q, d);
    }
  }

  /** Integer division of a length by a positive size. */
  function Div(a: nat, b: nat): nat
    requires b > 0
  {
    a / b
  }

  function Mod(a: nat, b: nat): nat
    requires b > 0
  {
    a % b
  }

  lemma ScaleDiv(c: nat, x: nat, p: nat)
    requires c > 0 && p > 0 && c * p > 0
    ensures Div(c * x, c * p) == x / p && Mod(c * x, c * p) == c * (x % p)
  {
    var q, r := x / p, x % p;
    assert c * x == q * (c * p) + c * r by {
      assert x == q * p + r;
      assert c * (q * p + r) == c * (q * p) + c * r;
      assert c * (q * p) == q * (c * p);
    }
    assert 0 <= c * r < c * p by {
      MulGap(p, r, c);
    }
    DivUnique(c * x, c * p, q, c * r);
  }

  lemma DivZero(i: nat, p: nat)
    requires p > 0
    ensures i / p == 0 <==> i < p
  {
    assert i == i / p * p + i % p;
    if i < p { DivUnique(i, p, 0, i); }
  }

  /** Quotient and remainder by 2p from those by p. */
  lemma DivTwice(i: nat, p: nat)
    requires p > 0
    ensures i / (2 * p) == i / p / 2
    ensures i % (2 * p) == (i / p % 2) * p + i % p
  {
    var q, r := i / p, i % p;
    var h, b := q / 2, q % 2;
    assert i == q * p + r;
    assert q * p == h * (2 * p) + b * p by {
      assert q == 2 * h + b;
      assert (2 * h + b) * p == 2 * h * p + b * p;
    }
    assert 0 <= b * p <= p;
    DivUnique(i, 2 * p, h, b * p + r);
  }

  /** Rounding up is rounding down plus one unless the division is exact. */
  lemma CeilShrIsDiv(i: nat, d: nat)
    ensures CeilShr(i, d) == i / Pow2(d) + (if i % Pow2(d) == 0 then 0 else 1)
  {
    if d > 0 {
      CeilShrIsDiv(i, d - 1);
      CeilHalf(i, Pow2(d - 1));
    }
  }

  lemma CeilHalf(i: nat, p: nat)
    requires p > 0
    ensures (i / p + (if i % p == 0 then 0 else 1) + 1) / 2
         == i / (2 * p) + (if i % (2 * p) == 0 then 0 else 1)
  {
    DivTwice(i, p);
    var b := i / p % 2;
    if b == 0 {
      assert b * p == 0;
    } else {
      assert b * p == p;
    }
  }
}
