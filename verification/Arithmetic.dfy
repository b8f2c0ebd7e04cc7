/** Products, quotients and remainders of numbers that are not constants, one fact at a time. */
module Arithmetic {
  lemma Twice(a: int, b: int)
    ensures a * (2 * b) == 2 * (a * b)
  {
  }

  lemma Assoc2(q: int, d: int)
    ensures 2 * q * d == 2 * (q * d)
  {
  }

  lemma Assoc3(a: int, b: int, c: int)
    ensures a * (b * c) == a * b * c
  {
  }

  lemma Commute(a: int, b: int)
    ensures a * b == b * a
  {
  }

  lemma Nonneg(a: nat, b: nat)
    ensures a * b >= 0
  {
  }

  lemma MulSplit(a: int, b: int, d: int)
    ensures (a + b) * d == a * d + b * d
  {
  }

  lemma MulUp(a: int, b: int, d: int)
    requires a <= b && d >= 0
    ensures a * d <= b * d && d * a <= d * b
  {
  }

  lemma MulNext(q: int, d: int)
    ensures (q + 1) * d == q * d + d
  {
  }

  lemma Regroup(q: nat, c: nat, p: nat, r: nat)
    ensures (q * c + r) * p == q * (c * p) + r * p
  {
  }

  lemma Quotient(x: nat, d: nat)
    requires d > 0
    ensures x == x / d * d + x % d && x / d >= 0 && 0 <= x % d < d
  {
  }

  lemma QuotientBounds(x: nat, d: nat)
    requires d > 0
    ensures 0 <= x / d <= x && x / d * d <= x < x / d * d + d
  {
    Quotient(x, d);
    MulUp(1, d, x / d);
  }

  lemma Uniquely(x: int, q: int, r: nat, d: int)
    requires 0 <= r < d && x == q * d + r
    ensures x / d == q
  {
    var p := x / d;
    assert x == p * d + x % d;
    if p > q {
      MulUp(q + 1, p, d);
      MulNext(q, d);
      assert false;
    }
    if p < q {
      MulUp(p + 1, q, d);
      MulNext(p, d);
      assert false;
    }
  }

  lemma DivSum(a: nat, d: nat, r: nat)
    requires r < d
    ensures (a * d + r) / d == a && (a * d + r) % d == r
  {
    var x := a * d + r;
    var q := x / d;
    assert x == q * d + x % d;
    if q > a {
      MulUp(a + 1, q, d);
      MulSplit(a, 1, d);
      assert false;
    }
    if q < a {
      MulUp(q + 1, a, d);
      MulSplit(q, 1, d);
      assert false;
    }
  }

  lemma DivDiv(x: nat, d: nat)
    requires d > 0
    ensures x / (2 * d) == x / d / 2
  {
    var q := x / d / 2;
    var r := x / d % 2 * d + x % d;
    assert x == x / d * d + x % d;
    assert x / d == 2 * q + x / d % 2;
    MulSplit(2 * q, x / d % 2, d);
    assert x == q * (2 * d) + r by { Twice(q, d); Assoc2(q, d); }
    if x / d % 2 == 0 {
      assert r < 2 * d;
    } else {
      assert r < 2 * d;
    }
    DivSum(q, 2 * d, r);
  }

  lemma DivOut(x: nat, d: nat, p: nat)
    requires d > 0 && p > 0
    ensures d * p > 0 && x * p / (d * p) == x / d
  {
    var q, r := x / d, x % d;
    assert x == q * d + r;
    Regroup(q, d, p, r);
    MulUp(r + 1, d, p);
    MulSplit(r, 1, p);
    MulUp(1, d, p);
    DivSum(q, d * p, r * p);
  }
}
