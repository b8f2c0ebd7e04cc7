/** The two kinds of predictors of jni/flac/flac_decoder.c are one: the fixed ones (lines 200-225) are linear ones (lines
    262-295) with binomial coefficients, the newest sample first. */
module FlacPredictors {
  import opened Machine
  import opened Bits
  import Fixed = FlacFixed
  import Linear = FlacLinear

  /** The coefficients of order k. */
  function Binomial(k: nat): (c: seq<int32>)
    requires k <= 4
    ensures |c| == k
  {
    match k
    case 0 => []
    case 1 => [1]
    case 2 => [2, -1]
    case 3 => [3, -3, 1]
    case _ => [4, -6, 4, -1]
  }

  /** What is left of a sample is a difference. */
  lemma SumIsDifference(x: seq<int32>, k: nat, i: nat)
    requires k <= 4 && k <= i < |x|
    ensures x[i] - Linear.Sum(Binomial(k), x, i, k) == Fixed.Difference(x, k, i)
  {
    hide Linear.Sum, Fixed.Difference, Binomial;
    SumIs(x, k, i);
    DifferenceIs(x, k, i);
  }

  /** The k-th difference, written out. */
  function Expanded(x: seq<int32>, k: nat, i: nat): int
    requires k <= 4 && k <= i < |x|
  {
    var at := (j: nat) requires j <= i => x[i - j] as int;
    match k
    case 0 => at(0)
    case 1 => at(0) - at(1)
    case 2 => at(0) - 2 * at(1) + at(2)
    case 3 => at(0) - 3 * at(1) + 3 * at(2) - at(3)
    case _ => at(0) - 4 * at(1) + 6 * at(2) - 4 * at(3) + at(4)
  }

  lemma {:induction false} DifferenceIs(x: seq<int32>, k: nat, i: nat)
    requires k <= 4 && k <= i < |x|
    ensures Fixed.Difference(x, k, i) == Expanded(x, k, i)
    decreases k
  {
    hide Fixed.Difference;
    if k == 0 {
      At(x, i);
    } else {
      DifferenceIs(x, k - 1, i);
      DifferenceIs(x, k - 1, i - 1);
      Down(x, k - 1, i);
    }
  }

  lemma At(x: seq<int32>, i: nat)
    requires i < |x|
    ensures Fixed.Difference(x, 0, i) == x[i]
  {
  }

  lemma SumIs(x: seq<int32>, k: nat, i: nat)
    requires k <= 4 && k <= i < |x|
    ensures x[i] - Linear.Sum(Binomial(k), x, i, k) == Expanded(x, k, i)
  {
    hide Linear.Sum;
    var c := Binomial(k);
    SumNone(c, x, i);
    if k >= 1 {
      SumUp(c, x, i, 0);
    }
    if k >= 2 {
      SumUp(c, x, i, 1);
    }
    if k >= 3 {
      SumUp(c, x, i, 2);
    }
    if k >= 4 {
      SumUp(c, x, i, 3);
    }
  }

  lemma SumNone(c: seq<int32>, x: seq<int32>, i: nat)
    requires i <= |x|
    ensures Linear.Sum(c, x, i, 0) == 0
  {
  }

  lemma SumUp(c: seq<int32>, x: seq<int32>, i: nat, n: nat)
    requires n < |c| && n < i <= |x|
    ensures Linear.Sum(c, x, i, n + 1) == Linear.Sum(c, x, i, n) + Linear.Times(c[n], x[i - n - 1])
  {
  }

  lemma Down(x: seq<int32>, k: nat, i: nat)
    requires k < i < |x|
    ensures Fixed.Difference(x, k + 1, i) == Fixed.Difference(x, k, i) - Fixed.Difference(x, k, i - 1)
    ensures Fixed.Difference(x, 0, i) == x[i] && Fixed.Difference(x, 0, i - 1) == x[i - 1]
  {
  }

  /** Both kinds leave the same residuals. */
  lemma FixedIsLinear(x: seq<int32>, k: nat)
    requires k <= 4
    ensures Linear.Residuals(x, Binomial(k), 0) == Fixed.Residuals(x, k)
  {
    hide Linear.Sum, Fixed.Difference, Binomial, Wrap32;
    var r, f := Linear.Residuals(x, Binomial(k), 0), Fixed.Residuals(x, k);
    forall i | 0 <= i < |x|
      ensures r[i] == f[i]
    {
      if i >= k {
        SumIsDifference(x, k, i);
        NoShift(Linear.Sum(Binomial(k), x, i, k));
      }
    }
  }

  lemma NoShift(sum: int)
    ensures Linear.Shift(sum, 0) == sum
  {
    assert Pow2(0) == 1;
  }
}
