/** FLAC's linear predictors (jni/flac/flac_decoder.c lines 228-300): the sum of products in 32 bits or in 64, in place,
    against the residuals an encoder takes (section 9.2.6 of RFC 9639), and when 32 bits are enough. */
module FlacLinear {
  import opened Machine
  import opened Arithmetic
  import opened Bits
  import opened FlacGolomb

  function Times(x: int, y: int): int {
    x * y
  }

  /** The products of the first n coefficients with the samples before i. */
  function Sum(coeffs: seq<int32>, x: seq<int32>, i: nat, n: nat): int
    requires n <= |coeffs| && n <= i <= |x|
  {
    if n == 0 then 0 else Sum(coeffs, x, i, n - 1) + Times(coeffs[n - 1], x[i - n])
  }

  lemma {:induction false} SumLocal(coeffs: seq<int32>, x: seq<int32>, y: seq<int32>, i: nat, n: nat)
    requires n <= |coeffs| && n <= i <= |x| && i <= |y| && x[..i] == y[..i]
    ensures Sum(coeffs, x, i, n) == Sum(coeffs, y, i, n)
  {
    hide Times;
    if n == 0 {
    } else {
      assert x[i - n] == x[..i][i - n] && y[i - n] == y[..i][i - n];
      SumLocal(coeffs, x, y, i, n - 1);
    }
  }

  /** `sum >> qlevel`. */
  function Shift(sum: int, q: nat): int {
    hide Pow2;
    sum / Pow2(q)
  }

  /** The prediction, from a sum of 32 bits or of 64. */
  function Predicted(coeffs: seq<int32>, x: seq<int32>, i: nat, q: nat, narrow: bool): int
    requires |coeffs| <= i <= |x|
  {
    var sum := Sum(coeffs, x, i, |coeffs|);
    Shift(if narrow then Wrap32(sum) else sum, q)
  }

  /** What a subframe holds for the samples x: the first as they are, then what the predictions leave. */
  function Residuals(x: seq<int32>, coeffs: seq<int32>, q: nat): (r: seq<int32>)
    ensures |r| == |x|
  {
    seq(|x|, i requires 0 <= i < |x| =>
      if i < |coeffs| then x[i] else WrapSub(x[i], Predicted(coeffs, x, i, q, false)))
  }

  /** The samples that given residuals stand for. */
  function Restored(data: seq<int32>, coeffs: seq<int32>, q: nat, narrow: bool): (x: seq<int32>)
    ensures |x| == |data|
  {
    if data == [] then []
    else
      var i := |data| - 1;
      var before := Restored(data[..i], coeffs, q, narrow);
      before + [if i < |coeffs| then data[i] else WrapAdd(data[i], Predicted(coeffs, before, i, q, narrow))]
  }

  lemma {:induction false} RestoredPrefix(data: seq<int32>, coeffs: seq<int32>, q: nat, narrow: bool, n: nat)
    requires n <= |data|
    ensures Restored(data[..n], coeffs, q, narrow) == Restored(data, coeffs, q, narrow)[..n]
    decreases |data|
  {
    hide WrapAdd, Predicted;
    if n < |data| {
      RestoredPrefix(data[..|data| - 1], coeffs, q, narrow, n);
      assert data[..|data| - 1][..n] == data[..n];
    } else {
      assert data[..n] == data && Restored(data, coeffs, q, narrow)[..n] == Restored(data, coeffs, q, narrow);
    }
  }

  /** Sample i of a restored block. */
  lemma RestoredAt(data: seq<int32>, coeffs: seq<int32>, q: nat, narrow: bool, i: nat)
    requires i < |data|
    ensures var x := Restored(data, coeffs, q, narrow);
            x[i] == if i < |coeffs| then data[i] else WrapAdd(data[i], Predicted(coeffs, x, i, q, narrow))
  {
    hide WrapAdd, Sum, Shift, Wrap32;
    var x := Restored(data, coeffs, q, narrow);
    RestoredPrefix(data, coeffs, q, narrow, i + 1);
    RestoredPrefix(data, coeffs, q, narrow, i);
    var d, before := data[..i + 1], Restored(data[..i], coeffs, q, narrow);
    assert d[..i] == data[..i] && d[i] == data[i];
    assert x[i] == x[..i + 1][i];
    assert before == x[..i] && before[..i] == x[..i];
    if i >= |coeffs| {
      SumLocal(coeffs, before, x, i, |coeffs|);
    }
  }

  // ---------------------------------------------------------------- what comes back

  /** The prediction of sample i is the same from 32 bits as from 64, as far as 32-bit samples can tell. */
  predicate Agrees(coeffs: seq<int32>, x: seq<int32>, i: nat, q: nat)
    requires |coeffs| <= i <= |x|
  {
    Wrap32(Predicted(coeffs, x, i, q, true)) == Wrap32(Predicted(coeffs, x, i, q, false))
  }

  /** From sums of 64 bits every block comes back; from sums of 32 bits exactly if every prediction agrees. */
  lemma SurvivesExactly(x: seq<int32>, coeffs: seq<int32>, q: nat, narrow: bool)
    ensures Restored(Residuals(x, coeffs, q), coeffs, q, narrow) == x
            <==> !narrow || forall i :: |coeffs| <= i < |x| ==> Agrees(coeffs, x, i, q)
  {
    hide Restored, Predicted, WrapAdd, WrapSub, Agrees;
    var r := Residuals(x, coeffs, q);
    var y := Restored(r, coeffs, q, narrow);
    if !narrow || forall i :: |coeffs| <= i < |x| ==> Agrees(coeffs, x, i, q) {
      AllRestored(x, coeffs, q, narrow, |x|);
      assert y == y[..|x|] == x[..|x|] == x;
    } else if y == x {
      forall i | |coeffs| <= i < |x|
        ensures Agrees(coeffs, x, i, q)
      {
        RestoredAt(r, coeffs, q, narrow, i);
        StepTells(x[i], coeffs, x, i, q);
      }
    }
  }

  lemma {:induction false} AllRestored(x: seq<int32>, coeffs: seq<int32>, q: nat, narrow: bool, n: nat)
    requires n <= |x|
    requires !narrow || forall i :: |coeffs| <= i < |x| ==> Agrees(coeffs, x, i, q)
    ensures Restored(Residuals(x, coeffs, q), coeffs, q, narrow)[..n] == x[..n]
  {
    hide Restored, WrapAdd, WrapSub, Agrees, Sum, Shift, Wrap32;
    if n == 0 {
    } else {
      var i := n - 1;
      var r := Residuals(x, coeffs, q);
      var y := Restored(r, coeffs, q, narrow);
      AllRestored(x, coeffs, q, narrow, i);
      RestoredAt(r, coeffs, q, narrow, i);
      if i >= |coeffs| {
        SumLocal(coeffs, x, y, i, |coeffs|);
        assert Predicted(coeffs, y, i, q, narrow) == Predicted(coeffs, x, i, q, narrow);
        StepTells(x[i], coeffs, x, i, q);
      }
      assert y[..n] == y[..i] + [y[i]] && x[..n] == x[..i] + [x[i]];
    }
  }

  /** One sample comes back exactly if its prediction agrees. */
  lemma StepTells(v: int32, coeffs: seq<int32>, x: seq<int32>, i: nat, q: nat)
    requires |coeffs| <= i <= |x|
    ensures var exact := Predicted(coeffs, x, i, q, false);
            && WrapAdd(WrapSub(v, exact), exact) == v
            && (WrapAdd(WrapSub(v, exact), Predicted(coeffs, x, i, q, true)) == v <==> Agrees(coeffs, x, i, q))
  {
    hide Predicted;
    BothWays(v, Predicted(coeffs, x, i, q, false), Predicted(coeffs, x, i, q, true));
  }

  lemma BothWays(v: int32, a: int, b: int)
    ensures WrapAdd(WrapSub(v, a), a) == v
    ensures WrapAdd(WrapSub(v, a), b) == v <==> Wrap32(b) == Wrap32(a)
  {
    hide Wrap32;
    WrapOnTheWay(v - a, a);
    WrapOnTheWay(v - a, b);
    var r, j := Turns(a);
    var s, k := Turns(b);
    Congruent(v, s - r, k - j);
  }

  lemma Congruent(v: int32, d: int, k: int)
    requires -TWO32 < d < TWO32
    ensures Wrap32(v) == v && (Wrap32(v + d + TWO32 * k) == v <==> d == 0)
  {
    WholeTurns(v + d, k);
  }

  // ---------------------------------------------------------------- when 32 bits are enough

  /** x is a number of n bits. */
  predicate Fits(x: int, n: nat)
    requires n > 0
  {
    0 - Pow2(n - 1) <= x < Pow2(n - 1)
  }

  predicate AllFit(xs: seq<int32>, n: nat)
    requires n > 0
  {
    forall i :: 0 <= i < |xs| ==> Fits(xs[i], n)
  }

  /** The test of decode_subframe_lpc: bits of a sample, bits of a coefficient, logarithm of the order. */
  predicate Narrow(bps: nat, precision: nat, order: nat) {
    bps + precision + Log2(order) <= 32
  }

  function Log2(v: nat): nat {
    if BitLength(v) == 0 then 0 else BitLength(v) - 1
  }

  lemma {:induction false} SumBound(coeffs: seq<int32>, x: seq<int32>, i: nat, n: nat, c: nat, s: nat)
    requires n <= |coeffs| && n <= i <= |x|
    requires forall j :: 0 <= j < |coeffs| ==> Abs(coeffs[j]) <= c
    requires forall j :: 0 <= j < |x| ==> Abs(x[j]) <= s
    ensures Abs(Sum(coeffs, x, i, n)) <= Times(n, Times(c, s))
  {
    hide Times;
    TimesNext(n, Times(c, s));
    if n == 0 {
    } else {
      TimesNext(n - 1, Times(c, s));
      SumBound(coeffs, x, i, n - 1, c, s);
      TimesBound(coeffs[n - 1], x[i - n], c, s);
    }
  }

  lemma TimesNext(n: int, d: int)
    ensures Times(n + 1, d) == Times(n, d) + d && Times(0, d) == 0
  {
  }

  lemma TimesBound(x: int, y: int, c: nat, s: nat)
    requires Abs(x) <= c && Abs(y) <= s
    ensures Abs(Times(x, y)) <= Times(c, s)
  {
    MulUp(Abs(x), c, Abs(y));
    MulUp(Abs(y), s, c);
    assert Abs(x * y) == Abs(x) * Abs(y);
  }

  /** A sum of `order` products has at most the bits of a sample, of a coefficient and of the order. */
  lemma SumBelow(coeffs: seq<int32>, x: seq<int32>, i: nat, bits: nat, precision: nat)
    requires 0 < |coeffs| <= i <= |x| && bits > 0 && precision > 0 && AllFit(x, bits) && AllFit(coeffs, precision)
    ensures Abs(Sum(coeffs, x, i, |coeffs|)) < Pow2(bits + precision + Log2(|coeffs|) - 1)
  {
    hide Pow2, Sum, Times;
    var n, c, s := |coeffs|, Pow2(precision - 1), Pow2(bits - 1);
    SumBound(coeffs, x, i, n, c, s);
    Pow2Add(precision - 1, bits - 1);
    Pow2Add(BitLength(n), precision - 1 + (bits - 1));
    ManyTimes(n, Pow2(BitLength(n)), c, s);
  }

  lemma ManyTimes(n: nat, m: nat, c: nat, s: nat)
    requires n < m && c > 0 && s > 0
    ensures Times(n, Times(c, s)) < m * (c * s)
  {
    MulUp(1, c, s);
    MulUp(n + 1, m, c * s);
    MulNext(n, c * s);
  }

  predicate SumFits(coeffs: seq<int32>, x: seq<int32>, i: nat)
    requires |coeffs| <= i <= |x|
  {
    -TWO31 <= Sum(coeffs, x, i, |coeffs|) < TWO31
  }

  /** With sums below 2^32, 32 bits are seen to be too few exactly when a sum does not fit and is shifted. */
  lemma AgreesExactly(coeffs: seq<int32>, x: seq<int32>, i: nat, q: nat)
    requires |coeffs| <= i <= |x| && q <= 31 && Abs(Sum(coeffs, x, i, |coeffs|)) < TWO32
    ensures Agrees(coeffs, x, i, q) <==> q == 0 || SumFits(coeffs, x, i)
  {
    hide Sum, Pow2, Wrap32;
    var sum := Sum(coeffs, x, i, |coeffs|);
    var w, k := Turns(sum);
    ShiftTurns(w, k, q);
    StepOf(k, q);
    TurnsShow(Shift(w, q), Pow2(32 - q) * k, q == 0);
    FewTurns(sum, w, k);
  }

  lemma FewTurns(sum: int, w: int32, k: int)
    requires sum == w + TWO32 * k && -TWO32 < sum < TWO32
    ensures -1 <= k <= 1 && (k == 0 <==> -TWO31 <= sum < TWO31)
  {
  }

  lemma StepOf(k: int, q: nat)
    requires q <= 31
    ensures q == 0 ==> Pow2(32 - q) * k == TWO32 * k
    ensures q > 0 && -1 <= k <= 1 ==> -TWO32 < Pow2(32 - q) * k < TWO32 && (Pow2(32 - q) * k == 0 <==> k == 0)
  {
    hide Pow2;
    Pow32();
    if q > 0 {
      Pow2Mono(32 - q, 31);
    }
  }

  lemma ShiftTurns(w: int, k: int, q: nat)
    requires q <= 31
    ensures Shift(w + TWO32 * k, q) == Shift(w, q) + Pow2(32 - q) * k
  {
    hide Pow2;
    Pow32();
    Pow2Add(32 - q, q);
    WholeQuotient(w, Pow2(32 - q) * k, Pow2(q));
    Regrouped(Pow2(32 - q), k, Pow2(q));
  }

  lemma Regrouped(a: int, k: int, b: int)
    ensures a * k * b == a * b * k
  {
  }

  lemma WholeQuotient(w: int, n: int, d: int)
    requires d > 0
    ensures (w + n * d) / d == w / d + n
  {
    var q := w / d;
    assert w == q * d + w % d;
    Uniquely(w + n * d, q + n, w % d, d);
  }

  lemma TurnsShow(a: int, step: int, whole: bool)
    requires if whole then step % TWO32 == 0 else -TWO32 < step < TWO32
    ensures Wrap32(a + step) == Wrap32(a) <==> whole || step == 0
  {
    if whole {
      WholeTurns(a, step / TWO32);
    } else {
      var r, k := Turns(a);
      Congruent(r, step, k);
    }
  }

  /** Samples of the announced width come back: where the test chooses 32 bits, they are enough. */
  lemma SoundSurvives(x: seq<int32>, coeffs: seq<int32>, q: nat, bps: nat, precision: nat)
    requires coeffs != [] && bps > 0 && precision > 0 && q <= 31 && AllFit(x, bps) && AllFit(coeffs, precision)
    ensures Restored(Residuals(x, coeffs, q), coeffs, q, Narrow(bps, precision, |coeffs|)) == x
  {
    hide Restored, Residuals, Agrees, Sum, Pow2, AllFit;
    forall i | |coeffs| <= i < |x| && Narrow(bps, precision, |coeffs|)
      ensures Agrees(coeffs, x, i, q)
    {
      SumBelow(coeffs, x, i, bps, precision);
      Pow2Mono(bps + precision + Log2(|coeffs|) - 1, 31);
      Pow32();
      AgreesExactly(coeffs, x, i, q);
    }
    SurvivesExactly(x, coeffs, q, Narrow(bps, precision, |coeffs|));
  }

  /** Samples of a side channel have a bit more than the test counts: they come back exactly if no sum that is shifted
      leaves the 32 bits the test chose. */
  lemma SideSurvivesExactly(x: seq<int32>, coeffs: seq<int32>, q: nat, bps: nat, precision: nat)
    requires coeffs != [] && bps > 0 && precision > 0 && q <= 31 && AllFit(x, bps + 1) && AllFit(coeffs, precision)
    ensures Restored(Residuals(x, coeffs, q), coeffs, q, Narrow(bps, precision, |coeffs|)) == x
            <==> !Narrow(bps, precision, |coeffs|) || q == 0
                 || forall i :: |coeffs| <= i < |x| ==> SumFits(coeffs, x, i)
  {
    hide Restored, Residuals, Agrees, Sum, Pow2, AllFit, SumFits;
    forall i | |coeffs| <= i < |x| && Narrow(bps, precision, |coeffs|)
      ensures Agrees(coeffs, x, i, q) <==> q == 0 || SumFits(coeffs, x, i)
    {
      SumBelow(coeffs, x, i, bps + 1, precision);
      Pow2Mono(bps + precision + Log2(|coeffs|), 32);
      Pow32();
      AgreesExactly(coeffs, x, i, q);
    }
    SurvivesExactly(x, coeffs, q, Narrow(bps, precision, |coeffs|));
  }

  /** A side channel of 24-bit sound that does not come back: after three samples -(2^24 - 1) a fourth is off by 2^25. */
  lemma SideIsLost()
    ensures var v, coeffs := 0 - 0xff_ffff, [-64, -64, -64];
            var x := [v, v, v, 0];
            && AllFit(x, 25) && AllFit(coeffs, 7) && Narrow(24, 7, 3)
            && Restored(Residuals(x, coeffs, 7), coeffs, 7, true) == [v, v, v, 0 - 0x200_0000]
  {
    hide Restored, Sum, Residuals, Wrap32, Shift, Times, Pow2, BitLength;
    var v, coeffs := 0 - 0xff_ffff, [-64, -64, -64];
    var x := [v, v, v, 0];
    LossSizes();
    LossNumbers();
    var r := Residuals(x, coeffs, 7);
    var y := Restored(r, coeffs, 7, true);
    ThreeProducts(x, coeffs);
    FirstThree(x, coeffs, 7);
    forall i | 0 <= i < 3
      ensures y[i] == v
    {
      RestoredAt(r, coeffs, 7, true, i);
      assert r[i] == r[..3][i] == x[..3][i];
    }
    RestoredAt(r, coeffs, 7, true, 3);
    ThreeProducts(y, coeffs);
    assert y == [v, v, v, 0 - 0x200_0000];
  }

  lemma LossSizes()
    ensures Pow2(6) == 64 && Pow2(24) == 0x100_0000 && Log2(3) == 1
  {
    Pow24();
    BitLengthUnique(3, 2);
  }

  lemma LossNumbers()
    ensures var product := Times(-64, 0 - 0xff_ffff);
            && product + product + product == 192 * 0xff_ffff
            && WrapSub(0, Shift(192 * 0xff_ffff, 7)) == 0 - 25165822
            && WrapAdd(0 - 25165822, Shift(Wrap32(192 * 0xff_ffff), 7)) == 0 - 0x200_0000
  {
    assert Pow2(7) == 128;
  }

  lemma Pow24()
    ensures Pow2(24) == 0x100_0000
  {
    Powers();
  }

  lemma ThreeProducts(x: seq<int32>, coeffs: seq<int32>)
    requires |x| == 4 && coeffs == [-64, -64, -64]
    ensures Sum(coeffs, x, 3, 3) == Times(-64, x[2]) + Times(-64, x[1]) + Times(-64, x[0])
  {
    assert Sum(coeffs, x, 3, 1) == Sum(coeffs, x, 3, 0) + Times(coeffs[0], x[2]);
  }

  lemma FirstThree(x: seq<int32>, coeffs: seq<int32>, q: nat)
    requires |x| == 4 && |coeffs| == 3
    ensures var r := Residuals(x, coeffs, q);
            r[..3] == x[..3] && r[3] == WrapSub(x[3], Shift(Sum(coeffs, x, 3, 3), q))
  {
    hide Sum, Shift, Wrap32;
  }

  // ---------------------------------------------------------------- in place

  /** The loops of decode_subframe_lpc behind the warm-up samples. */
  method RestoreLinear(decoded: array<int32>, coeffs: seq<int32>, qlevel: nat, bps: nat, precision: nat)
    requires 0 < |coeffs| <= decoded.Length && |coeffs| < TWO32 && qlevel <= 31
    modifies decoded
    ensures decoded[..] == Restored(old(decoded[..]), coeffs, qlevel, Narrow(bps, precision, |coeffs|))
  {
    hide Restored, Sum, Predicted, Pow2, Shift, Wrap32;
    ghost var data := decoded[..];
    var order := |coeffs|;
    var log := AvLog2(order);
    BitLengthUnique(order, log + 1);
    var narrow := bps + precision + log <= 32;
    ghost var x := Restored(data, coeffs, qlevel, narrow);
    WarmUp(data, coeffs, qlevel, narrow);
    var i := order;
    while i < decoded.Length
      invariant order <= i <= decoded.Length
      invariant forall j :: 0 <= j < i ==> decoded[j] == x[j]
      invariant forall j :: i <= j < decoded.Length ==> decoded[j] == data[j]
    {
      RestoredAt(data, coeffs, qlevel, narrow, i);
      SumLocal(coeffs, decoded[..], x, i, order);
      assert Predicted(coeffs, decoded[..], i, qlevel, narrow) == Predicted(coeffs, x, i, qlevel, narrow) by {
        PredictedIs(coeffs, decoded[..], i, qlevel, narrow);
        PredictedIs(coeffs, x, i, qlevel, narrow);
      }
      if narrow {
        var sum := NarrowSum(decoded, coeffs, i);
        PredictedIs(coeffs, decoded[..], i, qlevel, narrow);
        decoded[i] := WrapAdd(decoded[i], Shift(sum, qlevel));
      } else {
        var wsum := WideSum(decoded, coeffs, i);
        PredictedIs(coeffs, decoded[..], i, qlevel, narrow);
        decoded[i] := WrapAdd(decoded[i], Shift(wsum, qlevel));
      }
      i := i + 1;
    }
    assert decoded[..] == x;
  }

  lemma WarmUp(data: seq<int32>, coeffs: seq<int32>, q: nat, narrow: bool)
    ensures forall j :: 0 <= j < |coeffs| && j < |data| ==> Restored(data, coeffs, q, narrow)[j] == data[j]
  {
    hide Restored;
    forall j | 0 <= j < |coeffs| && j < |data|
      ensures Restored(data, coeffs, q, narrow)[j] == data[j]
    {
      RestoredAt(data, coeffs, q, narrow, j);
    }
  }

  lemma PredictedIs(coeffs: seq<int32>, x: seq<int32>, i: nat, q: nat, narrow: bool)
    requires |coeffs| <= i <= |x|
    ensures var sum := Sum(coeffs, x, i, |coeffs|);
            Predicted(coeffs, x, i, q, narrow) == Shift(if narrow then Wrap32(sum) else sum, q)
  {
  }

  /** `sum += coeffs[j] * decoded[i-j-1]` in int: products and sums wrap. */
  method NarrowSum(decoded: array<int32>, coeffs: seq<int32>, i: nat) returns (sum: int32)
    requires |coeffs| <= i < decoded.Length
    ensures sum == Wrap32(Sum(coeffs, decoded[..], i, |coeffs|))
  {
    hide Wrap32, Times;
    SmallWord(0);
    sum := 0;
    for j := 0 to |coeffs|
      invariant sum == Wrap32(Sum(coeffs, decoded[..], i, j))
    {
      var product := Wrap32(Times(coeffs[j], decoded[i - j - 1]));
      BothWrap(Sum(coeffs, decoded[..], i, j), Times(coeffs[j], decoded[i - j - 1]));
      sum := WrapAdd(sum, product);
    }
  }

  lemma SmallWord(x: int32)
    ensures Wrap32(x) == x
  {
  }

  lemma BothWrap(x: int, y: int)
    ensures WrapAdd(Wrap32(x), Wrap32(y)) == Wrap32(x + y)
  {
    hide Wrap32;
    WrapOnTheWay(x, Wrap32(y));
    WrapOnTheWay(y, x);
    assert x + Wrap32(y) == Wrap32(y) + x;
  }

  /** Up to 32 coefficients of 15 bits no sum comes near the end of int64. */
  lemma WideFits(coeffs: seq<int32>, x: seq<int32>, i: nat, n: nat)
    requires n <= |coeffs| <= 32 && n <= i <= |x| && AllFit(coeffs, 15)
    ensures Abs(Sum(coeffs, x, i, n)) <= 0x4_0000_0000_0000
  {
    hide Sum, Times;
    assert Pow2(8) == 256 && Pow2(6) == 64;
    Pow2Add(8, 6);
    SumBound(coeffs, x, i, n, 0x4000, TWO31);
    TimesUpTo(n, 32, 0x4000, TWO31);
  }

  lemma TimesUpTo(n: nat, m: nat, c: nat, s: nat)
    requires n <= m
    ensures Times(n, Times(c, s)) <= m * (c * s)
  {
    MulUp(0, c, s);
    MulUp(n, m, c * s);
  }

  /** The same in int64. */
  method WideSum(decoded: array<int32>, coeffs: seq<int32>, i: nat) returns (wsum: int)
    requires |coeffs| <= i < decoded.Length
    ensures wsum == Sum(coeffs, decoded[..], i, |coeffs|)
  {
    hide Times;
    wsum := 0;
    for j := 0 to |coeffs|
      invariant wsum == Sum(coeffs, decoded[..], i, j)
    {
      wsum := wsum + Times(coeffs[j], decoded[i - j - 1]);
    }
  }
}
