/** The adaptive predictor of ALAC (jni/alac/alac_decoder.c lines 345-623): warm-up, the loops unrolled for four and eight
    coefficients and the general loop, with errors and samples in one buffer or in two. */
module AlacPredictor {
  import opened Machine
  import opened Arithmetic
  import opened Bits

  // ---------------------------------------------------------------- arithmetic

  function Times(x: int, y: int): int {
    x * y
  }

  /** `SIGN_EXTENDED32`: the low bits as a signed number. */
  function SignExtend(x: int, bits: nat): (r: int)
    requires 1 <= bits <= 32
  {
    var half := Pow2(bits - 1);
    var u := x % (2 * half);
    if u < half then u else u - 2 * half
  }

  predicate InRange(x: int, bits: nat)
    requires 1 <= bits <= 32
  {
    0 - Pow2(bits - 1) <= x < Pow2(bits - 1)
  }

  lemma ExtendIsInRange(x: int, bits: nat)
    requires 1 <= bits <= 32
    ensures InRange(SignExtend(x, bits), bits)
    ensures InRange(x, bits) ==> SignExtend(x, bits) == x
    ensures -TWO31 <= SignExtend(x, bits) < TWO31
  {
    hide Pow2;
    var half := Pow2(bits - 1);
    Pow2Mono(bits - 1, 31);
    PowHalf();
    ModOf(x, 2 * half);
  }

  lemma PowHalf()
    ensures Pow2(31) == TWO31
  {
    assert Pow2(7) == 128;
    Pow2Add(7, 8);
    Pow2Add(8, 8);
    Pow2Add(15, 16);
    assert Pow2(8) == 256;
  }

  lemma ModOf(x: int, d: int)
    requires d > 0
    ensures 0 <= x % d < d
    ensures 0 <= x < d ==> x % d == x
    ensures -d <= x < 0 ==> x % d == x + d
  {
    var q := x / d;
    assert x == q * d + x % d;
    if -d <= x < d {
      if q >= 1 {
        MulUp(1, q, d);
        assert false;
      }
      if q <= -2 {
        MulUp(q + 1, -1, d);
        MulNext(q, d);
        assert false;
      }
    }
  }

  function Extended(x: int, bits: nat): int32
    requires 1 <= bits <= 32
  {
    ExtendIsInRange(x, bits);
    SignExtend(x, bits)
  }

  function SignOnly(v: int32): int {
    if v < 0 then -1 else if v > 0 then 1 else 0
  }

  /** `x >> k`. */
  function ShiftRight(x: int, k: nat): int32
    requires -TWO31 <= x < TWO31
  {
    hide Pow2;
    QuotientFits(x, Pow2(k));
    x / Pow2(k)
  }

  // ---------------------------------------------------------------- one sample

  /** The weighted differences of the n newest samples to the one before them. */
  function Weighted(h: seq<int32>, coeffs: seq<int16>, j: nat): int
    requires |h| == |coeffs| + 1 && j <= |coeffs|
  {
    if j == 0 then 0
    else Weighted(h, coeffs, j - 1) + Times(WrapSub(h[|coeffs| - (j - 1)], h[0]), coeffs[j - 1])
  }

  /** What h predicts, the oldest sample first. */
  function Predicted(h: seq<int32>, coeffs: seq<int16>, q: nat): int32
    requires |h| == |coeffs| + 1 && q >= 1
  {
    hide Pow2;
    WrapAdd(ShiftRight(WrapAdd(Pow2(q - 1), Wrap32(Weighted(h, coeffs, |coeffs|))), q), h[0])
  }

  /** The coefficients after an error: from the last backwards, as long as some of the error is left. */
  function Adapt(h: seq<int32>, coeffs: seq<int16>, q: nat, up: bool, error: int32, n: nat): (r: seq<int16>)
    requires |h| == |coeffs| + 1 && n <= |coeffs|
    ensures |r| == |coeffs|
    decreases n
  {
    if n == 0 || !Left(up, error) then coeffs
    else
      var (c, left) := AdaptOne(h, coeffs, q, up, error, n - 1);
      Adapt(h, c, q, up, left, n - 1)
  }

  predicate Left(up: bool, error: int32) {
    if up then error > 0 else error < 0
  }

  /** Coefficient k, and the error left after it. */
  function AdaptOne(h: seq<int32>, coeffs: seq<int16>, q: nat, up: bool, error: int32, k: nat): (r: (seq<int16>, int32))
    requires |h| == |coeffs| + 1 && k < |coeffs|
    ensures |r.0| == |coeffs|
  {
    var v := WrapSub(h[0], h[|coeffs| - k]);
    var sign := if up then SignOnly(v) else -SignOnly(v);
    (coeffs[k := Less(coeffs[k], sign)], WrapSub(error, Times(ShiftRight(Wrap32(Times(v, sign)), q), |coeffs| - k)))
  }

  function Less(x: int, y: int): int16 {
    Wrap16(x - y)
  }

  // ---------------------------------------------------------------- a block

  /** Everything that does not change during a block. */
  datatype Setting = Setting(coefNum: nat, bits: nat, q: nat) {
    predicate Valid() {
      coefNum <= 31 && 1 <= bits <= 32 && 1 <= q <= 15
    }

    /** `predictor_coef_num == 0x1f` stands for plain differences. */
    predicate Fir() {
      0 < coefNum < 31
    }
  }

  /** One sample: copied, a difference to the last one, or a difference to what the last n + 1 predict. */
  function Sample(s: Setting, out: seq<int32>, coeffs: seq<int16>, error: int32): (r: (int32, seq<int16>))
    requires s.Valid() && |coeffs| == s.coefNum
    ensures |r.1| == |coeffs|
  {
    var n := s.coefNum;
    if out == [] || n == 0 then (error, coeffs)
    else if n == 31 || |out| <= n then (Extended(WrapAdd(out[|out| - 1], error), s.bits), coeffs)
    else
      var h := out[|out| - n - 1..];
      (Extended(WrapAdd(Predicted(h, coeffs, s.q), error), s.bits), Adapt(h, coeffs, s.q, error > 0, error, n))
  }

  function Decompress(s: Setting, coeffs: seq<int16>, errors: seq<int32>): (r: (seq<int32>, seq<int16>))
    requires s.Valid() && |coeffs| == s.coefNum
    ensures |r.0| == |errors| && |r.1| == |coeffs|
    decreases |errors|
  {
    if errors == [] then ([], coeffs)
    else
      var (out, c) := Decompress(s, coeffs, errors[..|errors| - 1]);
      var (x, d) := Sample(s, out, c, errors[|errors| - 1]);
      (out + [x], d)
  }

  // ---------------------------------------------------------------- the other direction

  /** What an encoder sends for a sample behind those already sent. */
  function Residual(s: Setting, out: seq<int32>, coeffs: seq<int16>, x: int32): int32
    requires s.Valid() && |coeffs| == s.coefNum
  {
    var n := s.coefNum;
    if out == [] || n == 0 then x
    else if n == 31 || |out| <= n then WrapSub(x, out[|out| - 1])
    else WrapSub(x, Predicted(out[|out| - n - 1..], coeffs, s.q))
  }

  function Compress(s: Setting, coeffs: seq<int16>, samples: seq<int32>): (errors: seq<int32>)
    requires s.Valid() && |coeffs| == s.coefNum
    ensures |errors| == |samples|
    decreases |samples|
  {
    if samples == [] then []
    else
      var n := |samples| - 1;
      var errors := Compress(s, coeffs, samples[..n]);
      var (out, c) := Decompress(s, coeffs, errors);
      errors + [Residual(s, out, c, samples[n])]
  }

  /** Which samples the decoder can put out. */
  predicate Possible(s: Setting, samples: seq<int32>)
    requires s.Valid()
  {
    s.coefNum == 0 || forall i :: 1 <= i < |samples| ==> InRange(samples[i], s.bits)
  }

  lemma SampleComesBack(s: Setting, out: seq<int32>, coeffs: seq<int16>, x: int32)
    requires s.Valid() && |coeffs| == s.coefNum && (out == [] || s.coefNum == 0 || InRange(x, s.bits))
    ensures Sample(s, out, coeffs, Residual(s, out, coeffs, x)).0 == x
  {
    hide Predicted, Adapt, InRange, SignExtend;
    var n := s.coefNum;
    if out != [] && n > 0 {
      ExtendIsInRange(x, s.bits);
      var p := if n == 31 || |out| <= n then out[|out| - 1] else Predicted(out[|out| - n - 1..], coeffs, s.q);
      WrapAddUndoesSub(x, p);
    }
  }

  lemma SampleIsPossible(s: Setting, out: seq<int32>, coeffs: seq<int16>, error: int32)
    requires s.Valid() && |coeffs| == s.coefNum && out != [] && s.coefNum > 0
    ensures InRange(Sample(s, out, coeffs, error).0, s.bits)
  {
    hide Predicted, Adapt, InRange, SignExtend;
    var n := s.coefNum;
    var p := if n == 31 || |out| <= n then out[|out| - 1] else Predicted(out[|out| - n - 1..], coeffs, s.q);
    ExtendIsInRange(WrapAdd(p, error), s.bits);
  }

  /** Samples in range come back from what the matching encoder sends, and the coefficients of both stay the same. */
  lemma {:induction false} SamplesComeBack(s: Setting, coeffs: seq<int16>, samples: seq<int32>)
    requires s.Valid() && |coeffs| == s.coefNum && Possible(s, samples)
    ensures Decompress(s, coeffs, Compress(s, coeffs, samples)).0 == samples
    decreases |samples|
  {
    hide Sample, Residual, InRange;
    if samples == [] {
    } else {
      var n := |samples| - 1;
      SamplesComeBack(s, coeffs, samples[..n]);
      var before, errors := Compress(s, coeffs, samples[..n]), Compress(s, coeffs, samples);
      assert errors[..n] == before;
      var (out, c) := Decompress(s, coeffs, before);
      SampleComesBack(s, out, c, samples[n]);
      assert samples == samples[..n] + [samples[n]];
    }
  }

  /** And nothing but samples in range ever comes out. */
  lemma {:induction false} OnlyPossibleSamples(s: Setting, coeffs: seq<int16>, errors: seq<int32>)
    requires s.Valid() && |coeffs| == s.coefNum
    ensures Possible(s, Decompress(s, coeffs, errors).0)
    decreases |errors|
  {
    hide Sample, InRange;
    if errors == [] {
    } else {
      var n := |errors| - 1;
      OnlyPossibleSamples(s, coeffs, errors[..n]);
      if n > 0 && s.coefNum > 0 {
        var (out, c) := Decompress(s, coeffs, errors[..n]);
        SampleIsPossible(s, out, c, errors[n]);
      }
    }
  }

  /** So a block survives if and only if its samples, the first aside, fit the sample size. */
  lemma SurvivesExactlyInRange(s: Setting, coeffs: seq<int16>, samples: seq<int32>)
    requires s.Valid() && |coeffs| == s.coefNum
    ensures Decompress(s, coeffs, Compress(s, coeffs, samples)).0 == samples <==> Possible(s, samples)
  {
    hide Possible, Decompress, Compress;
    OnlyPossibleSamples(s, coeffs, Compress(s, coeffs, samples));
    if Possible(s, samples) {
      SamplesComeBack(s, coeffs, samples);
    }
  }

  // ---------------------------------------------------------------- the loops

  /** The samples in front of the one sought. */
  function Window(out: seq<int32>, at: nat, n: nat): (h: seq<int32>)
    requires at + n < |out|
    ensures |h| == n + 1
  {
    out[at..at + n + 1]
  }

  lemma WeightedStep(h: seq<int32>, coeffs: seq<int16>, j: nat)
    requires |h| == |coeffs| + 1 && j < |coeffs|
    ensures Weighted(h, coeffs, j + 1) == Weighted(h, coeffs, j) + Times(WrapSub(h[|coeffs| - j], h[0]), coeffs[j])
  {
    hide WrapSub, Times;
  }

  /** The sum written out for four coefficients. */
  method Sum4(out: array<int32>, at: nat, coeffs: array<int16>) returns (sum: int32)
    requires at + 4 < out.Length && coeffs.Length >= 4
    ensures sum == Wrap32(Weighted(Window(out[..], at, 4), coeffs[..4], 4))
  {
    hide WrapSub, Times, Weighted;
    ghost var h, c := Window(out[..], at, 4), coeffs[..4];
    WeightedNone(h, c);
    WeightedStep(h, c, 0);
    WeightedStep(h, c, 1);
    WeightedStep(h, c, 2);
    WeightedStep(h, c, 3);
    sum := Wrap32(Times(WrapSub(out[at + 4], out[at]), coeffs[0]) + Times(WrapSub(out[at + 3], out[at]), coeffs[1])
                  + Times(WrapSub(out[at + 2], out[at]), coeffs[2]) + Times(WrapSub(out[at + 1], out[at]), coeffs[3]));
  }

  /** The sum written out for eight coefficients. */
  method Sum8(out: array<int32>, at: nat, coeffs: array<int16>) returns (sum: int32)
    requires at + 8 < out.Length && coeffs.Length >= 8
    ensures sum == Wrap32(Weighted(Window(out[..], at, 8), coeffs[..8], 8))
  {
    hide WrapSub, Times, Weighted;
    ghost var h, c := Window(out[..], at, 8), coeffs[..8];
    WeightedNone(h, c);
    WeightedStep(h, c, 0);
    WeightedStep(h, c, 1);
    WeightedStep(h, c, 2);
    WeightedStep(h, c, 3);
    WeightedStep(h, c, 4);
    WeightedStep(h, c, 5);
    WeightedStep(h, c, 6);
    WeightedStep(h, c, 7);
    sum := Wrap32(Times(WrapSub(out[at + 8], out[at]), coeffs[0]) + Times(WrapSub(out[at + 7], out[at]), coeffs[1])
                  + Times(WrapSub(out[at + 6], out[at]), coeffs[2]) + Times(WrapSub(out[at + 5], out[at]), coeffs[3])
                  + Times(WrapSub(out[at + 4], out[at]), coeffs[4]) + Times(WrapSub(out[at + 3], out[at]), coeffs[5])
                  + Times(WrapSub(out[at + 2], out[at]), coeffs[6]) + Times(WrapSub(out[at + 1], out[at]), coeffs[7]));
  }

  lemma WeightedNone(h: seq<int32>, coeffs: seq<int16>)
    requires |h| == |coeffs| + 1
    ensures Weighted(h, coeffs, 0) == 0
  {
  }

  /** The loop for any other number, which wraps after each product. */
  method SumGeneral(out: array<int32>, at: nat, coeffs: array<int16>, n: nat) returns (sum: int32)
    requires at + n < out.Length && coeffs.Length >= n
    ensures sum == Wrap32(Weighted(Window(out[..], at, n), coeffs[..n], n))
  {
    hide WrapSub, Times, Weighted, Wrap32;
    ghost var h, c := Window(out[..], at, n), coeffs[..n];
    WeightedNone(h, c);
    sum := 0;
    assert Wrap32(0) == 0 by { WrapZero(); }
    for j := 0 to n
      invariant sum == Wrap32(Weighted(h, c, j))
    {
      WeightedStep(h, c, j);
      SumWraps(Weighted(h, c, j), Times(WrapSub(out[at + n - j], out[at]), coeffs[j]));
      sum := WrapAdd(sum, Times(WrapSub(out[at + n - j], out[at]), coeffs[j]));
    }
  }

  lemma WrapZero()
    ensures Wrap32(0) == 0
  {
  }

  lemma SumWraps(a: int, b: int)
    ensures WrapAdd(Wrap32(a), b) == Wrap32(a + b)
  {
    hide Wrap32;
    WrapOnTheWay(a, b);
  }

  /** The adaption of the unrolled loops, which skips equal samples and turns the difference round itself. */
  method AdaptUnrolled(out: array<int32>, at: nat, coeffs: array<int16>, n: nat, q: nat, error: int32)
    requires at + n < out.Length && coeffs.Length >= n
    modifies coeffs
    ensures coeffs[..n] == Adapt(Window(out[..], at, n), old(coeffs[..n]), q, error > 0, error, n)
    ensures coeffs[n..] == old(coeffs[n..])
  {
    hide WrapSub, Times, ShiftRight, AdaptOne, Less;
    ghost var h, was, rest, up := Window(out[..], at, n), coeffs[..n], coeffs[n..], error > 0;
    var errorVal := error;
    var k := n - 1;
    while k >= 0 && Left(error > 0, errorVal)
      invariant -1 <= k < n
      invariant Adapt(h, was, q, up, error, n) == Adapt(h, coeffs[..n], q, up, errorVal, k + 1)
      invariant coeffs[n..] == rest
    {
      ghost var before, left := coeffs[..n], errorVal;
      var val := WrapSub(out[at], out[at + n - k]);
      UnrolledOne(h, before, q, up, left, k);
      if val != 0 {
        if (error > 0) == (val < 0) {
          coeffs[k] := Less(coeffs[k], -1);
          val := WrapSub(0, val);
        } else {
          coeffs[k] := Less(coeffs[k], 1);
        }
        errorVal := WrapSub(errorVal, Times(ShiftRight(val, q), n - k));
      }
      assert (coeffs[..n], errorVal) == AdaptOne(h, before, q, up, left, k);
      k := k - 1;
    }
  }

  /** Adding or subtracting one and turning the difference round is multiplying with its sign. */
  lemma UnrolledOne(h: seq<int32>, coeffs: seq<int16>, q: nat, up: bool, error: int32, k: nat)
    requires |h| == |coeffs| + 1 && k < |coeffs|
    ensures var v := WrapSub(h[0], h[|coeffs| - k]);
            var turned := up == (v < 0);
            AdaptOne(h, coeffs, q, up, error, k)
            == if v == 0 then (coeffs, error)
               else (coeffs[k := Less(coeffs[k], if turned then -1 else 1)],
                     WrapSub(error, Times(ShiftRight(if turned then WrapSub(0, v) else v, q), |coeffs| - k)))
  {
    hide WrapSub, ShiftRight;
    var v := WrapSub(h[0], h[|coeffs| - k]);
    ShiftZero(q);
    MinusZero(error);
    Negative(v);
    assert coeffs[k := coeffs[k]] == coeffs && Less(coeffs[k], 0) == coeffs[k];
    assert Times(0, |coeffs| - k) == 0;
  }

  lemma ShiftZero(q: nat)
    ensures ShiftRight(0, q) == 0
  {
    hide Pow2;
    ModOf(0, Pow2(q));
  }

  lemma MinusZero(x: int32)
    ensures WrapSub(x, 0) == x
  {
  }

  lemma Negative(v: int32)
    ensures WrapSub(0, v) == Wrap32(Times(v, -1)) && Wrap32(Times(v, 1)) == v && Wrap32(Times(v, 0)) == 0
  {
  }

  /** The adaption of the general loop. */
  method AdaptGeneral(out: array<int32>, at: nat, coeffs: array<int16>, n: nat, q: nat, error: int32)
    requires at + n < out.Length && coeffs.Length >= n
    modifies coeffs
    ensures coeffs[..n] == Adapt(Window(out[..], at, n), old(coeffs[..n]), q, error > 0, error, n)
    ensures coeffs[n..] == old(coeffs[n..])
  {
    hide WrapSub, Times, ShiftRight, Less;
    ghost var h, was, rest, up := Window(out[..], at, n), coeffs[..n], coeffs[n..], error > 0;
    var errorVal := error;
    var k := n - 1;
    while k >= 0 && Left(error > 0, errorVal)
      invariant -1 <= k < n
      invariant Adapt(h, was, q, up, error, n) == Adapt(h, coeffs[..n], q, up, errorVal, k + 1)
      invariant coeffs[n..] == rest
    {
      ghost var before, left := coeffs[..n], errorVal;
      var val := WrapSub(out[at], out[at + n - k]);
      var sign := if error > 0 then SignOnly(val) else -SignOnly(val);
      coeffs[k] := Less(coeffs[k], sign);
      val := Wrap32(Times(val, sign));
      errorVal := WrapSub(errorVal, Times(ShiftRight(val, q), n - k));
      assert (coeffs[..n], errorVal) == AdaptOne(h, before, q, up, left, k);
      k := k - 1;
    }
  }

  // ---------------------------------------------------------------- the whole function

  /** How many samples it writes: the warm-up is not cut short by a small block. */
  function Touched(s: Setting, outputSize: nat): nat {
    var least := if s.Fir() then s.coefNum + 1 else 1;
    if outputSize < least then least else outputSize
  }

  /** Where the loops are: i samples done, the errors from there on still to be read. */
  ghost predicate Progress(s: Setting, errors: array<int32>, out: array<int32>, coeffs: array<int16>, i: nat,
                           was: seq<int32>, c: seq<int16>, rest: seq<int32>, spare: seq<int16>)
    requires s.Valid() && |c| == s.coefNum
    reads errors, out, coeffs
  {
    && i <= |was| == errors.Length && i <= out.Length == |rest| && s.coefNum <= coeffs.Length == |spare|
    && (out[..i], coeffs[..s.coefNum]) == Decompress(s, c, was[..i])
    && (forall j :: i <= j < errors.Length ==> errors[j] == was[j])
    && (forall j :: i <= j < out.Length ==> out[j] == rest[j])
    && (forall j :: s.coefNum <= j < coeffs.Length ==> coeffs[j] == spare[j])
  }

  lemma DecompressOne(s: Setting, c: seq<int16>, errors: seq<int32>, i: nat)
    requires s.Valid() && |c| == s.coefNum && i < |errors|
    ensures var (out, d) := Decompress(s, c, errors[..i]);
            var (x, e) := Sample(s, out, d, errors[i]);
            Decompress(s, c, errors[..i + 1]) == (out + [x], e)
  {
    hide Sample;
    assert errors[..i + 1][..i] == errors[..i];
  }

  /** One sample without prediction. */
  method CopyTurn(s: Setting, errors: array<int32>, out: array<int32>, coeffs: array<int16>, i: nat,
                  ghost was: seq<int32>, ghost c: seq<int16>, ghost rest: seq<int32>, ghost spare: seq<int16>)
    requires s.Valid() && |c| == s.coefNum == 0 && i < errors.Length && i < out.Length
    requires Progress(s, errors, out, coeffs, i, was, c, rest, spare)
    modifies out
    ensures Progress(s, errors, out, coeffs, i + 1, was, c, rest, spare)
  {
    hide Decompress, Sample;
    ghost var before := out[..i];
    CopyOne(s, c, was, i);
    out[i] := errors[i];
    assert out[..i + 1] == before + [out[i]];
  }

  /** One sample of the warm-up, or of a block of plain differences. */
  method DifferenceTurn(s: Setting, errors: array<int32>, out: array<int32>, coeffs: array<int16>, i: nat,
                        ghost was: seq<int32>, ghost c: seq<int16>, ghost rest: seq<int32>, ghost spare: seq<int16>)
    requires s.Valid() && |c| == s.coefNum && 0 < i < errors.Length && i < out.Length
    requires s.coefNum == 31 || i <= s.coefNum
    requires Progress(s, errors, out, coeffs, i, was, c, rest, spare)
    modifies out
    ensures Progress(s, errors, out, coeffs, i + 1, was, c, rest, spare)
  {
    hide Decompress, Adapt, Predicted, SignExtend;
    ghost var before := out[..i];
    DecompressOne(s, c, was, i);
    out[i] := Extended(WrapAdd(out[i - 1], errors[i]), s.bits);
    assert out[..i + 1] == before + [out[i]];
  }

  /** One sample of the loops behind the warm-up, by the loop for this number of coefficients. */
  method FirTurn(s: Setting, errors: array<int32>, out: array<int32>, coeffs: array<int16>, i: nat,
                 ghost was: seq<int32>, ghost c: seq<int16>, ghost rest: seq<int32>, ghost spare: seq<int16>)
    requires s.Valid() && |c| == s.coefNum && s.Fir() && s.coefNum < i < errors.Length && i < out.Length
    requires Progress(s, errors, out, coeffs, i, was, c, rest, spare)
    modifies out, coeffs
    ensures Progress(s, errors, out, coeffs, i + 1, was, c, rest, spare)
  {
    hide Decompress, Adapt, Weighted, SignExtend, WrapSub, WrapAdd, Wrap32, ShiftRight, Pow2;
    var n := s.coefNum;
    var at := i - n - 1;
    ghost var before, h, oldCoeffs := out[..i], Window(out[..], at, n), coeffs[..n];
    assert h == before[|before| - n - 1..];
    DecompressOne(s, c, was, i);
    var errorVal := errors[i];
    var sum: int32;
    if n == 4 {
      sum := Sum4(out, at, coeffs);
    } else if n == 8 {
      sum := Sum8(out, at, coeffs);
    } else {
      sum := SumGeneral(out, at, coeffs, n);
    }
    var outval := WrapAdd(ShiftRight(WrapAdd(Pow2(s.q - 1), sum), s.q), out[at]);
    assert outval == Predicted(h, oldCoeffs, s.q);
    out[i] := Extended(WrapAdd(outval, errorVal), s.bits);
    assert Window(out[..], at, n) == h;
    if errorVal != 0 {
      if n == 4 || n == 8 {
        AdaptUnrolled(out, at, coeffs, n, s.q, errorVal);
      } else {
        AdaptGeneral(out, at, coeffs, n, s.q, errorVal);
      }
    } else {
      NoError(h, oldCoeffs, s.q, n);
    }
    assert out[..i + 1] == before + [out[i]];
  }

  lemma NoError(h: seq<int32>, coeffs: seq<int16>, q: nat, n: nat)
    requires |h| == |coeffs| + 1 && n <= |coeffs|
    ensures Adapt(h, coeffs, q, false, 0, n) == coeffs
  {
  }

  /** `predictor_decompress_fir_adapt`; errors and samples may be one buffer. */
  method DecompressFirAdapt(errors: array<int32>, out: array<int32>, outputSize: nat, s: Setting, coeffs: array<int16>)
    requires s.Valid() && s.coefNum <= coeffs.Length
    requires Touched(s, outputSize) <= errors.Length && Touched(s, outputSize) <= out.Length
    modifies out, coeffs
    ensures var m := Touched(s, outputSize);
            && (out[..m], coeffs[..s.coefNum]) == Decompress(s, old(coeffs[..s.coefNum]), old(errors[..m]))
            && out[m..] == old(out[m..]) && coeffs[s.coefNum..] == old(coeffs[s.coefNum..])
  {
    hide Decompress, Sample;
    ghost var was, c, rest, spare := errors[..], coeffs[..s.coefNum], out[..], coeffs[..];
    Nothing(s, c, was);
    FirstOne(s, c, was);
    out[0] := errors[0];
    var i := 1;
    assert out[..1] == [was[0]];
    assert Progress(s, errors, out, coeffs, 1, was, c, rest, spare);
    if s.coefNum == 0 {
      while i < outputSize
        invariant 1 <= i <= Touched(s, outputSize) && Progress(s, errors, out, coeffs, i, was, c, rest, spare)
      {
        CopyTurn(s, errors, out, coeffs, i, was, c, rest, spare);
        i := i + 1;
      }
    } else if s.coefNum == 31 {
      while i < outputSize
        invariant 1 <= i <= Touched(s, outputSize) && Progress(s, errors, out, coeffs, i, was, c, rest, spare)
      {
        DifferenceTurn(s, errors, out, coeffs, i, was, c, rest, spare);
        i := i + 1;
      }
    } else {
      while i <= s.coefNum
        invariant 1 <= i <= s.coefNum + 1 && Progress(s, errors, out, coeffs, i, was, c, rest, spare)
      {
        DifferenceTurn(s, errors, out, coeffs, i, was, c, rest, spare);
        i := i + 1;
      }
      while i < outputSize
        invariant s.coefNum < i <= Touched(s, outputSize) && Progress(s, errors, out, coeffs, i, was, c, rest, spare)
      {
        FirTurn(s, errors, out, coeffs, i, was, c, rest, spare);
        i := i + 1;
      }
    }
    assert was[..i] == old(errors[..i]);
  }

  lemma Nothing(s: Setting, c: seq<int16>, errors: seq<int32>)
    requires s.Valid() && |c| == s.coefNum
    ensures Decompress(s, c, errors[..0]) == ([], c)
  {
  }

  lemma FirstOne(s: Setting, c: seq<int16>, errors: seq<int32>)
    requires s.Valid() && |c| == s.coefNum && errors != []
    ensures Decompress(s, c, errors[..1]) == ([errors[0]], c)
  {
    hide Adapt, Predicted, SignExtend, Decompress;
    Nothing(s, c, errors);
    DecompressOne(s, c, errors, 0);
    assert [] + [errors[0]] == [errors[0]] && errors[..0 + 1] == errors[..1];
  }

  lemma CopyOne(s: Setting, c: seq<int16>, errors: seq<int32>, i: nat)
    requires s.Valid() && |c| == s.coefNum == 0 && i < |errors|
    ensures var (out, d) := Decompress(s, c, errors[..i]);
            Decompress(s, c, errors[..i + 1]) == (out + [errors[i]], d)
  {
    hide Decompress, Adapt, Predicted, SignExtend;
    DecompressOne(s, c, errors, i);
  }
}
