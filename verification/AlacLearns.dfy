/** What the adaptive predictor of jni/alac/alac_decoder.c learns (lines 438-617): which way its coefficients go, how far,
    and how many of them. */
module AlacLearns {
  import opened Machine
  import opened Arithmetic
  import opened Bits
  import opened AlacPredictor

  // ---------------------------------------------------------------- the prediction

  /** Samples with which no difference wraps. */
  predicate Moderate(h: seq<int32>) {
    forall i :: 0 <= i < |h| ==> -0x4000_0000 <= h[i] < 0x4000_0000
  }

  /** How far the k-th newest sample in front of the one sought is above the oldest. */
  function Above(h: seq<int32>, k: nat): int
    requires k < |h| - 1
  {
    var newer: int, oldest: int := h[|h| - 1 - k], h[0];
    newer - oldest
  }

  /** The differences weighted by their coefficients. */
  function Weighing(h: seq<int32>, coeffs: seq<int16>, j: nat): int
    requires |h| == |coeffs| + 1 && j <= |coeffs|
  {
    if j == 0 then 0 else Weighing(h, coeffs, j - 1) + Times(Above(h, j - 1), coeffs[j - 1])
  }

  lemma {:induction false} WeighingIsExact(h: seq<int32>, coeffs: seq<int16>, j: nat)
    requires |h| == |coeffs| + 1 && j <= |coeffs| && Moderate(h)
    ensures Weighted(h, coeffs, j) == Weighing(h, coeffs, j)
  {
    hide Times;
    if j == 0 {
    } else {
      WeighingIsExact(h, coeffs, j - 1);
    }
  }

  /** A sample is predicted to be the oldest one and the weighted differences over 2^q, to the nearest integer. */
  lemma PredictionRounds(h: seq<int32>, coeffs: seq<int16>, q: nat)
    requires |h| == |coeffs| + 1 && 1 <= q <= 15 && Moderate(h)
    requires -0x4000_0000 <= Weighing(h, coeffs, |coeffs|) < 0x3fff_0000
    ensures var sum := Weighing(h, coeffs, |coeffs|);
            0 - Pow2(q - 1) < Pow2(q) * (Predicted(h, coeffs, q) - h[0]) - sum <= Pow2(q - 1)
  {
    hide Weighted, Weighing, Pow2, Wrap32, ShiftRight;
    var sum := Weighing(h, coeffs, |coeffs|);
    WeighingIsExact(h, coeffs, |coeffs|);
    Pow2Twice(q);
    Pow2Mono(q, 15);
    Rounds(sum, Pow2(q - 1), Pow2(q));
    NoWrap(sum);
    NoWrap(Pow2(q - 1) + sum);
    NoWrap((Pow2(q - 1) + sum) / Pow2(q) + h[0]);
    ShiftIs(Pow2(q - 1) + sum, q);
  }

  lemma ShiftIs(x: int, q: nat)
    requires -TWO31 <= x < TWO31
    ensures ShiftRight(x, q) == x / Pow2(q)
  {
  }

  lemma Pow2Twice(q: nat)
    requires q >= 1
    ensures Pow2(q) == 2 * Pow2(q - 1) && Pow2(15) == TWO15
  {
    assert Pow2(8) == 256 && Pow2(7) == 128;
    Pow2Add(8, 7);
  }

  lemma Rounds(x: int, half: nat, d: nat)
    requires d == 2 * half && 0 < d <= TWO15 && -0x4000_0000 <= x < 0x3fff_0000
    ensures 0 - half < d * ((half + x) / d) - x <= half
    ensures -0x4000_0000 <= (half + x) / d < 0x4000_0000
  {
    var n := (half + x) / d;
    assert half + x == n * d + (half + x) % d;
    Commute(n, d);
    if n >= 0x4000_0000 {
      MulUp(0x4000_0000, n, d);
      assert false;
    }
    if n < -0x4000_0000 {
      MulUp(n + 1, -0x4000_0000, d);
      MulNext(n, d);
      assert false;
    }
  }

  lemma NoWrap(x: int)
    requires -TWO31 <= x < TWO31
    ensures Wrap32(x) == x
  {
  }

  // ---------------------------------------------------------------- one coefficient

  /** The first n coefficients are not at the ends of a short. */
  predicate RoomLeft(coeffs: seq<int16>, n: nat)
    requires n <= |coeffs|
  {
    forall i :: 0 <= i < n ==> -TWO15 < coeffs[i] < TWO15 - 1
  }

  function Direction(up: bool): int {
    if up then 1 else -1
  }

  /** The part of the error that a coefficient takes: its place times its difference over 2^q, rounded down for positive
      errors and up for negative ones. */
  function Share(up: bool, size: nat, q: nat, place: nat): nat {
    hide Pow2;
    Nonneg(size / Pow2(q), place);
    Nonneg((size + Pow2(q) - 1) / Pow2(q), place);
    if up then size / Pow2(q) * place else (size + Pow2(q) - 1) / Pow2(q) * place
  }

  /** One coefficient learns: the weighted sum goes on by the size of its difference in the direction of the error, and
      the error is less by its share. */
  lemma OneLearns(h: seq<int32>, coeffs: seq<int16>, q: nat, up: bool, error: int32, k: nat)
    requires |h| == |coeffs| + 1 && k < |coeffs| <= 31 && q <= 15 && Moderate(h) && RoomLeft(coeffs, k + 1)
    ensures var (c, left) := AdaptOne(h, coeffs, q, up, error, k);
            && Weighing(h, c, |coeffs|) == Weighing(h, coeffs, |coeffs|) + Times(Direction(up), Abs(Above(h, k)))
            && c[..k] == coeffs[..k]
            && left == WrapSub(error, Times(Direction(up), Share(up, Abs(Above(h, k)), q, |coeffs| - k)))
  {
    hide Weighing, Pow2, ShiftRight, Share, Times, WrapSub;
    var (c, left) := AdaptOne(h, coeffs, q, up, error, k);
    CoefficientMoves(h, coeffs, q, up, error, k);
    OneChanges(h, coeffs, c, k, |coeffs|);
    ShareTaken(h, coeffs, q, up, error, k);
  }

  lemma CoefficientMoves(h: seq<int32>, coeffs: seq<int16>, q: nat, up: bool, error: int32, k: nat)
    requires |h| == |coeffs| + 1 && k < |coeffs| && Moderate(h) && RoomLeft(coeffs, k + 1)
    ensures var c := AdaptOne(h, coeffs, q, up, error, k).0;
            && c == coeffs[k := c[k]]
            && Times(Above(h, k), c[k]) == Times(Above(h, k), coeffs[k]) + Times(Direction(up), Abs(Above(h, k)))
  {
    hide Pow2, ShiftRight;
    var c := AdaptOne(h, coeffs, q, up, error, k).0;
    var d := Above(h, k);
    assert c[k] == coeffs[k] + Direction(up) * SignOnly(d);
    Spread(d, coeffs[k], Direction(up) * SignOnly(d));
  }

  lemma Spread(d: int, c: int, e: int)
    ensures d * (c + e) == d * c + d * e
  {
  }

  lemma {:induction false} OneChanges(h: seq<int32>, a: seq<int16>, b: seq<int16>, k: nat, j: nat)
    requires |h| == |a| + 1 && k < |a| == |b| && j <= |a| && b == a[k := b[k]]
    ensures Weighing(h, b, j)
            == Weighing(h, a, j) + if k < j then Times(Above(h, k), b[k]) - Times(Above(h, k), a[k]) else 0
  {
    hide Times;
    if j == 0 {
    } else {
      OneChanges(h, a, b, k, j - 1);
    }
  }

  lemma ShareTaken(h: seq<int32>, coeffs: seq<int16>, q: nat, up: bool, error: int32, k: nat)
    requires |h| == |coeffs| + 1 && k < |coeffs| && q <= 15 && Moderate(h)
    ensures AdaptOne(h, coeffs, q, up, error, k).1
            == WrapSub(error, Times(Direction(up), Share(up, Abs(Above(h, k)), q, |coeffs| - k)))
  {
    hide Pow2, WrapSub;
    var size, place := Abs(Above(h, k)), |coeffs| - k;
    var v := WrapSub(h[0], h[|coeffs| - k]);
    assert v == -Above(h, k) by { Difference(h[0], h[|coeffs| - k]); }
    var sign := if up then SignOnly(v) else -SignOnly(v);
    assert Times(v, sign) == if up then size else -size;
    NoWrap(Times(v, sign));
    if !up {
      NegativeQuotient(size, Pow2(q));
      assert (-((size + Pow2(q) - 1) / Pow2(q))) * place == -((size + Pow2(q) - 1) / Pow2(q) * place) by {
        Negated((size + Pow2(q) - 1) / Pow2(q), place);
      }
    }
  }

  lemma Difference(x: int32, y: int32)
    requires -TWO31 <= x - y < TWO31
    ensures WrapSub(x, y) == x - y
  {
  }

  lemma Negated(x: int, y: int)
    ensures (-x) * y == -(x * y)
  {
  }

  /** Shifting a negative number rounds its size up. */
  lemma NegativeQuotient(x: nat, d: nat)
    requires d > 0
    ensures (0 - x) / d == 0 - (x + d - 1) / d
  {
    var n, r := (x + d - 1) / d, (x + d - 1) % d;
    assert x + d - 1 == n * d + r;
    Negated(n, d);
    Uniquely(0 - x, -n, d - 1 - r, d);
  }

  // ---------------------------------------------------------------- all of them

  /** The sizes of the differences whose coefficients are adapted: from the last one backwards, as long as some of the
      error is left. */
  function Gain(h: seq<int32>, q: nat, up: bool, error: int32, n: nat): nat
    requires n < |h|
    decreases n
  {
    if n == 0 || Times(Direction(up), error) <= 0 then 0
    else
      var size := Abs(Above(h, n - 1));
      size + Gain(h, q, up, WrapSub(error, Times(Direction(up), Share(up, size, q, |h| - n))), n - 1)
  }

  /** The predictor learns: after a positive error the new coefficients weigh the differences just used higher, after a
      negative one lower, and after none as before. */
  lemma {:induction false} AdaptLearns(h: seq<int32>, coeffs: seq<int16>, q: nat, up: bool, error: int32, n: nat)
    requires |h| == |coeffs| + 1 && n <= |coeffs| <= 31 && q <= 15 && Moderate(h) && RoomLeft(coeffs, n)
    ensures Weighing(h, Adapt(h, coeffs, q, up, error, n), |coeffs|)
            == Weighing(h, coeffs, |coeffs|) + Times(Direction(up), Gain(h, q, up, error, n))
    decreases n
  {
    hide Weighing, AdaptOne, Share, WrapSub, Above;
    if n == 0 || !Left(up, error) {
    } else {
      var (c, left) := AdaptOne(h, coeffs, q, up, error, n - 1);
      OneLearns(h, coeffs, q, up, error, n - 1);
      assert c[..n - 1] == coeffs[..n - 1];
      assert forall i :: 0 <= i < n - 1 ==> c[i] == c[..n - 1][i];
      AdaptLearns(h, c, q, up, left, n - 1);
    }
  }

  /** So does every sample of a block, from its error. */
  lemma SampleLearns(s: Setting, out: seq<int32>, coeffs: seq<int16>, error: int32)
    requires s.Valid() && s.Fir() && |coeffs| == s.coefNum < |out|
    requires Moderate(out[|out| - s.coefNum - 1..]) && RoomLeft(coeffs, s.coefNum)
    ensures var h := out[|out| - s.coefNum - 1..];
            var (x, after) := Sample(s, out, coeffs, error);
            && x == Extended(WrapAdd(Predicted(h, coeffs, s.q), error), s.bits)
            && Weighing(h, after, s.coefNum)
               == Weighing(h, coeffs, s.coefNum) + Times(Direction(error > 0), Gain(h, s.q, error > 0, error, s.coefNum))
  {
    hide Adapt, Predicted, Weighing, Gain, Moderate, RoomLeft;
    AdaptLearns(out[|out| - s.coefNum - 1..], coeffs, s.q, error > 0, error, s.coefNum);
  }
}
