/** What the adaptive filters of jni/ape/filter.c learn (lines 117-215): which way the coefficients go and how far, how the
    average moves, and how long an output is remembered. */
module ApeFilterLearns {
  import opened Machine
  import opened Arithmetic
  import opened Bits
  import opened ApeFilter

  // ---------------------------------------------------------------- the prediction

  /** The fractional bits of the filters there are. */
  predicate Fraction(bits: nat) {
    bits == 10 || bits == 11 || bits == 13 || bits == 15
  }

  /** A fixed-point number becomes the integer nearest to it. */
  lemma FixedPointRounds(x: int32, bits: nat)
    requires Fraction(bits) && x + Pow2(bits - 1) < TWO31
    ensures 0 - Pow2(bits - 1) < Pow2(bits) * FpToInt(x, bits) - x <= Pow2(bits - 1)
  {
    assert Pow2(8) == 256;
    Pow2Add(8, 1);
    Pow2Add(8, 2);
    Pow2Add(8, 4);
    Pow2Add(8, 6);
  }

  /** The prediction is the coefficients' product with the outputs, to the nearest integer. */
  lemma PredictRounds(m: Memory, order: nat, bits: nat)
    requires Sound(m, order) && Fraction(bits)
    requires -TWO31 <= Dot(m.coeffs, Last(m.outputs, order)) < TWO31 - Pow2(bits - 1)
    ensures var dot := Dot(m.coeffs, Last(m.outputs, order));
            0 - Pow2(bits - 1) < Pow2(bits) * Predict(m, order, bits) - dot <= Pow2(bits - 1)
  {
    hide Pow2, Dot, FpToInt;
    FixedPointRounds(Dot(m.coeffs, Last(m.outputs, order)), bits);
  }

  // ---------------------------------------------------------------- what is remembered of an output

  /** A remembered value does not have its output's sign; it is never above 32. */
  predicate Against(v: int, output: int) {
    -32 <= v <= 32 && (v > 0 ==> output <= 0) && (v < 0 ==> output >= 0)
  }

  predicate AllAgainst(v: seq<int16>, b: seq<int16>) {
    |v| == |b| && forall i :: 0 <= i < |v| ==> Against(v[i], b[i])
  }

  /** So it is with everything the filter looks back on. */
  predicate Opposed(m: Memory, order: nat) {
    Sound(m, order) && AllAgainst(Last(m.adaption, order), Last(m.outputs, order))
  }

  lemma ValueIsAgainst(late: bool, res: int32, avg: int32)
    ensures Against(Value(late, res, avg), Saturate(res))
  {
  }

  /** The value is zero or has the opposite sign, but for an output of zero in late files when three or four times the
      average wraps below zero: then it is negative. */
  lemma OppositeExactly(late: bool, res: int32, avg: int32)
    ensures var v := Value(late, res, avg);
            (v == 0 || (v > 0 && res < 0) || (v < 0 && res > 0))
            <==> res != 0 || !late || (Wrap32(3 * avg) >= 0 && Wrap32(4 * avg) >= 0)
    ensures res == 0 ==> Value(late, res, avg) <= 0
  {
  }

  lemma HalvingKeepsAgainst(v: int16, output: int)
    requires Against(v, output)
    ensures Against(v / 2, output)
  {
  }

  /** Every step keeps that. */
  lemma StepKeepsOpposed(m: Memory, order: nat, fracBits: nat, late: bool, data: int32)
    requires Opposed(m, order)
    ensures Opposed(Step(m, order, fracBits, late, data).0, order)
  {
    hide Predict, Adapt, Value, Average, Saturate, Wrap32, Against;
    var res := Wrap32(Plus(Predict(m, order, fracBits), data));
    ValueIsAgainst(late, res, m.avg);
    var v, b := Last(m.adaption, order), Last(m.outputs, order);
    var after := Step(m, order, fracBits, late, data).0;
    var w, c := Last(after.adaption, order), Last(after.outputs, order);
    forall i | 0 <= i < order
      ensures Against(w[i], c[i])
    {
      if i < order - 1 {
        assert c[i] == b[i + 1] && w[i] == Last(Fade(late, m.adaption), order)[i + 1];
        HalvingKeepsAgainst(v[i + 1], b[i + 1]);
      }
    }
  }

  lemma {:induction false} FilterKeepsOpposed(m: Memory, order: nat, fracBits: nat, late: bool, data: seq<int32>)
    requires Opposed(m, order)
    ensures Opposed(Filter(m, order, fracBits, late, data).0, order)
    decreases |data|
  {
    hide Step, Against;
    if data == [] {
    } else {
      var n := |data| - 1;
      FilterKeepsOpposed(m, order, fracBits, late, data[..n]);
      StepKeepsOpposed(Filter(m, order, fracBits, late, data[..n]).0, order, fracBits, late, data[n]);
    }
  }

  // ---------------------------------------------------------------- which way the coefficients go

  /** Coefficients far enough from the ends of a short. */
  predicate RoomLeft(coeffs: seq<int16>) {
    forall i :: 0 <= i < |coeffs| ==> -32736 <= coeffs[i] <= 32735
  }

  /** How much what is remembered of the outputs weighs against them. */
  function Gain(m: Memory, order: nat): int
    requires Sound(m, order)
  {
    -Dot(Last(m.adaption, order), Last(m.outputs, order))
  }

  lemma {:induction false} DotOfSum(a: seq<int16>, v: seq<int16>, b: seq<int16>)
    requires |a| == |v| == |b| && RoomLeft(a) && forall i :: 0 <= i < |v| ==> -32 <= v[i] <= 32
    ensures Dot(AddVector(a, v), b) == Dot(a, b) + Dot(v, b)
    ensures Dot(SubVector(a, v), b) == Dot(a, b) - Dot(v, b)
  {
    hide Times;
    if a == [] {
    } else {
      var n := |a| - 1;
      DotOfSum(a[..n], v[..n], b[..n]);
      assert AddVector(a, v)[..n] == AddVector(a[..n], v[..n]) && SubVector(a, v)[..n] == SubVector(a[..n], v[..n]);
      TimesSum(a[n], v[n], b[n]);
    }
  }

  lemma TimesSum(x: int, y: int, z: int)
    ensures Times(Plus(x, y), z) == Times(x, z) + Times(y, z)
    ensures Times(Minus(x, y), z) == Times(x, z) - Times(y, z)
  {
  }

  /** No output and its remembered value are both other than zero. */
  predicate Nothing(v: seq<int16>, b: seq<int16>) {
    |v| == |b| && forall i :: 0 <= i < |v| ==> v[i] == 0 || b[i] == 0
  }

  lemma {:induction false} OpposedWeighs(v: seq<int16>, b: seq<int16>)
    requires AllAgainst(v, b)
    ensures Dot(v, b) <= 0 && (Dot(v, b) == 0 <==> Nothing(v, b))
  {
    hide Times, Against;
    if v == [] {
    } else {
      var n := |v| - 1;
      OpposedWeighs(v[..n], b[..n]);
      AgainstProduct(v[n], b[n]);
      NothingMore(v, b);
    }
  }

  lemma NothingMore(v: seq<int16>, b: seq<int16>)
    requires |v| == |b| > 0
    ensures var n := |v| - 1; Nothing(v, b) <==> Nothing(v[..n], b[..n]) && (v[n] == 0 || b[n] == 0)
  {
    var n := |v| - 1;
    if Nothing(v[..n], b[..n]) && (v[n] == 0 || b[n] == 0) {
      forall i | 0 <= i < |v|
        ensures v[i] == 0 || b[i] == 0
      {
        if i < n {
          assert v[..n][i] == v[i] && b[..n][i] == b[i];
        }
      }
    } else if Nothing(v, b) {
      forall i | 0 <= i < n
        ensures v[..n][i] == 0 || b[..n][i] == 0
      {
        assert v[..n][i] == v[i] && b[..n][i] == b[i];
      }
    }
  }

  lemma AgainstProduct(v: int, output: int)
    requires Against(v, output)
    ensures Times(v, output) <= 0 && (Times(v, output) == 0 <==> v == 0 || output == 0)
  {
  }

  /** The filter learns: after positive data, which the prediction fell short of, the new coefficients weigh the outputs
      just used higher; after negative data lower; by the same gain, which is zero only if nothing is remembered of an
      output other than zero. */
  lemma StepLearns(m: Memory, order: nat, fracBits: nat, late: bool, data: int32)
    requires Opposed(m, order) && RoomLeft(m.coeffs)
    ensures var after := Step(m, order, fracBits, late, data).0;
            Dot(after.coeffs, Last(m.outputs, order))
            == Dot(m.coeffs, Last(m.outputs, order))
               + (if data > 0 then Gain(m, order) else if data < 0 then -Gain(m, order) else 0)
    ensures Gain(m, order) >= 0
    ensures Gain(m, order) == 0 <==> Nothing(Last(m.adaption, order), Last(m.outputs, order))
  {
    hide Predict, Value, Average, Saturate, Wrap32, Fade, Dot, AddVector, SubVector, Against, RoomLeft, Nothing;
    var v, b := Last(m.adaption, order), Last(m.outputs, order);
    AgainstIsSmall(v, b);
    OpposedWeighs(v, b);
    DotOfSum(m.coeffs, v, b);
  }

  lemma AgainstIsSmall(v: seq<int16>, b: seq<int16>)
    requires AllAgainst(v, b)
    ensures forall i :: 0 <= i < |v| ==> -32 <= v[i] <= 32
  {
  }

  // ---------------------------------------------------------------- how much is remembered

  /** Outputs and averages with which nothing wraps. */
  predicate Moderate(res: int32, avg: int32) {
    -0x1000_0000 < res < 0x1000_0000 && 0 <= avg < 0x1000_0000
  }

  /** The output of a step, and the size of what is remembered of it: in late files by how it stands to the average. */
  lemma StepRemembers(m: Memory, order: nat, fracBits: nat, late: bool, data: int32)
    requires Sound(m, order)
    ensures var (after, res) := Step(m, order, fracBits, late, data);
            && res == WrapAdd(Predict(m, order, fracBits), data)
            && after.outputs == m.outputs + [Saturate(res)] && |after.adaption| == |m.adaption| + 1
            && (Moderate(res, m.avg) ==>
                  Abs(after.adaption[|m.adaption|])
                  == if res == 0 then 0
                     else if !late then 4
                     else if Abs(res) > 3 * m.avg then 32
                     else if 3 * Abs(res) > 4 * m.avg then 16
                     else 8)
  {
    hide Predict, Adapt, Average, Saturate, Fade;
  }

  /** In late files the average goes a sixteenth of the way to the output's size; in early ones there is none. */
  lemma StepAverages(m: Memory, order: nat, fracBits: nat, late: bool, data: int32)
    requires Sound(m, order)
    ensures var (after, res) := Step(m, order, fracBits, late, data);
            && (!late ==> after.avg == m.avg)
            && (late && Moderate(res, m.avg) ==>
                  var way, gap := after.avg - m.avg, Abs(res) - m.avg;
                  && after.avg >= 0 && 16 * Abs(way) <= Abs(gap) < 16 * Abs(way) + 16
                  && (way > 0 ==> gap > 0) && (way < 0 ==> gap < 0))
  {
    hide Predict, Adapt, Value, Saturate, Fade;
  }

  // ---------------------------------------------------------------- how long it is remembered

  /** How often a value has been halved after n steps. */
  function Halvings(late: bool, n: nat): nat {
    if late then (if n == 0 then 0 else if n == 1 then 1 else if n < 8 then 2 else 3)
    else if n < 4 then 0 else if n < 8 then 1 else 2
  }

  /** What is remembered of an output fades: in late files by halves after one, two and eight steps, in early ones after
      four and eight. */
  lemma {:induction false} ValuesFade(m: Memory, order: nat, fracBits: nat, late: bool, data: seq<int32>)
    requires Sound(m, order)
    ensures var k := |m.adaption|;
            var after := Filter(m, order, fracBits, late, data).0;
            |after.adaption| == k + |data|
            && after.adaption[k - 1] == m.adaption[k - 1] / Pow2(Halvings(late, |data|))
    decreases |data|
  {
    hide Step, Pow2, Halvings;
    if data == [] {
      NoHalvings(late);
    } else {
      var n := |data| - 1;
      var before := Filter(m, order, fracBits, late, data[..n]).0;
      ValuesFade(m, order, fracBits, late, data[..n]);
      OneStepFades(before, order, fracBits, late, data[n], |data|);
      HalvedAgain(late, m.adaption[|m.adaption| - 1], |data|);
    }
  }

  lemma NoHalvings(late: bool)
    ensures Pow2(Halvings(late, 0)) == 1
  {
  }

  /** Whether the value k steps back is halved. */
  predicate HalvedAt(late: bool, k: nat) {
    if late then k == 1 || k == 2 || k == 8 else k == 4 || k == 8
  }

  lemma OneStepFades(m: Memory, order: nat, fracBits: nat, late: bool, data: int32, k: nat)
    requires Sound(m, order) && 1 <= k <= |m.adaption|
    ensures var after, i := Step(m, order, fracBits, late, data).0, |m.adaption| - k;
            && |after.adaption| == |m.adaption| + 1
            && after.adaption[i] == if HalvedAt(late, k) then m.adaption[i] / 2 else m.adaption[i]
  {
    hide Predict, Adapt, Value, Average, Saturate, Wrap32;
  }

  lemma HalvedAgain(late: bool, v: int, n: nat)
    requires n > 0
    ensures v / Pow2(Halvings(late, n))
            == if HalvedAt(late, n) then v / Pow2(Halvings(late, n - 1)) / 2 else v / Pow2(Halvings(late, n - 1))
  {
    assert Pow2(3) == 8 && Pow2(2) == 4 && Pow2(1) == 2 && Pow2(0) == 1;
  }
}
