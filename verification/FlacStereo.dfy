/** FLAC's channel decorrelation and the shift to the output's depth (jni/flac/flac_decoder.c lines 530-587), in place,
    against the pairs an encoder stores (section 9.1.3 of RFC 9639). */
module FlacStereo {
  import opened Machine
  import opened Arithmetic
  import opened Bits

  const OUTPUT_DEPTH := 29

  datatype Assignment = Independent | LeftSide | RightSide | MidSide

  /** What an encoder stores for a pair of samples. */
  function Stored(a: Assignment, left: int, right: int): (int, int) {
    match a
    case Independent => (left, right)
    case LeftSide => (left, left - right)
    case RightSide => (left - right, right)
    case MidSide => ((left + right) / 2, left - right)
  }

  /** `x << scale` of an int. */
  function Up(x: int, scale: nat): int32 {
    hide Pow2;
    Wrap32(x * Pow2(scale))
  }

  /** One turn of the loops of flac_decode_frame. */
  function Joined(a: Assignment, first: int32, second: int32, scale: nat): (int32, int32) {
    hide Wrap32;
    match a
    case Independent => (Up(first, scale), Up(second, scale))
    case LeftSide => (Up(first, scale), Up(WrapSub(first, second), scale))
    case RightSide => (Up(WrapAdd(first, second), scale), Up(second, scale))
    case MidSide =>
      var mid := WrapSub(first, second / 2);
      (Up(WrapAdd(mid, second), scale), Up(mid, scale))
  }

  /** Samples of up to 31 bits. */
  predicate Sample31(x: int) {
    -0x4000_0000 <= x < 0x4000_0000
  }

  /** Every pair comes back, shifted. */
  lemma PairComesBack(a: Assignment, left: int, right: int, scale: nat)
    requires Sample31(left) && Sample31(right)
    ensures var (first, second) := Stored(a, left, right);
            && -TWO31 <= first < TWO31 && -TWO31 <= second < TWO31
            && Joined(a, first, second, scale) == (Up(left, scale), Up(right, scale))
  {
    hide Up;
  }

  /** The shift loses nothing as long as the samples have the bits that are announced. */
  lemma UpIsExact(x: int, bps: nat)
    requires 1 <= bps <= OUTPUT_DEPTH && 0 - Pow2(bps - 1) <= x < Pow2(bps - 1)
    ensures var scale := OUTPUT_DEPTH - bps;
            Up(x, scale) == x * Pow2(scale) && Up(x, scale) / Pow2(scale) == x
  {
    hide Pow2;
    var scale := OUTPUT_DEPTH - bps;
    Pow2Add(bps - 1, scale);
    Pow2Mono(OUTPUT_DEPTH - 1, 31);
    Pow28();
    Between(x, Pow2(bps - 1), Pow2(scale));
  }

  lemma Pow28()
    ensures Pow2(28) == 0x1000_0000
  {
    assert Pow2(8) == 256 && Pow2(4) == 16;
    Pow2Add(8, 8);
    Pow2Add(16, 8);
    Pow2Add(24, 4);
  }

  lemma Between(x: int, half: nat, d: nat)
    requires 0 - half <= x < half && d > 0
    ensures 0 - half * d <= x * d < half * d && x * d / d == x
  {
    MulUp(0 - half, x, d);
    MulUp(x + 1, half, d);
    MulNext(x, d);
    Uniquely(x * d, x, 0, d);
    assert (0 - half) * d == 0 - half * d;
  }

  // ---------------------------------------------------------------- the form that is switched off

  /** The other form of the middle and side channels: `mid` with the lowest bit of `side` below it. */
  function OtherForm(first: int32, second: int32): (int32, int32) {
    hide Wrap32;
    var mid := Wrap32(Wrap32(2 * first) + second % 2);
    (WrapAdd(mid, second) / 2, WrapSub(mid, second) / 2)
  }

  /** The source wonders whether its two forms are identical: they are if and only if the other form's sums, twice the
      samples, fit 32 bits. */
  lemma FormsAgreeExactly(first: int32, second: int32)
    ensures var mid := 2 * first + second % 2;
            OtherForm(first, second) == Joined(MidSide, first, second, 0)
            <==> -TWO31 <= mid + second < TWO31 && -TWO31 <= mid - second < TWO31
  {
    hide Joined, OtherForm, Wrap32;
    var half, bit := second / 2, second % 2;
    InHalves(first, second, half, bit);
    HalfTold(first + half + bit);
    HalfTold(first - half);
  }

  /** Both forms from the sums that they halve or do not. */
  lemma InHalves(first: int32, second: int32, half: int, bit: int)
    requires second == 2 * half + bit && 0 <= bit <= 1
    ensures Joined(MidSide, first, second, 0) == (Wrap32(first + half + bit), Wrap32(first - half))
    ensures OtherForm(first, second)
            == (Wrap32(2 * (first + half + bit)) / 2, Wrap32(2 * (first - half)) / 2)
  {
    hide Wrap32, Up;
    assert second / 2 == half && second % 2 == bit;
    WrapOnTheWay(first - half, second);
    NoShift(Wrap32(first - half + second));
    NoShift(Wrap32(first - half));
    OtherSums(first, second, bit);
    assert 2 * first + bit + second == 2 * (first + half + bit);
    assert 2 * first + bit - second == 2 * (first - half);
  }

  lemma OtherSums(first: int32, second: int32, bit: int)
    ensures var mid := Wrap32(Wrap32(2 * first) + bit);
            && WrapAdd(mid, second) == Wrap32(2 * first + bit + second)
            && WrapSub(mid, second) == Wrap32(2 * first + bit - second)
  {
    hide Wrap32;
    WrapOnTheWay(2 * first, bit);
    WrapOnTheWay(2 * first + bit, second);
    WrapOnTheWay(2 * first + bit, 0 - second);
  }

  lemma NoShift(x: int32)
    ensures Up(x, 0) == x
  {
    assert Pow2(0) == 1;
  }

  /** A double's half is right exactly if the double fits. */
  lemma HalfTold(n: int)
    requires -3 * 0x4000_0000 <= n < 3 * 0x4000_0000
    ensures Wrap32(2 * n) / 2 == Wrap32(n) <==> -TWO31 <= 2 * n < TWO31
  {
  }

  // ---------------------------------------------------------------- in place

  /** The loops of flac_decode_frame. */
  method Join(a: Assignment, decoded0: array<int32>, decoded1: array<int32>, bps: nat)
    requires bps <= OUTPUT_DEPTH && decoded0 != decoded1 && decoded0.Length == decoded1.Length
    modifies decoded0, decoded1
    ensures forall i :: 0 <= i < decoded0.Length ==>
              (decoded0[i], decoded1[i]) == Joined(a, old(decoded0[i]), old(decoded1[i]), OUTPUT_DEPTH - bps)
  {
    hide Up, WrapAdd, WrapSub;
    var scale := OUTPUT_DEPTH - bps;
    for i := 0 to decoded0.Length
      invariant forall j :: 0 <= j < i ==>
                  (decoded0[j], decoded1[j]) == Joined(a, old(decoded0[j]), old(decoded1[j]), scale)
      invariant forall j :: i <= j < decoded0.Length ==>
                  decoded0[j] == old(decoded0[j]) && decoded1[j] == old(decoded1[j])
    {
      match a {
        case Independent =>
          decoded0[i] := Up(decoded0[i], scale);
          decoded1[i] := Up(decoded1[i], scale);
        case LeftSide =>
          decoded1[i] := Up(WrapSub(decoded0[i], decoded1[i]), scale);
          decoded0[i] := Up(decoded0[i], scale);
        case RightSide =>
          decoded0[i] := Up(WrapAdd(decoded0[i], decoded1[i]), scale);
          decoded1[i] := Up(decoded1[i], scale);
        case MidSide =>
          var mid, side := decoded0[i], decoded1[i];
          mid := WrapSub(mid, side / 2);
          decoded0[i] := Up(WrapAdd(mid, side), scale);
          decoded1[i] := Up(mid, scale);
      }
    }
  }
}
