/** How the Rice model of jni/ape/entropy.c adapts (`update_rice`, lines 282-296): towards what, how fast, and where it
    comes to rest. */
module ApeRice {
  import opened Machine
  import opened Arithmetic
  import opened Bits
  import opened ApeRange
  import opened ApeEntropy

  /** Values and sums with which nothing wraps. */
  predicate Moderate(rice: Rice, x: int) {
    0 <= x < 0x7fff_ffff && rice.ksum < 0x8000_0000
  }

  /** Half of a coded value, rounded up. */
  function HalfUp(x: nat): nat {
    (x + 1) / 2
  }

  /** The thirty-second part that leaves the sum, rounded to the nearest. */
  predicate Share(ksum: nat, share: nat) {
    32 * share - 16 <= ksum < 32 * share + 16
  }

  /** Half of the value and one, towards zero. */
  predicate HalfOf(x: int, half: int) {
    2 * Abs(half) <= Abs(x + 1) < 2 * Abs(half) + 2 && (half > 0 ==> x > 0) && (half < 0 ==> x < 0)
  }

  /** Every value decoded brings its half, whatever its sign, and a thirty-second of the sum leaves. */
  lemma DecodedAdapts(b: seq<byte>, r: Registers, rice: Rice) returns (half: int, share: nat)
    requires Sound(r) && rice.ksum < 0xffff_fff0
    ensures Share(rice.ksum, share)
    ensures match Draw3980(b, r, rice)
            case Broken => true
            case Sample(x, _, after) => x < TWO31 - 1 ==> HalfOf(x, half) && after.ksum == U32(rice.ksum + half - share)
  {
    hide DrawOverflow, DrawBase, UpdateRice, Pivot, Wrap32, U32;
    share, half := (rice.ksum + 16) / 32, 0;
    match Draw3980(b, r, rice)
    case Broken =>
    case Sample(x, _, _) =>
      if x < TWO31 - 1 {
        half := SumGoesOn(rice, x);
      }
  }

  lemma SumGoesOn(rice: Rice, x: int32) returns (half: int)
    requires x < TWO31 - 1 && rice.ksum < 0xffff_fff0
    ensures HalfOf(x, half) && UpdateRice(rice, x).ksum == U32(rice.ksum + half - (rice.ksum + 16) / 32)
  {
    hide Pow2;
    half := if x >= 0 then (x + 1) / 2 else 0 - (0 - x - 1) / 2;
  }

  lemma SumMoves(rice: Rice, x: int32)
    requires Moderate(rice, x)
    ensures UpdateRice(rice, x).ksum == rice.ksum + HalfUp(x) - (rice.ksum + 16) / 32
  {
    hide Pow2;
  }

  // ---------------------------------------------------------------- where the sum comes to rest

  /** The model after n values x. */
  function Repeated(rice: Rice, x: int32, n: nat): Rice {
    hide UpdateRice;
    if n == 0 then rice else UpdateRice(Repeated(rice, x, n - 1), x)
  }

  /** How far the sum is from where a value keeps it. */
  function Distance(ksum: int, half: int): nat {
    if ksum < 32 * half - 16 then 32 * half - 16 - ksum
    else if ksum > 32 * half + 15 then ksum - 32 * half - 15
    else 0
  }

  /** Exactly there it stays; from anywhere else it comes nearer and never passes it. */
  lemma SumApproaches(rice: Rice, x: int32)
    requires Moderate(rice, x)
    ensures var after, half := UpdateRice(rice, x).ksum, HalfUp(x);
            && (after == rice.ksum <==> Distance(rice.ksum, half) == 0)
            && (Distance(rice.ksum, half) > 0 ==> Distance(after, half) < Distance(rice.ksum, half))
            && (rice.ksum < 32 * half - 16 ==> after <= 32 * half + 15)
            && (rice.ksum > 32 * half + 15 ==> after >= 32 * half - 16)
  {
    hide UpdateRice;
    SumMoves(rice, x);
  }

  /** A value that keeps coming settles the pivot at its half, rounded up, or one below. */
  lemma {:induction false} PivotSettles(rice: Rice, x: int32, n: nat)
    requires Moderate(rice, x) && x < 0x400_0000 && n >= Distance(rice.ksum, HalfUp(x))
    ensures var half, p := HalfUp(x), Pivot(Repeated(rice, x, n));
            p == half || p == half - 1 || (p == 1 && half == 0)
  {
    hide UpdateRice, Repeated;
    SumSettles(rice, x, n);
  }

  lemma {:induction false} SumSettles(rice: Rice, x: int32, n: nat)
    requires Moderate(rice, x) && x < 0x400_0000
    ensures var d := Distance(rice.ksum, HalfUp(x));
            && Distance(Repeated(rice, x, n).ksum, HalfUp(x)) <= (if n < d then d - n else 0)
            && Repeated(rice, x, n).ksum < 0x8000_0000
  {
    hide UpdateRice, HalfUp;
    if n == 0 {
    } else {
      SumSettles(rice, x, n - 1);
      SumApproaches(Repeated(rice, x, n - 1), x);
      StaysBelow(Repeated(rice, x, n - 1), x);
    }
  }

  lemma StaysBelow(rice: Rice, x: int32)
    requires Moderate(rice, x) && x < 0x400_0000
    ensures UpdateRice(rice, x).ksum < 0x8000_0000
  {
    hide UpdateRice;
    SumMoves(rice, x);
  }

  // ---------------------------------------------------------------- the parameter

  /** k stays if the sum is between 2^(k+4) and 2^(k+5), and is one nearer to that otherwise; 0 always becomes 1. */
  lemma ParameterFollows(rice: Rice, x: int32)
    requires rice.k <= 26
    ensures var after := UpdateRice(rice, x);
            && (rice.k == 0 ==> after.k == 1)
            && (rice.k > 0 && Pow2(rice.k + 4) <= after.ksum < Pow2(rice.k + 5) ==> after.k == rice.k)
            && (rice.k > 0 && after.ksum < Pow2(rice.k + 4) ==> after.k == rice.k - 1)
            && (rice.k > 0 && Pow2(rice.k + 5) <= after.ksum ==> after.k == rice.k + 1)
  {
    hide Pow2;
    Pow2Mono(rice.k + 5, 31);
    Pow2Next(rice.k + 4);
    Pow2Of31();
  }

  lemma Pow2Next(n: nat)
    ensures Pow2(n + 1) == 2 * Pow2(n)
  {
  }

  lemma Pow2Of31()
    ensures Pow2(31) == TWO31
  {
    Pow2Of27();
    assert Pow2(4) == 16;
    Pow2Add(27, 4);
  }
}
