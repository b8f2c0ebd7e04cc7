/** Bit strings, least significant bit first, and the numbers they stand for. */
module Bits {

  function Pow2(n: nat): (p: nat)
    ensures p >= 1
  {
    if n == 0 then 1 else 2 * Pow2(n - 1)
  }

  function Bit(b: bool): nat {
    if b then 1 else 0
  }

  /** The value of a bit string. */
  function FromBits(s: seq<bool>): (v: nat)
    ensures v < Pow2(|s|)
  {
    if s == [] then 0 else Bit(s[0]) + 2 * FromBits(s[1..])
  }

  /** The n low bits of v. */
  function ToBits(v: nat, n: nat): (s: seq<bool>)
    ensures |s| == n
  {
    if n == 0 then [] else [v % 2 == 1] + ToBits(v / 2, n - 1)
  }

  /** n one bits. */
  function Ones(n: nat): (s: seq<bool>)
    ensures |s| == n
    ensures forall i :: 0 <= i < n ==> s[i]
  {
    seq(n, i => true)
  }

  lemma {:induction false} Pow2Add(a: nat, b: nat)
    ensures Pow2(a + b) == Pow2(a) * Pow2(b)
  {
    if a == 0 {
    } else {
      Pow2Add(a - 1, b);
      calc {
        Pow2(a + b);
        2 * Pow2(a - 1 + b);
        2 * (Pow2(a - 1) * Pow2(b));
        Pow2(a) * Pow2(b);
      }
    }
  }

  lemma {:induction false} Pow2Mono(a: nat, b: nat)
    requires a <= b
    ensures Pow2(a) <= Pow2(b)
    decreases b
  {
    if a < b {
      Pow2Mono(a, b - 1);
    }
  }

  lemma {:induction false} FromToBits(v: nat, n: nat)
    requires v < Pow2(n)
    ensures FromBits(ToBits(v, n)) == v
  {
    if n == 0 {
    } else {
      FromToBits(v / 2, n - 1);
      assert ToBits(v, n)[1..] == ToBits(v / 2, n - 1);
    }
  }

  lemma {:induction false} ToFromBits(s: seq<bool>)
    ensures ToBits(FromBits(s), |s|) == s
  {
    if s == [] {
    } else {
      ToFromBits(s[1..]);
      assert s == [s[0]] + s[1..];
    }
  }

  lemma {:induction false} FromBitsConcat(a: seq<bool>, b: seq<bool>)
    ensures FromBits(a + b) == FromBits(a) + Pow2(|a|) * FromBits(b)
  {
    if a == [] {
      assert a + b == b;
    } else {
      FromBitsConcat(a[1..], b);
      assert (a + b)[1..] == a[1..] + b;
      ShiftMul(Pow2(|a| - 1), FromBits(b));
    }
  }

  lemma ShiftMul(p: int, v: int)
    ensures 2 * (p * v) == (2 * p) * v
  {
  }

  /** `v << k`. */
  function Shl(v: nat, k: nat): nat {
    v * Pow2(k)
  }

  /** `v >> k`. */
  function Shr(v: nat, k: nat): nat
    decreases k
  {
    if k == 0 then v else Shr(v / 2, k - 1)
  }

  /** Shifting right drops the low bits. */
  lemma {:induction false} ShrDropsBits(v: nat, n: nat, k: nat)
    requires k <= n && v < Pow2(n)
    ensures Shr(v, k) < Pow2(n - k)
    ensures ToBits(v, n)[k..] == ToBits(Shr(v, k), n - k)
    decreases k
  {
    if k == 0 {
    } else {
      ShrDropsBits(v / 2, n - 1, k - 1);
      assert ToBits(v, n)[k..] == ToBits(v / 2, n - 1)[k - 1..];
    }
  }

  /** The first k of n bits are the k low bits. */
  lemma {:induction false} LowBitsFirst(v: nat, n: nat, k: nat)
    requires k <= n
    ensures ToBits(v, n)[..k] == ToBits(v, k)
    decreases k
  {
    if k == 0 {
    } else {
      LowBitsFirst(v / 2, n - 1, k - 1);
    }
  }

  /** Only v modulo 2^k matters for the k low bits. */
  lemma {:induction false} LowBitsMod(v: nat, x: nat, k: nat)
    ensures ToBits(v + x * Pow2(k), k) == ToBits(v, k)
    decreases k
  {
    if k == 0 {
    } else {
      var p := Pow2(k - 1);
      assert x * Pow2(k) == 2 * (x * p) by { ShiftMul2(x, p); }
      assert (v + 2 * (x * p)) / 2 == v / 2 + x * p;
      LowBitsMod(v / 2, x, k - 1);
    }
  }

  lemma ShiftMul2(x: int, p: int)
    ensures x * (2 * p) == 2 * (x * p)
  {
  }

  /** The number of bits needed to write v; 0 for 0. */
  function BitLength(v: nat): (n: nat)
    ensures v < Pow2(n)
    ensures v > 0 ==> n > 0 && Pow2(n - 1) <= v
  {
    if v == 0 then 0 else 1 + BitLength(v / 2)
  }

  lemma OneBitFits()
    ensures Pow2(1) == 2
  {
  }

  lemma NoLength()
    ensures BitLength(0) == 0
  {
  }

  lemma {:induction false} BitLengthUnique(v: nat, n: nat)
    requires v < Pow2(n)
    requires n > 0 ==> Pow2(n - 1) <= v
    ensures BitLength(v) == n
  {
    if n == 0 {
    } else {
      BitLengthUnique(v / 2, n - 1);
    }
  }

  lemma {:induction false} BitLengthBound(v: nat, n: nat)
    requires v < Pow2(n)
    ensures BitLength(v) <= n
  {
    if v == 0 {
    } else {
      BitLengthBound(v / 2, n - 1);
    }
  }
}
