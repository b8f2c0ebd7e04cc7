/** How much the metadata loses. What the comment above the logarithms of jni/wv/words.c promises (lines 705-707): a number
    stored as its logarithm comes back within one part in 225, but for 115 and 195, which are off by one. And weights. */
module LogAccuracy {
  import opened Machine
  import opened Arithmetic
  import opened Bits
  import opened WordsCoder
  import opened LogTables
  import opened Metadata

  // ---------------------------------------------------------------- the two tables

  /** The tables undo each other but for one, and that only for larger entries; below an even one only twice. */
  predicate Near(m: nat, x: nat) {
    x == m || (x == m + 1 && m >= 148) || (x + 1 == m && m >= 134 && (m % 2 == 1 || m == 134 || m == 204))
  }

  lemma TablesUndo(m: nat)
    requires m < 256
    ensures Near(m, Exp2Table(Log2Table(m)))
  {
    hide Log2Table, Exp2Table;
    if m < 64 {
      FirstQuarter(m);
    } else if m < 128 {
      SecondQuarter(m);
    } else if m < 192 {
      ThirdQuarter(m);
    } else {
      LastQuarter(m);
    }
  }

  lemma FirstQuarter(m: nat)
    requires m < 64
    ensures Near(m, Exp2Table(Log2Table(m)))
  {
  }

  lemma SecondQuarter(m: nat)
    requires 64 <= m < 128
    ensures Near(m, Exp2Table(Log2Table(m)))
  {
  }

  lemma ThirdQuarter(m: nat)
    requires 128 <= m < 192
    ensures Near(m, Exp2Table(Log2Table(m)))
  {
  }

  lemma LastQuarter(m: nat)
    requires 192 <= m < 256
    ensures Near(m, Exp2Table(Log2Table(m)))
  {
  }

  // ---------------------------------------------------------------- shifts

  lemma {:induction false} ShrIsQuotient(v: nat, k: nat)
    ensures Shr(v, k) == v / Pow2(k)
    decreases k
  {
    if k == 0 {
    } else {
      ShrIsQuotient(v / 2, k - 1);
      HalfFirst(v, Pow2(k - 1));
    }
  }

  lemma HalfFirst(v: nat, p: nat)
    requires p > 0
    ensures v / 2 / p == v / (2 * p)
  {
    var q, r := v / 2 / p, v / 2 % p;
    assert v / 2 == q * p + r && v == 2 * (v / 2) + v % 2;
    assert 2 * (q * p) == q * (2 * p) by { Twice(q, p); }
    Uniquely(v, q, 2 * r + v % 2, 2 * p);
  }

  // ---------------------------------------------------------------- small numbers

  /** Numbers below 256 come back exactly, or one less if they are 115, 195 or 230. */
  predicate Small(v: nat, e: int) {
    e == v || (e == v - 1 && (v == 115 || v == 195 || v == 230))
  }

  lemma SmallComesBack(v: nat)
    requires v < 256
    ensures Small(v, Exp2s(MyLog2(v)))
  {
    hide Log2Table, Exp2Table, BitLength, Shr, Wrap32, Shl, MyLog2, Exp2s;
    SmallLength(v);
    var d := BitLength(v);
    var m := Shl(v, 9 - d) % 256;
    TablesUndo(m);
    SmallLog(v);
    Exponential(d, Log2Table(m));
    SmallShift(v, d, m, Exp2Table(Log2Table(m)));
  }

  lemma SmallLog(v: nat)
    requires v < 256
    ensures BitLength(v) <= 8 && MyLog2(v) == BitLength(v) * 256 + Log2Table(Shl(v, 9 - BitLength(v)) % 256)
  {
    hide Log2Table, BitLength, Shl, CountBits;
    SmallLength(v);
    CountBitsIsLength(v);
    NothingAdded(v);
  }

  lemma NothingAdded(v: nat)
    requires v < 256
    ensures U32(v + v / 512) == v
  {
  }

  /** A power of two and a table entry. */
  lemma Exponential(d: nat, low: byte)
    ensures Exp2s(d * 256 + low)
            == Wrap32(if d <= 9 then Shr(256 + Exp2Table(low), 9 - d) else Shl(256 + Exp2Table(low), d - 9))
  {
    hide Exp2Table, Shr, Wrap32, Shl;
    SplitLog(d, low);
  }

  lemma SplitLog(d: nat, low: byte)
    ensures (d * 256 + low) / 256 == d && (d * 256 + low) % 256 == low
  {
  }

  lemma SmallShift(v: nat, d: nat, m: nat, x: nat)
    requires v < 256 && d == BitLength(v) <= 8 && m == Shl(v, 9 - d) % 256 && x < 256 && Near(m, x)
    ensures Small(v, Wrap32(Shr(256 + x, 9 - d)))
  {
    hide BitLength, Shr, Near;
    ShrIsQuotient(256 + x, 9 - d);
    SmallPowers();
    if v == 0 {
      NoLength();
      assert m == 0;
    } else {
      EightLengths(v, d);
    }
    hide Pow2;
    SmallCases(v, d, m, x);
  }

  lemma SmallPowers()
    ensures Pow2(0) == 1 && Pow2(1) == 2 && Pow2(2) == 4 && Pow2(3) == 8 && Pow2(4) == 16
    ensures Pow2(5) == 32 && Pow2(6) == 64 && Pow2(7) == 128 && Pow2(8) == 256 && Pow2(9) == 512
  {
  }

  lemma EightLengths(v: nat, d: nat)
    requires 0 < v < 256 && d == BitLength(v) <= 8
    ensures d > 0 && Pow2(d - 1) <= v < Pow2(d)
  {
  }

  lemma SmallCases(v: nat, d: nat, m: nat, x: nat)
    requires v < 256 && d <= 8 && m == v * Pow2(9 - d) % 256 && x < 256 && Near(m, x)
    requires if d == 0 then v == 0 && m == 0 else Pow2(d - 1) <= v < Pow2(d)
    ensures Small(v, Wrap32((256 + x) / Pow2(9 - d)))
  {
    hide Near, Wrap32, Small;
    SmallPowers();
    hide Pow2;
    var p := Pow2(9 - d);
    if d == 0 {
      ZeroCase(x);
    } else {
      assert 256 <= v * p < 512 by { InOctave(v, d); }
      EntryOff(v, p, m, x);
    }
  }

  lemma ZeroCase(x: nat)
    requires Near(0, x)
    ensures Small(0, Wrap32((256 + x) / 512))
  {
  }

  lemma InOctave(v: nat, d: nat)
    requires 1 <= d <= 8 && Pow2(d - 1) <= v < Pow2(d)
    ensures 256 <= v * Pow2(9 - d) < 512
  {
    SmallPowers();
    hide Pow2;
    Pow2Add(d - 1, 9 - d);
    Pow2Add(d, 9 - d);
    MulUp(Pow2(d - 1), v, Pow2(9 - d));
    MulUp(v + 1, Pow2(d), Pow2(9 - d));
    MulNext(v, Pow2(9 - d));
  }

  lemma EntryOff(v: nat, p: nat, m: nat, x: nat)
    requires p == 2 || p == 4 || p == 8 || p == 16 || p == 32 || p == 64 || p == 128 || p == 256
    requires 256 <= v * p < 512 && m == v * p % 256 && x < 256 && Near(m, x)
    ensures Small(v, Wrap32((256 + x) / p))
  {
    var s := x - m;
    assert 256 + x == v * p + s;
    if s >= 0 {
      Uniquely(256 + x, v, s, p);
    } else {
      MulNext(v - 1, p);
      Uniquely(256 + x, v - 1, p - 1, p);
      OddOnly(v, p);
    }
  }

  /** An even entry below which the tables are one off is that of 195, 230 or 115. */
  lemma OddOnly(v: nat, p: nat)
    requires p == 2 || p == 4 || p == 8 || p == 16 || p == 32 || p == 64 || p == 128 || p == 256
    ensures v * p % 2 == 0
    ensures v * p == 390 ==> v == 195
    ensures v * p == 460 ==> v == 230 || v == 115
  {
  }

  // ---------------------------------------------------------------- large numbers

  /** v and what is added to it before the logarithm is taken. */
  function Rounded(v: nat): nat {
    v + v / 512
  }

  /** Numbers from 256 on come back within one part in 225. */
  lemma LargeComesBack(v: nat)
    requires 256 <= Rounded(v) < TWO31
    ensures 225 * Abs(Exp2s(MyLog2(v)) - v) <= v
  {
    hide Log2Table, Exp2Table, BitLength, Shr, Wrap32, Shl, MyLog2, Exp2s, Rounded;
    var a := Rounded(v);
    LargeLog(v);
    var d := BitLength(a);
    var m := Shr(a, d - 9) % 256;
    TablesUndo(m);
    Exponential(d, Log2Table(m));
    var x := Exp2Table(Log2Table(m));
    ShrIsQuotient(a, d - 9);
    LargeShift(v, a, d, m, x);
  }

  lemma LargeLog(v: nat)
    requires 256 <= Rounded(v) < TWO31
    ensures var a := Rounded(v);
            BitLength(a) >= 9 && MyLog2(v) == BitLength(a) * 256 + Log2Table(Shr(a, BitLength(a) - 9) % 256)
  {
    hide Log2Table, BitLength, Shr, CountBits, Rounded;
    LargeLength(Rounded(v));
    CountBitsIsLength(Rounded(v));
    RoundedIs(v);
  }

  lemma RoundedIs(v: nat)
    requires Rounded(v) < TWO32
    ensures U32(v + v / 512) == Rounded(v)
  {
  }

  lemma LargeShift(v: nat, a: nat, d: nat, m: nat, x: nat)
    requires 256 <= a == Rounded(v) < TWO31 && d == BitLength(a) >= 9
    requires m == a / Pow2(d - 9) % 256 && x < 256 && Near(m, x)
    ensures 225 * Abs(Wrap32(if d <= 9 then Shr(256 + x, 9 - d) else Shl(256 + x, d - 9)) - v) <= v
  {
    hide BitLength, Shr, Near, Wrap32, Shl;
    var p := Pow2(d - 9);
    Leading(a, d);
    Fits(a, d, x);
    assert (if d <= 9 then Shr(256 + x, 9 - d) else Shl(256 + x, d - 9)) == (256 + x) * p by {
      ShiftIs(256 + x, d);
    }
    Difference(v, a, m, x, p);
  }

  lemma ShiftIs(y: nat, d: nat)
    requires d >= 9
    ensures (if d <= 9 then Shr(y, 9 - d) else Shl(y, d - 9)) == y * Pow2(d - 9)
  {
    assert Pow2(0) == 1;
  }

  /** The nine leading bits. */
  lemma Leading(a: nat, d: nat)
    requires d == BitLength(a) >= 9
    ensures var p, m := Pow2(d - 9), a / Pow2(d - 9) % 256; (256 + m) * p <= a < (257 + m) * p
  {
    hide BitLength, Pow2;
    var p := Pow2(d - 9);
    TopBit(a, d);
    QuotientBounds(a, p);
    var q := a / p;
    if q < 256 {
      MulUp(q + 1, 256, p);
      MulNext(q, p);
      assert false;
    }
    if q >= 512 {
      MulUp(512, q, p);
      assert false;
    }
    MulNext(q, p);
    assert q % 256 == q - 256;
  }

  lemma TopBit(a: nat, d: nat)
    requires d == BitLength(a) >= 9
    ensures 256 * Pow2(d - 9) <= a < 512 * Pow2(d - 9)
  {
    hide BitLength, Pow2;
    SmallPowers();
    NoLength();
    Pow2Add(8, d - 9);
    Pow2Add(9, d - 9);
  }

  lemma Fits(a: nat, d: nat, x: nat)
    requires a < TWO31 && d == BitLength(a) >= 9 && x < 256
    ensures 0 <= (256 + x) * Pow2(d - 9) < TWO31 && Wrap32((256 + x) * Pow2(d - 9)) == (256 + x) * Pow2(d - 9)
  {
    hide BitLength, Pow2;
    SmallPowers();
    Pow2Of31();
    BitLengthBound(a, 31);
    Pow2Add(9, d - 9);
    Pow2Mono(d, 31);
    MulUp(256 + x + 1, 512, Pow2(d - 9));
    MulNext(256 + x, Pow2(d - 9));
    MulUp(0, 256 + x, Pow2(d - 9));
  }

  lemma Pow2Of31()
    ensures Pow2(31) == TWO31
  {
    SmallPowers();
    Pow2Add(8, 8);
    Pow2Add(16, 8);
    Pow2Add(24, 7);
  }

  /** Cutting off the low bits, adding v / 512 and an entry that is one off make no more than a 225th together. */
  lemma Difference(v: nat, a: nat, m: nat, x: nat, p: nat)
    requires a == Rounded(v) && p > 0 && m < 256 && Near(m, x)
    requires (256 + m) * p <= a < (257 + m) * p
    ensures 225 * Abs((256 + x) * p - v) <= v
  {
    var y := (256 + m) * p;
    assert (257 + m) * p == y + p by { MulNext(256 + m, p); }
    assert 512 * a <= 513 * v <= 512 * a + 511;
    assert (256 + x) * p == y + (x - m) * p by { Apart(256 + x, 256 + m, p); }
    if x == m + 1 {
      assert y >= 404 * p by { MulUp(404, 256 + m, p); }
    } else if x == m {
      assert y >= 256 * p by { MulUp(256, 256 + m, p); }
    } else {
      assert y >= 390 * p by { MulUp(390, 256 + m, p); }
    }
    Bounded(v, a, y, x - m, p);
  }

  lemma Apart(x: int, y: int, p: int)
    ensures x * p == y * p + (x - y) * p
  {
  }

  lemma Bounded(v: nat, a: nat, y: nat, s: int, p: nat)
    requires y <= a < y + p && 512 * a <= 513 * v <= 512 * a + 511
    requires (s == 0 && y >= 256 * p) || (s == 1 && y >= 404 * p) || (s == -1 && y >= 390 * p)
    ensures 225 * Abs(y + s * p - v) <= v
  {
  }

  // ---------------------------------------------------------------- any number

  /** Numbers whose logarithm is that of 2^31. */
  lemma LimitComesBack(v: nat)
    requires TWO31 <= Rounded(v) && v <= TWO31
    ensures Exp2s(MyLog2(v)) == -TWO31
  {
    hide Log2Table, Exp2Table, BitLength, Shr, Wrap32, Shl, MyLog2, Exp2s;
    LimitLog(v);
    Exponential(32, 0);
    FirstEntries();
    LimitWraps();
  }

  lemma LimitLog(v: nat)
    requires TWO31 <= Rounded(v) && v <= TWO31
    ensures MyLog2(v) == 32 * 256 + Log2Table(0)
  {
    hide Log2Table, BitLength, Shr, Pow2, CountBits;
    var a := Rounded(v);
    RoundedIs(v);
    CountBitsIsLength(a);
    Pow2Of31();
    assert Pow2(32) == 2 * Pow2(31) by { Doubles(31); }
    BitLengthUnique(a, 32);
    ShrIsQuotient(a, 23);
    Pow2Of23();
  }

  lemma Doubles(n: nat)
    ensures Pow2(n + 1) == 2 * Pow2(n)
  {
  }

  lemma Pow2Of23()
    ensures Pow2(23) == 0x80_0000
  {
    SmallPowers();
    Pow2Add(8, 8);
    Pow2Add(16, 7);
  }

  lemma FirstEntries()
    ensures Log2Table(0) == 0 && Exp2Table(0) == 0
  {
  }

  lemma LimitWraps()
    ensures Wrap32(Shl(256, 23)) == -TWO31
  {
    hide Pow2;
    Pow2Of23();
  }

  lemma Opposite(log: nat)
    ensures Exp2s(0 - log) == Wrap32(0 - Exp2s(log))
  {
    if log == 0 {
      NothingComesBack();
    } else {
      hide Exp2Table, Shl, Shr, Wrap32;
    }
  }

  lemma NothingComesBack()
    ensures Exp2s(0) == 0
  {
    hide Exp2Table, Shr, Pow2;
    FirstEntries();
    ShrIsQuotient(256, 9);
    SmallPowers();
  }

  /** The least number whose logarithm is that of 2^31. */
  const TOO_LARGE := 2143297521

  lemma LimitIs(v: nat)
    ensures Rounded(v) >= TWO31 <==> v >= TOO_LARGE
  {
  }

  /** A number that is stored and restored: within one part in 225, or off by one for 115 and 195. The largest, two in a
      thousand, are taken for 2^31, which is restored as a negative number whatever the sign was. */
  lemma NumberComesBack(v: int32)
    ensures var e := Exp2s(Log2s(v));
            if Abs(v) >= TOO_LARGE then e == -TWO31
            else if Abs(v) == 115 || Abs(v) == 195 then Abs(e - v) == 1
            else 225 * Abs(e - v) <= Abs(v)
  {
    hide MyLog2, Exp2s, Wrap32, Rounded;
    var n := Abs(v);
    LimitIs(n);
    if Rounded(n) >= TWO31 {
      LimitComesBack(n);
    } else {
      SizeComesBack(n);
    }
    Signs(v);
    LimitWrapsBack();
  }

  /** For which two numbers it is off by one. */
  lemma SizeComesBack(n: nat)
    requires Rounded(n) < TWO31
    ensures var e := Exp2s(MyLog2(n));
            0 <= e < TWO31 && (if n == 115 || n == 195 then e == n - 1 else 225 * Abs(e - n) <= n)
  {
    hide MyLog2, Exp2s;
    if n < 256 {
      SmallComesBack(n);
      hide Rounded;
      TwoNumbers();
    } else {
      LargeComesBack(n);
    }
  }

  lemma TwoNumbers()
    ensures Exp2s(MyLog2(115)) == 114 && Exp2s(MyLog2(195)) == 194
  {
    hide Log2Table, Exp2Table, BitLength, Shr, MyLog2, Exp2s;
    SmallPowers();
    TwoEntries();
    BitLengthUnique(115, 7);
    BitLengthUnique(195, 8);
    SmallLog(115);
    SmallLog(195);
    Exponential(7, Log2Table(204));
    Exponential(8, Log2Table(134));
    ShrIsQuotient(256 + 203, 2);
    ShrIsQuotient(256 + 133, 1);
  }

  lemma TwoEntries()
    ensures Exp2Table(Log2Table(204)) == 203 && Exp2Table(Log2Table(134)) == 133
  {
  }

  lemma Signs(v: int32)
    ensures Exp2s(Log2s(v)) == if v < 0 then Wrap32(0 - Exp2s(MyLog2(Abs(v)))) else Exp2s(MyLog2(v))
  {
    hide MyLog2, Exp2s, Wrap32;
    if v < 0 {
      Opposite(MyLog2(Abs(v)));
    }
  }

  lemma LimitWrapsBack()
    ensures Wrap32(TWO31) == -TWO31
  {
  }

  // ---------------------------------------------------------------- weights

  /** A byte stands for eight times itself if it is not positive, otherwise for 129 128ths of that to the nearest integer,
      halves up: so 127 stands for 1024. */
  lemma ByteStandsFor(b: int)
    requires -128 <= b <= 127
    ensures if b <= 0 then RestoreWeight(b) == 8 * b
            else -64 < 128 * RestoreWeight(b) - 129 * 8 * b <= 64
  {
  }

  /** A weight comes back within five of itself, clipped to 1024 before; none, and the largest, exactly. */
  lemma WeightComesBack(w: int16)
    ensures var clipped := if w > 1024 then 1024 else if w < -1024 then -1024 else w;
            var r := RestoreWeight(StoreWeight(w));
            && Abs(r - clipped) <= 5 && Abs(r) <= 1024
            && (clipped == 0 || Abs(clipped) == 1024 ==> r == clipped)
  {
  }
}
