/** `struct words_data` and the functions of jni/wv/words.c that update it, proved against the state
    machines of module WordSpec. */
module WordsCoder {
  import opened Machine
  import opened Bits
  import opened BitIO
  import opened WordSpec

  // ---------------------------------------------------------------- tables

  /** The count_bits macro; entry i of nbits_table is the bit length of i. */
  function CountBits(av: u32): nat {
    if av < 0x100 then BitLength(av)
    else if av < 0x1_0000 then BitLength(av / 0x100) + 8
    else if av < 0x100_0000 then BitLength(av / 0x1_0000) + 16
    else BitLength(av / 0x100_0000) + 24
  }

  /** The macro's four table look-ups all give the bit length. */
  lemma CountBitsIsLength(av: u32)
    ensures CountBits(av) == BitLength(av) <= 32
  {
    hide BitLength;
    BitLengthBound(av, 32) by { Pow2Of32(); }
    if av >= 0x100 {
      BitLengthShift(av);
      if av >= 0x1_0000 {
        BitLengthShift(av / 0x100);
        assert av / 0x100 / 0x100 == av / 0x1_0000;
        if av >= 0x100_0000 {
          BitLengthShift(av / 0x1_0000);
          assert av / 0x1_0000 / 0x100 == av / 0x100_0000;
        }
      }
    }
  }

  lemma BitLengthShift(v: nat)
    requires v >= 0x100
    ensures BitLength(v) == BitLength(v / 0x100) + 8
  {
    hide BitLength, Pow2;
    var q := v / 0x100;
    var n := BitLength(q);
    Pow2Of8();
    Pow2Add(8, n);
    Pow2Add(8, n - 1);
    assert v == 0x100 * q + v % 0x100;
    BitLengthUnique(v, n + 8);
  }

  /** ones_count_table: the trailing one bits of a byte. */
  function TrailingOnes(b: nat): nat {
    if b % 2 == 0 then 0 else 1 + TrailingOnes(b / 2)
  }

  lemma {:induction false} TrailingOnesStop(b: nat, n: nat)
    requires b < Pow2(n) - 1
    ensures TrailingOnes(b) < n
    ensures ToBits(b, n)[..TrailingOnes(b) + 1] == Ones(TrailingOnes(b)) + [false]
  {
    if b % 2 == 1 {
      TrailingOnesStop(b / 2, n - 1);
      var t := TrailingOnes(b / 2);
      assert ToBits(b, n)[..t + 2] == [true] + ToBits(b / 2, n - 1)[..t + 1];
      assert [true] + Ones(t) == Ones(t + 1);
    } else {
      assert n > 0;
    }
  }

  // ---------------------------------------------------------------- reading by bytes

  lemma {:induction false} GetBitsTakes(s: seq<bool>, n: nat)
    ensures WordSpec.GetBits(s, n) == (FromBits(Extend(s, n)), Drop(s, n))
    decreases n
  {
    if n == 0 {
    } else {
      var (b, s1) := WordSpec.GetBit(s);
      GetBitsTakes(s1, n - 1);
      assert Extend(s, n) == [b] + Extend(s1, n - 1);
      assert Drop(s, n) == Drop(s1, n - 1);
    }
  }

  lemma {:induction false} UnaryOnes(s: seq<bool>, k: nat, limit: nat)
    requires k <= limit && Extend(s, k) == Ones(k)
    ensures Unary(s, limit) == (k + Unary(Drop(s, k), limit - k).0, Unary(Drop(s, k), limit - k).1)
    decreases k
  {
    hide Unary, Extend, Drop;
    if k == 0 {
      TakeNone(s);
    } else {
      TakeFront(s, k);
      assert Extend(s, 1) == Extend(s, k)[..1] == [true];
      assert Extend(Drop(s, 1), k - 1) == Extend(s, k)[1..] == Ones(k - 1);
      UnaryStep(s, limit);
      UnaryOnes(Drop(s, 1), k - 1, limit - 1);
    }
  }

  lemma TakeFront(s: seq<bool>, k: nat)
    requires k > 0
    ensures Extend(s, k) == Extend(s, 1) + Extend(Drop(s, 1), k - 1)
    ensures Drop(s, k) == Drop(Drop(s, 1), k - 1)
  {
  }

  lemma UnaryZero(s: seq<bool>, t: nat, limit: nat)
    requires t < limit && Extend(s, t + 1) == Ones(t) + [false]
    ensures Unary(s, limit) == (t, Drop(s, t + 1))
  {
    assert Extend(s, t) == Extend(s, t + 1)[..t];
    UnaryOnes(s, t, limit);
    assert Extend(s, t + 1)[t] == false;
    assert t < |s|;
    assert Drop(s, t)[0] == s[t] == false;
    assert Drop(s, t)[1..] == Drop(s, t + 1);
  }

  /** The table lookup on the next eight bits counts like getbit by getbit. */
  lemma UnaryByte(s: seq<bool>, next8: byte)
    requires ToBits(next8, 8) == Extend(s, 8)
    ensures next8 == 255 ==> Unary(s, 17) == (8 + Unary(Drop(s, 8), 9).0, Unary(Drop(s, 8), 9).1)
    ensures next8 != 255 ==> var t := TrailingOnes(next8); t < 8 && Unary(s, 17) == (t, Drop(s, t + 1))
  {
    hide ToBits, Unary, TrailingOnes;
    if next8 == 255 {
      OnesByte();
      assert Extend(s, 8) == Ones(8);
      UnaryOnes(s, 8, 17);
    } else {
      Pow2Of8();
      TrailingOnesStop(next8, 8);
      var t := TrailingOnes(next8);
      assert Extend(s, t + 1) == Extend(s, 8)[..t + 1];
      UnaryZero(s, t, 17);
    }
  }

  /** `value & ((1 << n) - 1)`. */
  function Mask(value: nat, n: nat): nat {
    FromBits(ToBits(value, n))
  }

  // ---------------------------------------------------------------- words_data

  class WordsData {
    var pendData: u32
    var pendCount: nat
    var holdingOne: u32
    var zerosAcc: u32
    var holdingZero: bool
    var c0: Entropy
    var c1: Entropy

    ghost predicate Valid()
      reads this
    {
      pendCount <= 29 && pendData < Pow2(pendCount)
    }

    /** The encoder's reading of the fields. */
    ghost function EncView(): Enc
      reads this
    {
      Enc(zerosAcc, holdingOne, holdingZero, ToBits(pendData, pendCount), c0, c1)
    }

    /** The decoder's. */
    ghost function DecView(): Dec
      reads this
    {
      Dec(zerosAcc, holdingOne == 1, holdingZero, c0, c1)
    }

    /** `init_words` followed by the medians of a block. */
    constructor (m0: Entropy, m1: Entropy)
      ensures Valid() && EncView() == Enc(0, 0, false, [], m0, m1)
      ensures DecView() == Dec(0, false, false, m0, m1) && holdingOne == 0
    {
      pendData, pendCount, holdingOne, zerosAcc, holdingZero := 0, 0, 0, 0, false;
      c0, c1 := m0, m1;
      new;
      NoBits(0);
    }

    // -------------------------------------------------------------- encoder

    /** `while (cbits--) putbit_1`. */
    static method PutOnes(n: nat, bs: BitWriter)
      requires bs.Valid()
      modifies bs, bs.buf
      ensures bs.Valid() && bs.Written() == old(bs.Written()) + Ones(n)
      ensures forall i :: 0 <= i < bs.buf.Length && !(bs.base <= i < bs.end) ==> bs.buf[i] == old(bs.buf[i])
    {
      ghost var w := bs.Written();
      assert w + Ones(0) == w;
      for sent := 0 to n
        invariant bs.Valid() && bs.Written() == w + Ones(sent)
        invariant forall i :: 0 <= i < bs.buf.Length && !(bs.base <= i < bs.end) ==> bs.buf[i] == old(bs.buf[i])
      {
        bs.PutBit(true);
        assert w + Ones(sent) + [true] == w + Ones(sent + 1);
      }
    }

    /** The length-prefixed count of flush_word, lines 639-650 and 659-670. */
    static method PutGamma(count: u32, bs: BitWriter)
      requires bs.Valid()
      modifies bs, bs.buf
      ensures bs.Valid() && bs.Written() == old(bs.Written()) + GammaBits(count)
      ensures forall i :: 0 <= i < bs.buf.Length && !(bs.base <= i < bs.end) ==> bs.buf[i] == old(bs.buf[i])
    {
      hide ToBits, BitLength, Pow2, BitWriter.Valid, BitWriter.Written;
      CountBitsIsLength(count);
      ghost var w := bs.Written();
      PutOnes(CountBits(count), bs);
      bs.PutBit(false);
      var k: nat := count;
      ghost var target := w + GammaBits(count);
      assert bs.Written() + LowGamma(k) == target;
      while k > 1
        invariant bs.Valid() && bs.Written() + LowGamma(k) == target
        invariant forall i :: 0 <= i < bs.buf.Length && !(bs.base <= i < bs.end) ==> bs.buf[i] == old(bs.buf[i])
      {
        LowGammaStep(k);
        assert bs.Written() + ([k % 2 == 1] + LowGamma(k / 2)) == bs.Written() + [k % 2 == 1] + LowGamma(k / 2);
        bs.PutBit(k % 2 == 1);
        k := k / 2;
      }
      LowGammaEnd(k);
      assert bs.Written() + [] == bs.Written();
    }

    /** `flush_word`. */
    method FlushWord(bs: BitWriter)
      requires Valid() && bs.Valid()
      modifies this, bs, bs.buf
      ensures Valid() && EncView() == Flushed(old(EncView())) && pendCount == 0
      ensures bs.Valid() && bs.Written() == old(bs.Written()) + FlushBits(old(EncView()))
      ensures forall i :: 0 <= i < bs.buf.Length && !(bs.base <= i < bs.end) ==> bs.buf[i] == old(bs.buf[i])
    {
      hide ToBits, GammaBits, Pow2, HeldBits, BitWriter.Valid, BitWriter.Written;
      ghost var w, e := bs.Written(), EncView();
      ghost var zs := if e.zeros > 0 then GammaBits(e.zeros) else [];
      if zerosAcc > 0 {
        PutGamma(zerosAcc, bs);
        zerosAcc := 0;
      }
      assert bs.Written() == w + zs;
      SendHeldOnes(bs);
      ghost var os := HeldBits(e.one, e.zero);
      SendPending(bs);
      HeldBitsOf(e);
      assert w + zs + os + e.pend == w + (zs + os + e.pend);
    }

    /** The middle of flush_word: the ones count of the waiting word. */
    method SendHeldOnes(bs: BitWriter)
      requires bs.Valid()
      modifies this`holdingOne, this`holdingZero, bs, bs.buf
      ensures holdingOne == 0 && !holdingZero
      ensures bs.Valid() && bs.Written() == old(bs.Written()) + HeldBits(old(holdingOne), old(holdingZero))
      ensures forall i :: 0 <= i < bs.buf.Length && !(bs.base <= i < bs.end) ==> bs.buf[i] == old(bs.buf[i])
    {
      hide ToBits, GammaBits, Pow2, BitWriter.Valid, BitWriter.Written;
      ghost var w, n, zero := bs.Written(), holdingOne, holdingZero;
      if holdingOne > 0 {
        if holdingOne >= LIMIT_ONES {
          SixteenOnes();
          bs.PutBits(0xffff, LIMIT_ONES + 1);
          PutGamma(holdingOne - LIMIT_ONES, bs);
          assert w + (Ones(16) + [false]) + GammaBits(n - LIMIT_ONES) == w + HeldBits(n, zero);
          holdingZero := false;
        } else {
          OnesValue(holdingOne);
          bs.PutBits(Pow2(holdingOne) - 1, holdingOne);
          assert w + Ones(n) + (if zero then [false] else []) == w + HeldBits(n, zero);
        }
        holdingOne := 0;
      } else {
        assert w + (if zero then [false] else []) == w + HeldBits(0, zero);
      }
      assert bs.Written() + [] == bs.Written();
      if holdingZero {
        bs.PutBit(false);
        holdingZero := false;
      }
    }

    /** The end of flush_word: pend_count bits of pend_data, the first of them one by one. */
    method SendPending(bs: BitWriter)
      requires Valid() && bs.Valid()
      modifies this`pendData, this`pendCount, bs, bs.buf
      ensures Valid() && pendCount == 0 && ToBits(pendData, pendCount) == []
      ensures bs.Valid() && bs.Written() == old(bs.Written()) + old(ToBits(pendData, pendCount))
      ensures forall i :: 0 <= i < bs.buf.Length && !(bs.base <= i < bs.end) ==> bs.buf[i] == old(bs.buf[i])
    {
      hide ToBits, Pow2, BitWriter.Valid, BitWriter.Written;
      ghost var target := bs.Written() + ToBits(pendData, pendCount);
      if pendCount > 0 {
        while pendCount > 24
          invariant Valid() && bs.Valid()
          invariant bs.Written() + ToBits(pendData, pendCount) == target
          invariant forall i :: 0 <= i < bs.buf.Length && !(bs.base <= i < bs.end) ==> bs.buf[i] == old(bs.buf[i])
        {
          FirstBit(pendData, pendCount);
          ghost var b, more := pendData % 2 == 1, ToBits(pendData / 2, pendCount - 1);
          assert bs.Written() + ([b] + more) == bs.Written() + [b] + more;
          bs.PutBit(pendData % 2 == 1);
          pendData := pendData / 2;
          pendCount := pendCount - 1;
        }
        bs.PutBits(pendData, pendCount);
        pendData, pendCount := 0, 0;
      }
      NoBits(pendData);
      assert bs.Written() + [] == bs.Written();
    }

    /** `pend_data |= value << pend_count; pend_count += n`. */
    method Pend(value: nat, n: nat)
      requires Valid() && value < Pow2(n) && pendCount + n <= 29
      modifies this`pendData, this`pendCount
      ensures Valid() && pendCount == old(pendCount) + n
      ensures ToBits(pendData, pendCount) == old(ToBits(pendData, pendCount)) + ToBits(value, n)
    {
      hide ToBits, Pow2, Bits.Shl, BitWriter.Valid, BitWriter.Written;
      QueueBits(pendData, pendCount, value, n);
      Pow2Mono(pendCount + n, 31);
      Pow2Of31();
      pendData := pendData + Bits.Shl(value, pendCount);
      pendCount := pendCount + n;
    }

    /** Lines 607-623 of words.c: remainder and sign. */
    method PendBody(code: nat, maxcode: nat, negative: bool)
      requires Valid() && pendCount == 0 && code <= maxcode < 0x1000_0000
      modifies this`pendData, this`pendCount
      ensures Valid()
      ensures ToBits(pendData, pendCount) == CodeBits(code, maxcode) + [negative]
    {
      hide ToBits, Pow2, BitLength, Extras;
      NoBits(pendData);
      if maxcode != 0 {
        CountBitsIsLength(maxcode);
        CodeFits(code, maxcode);
        var bitcount := CountBits(maxcode);
        var extras := Extras(maxcode);
        if code < extras {
          Pend(code, bitcount - 1);
        } else {
          Pend((code + extras) / 2, bitcount - 1);
          Pend((code + extras) % 2, 1);
          OneBit((code + extras) % 2 == 1);
        }
      } else {
        NoCode(code);
      }
      assert ToBits(pendData, pendCount) == CodeBits(code, maxcode);
      OneBit(negative);
      OneBitFits();
      Pend(Bit(negative), 1);
    }

    function Channel(ch: nat): Entropy
      reads this
    {
      if ch == 0 then c0 else c1
    }

    method SetChannel(ch: nat, c: Entropy)
      modifies this`c0, this`c1
      ensures ch == 0 ==> c0 == c && c1 == old(c1)
      ensures ch != 0 ==> c1 == c && c0 == old(c0)
    {
      if ch == 0 { c0 := c; } else { c1 := c; }
    }

    /** Lines 557-587 of words.c: the zone of a magnitude, found with the medians adapting on the way. */
    static method ChooseZone(c: Entropy, value: nat) returns (ones: u32, low: u32, high: u32, next: Entropy)
      requires value < TWO31
      ensures ones == OnesCount(c, value) && next == Adapt(c, ones)
      ensures low == ZoneLow(c, ones) && high == low + ZoneSpan(c, ones)
      ensures low <= value <= high && high - low < 0x1000_0000
    {
      hide IncMed, DecMed, GetMed;
      next := c;
      if value < GetMed(next.m0) {
        ones, low := 0, 0;
        high := GetMed(next.m0) - 1;
        next := next.(m0 := DecMed(next.m0, DIV0));
      } else {
        low := GetMed(next.m0);
        next := next.(m0 := IncMed(next.m0, DIV0));
        if value - low < GetMed(next.m1) {
          ones := 1;
          high := low + GetMed(next.m1) - 1;
          next := next.(m1 := DecMed(next.m1, DIV1));
        } else {
          low := low + GetMed(next.m1);
          next := next.(m1 := IncMed(next.m1, DIV1));
          if value - low < GetMed(next.m2) {
            ones := 2;
            assert (ones - 2) * GetMed(next.m2) == 0;
            high := low + GetMed(next.m2) - 1;
            next := next.(m2 := DecMed(next.m2, DIV2));
          } else {
            LastZone(GetMed(c.m0), GetMed(c.m1), GetMed(c.m2), value);
            ones := 2 + (value - low) / GetMed(next.m2);
            low := U32(low + (ones - 2) * GetMed(next.m2));
            high := low + GetMed(next.m2) - 1;
            next := next.(m2 := IncMed(next.m2, DIV2));
          }
        }
      }
    }

    /** Lines 554-626 of words.c. */
    method PutWord(ch: nat, value: int32, bs: BitWriter)
      requires Valid() && bs.Valid()
      requires !holdingZero ==> pendCount == 0
      modifies this, bs, bs.buf
      ensures Valid() && bs.Valid()
      ensures var (e, bits) := WordSpec.PutWord(old(EncView()), ch, value);
              EncView() == e && bs.Written() == old(bs.Written()) + bits
      ensures !holdingZero ==> pendCount == 0
      ensures forall i :: 0 <= i < bs.buf.Length && !(bs.base <= i < bs.end) ==> bs.buf[i] == old(bs.buf[i])
    {
      hide ToBits, Pow2, GammaBits, CodeBits, FlushBits, ZoneLow, ZoneSpan, Adapt, OnesCount, BitWriter.Valid, BitWriter.Written;
      ghost var w, e := bs.Written(), EncView();
      NoBits(pendData);
      var c := Channel(ch);
      var ones, low, high, next := ChooseZone(c, Magnitude(value));
      SetChannel(ch, next);
      if holdingZero {
        if ones > 0 {
          holdingOne := U32(holdingOne + 1);
        }
        FlushWord(bs);
        if ones > 0 {
          holdingZero := true;
          ones := ones - 1;
        } else {
          holdingZero := false;
        }
      } else {
        holdingZero := true;
      }
      holdingOne := U32(ones * 2);
      PendBody(Magnitude(value) - low, high - low, value < 0);
      if !holdingZero {
        FlushWord(bs);
      }
      assert [] + BodyBits(c, value) == BodyBits(c, value);
      assert w + [] == w;
    }

    /** `send_words`. */
    method SendWords(buffer: seq<int32>, mono: bool, bs: BitWriter)
      requires Valid() && bs.Valid()
      requires !holdingZero ==> pendCount == 0
      modifies this, bs, bs.buf
      ensures Valid() && bs.Valid()
      ensures var (e, bits) := WordSpec.SendWords(old(EncView()), mono, 0, buffer);
              EncView() == e && bs.Written() == old(bs.Written()) + bits
      ensures !holdingZero ==> pendCount == 0
      ensures forall i :: 0 <= i < bs.buf.Length && !(bs.base <= i < bs.end) ==> bs.buf[i] == old(bs.buf[i])
    {
      hide ToBits, Pow2, SendStep, BitWriter.Valid, BitWriter.Written;
      var n := 0;
      ghost var e0, w := EncView(), bs.Written();
      ghost var all := WordSpec.SendWords(e0, mono, 0, buffer);
      assert buffer[0..] == buffer;
      while n < |buffer|
        invariant 0 <= n <= |buffer|
        invariant Valid() && bs.Valid()
        invariant !holdingZero ==> pendCount == 0
        invariant var (e, bits) := WordSpec.SendWords(EncView(), mono, n, buffer[n..]);
                  e == all.0 && bs.Written() + bits == w + all.1
        invariant forall i :: 0 <= i < bs.buf.Length && !(bs.base <= i < bs.end) ==> bs.buf[i] == old(bs.buf[i])
      {
        assert buffer[n..][1..] == buffer[n + 1..];
        ghost var step := SendStep(EncView(), Chan(mono, n), buffer[n]);
        ghost var more := WordSpec.SendWords(step.0, mono, n + 1, buffer[n + 1..]);
        assert bs.Written() + (step.1 + more.1) == bs.Written() + step.1 + more.1;
        SendOne(Chan(mono, n), buffer[n], bs);
        n := n + 1;
      }
      assert bs.Written() + [] == bs.Written();
    }

    /** One turn of the loop of `send_words`. */
    method SendOne(ch: nat, value: int32, bs: BitWriter)
      requires Valid() && bs.Valid()
      requires !holdingZero ==> pendCount == 0
      modifies this, bs, bs.buf
      ensures Valid() && bs.Valid()
      ensures var (e, bits) := SendStep(old(EncView()), ch, value);
              EncView() == e && bs.Written() == old(bs.Written()) + bits
      ensures !holdingZero ==> pendCount == 0
      ensures forall i :: 0 <= i < bs.buf.Length && !(bs.base <= i < bs.end) ==> bs.buf[i] == old(bs.buf[i])
    {
      hide ToBits, Pow2, WordSpec.PutWord, FlushBits, BitWriter.Valid, BitWriter.Written;
      ghost var w, e := bs.Written(), EncView();
      assert w + [] == w;
      if c0.m0 < 2 && !holdingZero && c1.m0 < 2 {
        if zerosAcc > 0 {
          if value != 0 {
            FlushWord(bs);
            ghost var bits := WordSpec.PutWord(Flushed(e), ch, value).1;
            assert w + (FlushBits(e) + bits) == w + FlushBits(e) + bits;
          } else {
            zerosAcc := U32(zerosAcc + 1);
            return;
          }
        } else if value != 0 {
          bs.PutBit(false);
          ghost var bits := WordSpec.PutWord(e, ch, value).1;
          assert w + ([false] + bits) == w + [false] + bits;
        } else {
          c0, c1 := ZERO_ENTROPY, ZERO_ENTROPY;
          zerosAcc := 1;
          return;
        }
      }
      PutWord(ch, value, bs);
    }

    // -------------------------------------------------------------- decoder

    /** Lines 351-364 and 404-417 of words.c; false at the end of the data. */
    static method ReadGamma(bs: BitReader) returns (ok: bool, count: u32)
      requires bs.Valid()
      modifies bs, bs.buf
      ensures bs.Valid()
      ensures WordSpec.ReadGamma(old(bs.rest)) == (if ok then Got(count, bs.rest) else Eof(bs.rest))
    {
      hide ToBits, Pow2, FromBits, Extend, Drop, Unary, WordSpec.GetBits, BitReader.Valid;
      var cbits := CountOnes(33, bs);
      if cbits == 33 {
        return false, 0;
      }
      ok := true;
      if cbits < 2 {
        count := cbits;
      } else {
        GetBitsTakes(bs.rest, cbits - 1);
        var low := CollectBits(cbits - 1, bs);
        count := U32(low + Pow2(cbits - 1));
      }
    }

    /** `for (mask = 1; n--; mask <<= 1) if (getbit (bs)) sum |= mask`. */
    static method CollectBits(n: nat, bs: BitReader) returns (sum: nat)
      requires bs.Valid()
      modifies bs, bs.buf
      ensures bs.Valid() && sum == FromBits(Extend(old(bs.rest), n)) && bs.rest == Drop(old(bs.rest), n)
    {
      hide ToBits, Pow2, FromBits, Extend, Drop, BitReader.Valid;
      ghost var s := bs.rest;
      sum := 0;
      TakeNone(s);
      for k := 0 to n
        invariant bs.Valid() && sum == FromBits(Extend(s, k)) && bs.rest == Drop(s, k)
      {
        var b := bs.GetBit();
        TakeOneMore(s, k);
        AppendBit(Extend(s, k), b);
        if b {
          sum := sum + Pow2(k);
        }
      }
    }

    /** `for (n = 0; n < limit && getbit (bs); ++n)`. */
    static method CountOnes(limit: nat, bs: BitReader) returns (n: nat)
      requires bs.Valid()
      modifies bs, bs.buf
      ensures bs.Valid() && n <= limit && Unary(old(bs.rest), limit) == (n, bs.rest)
    {
      hide Unary, Extend, Drop, BitReader.Valid;
      n := 0;
      ghost var all := Unary(bs.rest, limit);
      while n < limit
        invariant bs.Valid() && 0 <= n <= limit
        invariant all == (n + Unary(bs.rest, limit - n).0, Unary(bs.rest, limit - n).1)
      {
        UnaryStep(bs.rest, limit - n);
        var b := bs.GetBit();
        if !b {
          return;
        }
        n := n + 1;
      }
      UnaryStep(bs.rest, 0);
    }

    /** Lines 379-425 of words.c; false at the end of the data. */
    static method ReadOnes(bs: BitReader) returns (ok: bool, ones: u32)
      requires bs.Valid()
      modifies bs, bs.buf
      ensures bs.Valid()
      ensures WordSpec.ReadOnes(old(bs.rest)) == (if ok then Got(ones, bs.rest) else Eof(bs.rest))
    {
      hide ToBits, Pow2, Unary, WordSpec.ReadGamma, TrailingOnes, Extend, Drop, BitReader.Valid;
      ghost var s := bs.rest;
      var next8 := bs.Peek8();
      UnaryByte(s, next8);
      if next8 == 0xff {
        bs.Skip(8);
        var more := CountOnes(LIMIT_ONES + 1 - 8, bs);
        ones := 8 + more;
        if ones == LIMIT_ONES + 1 {
          return false, 0;
        }
        ok := true;
        if ones == LIMIT_ONES {
          var got, k := ReadGamma(bs);
          if !got {
            return false, 0;
          }
          ones := U32(k + LIMIT_ONES);
        }
      } else {
        ok, ones := true, TrailingOnes(next8);
        bs.Skip(ones + 1);
      }
    }

    /** `read_code`. */
    static method ReadCode(maxcode: nat, bs: BitReader) returns (code: nat)
      requires bs.Valid() && maxcode < 0x1000_0000
      modifies bs, bs.buf
      ensures bs.Valid() && WordSpec.ReadCode(old(bs.rest), maxcode) == (code, bs.rest)
    {
      hide ToBits, Pow2, FromBits, BitLength, Extras, Extend, Drop, WordSpec.GetBits, WordSpec.GetBit, BitReader.Valid;
      CountBitsIsLength(maxcode);
      NoLength();
      var bitcount := CountBits(maxcode);
      if bitcount == 0 {
        return 0;
      }
      CodeFits(0, maxcode);
      var extras := Extras(maxcode);
      GetBitsTakes(bs.rest, bitcount - 1);
      var value := bs.GetBits(bitcount - 1);
      code := Mask(value, bitcount - 1);
      if code >= extras {
        code := code * 2 - extras;
        ExtendOne(bs.rest);
        var b := bs.GetBit();
        if b {
          code := code + 1;
        }
      }
    }

    /** Lines 442-469 of words.c. */
    static method FindZone(c: Entropy, ones: u32) returns (low: u32, span: nat, next: Entropy)
      ensures low == ZoneLow(c, ones) && span == ZoneSpan(c, ones) && next == Adapt(c, ones)
    {
      hide IncMed, DecMed, GetMed, BitReader.Valid;
      next := c;
      if ones == 0 {
        low := 0;
        span := GetMed(next.m0) - 1;
        next := next.(m0 := DecMed(next.m0, DIV0));
      } else {
        low := GetMed(next.m0);
        next := next.(m0 := IncMed(next.m0, DIV0));
        if ones == 1 {
          span := GetMed(next.m1) - 1;
          next := next.(m1 := DecMed(next.m1, DIV1));
        } else {
          low := low + GetMed(next.m1);
          next := next.(m1 := IncMed(next.m1, DIV1));
          span := GetMed(next.m2) - 1;
          if ones == 2 {
            assert (ones - 2) * GetMed(next.m2) == 0;
            next := next.(m2 := DecMed(next.m2, DIV2));
          } else {
            low := U32(low + (ones - 2) * GetMed(next.m2));
            next := next.(m2 := IncMed(next.m2, DIV2));
          }
        }
      }
    }

    /** Lines 442-482 of words.c. */
    method ReadBody(ch: nat, ones: u32, bs: BitReader) returns (value: int32)
      requires bs.Valid()
      modifies this`c0, this`c1, bs, bs.buf
      ensures bs.Valid()
      ensures WordSpec.ReadBody(old(DecView()), ch, ones, old(bs.rest)) == Word(value, DecView(), bs.rest)
    {
      hide WordSpec.ReadCode, ZoneLow, ZoneSpan, Adapt, Extend, Drop, WordSpec.GetBit, BitReader.Valid;
      var low, span, next := FindZone(Channel(ch), ones);
      SetChannel(ch, next);
      var code := ReadCode(span, bs);
      var mid: int := U32(code + low);
      ExtendOne(bs.rest);
      var b := bs.GetBit();
      value := Wrap32(if b then -mid - 1 else mid);
    }

    /** Lines 376-482 of words.c; false at the end of the data. */
    method ReadWord(ch: nat, bs: BitReader) returns (ok: bool, value: int32)
      requires bs.Valid() && holdingOne <= 1
      modifies this, bs, bs.buf
      ensures bs.Valid() && holdingOne <= 1
      ensures WordSpec.ReadWord(old(DecView()), ch, old(bs.rest))
              == (if ok then Word(value, DecView(), bs.rest) else End(DecView(), bs.rest))
    {
      hide WordSpec.ReadOnes, WordSpec.ReadBody, BitReader.Valid;
      var ones: u32;
      if holdingZero {
        ones, holdingZero := 0, false;
      } else {
        var got, n := ReadOnes(bs);
        if !got {
          return false, 0;
        }
        if holdingOne > 0 {
          holdingOne := n % 2;
          ones := n / 2 + 1;
        } else {
          holdingOne := n % 2;
          ones := n / 2;
        }
        holdingZero := holdingOne == 0;
      }
      value := ReadBody(ch, ones, bs);
      ok := true;
    }

    /** One turn of the loop of `get_words`; false where it breaks off. */
    method GetOne(ch: nat, bs: BitReader) returns (ok: bool, value: int32)
      requires bs.Valid() && holdingOne <= 1
      modifies this, bs, bs.buf
      ensures bs.Valid() && holdingOne <= 1
      ensures GetStep(old(DecView()), ch, old(bs.rest))
              == (if ok then Word(value, DecView(), bs.rest) else End(DecView(), bs.rest))
    {
      hide WordSpec.ReadWord, WordSpec.ReadGamma, BitReader.Valid;
      if c0.m0 < 2 && !holdingZero && holdingOne == 0 && c1.m0 < 2 {
        if zerosAcc > 0 {
          zerosAcc := zerosAcc - 1;
          if zerosAcc > 0 {
            return true, 0;
          }
        } else {
          var got, k := ReadGamma(bs);
          if !got {
            return false, 0;
          }
          zerosAcc := k;
          if zerosAcc > 0 {
            c0, c1 := ZERO_ENTROPY, ZERO_ENTROPY;
            return true, 0;
          }
        }
      }
      ok, value := ReadWord(ch, bs);
    }

    /** `get_words`: fills the buffer and returns how many (stereo) samples it got. */
    method GetWords(buffer: array<int32>, nsamples: nat, mono: bool, bs: BitReader) returns (count: nat)
      requires bs.Valid() && holdingOne <= 1
      requires (if mono then nsamples else 2 * nsamples) <= buffer.Length
      requires buffer as object != bs.buf
      modifies this, bs, bs.buf, buffer
      ensures bs.Valid() && holdingOne <= 1
      ensures var n := if mono then nsamples else 2 * nsamples;
              var w := WordSpec.GetWords(old(DecView()), mono, 0, n, old(bs.rest));
              && DecView() == w.state && bs.rest == w.rest
              && buffer[..|w.values|] == w.values
              && buffer[|w.values|..] == old(buffer[|w.values|..])
              && count == (if mono then |w.values| else |w.values| / 2)
    {
      hide WordSpec.GetWords, BitReader.Valid;
      var n := if mono then nsamples else 2 * nsamples;
      var k := FillWords(buffer, n, mono, bs);
      count := if mono then k else k / 2;
    }

    /** The loop of `get_words`; k is where it stops. */
    method FillWords(buffer: array<int32>, n: nat, mono: bool, bs: BitReader) returns (k: nat)
      requires bs.Valid() && holdingOne <= 1
      requires n <= buffer.Length && buffer as object != bs.buf
      modifies this, bs, bs.buf, buffer
      ensures bs.Valid() && holdingOne <= 1
      ensures var w := WordSpec.GetWords(old(DecView()), mono, 0, n, old(bs.rest));
              && DecView() == w.state && bs.rest == w.rest
              && k == |w.values| && buffer[..k] == w.values
              && buffer[k..] == old(buffer[k..])
    {
      hide GetStep, WordSpec.GetWords, BitReader.Valid, Chan;
      k := 0;
      ghost var all := WordSpec.GetWords(DecView(), mono, 0, n, bs.rest);
      ghost var left := all;
      ghost var got: seq<int32> := [];
      assert got + left.values == left.values;
      while k < n
        invariant 0 <= k <= n && bs.Valid() && holdingOne <= 1
        invariant left == WordSpec.GetWords(DecView(), mono, k, n - k, bs.rest)
        invariant all == Words(got + left.values, left.state, left.rest)
        invariant buffer[..k] == got && buffer[k..] == old(buffer[k..])
      {
        GetWordsStep(DecView(), mono, k, n - k, bs.rest);
        var ok, value := GetOne(Chan(mono, k), bs);
        if !ok {
          assert left.values == [];
          break;
        }
        left := WordSpec.GetWords(DecView(), mono, k + 1, n - (k + 1), bs.rest);
        assert got + ([value] + left.values) == got + [value] + left.values;
        StoreWord(buffer, k, value, got);
        got := got + [value];
        k := k + 1;
      }
      if k == n {
        GetWordsStep(DecView(), mono, k, 0, bs.rest);
      }
      assert got + [] == got;
    }

    /** `*buffer++ = value`. */
    static method StoreWord(buffer: array<int32>, k: nat, value: int32, ghost got: seq<int32>)
      requires k < buffer.Length && buffer[..k] == got
      modifies buffer
      ensures buffer[..k + 1] == got + [value] && buffer[k + 1..] == old(buffer[k + 1..])
    {
      buffer[k] := value;
    }
  }

  // ---------------------------------------------------------------- small facts

  /** What a gamma code still has to send of k. */
  function LowGamma(k: nat): seq<bool> {
    ToBits(k, if BitLength(k) < 2 then 0 else BitLength(k) - 1)
  }

  lemma LowGammaStep(k: nat)
    requires k > 1
    ensures LowGamma(k) == [k % 2 == 1] + LowGamma(k / 2)
  {
  }

  lemma LowGammaEnd(k: nat)
    requires k <= 1
    ensures LowGamma(k) == []
  {
  }

  lemma SixteenOnes()
    ensures 0xffff < Pow2(17) && ToBits(0xffff, 17) == Ones(16) + [false]
  {
    hide ToBits;
    Pow2Of8();
    Pow2Add(8, 8);
    Pow2Add(16, 1);
    assert Pow2(1) == 2;
    OnesValue(16);
    assert Bits.Shl(0, 16) == 0;
    QueueBits(0xffff, 16, 0, 1);
    OneBit(false);
  }

  /** Remainder codes of a zone fit 28 bits. */
  lemma CodeFits(code: nat, maxcode: nat)
    requires code <= maxcode < 0x1000_0000 && maxcode > 0
    ensures 0 < BitLength(maxcode) <= 28
    ensures var extras := Extras(maxcode);
            && (code < extras ==> code < Pow2(BitLength(maxcode) - 1))
            && (code >= extras ==> (code + extras) / 2 < Pow2(BitLength(maxcode) - 1))
            && (code + extras) % 2 < Pow2(1)
  {
    hide BitLength, Extras;
    Pow2Of8();
    Pow2Add(8, 8);
    Pow2Add(16, 8);
    Pow2Add(24, 4);
    BitLengthBound(maxcode, 28);
    OneBitFits();
    CodeShape(code, maxcode);
  }

  lemma NoCode(code: nat)
    ensures CodeBits(code, 0) == []
  {
  }

  lemma TakeNone(s: seq<bool>)
    ensures FromBits(Extend(s, 0)) == 0 && Drop(s, 0) == s
  {
    assert Extend(s, 0) == [];
  }

  lemma TakeOneMore(s: seq<bool>, k: nat)
    ensures Extend(s, k + 1) == Extend(s, k) + Extend(Drop(s, k), 1)
    ensures Drop(s, k + 1) == Drop(Drop(s, k), 1)
    ensures |Extend(s, k)| == k
  {
  }

  lemma AppendBit(low: seq<bool>, b: bool)
    ensures FromBits(low + [b]) == FromBits(low) + (if b then Pow2(|low|) else 0)
  {
    hide FromBits;
    FromBitsConcat(low, [b]);
    ValueOfBit(b);
  }

  lemma ValueOfBit(b: bool)
    ensures FromBits([b]) == Bit(b)
  {
    assert [b][1..] == [];
  }

  lemma UnaryStep(s: seq<bool>, limit: nat)
    ensures limit == 0 ==> Unary(s, limit) == (0, s)
    ensures limit > 0 && Extend(s, 1) == [true] ==>
              Unary(s, limit) == (1 + Unary(Drop(s, 1), limit - 1).0, Unary(Drop(s, 1), limit - 1).1)
    ensures limit > 0 && Extend(s, 1) == [false] ==> Unary(s, limit) == (0, Drop(s, 1))
  {
    assert Extend(s, 1) == [WordSpec.GetBit(s).0] && Drop(s, 1) == WordSpec.GetBit(s).1;
  }

  /** The ones of a waiting word as flush_word sends them. */
  function HeldBits(one: u32, zero: bool): seq<bool> {
    if one >= LIMIT_ONES then Ones(LIMIT_ONES) + [false] + GammaBits(one - LIMIT_ONES)
    else Ones(one) + (if zero then [false] else [])
  }

  lemma HeldBitsOf(e: Enc)
    ensures FlushBits(e) == (if e.zeros > 0 then GammaBits(e.zeros) else []) + HeldBits(e.one, e.zero) + e.pend
  {
    hide GammaBits;
  }

  lemma ExtendOne(s: seq<bool>)
    ensures WordSpec.GetBit(s) == (Extend(s, 1)[0], Drop(s, 1))
  {
  }
}
