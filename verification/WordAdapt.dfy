/** How the medians of jni/wv/words.c adapt (the macros of lines 44-58): which samples move which of them, which way and
    how far. Medians count in sixteenths. */
module WordAdapt {
  import opened Machine
  import opened Arithmetic
  import opened Bits
  import opened WordSpec

  // ---------------------------------------------------------------- one median

  /** Five quanta up, where a quantum is a div-th of the median and one more. */
  predicate Raised(m: u32, v: u32, div: nat)
    requires div > 0
  {
    v == m + 5 * (m / div + 1)
  }

  /** Two quanta down, of the same size unless the median is just at a whole one. */
  predicate Lowered(m: u32, v: u32, div: nat)
    requires div > 0
  {
    v == m - 2 * (m / div + if m % div >= 2 then 1 else 0)
  }

  predicate Divider(div: nat) {
    div == 128 || div == 64 || div == 32
  }

  /** A raise is one if and only if the sum stays below 2^32; a fall if and only if the median is not within a div-th
      of 2^32. */
  lemma MovesExactly(m: u32, div: nat)
    requires Divider(div)
    ensures Raised(m, IncMed(m, div), div) <==> m + 5 * (m / div + 1) < TWO32
    ensures Lowered(m, DecMed(m, div), div) <==> m + div - 2 < TWO32
  {
    hide IncMed, DecMed, Raised, Lowered;
    RaisesExactly(m, div);
    LowersExactly(m, div);
  }

  lemma RaisesExactly(m: u32, div: nat)
    requires Divider(div)
    ensures Raised(m, IncMed(m, div), div) <==> m + 5 * (m / div + 1) < TWO32
  {
    hide U32;
    SumWraps(m, div);
    Quotients(m, div);
    SumWraps(m, 5 * (m / div + 1));
    if m + div >= TWO32 {
      SumWraps(m, 0);
      NoQuanta(m + div - TWO32, div);
    }
  }

  lemma LowersExactly(m: u32, div: nat)
    requires Divider(div)
    ensures Lowered(m, DecMed(m, div), div) <==> m + div - 2 < TWO32
  {
    hide U32;
    SumWraps(m, div - 2);
    Quotients(m, div);
    var q := (m + div - 2) / div;
    if m + div - 2 < TWO32 {
      assert m - 2 * q >= 0 by { Quotient(m + div - 2, div); }
      SumWraps(m - 2 * q, 0);
    } else {
      SumWraps(m, 0);
      NoQuanta(m + div - 2 - TWO32, div);
      assert m / div > 0;
    }
  }

  lemma NoQuanta(x: nat, div: nat)
    requires x < div
    ensures x / div == 0
  {
  }

  lemma Quotients(m: nat, div: nat)
    requires Divider(div)
    ensures (m + div) / div == m / div + 1 && 0 <= m / div <= m
    ensures (m + div - 2) / div == m / div + if m % div >= 2 then 1 else 0
  {
    var q, r := m / div, m % div;
    QuotientBounds(m, div);
    Quotient(m, div);
    MulNext(q, div);
    Uniquely(m + div, q + 1, r, div);
    if r >= 2 {
      Uniquely(m + div - 2, q + 1, r - 2, div);
    } else {
      Uniquely(m + div - 2, q, r + div - 2, div);
    }
  }

  lemma SumWraps(x: u32, y: nat)
    requires y < TWO32
    ensures U32(x + y) == if x + y < TWO32 then x + y else x + y - TWO32
  {
  }

  /** Medians below 0xc000_0000 stay clear of both. */
  lemma SmallMediansMove(m: u32, div: nat)
    requires Divider(div) && m < 0xc000_0000
    ensures m + 5 * (m / div + 1) < TWO32 && m + div - 2 < TWO32
  {
  }

  /** A median falls as long as it is at least 2, and never below zero. */
  lemma FallsToNothing(m: u32, v: u32, div: nat)
    requires Divider(div) && Lowered(m, v, div)
    ensures m >= 2 ==> v <= m - 2
    ensures m < 2 ==> v == m
  {
  }

  /** Two raises of a median are as much as five falls of it, or ten more just above a whole quantum: a median is still
      where two samples in seven are above it. */
  lemma TwoRaisesAreFiveFalls(m: u32, up: u32, down: u32, div: nat)
    requires Divider(div) && Raised(m, up, div) && Lowered(m, down, div)
    ensures 2 * (up - m) == 5 * (m - down) + if m % div < 2 then 10 else 0
  {
  }

  // ---------------------------------------------------------------- one sample

  /** The medians after a magnitude: the first falls if the magnitude is not above it. If it is, the first rises and
      what the magnitude exceeds it by meets the second, and so on. */
  predicate Follows(c: Entropy, mag: int, d: Entropy) {
    var above := mag - c.m0 / 16 - 1;
    var beyond := above - c.m1 / 16 - 1;
    if 16 * mag <= c.m0 then Lowered(c.m0, d.m0, 128) && d.m1 == c.m1 && d.m2 == c.m2
    else if 16 * above <= c.m1 then Raised(c.m0, d.m0, 128) && Lowered(c.m1, d.m1, 64) && d.m2 == c.m2
    else
      && Raised(c.m0, d.m0, 128) && Raised(c.m1, d.m1, 64)
      && if 16 * beyond <= c.m2 then Lowered(c.m2, d.m2, 32) else Raised(c.m2, d.m2, 32)
  }

  predicate Moderate(c: Entropy) {
    c.m0 < 0xc000_0000 && c.m1 < 0xc000_0000 && c.m2 < 0xc000_0000
  }

  /** What a ones count does to the medians is what the magnitudes of its zone do. */
  lemma ZoneFollows(c: Entropy, ones: u32, mag: int)
    requires Moderate(c) && InZone(c, ones, mag)
    ensures Follows(c, mag, Adapt(c, ones))
  {
    hide Raised, Lowered, IncMed, DecMed;
    AllMove(c);
    hide Moderate;
    var a, b, g := c.m0 / 16 + 1, c.m1 / 16 + 1, c.m2 / 16 + 1;
    if ones >= 3 {
      Strides(ones - 2, g);
    }
  }

  lemma Strides(n: nat, g: nat)
    requires n >= 1
    ensures n * g >= g
  {
  }

  /** Samples of up to 27 bits keep the medians there. */
  lemma StaysModerate(c: Entropy, mag: nat, d: Entropy)
    requires Moderate(c) && mag < 0xa00_0000 && Follows(c, mag, d)
    ensures Moderate(d)
  {
  }

  lemma AllMove(c: Entropy)
    requires Moderate(c)
    ensures Raised(c.m0, IncMed(c.m0, DIV0), 128) && Lowered(c.m0, DecMed(c.m0, DIV0), 128)
    ensures Raised(c.m1, IncMed(c.m1, DIV1), 64) && Lowered(c.m1, DecMed(c.m1, DIV1), 64)
    ensures Raised(c.m2, IncMed(c.m2, DIV2), 32) && Lowered(c.m2, DecMed(c.m2, DIV2), 32)
  {
    MovesExactly(c.m0, 128);
    MovesExactly(c.m1, 64);
    MovesExactly(c.m2, 32);
  }

  /** The magnitudes of a zone: up to the first median, from there up to the second, and then strides of the third. */
  predicate InZone(c: Entropy, ones: u32, mag: int) {
    var a, b, g := c.m0 / 16 + 1, c.m1 / 16 + 1, c.m2 / 16 + 1;
    if ones == 0 then 0 <= mag < a
    else if ones == 1 then a <= mag < a + b
    else a + b + (ones - 2) * g <= mag < a + b + (ones - 1) * g
  }

  lemma OnesInZone(c: Entropy, mag: nat)
    requires mag < TWO31
    ensures InZone(c, OnesCount(c, mag), mag)
  {
    var a, b, g := GetMed(c.m0), GetMed(c.m1), GetMed(c.m2);
    if mag >= a + b + g {
      var x := mag - a - b;
      var q := x / g;
      assert x == q * g + x % g;
      assert (q + 1) * g == q * g + g;
      AtLeast(x, g);
    }
  }

  lemma AtLeast(x: nat, g: nat)
    requires x >= g > 0
    ensures x / g >= 1
  {
  }

  /** The encoder's medians follow the magnitude of every sample. */
  lemma EncoderFollows(e: Enc, ch: nat, v: int32)
    requires Moderate(e.Chan(ch))
    ensures var d := PutWord(e, ch, v).0;
            && Follows(e.Chan(ch), Magnitude(v), d.Chan(ch))
            && (ch == 0 ==> d.c1 == e.c1) && (ch != 0 ==> d.c0 == e.c0)
  {
    hide Follows, Adapt, OnesCount, FlushBits, BodyBits;
    OnesInZone(e.Chan(ch), Magnitude(v));
    ZoneFollows(e.Chan(ch), OnesCount(e.Chan(ch), Magnitude(v)), Magnitude(v));
  }

  // ---------------------------------------------------------------- the decoder

  lemma {:induction false} BitsBound(s: seq<bool>, n: nat)
    ensures GetBits(s, n).0 < Pow2(n)
    decreases n
  {
    if n == 0 {
    } else {
      BitsBound(GetBit(s).1, n - 1);
    }
  }

  /** Whatever the data, a remainder is within its zone. */
  lemma CodeBound(s: seq<bool>, maxcode: nat)
    ensures ReadCode(s, maxcode).0 <= maxcode
  {
    hide GetBits, GetBit, BitLength;
    var n := BitLength(maxcode);
    NoLength();
    if n > 0 {
      BitsBound(s, n - 1);
      assert Pow2(n) == 2 * Pow2(n - 1);
    }
  }

  /** A sample is a magnitude with a sign, unless the magnitude is too large for one. */
  predicate Signed(v: int32, mag: nat) {
    (v == Wrap32(mag) || v == Wrap32(0 - mag - 1)) && (mag < TWO31 ==> Magnitude(v) == mag)
  }

  /** The medians of a channel have followed a magnitude, those of the other stay. */
  predicate ChannelFollows(d: Dec, ch: nat, mag: nat, next: Dec) {
    && Follows(d.Chan(ch), mag, next.Chan(ch))
    && (if ch == 0 then next.c1 == d.c1 else next.c0 == d.c0)
  }

  /** The decoder's medians follow the magnitude that is read, from any data. */
  lemma DecoderFollows(d: Dec, ch: nat, s: seq<bool>) returns (mag: nat)
    requires Moderate(d.Chan(ch))
    ensures match ReadWord(d, ch, s)
            case End(next, _) => next == d
            case Word(v, next, _) => ChannelFollows(d, ch, mag, next) && Signed(v, mag)
  {
    hide Follows, ReadOnes, ReadBody, Signed, Moderate;
    mag := 0;
    if d.zero {
      mag := BodyFollows(d.(zero := false), ch, 0, s);
    } else {
      match ReadOnes(s)
      case Eof(_) =>
      case Got(n, s1) =>
        var odd := n % 2 == 1;
        mag := BodyFollows(d.(one := odd, zero := !odd), ch, if d.one then n / 2 + 1 else n / 2, s1);
    }
  }

  lemma BodyFollows(d: Dec, ch: nat, ones: u32, s: seq<bool>) returns (mag: nat)
    requires Moderate(d.Chan(ch))
    ensures var step := ReadBody(d, ch, ones, s);
            step.Word? && ChannelFollows(d, ch, mag, step.next) && Signed(step.value, mag)
  {
    hide Follows, ReadCode, GetBit, Adapt, Moderate, Wrap32, U32, ZoneLow, ZoneSpan;
    var c := d.Chan(ch);
    var code := ReadCode(s, ZoneSpan(c, ones)).0;
    CodeBound(s, ZoneSpan(c, ones));
    mag := ExactLow(c, ones) + code;
    LowIsExact(c, ones, code);
    ZoneFollows(c, ones, mag);
    WrapsAlike(mag);
  }

  /** Where a zone begins, in integers. */
  function ExactLow(c: Entropy, ones: u32): nat {
    var a, b, g := c.m0 / 16 + 1, c.m1 / 16 + 1, c.m2 / 16 + 1;
    if ones == 0 then 0 else if ones == 1 then a else a + b + (ones - 2) * g
  }

  lemma LowIsExact(c: Entropy, ones: u32, code: nat)
    requires code <= ZoneSpan(c, ones)
    ensures U32(code + ZoneLow(c, ones)) == U32(ExactLow(c, ones) + code)
    ensures InZone(c, ones, ExactLow(c, ones) + code)
  {
    if ones >= 2 {
      MulNext(Less2(ones), c.m2 / 16 + 1);
    }
    LowWraps(c, ones);
    RestWraps(ExactLow(c, ones), code);
  }

  function Less2(n: int): int {
    n - 2
  }

  lemma LowWraps(c: Entropy, ones: u32)
    ensures ZoneLow(c, ones) == U32(ExactLow(c, ones))
  {
  }

  lemma RestWraps(x: nat, y: nat)
    ensures U32(y + U32(x)) == U32(x + y)
  {
  }

  lemma WrapsAlike(mag: nat)
    ensures Wrap32(U32(mag)) == Wrap32(mag) && Wrap32(0 - U32(mag) - 1) == Wrap32(0 - mag - 1)
    ensures mag < TWO31 ==> Magnitude(Wrap32(mag)) == mag && Magnitude(Wrap32(0 - mag - 1)) == mag
  {
    var k := mag / TWO32;
    assert mag == U32(mag) + TWO32 * k;
    WholeTurns(U32(mag), k);
    WholeTurns(0 - U32(mag) - 1, -k);
  }

  // ---------------------------------------------------------------- silence

  predicate AllSilent(vs: seq<int32>) {
    forall i :: 0 <= i < |vs| ==> Magnitude(vs[i]) == 0
  }

  /** A silent sample lowers the first median by at least 2, as long as there is that much. */
  lemma SilenceLowers(e: Enc, v: int32)
    requires Moderate(e.c0) && Magnitude(v) == 0
    ensures var d := SendStep(e, 0, v).0;
            && d.c0.m0 <= (if e.c0.m0 >= 2 then e.c0.m0 - 2 else e.c0.m0) && Moderate(d.c0)
            && (e.c1 == ZERO_ENTROPY ==> d.c1 == ZERO_ENTROPY)
  {
    hide FlushBits, PutWord, Follows;
    EncoderFollows(e, 0, v);
    EncoderFollows(Flushed(e), 0, v);
    SilentMoves(e.c0, PutWord(e, 0, v).0.c0);
    SilentMoves(e.c0, PutWord(Flushed(e), 0, v).0.c0);
  }

  lemma SilentMoves(c: Entropy, d: Entropy)
    requires Moderate(c) && Follows(c, 0, d)
    ensures d.m0 <= (if c.m0 >= 2 then c.m0 - 2 else c.m0) && Moderate(d)
  {
    FallsToNothing(c.m0, d.m0, 128);
  }

  /** Enough silence makes a mono stream quiet, so that runs of zeros are counted. */
  lemma {:induction false} SilenceIsQuiet(e: Enc, i: nat, vs: seq<int32>)
    requires Moderate(e.c0) && e.c1 == ZERO_ENTROPY && AllSilent(vs) && 2 * |vs| >= e.c0.m0 - 1
    ensures var d := SendWords(e, true, i, vs).0; Quiet(d.c0, d.c1)
    decreases |vs|
  {
    hide SendStep, Moderate;
    if vs == [] {
    } else {
      SilenceLowers(e, vs[0]);
      SilenceIsQuiet(SendStep(e, 0, vs[0]).0, i + 1, vs[1..]);
    }
  }
}
