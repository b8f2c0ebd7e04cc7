/** The range decoder of jni/ape/entropy.c against exact arithmetic-coding intervals: what interval of code values
    stands for a sequence of slices, and where in it the decoder's 32-bit state says the code value is. */
module ApeRange {
  import opened Machine
  import opened Arithmetic

  const BOTTOM_VALUE := 0x80_0000

  // ---------------------------------------------------------------- the code value

  function ByteAt(b: seq<byte>, i: nat): byte {
    if i < |b| then b[i] else 0
  }

  /** The code value comes in a digit of seven bits and then digits of eight, one bit out of step with the bytes. */
  function Digit(b: seq<byte>, i: nat): (d: nat)
    ensures d < 256 && (i == 0 ==> d < 128)
  {
    if i == 0 then ByteAt(b, 0) / 2 else ByteAt(b, i - 1) % 2 * 128 + ByteAt(b, i) / 2
  }

  /** The first digits of the code value, up to digit k. */
  function Value(b: seq<byte>, k: nat): nat {
    if k == 0 then Digit(b, 0) else 256 * Value(b, k - 1) + Digit(b, k)
  }

  // ---------------------------------------------------------------- intervals

  /** An interval of code values, in units of digit k. */
  datatype Span = Span(k: nat, low: nat, width: nat)

  /** One coding step: the part [lt, lt + sy) of a total. */
  datatype Slice = Slice(lt: nat, sy: nat, tot: nat)

  predicate ValidSlice(c: Slice) {
    0 < c.sy && c.lt + c.sy <= c.tot <= 0x1_0000
  }

  /** Digits are added until the width is above 2^23. */
  function Widen(s: Span): (w: Span)
    requires s.width > 0
    ensures w.width > BOTTOM_VALUE && w.k >= s.k
    ensures s.width <= 0x8000_0000 ==> w.width <= 0x8000_0000
    decreases BOTTOM_VALUE - s.width
  {
    if s.width > BOTTOM_VALUE then s else Widen(Span(s.k + 1, 256 * s.low, 256 * s.width))
  }

  function Part(w: Span, c: Slice): Span
    requires c.tot > 0
  {
    var h := w.width / c.tot;
    Span(w.k, w.low + h * c.lt, h * c.sy)
  }

  function Narrow(s: Span, c: Slice): Span
    requires s.width > 0 && c.tot > 0
  {
    Part(Widen(s), c)
  }

  const WHOLE := Span(0, 0, 128)

  /** The interval of a sequence of slices. */
  function Interval(s: Span, cs: seq<Slice>): (r: Span)
    requires 0 < s.width <= 0x8000_0000 && forall i :: 0 <= i < |cs| ==> ValidSlice(cs[i])
    ensures 0 < r.width <= 0x8000_0000
    decreases |cs|
  {
    if cs == [] then s
    else
      PartWidth(Widen(s), cs[0]);
      Interval(Narrow(s, cs[0]), cs[1..])
  }

  predicate Inside(b: seq<byte>, s: Span) {
    s.low <= Value(b, s.k) < s.low + s.width
  }

  /** A part is not empty, and its end is not beyond the whole. */
  lemma PartWidth(w: Span, c: Slice)
    requires ValidSlice(c) && BOTTOM_VALUE < w.width <= 0x8000_0000
    ensures var p := Part(w, c);
            && w.width / c.tot >= 128 && p.k == w.k
            && 0 < p.width <= w.width
            && w.low <= p.low && p.low + p.width <= w.low + w.width
  {
    var h := w.width / c.tot;
    QuotientBounds(w.width, c.tot);
    QuotientAtLeast(w.width, c.tot, 128);
    MulUp(1, c.sy, h);
    MulUp(c.lt + c.sy, c.tot, h);
    assert h * c.lt + h * c.sy == (c.lt + c.sy) * h;
    MulUp(0, c.lt, h);
  }

  // ---------------------------------------------------------------- every interval has its bytes

  /** How many code values there are up to digit k. */
  function Range(k: nat): (n: nat)
    ensures n > 0
  {
    if k == 0 then WHOLE.width else 256 * Range(k - 1)
  }

  /** The bytes of a code value: twice the value, most significant byte first. */
  function CodeBytes(v: nat, k: nat): (b: seq<byte>)
    requires v < Range(k)
    ensures |b| == k + 1 && b[k] % 2 == 0 && Value(b, k) == v
  {
    hide Value;
    if k == 0 then FirstDigit(v); [2 * v]
    else
      var high := CodeBytes(v / 256, k - 1);
      NextDigit(high, k, v % 256);
      AddDigit(high, k, v % 256)
  }

  /** A digit more: its highest bit goes into the last byte. */
  function AddDigit(b: seq<byte>, k: nat, d: nat): (c: seq<byte>)
    requires |b| == k > 0 && b[k - 1] % 2 == 0 && d < 256
    ensures |c| == k + 1
  {
    b[..k - 1] + [b[k - 1] + d / 128, 2 * (d % 128)]
  }

  lemma FirstDigit(v: nat)
    requires v < 128
    ensures Value([2 * v], 0) == v
  {
  }

  lemma NextDigit(b: seq<byte>, k: nat, d: nat)
    requires |b| == k > 0 && b[k - 1] % 2 == 0 && d < 256
    ensures var c := AddDigit(b, k, d); c[k] % 2 == 0 && Value(c, k) == 256 * Value(b, k - 1) + d
  {
    var c := AddDigit(b, k, d);
    SameDigits(b, c, k - 1);
    assert Digit(c, k) == d;
    assert Value(c, k) == 256 * Value(c, k - 1) + Digit(c, k);
  }

  /** The lowest bit of the last byte belongs to the digit behind it. */
  lemma {:induction false} SameDigits(a: seq<byte>, b: seq<byte>, k: nat)
    requires k < |a| && k < |b| && a[..k] == b[..k] && a[k] / 2 == b[k] / 2
    ensures Value(a, k) == Value(b, k)
  {
    if k == 0 {
    } else {
      assert a[k - 1] == a[..k][k - 1] == b[..k][k - 1] == b[k - 1];
      assert a[..k - 1] == a[..k][..k - 1] == b[..k][..k - 1] == b[..k - 1];
      SameDigits(a, b, k - 1);
    }
  }

  predicate Within(s: Span) {
    s.low + s.width <= Range(s.k)
  }

  lemma {:induction false} WidenWithin(s: Span)
    requires s.width > 0 && Within(s)
    ensures Within(Widen(s))
    decreases BOTTOM_VALUE - s.width
  {
    if s.width <= BOTTOM_VALUE {
      WidenWithin(Span(s.k + 1, 256 * s.low, 256 * s.width));
    }
  }

  lemma {:induction false} IntervalWithin(s: Span, cs: seq<Slice>)
    requires 0 < s.width <= 0x8000_0000 && forall i :: 0 <= i < |cs| ==> ValidSlice(cs[i])
    requires Within(s)
    ensures Within(Interval(s, cs))
    decreases |cs|
  {
    hide Part;
    if cs == [] {
    } else {
      WidenWithin(s);
      PartWidth(Widen(s), cs[0]);
      IntervalWithin(Narrow(s, cs[0]), cs[1..]);
    }
  }

  /** Bytes whose code value lies in the interval of any sequence of slices. */
  function CodeOf(cs: seq<Slice>): (b: seq<byte>)
    requires forall i :: 0 <= i < |cs| ==> ValidSlice(cs[i])
    ensures Inside(b, Interval(WHOLE, cs))
  {
    hide CodeBytes;
    IntervalWithin(WHOLE, cs);
    CodeBytes(Interval(WHOLE, cs).low, Interval(WHOLE, cs).k)
  }

  // ---------------------------------------------------------------- the decoder's registers

  /** `rc.low` and `rc.range` once digit k has been read. */
  datatype Registers = Registers(k: nat, low: int, range: nat)

  /** Where the code value is in an interval: its offset, and the interval's width. */
  function At(b: seq<byte>, s: Span): Registers {
    Registers(s.k, Value(b, s.k) - s.low, s.width)
  }

  /** `range_dec_normalize`. */
  function Normalize(b: seq<byte>, r: Registers): (q: Registers)
    requires r.range > 0
    ensures q.range > BOTTOM_VALUE
    decreases BOTTOM_VALUE - r.range
  {
    if r.range > BOTTOM_VALUE then r
    else Normalize(b, Registers(r.k + 1, 256 * r.low + Digit(b, r.k + 1), 256 * r.range))
  }

  /** `range_decode_update` with `help` the quotient of range and total. */
  function Update(r: Registers, c: Slice): Registers
    requires c.tot > 0
  {
    var help := r.range / c.tot;
    Registers(r.k, r.low - help * c.lt, help * c.sy)
  }

  /** The cumulative frequency `range_decode_culfreq` returns. */
  function Frequency(r: Registers, tot: nat): int
    requires 0 < tot <= r.range
  {
    QuotientAtLeast(r.range, tot, 1);
    r.low / (r.range / tot)
  }

  // ---------------------------------------------------------------- registers follow intervals

  lemma {:induction false} NormalizeFollows(b: seq<byte>, s: Span)
    requires s.width > 0
    ensures Normalize(b, At(b, s)) == At(b, Widen(s))
    ensures Inside(b, Widen(s)) <==> Inside(b, s)
    decreases BOTTOM_VALUE - s.width
  {
    if s.width <= BOTTOM_VALUE {
      var t := Span(s.k + 1, 256 * s.low, 256 * s.width);
      assert Value(b, s.k + 1) == 256 * Value(b, s.k) + Digit(b, s.k + 1);
      assert At(b, t) == Registers(s.k + 1, 256 * At(b, s).low + Digit(b, s.k + 1), 256 * s.width);
      NormalizeFollows(b, t);
    }
  }

  lemma UpdateFollows(b: seq<byte>, w: Span, c: Slice)
    requires c.tot > 0
    ensures Update(At(b, w), c) == At(b, Part(w, c))
  {
  }

  /** The frequency falls into a slice exactly when the code value is in the slice's part of the interval. */
  lemma FrequencyTells(b: seq<byte>, w: Span, c: Slice)
    requires ValidSlice(c) && BOTTOM_VALUE < w.width <= 0x8000_0000 && w.low <= Value(b, w.k)
    ensures c.tot <= At(b, w).range
    ensures c.lt <= Frequency(At(b, w), c.tot) < c.lt + c.sy <==> Inside(b, Part(w, c))
  {
    hide Value;
    PartWidth(w, c);
    BetweenMultiples(Value(b, w.k) - w.low, w.width / c.tot, c.lt, c.sy);
  }

  lemma BetweenMultiples(low: nat, h: nat, lt: nat, sy: nat)
    requires h > 0
    ensures lt <= low / h < lt + sy <==> h * lt <= low < h * lt + h * sy
  {
    QuotientAtLeast(low, h, lt);
    QuotientAtLeast(low, h, lt + sy);
    assert h * (lt + sy) == h * lt + h * sy;
  }

  lemma QuotientAtLeast(x: nat, h: nat, n: nat)
    requires h > 0
    ensures n <= x / h <==> h * n <= x
  {
    var q := x / h;
    QuotientBounds(x, h);
    assert q * h == h * q;
    if n <= q {
      MulUp(n, q, h);
    } else {
      MulUp(q + 1, n, h);
      assert h * (q + 1) == h * q + h;
    }
  }

  /** At every step of decoding a code value that lies in the interval of the slices: the registers are its offset in and
      the width of the interval so far, the offset is below the width, the width is at most 2^31, and the frequency the
      decoder computes is in the next slice. */
  lemma {:induction false} DecodesEachSlice(b: seq<byte>, s: Span, cs: seq<Slice>)
    requires 0 < s.width <= 0x8000_0000 && forall i :: 0 <= i < |cs| ==> ValidSlice(cs[i])
    requires Inside(b, Interval(s, cs))
    ensures Inside(b, s) && 0 <= At(b, s).low < At(b, s).range <= 0x8000_0000
    ensures cs != [] ==>
              var r := Normalize(b, At(b, s));
              && cs[0].tot <= r.range && r.range / cs[0].tot > 0
              && cs[0].lt <= Frequency(r, cs[0].tot) < cs[0].lt + cs[0].sy
              && Update(r, cs[0]) == At(b, Narrow(s, cs[0])) && 0 < Narrow(s, cs[0]).width <= 0x8000_0000
              && Inside(b, Interval(Narrow(s, cs[0]), cs[1..]))
    decreases |cs|
  {
    hide Part, Frequency, Value, Update;
    if cs == [] {
    } else {
      var w := Widen(s);
      PartWidth(w, cs[0]);
      DecodesEachSlice(b, Narrow(s, cs[0]), cs[1..]);
      PartInside(b, w, cs[0]);
      NormalizeFollows(b, s);
      FrequencyTells(b, w, cs[0]);
      UpdateFollows(b, w, cs[0]);
    }
  }

  lemma PartInside(b: seq<byte>, w: Span, c: Slice)
    requires ValidSlice(c) && BOTTOM_VALUE < w.width <= 0x8000_0000 && Inside(b, Part(w, c))
    ensures Inside(b, w)
  {
    hide Part;
    PartWidth(w, c);
  }

  /** Different slices of one total get different parts of the interval. */
  lemma PartsApart(w: Span, c: Slice, d: Slice)
    requires ValidSlice(c) && ValidSlice(d) && c.tot == d.tot && c.lt + c.sy <= d.lt
    ensures Part(w, c).low + Part(w, c).width <= Part(w, d).low
  {
    var h := w.width / c.tot;
    MulUp(c.lt + c.sy, d.lt, h);
    assert h * (c.lt + c.sy) == h * c.lt + h * c.sy;
  }
}
