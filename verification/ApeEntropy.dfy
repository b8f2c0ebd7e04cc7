/** The symbols, the adaptive Rice model and the sample values of jni/ape/entropy.c on top of the range decoder. */
module ApeEntropy {
  import opened Machine
  import opened Arithmetic
  import opened Bits
  import opened ApeRange

  const MODEL_ELEMENTS := 64
  const TOTAL := 0x1_0000

  // ---------------------------------------------------------------- tables

  /** Which of the two stream formats. */
  datatype Version = V3970 | V3980

  /** `counts_3970 [i]` and `counts_3980 [i]`; both tables end in consecutive numbers up to 65536. */
  function Count(v: Version, i: nat): nat {
    match v
    case V3970 => (
      match i
      case 0 => 0
      case 1 => 14824
      case 2 => 28224
      case 3 => 39348
      case 4 => 47855
      case 5 => 53994
      case 6 => 58171
      case 7 => 60926
      case 8 => 62682
      case 9 => 63786
      case 10 => 64463
      case 11 => 64878
      case 12 => 65126
      case 13 => 65276
      case 14 => 65365
      case 15 => 65419
      case 16 => 65450
      case 17 => 65469
      case 18 => 65480
      case 19 => 65487
      case 20 => 65491
      case _ => 65472 + i
    )
    case V3980 => (
      match i
      case 0 => 0
      case 1 => 19578
      case 2 => 36160
      case 3 => 48417
      case 4 => 56323
      case 5 => 60899
      case 6 => 63265
      case 7 => 64435
      case 8 => 64971
      case 9 => 65232
      case 10 => 65351
      case 11 => 65416
      case 12 => 65447
      case 13 => 65466
      case 14 => 65476
      case 15 => 65482
      case 16 => 65485
      case 17 => 65488
      case _ => 65472 + i
    )
  }

  /** `counts_diff_3970 [i]` and `counts_diff_3980 [i]`. */
  function CountDiff(v: Version, i: nat): nat {
    match v
    case V3970 => (
      match i
      case 0 => 14824 case 1 => 13400 case 2 => 11124 case 3 => 8507
      case 4 => 6139 case 5 => 4177 case 6 => 2755 case 7 => 1756
      case 8 => 1104 case 9 => 677 case 10 => 415 case 11 => 248
      case 12 => 150 case 13 => 89 case 14 => 54 case 15 => 31
      case 16 => 19 case 17 => 11 case 18 => 7 case 19 => 4
      case 20 => 2
      case _ => 1
    )
    case V3980 => (
      match i
      case 0 => 19578 case 1 => 16582 case 2 => 12257 case 3 => 7906
      case 4 => 4576 case 5 => 2366 case 6 => 1170 case 7 => 536
      case 8 => 261 case 9 => 119 case 10 => 65 case 11 => 31
      case 12 => 19 case 13 => 10 case 14 => 6 case 15 => 3
      case 16 => 3 case 17 => 2
      case _ => 1
    )
  }

  /** The second table of each format holds the differences of the first, which rises from zero to 65536. */
  lemma CountsRise(v: Version, i: nat)
    ensures Count(v, i) < Count(v, i + 1) == Count(v, i) + CountDiff(v, i)
    ensures Count(v, 0) == 0 && Count(v, MODEL_ELEMENTS) == TOTAL
  {
  }

  lemma {:induction false} CountsOrder(v: Version, i: nat, j: nat)
    requires i <= j
    ensures Count(v, i) <= Count(v, j)
    decreases j
  {
    hide Count;
    if i < j {
      CountsOrder(v, i, j - 1);
      CountsRise(v, j - 1);
    }
  }

  /** The slice of a symbol; its width is what the difference table holds. */
  function SymbolSlice(v: Version, s: nat): (c: Slice)
    requires s < MODEL_ELEMENTS
    ensures ValidSlice(c) && c.tot == TOTAL && c.lt == Count(v, s) && c.lt + c.sy == Count(v, s + 1)
  {
    hide Count, CountDiff;
    CountsRise(v, s);
    CountsOrder(v, s + 1, MODEL_ELEMENTS);
    Slice(Count(v, s), CountDiff(v, s), TOTAL)
  }

  /** The linear search of range_get_symbol; 64 stands for running off the table. */
  function Search(v: Version, s: nat, cf: nat): (r: nat)
    requires s <= MODEL_ELEMENTS
    ensures s <= r <= MODEL_ELEMENTS
    decreases MODEL_ELEMENTS - s
  {
    if s == MODEL_ELEMENTS then s
    else if Count(v, s + 1) <= cf then Search(v, s + 1, cf) else s
  }

  /** The search stops inside the table exactly for frequencies below the total, and then at the one symbol whose slice
      holds the frequency. */
  lemma {:induction false} SearchFinds(v: Version, s: nat, cf: nat)
    requires s <= MODEL_ELEMENTS && Count(v, s) <= cf
    ensures var r := Search(v, s, cf);
            && (r < MODEL_ELEMENTS <==> cf < TOTAL)
            && (r < MODEL_ELEMENTS ==> Count(v, r) <= cf < Count(v, r + 1))
            && forall t :: s <= t < MODEL_ELEMENTS && Count(v, t) <= cf < Count(v, t + 1) ==> r == t
    decreases MODEL_ELEMENTS - s
  {
    hide Count;
    CountsRise(v, s);
    if s < MODEL_ELEMENTS {
      if Count(v, s + 1) <= cf {
        SearchFinds(v, s + 1, cf);
      } else {
        CountsOrder(v, s + 1, MODEL_ELEMENTS);
        forall t | s <= t < MODEL_ELEMENTS && Count(v, t) <= cf < Count(v, t + 1)
          ensures t == s
        {
          if t > s {
            CountsOrder(v, s + 1, t);
          }
        }
      }
    }
  }

  // ---------------------------------------------------------------- drawing from the range decoder

  /** Holds at every step of the decoder, whatever the data. */
  predicate Sound(r: Registers) {
    0 <= r.low < r.range <= 0x8000_0000
  }

  lemma {:induction false} NormalizeSound(b: seq<byte>, r: Registers)
    requires Sound(r)
    ensures Sound(Normalize(b, r))
    decreases BOTTOM_VALUE - r.range
  {
    if r.range <= BOTTOM_VALUE {
      NormalizeSound(b, Registers(r.k + 1, 256 * r.low + Digit(b, r.k + 1), 256 * r.range));
    }
  }

  /** A value drawn, or a frequency that belongs to no symbol. */
  datatype Drawn = Drawn(value: nat, next: Registers) | Lost

  predicate SoundDrawn(d: Drawn) {
    d.Drawn? ==> Sound(d.next)
  }

  /** `range_decode_culfreq (tot)` and an update with what it returns. */
  function DrawUniform(b: seq<byte>, r: Registers, tot: nat): (d: Drawn)
    requires Sound(r) && 0 < tot <= TOTAL
    ensures d.Drawn? && Sound(d.next)
  {
    NormalizeSound(b, r);
    var n := Normalize(b, r);
    RemainderSound(n, tot);
    Drawn(Frequency(n, tot), Update(n, Slice(Frequency(n, tot), 1, tot)))
  }

  lemma RemainderSound(n: Registers, tot: nat)
    requires Sound(n) && n.range > BOTTOM_VALUE && 0 < tot <= TOTAL
    ensures Frequency(n, tot) >= 0 && Sound(Update(n, Slice(Frequency(n, tot), 1, tot)))
  {
    var help := n.range / tot;
    QuotientAtLeast(n.range, tot, 1);
    QuotientBounds(n.low, help);
    QuotientBounds(n.range, tot);
    MulUp(1, tot, help);
    QuotientAtLeast(n.low, help, 0);
    assert help * (n.low / help) == n.low / help * help;
  }

  /** `range_get_symbol`. */
  function DrawSymbol(b: seq<byte>, r: Registers, v: Version): (d: Drawn)
    requires Sound(r)
    ensures SoundDrawn(d) && (d.Drawn? ==> d.value < MODEL_ELEMENTS)
  {
    NormalizeSound(b, r);
    var n := Normalize(b, r);
    RemainderSound(n, TOTAL);
    CountsRise(v, 0);
    SearchFinds(v, 0, Frequency(n, TOTAL));
    var s := Search(v, 0, Frequency(n, TOTAL));
    if s == MODEL_ELEMENTS then Lost
    else
      SymbolSound(n, SymbolSlice(v, s));
      Drawn(s, Update(n, SymbolSlice(v, s)))
  }

  lemma SymbolSound(n: Registers, c: Slice)
    requires Sound(n) && n.range > BOTTOM_VALUE && ValidSlice(c)
    requires c.lt <= Frequency(n, c.tot) < c.lt + c.sy
    ensures Sound(Update(n, c))
  {
    var help := n.range / c.tot;
    QuotientAtLeast(n.range, c.tot, 1);
    BetweenMultiples(n.low, help, c.lt, c.sy);
    QuotientBounds(n.range, c.tot);
    MulUp(c.sy, c.tot, help);
  }

  lemma UniformComesBack(b: seq<byte>, s: Span, value: nat, tot: nat, rest: seq<Slice>)
    requires 0 < s.width <= 0x8000_0000 && value < tot <= TOTAL
    requires forall i :: 0 <= i < |rest| ==> ValidSlice(rest[i])
    requires ValidSlice(Slice(value, 1, tot)) && Inside(b, Interval(s, [Slice(value, 1, tot)] + rest))
    ensures Inside(b, s) && Sound(At(b, s))
    ensures var t := Narrow(s, Slice(value, 1, tot));
            && 0 < t.width <= 0x8000_0000
            && DrawUniform(b, At(b, s), tot) == Drawn(value, At(b, t)) && Inside(b, Interval(t, rest))
  {
    hide Normalize, Frequency, Update, Interval, At, Narrow, Inside;
    var cs := [Slice(value, 1, tot)] + rest;
    assert cs[0] == Slice(value, 1, tot) && cs[1..] == rest;
    DecodesEachSlice(b, s, cs);
  }

  lemma SymbolComesBack(b: seq<byte>, s: Span, v: Version, symbol: nat, rest: seq<Slice>)
    requires 0 < s.width <= 0x8000_0000 && symbol < MODEL_ELEMENTS
    requires forall i :: 0 <= i < |rest| ==> ValidSlice(rest[i])
    requires Inside(b, Interval(s, [SymbolSlice(v, symbol)] + rest))
    ensures Inside(b, s) && Sound(At(b, s))
    ensures var t := Narrow(s, SymbolSlice(v, symbol));
            && 0 < t.width <= 0x8000_0000
            && DrawSymbol(b, At(b, s), v) == Drawn(symbol, At(b, t)) && Inside(b, Interval(t, rest))
  {
    hide Normalize, Frequency, Update, Interval, At, Narrow, Inside, Count;
    var c := SymbolSlice(v, symbol);
    var cs := [c] + rest;
    assert cs[0] == c && cs[1..] == rest;
    DecodesEachSlice(b, s, cs);
    CountsRise(v, 0);
    SearchFinds(v, 0, Frequency(Normalize(b, At(b, s)), TOTAL));
  }

  // ---------------------------------------------------------------- the adaptive model

  /** `struct rice_t`. */
  datatype Rice = Rice(k: nat, ksum: u32)

  /** C division of a signed number by two. */
  function Half(x: int): int {
    if x < 0 then -((-x) / 2) else x / 2
  }

  /** `update_rice`. */
  function UpdateRice(rice: Rice, x: int32): Rice {
    var ksum := U32(rice.ksum + Half(Wrap32(x + 1)) - U32(rice.ksum + 16) / 32);
    if rice.k == 0 then Rice(1, ksum)
    else
      var lim := U32(Pow2(rice.k + 4));
      if ksum < lim then Rice(rice.k - 1, ksum)
      else if ksum >= U32(2 * lim) then Rice(rice.k + 1, ksum)
      else Rice(rice.k, ksum)
  }

  function Pivot(rice: Rice): (p: nat)
    ensures 1 <= p < 0x800_0000
  {
    if rice.ksum / 32 == 0 then 1 else rice.ksum / 32
  }

  /** How many low bits of the base are coded apart when the pivot has more than 16. */
  function LowBits(pivot: nat): nat {
    if BitLength(pivot) < 16 then 0 else BitLength(pivot) - 16
  }

  /** `1 << lo_bits`. */
  function Scale(pivot: nat): (p: nat)
    requires TOTAL <= pivot < 0x800_0000
    ensures 0 < p <= TOTAL && pivot / p + 1 <= TOTAL
  {
    SplitPivot(pivot);
    Pow2(LowBits(pivot))
  }

  /** The high part of a large pivot has just sixteen bits. */
  lemma SixteenHighBits(pivot: nat)
    requires TOTAL <= pivot < 0x800_0000
    ensures TOTAL / 2 <= pivot / Scale(pivot) < TOTAL
  {
    hide BitLength, Pow2;
    SplitPivot(pivot);
    var n := BitLength(pivot);
    Pow2Of27();
    Pow2Add(n - 16, 15);
    assert Pow2(16) == 2 * Pow2(15) by { Doubles(15); }
    QuotientAtLeast(pivot, Pow2(n - 16), TOTAL / 2);
  }

  lemma Doubles(n: nat)
    ensures Pow2(n + 1) == 2 * Pow2(n)
  {
  }

  /** `(pivot >> lo_bits) + 1`. */
  function Tops(pivot: nat): (n: nat)
    requires TOTAL <= pivot < 0x800_0000
    ensures 0 < n <= TOTAL
  {
    hide Scale;
    QuotientUpTo(pivot, Scale(pivot));
    pivot / Scale(pivot) + 1
  }

  /** `(base_hi << lo_bits) + base_lo`. */
  function JoinBase(pivot: nat, high: nat, low: nat): nat
    requires TOTAL <= pivot < 0x800_0000
  {
    hide Scale;
    MulUp(0, high, Scale(pivot));
    high * Scale(pivot) + low
  }

  lemma SplitPivot(pivot: nat)
    requires TOTAL <= pivot < 0x800_0000
    ensures 17 <= BitLength(pivot) <= 27
    ensures pivot / Pow2(LowBits(pivot)) < TOTAL && Pow2(LowBits(pivot)) <= TOTAL
  {
    hide BitLength, Pow2;
    Pow2Of27();
    BitLengthBound(pivot, 27);
    Pow2Mono(LowBits(pivot), 16);
    var n := BitLength(pivot);
    if n <= 16 {
      Pow2Mono(n, 16);
    } else {
      Pow2Add(n - 16, 16);
      QuotientBounds(pivot, Pow2(n - 16));
      if pivot / Pow2(n - 16) >= TOTAL {
        MulUp(TOTAL, pivot / Pow2(n - 16), Pow2(n - 16));
      }
    }
  }

  lemma Pow2Of27()
    ensures Pow2(16) == TOTAL && Pow2(27) == 0x800_0000
  {
    assert Pow2(8) == 256;
    Pow2Add(8, 8);
    Pow2Add(16, 8);
    assert Pow2(3) == 8;
    Pow2Add(24, 3);
  }

  /** `x & 1 ? (x >> 1) + 1 : -(x >> 1)`. */
  function Signed(x: int32): int {
    if x % 2 == 1 then x / 2 + 1 else -(x / 2)
  }

  /** The coded value of a sample: its sign is folded into the low bit. */
  function Fold(v: int): nat {
    if v > 0 then 2 * v - 1 else -2 * v
  }

  lemma FoldingIsABijection(x: nat, v: int)
    ensures x < TWO31 ==> Fold(Signed(x)) == x
    ensures Fold(v) < TWO31 ==> Signed(Fold(v)) == v
  {
  }

  // ---------------------------------------------------------------- values of the newer format

  /** `range_decode_short () << 16`, or-ed with a second short, whose sign reaches into the upper half. */
  function JoinShorts(high: int, low: int): int32 {
    if Wrap16(low) < 0 then Wrap16(low) else Wrap32(Wrap16(high) * TOTAL + low % TOTAL)
  }

  /** The quotient part of a value: a symbol, or two shorts behind the last symbol. */
  datatype Piece = Got(value: int32, next: Registers) | Off

  function DrawOverflow(b: seq<byte>, r: Registers): (d: Piece)
    requires Sound(r)
    ensures d.Got? ==> Sound(d.next)
  {
    hide DrawSymbol, DrawUniform;
    match DrawSymbol(b, r, V3980)
    case Lost => Off
    case Drawn(s, r1) =>
      if s < MODEL_ELEMENTS - 1 then Got(s, r1)
      else
        var d2 := DrawUniform(b, r1, TOTAL);
        var d3 := DrawUniform(b, d2.next, TOTAL);
        Got(JoinShorts(d2.value, d3.value), d3.next)
  }

  function DrawBase(b: seq<byte>, r: Registers, pivot: nat): (d: Drawn)
    requires Sound(r) && 1 <= pivot < 0x800_0000
    ensures d.Drawn? && Sound(d.next)
  {
    hide DrawUniform, Scale, Tops, JoinBase;
    if pivot >= TOTAL then
      var d1 := DrawUniform(b, r, Tops(pivot));
      var d2 := DrawUniform(b, d1.next, Scale(pivot));
      Drawn(JoinBase(pivot, d1.value, d2.value), d2.next)
    else DrawUniform(b, r, pivot)
  }

  /** A decoded value and what it leaves behind. */
  datatype Sample = Sample(x: int32, next: Registers, rice: Rice) | Broken

  /** `entropy_decode3980`, before the sign is unfolded. */
  function Draw3980(b: seq<byte>, r: Registers, rice: Rice): (d: Sample)
    requires Sound(r)
    ensures d.Sample? ==> Sound(d.next)
  {
    hide DrawOverflow, DrawBase;
    match DrawOverflow(b, r)
    case Off => Broken
    case Got(overflow, r1) =>
      var d := DrawBase(b, r1, Pivot(rice));
      var x := Wrap32(d.value + overflow * Pivot(rice));
      Sample(x, d.next, UpdateRice(rice, x))
  }

  // ---------------------------------------------------------------- the slices that stand for a value

  function UniformSlice(value: nat, tot: nat): (c: Slice)
    requires value < tot <= TOTAL
    ensures ValidSlice(c)
  {
    Slice(value, 1, tot)
  }

  predicate AllSlices(cs: seq<Slice>) {
    forall i :: 0 <= i < |cs| ==> ValidSlice(cs[i])
  }

  function OverflowSlices(overflow: nat): (cs: seq<Slice>)
    requires overflow < TWO31
    ensures AllSlices(cs)
  {
    if overflow < MODEL_ELEMENTS - 1 then [SymbolSlice(V3980, overflow)]
    else [SymbolSlice(V3980, MODEL_ELEMENTS - 1), UniformSlice(overflow / TOTAL, TOTAL),
          UniformSlice(overflow % TOTAL, TOTAL)]
  }

  function BaseSlices(base: nat, pivot: nat): (cs: seq<Slice>)
    requires base < pivot < 0x800_0000
    ensures AllSlices(cs)
  {
    hide Scale, Tops, JoinBase;
    if pivot >= TOTAL then
      BaseParts(base, pivot);
      [UniformSlice(HighBase(base, pivot), Tops(pivot)), UniformSlice(LowBase(base, pivot), Scale(pivot))]
    else [UniformSlice(base, pivot)]
  }

  function HighBase(base: nat, pivot: nat): nat
    requires TOTAL <= pivot < 0x800_0000
  {
    hide Scale;
    QuotientUpTo(base, Scale(pivot));
    base / Scale(pivot)
  }

  function LowBase(base: nat, pivot: nat): nat
    requires TOTAL <= pivot < 0x800_0000
  {
    hide Scale;
    QuotientUpTo(base, Scale(pivot));
    base % Scale(pivot)
  }

  lemma BaseParts(base: nat, pivot: nat)
    requires base < pivot && TOTAL <= pivot < 0x800_0000
    ensures HighBase(base, pivot) < Tops(pivot) && LowBase(base, pivot) < Scale(pivot)
    ensures JoinBase(pivot, HighBase(base, pivot), LowBase(base, pivot)) == base
  {
    hide Scale;
    SplitBase(base, pivot, Scale(pivot));
  }

  lemma SplitBase(base: nat, pivot: nat, p: nat)
    requires base < pivot && p > 0
    ensures base / p <= pivot / p && 0 <= base % p < p && base / p * p + base % p == base
  {
    QuotientBounds(base, p);
    QuotientAtLeast(pivot, p, base / p);
    assert p * (base / p) == base / p * p;
  }

  /** The slices an encoder in the same state of the model puts a value into. */
  function Slices3980(x: nat, rice: Rice): (cs: seq<Slice>)
    requires x < TWO31
    ensures AllSlices(cs)
  {
    QuotientUpTo(x, Pivot(rice));
    OverflowSlices(x / Pivot(rice)) + BaseSlices(x % Pivot(rice), Pivot(rice))
  }

  lemma QuotientUpTo(x: nat, p: nat)
    requires p > 0
    ensures 0 <= x / p <= x && 0 <= x % p < p && x == x / p * p + x % p
  {
    QuotientBounds(x, p);
    MulUp(1, p, x / p);
  }

  // ---------------------------------------------------------------- what comes back

  lemma {:induction false} IntervalConcat(s: Span, a: seq<Slice>, b: seq<Slice>)
    requires 0 < s.width <= 0x8000_0000 && AllSlices(a) && AllSlices(b)
    ensures AllSlices(a + b) && Interval(s, a + b) == Interval(Interval(s, a), b)
    decreases |a|
  {
    hide Narrow;
    if a == [] {
      assert a + b == b;
    } else {
      assert (a + b)[1..] == a[1..] + b && (a + b)[0] == a[0];
      PartWidth(Widen(s), a[0]);
      NarrowWidth(s, a[0]);
      IntervalConcat(Narrow(s, a[0]), a[1..], b);
    }
  }

  lemma NarrowWidth(s: Span, c: Slice)
    requires 0 < s.width <= 0x8000_0000 && ValidSlice(c)
    ensures 0 < Narrow(s, c).width <= 0x8000_0000
  {
    PartWidth(Widen(s), c);
  }

  lemma IntervalOne(s: Span, c: Slice)
    requires 0 < s.width <= 0x8000_0000 && ValidSlice(c)
    ensures AllSlices([c]) && Interval(s, [c]) == Narrow(s, c)
  {
    NarrowWidth(s, c);
    assert [c][1..] == [];
  }

  lemma UniformArrives(b: seq<byte>, s: Span, value: nat, tot: nat, rest: seq<Slice>)
    requires 0 < s.width <= 0x8000_0000 && value < tot <= TOTAL && AllSlices(rest)
    requires Inside(b, Interval(s, [UniformSlice(value, tot)] + rest))
    ensures Sound(At(b, s))
    ensures var t := Interval(s, [UniformSlice(value, tot)]);
            && DrawUniform(b, At(b, s), tot) == Drawn(value, At(b, t)) && Inside(b, Interval(t, rest))
  {
    hide Interval, Inside, At, Narrow, DrawUniform;
    UniformComesBack(b, s, value, tot, rest);
    IntervalOne(s, UniformSlice(value, tot));
  }

  /** What the decoder makes of a quotient. */
  function Told(overflow: nat): int32
    requires overflow < TWO31
  {
    if overflow < MODEL_ELEMENTS - 1 then overflow else JoinShorts(overflow / TOTAL, overflow % TOTAL)
  }

  /** The sign of the second short spoils every large quotient whose low half has its top bit set, and no other. */
  lemma ToldExactly(overflow: nat)
    requires overflow < TWO31
    ensures Told(overflow) == overflow <==> overflow < MODEL_ELEMENTS - 1 || overflow % TOTAL < 0x8000
    ensures Told(overflow) != overflow ==> Told(overflow) == overflow % TOTAL - TOTAL
  {
  }

  lemma OverflowArrives(b: seq<byte>, s: Span, overflow: nat, rest: seq<Slice>)
    requires 0 < s.width <= 0x8000_0000 && overflow < TWO31 && AllSlices(rest)
    requires Inside(b, Interval(s, OverflowSlices(overflow) + rest))
    ensures Sound(At(b, s))
    ensures var t := Interval(s, OverflowSlices(overflow));
            && DrawOverflow(b, At(b, s)) == Got(Told(overflow), At(b, t)) && Inside(b, Interval(t, rest))
  {
    hide Interval, Inside, At, Narrow, DrawSymbol, DrawUniform, SymbolSlice, UniformSlice, JoinShorts, AllSlices;
    var cs := OverflowSlices(overflow);
    var symbol := if overflow < MODEL_ELEMENTS - 1 then overflow else MODEL_ELEMENTS - 1;
    var c := SymbolSlice(V3980, symbol);
    IntervalOne(s, c);
    var t1 := Narrow(s, c);
    if overflow < MODEL_ELEMENTS - 1 {
      assert cs == [c];
      AllOf(rest);
      SymbolComesBack(b, s, V3980, symbol, rest);
    } else {
      var high, low := UniformSlice(overflow / TOTAL, TOTAL), UniformSlice(overflow % TOTAL, TOTAL);
      OneSlice(high);
      OneSlice(low);
      AppendSlices([low], rest);
      AppendSlices([high], [low] + rest);
      AllOf([high] + ([low] + rest));
      assert cs + rest == [c] + ([high] + ([low] + rest));
      SymbolComesBack(b, s, V3980, symbol, [high] + ([low] + rest));
      UniformArrives(b, t1, overflow / TOTAL, TOTAL, [low] + rest);
      var t2 := Interval(t1, [high]);
      UniformArrives(b, t2, overflow % TOTAL, TOTAL, rest);
      assert cs == [c] + ([high] + [low]);
      AppendSlices([high], [low]);
      IntervalConcat(s, [c], [high] + [low]);
      IntervalConcat(t1, [high], [low]);
    }
  }

  lemma OneSlice(c: Slice)
    requires ValidSlice(c)
    ensures AllSlices([c])
  {
  }

  lemma AppendSlices(a: seq<Slice>, b: seq<Slice>)
    requires AllSlices(a) && AllSlices(b)
    ensures AllSlices(a + b)
  {
  }

  lemma AllOf(cs: seq<Slice>)
    requires AllSlices(cs)
    ensures forall i :: 0 <= i < |cs| ==> ValidSlice(cs[i])
  {
  }

  lemma BaseArrives(b: seq<byte>, s: Span, base: nat, pivot: nat, rest: seq<Slice>)
    requires 0 < s.width <= 0x8000_0000 && base < pivot < 0x800_0000 && AllSlices(rest)
    requires Inside(b, Interval(s, BaseSlices(base, pivot) + rest))
    ensures Sound(At(b, s))
    ensures var t := Interval(s, BaseSlices(base, pivot));
            && DrawBase(b, At(b, s), pivot) == Drawn(base, At(b, t)) && Inside(b, Interval(t, rest))
  {
    hide Interval, Inside, At, DrawUniform, UniformSlice, AllSlices, Scale, Tops, JoinBase, HighBase, LowBase;
    if pivot >= TOTAL {
      BaseParts(base, pivot);
      var high, low := UniformSlice(HighBase(base, pivot), Tops(pivot)), UniformSlice(LowBase(base, pivot), Scale(pivot));
      OneSlice(high);
      OneSlice(low);
      AppendSlices([low], rest);
      assert BaseSlices(base, pivot) + rest == [high] + ([low] + rest);
      UniformArrives(b, s, HighBase(base, pivot), Tops(pivot), [low] + rest);
      var t1 := Interval(s, [high]);
      UniformArrives(b, t1, LowBase(base, pivot), Scale(pivot), rest);
      assert BaseSlices(base, pivot) == [high] + [low];
      IntervalConcat(s, [high], [low]);
    } else {
      UniformArrives(b, s, base, pivot, rest);
    }
  }

  /** Decoding a code value in the interval of a value's slices: the base and what the decoder is told of the quotient. */
  lemma ValueArrives(b: seq<byte>, s: Span, x: nat, rice: Rice, rest: seq<Slice>)
    requires 0 < s.width <= 0x8000_0000 && x < TWO31 && AllSlices(rest)
    requires Inside(b, Interval(s, Slices3980(x, rice) + rest))
    ensures Sound(At(b, s)) && x / Pivot(rice) <= x
    ensures var t := Interval(s, Slices3980(x, rice));
            var x' := Wrap32(x % Pivot(rice) + Told(x / Pivot(rice)) * Pivot(rice));
            && Draw3980(b, At(b, s), rice) == Sample(x', At(b, t), UpdateRice(rice, x')) && Inside(b, Interval(t, rest))
  {
    hide Interval, Inside, At, DrawOverflow, DrawBase, OverflowSlices, BaseSlices, AllSlices, Told, UpdateRice, Pivot,
         Wrap32;
    var p := Pivot(rice);
    QuotientUpTo(x, p);
    var a, c := OverflowSlices(x / p), BaseSlices(x % p, p);
    AppendSlices(c, rest);
    assert a + c + rest == a + (c + rest);
    AllOf(a);
    OverflowArrives(b, s, x / p, c + rest);
    BaseArrives(b, Interval(s, a), x % p, p, rest);
    IntervalConcat(s, a, c);
  }

  /** A value survives exactly when its quotient does. */
  lemma SurvivesExactly(x: nat, p: nat)
    requires x < TWO31 && 0 < p && x / p < TWO31
    ensures Wrap32(x % p + Told(x / p) * p) == x <==> x / p < MODEL_ELEMENTS - 1 || x / p % TOTAL < 0x8000
  {
    hide Told, Wrap32;
    var q := x / p;
    QuotientUpTo(x, p);
    ToldExactly(q);
    if Told(q) == q {
      assert x % p + q * p == x;
      SmallWord(x);
    } else {
      SpoiledQuotient(x, q, p, x % p);
    }
  }

  lemma SmallWord(x: nat)
    requires x < TWO31
    ensures Wrap32(x) == x
  {
  }

  lemma SpoiledQuotient(x: nat, q: nat, p: nat, base: nat)
    requires x == q * p + base && base < p && x < TWO31 && q % TOTAL >= 0x8000
    ensures Wrap32(base + (q % TOTAL - TOTAL) * p) != x
  {
    var high := q / TOTAL + 1;
    assert q == q % TOTAL + TOTAL * (high - 1);
    var d := high * p;
    assert (q % TOTAL - TOTAL) * p == q * p - TOTAL * d by { Spread(q, high, p); }
    MulUp(2 * high - 1, 2 * high, p);
    HighPart(q, high, p);
    MulUp(1, high, p);
    assert 0 < d < TOTAL;
    NotCongruent(x, d);
  }

  lemma Spread(q: int, high: int, p: int)
    requires q == q % TOTAL + TOTAL * (high - 1)
    ensures (q % TOTAL - TOTAL) * p == q * p - TOTAL * (high * p)
  {
    assert q % TOTAL - TOTAL == q - TOTAL * high;
    assert (q - TOTAL * high) * p == q * p - TOTAL * high * p;
    assert TOTAL * high * p == TOTAL * (high * p);
  }

  lemma HighPart(q: nat, high: nat, p: nat)
    requires q % TOTAL >= 0x8000 && high == q / TOTAL + 1 && q * p < TWO31 && p > 0
    ensures high * p < TOTAL
  {
    assert q >= 0x8000 * (2 * high - 1);
    MulUp(0x8000 * (2 * high - 1), q, p);
    assert 0x8000 * (2 * high - 1) * p == 0x8000 * (2 * (high * p) - p);
    MulUp(1, high, p);
  }

  lemma NotCongruent(x: nat, d: nat)
    requires x < TWO31 && 0 < d < TOTAL
    ensures Wrap32(x - TOTAL * d) != x
  {
  }

  // ---------------------------------------------------------------- frames

  /** `riceY` for the first channel, `riceX` for the second. */
  datatype Models = Models(y: Rice, x: Rice) {
    function Of(second: bool): Rice { if second then x else y }

    function With(second: bool, r: Rice): Models {
      if second then this.(x := r) else this.(y := r)
    }
  }

  /** The channel of value i of a frame. */
  predicate Second(stereo: bool, i: nat) {
    stereo && i % 2 == 1
  }

  /** Values decoded one after the other, until one cannot be. */
  datatype Run = Run(values: seq<int>, next: Registers, models: Models)

  /** The loop of `entropy_decode`: n values, the first of which has index i. */
  function DrawRun(b: seq<byte>, r: Registers, m: Models, stereo: bool, i: nat, n: nat): (d: Run)
    requires Sound(r)
    ensures Sound(d.next) && |d.values| <= n
    decreases n
  {
    hide Draw3980;
    if n == 0 then Run([], r, m)
    else
      match Draw3980(b, r, m.Of(Second(stereo, i)))
      case Broken => Run([], r, m)
      case Sample(x, r1, rice) =>
        var d := DrawRun(b, r1, m.With(Second(stereo, i), rice), stereo, i + 1, n - 1);
        d.(values := [Signed(x)] + d.values)
  }

  /** In stereo the channels take turns, each with its own model; in mono there is one. */
  lemma ChannelsTakeTurns(b: seq<byte>, r: Registers, m: Models, i: nat, n: nat)
    requires Sound(r) && i % 2 == 0
    ensures match Draw3980(b, r, m.y)
            case Broken => DrawRun(b, r, m, true, i, n + 2).values == []
            case Sample(v, r1, y) =>
              match Draw3980(b, r1, m.x)
              case Broken => DrawRun(b, r, m, true, i, n + 2).values == [Signed(v)]
              case Sample(w, r2, x) =>
                DrawRun(b, r, m, true, i, n + 2).values
                == [Signed(v), Signed(w)] + DrawRun(b, r2, Models(y, x), true, i + 2, n).values
    ensures match Draw3980(b, r, m.y)
            case Broken => true
            case Sample(v, r1, y) =>
              DrawRun(b, r, m, false, i, n + 1).values == [Signed(v)] + DrawRun(b, r1, Models(y, m.x), false, i + 1, n).values
  {
    hide Draw3980, Signed;
    match Draw3980(b, r, m.y)
    case Broken =>
    case Sample(v, r1, y) =>
      var d := DrawRun(b, r1, m.With(false, y), true, i + 1, n + 1);
      assert DrawRun(b, r, m, true, i, n + 2).values == [Signed(v)] + d.values;
  }

  /** The value fits, and the decoder is told its quotient. */
  predicate Codable(v: int, rice: Rice) {
    Fold(v) < TWO31
    && (Fold(v) / Pivot(rice) < MODEL_ELEMENTS - 1 || Fold(v) / Pivot(rice) % TOTAL < 0x8000)
  }

  /** All values fit as the models adapt along the way. */
  predicate AllCodable(vs: seq<int>, m: Models, stereo: bool, i: nat) {
    vs == [] ||
    (var rice := m.Of(Second(stereo, i));
     && Codable(vs[0], rice)
     && AllCodable(vs[1..], m.With(Second(stereo, i), UpdateRice(rice, Fold(vs[0]))), stereo, i + 1))
  }

  /** The slices of a run of values. */
  function RunSlices(vs: seq<int>, m: Models, stereo: bool, i: nat): (cs: seq<Slice>)
    requires AllCodable(vs, m, stereo, i)
    ensures AllSlices(cs)
  {
    hide Slices3980, UpdateRice, Fold, Pivot;
    if vs == [] then []
    else
      var rice := m.Of(Second(stereo, i));
      var more := RunSlices(vs[1..], m.With(Second(stereo, i), UpdateRice(rice, Fold(vs[0]))), stereo, i + 1);
      AppendSlices(Slices3980(Fold(vs[0]), rice), more);
      Slices3980(Fold(vs[0]), rice) + more
  }

  /** One codable value comes back, with the model both sides adapt alike. */
  lemma CodableArrives(b: seq<byte>, s: Span, v: int, rice: Rice, rest: seq<Slice>)
    requires 0 < s.width <= 0x8000_0000 && Codable(v, rice) && AllSlices(rest)
    requires Inside(b, Interval(s, Slices3980(Fold(v), rice) + rest))
    ensures Sound(At(b, s)) && Signed(Fold(v)) == v
    ensures var t := Interval(s, Slices3980(Fold(v), rice));
            && Draw3980(b, At(b, s), rice) == Sample(Fold(v), At(b, t), UpdateRice(rice, Fold(v)))
            && Inside(b, Interval(t, rest))
  {
    hide Interval, Inside, At, Draw3980, Slices3980, UpdateRice, Pivot, Told, Wrap32, Fold, Signed;
    FoldingIsABijection(0, v);
    ValueArrives(b, s, Fold(v), rice, rest);
    SurvivesExactly(Fold(v), Pivot(rice));
  }

  /** Any code value in the interval of a run of values decodes to exactly those values, mono or stereo, with the models
      adapted as the encoder's are and the registers back at the interval's edge. */
  lemma {:induction false} RunComesBack(b: seq<byte>, s: Span, vs: seq<int>, m: Models, stereo: bool, i: nat)
    requires 0 < s.width <= 0x8000_0000 && AllCodable(vs, m, stereo, i)
    requires Inside(b, Interval(s, RunSlices(vs, m, stereo, i)))
    ensures Sound(At(b, s))
    ensures var d := DrawRun(b, At(b, s), m, stereo, i, |vs|);
            d.values == vs && d.next == At(b, Interval(s, RunSlices(vs, m, stereo, i)))
    decreases |vs|
  {
    hide Interval, Inside, At, Draw3980, Slices3980, UpdateRice, Pivot, Fold, Signed, AllSlices, Second;
    if vs == [] {
      NothingCoded(s);
      InsideSound(b, s);
    } else {
      var rice := m.Of(Second(stereo, i));
      var m1 := m.With(Second(stereo, i), UpdateRice(rice, Fold(vs[0])));
      var cs, more := Slices3980(Fold(vs[0]), rice), RunSlices(vs[1..], m1, stereo, i + 1);
      CodableArrives(b, s, vs[0], rice, more);
      AllOf(cs);
      RunComesBack(b, Interval(s, cs), vs[1..], m1, stereo, i + 1);
      IntervalConcat(s, cs, more);
      assert vs == [vs[0]] + vs[1..];
    }
  }

  /** Every run of codable values can be coded: there are bytes that decode to it. */
  lemma EveryRunCanBeCoded(vs: seq<int>, m: Models, stereo: bool)
    requires AllCodable(vs, m, stereo, 0)
    ensures exists b: seq<byte> ::
              && Sound(At(b, WHOLE))
              && DrawRun(b, At(b, WHOLE), m, stereo, 0, |vs|).values == vs
  {
    hide AllCodable, RunSlices, DrawRun, At, Interval, Inside;
    var cs := RunSlices(vs, m, stereo, 0);
    AllOf(cs);
    var b := CodeOf(cs);
    RunComesBack(b, WHOLE, vs, m, stereo, 0);
  }

  // ---------------------------------------------------------------- what does not come back

  /** Both models at the start of a frame. */
  const FRESH := Models(Rice(10, 0x4000), Rice(10, 0x4000))

  /** The first sample of a frame, -2^23, has the quotient 0x8000 and is decoded as 2^23. */
  lemma LargeSampleIsLost(b: seq<byte>)
    ensures Fold(-0x80_0000) < TWO31 && !Codable(-0x80_0000, FRESH.y)
    ensures Inside(b, Interval(WHOLE, Slices3980(Fold(-0x80_0000), FRESH.y))) ==>
              && Sound(At(b, WHOLE))
              && DrawRun(b, At(b, WHOLE), FRESH, false, 0, 1).values == [0x80_0000]
  {
    hide Interval, Inside, Draw3980, Slices3980, UpdateRice;
    var x, rice := Fold(-0x80_0000), FRESH.y;
    assert Pivot(rice) == 512 && x / 512 == 0x8000 && Told(0x8000) == -0x8000;
    if Inside(b, Interval(WHOLE, Slices3980(x, rice))) {
      var cs := Slices3980(x, rice);
      assert cs + [] == cs;
      ValueArrives(b, WHOLE, x, rice, []);
      var d := Draw3980(b, At(b, WHOLE), rice);
      assert d.x == -0x100_0000 && Signed(d.x) == 0x80_0000;
      assert DrawRun(b, d.next, FRESH.With(false, d.rice), false, 1, 0).values == [];
    }
  }

  /** A symbol is beyond the table exactly if the offset is in what the division by the total leaves over. */
  lemma LostExactly(b: seq<byte>, r: Registers, v: Version)
    requires Sound(r)
    ensures var n := Normalize(b, r); DrawSymbol(b, r, v) == Lost <==> n.range / TOTAL * TOTAL <= n.low
  {
    hide Search, Count, Normalize;
    NormalizeSound(b, r);
    var n := Normalize(b, r);
    RemainderSound(n, TOTAL);
    CountsRise(v, 0);
    SearchFinds(v, 0, Frequency(n, TOTAL));
    QuotientAtLeast(n.range, TOTAL, 1);
    QuotientAtLeast(n.low, n.range / TOTAL, TOTAL);
    SymbolOrLost(b, r, v);
  }

  /** Data that no run is coded as: a frame decodes to one sample, and then the linear search leaves its table. */
  lemma SomeDataIsRefused()
    ensures exists b: seq<byte> ::
              Sound(At(b, WHOLE)) && DrawRun(b, At(b, WHOLE), FRESH, false, 0, 2).values == [-512]
  {
    hide Interval, At, Draw3980, DrawRun, Slices3980, UpdateRice, CodeBytes, Pivot, Told, Digit, Value;
    var b := TopBytes();
    RefusedInterval();
    RefusedSlices();
    var cs := Slices3980(1024, FRESH.y);
    assert cs + [] == cs;
    ValueArrives(b, WHOLE, 1024, FRESH.y, []);
    var d := Draw3980(b, At(b, WHOLE), FRESH.y);
    AtIs(b, REFUSED);
    SecondIsLost(b, d.rice);
    OneThenNone(b, At(b, WHOLE), d);
  }

  /** The interval of a first sample -512: the offset of the code value in it is the largest. */
  const REFUSED := Span(3, 36160 * 0x8000, 784448)

  function TopBytes(): (b: seq<byte>)
    ensures Value(b, 3) == REFUSED.low + 784447 && Digit(b, 4) == 255
  {
    hide CodeBytes, Digit;
    assert Range(0) == 128 && Range(1) == 0x8000 && Range(2) == 0x80_0000 && Range(3) == 0x8000_0000;
    var v := REFUSED.low + 784447;
    var b := CodeBytes(256 * v + 255, 4);
    assert Value(b, 4) == 256 * Value(b, 3) + Digit(b, 4);
    b
  }

  lemma SecondIsLost(b: seq<byte>, rice: Rice)
    requires Digit(b, 4) == 255
    ensures Draw3980(b, Registers(3, 784447, 784448), rice) == Broken
  {
    hide Digit, DrawSymbol, DrawBase;
    var r := Registers(3, 784447, 784448);
    assert Normalize(b, r) == Registers(4, 200818687, 200818688);
    LostExactly(b, r, V3980);
  }

  lemma OneThenNone(b: seq<byte>, r: Registers, d: Sample)
    requires Sound(r) && d == Draw3980(b, r, FRESH.y) && d.Sample? && d.x == 1024
    requires Draw3980(b, d.next, d.rice) == Broken
    ensures DrawRun(b, r, FRESH, false, 0, 2).values == [-512]
  {
    hide Draw3980;
    var m := FRESH.With(false, d.rice);
    assert DrawRun(b, d.next, m, false, 1, 1).values == [];
    assert Signed(1024) == -512;
  }

  lemma AtIs(b: seq<byte>, s: Span)
    ensures At(b, s) == Registers(s.k, Value(b, s.k) - s.low, s.width)
  {
  }

  const SYMBOL_TWO := Slice(36160, 12257, TOTAL)
  const BASE_ZERO := Slice(0, 1, 512)

  lemma RefusedSlices()
    ensures Pivot(FRESH.y) == 512 && Told(2) == 2
    ensures Slices3980(1024, FRESH.y) == [SYMBOL_TWO] + [BASE_ZERO]
  {
    hide Scale, Tops, JoinBase;
    assert SymbolSlice(V3980, 2) == SYMBOL_TWO && UniformSlice(0, 512) == BASE_ZERO;
    assert OverflowSlices(2) == [SYMBOL_TWO] && BaseSlices(0, 512) == [BASE_ZERO];
  }

  lemma RefusedInterval()
    ensures Interval(WHOLE, Slices3980(1024, FRESH.y)) == REFUSED
  {
    hide Interval, Slices3980, Widen, Part;
    RefusedSlices();
    OneSlice(SYMBOL_TWO);
    OneSlice(BASE_ZERO);
    IntervalConcat(WHOLE, [SYMBOL_TWO], [BASE_ZERO]);
    IntervalOne(WHOLE, SYMBOL_TWO);
    RefusedParts();
    IntervalOne(Narrow(WHOLE, SYMBOL_TWO), BASE_ZERO);
  }

  lemma RefusedParts()
    ensures Narrow(Narrow(WHOLE, SYMBOL_TWO), BASE_ZERO) == REFUSED
  {
    var w := Span(3, 0, 0x8000_0000);
    assert Widen(Span(2, 0, 0x80_0000)) == w;
    assert Widen(Span(1, 0, 0x8000)) == w;
    assert Widen(WHOLE) == w;
    var t := Span(3, 36160 * 0x8000, 12257 * 0x8000);
    assert Part(w, SYMBOL_TWO) == t;
    assert Widen(t) == t && Part(t, BASE_ZERO) == REFUSED;
  }

  lemma SymbolOrLost(b: seq<byte>, r: Registers, v: Version)
    requires Sound(r)
    ensures Sound(Normalize(b, r)) && Frequency(Normalize(b, r), TOTAL) >= 0
    ensures DrawSymbol(b, r, v) == Lost <==> Search(v, 0, Frequency(Normalize(b, r), TOTAL)) == MODEL_ELEMENTS
  {
    hide Search, Count, Normalize, Update, SymbolSlice;
    NormalizeSound(b, r);
    RemainderSound(Normalize(b, r), TOTAL);
  }

  lemma NothingCoded(s: Span)
    requires 0 < s.width <= 0x8000_0000
    ensures Interval(s, []) == s
  {
  }

  lemma InsideSound(b: seq<byte>, s: Span)
    requires 0 < s.width <= 0x8000_0000 && Inside(b, s)
    ensures Sound(At(b, s))
  {
  }
}
