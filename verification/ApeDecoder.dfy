/** The code of jni/ape/entropy.c on its static state, proved against modules ApeRange and ApeEntropy. */
module ApeDecoder {
  import opened Machine
  import opened ApeRange
  import opened ApeEntropy

  // ---------------------------------------------------------------- bytes in word order

  /** The input holds little-endian words; they are read from their top byte down. */
  function Unswapped(s: seq<byte>): (r: seq<byte>)
    ensures |r| == 4 * ((|s| + 3) / 4)
  {
    seq(4 * ((|s| + 3) / 4), p requires 0 <= p => ByteAt(s, 4 * (p / 4) + 3 - p % 4))
  }

  lemma UnswappedAt(s: seq<byte>, word: nat, offset: nat)
    requires word % 4 == 0 && offset < 4
    ensures ByteAt(Unswapped(s), word + 3 - offset) == ByteAt(s, word + offset)
  {
    var p := word + 3 - offset;
    assert p / 4 == word / 4 && p % 4 == 3 - offset;
    if p < |Unswapped(s)| {
      assert Unswapped(s)[p] == ByteAt(s, 4 * (p / 4) + 3 - p % 4);
    } else {
      assert word >= |Unswapped(s)|;
    }
  }

  lemma ByteFrom(s: seq<byte>, start: nat, i: nat)
    ensures ByteAt(if start <= |s| then s[start..] else [], i) == ByteAt(s, start + i)
  {
  }

  // ---------------------------------------------------------------- register arithmetic

  /** One turn of the loop of range_dec_normalize. */
  lemma ShiftIn(buffer: u32, low: u32, previous: byte, next: byte)
    requires buffer % 256 == previous && low < BOTTOM_VALUE
    ensures var buffer' := U32(buffer * 256) + next;
            && 0 <= buffer' < TWO32 && buffer' % 256 == next
            && buffer' / 2 % 256 == previous % 2 * 128 + next / 2
  {
    var h := buffer / 256;
    assert buffer == h * 256 + previous;
    var rest := buffer * 256 - U32(buffer * 256);
    assert U32(buffer * 256) % 512 == previous % 2 * 256 by { TopOfWord(h, previous); }
    HalfOfNine(U32(buffer * 256), previous % 2, next);
  }

  lemma TopOfWord(h: nat, previous: nat)
    ensures U32((h * 256 + previous) * 256) % 512 == previous % 2 * 256
  {
    var x := (h * 256 + previous) * 256;
    assert x == 512 * (h * 128 + previous / 2) + previous % 2 * 256;
    assert x == U32(x) + 512 * (0x80_0000 * (x / TWO32));
    SameRemainder(U32(x), previous % 2 * 256, h * 128 + previous / 2 - 0x80_0000 * (x / TWO32));
  }

  lemma SameRemainder(x: nat, v: nat, k: int)
    requires x == v + 512 * k && v < 512
    ensures x % 512 == v
  {
  }

  lemma ByteRemainder(x: nat, v: nat, k: int)
    requires x == v + 256 * k && v < 256
    ensures x % 256 == v
  {
  }

  lemma HalfIs(x: nat, y: nat, r: nat)
    requires x == 2 * y + r && r < 2
    ensures x / 2 == y
  {
  }

  lemma HalfOfNine(x: nat, bit: nat, next: byte)
    requires x % 512 == bit * 256 && bit <= 1 && x < TWO32
    ensures x + next < TWO32 && (x + next) % 256 == next && (x + next) / 2 % 256 == bit * 128 + next / 2
  {
    NineParts(x, x / 512, bit, next, next / 2, next % 2);
  }

  lemma NineParts(x: nat, q: nat, bit: nat, next: byte, h: nat, r: nat)
    requires x == 512 * q + bit * 256 && bit <= 1 && x < TWO32 && next == 2 * h + r && r < 2
    ensures x + next < TWO32 && (x + next) % 256 == next && (x + next) / 2 % 256 == bit * 128 + h
  {
    ByteRemainder(x + next, next, 2 * q + bit);
    var y := 256 * q + bit * 128 + h;
    HalfIs(x + next, y, r);
    ByteRemainder(y, bit * 128 + h, q);
  }

  lemma NormalizeTurn(b: seq<byte>, r: Registers)
    requires r.range > 0
    ensures r.range > BOTTOM_VALUE ==> ApeRange.Normalize(b, r) == r
    ensures r.range <= BOTTOM_VALUE ==>
              ApeRange.Normalize(b, r)
              == ApeRange.Normalize(b, Registers(r.k + 1, 256 * r.low + Digit(b, r.k + 1), 256 * r.range))
  {
    hide Digit;
  }

  // ---------------------------------------------------------------- the decoder

  class Decoder {
    const inbuffer: seq<byte>
    ghost const start: nat           // where range_start_decoding reads its first byte
    var bytebuffer: nat
    var bytebufferoffset: nat
    var low: u32
    var range: u32
    var help: u32
    var buffer: u32
    var riceX: Rice
    var riceY: Rice
    ghost var k: nat

    function Position(): int
      reads this`bytebuffer, this`bytebufferoffset
    {
      bytebuffer + 3 - bytebufferoffset
    }

    ghost predicate Placed()
      reads this`bytebuffer, this`bytebufferoffset
    {
      bytebuffer % 4 == 0 && bytebufferoffset < 4
    }

    /** The bytes of the code value. */
    ghost function Data(): seq<byte> {
      var s := Unswapped(inbuffer);
      if start <= |s| then s[start..] else []
    }

    ghost function View(): Registers
      reads this`k, this`low, this`range
    {
      Registers(k, low, range)
    }

    ghost predicate Valid()
      reads this`bytebuffer, this`bytebufferoffset, this`k, this`low, this`range, this`buffer
    {
      && Placed() && Position() == start + k + 1
      && Sound(View()) && buffer % 256 == ByteAt(Data(), k)
    }

    /** `read_byte` and `skip_byte`: bytes past the end of the input count as zero. */
    method ReadByte() returns (ch: byte)
      requires Placed()
      modifies this`bytebuffer, this`bytebufferoffset
      ensures Placed() && Position() == old(Position()) + 1
      ensures ch == ByteAt(Unswapped(inbuffer), old(Position()))
    {
      UnswappedAt(inbuffer, bytebuffer, bytebufferoffset);
      ch := ByteAt(inbuffer, bytebuffer + bytebufferoffset);
      if bytebufferoffset == 0 {
        bytebuffer := bytebuffer + 4;
        bytebufferoffset := 3;
      } else {
        bytebufferoffset := bytebufferoffset - 1;
      }
    }

    /** The end of `init_entropy_decoder`: the models in their first state and `range_start_decoding`. */
    constructor (input: seq<byte>, word: nat, offset: nat)
      requires word % 4 == 0 && offset < 4
      ensures inbuffer == input && start == word + 3 - offset
      ensures Valid() && View() == At(Data(), WHOLE)
      ensures riceX == riceY == Rice(10, 0x4000)
    {
      inbuffer, start := input, word + 3 - offset;
      bytebuffer, bytebufferoffset := word, offset;
      riceX, riceY := Rice(10, 0x4000), Rice(10, 0x4000);
      low, range, help, buffer, k := 0, 0, 0, 0, 0;
      new;
      ByteFrom(Unswapped(inbuffer), start, 0);
      var ch := ReadByte();
      buffer := ch;
      low := buffer / 2;
      range := 128;
    }

    /** `range_dec_normalize`. */
    method Normalize()
      requires Valid()
      modifies this`bytebuffer, this`bytebufferoffset, this`low, this`range, this`buffer, this`k
      ensures Valid() && View() == ApeRange.Normalize(Data(), old(View()))
    {
      assert range > 0;
      hide ApeRange.Normalize, Digit, Unswapped, Decoder.Valid, Decoder.Data, Decoder.Placed, Decoder.Position, Sound;
      ghost var target := ApeRange.Normalize(Data(), View());
      while range <= BOTTOM_VALUE
        invariant Valid() && range > 0 && ApeRange.Normalize(Data(), View()) == target
        decreases BOTTOM_VALUE - range
      {
        Turn();
      }
      NormalizeTurn(Data(), View());
    }

    method Turn()
      requires Valid() && 0 < range <= BOTTOM_VALUE
      modifies this`bytebuffer, this`bytebufferoffset, this`low, this`range, this`buffer, this`k
      ensures Valid() && range > old(range)
      ensures ApeRange.Normalize(Data(), View()) == ApeRange.Normalize(Data(), old(View()))
    {
      hide ApeRange.Normalize, Digit, Unswapped, Decoder.Valid, Decoder.Data, Decoder.Placed, Decoder.Position, Sound;
      NormalizeTurn(Data(), View());
      ShiftByte();
    }

    /** One turn of the loop of `range_dec_normalize`. */
    method ShiftByte()
      requires Valid() && range <= BOTTOM_VALUE
      modifies this`bytebuffer, this`bytebufferoffset, this`low, this`range, this`buffer, this`k
      ensures Valid() && range > old(range) > 0
      ensures View() == Registers(old(k) + 1, 256 * old(low) + Digit(Data(), old(k) + 1), 256 * old(range))
    {
      ByteFrom(Unswapped(inbuffer), start, k + 1);
      ghost var previous := ByteAt(Data(), k);
      var ch := ReadByte();
      ShiftIn(buffer, low, previous, ch);
      buffer := U32(buffer * 256) + ch;
      low := low * 256 + buffer / 2 % 256;
      range := range * 256;
      k := k + 1;
    }

    /** `range_decode_culfreq`; `range_decode_culshift (n)` is the same for a total of 1 << n. */
    method DecodeCulfreq(tot: nat) returns (cf: nat)
      requires Valid() && 0 < tot <= TOTAL
      modifies this
      ensures Valid() && View() == ApeRange.Normalize(Data(), old(View()))
      ensures range > BOTTOM_VALUE && help == range / tot > 0 && cf == Frequency(View(), tot)
      ensures riceX == old(riceX) && riceY == old(riceY)
    {
      Normalize();
      QuotientAtLeast(range, tot, 1);
      QuotientUpTo(range, tot);
      help := range / tot;
      QuotientUpTo(low, help);
      cf := low / help;
    }

    /** `range_decode_update`. */
    method DecodeUpdate(c: Slice)
      requires Valid() && range > BOTTOM_VALUE && ValidSlice(c) && help == range / c.tot
      requires c.lt <= Frequency(View(), c.tot) < c.lt + c.sy
      modifies this`low, this`range
      ensures Valid() && View() == Update(old(View()), c)
    {
      SymbolSound(View(), c);
      low := low - help * c.lt;
      range := help * c.sy;
    }

    /** A uniform value: culfreq and an update with what it returned. */
    method DecodeUniform(tot: nat) returns (value: nat)
      requires Valid() && 0 < tot <= TOTAL
      modifies this
      ensures Valid() && DrawUniform(Data(), old(View()), tot) == Drawn(value, View())
      ensures riceX == old(riceX) && riceY == old(riceY)
    {
      value := DecodeCulfreq(tot);
      UniformUpdate(value, tot);
    }

    /** An update by one, wherever the frequency is. */
    method UniformUpdate(value: nat, tot: nat)
      requires Valid() && range > BOTTOM_VALUE && 0 < tot <= TOTAL && help == range / tot
      requires value == Frequency(View(), tot)
      modifies this`low, this`range
      ensures Valid() && View() == Update(old(View()), Slice(value, 1, tot))
    {
      RemainderSound(View(), tot);
      low := low - help * value;
      range := help * 1;
    }

    /** `range_get_symbol`; false where the source would read past its table. */
    method GetSymbol(v: Version) returns (ok: bool, symbol: nat)
      requires Valid()
      modifies this
      ensures riceX == old(riceX) && riceY == old(riceY)
      ensures ok ==> Valid()
      ensures DrawSymbol(Data(), old(View()), v) == if ok then Drawn(symbol, View()) else Lost
    {
      hide Count, Update, ApeRange.Normalize;
      var cf := DecodeCulfreq(TOTAL);
      symbol := 0;
      CountsRise(v, 0);
      SearchFinds(v, 0, cf);
      while symbol < MODEL_ELEMENTS && Count(v, symbol + 1) <= cf
        invariant 0 <= symbol <= MODEL_ELEMENTS && Search(v, symbol, cf) == Search(v, 0, cf)
      {
        symbol := symbol + 1;
      }
      ok := symbol < MODEL_ELEMENTS;
      if ok {
        DecodeUpdate(SymbolSlice(v, symbol));
      }
    }

    /** Lines 306-311: the quotient. */
    method DecodeOverflow() returns (ok: bool, overflow: int32)
      requires Valid()
      modifies this
      ensures riceX == old(riceX) && riceY == old(riceY)
      ensures ok ==> Valid()
      ensures DrawOverflow(Data(), old(View())) == if ok then Got(overflow, View()) else Off
    {
      hide DrawSymbol, DrawUniform, JoinShorts;
      var symbol;
      ok, symbol := GetSymbol(V3980);
      if !ok {
        return false, 0;
      }
      overflow := symbol;
      if symbol == MODEL_ELEMENTS - 1 {
        var high := DecodeUniform(TOTAL);
        var low := DecodeUniform(TOTAL);
        overflow := JoinShorts(high, low);
      }
    }

    /** Lines 313-337: the remainder. */
    method DecodeBase(pivot: nat) returns (base: nat)
      requires Valid() && 1 <= pivot < 0x800_0000
      modifies this
      ensures riceX == old(riceX) && riceY == old(riceY)
      ensures Valid() && DrawBase(Data(), old(View()), pivot) == Drawn(base, View())
    {
      hide DrawUniform, Scale, Tops, JoinBase;
      if pivot >= TOTAL {
        var high := DecodeUniform(Tops(pivot));
        var low := DecodeUniform(Scale(pivot));
        base := JoinBase(pivot, high, low);
      } else {
        base := DecodeUniform(pivot);
      }
    }

    function Model(second: bool): Rice
      reads this
    {
      if second then riceX else riceY
    }

    ghost function ModelsView(): Models
      reads this
    {
      Models(riceY, riceX)
    }

    /** `entropy_decode3980`. */
    method EntropyDecode3980(second: bool) returns (ok: bool, value: int)
      requires Valid()
      modifies this
      ensures ok ==> Valid()
      ensures match Draw3980(Data(), old(View()), old(ModelsView()).Of(second))
              case Broken => !ok
              case Sample(x, r, rice) =>
                ok && value == Signed(x) && View() == r && ModelsView() == old(ModelsView()).With(second, rice)
    {
      hide DrawOverflow, DrawBase, UpdateRice, Wrap32, Signed;
      var pivot := Pivot(Model(second));
      var overflow;
      ok, overflow := DecodeOverflow();
      if !ok {
        return false, 0;
      }
      var base := DecodeBase(pivot);
      var x := Wrap32(base + overflow * pivot);
      if second {
        riceX := UpdateRice(riceX, x);
      } else {
        riceY := UpdateRice(riceY, x);
      }
      value := Signed(x);
    }

    /** The loop of `entropy_decode` over n values, both channels in turn when there are two; it stops where the source
        would read past its table. */
    method EntropyDecode(n: nat, stereo: bool) returns (values: seq<int>)
      requires Valid()
      modifies this
      ensures var d := DrawRun(Data(), old(View()), old(ModelsView()), stereo, 0, n);
              values == d.values && (|values| == n ==> Valid() && View() == d.next && ModelsView() == d.models)
    {
      hide Draw3980, DrawRun, Second, Signed, Sound, ByteAt, Decoder.Placed, Decoder.Position, Decoder.Data;
      values := [];
      ghost var all := DrawRun(Data(), View(), ModelsView(), stereo, 0, n);
      assert [] + all.values == all.values;
      var i := 0;
      while i < n
        invariant 0 <= i <= n && Valid() && |values| == i
        invariant var d := DrawRun(Data(), View(), ModelsView(), stereo, i, n - i);
                  all == Run(values + d.values, d.next, d.models)
      {
        RunStep(Data(), View(), ModelsView(), stereo, i, n - i);
        ghost var before := values;
        var ok, value := EntropyDecode3980(Second(stereo, i));
        if !ok {
          assert before + [] == before;
          return;
        }
        values := values + [value];
        i := i + 1;
        ghost var d := DrawRun(Data(), View(), ModelsView(), stereo, i, n - i);
        assert before + ([value] + d.values) == values + d.values;
      }
      RunStep(Data(), View(), ModelsView(), stereo, i, 0);
      assert values + [] == values;
    }
  }

  lemma RunStep(b: seq<byte>, r: Registers, m: Models, stereo: bool, i: nat, n: nat)
    requires Sound(r)
    ensures n == 0 ==> DrawRun(b, r, m, stereo, i, n) == Run([], r, m)
    ensures n > 0 ==>
              match Draw3980(b, r, m.Of(Second(stereo, i)))
              case Broken => DrawRun(b, r, m, stereo, i, n) == Run([], r, m)
              case Sample(x, r1, rice) =>
                var d := DrawRun(b, r1, m.With(Second(stereo, i), rice), stereo, i + 1, n - 1);
                DrawRun(b, r, m, stereo, i, n) == Run([Signed(x)] + d.values, d.next, d.models)
  {
    hide Draw3980, Signed;
  }

  /** The data of a frame, from a byte of the word-ordered input on, is a code value in the interval of the frame's
      samples. */
  ghost predicate HoldsFrame(input: seq<byte>, start: nat, vs: seq<int>, stereo: bool)
    requires AllCodable(vs, FRESH, stereo, 0)
  {
    var s := Unswapped(input);
    AllOf(RunSlices(vs, FRESH, stereo, 0));
    Inside(if start <= |s| then s[start..] else [], Interval(WHOLE, RunSlices(vs, FRESH, stereo, 0)))
  }

  /** There is such data for every frame of codable samples. */
  lemma EveryFrameHasData(vs: seq<int>, stereo: bool, start: nat)
    requires AllCodable(vs, FRESH, stereo, 0)
    ensures exists input: seq<byte> :: HoldsFrame(input, start, vs, stereo)
  {
    hide AllCodable, RunSlices, Interval, Unswapped;
    var cs := RunSlices(vs, FRESH, stereo, 0);
    AllOf(cs);
    var b := CodeOf(cs);
    var t := Filled(Zeros(start) + b);
    var input := Unswapped(t);
    SwappedTwice(t);
    assert t[start..] == b + Zeros(|t| - start - |b|);
    SameValue(b, t[start..], Interval(WHOLE, cs).k);
    assert HoldsFrame(input, start, vs, stereo);
  }

  function Zeros(n: nat): (s: seq<byte>)
    ensures |s| == n
  {
    seq(n, i => 0)
  }

  /** Filled up with zeros to whole words. */
  function Filled(s: seq<byte>): (t: seq<byte>)
    ensures |t| % 4 == 0 && s <= t
  {
    s + Zeros((4 - |s| % 4) % 4)
  }

  lemma SwappedTwice(t: seq<byte>)
    requires |t| % 4 == 0
    ensures Unswapped(Unswapped(t)) == t
  {
    var u := Unswapped(t);
    forall p | 0 <= p < |t|
      ensures Unswapped(u)[p] == t[p]
    {
      var q := 4 * (p / 4) + 3 - p % 4;
      assert q / 4 == p / 4 && q % 4 == 3 - p % 4 && 4 * (q / 4) + 3 - q % 4 == p;
      assert u[q] == ByteAt(t, p);
    }
  }

  lemma {:induction false} SameValue(a: seq<byte>, b: seq<byte>, k: nat)
    requires forall i :: 0 <= i ==> ByteAt(a, i) == ByteAt(b, i)
    ensures Value(a, k) == Value(b, k)
  {
    if k == 0 {
    } else {
      SameValue(a, b, k - 1);
    }
  }

  /** A frame decoded from the start of its data: if the data's code value is in the interval of the frame's samples, the
      decoder returns those samples. */
  method DecodeFrame(input: seq<byte>, word: nat, offset: nat, ghost vs: seq<int>, n: nat, stereo: bool)
    returns (values: seq<int>)
    requires word % 4 == 0 && offset < 4 && n == |vs|
    requires AllCodable(vs, FRESH, stereo, 0) && HoldsFrame(input, word + 3 - offset, vs, stereo)
    ensures values == vs
  {
    hide DrawRun, AllCodable, RunSlices, Interval, Inside;
    var decoder := new Decoder(input, word, offset);
    RunComesBack(decoder.Data(), WHOLE, vs, FRESH, stereo, 0);
    values := decoder.EntropyDecode(n, stereo);
  }
}
