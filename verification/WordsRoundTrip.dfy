/** What `send_words` and `flush_word` write, `get_words` reads back: the one-word-behind encoder and
    the two-flag decoder are related state by state. */
module WordsRoundTrip {
  import opened Machine
  import opened Bits
  import opened WordSpec
  import opened BitIO

  // ---------------------------------------------------------------- codes

  lemma {:induction false} GetBitsConcat(a: seq<bool>, rest: seq<bool>)
    ensures GetBits(a + rest, |a|) == (FromBits(a), rest)
  {
    if a == [] {
      assert a + rest == rest;
    } else {
      GetBitsConcat(a[1..], rest);
      assert (a + rest)[1..] == a[1..] + rest;
    }
  }

  lemma GetBitConcat(b: bool, rest: seq<bool>)
    ensures GetBit([b] + rest) == (b, rest)
  {
    assert ([b] + rest)[1..] == rest;
  }

  /** Fewer ones than the limit, then a zero. */
  lemma {:induction false} UnaryStops(n: nat, rest: seq<bool>, limit: nat)
    requires n < limit
    ensures Unary(Ones(n) + [false] + rest, limit) == (n, rest)
  {
    var s := Ones(n) + [false] + rest;
    if n == 0 {
      assert s[1..] == rest;
    } else {
      UnaryStops(n - 1, rest, limit - 1);
      assert s[1..] == Ones(n - 1) + [false] + rest;
    }
  }

  lemma GammaReadsBack(k: u32, rest: seq<bool>)
    ensures ReadGamma(GammaBits(k) + rest) == Got(k, rest)
  {
    hide FromBits, ToBits, GetBits, GetBit, Unary, Pow2, BitLength;
    var n := BitLength(k);
    BitLengthBound(k, 32) by { Pow2Of32(); }
    var low := ToBits(k, if n < 2 then 0 else n - 1);
    assert GammaBits(k) + rest == Ones(n) + [false] + (low + rest);
    UnaryStops(n, low + rest, 33);
    if n < 2 {
      assert low + rest == rest;
      ShortLength(k);
    } else {
      GetBitsConcat(low, rest);
      LowBits(k, n);
    }
  }

  lemma ShortLength(k: nat)
    ensures BitLength(k) < 2 ==> k == BitLength(k)
  {
  }

  /** Dropping the leading one bit of k leaves k - 2^(n-1). */
  lemma LowBits(k: nat, n: nat)
    requires n == BitLength(k) > 0
    ensures FromBits(ToBits(k, n - 1)) == k - Pow2(n - 1)
  {
    var j := k - Pow2(n - 1);
    ToBitsMod(j, n - 1);
    FromToBits(j, n - 1);
  }

  lemma {:induction false} ToBitsMod(j: nat, m: nat)
    ensures ToBits(j + Pow2(m), m) == ToBits(j, m)
  {
    if m == 0 {
    } else {
      assert (j + Pow2(m)) / 2 == j / 2 + Pow2(m - 1);
      ToBitsMod(j / 2, m - 1);
    }
  }

  lemma CodeReadsBack(code: nat, maxcode: nat, rest: seq<bool>)
    requires code <= maxcode
    ensures ReadCode(CodeBits(code, maxcode) + rest, maxcode) == (code, rest)
  {
    hide ToBits, FromBits, GetBits, Pow2, BitLength, Extras;
    var n := BitLength(maxcode);
    if n == 0 {
      assert [] + rest == rest;
    } else if maxcode > 0 {
      var extras := Extras(maxcode);
      CodeShape(code, maxcode);
      if code < extras {
        FromToBits(code, n - 1);
        GetBitsConcat(ToBits(code, n - 1), rest);
      } else {
        var b := (code + extras) % 2 == 1;
        var a := ToBits((code + extras) / 2, n - 1);
        FromToBits((code + extras) / 2, n - 1);
        assert CodeBits(code, maxcode) + rest == a + ([b] + rest);
        GetBitsConcat(a, [b] + rest);
        GetBitConcat(b, rest);
      }
    } else {
      assert BitLength(0) == 0 by { NoLength(); }
    }
  }

  lemma BodyReadsBack(d: Dec, ch: nat, v: int32, rest: seq<bool>)
    ensures var c := d.Chan(ch); var ones := OnesCount(c, Magnitude(v));
            ReadBody(d, ch, ones, BodyBits(c, v) + rest) == Word(v, d.WithChan(ch, Adapt(c, ones)), rest)
  {
    hide ZoneLow, ZoneSpan, Adapt, OnesCount, CodeBits, ReadCode, GetBit;
    var c := d.Chan(ch);
    var mag := Magnitude(v);
    var ones := U32(OnesCount(c, mag));
    var z := ZoneOf(c, ones);
    var cb := CodeBits(mag - z.low, z.span);
    assert BodyBits(c, v) + rest == cb + ([v < 0] + rest);
    CodeReadsBack(mag - z.low, z.span, [v < 0] + rest);
    GetBitConcat(v < 0, rest);
  }

  // ---------------------------------------------------------------- the held word

  /** The ones count n, escaped from 16 on, as `flush_word` sends it. */
  function OnesBits(n: nat): seq<bool> {
    if n < LIMIT_ONES then Ones(n) + [false]
    else Ones(LIMIT_ONES) + [false] + GammaBits(n - LIMIT_ONES)
  }

  lemma OnesReadBack(n: u32, rest: seq<bool>)
    ensures ReadOnes(OnesBits(n) + rest) == Got(n, rest)
  {
    hide GammaBits, ReadGamma, Unary, GetBit;
    if n < LIMIT_ONES {
      UnaryStops(n, rest, LIMIT_ONES + 1);
    } else {
      var g := GammaBits(n - LIMIT_ONES);
      assert OnesBits(n) + rest == Ones(LIMIT_ONES) + [false] + (g + rest);
      UnaryStops(LIMIT_ONES, g + rest, LIMIT_ONES + 1);
      GammaReadsBack(n - LIMIT_ONES, rest);
    }
  }

  /** Nothing waits to be sent. */
  predicate Idle(e: Enc) {
    e.zeros == 0 && e.one == 0 && !e.zero && e.pend == []
  }

  /** One word waits: its ones count is known, whether the next word shares its code is not. */
  predicate Holding(e: Enc) {
    e.zeros == 0 && e.zero && e.one % 2 == 0
  }

  /** A run of zeros waits. */
  predicate InRun(e: Enc) {
    e.zeros > 0 && e.one == 0 && !e.zero && e.pend == [] && e.c0 == e.c1 == ZERO_ENTROPY
  }

  /** The states between two samples of `send_words`. */
  predicate Reachable(e: Enc) {
    Idle(e) || Holding(e) || InRun(e)
  }

  lemma SendStepReachable(e: Enc, ch: nat, v: int32)
    requires Reachable(e) && e.zeros < TWO32 - 1
    ensures Reachable(SendStep(e, ch, v).0)
    ensures SendStep(e, ch, v).0.zeros <= e.zeros + 1
  {
    hide ZoneLow, ZoneSpan, Adapt, OnesCount, BodyBits, FlushBits;
  }

  /** Everything still to come once the samples vs are sent and the last word is flushed. */
  function Emit(e: Enc, mono: bool, i: nat, vs: seq<int32>): seq<bool> {
    var (e', bits) := SendWords(e, mono, i, vs);
    bits + FlushBits(e')
  }

  function Final(e: Enc, mono: bool, i: nat, vs: seq<int32>): Enc {
    SendWords(e, mono, i, vs).0
  }

  lemma EmitCons(e: Enc, mono: bool, i: nat, vs: seq<int32>)
    requires vs != []
    ensures var (e1, b) := SendStep(e, Chan(mono, i), vs[0]);
            && Emit(e, mono, i, vs) == b + Emit(e1, mono, i + 1, vs[1..])
            && Final(e, mono, i, vs) == Final(e1, mono, i + 1, vs[1..])
  {
    hide SendStep, FlushBits;
    var (e1, b1) := SendStep(e, Chan(mono, i), vs[0]);
    var (e2, b2) := SendWords(e1, mono, i + 1, vs[1..]);
    assert (b1 + b2) + FlushBits(e2) == b1 + (b2 + FlushBits(e2));
  }

  /** Both sides hold the same medians. */
  predicate SameMedians(e: Enc, d: Dec) {
    e.c0 == d.c0 && e.c1 == d.c1
  }

  /** The ones count the decoder is told for v: one less when it already knows there is at least one. */
  function Told(c: Entropy, v: int32, knowsOne: bool): int {
    OnesCount(c, Magnitude(v)) - (if knowsOne then 1 else 0)
  }

  /** The decoder is about to read v; the encoder holds it. */
  predicate Waiting(e: Enc, d: Dec, ch: nat, v: int32) {
    var c := d.Chan(ch);
    && Holding(e)
    && !d.zero && d.zeros == 0
    && Told(c, v, d.one) >= 0
    && e.one == 2 * Told(c, v, d.one)
    && e.pend == BodyBits(c, v)
    && SameMedians(e, d.WithChan(ch, Adapt(c, OnesCount(c, Magnitude(v)))))
  }

  lemma {:induction false} ReadHeld(d: Dec, ch: nat, v: int32, odd: bool, rest: seq<bool>)
    requires !d.zero && Told(d.Chan(ch), v, d.one) >= 0
    ensures var c := d.Chan(ch);
            var n := 2 * Told(c, v, d.one) + Bit(odd);
            && n < TWO32
            && ReadWord(d, ch, OnesBits(n) + BodyBits(c, v) + rest)
               == Word(v, d.(one := odd, zero := !odd).WithChan(ch, Adapt(c, OnesCount(c, Magnitude(v)))), rest)
  {
    hide ZoneLow, ZoneSpan, Adapt, OnesCount, BodyBits, OnesBits, ReadBody, ReadOnes;
    var c := d.Chan(ch);
    var n := 2 * Told(c, v, d.one) + Bit(odd);
    var body := BodyBits(c, v);
    assert OnesBits(n) + body + rest == OnesBits(n) + (body + rest);
    OnesReadBack(n, body + rest);
    BodyReadsBack(d.(one := odd, zero := !odd), ch, v, rest);
  }

  /** The state of `send_words` right after it takes v with nothing waiting. */
  lemma PutIdle(e: Enc, d: Dec, ch: nat, v: int32)
    requires Idle(e) && SameMedians(e, d) && d.zeros == 0 && !d.zero && !d.one
    ensures var (e1, b) := PutWord(e, ch, v); b == [] && Waiting(e1, d, ch, v)
  {
    hide ZoneLow, ZoneSpan, Adapt, OnesCount, BodyBits, FlushBits;
    assert [] + BodyBits(e.Chan(ch), v) == BodyBits(e.Chan(ch), v);
  }

  lemma FlushHeld(e: Enc, n: nat)
    requires e.zeros == 0 && e.zero && e.one == n
    ensures FlushBits(e) == OnesBits(n) + e.pend
  {
    assert FlushBits(e) == [] + OnesBits(n) + e.pend;
  }

  lemma FlushPending(e: Enc, body: seq<bool>)
    ensures FlushBits(Flushed(e).(pend := body)) == body
  {
    assert [] + Ones(0) + body == body;
  }

  lemma EmitIdle(e: Enc, mono: bool, i: nat, rest: seq<bool>)
    requires Idle(e)
    ensures Emit(e, mono, i, []) + rest == rest && Final(e, mono, i, []) == e
  {
    FlushPending(e, []);
    assert Flushed(e) == e;
  }

  lemma GammaOfZero()
    ensures GammaBits(0) == [false]
  {
    assert Ones(0) + [false] + ToBits(0, 0) == [false];
  }

  /** The decoder and the idle encoder agree: the samples vs come back, then `rest` is next. */
  lemma {:induction false} DecodeIdle(e: Enc, d: Dec, mono: bool, i: nat, vs: seq<int32>, rest: seq<bool>)
    requires Idle(e) && SameMedians(e, d) && d.zeros == 0 && !d.zero && !d.one
    requires |vs| < TWO32
    ensures var w := GetWords(d, mono, i, |vs|, Emit(e, mono, i, vs) + rest);
            w.values == vs && SameMedians(Final(e, mono, i, vs), w.state) && w.rest == rest
    decreases |vs|, 2
  {
    hide ZoneLow, ZoneSpan, Adapt, OnesCount, BodyBits, OnesBits, ReadOnes, ReadGamma, ReadBody, Emit, Final, SendWords, FlushBits, PutWord, Told, ReadWord, BitLength, ToBits;
    if vs == [] {
      EmitIdle(e, mono, i, rest);
    } else {
      var ch := Chan(mono, i);
      var v := vs[0];
      var (e1, b) := SendStep(e, ch, v);
      EmitCons(e, mono, i, vs);
      var tail := Emit(e1, mono, i + 1, vs[1..]);
      if Quiet(e.c0, e.c1) && v == 0 {
        DecodeRunStart(e1, d, mono, i, vs, rest);
        assert b + tail + rest == tail + rest;
      } else {
        PutIdle(e, d, ch, v);
        DecodeHeld(e1, d, mono, i, vs, rest);
        if Quiet(e.c0, e.c1) {
          GammaOfZero();
          assert b + tail + rest == GammaBits(0) + (tail + rest);
          GammaReadsBack(0, tail + rest);
        } else {
          assert b + tail + rest == tail + rest;
        }
        assert vs == [v] + vs[1..];
      }
    }
  }

  /** The decoder is about to read vs[0], which the encoder holds. */
  lemma {:induction false} DecodeHeld(e: Enc, d: Dec, mono: bool, i: nat, vs: seq<int32>, rest: seq<bool>)
    requires |vs| > 0 && Waiting(e, d, Chan(mono, i), vs[0])
    requires |vs| < TWO32
    ensures var step := ReadWord(d, Chan(mono, i), Emit(e, mono, i + 1, vs[1..]) + rest);
            && step.Word? && step.value == vs[0]
            && var w := GetWords(step.next, mono, i + 1, |vs| - 1, step.rest);
            && w.values == vs[1..] && SameMedians(Final(e, mono, i + 1, vs[1..]), w.state) && w.rest == rest
    decreases |vs|, 1
  {
    hide ZoneLow, ZoneSpan, Adapt, OnesCount, BodyBits, OnesBits, ReadBody, ReadOnes, FlushBits, ReadWord;
    var ch := Chan(mono, i);
    var v := vs[0];
    var c := d.Chan(ch);
    var n := 2 * Told(c, v, d.one);
    var s := Emit(e, mono, i + 1, vs[1..]) + rest;
    if |vs| == 1 {
      FlushHeld(e, n);
      assert s == OnesBits(n) + BodyBits(c, v) + rest;
      ReadHeld(d, ch, v, false, rest);
    } else {
      DecodeNext(e, d, mono, i, vs, rest);
    }
  }

  lemma {:induction false} DecodeNext(e: Enc, d: Dec, mono: bool, i: nat, vs: seq<int32>, rest: seq<bool>)
    requires |vs| > 1 && Waiting(e, d, Chan(mono, i), vs[0])
    requires |vs| < TWO32
    ensures var step := ReadWord(d, Chan(mono, i), Emit(e, mono, i + 1, vs[1..]) + rest);
            && step.Word? && step.value == vs[0]
            && var w := GetWords(step.next, mono, i + 1, |vs| - 1, step.rest);
            && w.values == vs[1..] && SameMedians(Final(e, mono, i + 1, vs[1..]), w.state) && w.rest == rest
    decreases |vs|, 0
  {
    hide ZoneLow, ZoneSpan, Adapt, OnesCount, BodyBits, OnesBits, ReadBody, ReadOnes, Emit, Final, SendWords, FlushBits, PutWord, SendStep, GammaBits, ReadGamma;
    var ch, ch1 := Chan(mono, i), Chan(mono, i + 1);
    var v, u := vs[0], vs[1];
    var c, cu := d.Chan(ch), e.Chan(ch1);
    var n := 2 * Told(c, v, d.one);
    var body := BodyBits(c, v);
    EmitCons(e, mono, i + 1, vs[1..]);
    assert vs[1..][0] == u && vs[1..][1..] == vs[2..] && vs[1..] == [u] + vs[2..];
    SendHeld(e, ch1, u);
    var (e1, b) := SendStep(e, ch1, u);
    var tail := Emit(e1, mono, i + 2, vs[2..]);
    var s := Emit(e, mono, i + 1, vs[1..]) + rest;
    var odd := OnesCount(cu, Magnitude(u)) > 0;
    var d1 := d.(one := odd, zero := !odd).WithChan(ch, Adapt(c, OnesCount(c, Magnitude(v))));
    if odd {
      assert s == OnesBits(n + 1) + body + (tail + rest);
      ReadHeld(d, ch, v, true, tail + rest);
      DecodeHeld(e1, d1, mono, i + 1, vs[1..], rest);
    } else {
      var bu := BodyBits(cu, u);
      assert s == OnesBits(n) + body + (bu + (tail + rest));
      ReadHeld(d, ch, v, false, bu + (tail + rest));
      BodyReadsBack(d1.(zero := false), ch1, u, tail + rest);
      DecodeIdle(e1, d1.(zero := false).WithChan(ch1, e1.Chan(ch1)), mono, i + 2, vs[2..], rest);
    }
  }

  /** The word behind u settles the code of the held word: odd when u has ones of its own. */
  lemma SendHeld(e: Enc, ch: nat, u: int32)
    requires Holding(e) && e.one < TWO32 - 1
    ensures var (e1, b) := SendStep(e, ch, u);
            var c := e.Chan(ch);
            var k := OnesCount(c, Magnitude(u));
            && e1.c0 == e.WithChan(ch, Adapt(c, k)).c0
            && e1.c1 == e.WithChan(ch, Adapt(c, k)).c1
            && (k > 0 ==> Holding(e1) && e1.one == 2 * (k - 1) && e1.pend == BodyBits(c, u)
                          && b == OnesBits(e.one + 1) + e.pend)
            && (k == 0 ==> Idle(e1) && b == OnesBits(e.one) + e.pend + BodyBits(c, u))
  {
    hide ZoneLow, ZoneSpan, Adapt, OnesCount, BodyBits, OnesBits, FlushBits;
    var c := e.Chan(ch);
    var k := OnesCount(c, Magnitude(u));
    var e1 := e.WithChan(ch, Adapt(c, k));
    if k > 0 {
      FlushHeld(e1.(one := e.one + 1), e.one + 1);
    } else {
      FlushHeld(e1, e.one);
      FlushPending(e1, BodyBits(c, u));
    }
  }

  // ---------------------------------------------------------------- runs of zeros

  function LeadingZeros(vs: seq<int32>): (z: nat)
    ensures z <= |vs|
    ensures z < |vs| ==> vs[z] != 0
  {
    if vs == [] || vs[0] != 0 then 0 else 1 + LeadingZeros(vs[1..])
  }

  const SILENT := Enc(0, 0, false, [], ZERO_ENTROPY, ZERO_ENTROPY)

  /** What follows a run: nothing, or the sample that ended it without another zero-run test. */
  function AfterRun(mono: bool, i: nat, vs: seq<int32>): seq<bool> {
    if vs == [] then [] else Emit(PutWord(SILENT, Chan(mono, i), vs[0]).0, mono, i + 1, vs[1..])
  }

  function AfterRunFinal(mono: bool, i: nat, vs: seq<int32>): Enc {
    if vs == [] then SILENT else Final(PutWord(SILENT, Chan(mono, i), vs[0]).0, mono, i + 1, vs[1..])
  }

  lemma {:induction false} EmitRun(e: Enc, mono: bool, i: nat, vs: seq<int32>)
    requires InRun(e) && e.zeros + |vs| < TWO32
    ensures var z := LeadingZeros(vs);
            && Emit(e, mono, i, vs) == GammaBits(e.zeros + z) + AfterRun(mono, i + z, vs[z..])
            && Final(e, mono, i, vs).c0 == AfterRunFinal(mono, i + z, vs[z..]).c0
            && Final(e, mono, i, vs).c1 == AfterRunFinal(mono, i + z, vs[z..]).c1
    decreases |vs|
  {
    hide ZoneLow, ZoneSpan, Adapt, OnesCount, BodyBits, GammaBits, PutWord, FlushBits, SendWords, Emit, Final;
    if vs == [] {
      FlushRun(e);
      EmitNone(e, mono, i);
      assert FlushBits(e) == GammaBits(e.zeros) + [];
    } else {
      EmitCons(e, mono, i, vs);
      if vs[0] == 0 {
        assert SendStep(e, Chan(mono, i), 0) == (e.(zeros := e.zeros + 1), []);
        var e1 := e.(zeros := e.zeros + 1);
        EmitRun(e1, mono, i + 1, vs[1..]);
        assert [] + Emit(e1, mono, i + 1, vs[1..]) == Emit(e1, mono, i + 1, vs[1..]);
        var z := LeadingZeros(vs[1..]);
        assert vs[z + 1..] == vs[1..][z..];
      } else {
        SendEndsRun(e, Chan(mono, i), vs[0]);
        assert vs[0..] == vs;
      }
    }
  }

  lemma EmitNone(e: Enc, mono: bool, i: nat)
    ensures Emit(e, mono, i, []) == FlushBits(e) && Final(e, mono, i, []) == e
  {
    hide FlushBits;
    assert [] + FlushBits(e) == FlushBits(e);
  }

  lemma FlushRun(e: Enc)
    requires InRun(e)
    ensures FlushBits(e) == GammaBits(e.zeros)
  {
    hide GammaBits;
    assert FlushBits(e) == GammaBits(e.zeros) + Ones(0) + [];
  }

  lemma SendEndsRun(e: Enc, ch: nat, v: int32)
    requires InRun(e) && v != 0
    ensures SendStep(e, ch, v) == (PutWord(SILENT, ch, v).0, GammaBits(e.zeros))
  {
    hide ZoneLow, ZoneSpan, Adapt, OnesCount, BodyBits, GammaBits, PutWord;
    assert Flushed(e) == SILENT;
    FlushRun(e);
    PutIdle(SILENT, Dec(0, false, false, ZERO_ENTROPY, ZERO_ENTROPY), ch, v);
    assert GammaBits(e.zeros) + [] == GammaBits(e.zeros);
  }

  /** The first zero of a run: the decoder learns the length of the whole run. */
  lemma {:induction false} DecodeRunStart(e1: Enc, d: Dec, mono: bool, i: nat, vs: seq<int32>, rest: seq<bool>)
    requires InRun(e1) && e1.zeros == 1
    requires 0 < |vs| < TWO32 && vs[0] == 0
    requires Quiet(d.c0, d.c1) && d.zeros == 0 && !d.zero && !d.one
    ensures var w := GetWords(d, mono, i, |vs|, Emit(e1, mono, i + 1, vs[1..]) + rest);
            w.values == vs && SameMedians(Final(e1, mono, i + 1, vs[1..]), w.state) && w.rest == rest
    decreases |vs|, 1
  {
    hide ZoneLow, ZoneSpan, Adapt, OnesCount, BodyBits, GammaBits, ReadGamma, Emit, Final, SendWords, ReadWord, AfterRun, AfterRunFinal, LeadingZeros;
    EmitRun(e1, mono, i + 1, vs[1..]);
    var z := LeadingZeros(vs[1..]);
    var tail := AfterRun(mono, i + 1 + z, vs[1..][z..]) + rest;
    assert Emit(e1, mono, i + 1, vs[1..]) + rest == GammaBits(1 + z) + tail;
    GammaReadsBack(1 + z, tail);
    DecodeRun(Dec(1 + z, false, false, ZERO_ENTROPY, ZERO_ENTROPY), mono, i + 1, vs[1..], rest);
    assert vs == [0] + vs[1..];
  }

  lemma RunStep(d: Dec, ch: nat, s: seq<bool>)
    requires d.c0 == d.c1 == ZERO_ENTROPY && !d.zero && !d.one && d.zeros > 0
    ensures d.zeros > 1 ==> GetStep(d, ch, s) == Word(0, d.(zeros := d.zeros - 1), s)
    ensures d.zeros == 1 ==> GetStep(d, ch, s) == ReadWord(d.(zeros := 0), ch, s)
  {
    hide ReadWord, ReadGamma;
  }

  /** Inside a run: the decoder still owes zeros - 1 zeros. */
  lemma {:induction false} DecodeRun(d: Dec, mono: bool, i: nat, vs: seq<int32>, rest: seq<bool>)
    requires d.c0 == d.c1 == ZERO_ENTROPY && !d.zero && !d.one
    requires |vs| < TWO32
    requires d.zeros == 1 + LeadingZeros(vs)
    ensures var z := LeadingZeros(vs);
            var w := GetWords(d, mono, i, |vs|, AfterRun(mono, i + z, vs[z..]) + rest);
            w.values == vs && SameMedians(AfterRunFinal(mono, i + z, vs[z..]), w.state) && w.rest == rest
    decreases |vs|, 3
  {
    hide ZoneLow, ZoneSpan, Adapt, OnesCount, BodyBits, Emit, Final, SendWords, ReadWord, PutWord, GetStep, Waiting, ReadBody, GammaBits, GetWords;
    var z := LeadingZeros(vs);
    if vs == [] {
      assert AfterRun(mono, i, vs) + rest == rest;
      GetWordsStep(d, mono, i, 0, rest);
    } else if z > 0 {
      assert vs[z..] == vs[1..][z - 1..];
      var s := AfterRun(mono, i + z, vs[z..]) + rest;
      RunStep(d, Chan(mono, i), s);
      GetWordsStep(d, mono, i, |vs|, s);
      DecodeRun(d.(zeros := d.zeros - 1), mono, i + 1, vs[1..], rest);
      assert vs == [0] + vs[1..];
    } else {
      var ch := Chan(mono, i);
      var d1 := d.(zeros := 0);
      PutIdle(SILENT, d1, ch, vs[0]);
      assert vs[0..] == vs;
      var s := AfterRun(mono, i, vs) + rest;
      RunStep(d, ch, s);
      GetWordsStep(d, mono, i, |vs|, s);
      DecodeHeld(PutWord(SILENT, ch, vs[0]).0, d1, mono, i, vs, rest);
      assert vs == [vs[0]] + vs[1..];
    }
  }

  // ---------------------------------------------------------------- results

  /** Sending in two calls is sending at once. */
  lemma {:induction false} SendSplit(e: Enc, mono: bool, i: nat, a: seq<int32>, b: seq<int32>)
    ensures var (e1, b1) := SendWords(e, mono, i, a);
            var (e2, b2) := SendWords(e1, mono, i + |a|, b);
            SendWords(e, mono, i, a + b) == (e2, b1 + b2)
    decreases |a|
  {
    hide SendStep;
    if a == [] {
      assert a + b == b;
      var (e2, b2) := SendWords(e, mono, i, b);
      assert [] + b2 == b2;
    } else {
      var (e0, b0) := SendStep(e, Chan(mono, i), a[0]);
      SendSplit(e0, mono, i + 1, a[1..], b);
      assert (a + b)[1..] == a[1..] + b;
      var (e1, b1) := SendWords(e0, mono, i + 1, a[1..]);
      var (e2, b2) := SendWords(e1, mono, i + |a|, b);
      assert b0 + (b1 + b2) == (b0 + b1) + b2;
    }
  }

  /** Reading in two calls is reading at once, unless the data ends in the first. */
  lemma {:induction false} GetSplit(d: Dec, mono: bool, i: nat, n1: nat, n2: nat, s: seq<bool>)
    requires |GetWords(d, mono, i, n1, s).values| == n1
    ensures var w1 := GetWords(d, mono, i, n1, s);
            var w2 := GetWords(w1.state, mono, i + n1, n2, w1.rest);
            GetWords(d, mono, i, n1 + n2, s) == Words(w1.values + w2.values, w2.state, w2.rest)
    decreases n1
  {
    hide GetStep, GetWords;
    if n1 == 0 {
      GetWordsStep(d, mono, i, 0, s);
      var w2 := GetWords(d, mono, i, n2, s);
      assert [] + w2.values == w2.values;
    } else {
      GetWordsStep(d, mono, i, n1, s);
      GetWordsStep(d, mono, i, n1 + n2, s);
      var step := GetStep(d, Chan(mono, i), s);
      assert step.Word?;
      GetSplit(step.next, mono, i + 1, n1 - 1, n2, step.rest);
      var w1 := GetWords(step.next, mono, i + 1, n1 - 1, step.rest);
      var w2 := GetWords(w1.state, mono, i + n1, n2, w1.rest);
      assert [step.value] + (w1.values + w2.values) == [step.value] + w1.values + w2.values;
    }
  }

  /** Once the data has ended, asking for more changes nothing. */
  lemma {:induction false} GetEnds(d: Dec, mono: bool, i: nat, n1: nat, n2: nat, s: seq<bool>)
    requires |GetWords(d, mono, i, n1, s).values| < n1
    ensures GetWords(d, mono, i, n1 + n2, s) == GetWords(d, mono, i, n1, s)
    decreases n1
  {
    hide GetStep, GetWords;
    GetWordsStep(d, mono, i, n1, s);
    GetWordsStep(d, mono, i, n1 + n2, s);
    var step := GetStep(d, Chan(mono, i), s);
    if step.Word? {
      GetEnds(step.next, mono, i + 1, n1 - 1, n2, step.rest);
    }
  }

  /** Of a sample's index only the channel matters. */
  lemma {:induction false} SendFromEven(e: Enc, mono: bool, i: nat, k: nat, vs: seq<int32>)
    requires mono || k % 2 == 0
    ensures SendWords(e, mono, i + k, vs) == SendWords(e, mono, i, vs)
    decreases |vs|
  {
    hide SendStep;
    if vs == [] {
    } else {
      assert Chan(mono, i + k) == Chan(mono, i);
      SendFromEven(SendStep(e, Chan(mono, i), vs[0]).0, mono, i + 1, k, vs[1..]);
    }
  }

  lemma {:induction false} GetFromEven(d: Dec, mono: bool, i: nat, k: nat, n: nat, s: seq<bool>)
    requires mono || k % 2 == 0
    ensures GetWords(d, mono, i + k, n, s) == GetWords(d, mono, i, n, s)
    decreases n
  {
    hide GetStep;
    if n == 0 {
    } else {
      assert Chan(mono, i + k) == Chan(mono, i);
      match GetStep(d, Chan(mono, i), s)
      case End(_, _) =>
      case Word(_, d1, s1) => GetFromEven(d1, mono, i + 1, k, n - 1, s1);
    }
  }

  /** The entropy coder is lossless: for all samples, all medians and any data behind them, reading
      what was sent and flushed returns the samples and leaves both sides with the same medians. */
  lemma WordsComeBack(mono: bool, c0: Entropy, c1: Entropy, vs: seq<int32>, rest: seq<bool>)
    requires |vs| < TWO32
    ensures var (e, bits) := SendWords(Enc(0, 0, false, [], c0, c1), mono, 0, vs);
            var w := GetWords(Dec(0, false, false, c0, c1), mono, 0, |vs|, bits + FlushBits(e) + rest);
            w.values == vs && w.state.c0 == e.c0 && w.state.c1 == e.c1 && w.rest == rest
  {
    hide SendStep, GetStep, FlushBits;
    DecodeIdle(Enc(0, 0, false, [], c0, c1), Dec(0, false, false, c0, c1), mono, 0, vs, rest);
  }
}
