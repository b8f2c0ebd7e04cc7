/** The entropy coder of jni/wv/words.c as two state machines over bit strings: what `send_words` and
    `flush_word` append, and what `get_words` and `read_code` take off, one sample at a time.
    The classes in WordsCoder.dfy are proved against these functions. */
module WordSpec {
  import opened Machine
  import opened Arithmetic
  import opened Bits

  const LIMIT_ONES: nat := 16
  const DIV0: nat := 128
  const DIV1: nat := 64
  const DIV2: nat := 32

  /** The three medians of one channel (`entropy_data`, lossless part). */
  datatype Entropy = Entropy(m0: u32, m1: u32, m2: u32)

  const ZERO_ENTROPY := Entropy(0, 0, 0)

  function GetMed(m: u32): (r: nat)
    ensures 1 <= r <= 0x1000_0000
  {
    m / 16 + 1
  }

  function IncMed(m: u32, div: nat): u32
    requires div > 0
  {
    U32(m + U32(m + div) / div * 5)
  }

  function DecMed(m: u32, div: nat): u32
    requires div >= 2
  {
    U32(m - U32(m + (div - 2)) / div * 2)
  }

  /** The interval of magnitudes a ones count selects, and the medians after using it. */
  datatype Zone = Zone(low: u32, span: nat, next: Entropy)

  /** Wraps as the decoder's `low` does on a corrupt stream. */
  function ZoneLow(c: Entropy, ones: u32): u32 {
    var a, b, g := GetMed(c.m0), GetMed(c.m1), GetMed(c.m2);
    if ones == 0 then 0 else if ones == 1 then a else U32(a + b + (ones - 2) * g)
  }

  function ZoneSpan(c: Entropy, ones: u32): (n: nat)
    ensures n < 0x1000_0000
  {
    GetMed(if ones == 0 then c.m0 else if ones == 1 then c.m1 else c.m2) - 1
  }

  function Adapt(c: Entropy, ones: u32): Entropy {
    if ones == 0 then c.(m0 := DecMed(c.m0, DIV0))
    else if ones == 1 then c.(m0 := IncMed(c.m0, DIV0), m1 := DecMed(c.m1, DIV1))
    else Entropy(IncMed(c.m0, DIV0), IncMed(c.m1, DIV1),
                 if ones == 2 then DecMed(c.m2, DIV2) else IncMed(c.m2, DIV2))
  }

  function ZoneOf(c: Entropy, ones: u32): Zone {
    Zone(ZoneLow(c, ones), ZoneSpan(c, ones), Adapt(c, ones))
  }

  /** The ones count the encoder chooses for a magnitude: the one whose zone holds it. */
  function OnesCount(c: Entropy, mag: nat): (k: u32)
    requires mag < TWO31
    ensures k < TWO31 && ZoneLow(c, k) <= mag <= ZoneLow(c, k) + ZoneSpan(c, k)
  {
    var a, b, g := GetMed(c.m0), GetMed(c.m1), GetMed(c.m2);
    if mag < a then 0
    else if mag - a < b then 1
    else if mag - a - b < g then 2
    else
      LastZone(a, b, g, mag);
      2 + (mag - a - b) / g
  }

  /** The encoder's division finds the zone, and no 32-bit operation on the way wraps. */
  lemma LastZone(a: nat, b: nat, g: nat, mag: nat)
    requires a >= 1 && b >= 1 && g >= 1
    requires a + b + g <= mag < TWO31
    ensures var k := 2 + (mag - a - b) / g;
            && 2 < k < TWO31
            && U32(a + b + (k - 2) * g) <= mag <= U32(a + b + (k - 2) * g) + g - 1
  {
    var x := mag - a - b;
    var q := x / g;
    QuotientBounds(x, g);
    if q == 0 {
      assert false;
    }
    assert (2 + q - 2) * g == q * g;
  }

  /** `~v` for a negative v. */
  function Magnitude(v: int32): (m: nat)
    ensures m < TWO31
  {
    var x: int := v;
    if x < 0 then -x - 1 else x
  }

  // ---------------------------------------------------------------- codes

  /** How many of the codes 0..maxcode get by with one bit less. */
  function Extras(maxcode: nat): nat {
    Pow2(BitLength(maxcode)) - maxcode - 1
  }

  /** The shape of a truncated binary code: which values fit the short form, and what the long one holds. */
  lemma CodeShape(code: nat, maxcode: nat)
    requires code <= maxcode && maxcode > 0
    ensures BitLength(maxcode) > 0
    ensures var extras := Extras(maxcode);
            && (code < extras ==> code < Pow2(BitLength(maxcode) - 1))
            && (code >= extras ==> extras <= (code + extras) / 2 < Pow2(BitLength(maxcode) - 1))
  {
    hide BitLength;
    assert Pow2(BitLength(maxcode)) == 2 * Pow2(BitLength(maxcode) - 1);
  }

  /** Truncated binary: `code` among 0..maxcode. */
  function CodeBits(code: nat, maxcode: nat): seq<bool> {
    var n := BitLength(maxcode);
    if n == 0 then [] else
      var extras := Extras(maxcode);
      if code < extras then ToBits(code, n - 1)
      else ToBits((code + extras) / 2, n - 1) + [(code + extras) % 2 == 1]
  }

  /** The length of k in unary, then k without its leading one bit. */
  function GammaBits(k: nat): seq<bool> {
    var n := BitLength(k);
    Ones(n) + [false] + ToBits(k, if n < 2 then 0 else n - 1)
  }

  /** Remainder and sign of one sample. */
  function BodyBits(c: Entropy, v: int32): seq<bool> {
    var mag := Magnitude(v);
    var z := ZoneOf(c, OnesCount(c, mag));
    CodeBits(mag - z.low, z.span) + [v < 0]
  }

  // ---------------------------------------------------------------- encoder

  /** `words_data` on the encoder side; `pend` holds the pend_count low bits of pend_data. */
  datatype Enc = Enc(zeros: u32, one: u32, zero: bool, pend: seq<bool>, c0: Entropy, c1: Entropy) {
    function Chan(ch: nat): Entropy { if ch == 0 then c0 else c1 }

    function WithChan(ch: nat, c: Entropy): Enc {
      if ch == 0 then this.(c0 := c) else this.(c1 := c)
    }
  }

  /** Both channels have adapted down to silence. */
  predicate Quiet(c0: Entropy, c1: Entropy) {
    c0.m0 < 2 && c1.m0 < 2
  }

  function Chan(mono: bool, i: nat): nat {
    if mono then 0 else i % 2
  }

  /** What `flush_word` sends. */
  function FlushBits(e: Enc): seq<bool> {
    (if e.zeros > 0 then GammaBits(e.zeros) else [])
    + (if e.one >= LIMIT_ONES then Ones(LIMIT_ONES) + [false] + GammaBits(e.one - LIMIT_ONES)
       else Ones(e.one) + (if e.zero then [false] else []))
    + e.pend
  }

  function Flushed(e: Enc): Enc {
    e.(zeros := 0, one := 0, zero := false, pend := [])
  }

  /** Lines 554-626 of words.c: one sample past the zero-run test. */
  function PutWord(e: Enc, ch: nat, v: int32): (Enc, seq<bool>) {
    var c := e.Chan(ch);
    var ones := OnesCount(c, Magnitude(v));
    var e1 := e.WithChan(ch, Adapt(c, ones));
    var body := BodyBits(c, v);
    if e1.zero then
      var e2 := if ones > 0 then e1.(one := U32(e1.one + 1)) else e1;
      var e3 := Flushed(e2);
      if ones > 0 then
        (e3.(zero := true, one := U32((ones - 1) * 2), pend := body), FlushBits(e2))
      else
        (e3, FlushBits(e2) + FlushBits(e3.(pend := body)))
    else
      (e1.(zero := true, one := U32(ones * 2), pend := e1.pend + body), [])
  }

  /** One turn of the loop of `send_words`. */
  function SendStep(e: Enc, ch: nat, v: int32): (Enc, seq<bool>) {
    if Quiet(e.c0, e.c1) && !e.zero then
      if e.zeros > 0 then
        if v == 0 then (e.(zeros := U32(e.zeros + 1)), [])
        else
          var (e', bits) := PutWord(Flushed(e), ch, v);
          (e', FlushBits(e) + bits)
      else if v == 0 then
        (e.(c0 := ZERO_ENTROPY, c1 := ZERO_ENTROPY, zeros := 1), [])
      else
        var (e', bits) := PutWord(e, ch, v);
        (e', [false] + bits)
    else
      PutWord(e, ch, v)
  }

  /** `send_words` on the samples vs, the first of which has index i. */
  function SendWords(e: Enc, mono: bool, i: nat, vs: seq<int32>): (Enc, seq<bool>)
    decreases |vs|
  {
    if vs == [] then (e, [])
    else
      var (e1, b1) := SendStep(e, Chan(mono, i), vs[0]);
      var (e2, b2) := SendWords(e1, mono, i + 1, vs[1..]);
      (e2, b1 + b2)
  }

  // ---------------------------------------------------------------- decoder

  /** The next bit; past the end of the data every bit is one. */
  function GetBit(s: seq<bool>): (bool, seq<bool>) {
    if s == [] then (true, []) else (s[0], s[1..])
  }

  function GetBits(s: seq<bool>, n: nat): (nat, seq<bool>)
    decreases n
  {
    if n == 0 then (0, s)
    else
      var (b, s1) := GetBit(s);
      var (v, s2) := GetBits(s1, n - 1);
      (Bit(b) + 2 * v, s2)
  }

  /** Counts one bits up to limit; a zero bit ends the count and is consumed. */
  function Unary(s: seq<bool>, limit: nat): (r: (nat, seq<bool>))
    ensures r.0 <= limit
    decreases limit
  {
    if limit == 0 then (0, s)
    else
      var (b, s1) := GetBit(s);
      if b then
        var (n, s2) := Unary(s1, limit - 1);
        (n + 1, s2)
      else (0, s1)
  }

  datatype Read<+T> = Got(value: T, rest: seq<bool>) | Eof(rest: seq<bool>)

  /** The length-prefixed counts of get_words; 33 one bits in a row mean the end. */
  function ReadGamma(s: seq<bool>): Read<u32> {
    var (n, s1) := Unary(s, 33);
    if n == 33 then Eof(s1)
    else if n < 2 then Got(n, s1)
    else
      var (v, s2) := GetBits(s1, n - 1);
      Got(U32(v + Pow2(n - 1)), s2)
  }

  /** The ones count with its 16-ones escape; 17 one bits in a row mean the end. */
  function ReadOnes(s: seq<bool>): Read<u32> {
    var (n, s1) := Unary(s, LIMIT_ONES + 1);
    if n == LIMIT_ONES + 1 then Eof(s1)
    else if n < LIMIT_ONES then Got(n, s1)
    else
      match ReadGamma(s1)
      case Eof(s2) => Eof(s2)
      case Got(k, s2) => Got(U32(k + LIMIT_ONES), s2)
  }

  /** `read_code`. */
  function ReadCode(s: seq<bool>, maxcode: nat): (nat, seq<bool>) {
    var n := BitLength(maxcode);
    if n == 0 then (0, s)
    else
      var extras := Extras(maxcode);
      var (code, s1) := GetBits(s, n - 1);
      if code < extras then (code, s1)
      else
        var (b, s2) := GetBit(s1);
        (code * 2 - extras + Bit(b), s2)
  }

  /** `words_data` on the decoder side. */
  datatype Dec = Dec(zeros: u32, one: bool, zero: bool, c0: Entropy, c1: Entropy) {
    function Chan(ch: nat): Entropy { if ch == 0 then c0 else c1 }

    function WithChan(ch: nat, c: Entropy): Dec {
      if ch == 0 then this.(c0 := c) else this.(c1 := c)
    }
  }

  datatype Step = Word(value: int32, next: Dec, rest: seq<bool>) | End(next: Dec, rest: seq<bool>)

  /** Lines 442-482 of words.c: the sample, once its ones count is known. */
  function ReadBody(d: Dec, ch: nat, ones: u32, s: seq<bool>): Step {
    var z := ZoneOf(d.Chan(ch), ones);
    var (code, s1) := ReadCode(s, z.span);
    var mid: int := U32(code + z.low);
    var (neg, s2) := GetBit(s1);
    Word(Wrap32(if neg then -mid - 1 else mid), d.WithChan(ch, z.next), s2)
  }

  /** Lines 376-482 of words.c: one sample past the zero-run test. */
  function ReadWord(d: Dec, ch: nat, s: seq<bool>): Step {
    if d.zero then ReadBody(d.(zero := false), ch, 0, s)
    else
      match ReadOnes(s)
      case Eof(s1) => End(d, s1)
      case Got(n, s1) =>
        var odd := n % 2 == 1;
        ReadBody(d.(one := odd, zero := !odd), ch, if d.one then n / 2 + 1 else n / 2, s1)
  }

  /** One turn of the loop of `get_words`. */
  function GetStep(d: Dec, ch: nat, s: seq<bool>): Step {
    if Quiet(d.c0, d.c1) && !d.zero && !d.one then
      if d.zeros > 0 then
        var d1 := d.(zeros := d.zeros - 1);
        if d1.zeros > 0 then Word(0, d1, s) else ReadWord(d1, ch, s)
      else
        match ReadGamma(s)
        case Eof(s1) => End(d, s1)
        case Got(k, s1) =>
          if k > 0 then Word(0, d.(zeros := k, c0 := ZERO_ENTROPY, c1 := ZERO_ENTROPY), s1)
          else ReadWord(d, ch, s1)
    else
      ReadWord(d, ch, s)
  }

  datatype Words = Words(values: seq<int32>, state: Dec, rest: seq<bool>)

  /** `get_words` for n samples, the first of which has index i; fewer when the data ends. */
  function GetWords(d: Dec, mono: bool, i: nat, n: nat, s: seq<bool>): (w: Words)
    ensures |w.values| <= n
    decreases n
  {
    if n == 0 then Words([], d, s)
    else
      match GetStep(d, Chan(mono, i), s)
      case End(d1, s1) => Words([], d1, s1)
      case Word(v, d1, s1) =>
        var w := GetWords(d1, mono, i + 1, n - 1, s1);
        w.(values := [v] + w.values)
  }

  lemma GetWordsStep(d: Dec, mono: bool, i: nat, n: nat, s: seq<bool>)
    ensures n == 0 ==> GetWords(d, mono, i, n, s) == Words([], d, s)
    ensures n > 0 ==>
              match GetStep(d, Chan(mono, i), s)
              case End(d1, s1) => GetWords(d, mono, i, n, s) == Words([], d1, s1)
              case Word(v, d1, s1) =>
                var w := GetWords(d1, mono, i + 1, n - 1, s1);
                GetWords(d, mono, i, n, s) == Words([v] + w.values, w.state, w.rest)
  {
    hide GetStep;
  }
}
