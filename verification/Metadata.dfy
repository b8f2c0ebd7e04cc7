/** The block metadata that carries the encoder's state to the decoder: terms, weights, history samples and
    medians, the last three through lossy conversions (jni/wv/pack.c lines 75-187, jni/wv/unpack.c lines
    97-211, jni/wv/words.c lines 151-203 and 713-787). */
module Metadata {
  import opened Machine
  import opened Bits
  import opened WordSpec
  import opened WordsCoder
  import opened LogTables
  import opened DecorrSpec
  import opened DecorrPasses

  const MAX_NTERMS := 16

  // ---------------------------------------------------------------- conversions

  /** `mylog2`. */
  function MyLog2(avalue: u32): (r: nat)
    ensures r <= 8447
  {
    var a := U32(avalue + avalue / 512);
    CountBitsIsLength(a);
    if a < 0x100 then
      SmallLength(a);
      var dbits := CountBits(a);
      dbits * 256 + Log2Table(Bits.Shl(a, 9 - dbits) % 256)
    else
      LargeLength(a);
      var dbits := CountBits(a);
      dbits * 256 + Log2Table(Shr(a, dbits - 9) % 256)
  }

  lemma SmallLength(a: nat)
    requires a < 0x100
    ensures BitLength(a) <= 8
  {
    BitLengthBound(a, 8);
  }

  lemma LargeLength(a: nat)
    requires a >= 0x100
    ensures BitLength(a) >= 9
  {
    BitLengthShift(a);
    if BitLength(a / 0x100) == 0 {
      assert false;
    }
  }

  /** `log2s`. */
  function Log2s(value: int32): (r: int)
    ensures -8447 <= r <= 8447
  {
    hide MyLog2;
    var v: int := value;
    if v < 0 then -(MyLog2(U32(-v)) as int) else MyLog2(v)
  }

  /** `exp2s`. */
  function Exp2s(log: int): int32
    decreases if log < 0 then 1 else 0
  {
    if log < 0 then
      var e: int := Exp2s(-log);
      Wrap32(-e)
    else
      var entry: int := Exp2Table(log % 256);
      var value := entry + 0x100;
      if log / 256 <= 9 then Wrap32(Shr(value, 9 - log / 256))
      else Wrap32(Bits.Shl(value, log / 256 - 9))
  }

  /** `store_weight`. */
  function StoreWeight(weight: int16): (r: int)
    ensures -128 <= r <= 127
  {
    var w: int := if weight > 1024 then 1024 else if weight < -1024 then -1024 else weight;
    var v := if w > 0 then w - (w + 64) / 128 else w;
    (v + 4) / 8
  }

  /** `restore_weight`. */
  function RestoreWeight(b: int): (r: int16)
    requires -128 <= b <= 127
    ensures -1024 <= r <= 1024
  {
    var r := b * 8;
    if r > 0 then r + (r + 64) / 128 else r
  }

  /** A weight that has been through the metadata once goes through unchanged. */
  lemma WeightSettles(b: int)
    requires -128 <= b <= 127
    ensures StoreWeight(RestoreWeight(b)) == b
  {
  }

  // ---------------------------------------------------------------- bytes

  /** A signed char as a byte, and back. */
  function CharByte(x: int): byte {
    x % 256
  }

  function ByteChar(b: byte): (r: int)
    ensures -128 <= r <= 127
  {
    if b < 128 then b else b - 256
  }

  lemma CharComesBack(x: int)
    requires -128 <= x <= 127
    ensures ByteChar(CharByte(x)) == x
  {
  }

  /** `*byteptr++ = temp; *byteptr++ = temp >> 8`. */
  function WordBytes(temp: int): (r: seq<byte>)
    ensures |r| == 2
  {
    [temp % 256, temp / 256 % 256]
  }

  /** `(short)(byteptr [0] + (byteptr [1] << 8))`. */
  function ShortOf(lo: byte, hi: byte): int16 {
    Wrap16(Unsigned(lo, hi))
  }

  /** The same without the cast. */
  function Unsigned(lo: int, hi: int): int {
    lo + hi * 256
  }

  lemma WordComesBack(temp: int)
    requires -TWO15 <= temp < TWO15
    ensures ShortOf(WordBytes(temp)[0], WordBytes(temp)[1]) == temp
    ensures temp >= 0 ==> Unsigned(WordBytes(temp)[0], WordBytes(temp)[1]) == temp
  {
    var q := temp / 256;
    assert temp == temp % 256 + 256 * q;
    if temp >= 0 {
      assert q % 256 == q;
    } else {
      assert q % 256 == q + 256;
      assert Unsigned(temp % 256, q % 256) == temp + TWO16;
    }
  }

  // ---------------------------------------------------------------- terms

  function TermByte(p: DecorrPass): byte {
    (p.term + 5) % 32 + p.delta % 8 * 32
  }

  function TermOf(b: byte): int {
    b % 32 - 5
  }

  function DeltaOf(b: byte): nat {
    b / 32
  }

  lemma TermComesBack(p: DecorrPass)
    requires ValidTerm(p.term) && p.delta <= 7
    ensures TermOf(TermByte(p)) == p.term && DeltaOf(TermByte(p)) == p.delta
  {
  }

  const CLEARED := DecorrPass(0, 0, 0, 0, [0, 0, 0, 0, 0, 0, 0, 0], [0, 0, 0, 0, 0, 0, 0, 0])

  predicate Shaped(ps: seq<DecorrPass>) {
    forall i :: 0 <= i < |ps| ==> |ps[i].samplesA| == |ps[i].samplesB| == MAX_TERM
  }

  function TermBytes(ps: seq<DecorrPass>): (r: seq<byte>)
    ensures |r| == |ps|
  {
    seq(|ps|, i requires 0 <= i < |ps| => TermByte(ps[i]))
  }

  predicate TermsOk(data: seq<byte>) {
    |data| <= MAX_NTERMS && forall i :: 0 <= i < |data| ==> ValidTerm(TermOf(data[i]))
  }

  /** The pass table with the terms set: in the opposite order of the bytes. */
  function TermsSet(ps: seq<DecorrPass>, data: seq<byte>): (qs: seq<DecorrPass>)
    requires |data| <= |ps|
    ensures |qs| == |ps|
    ensures Shaped(ps) ==> Shaped(qs)
  {
    var n := |data|;
    seq(|ps|, j requires 0 <= j < |ps| => if j < n then TermSet(ps[j], data[n - 1 - j]) else ps[j])
  }

  function TermSet(p: DecorrPass, b: byte): DecorrPass {
    p.(term := TermOf(b), delta := DeltaOf(b))
  }

  /** `write_decorr_terms`. */
  method WriteDecorrTerms(passes: array<DecorrPass>, numTerms: nat) returns (data: seq<byte>)
    requires numTerms <= passes.Length
    ensures data == TermBytes(passes[..numTerms])
  {
    data := [];
    for i := 0 to numTerms
      invariant data == TermBytes(passes[..i])
    {
      data := data + [TermByte(passes[i])];
    }
  }

  /** `read_decorr_terms`. */
  method ReadDecorrTerms(passes: array<DecorrPass>, data: seq<byte>) returns (ok: bool, numTerms: nat)
    requires passes.Length == MAX_NTERMS
    modifies passes
    ensures ok <==> TermsOk(data)
    ensures ok ==> numTerms == |data| && passes[..] == TermsSet(old(passes[..]), data)
  {
    var termcnt := |data|;
    numTerms := termcnt;
    if termcnt > MAX_NTERMS {
      return false, 0;
    }
    ghost var ps := passes[..];
    for i := 0 to termcnt
      invariant forall j :: 0 <= j < i ==> ValidTerm(TermOf(data[j]))
      invariant forall j :: termcnt - i <= j < termcnt ==> passes[j] == TermSet(ps[j], data[termcnt - 1 - j])
      invariant forall j :: 0 <= j < passes.Length && !(termcnt - i <= j < termcnt) ==> passes[j] == ps[j]
    {
      var term, delta := TermOf(data[i]), DeltaOf(data[i]);
      passes[termcnt - 1 - i] := passes[termcnt - 1 - i].(term := term, delta := delta);
      if term == 0 || term < -3 || (term > MAX_TERM && term < 17) || term > 18 {
        return false, numTerms;
      }
    }
    ok := true;
  }

  // ---------------------------------------------------------------- weights

  function WeightBytes(p: DecorrPass, mono: bool): (r: seq<byte>)
    ensures |r| == if mono then 1 else 2
  {
    [CharByte(StoreWeight(p.weightA))] + (if mono then [] else [CharByte(StoreWeight(p.weightB))])
  }

  /** The encoder goes on with the weights the decoder will see. */
  function WeightSettled(p: DecorrPass, mono: bool): DecorrPass {
    var q := p.(weightA := RestoreWeight(StoreWeight(p.weightA)));
    if mono then q else q.(weightB := RestoreWeight(StoreWeight(p.weightB)))
  }

  function WeightsSettled(ps: seq<DecorrPass>, mono: bool): (qs: seq<DecorrPass>)
    ensures |qs| == |ps|
    ensures (forall i :: 0 <= i < |ps| ==> ValidPass(ps[i])) ==> forall i :: 0 <= i < |qs| ==> ValidPass(qs[i])
  {
    hide RestoreWeight, StoreWeight;
    seq(|ps|, i requires 0 <= i < |ps| => WeightSettled(ps[i], mono))
  }

  function WeightsWritten(ps: seq<DecorrPass>, mono: bool): (r: seq<byte>)
    ensures |r| == if mono then |ps| else 2 * |ps|
  {
    if ps == [] then []
    else WeightsWritten(ps[..|ps| - 1], mono) + WeightBytes(ps[|ps| - 1], mono)
  }

  function WeightCount(data: seq<byte>, mono: bool): nat {
    if mono then |data| else |data| / 2
  }

  /** Weights from the last pass backwards, zero for the passes without. */
  function WeightsRead(ps: seq<DecorrPass>, mono: bool, data: seq<byte>): (qs: seq<DecorrPass>)
    requires WeightCount(data, mono) <= |ps|
    ensures |qs| == |ps|
  {
    var n := |ps|;
    seq(n, j requires 0 <= j < n => WeightRead(ps[j], mono, data, n - 1 - j))
  }

  lemma WeightsReadAt(ps: seq<DecorrPass>, mono: bool, data: seq<byte>, j: nat)
    requires j < |ps| && WeightCount(data, mono) <= |ps|
    ensures WeightsRead(ps, mono, data)[j] == WeightRead(ps[j], mono, data, |ps| - 1 - j)
  {
    hide WeightRead;
  }

  function WeightRead(p: DecorrPass, mono: bool, data: seq<byte>, i: nat): DecorrPass {
    if i >= WeightCount(data, mono) then p.(weightA := 0, weightB := 0)
    else if mono then p.(weightA := RestoreWeight(ByteChar(data[i])), weightB := 0)
    else p.(weightA := RestoreWeight(ByteChar(data[2 * i])), weightB := RestoreWeight(ByteChar(data[2 * i + 1])))
  }

  /** `write_decorr_weights`. */
  method WriteDecorrWeights(passes: array<DecorrPass>, numTerms: nat, mono: bool) returns (data: seq<byte>)
    requires numTerms <= passes.Length
    modifies passes
    ensures data == WeightsWritten(old(passes[..numTerms]), mono)
    ensures passes[..numTerms] == WeightsSettled(old(passes[..numTerms]), mono)
  {
    hide WeightSettled, WeightBytes;
    data := [];
    ghost var ps := passes[..numTerms];
    for i := 0 to numTerms
      invariant data == WeightsWritten(ps[..i], mono)
      invariant forall j :: 0 <= j < i ==> passes[j] == WeightSettled(ps[j], mono)
      invariant forall j :: i <= j < numTerms ==> passes[j] == ps[j]
    {
      var q, d := SettleWeights(passes[i], mono);
      passes[i] := q;
      data := data + d;
      assert ps[..i + 1][..i] == ps[..i];
    }
    assert ps[..numTerms] == ps;
    assert passes[..numTerms] == WeightsSettled(ps, mono);
  }

  /** One turn of the loop of write_decorr_weights. */
  method SettleWeights(p: DecorrPass, mono: bool) returns (q: DecorrPass, data: seq<byte>)
    ensures q == WeightSettled(p, mono) && data == WeightBytes(p, mono)
  {
    hide StoreWeight, RestoreWeight, CharByte;
    var b := StoreWeight(p.weightA);
    data := [CharByte(b)];
    q := p.(weightA := RestoreWeight(b));
    if !mono {
      b := StoreWeight(p.weightB);
      data := data + [CharByte(b)];
      q := q.(weightB := RestoreWeight(b));
    }
  }

  /** `read_decorr_weights`. */
  method ReadDecorrWeights(passes: array<DecorrPass>, numTerms: nat, mono: bool, data: seq<byte>) returns (ok: bool)
    requires numTerms <= passes.Length
    modifies passes
    ensures ok <==> WeightCount(data, mono) <= numTerms
    ensures ok ==> passes[..numTerms] == WeightsRead(old(passes[..numTerms]), mono, data)
    ensures passes[numTerms..] == old(passes[numTerms..])
  {
    var termcnt := if mono then |data| else |data| / 2;
    if termcnt > numTerms {
      return false;
    }
    ghost var ps, others := passes[..numTerms], passes[numTerms..];
    ClearWeights(passes, numTerms);
    FillWeights(passes, numTerms, mono, data, ps);
    assert passes[..numTerms] == WeightsRead(ps, mono, data);
    assert passes[numTerms..] == others;
    return true;
  }

  function NoWeights(p: DecorrPass): DecorrPass {
    p.(weightA := 0, weightB := 0)
  }

  method ClearWeights(passes: array<DecorrPass>, numTerms: nat)
    requires numTerms <= passes.Length
    modifies passes
    ensures forall j :: 0 <= j < numTerms ==> passes[j] == NoWeights(old(passes[j]))
    ensures forall j :: numTerms <= j < passes.Length ==> passes[j] == old(passes[j])
  {
    for i := 0 to numTerms
      invariant forall j :: 0 <= j < i ==> passes[j] == NoWeights(old(passes[j]))
      invariant forall j :: i <= j < passes.Length ==> passes[j] == old(passes[j])
    {
      passes[i] := NoWeights(passes[i]);
    }
  }

  /** `while (--dpp >= wps->decorr_passes && termcnt--)`. */
  method FillWeights(passes: array<DecorrPass>, numTerms: nat, mono: bool, data: seq<byte>, ghost ps: seq<DecorrPass>)
    requires WeightCount(data, mono) <= numTerms <= passes.Length && |ps| == numTerms
    requires forall j :: 0 <= j < numTerms ==> passes[j] == NoWeights(ps[j])
    modifies passes
    ensures forall j :: 0 <= j < numTerms ==> passes[j] == WeightRead(ps[j], mono, data, numTerms - 1 - j)
    ensures forall j :: numTerms <= j < passes.Length ==> passes[j] == old(passes[j])
  {
    hide RestoreWeight, ByteChar;
    for i := 0 to WeightCount(data, mono)
      invariant forall j :: 0 <= j < numTerms - i ==> passes[j] == NoWeights(ps[j])
      invariant forall j :: numTerms - i <= j < numTerms ==> passes[j] == WeightRead(ps[j], mono, data, numTerms - 1 - j)
      invariant forall j :: numTerms <= j < passes.Length ==> passes[j] == old(passes[j])
    {
      var j := numTerms - 1 - i;
      if mono {
        passes[j] := passes[j].(weightA := RestoreWeight(ByteChar(data[i])));
      } else {
        passes[j] := passes[j].(weightA := RestoreWeight(ByteChar(data[2 * i])));
        passes[j] := passes[j].(weightB := RestoreWeight(ByteChar(data[2 * i + 1])));
      }
    }
  }

  lemma {:induction false} WeightByteAt(ps: seq<DecorrPass>, mono: bool, i: nat)
    requires i < |ps|
    ensures mono ==> WeightsWritten(ps, mono)[i] == CharByte(StoreWeight(ps[i].weightA))
    ensures !mono ==> WeightsWritten(ps, mono)[2 * i] == CharByte(StoreWeight(ps[i].weightA))
                      && WeightsWritten(ps, mono)[2 * i + 1] == CharByte(StoreWeight(ps[i].weightB))
    decreases |ps|
  {
    if i < |ps| - 1 {
      WeightByteAt(ps[..|ps| - 1], mono, i);
    }
  }

  // ---------------------------------------------------------------- history samples

  /** Slots 0..k-1 of one channel or both, interleaved. */
  function FirstSlots(sA: seq<int32>, sB: seq<int32>, mono: bool, k: nat): (r: seq<int32>)
    requires k <= |sA| == |sB|
    ensures |r| == if mono then k else 2 * k
  {
    if k == 0 then []
    else FirstSlots(sA, sB, mono, k - 1) + (if mono then [sA[k - 1]] else [sA[k - 1], sB[k - 1]])
  }

  /** How many values the metadata keeps of a pass. */
  function SampleCount(term: int, mono: bool): nat
    requires ValidTerm(term)
  {
    if term > MAX_TERM then (if mono then 2 else 4)
    else if term < 0 then 2
    else if mono then term else 2 * term
  }

  /** The history values of a pass in the order they are stored. */
  function ValuesOf(p: DecorrPass, mono: bool): (r: seq<int32>)
    requires ValidPass(p)
    ensures |r| == SampleCount(p.term, mono)
  {
    if p.term > MAX_TERM then
      [p.samplesA[0], p.samplesA[1]] + (if mono then [] else [p.samplesB[0], p.samplesB[1]])
    else if p.term < 0 then [p.samplesA[0], p.samplesB[0]]
    else FirstSlots(p.samplesA, p.samplesB, mono, p.term)
  }

  function LogBytes(values: seq<int32>): (r: seq<byte>)
    ensures |r| == 2 * |values|
  {
    if values == [] then []
    else LogBytes(values[..|values| - 1]) + WordBytes(Log2s(values[|values| - 1]))
  }

  /** What a sample becomes by way of its logarithm. */
  function Coarse(x: int32): int32 {
    Exp2s(Log2s(x))
  }

  function CoarseSlots(s: seq<int32>, k: nat): (r: seq<int32>)
    requires k <= |s|
    ensures |r| == |s|
  {
    seq(|s|, i requires 0 <= i < |s| => if i < k then Coarse(s[i]) else s[i])
  }

  /** The slots of a pass the metadata covers, in each channel. */
  function Covered(term: int): (k: nat)
    requires ValidTerm(term)
    ensures k <= MAX_TERM
  {
    if term > MAX_TERM then 2 else if term < 0 then 1 else term
  }

  function SampleSettled(p: DecorrPass, mono: bool): (q: DecorrPass)
    requires ValidPass(p)
    ensures ValidPass(q) && q.term == p.term && q.delta == p.delta
  {
    var k := Covered(p.term);
    p.(samplesA := CoarseSlots(p.samplesA, k),
       samplesB := if mono && p.term > 0 then p.samplesB else CoarseSlots(p.samplesB, k))
  }

  function Silenced(p: DecorrPass): DecorrPass {
    p.(samplesA := [0, 0, 0, 0, 0, 0, 0, 0], samplesB := [0, 0, 0, 0, 0, 0, 0, 0])
  }

  /** Only the first pass keeps its history. */
  function SamplesSettled(ps: seq<DecorrPass>, mono: bool): (qs: seq<DecorrPass>)
    requires forall i :: 0 <= i < |ps| ==> ValidPass(ps[i])
    ensures |qs| == |ps|
  {
    seq(|ps|, i requires 0 <= i < |ps| => if i == 0 then SampleSettled(ps[0], mono) else Silenced(ps[i]))
  }

  function SamplesWritten(ps: seq<DecorrPass>, mono: bool): seq<byte>
    requires forall i :: 0 <= i < |ps| ==> ValidPass(ps[i])
  {
    if ps == [] then [] else LogBytes(ValuesOf(ps[0], mono))
  }

  /** One step of write_decorr_samples: both channels of slot m, or one. */
  method SettleSlot(p: DecorrPass, m: nat, inA: bool, inB: bool) returns (q: DecorrPass, data: seq<byte>)
    requires m < |p.samplesA| == |p.samplesB|
    ensures q == p.(samplesA := if inA then p.samplesA[m := Coarse(p.samplesA[m])] else p.samplesA,
                    samplesB := if inB then p.samplesB[m := Coarse(p.samplesB[m])] else p.samplesB)
    ensures data == (if inA then WordBytes(Log2s(p.samplesA[m])) else [])
                    + (if inB then WordBytes(Log2s(p.samplesB[m])) else [])
  {
    hide Log2s, Exp2s, WordBytes;
    q, data := p, [];
    if inA {
      var temp := Log2s(p.samplesA[m]);
      q := q.(samplesA := p.samplesA[m := Exp2s(temp)]);
      data := WordBytes(temp);
    }
    if inB {
      var temp := Log2s(p.samplesB[m]);
      q := q.(samplesB := p.samplesB[m := Exp2s(temp)]);
      data := data + WordBytes(temp);
    }
  }

  /** The part of `write_decorr_samples` for a pass that keeps its history. */
  method WriteSamples(p: DecorrPass, mono: bool) returns (q: DecorrPass, data: seq<byte>)
    requires ValidPass(p)
    ensures q == SampleSettled(p, mono) && data == LogBytes(ValuesOf(p, mono))
  {
    hide Log2s, Exp2s, WordBytes, Coarse;
    q, data := p, [];
    if p.term > MAX_TERM {
      var d;
      q, d := SettleSlot(q, 0, true, false);
      data := data + d;
      q, d := SettleSlot(q, 1, true, false);
      data := data + d;
      TwoValues(p.samplesA[0], p.samplesA[1]);
      if !mono {
        q, d := SettleSlot(q, 0, false, true);
        data := data + d;
        q, d := SettleSlot(q, 1, false, true);
        data := data + d;
        FourValues(p.samplesA[0], p.samplesA[1], p.samplesB[0], p.samplesB[1]);
      }
      assert q.samplesA == CoarseSlots(p.samplesA, 2);
      assert !mono ==> q.samplesB == CoarseSlots(p.samplesB, 2);
    } else if p.term < 0 {
      q, data := SettleSlot(q, 0, true, true);
      TwoValues(p.samplesA[0], p.samplesB[0]);
      assert q.samplesA == CoarseSlots(p.samplesA, 1);
      assert q.samplesB == CoarseSlots(p.samplesB, 1);
    } else {
      q, data := WriteDelayed(p, mono);
    }
  }

  /** `while (cnt--)` of write_decorr_samples. */
  method WriteDelayed(p: DecorrPass, mono: bool) returns (q: DecorrPass, data: seq<byte>)
    requires ValidPass(p) && Delayed(p.term)
    ensures q == SampleSettled(p, mono) && data == LogBytes(ValuesOf(p, mono))
  {
    hide Log2s, Exp2s, WordBytes, Coarse, CoarseSlots, LogBytes;
    q, data := p, [];
    NoValues();
    CoarseNone(p.samplesA);
    CoarseNone(p.samplesB);
    for m := 0 to p.term
      invariant q == p.(samplesA := CoarseSlots(p.samplesA, m),
                        samplesB := if mono then p.samplesB else CoarseSlots(p.samplesB, m))
      invariant data == LogBytes(FirstSlots(p.samplesA, p.samplesB, mono, m))
    {
      var d;
      CoarseStep(p.samplesA, m);
      CoarseStep(p.samplesB, m);
      q, d := SettleSlot(q, m, true, !mono);
      LogBytesMore(FirstSlots(p.samplesA, p.samplesB, mono, m), p.samplesA[m], p.samplesB[m]);
      data := data + d;
      assert mono ==> d == WordBytes(Log2s(p.samplesA[m]));
    }
  }

  lemma NoValues()
    ensures LogBytes([]) == []
  {
  }

  lemma CoarseNone(s: seq<int32>)
    ensures CoarseSlots(s, 0) == s
  {
  }

  lemma CoarseStep(s: seq<int32>, m: nat)
    requires m < |s|
    ensures CoarseSlots(s, m)[m] == s[m]
    ensures CoarseSlots(s, m)[m := Coarse(s[m])] == CoarseSlots(s, m + 1)
  {
    hide Coarse;
  }

  lemma LogBytesMore(values: seq<int32>, a: int32, b: int32)
    ensures LogBytes(values + [a]) == LogBytes(values) + WordBytes(Log2s(a))
    ensures LogBytes(values + [a, b]) == LogBytes(values) + (WordBytes(Log2s(a)) + WordBytes(Log2s(b)))
  {
    hide Log2s, WordBytes;
    assert (values + [a])[..|values|] == values;
    assert (values + [a, b])[..|values| + 1] == values + [a];
  }

  lemma TwoValues(a: int32, b: int32)
    ensures LogBytes([a, b]) == WordBytes(Log2s(a)) + WordBytes(Log2s(b))
    ensures [a, b] + [] == [a, b]
  {
    LogBytesMore([], a, b);
    assert [] + [a, b] == [a, b];
  }

  lemma FourValues(a: int32, b: int32, c: int32, d: int32)
    ensures LogBytes([a, b] + [c, d])
            == WordBytes(Log2s(a)) + WordBytes(Log2s(b)) + WordBytes(Log2s(c)) + WordBytes(Log2s(d))
  {
    TwoValues(a, b);
    LogBytesMore([a, b], c, d);
  }

  /** `write_decorr_samples`. */
  method WriteDecorrSamples(passes: array<DecorrPass>, numTerms: nat, mono: bool) returns (data: seq<byte>)
    requires numTerms <= passes.Length
    requires forall i :: 0 <= i < numTerms ==> ValidPass(passes[i])
    modifies passes
    ensures data == SamplesWritten(old(passes[..numTerms]), mono)
    ensures passes[..numTerms] == SamplesSettled(old(passes[..numTerms]), mono)
  {
    hide SampleSettled, ValuesOf, LogBytes;
    var wcount := 1;
    data := [];
    ghost var ps := passes[..numTerms];
    for i := 0 to numTerms
      invariant wcount == if i == 0 then 1 else 0
      invariant data == if i == 0 then [] else LogBytes(ValuesOf(ps[0], mono))
      invariant forall j :: 0 <= j < i ==> passes[j] == SamplesSettled(ps, mono)[j]
      invariant forall j :: i <= j < numTerms ==> passes[j] == ps[j]
    {
      if wcount > 0 {
        var q, d := WriteSamples(passes[i], mono);
        passes[i] := q;
        data := d;
        wcount := wcount - 1;
      } else {
        passes[i] := Silenced(passes[i]);
      }
    }
  }

  /** A sample as the decoder rebuilds it; bytes a truncated block does not have count as zero, and make
      the block invalid anyway. */
  function SampleAt(data: seq<byte>, at: nat): int32 {
    Exp2s(ShortOf(if at < |data| then data[at] else 0, if at + 1 < |data| then data[at + 1] else 0))
  }

  /** The history of one pass out of the bytes from `at` on. */
  function SampleRead(p: DecorrPass, mono: bool, data: seq<byte>, at: nat): (q: DecorrPass)
    requires ValidTerm(p.term)
    ensures ValidPass(q) && q == p.(samplesA := q.samplesA, samplesB := q.samplesB)
  {
    if p.term > MAX_TERM then
      p.(samplesA := [SampleAt(data, at), SampleAt(data, at + 2), 0, 0, 0, 0, 0, 0],
         samplesB := if mono then [0, 0, 0, 0, 0, 0, 0, 0]
                     else [SampleAt(data, at + 4), SampleAt(data, at + 6), 0, 0, 0, 0, 0, 0])
    else if p.term < 0 then
      p.(samplesA := [SampleAt(data, at), 0, 0, 0, 0, 0, 0, 0],
         samplesB := [SampleAt(data, at + 2), 0, 0, 0, 0, 0, 0, 0])
    else
      p.(samplesA := seq(MAX_TERM, m requires 0 <= m < MAX_TERM =>
                         if m >= p.term then 0 else SampleAt(data, at + (if mono then 2 * m else 4 * m))),
         samplesB := seq(MAX_TERM, m requires 0 <= m < MAX_TERM =>
                         if m >= p.term || mono then 0 else SampleAt(data, at + 4 * m + 2)))
  }

  /** The passes from the last backwards, as long as there are bytes; and where reading stops. */
  function SamplesRead(ps: seq<DecorrPass>, mono: bool, data: seq<byte>, at: nat): (r: (seq<DecorrPass>, nat))
    requires forall i :: 0 <= i < |ps| ==> ValidTerm(ps[i].term)
    ensures |r.0| == |ps|
  {
    if ps == [] then ([], at)
    else
      var n := |ps| - 1;
      if at >= |data| then
        var (qs, stop) := SamplesRead(ps[..n], mono, data, at);
        (qs + [Silenced(ps[n])], stop)
      else
        var (qs, stop) := SamplesRead(ps[..n], mono, data, at + 2 * SampleCount(ps[n].term, mono));
        (qs + [SampleRead(ps[n], mono, data, at)], stop)
  }

  /** The part of `read_decorr_samples` for one pass, whose slots are clear. */
  method ReadSamples(p: DecorrPass, mono: bool, data: seq<byte>, at: nat) returns (q: DecorrPass, next: nat)
    requires ValidTerm(p.term) && p == Silenced(p)
    ensures q == SampleRead(p, mono, data, at) && next == at + 2 * SampleCount(p.term, mono)
  {
    hide SampleAt;
    q, next := p, at;
    if p.term > MAX_TERM {
      q := q.(samplesA := q.samplesA[0 := SampleAt(data, next)][1 := SampleAt(data, next + 2)]);
      next := next + 4;
      if !mono {
        q := q.(samplesB := q.samplesB[0 := SampleAt(data, next)][1 := SampleAt(data, next + 2)]);
        next := next + 4;
      }
    } else if p.term < 0 {
      q := q.(samplesA := q.samplesA[0 := SampleAt(data, next)]);
      q := q.(samplesB := q.samplesB[0 := SampleAt(data, next + 2)]);
      next := next + 4;
    } else {
      q, next := ReadDelayed(p, mono, data, at);
    }
  }

  /** `while (cnt--)` of read_decorr_samples. */
  method ReadDelayed(p: DecorrPass, mono: bool, data: seq<byte>, at: nat) returns (q: DecorrPass, next: nat)
    requires Delayed(p.term) && p == Silenced(p)
    ensures q == SampleRead(p, mono, data, at) && next == at + 2 * SampleCount(p.term, mono)
  {
    hide SampleAt;
    q, next := p, at;
    ghost var r := SampleRead(p, mono, data, at);
    for m := 0 to p.term
      invariant next == at + (if mono then 2 * m else 4 * m)
      invariant |q.samplesA| == |q.samplesB| == MAX_TERM
      invariant q == p.(samplesA := q.samplesA, samplesB := q.samplesB)
      invariant forall i :: 0 <= i < MAX_TERM ==> q.samplesA[i] == if i < m then r.samplesA[i] else 0
      invariant forall i :: 0 <= i < MAX_TERM ==> q.samplesB[i] == if i < m then r.samplesB[i] else 0
    {
      q := q.(samplesA := q.samplesA[m := SampleAt(data, next)]);
      next := next + 2;
      if !mono {
        q := q.(samplesB := q.samplesB[m := SampleAt(data, next)]);
        next := next + 2;
      }
    }
  }

  /** `read_decorr_samples`. */
  method ReadDecorrSamples(passes: array<DecorrPass>, numTerms: nat, mono: bool, data: seq<byte>) returns (ok: bool)
    requires numTerms <= passes.Length
    requires forall i :: 0 <= i < numTerms ==> ValidTerm(passes[i].term)
    modifies passes
    ensures var (qs, stop) := SamplesRead(old(passes[..numTerms]), mono, data, 0);
            passes[..numTerms] == qs && (ok <==> stop == |data|)
    ensures passes[numTerms..] == old(passes[numTerms..])
  {
    hide SampleRead, SamplesRead, SampleCount, Silenced, StillToRead;
    ghost var ps := passes[..numTerms];
    SilenceAll(passes, numTerms);
    var left: nat, at: nat := numTerms, 0;
    ghost var all := SamplesRead(ps, mono, data, 0);
    ghost var tail: seq<DecorrPass> := [];
    AllStillToRead(ps, mono, data);
    while left > 0 && at < |data|
      invariant 0 <= left <= numTerms && passes[left..numTerms] == tail
      invariant all == StillToRead(ps, left, mono, data, at, tail)
      invariant forall j :: 0 <= j < left ==> passes[j] == Silenced(ps[j])
      invariant forall j :: numTerms <= j < passes.Length ==> passes[j] == old(passes[j])
    {
      StillToReadStep(ps, left, mono, data, at, tail);
      left := left - 1;
      SilencedTwice(ps[left]);
      SilencedReads(ps[left], mono, data, at);
      var q, next := ReadSamples(passes[left], mono, data, at);
      passes[left] := q;
      at := next;
      tail := [q] + tail;
    }
    NothingStillToRead(ps, left, mono, data, at, tail, passes[..numTerms]);
    return at == |data|;
  }

  /** What the loop of read_decorr_samples makes of the first `left` passes, in front of those it has done. */
  function StillToRead(ps: seq<DecorrPass>, left: nat, mono: bool, data: seq<byte>, at: nat, tail: seq<DecorrPass>)
    : (seq<DecorrPass>, nat)
    requires left <= |ps| && forall i :: 0 <= i < |ps| ==> ValidTerm(ps[i].term)
  {
    var (qs, stop) := SamplesRead(ps[..left], mono, data, at);
    (qs + tail, stop)
  }

  lemma AllStillToRead(ps: seq<DecorrPass>, mono: bool, data: seq<byte>)
    requires forall i :: 0 <= i < |ps| ==> ValidTerm(ps[i].term)
    ensures StillToRead(ps, |ps|, mono, data, 0, []) == SamplesRead(ps, mono, data, 0)
  {
    hide SamplesRead;
    assert ps[..|ps|] == ps;
    assert SamplesRead(ps, mono, data, 0).0 + [] == SamplesRead(ps, mono, data, 0).0;
  }

  lemma StillToReadStep(ps: seq<DecorrPass>, left: nat, mono: bool, data: seq<byte>, at: nat, tail: seq<DecorrPass>)
    requires 0 < left <= |ps| && at < |data| && forall i :: 0 <= i < |ps| ==> ValidTerm(ps[i].term)
    ensures var q := SampleRead(ps[left - 1], mono, data, at);
            var next := at + 2 * SampleCount(ps[left - 1].term, mono);
            StillToRead(ps, left, mono, data, at, tail) == StillToRead(ps, left - 1, mono, data, next, [q] + tail)
  {
    hide SamplesRead, SampleRead, SampleCount;
    SamplesReadStep(ps, left, mono, data, at);
    var q := SampleRead(ps[left - 1], mono, data, at);
    var qs := SamplesRead(ps[..left - 1], mono, data, at + 2 * SampleCount(ps[left - 1].term, mono)).0;
    assert (qs + [q]) + tail == qs + ([q] + tail);
  }

  lemma NothingStillToRead(ps: seq<DecorrPass>, left: nat, mono: bool, data: seq<byte>, at: nat, tail: seq<DecorrPass>,
                           now: seq<DecorrPass>)
    requires left <= |ps| == |now| && (left == 0 || at >= |data|)
    requires forall i :: 0 <= i < |ps| ==> ValidTerm(ps[i].term)
    requires forall j :: 0 <= j < left ==> now[j] == Silenced(ps[j])
    requires now[left..] == tail
    ensures StillToRead(ps, left, mono, data, at, tail) == (now, at)
  {
    hide SamplesRead, Silenced;
    NothingLeft(ps[..left], mono, data, at);
    assert now[..left] == SamplesRead(ps[..left], mono, data, at).0;
    assert now == now[..left] + now[left..];
  }

  method SilenceAll(passes: array<DecorrPass>, numTerms: nat)
    requires numTerms <= passes.Length
    modifies passes
    ensures forall j :: 0 <= j < numTerms ==> passes[j] == Silenced(old(passes[j]))
    ensures forall j :: numTerms <= j < passes.Length ==> passes[j] == old(passes[j])
  {
    for i := 0 to numTerms
      invariant forall j :: 0 <= j < i ==> passes[j] == Silenced(old(passes[j]))
      invariant forall j :: i <= j < passes.Length ==> passes[j] == old(passes[j])
    {
      passes[i] := Silenced(passes[i]);
    }
  }

  lemma SamplesReadStep(ps: seq<DecorrPass>, left: nat, mono: bool, data: seq<byte>, at: nat)
    requires 0 < left <= |ps| && at < |data|
    requires forall i :: 0 <= i < |ps| ==> ValidTerm(ps[i].term)
    ensures var next := at + 2 * SampleCount(ps[left - 1].term, mono);
            var (qs, stop) := SamplesRead(ps[..left - 1], mono, data, next);
            SamplesRead(ps[..left], mono, data, at) == (qs + [SampleRead(ps[left - 1], mono, data, at)], stop)
  {
    hide SampleRead, SampleCount;
    assert ps[..left][..left - 1] == ps[..left - 1];
  }

  lemma SilencedTwice(p: DecorrPass)
    ensures Silenced(Silenced(p)) == Silenced(p) && Silenced(p).term == p.term
  {
  }

  lemma SilencedReads(p: DecorrPass, mono: bool, data: seq<byte>, at: nat)
    requires ValidTerm(p.term)
    ensures SampleRead(Silenced(p), mono, data, at) == SampleRead(p, mono, data, at)
  {
  }

  lemma {:induction false} NothingLeft(ps: seq<DecorrPass>, mono: bool, data: seq<byte>, at: nat)
    requires at >= |data| || ps == []
    requires forall i :: 0 <= i < |ps| ==> ValidTerm(ps[i].term)
    ensures var (qs, stop) := SamplesRead(ps, mono, data, at);
            stop == at && forall i :: 0 <= i < |ps| ==> qs[i] == Silenced(ps[i])
    decreases |ps|
  {
    if ps == [] {
    } else {
      NothingLeft(ps[..|ps| - 1], mono, data, at);
    }
  }

  // ---------------------------------------------------------------- medians

  function EntropyBytes(c: Entropy): (r: seq<byte>)
    ensures |r| == 6
  {
    WordBytes(MyLog2(c.m0)) + WordBytes(MyLog2(c.m1)) + WordBytes(MyLog2(c.m2))
  }

  /** `write_entropy_vars`. */
  function EntropyWritten(c0: Entropy, c1: Entropy, mono: bool): (r: seq<byte>)
    ensures |r| == if mono then 6 else 12
  {
    EntropyBytes(c0) + (if mono then [] else EntropyBytes(c1))
  }

  function MedianAt(data: seq<byte>, at: nat): u32
    requires at + 1 < |data|
  {
    U32(Exp2s(Unsigned(data[at], data[at + 1])))
  }

  function EntropyAt(data: seq<byte>, at: nat): Entropy
    requires at + 5 < |data|
  {
    Entropy(MedianAt(data, at), MedianAt(data, at + 2), MedianAt(data, at + 4))
  }

  /** `read_entropy_vars`: both sides take their medians from the same bytes. */
  function EntropyRead(data: seq<byte>, mono: bool, c1: Entropy): (Entropy, Entropy)
    requires |data| == if mono then 6 else 12
  {
    (EntropyAt(data, 0), if mono then c1 else EntropyAt(data, 6))
  }

  /** `read_entropy_vars`. */
  method ReadEntropyVars(w: WordsData, mono: bool, data: seq<byte>) returns (ok: bool)
    modifies w`c0, w`c1
    ensures ok <==> |data| == if mono then 6 else 12
    ensures ok ==> (w.c0, w.c1) == EntropyRead(data, mono, old(w.c1))
    ensures old(w.Valid()) ==> w.Valid()
    ensures w.EncView() == old(w.EncView()).(c0 := w.c0, c1 := w.c1)
    ensures w.DecView() == old(w.DecView()).(c0 := w.c0, c1 := w.c1)
  {
    hide EntropyAt;
    if |data| != (if mono then 6 else 12) {
      return false;
    }
    w.c0 := EntropyAt(data, 0);
    if !mono {
      w.c1 := EntropyAt(data, 6);
    }
    ok := true;
  }

  /** `write_entropy_vars`: the encoder reads its own bytes back. */
  method WriteEntropyVars(w: WordsData, mono: bool) returns (data: seq<byte>)
    modifies w`c0, w`c1
    ensures data == EntropyWritten(old(w.c0), old(w.c1), mono)
    ensures (w.c0, w.c1) == EntropyRead(data, mono, old(w.c1))
    ensures old(w.Valid()) ==> w.Valid()
    ensures w.EncView() == old(w.EncView()).(c0 := w.c0, c1 := w.c1)
  {
    hide EntropyBytes, EntropyRead, ToBits;
    data := EntropyBytes(w.c0);
    if !mono {
      data := data + EntropyBytes(w.c1);
    }
    var ok := ReadEntropyVars(w, mono, data);
  }
}
