/** The encoder's block functions (jni/wv/pack.c) on the stream's own fields, proved against module BlockSpec. */
module Packing {
  import opened Machine
  import opened Bits
  import opened BitIO
  import opened WordSpec
  import opened WordsCoder
  import opened DecorrSpec
  import opened DecorrInverse
  import opened DecorrPasses
  import opened DecorrEncode
  import opened Metadata
  import opened Chunks
  import opened Sync
  import opened BlockSpec
  import opened BlockRoundTrip

  // ---------------------------------------------------------------- mono: sample by sample

  lemma EncThroughStep(fs: seq<Filter>, mono: bool, fr: Frame, i: nat)
    requires AllSuit(fs, mono, [fr]) && i < |fs|
    ensures AllSuit(fs[..i], mono, [fr]) && AllSuit(fs[..i + 1], mono, [fr])
    ensures var (gs, y) := EncThrough(fs[..i], mono, fr);
            WellFormed(fs[i]) && (y.Mono? ==> fs[i].term > 0) &&
            var (g, z) := EncFrame(fs[i], y);
            EncThrough(fs[..i + 1], mono, fr) == (gs + [g], z)
  {
    hide EncFrame, WellFormed;
    assert fs[..i + 1][..i] == fs[..i];
    var y := EncThrough(fs[..i], mono, fr).1;
    assert [y][0] == y && [fr][0] == fr;
  }

  lemma MonoEncStep(f: Filter, a: int32)
    requires WellFormed(f) && f.term > 0
    ensures var c := EncChan(f.term, f.wA, f.hA, a);
            EncFrame(f, Mono(a)) == (f.(wA := c.w, hA := c.h), Mono(c.out))
  {
  }

  lemma ZeroAt(s: seq<int32>, k: nat)
    requires s == [0, 0, 0, 0, 0, 0, 0, 0] && k < 8
    ensures s[k] == 0
  {
  }

  /** One mono sample through every pass: lines 296-315 of pack.c. */
  method CodeThroughPasses(passes: array<DecorrPass>, numTerms: nat, m: nat, sample: int32) returns (code: int32)
    requires numTerms <= passes.Length && m < MAX_TERM
    requires AllValid(passes[..numTerms]) && AllSuit(Loads(passes[..numTerms], m), true, [])
    requires forall i :: 0 <= i < numTerms ==> NoSecond(passes[i])
    modifies passes
    ensures AllValid(passes[..numTerms])
    ensures forall i :: 0 <= i < numTerms ==> NoSecond(passes[i])
    ensures AllSuit(old(Loads(passes[..numTerms], m)), true, [Mono(sample)])
    ensures EncThrough(old(Loads(passes[..numTerms], m)), true, Mono(sample))
            == (Loads(passes[..numTerms], Slot(m + 1)), Mono(code))
    ensures forall i :: 0 <= i < numTerms ==> passes[i].term == old(passes[i].term) && passes[i].delta == old(passes[i].delta)
  {
    hide Load, EncFrame, EncThrough, EncChan, Slot, WellFormed, Hist;
    code := sample;
    ghost var ps := passes[..numTerms];
    ghost var fs := Loads(ps, m);
    ghost var done: seq<DecorrPass> := [];
    ThroughNone(fs, sample);
    for i := 0 to numTerms
      invariant passes[..i] == done && AllValid(done)
      invariant forall j :: i <= j < numTerms ==> passes[j] == ps[j]
      invariant forall j :: 0 <= j < i ==> done[j].term == ps[j].term && done[j].delta == ps[j].delta && NoSecond(done[j])
      invariant EncThrough(fs[..i], true, Mono(sample)) == (Loads(done, Slot(m + 1)), Mono(code))
    {
      EncThroughStep(fs, true, Mono(sample), i);
      var p := passes[i];
      LoadParts(p, m);
      MonoEncStep(Load(p, m), code);
      var w, s, o := EncodeStep(p.term, p.weightA, p.samplesA, m, Slot(m + p.term), code, false);
      MonoStored(p, m, w, s);
      passes[i] := p.(weightA := w, samplesA := s);
      code := o;
      LoadsSnoc(done, Slot(m + 1), passes[i]);
      done := done + [passes[i]];
    }
    assert fs[..numTerms] == fs;
  }

  lemma ThroughNone(fs: seq<Filter>, sample: int32)
    requires AllSuit(fs, true, [])
    ensures AllSuit(fs, true, [Mono(sample)]) && EncThrough(fs[..0], true, Mono(sample)) == ([], Mono(sample))
  {
  }

  lemma LoadParts(p: DecorrPass, m: nat)
    requires ValidPass(p)
    ensures var f := Load(p, m);
            f.term == p.term && f.wA == p.weightA && f.hA == Hist(p.term, m, p.samplesA)
  {
  }

  /** A mono pass has never had samples of a second channel. */
  predicate NoSecond(p: DecorrPass) {
    p.samplesB == [0, 0, 0, 0, 0, 0, 0, 0]
  }

  lemma MonoStored(p: DecorrPass, m: nat, w: int16, s: seq<int32>)
    requires ValidPass(p) && p.term > 0 && |s| == MAX_TERM && NoSecond(p)
    ensures Load(p.(weightA := w, samplesA := s), Slot(m + 1))
            == Load(p, m).(wA := w, hA := Hist(p.term, Slot(m + 1), s))
  {
    hide Hist;
    HistOfNothing(p.term, m, Slot(m + 1), p.samplesB);
  }

  lemma HistOfNothing(term: int, m: nat, n: nat, s: seq<int32>)
    requires ValidTerm(term) && s == [0, 0, 0, 0, 0, 0, 0, 0]
    ensures Hist(term, m, s) == Hist(term, n, s)
  {
    if Delayed(term) {
      forall i | 0 <= i < MAX_TERM
        ensures Hist(term, m, s)[i] == Hist(term, n, s)[i]
      {
        ZeroAt(s, Slot(m + term + i));
        ZeroAt(s, Slot(n + term + i));
      }
    }
  }

  lemma BySampleStep(fs: seq<Filter>, mono: bool, frames: seq<Frame>, i: nat)
    requires AllSuit(fs, mono, frames) && i < |frames|
    ensures AllSuit(fs, mono, frames[..i]) && AllSuit(fs, mono, frames[..i + 1])
    ensures var (gs, out) := EncBySample(fs, mono, frames[..i]);
            AllSuit(gs, mono, []) && AllSuit(gs, mono, [frames[i]]) &&
            var (gs', o) := EncThrough(gs, mono, frames[i]);
            EncBySample(fs, mono, frames[..i + 1]) == (gs', out + [o])
  {
    hide EncThrough, WellFormed;
    assert frames[..i + 1][..i] == frames[..i];
    assert [frames[i]][0] == frames[i];
  }

  lemma BySampleNone(fs: seq<Filter>, mono: bool, frames: seq<Frame>)
    requires AllSuit(fs, mono, frames)
    ensures EncBySample(fs, mono, frames[..0]) == (fs, [])
  {
  }

  lemma CrcStep(crc: u32, frames: seq<Frame>, i: nat)
    requires i < |frames|
    ensures CrcOver(PackCrc, crc, frames[..i + 1]) == PackCrc(CrcOver(PackCrc, crc, frames[..i]), frames[i])
    ensures i == 0 ==> CrcOver(PackCrc, crc, frames[..i]) == crc
  {
    hide PackCrc;
    assert frames[..i + 1][..i] == frames[..i];
  }

  lemma CrcNone(crc: u32, frames: seq<Frame>)
    ensures CrcOver(PackCrc, crc, frames[..0]) == crc
  {
  }

  /** Lines 290-319 of pack.c. */
  method PackMono(passes: array<DecorrPass>, numTerms: nat, buffer: array<int32>, count: nat, m0: nat, crc0: u32)
    returns (crc: u32)
    requires numTerms <= passes.Length && m0 < MAX_TERM && count <= buffer.Length
    requires AllValid(passes[..numTerms]) && AllSuit(Loads(passes[..numTerms], m0), true, [])
    requires forall i :: 0 <= i < numTerms ==> NoSecond(passes[i])
    modifies passes, buffer
    ensures AllValid(passes[..numTerms])
    ensures forall i :: 0 <= i < numTerms ==> NoSecond(passes[i])
    ensures forall i :: 0 <= i < numTerms ==> passes[i].term == old(passes[i].term) && passes[i].delta == old(passes[i].delta)
    ensures AllSuit(old(Loads(passes[..numTerms], m0)), true, MonoFrames(old(buffer[..count])))
    ensures EncBySample(old(Loads(passes[..numTerms], m0)), true, MonoFrames(old(buffer[..count])))
            == (Loads(passes[..numTerms], Slot(m0 + count)), MonoFrames(buffer[..count]))
    ensures crc == CrcOver(PackCrc, crc0, MonoFrames(old(buffer[..count])))
    ensures OnlyWithin(buffer, 0, count)
  {
    hide Loads, EncThrough, EncBySample, Slot, WellFormed, MonoFrames, CrcOver, ValidPass, NoSecond;
    crc := crc0;
    var m := m0;
    ghost var fs := Loads(passes[..numTerms], m0);
    ghost var input := buffer[..count];
    ghost var frames := MonoFrames(input);
    ghost var done: seq<int32> := [];
    SuitsEmpty(fs, true, frames);
    BySampleNone(fs, true, frames);
    MonoBasics(input);
    CrcNone(crc0, frames);
    SlotSmall(m0);
    assert m0 + 0 == m0;
    for i := 0 to count
      invariant m == Slot(m0 + i)
      invariant AllValid(passes[..numTerms])
      invariant forall j :: 0 <= j < numTerms ==> NoSecond(passes[j])
      invariant forall j :: 0 <= j < numTerms ==> passes[j].term == old(passes[j].term) && passes[j].delta == old(passes[j].delta)
      invariant buffer[..i] == done
      invariant EncBySample(fs, true, frames[..i]) == (Loads(passes[..numTerms], m), MonoFrames(done))
      invariant crc == CrcOver(PackCrc, crc0, frames[..i])
      invariant OnlyWithin(buffer, 0, i)
    {
      BySampleStep(fs, true, frames, i);
      CrcStep(crc0, frames, i);
      assert input[i] == buffer[i] && frames[i] == Mono(buffer[i]);
      crc := U32(crc * 3 + buffer[i]);
      var code := CodeThroughPasses(passes, numTerms, m, buffer[i]);
      buffer[i] := code;
      MonoAppend(done, code);
      done := done + [code];
      SlotAdd(m0 + i, 1);
      assert m0 + i + 1 == m0 + (i + 1);
      m := Slot(m + 1);
    }
    assert frames[..count] == frames;
  }

  // ---------------------------------------------------------------- stereo: pass by pass

  /** Lines 324-331 of pack.c. */
  method JoinStereo(buffer: array<int32>, count: nat, joint: bool, crc0: u32) returns (crc: u32)
    requires 2 * count <= buffer.Length
    modifies buffer
    ensures StereoFrames(buffer[..2 * count]) == Joined(joint, StereoFrames(old(buffer[..2 * count])))
    ensures crc == CrcOver(PackCrc, crc0, StereoFrames(old(buffer[..2 * count])))
    ensures OnlyWithin(buffer, 0, 2 * count)
  {
    hide StereoFrames, CrcOver, PackCrc, ToJoint;
    crc := crc0;
    ghost var input := buffer[..2 * count];
    ghost var frames := StereoFrames(input);
    ghost var done: seq<int32> := [];
    NoFrames();
    CrcNone(crc0, frames);
    assert Joined(joint, frames[..0]) == [];
    for i := 0 to count
      invariant buffer[..2 * i] == done
      invariant StereoFrames(done) == Joined(joint, frames[..i])
      invariant crc == CrcOver(PackCrc, crc0, frames[..i])
      invariant OnlyWithin(buffer, 0, 2 * i)
    {
      FrameAt(input, i);
      CrcStep(crc0, frames, i);
      assert input[2 * i] == buffer[2 * i] && input[2 * i + 1] == buffer[2 * i + 1];
      crc := PackCrc(crc, Stereo(buffer[2 * i], buffer[2 * i + 1]));
      if joint {
        JoinFrame(buffer, 2 * i);
      }
      FramesAppend(done, buffer[2 * i], buffer[2 * i + 1]);
      done := done + [buffer[2 * i], buffer[2 * i + 1]];
      JoinedStep(joint, frames, i);
    }
    assert frames[..count] == frames;
  }

  /** `bptr [1] += ((bptr [0] -= bptr [1]) >> 1)`. */
  method JoinFrame(buffer: array<int32>, at: nat)
    requires at + 2 <= buffer.Length
    modifies buffer
    ensures Stereo(buffer[at], buffer[at + 1]) == ToJoint(Stereo(old(buffer[at]), old(buffer[at + 1])))
    ensures OnlyWithin(buffer, at, at + 2)
  {
    hide Wrap32;
    var left: int, right: int := buffer[at], buffer[at + 1];
    var diff: int := Wrap32(left - right);
    buffer[at] := diff;
    buffer[at + 1] := Wrap32(right + diff / 2);
  }

  lemma JoinedStep(joint: bool, frames: seq<Frame>, i: nat)
    requires i < |frames|
    ensures Joined(joint, frames[..i + 1])
            == Joined(joint, frames[..i]) + [if joint then ToJoint(frames[i]) else frames[i]]
  {
    hide ToJoint;
  }

  lemma EncAllStep(fs: seq<Filter>, mono: bool, frames: seq<Frame>, i: nat)
    requires AllSuit(fs, mono, frames) && i < |fs|
    ensures AllSuit(fs[..i], mono, frames) && AllSuit(fs[..i + 1], mono, frames)
    ensures var (gs, ys) := EncAll(fs[..i], mono, frames);
            Suits(fs[i], mono, ys) &&
            var (g, zs) := EncPass(fs[i], mono, ys);
            EncAll(fs[..i + 1], mono, frames) == (gs + [g], zs)
  {
    hide EncPass, WellFormed;
    assert fs[..i + 1][..i] == fs[..i];
  }

  lemma EncAllNone(fs: seq<Filter>, mono: bool, frames: seq<Frame>)
    requires AllSuit(fs, mono, frames)
    ensures AllSuit(fs[..0], mono, frames) && EncAll(fs[..0], mono, frames) == ([], frames)
  {
  }

  /** Lines 333-342 of pack.c. */
  method EncodeStereo(passes: array<DecorrPass>, numTerms: nat, buffer: array<int32>, count: nat, m0: nat)
    requires numTerms <= passes.Length && m0 < MAX_TERM && 2 * count <= buffer.Length
    requires AllValid(passes[..numTerms])
    requires forall i :: 0 <= i < numTerms ==> passes[i].term != MAX_TERM
    modifies passes, buffer
    ensures AllValid(passes[..numTerms])
    ensures forall i :: 0 <= i < numTerms ==> passes[i].term == old(passes[i].term) && passes[i].delta == old(passes[i].delta)
    ensures AllSuit(old(Loads(passes[..numTerms], m0)), false, StereoFrames(old(buffer[..2 * count])))
    ensures EncAll(old(Loads(passes[..numTerms], m0)), false, StereoFrames(old(buffer[..2 * count])))
            == (Loads(passes[..numTerms], Slot(m0 + count)), StereoFrames(buffer[..2 * count]))
    ensures OnlyWithin(buffer, 0, 2 * count)
  {
    hide Load, EncPass, EncAll, Slot, WellFormed, StereoFrames, ValidPass;
    ghost var ps := passes[..numTerms];
    ghost var fs := Loads(ps, m0);
    ghost var frames := StereoFrames(buffer[..2 * count]);
    ghost var m1 := Slot(m0 + count);
    ghost var done: seq<DecorrPass> := [];
    SuitsEmpty(fs, false, frames);
    EncAllNone(fs, false, frames);
    for i := 0 to numTerms
      invariant passes[..i] == done && AllValid(done)
      invariant forall j :: i <= j < numTerms ==> passes[j] == ps[j]
      invariant forall j :: 0 <= j < i ==> done[j].term == ps[j].term && done[j].delta == ps[j].delta
      invariant EncAll(fs[..i], false, frames) == (Loads(done, m1), StereoFrames(buffer[..2 * count]))
      invariant OnlyWithin(buffer, 0, 2 * count)
    {
      EncAllStep(fs, false, frames, i);
      assert ps[i] == passes[i] && ValidPass(ps[i]);
      var p := EncodeStereoPass(passes[i], buffer, count, m0);
      passes[i] := p;
      LoadsSnoc(done, m1, p);
      done := done + [p];
    }
    assert fs[..numTerms] == fs;
  }

  // ---------------------------------------------------------------- the terms an encoder sets up

  const DEFAULT_TERMS: seq<int> := [18, 18, 2, 3, -2]
  const HIGH_TERMS: seq<int> := [18, 18, 2, 3, -2, 18, 2, 4, 7, 5, 3, 6]
  const FAST_TERMS: seq<int> := [17, 17]

  /** `term_string`; the high flag wins. */
  function TermString(high: bool, fast: bool): seq<int> {
    if high then HIGH_TERMS else if fast then FAST_TERMS else DEFAULT_TERMS
  }

  /** The pass `pack_init` makes of an entry, if any. */
  function PassFor(term: int, mono: bool, cross: bool): seq<DecorrPass> {
    if term >= 0 || cross then [CLEARED.(term := term, delta := 2)]
    else if !mono then [CLEARED.(term := -3, delta := 2)]
    else []
  }

  function PassesFor(terms: seq<int>, mono: bool, cross: bool): (ps: seq<DecorrPass>)
    ensures |ps| <= |terms|
  {
    if terms == [] then []
    else
      var n := |terms| - 1;
      PassesFor(terms[..n], mono, cross) + PassFor(terms[n], mono, cross)
  }

  /** A pass `pack_samples` can run, with nothing in it a mono block would not have. */
  predicate Runs(p: DecorrPass, mono: bool) {
    ValidPass(p) && Supported(p.term, mono) && p.delta == 2 && (mono ==> NoSecond(p))
  }

  predicate AllRun(ps: seq<DecorrPass>, mono: bool) {
    forall i :: 0 <= i < |ps| ==> Runs(ps[i], mono)
  }

  lemma {:induction false} PassesRun(terms: seq<int>, mono: bool, cross: bool)
    requires mono != cross
    requires forall i :: 0 <= i < |terms| ==> terms[i] == -2 || 1 <= terms[i] <= 7 || terms[i] == 17 || terms[i] == 18
    ensures AllRun(PassesFor(terms, mono, cross), mono)
    decreases |terms|
  {
    if terms == [] {
    } else {
      PassesRun(terms[..|terms| - 1], mono, cross);
    }
  }

  /** Every list of passes that can be set up for a stream is one the encoder has loops for: cross-channel terms
      are on for stereo and off for mono, as `WavpackSetConfiguration` sets the flags. */
  lemma SetUpRuns(high: bool, fast: bool, mono: bool)
    ensures AllRun(PassesFor(TermString(high, fast), mono, !mono), mono)
    ensures |TermString(high, fast)| <= MAX_NTERMS
  {
    PassesRun(TermString(high, fast), mono, !mono);
  }

  /** Were they off in stereo, the encoder would announce term -3 and then not apply it. */
  lemma UncrossedTermIsSkipped()
    ensures var ps := PassesFor(TermString(false, false), false, false);
            |ps| == 5 && ps[4].term == -3 && !Supported(ps[4].term, false)
  {
    var t := DEFAULT_TERMS;
    assert t[..4][..3] == t[..3] && t[..3][..2] == t[..2] && t[..2][..1] == t[..1] && t[..1][..0] == [];
    assert PassesFor(t[..1], false, false) == [CLEARED.(term := 18, delta := 2)];
    assert |PassesFor(t[..2], false, false)| == 2;
    assert |PassesFor(t[..3], false, false)| == 3;
    assert |PassesFor(t[..4], false, false)| == 4;
  }

  // ---------------------------------------------------------------- the stream

  lemma RunsSuits(ps: seq<DecorrPass>, mono: bool, m: nat)
    requires AllRun(ps, mono)
    ensures AllValid(ps) && AllSuit(Loads(ps, m), mono, [])
  {
    hide Load;
  }

  lemma RunsFromTerms(ps: seq<DecorrPass>, qs: seq<DecorrPass>, mono: bool)
    requires AllRun(ps, mono) && |qs| == |ps| && AllValid(qs)
    requires forall i :: 0 <= i < |ps| ==> qs[i].term == ps[i].term && qs[i].delta == ps[i].delta
    requires mono ==> forall i :: 0 <= i < |ps| ==> NoSecond(qs[i])
    ensures AllRun(qs, mono)
  {
    hide ValidPass, Supported, NoSecond;
  }

  /** A mono stream never touches the second channel's medians. */
  lemma {:induction false} MonoKeepsSecond(e: Enc, i: nat, vs: seq<int32>)
    requires e.c1 == ZERO_ENTROPY
    ensures SendWords(e, true, i, vs).0.c1 == ZERO_ENTROPY
    decreases |vs|
  {
    hide FlushBits, BodyBits, OnesCount, Adapt;
    if vs == [] {
    } else {
      MonoKeepsSecond(SendStep(e, 0, vs[0]).0, i + 1, vs[1..]);
    }
  }

  /** The encoding half of `WavpackContext` and its stream. */
  class Packer {
    const mono: bool
    const joint: bool
    const initial: bool      // INITIAL_BLOCK
    const config: seq<byte>  // the upper three bytes of the configuration flags
    const passes: array<DecorrPass>
    const w: WordsData
    var numTerms: nat
    var wvbits: BitWriter?
    var blockbuff: array<byte>
    var blockend: nat
    var ckSize: nat
    var blockSamples: u32
    var crc: u32
    var sampleIndex: u32
    var wrapper: seq<byte>

    ghost predicate Valid()
      reads this, passes, w
    {
      && passes.Length == MAX_NTERMS && numTerms <= MAX_NTERMS
      && AllRun(passes[..numTerms], mono)
      && w.Valid() && (!w.holdingZero ==> w.pendCount == 0)
      && (mono ==> w.c1 == ZERO_ENTROPY)
      && |config| == 3
    }

    /** Nothing waits in the entropy coder. */
    ghost predicate Flushed()
      reads w
    {
      w.EncView() == Enc(0, 0, false, [], w.c0, w.c1)
    }

    /** A block is being built. */
    ghost predicate Open()
      reads this, blockbuff, wvbits
    {
      && wvbits != null && wvbits.buf == blockbuff && wvbits.Valid()
      && wvbits.base == ckSize + 12 && wvbits.end == blockend && 24 <= ckSize
      && ckSize + 12 < blockend <= blockbuff.Length && blockend < TWO31
    }

    /** What packing samples changes. */
    ghost function View(): Pack
      requires Valid()
      reads this, passes, w
    {
      RunsSuits(passes[..numTerms], mono, Slot(blockSamples));
      Pack(Loads(passes[..numTerms], Slot(blockSamples)), w.EncView(), crc)
    }

    /** The chunks written so far. */
    ghost function ChunkArea(): seq<byte>
      requires 24 <= ckSize && ckSize + 8 <= blockbuff.Length
      reads this, blockbuff
    {
      blockbuff[32..ckSize + 8]
    }

    /** `pack_init`. */
    constructor (mono: bool, joint: bool, initial: bool, high: bool, fast: bool, config: seq<byte>)
      requires |config| == 3
      ensures Valid() && Flushed() && this.mono == mono && this.joint == joint
      ensures passes[..numTerms] == PassesFor(TermString(high, fast), mono, !mono)
      ensures w.c0 == w.c1 == ZERO_ENTROPY && sampleIndex == 0 && wrapper == []
      ensures fresh(passes) && fresh(w)
    {
      var ps := PassesFor(TermString(high, fast), mono, !mono);
      SetUpRuns(high, fast, mono);
      var table := new DecorrPass[MAX_NTERMS](i requires 0 <= i < MAX_NTERMS => if i < |ps| then ps[i] else CLEARED);
      assert table[..|ps|] == ps;
      this.mono, this.joint, this.initial, this.config := mono, joint, initial, config;
      passes, numTerms := table, |ps|;
      w := new WordsData(ZERO_ENTROPY, ZERO_ENTROPY);
      wvbits := null;
      blockbuff, blockend := new byte[0], 0;
      ckSize, blockSamples, crc, sampleIndex, wrapper := 24, 0, 0, 0, [];
      new;
      NoBits(0);
      assert w.pendCount == 0 by { assert |w.EncView().pend| == w.pendCount; }
    }

    /** Lines 285-343 of pack.c: the samples into residuals, in place. */
    method Decorrelate(buffer: array<int32>, count: nat)
      requires Valid() && Values(mono, count) <= buffer.Length
      modifies this`crc, passes, buffer
      ensures Valid()
      ensures var frames := Unflat(mono, old(buffer[..Values(mono, count)]));
              && AllSuit(old(Loads(passes[..numTerms], Slot(blockSamples))), mono, Joined(joint, frames))
              && EncAll(old(Loads(passes[..numTerms], Slot(blockSamples))), mono, Joined(joint, frames))
                 == (Loads(passes[..numTerms], Slot(Slot(blockSamples) + count)),
                     Unflat(mono, buffer[..Values(mono, count)]))
              && crc == CrcOver(PackCrc, old(crc), frames)
    {
      hide Loads, EncAll, EncBySample, Slot, WellFormed, Runs, CrcOver, WordsData.Valid, Joined, MonoFrames,
           StereoFrames, ValidPass, NoSecond;
      var m := Slot(blockSamples);
      ghost var ps := passes[..numTerms];
      ghost var frames := Unflat(mono, buffer[..Values(mono, count)]);
      AllRunParts(ps, mono);
      RunsSuits(ps, mono, m);
      if mono {
        crc := PackMono(passes, numTerms, buffer, count, m, crc);
        BySampleIsByPass(Loads(ps, m), true, frames);
        JoinedMono(joint, frames);
      } else {
        crc := JoinStereo(buffer, count, joint, crc);
        EncodeStereo(passes, numTerms, buffer, count, m);
      }
      RunsFromTerms(ps, passes[..numTerms], mono);
    }

    /** `pack_samples`. */
    method PackSamples(buffer: array<int32>, count: nat)
      requires Valid() && Open() && Values(mono, count) <= buffer.Length && buffer as object != blockbuff
      modifies this`crc, this`blockSamples, this`sampleIndex, passes, w, wvbits, blockbuff, buffer
      ensures Valid() && Open()
      ensures var frames := Unflat(mono, old(buffer[..Values(mono, count)]));
              && AllSuit(old(View()).fs, mono, frames)
              && var (p, bits) := PackStep(old(View()), mono, joint, frames);
                 View() == p && wvbits.Written() == old(wvbits.Written()) + bits
      ensures blockSamples == U32(old(blockSamples) + count) && sampleIndex == U32(old(sampleIndex) + count)
      ensures forall i :: 0 <= i < blockbuff.Length && !(ckSize + 12 <= i < blockend) ==> blockbuff[i] == old(blockbuff[i])
    {
      hide Loads, EncAll, SendWords, Slot, WellFormed, AllRun, BitWriter.Valid, BitWriter.Written,
           CrcOver, WordsData.Valid, ToBits, Joined, Flat, Unflat;
      RunsSuits(passes[..numTerms], mono, Slot(blockSamples));
      ghost var p0, w0 := View(), wvbits.Written();
      ghost var frames := Unflat(mono, buffer[..Values(mono, count)]);
      SuitsEmpty(p0.fs, mono, frames);
      if count == 0 {
        NoUnflat(mono);
        assert buffer[..0] == [];
        PackNothing(p0, mono, joint);
        assert w0 + [] == w0;
        assert U32(blockSamples + 0) == blockSamples && U32(sampleIndex + 0) == sampleIndex;
        return;
      }
      Decorrelate(buffer, count);
      FlatUnflat(mono, buffer[..Values(mono, count)]);
      if mono {
        MonoKeepsSecond(w.EncView(), 0, buffer[..count]);
      }
      w.SendWords(buffer[..Values(mono, count)], mono, wvbits);
      SlotWraps(blockSamples, count);
      blockSamples := U32(blockSamples + count);
      sampleIndex := U32(sampleIndex + count);
    }

    /** `copy_metadata` on the block being built. */
    method AddChunk(id: nat, data: seq<byte>)
      requires id < 0x40 && 24 <= ckSize && blockend <= blockbuff.Length
      requires ckSize + 8 + |ChunkBytes(id, data)| < blockend
      modifies this`ckSize, blockbuff
      ensures ckSize == old(ckSize) + |ChunkBytes(id, data)|
      ensures ChunkArea() == old(ChunkArea()) + ChunkBytes(id, data)
    {
      hide ChunkBytes;
      ghost var area := ChunkArea();
      var ok, next := CopyMetadata(id, data, blockbuff, ckSize + 8, blockend);
      assert blockbuff[32..ckSize + 8] == area;
      ckSize := next - 8;
      assert blockbuff[32..next] == blockbuff[32..next - |ChunkBytes(id, data)|] + blockbuff[next - |ChunkBytes(id, data)|..next];
    }

    /** The chunks `pack_start_block` puts before the bitstream. */
    ghost function Prologue(): seq<byte>
      requires Valid()
      reads this, passes, w
    {
      AllRunParts(passes[..numTerms], mono);
      OptionalChunk(ID_RIFF_HEADER, wrapper) + StateChunks(passes[..numTerms], w.c0, w.c1, mono)
      + OptionalChunk(ID_CONFIG_BLOCK, FirstConfig())
    }

    /** The configuration goes into the first block only. */
    function FirstConfig(): seq<byte>
      reads this
    {
      if initial && sampleIndex == 0 then config else []
    }

    /** `pack_start_block`, with room for the metadata and a bitstream. */
    method StartBlock(buffer: array<byte>, end: nat)
      requires Valid() && Flushed() && end <= buffer.Length && end < TWO31
      requires 32 + |Prologue()| + 4 < end
      modifies this`wvbits, this`blockbuff, this`blockend, this`ckSize, this`blockSamples, this`crc, this`wrapper,
               passes, w, buffer
      ensures Valid() && Open() && fresh(wvbits) && blockbuff == buffer && blockend == end
      ensures AllValid(old(passes[..numTerms]))
      ensures View() == Started(old(passes[..numTerms]), old(w.c0), old(w.c1), mono)
      ensures ChunkArea() == old(Prologue()) && wvbits.Written() == []
      ensures wrapper == [] && blockSamples == 0 && crc == TWO32 - 1
    {
      hide StateChunks, OptionalChunk, BitWriter.Valid, WordsData.Valid, ToBits, Settled, EntropyRead, EntropyWritten,
           Loads, AllRun;
      AllRunParts(passes[..numTerms], mono);
      blockbuff, blockend, ckSize, blockSamples, crc := buffer, end, 24, 0, TWO32 - 1;
      AddChunks();
      SlotSmall(0);
      wvbits := new BitWriter.OpenWrite(buffer, ckSize + 12, end);
    }

    /** All the chunks of a block whose header has just been written. */
    method AddChunks()
      requires Valid() && Flushed() && ckSize == 24 && blockend <= blockbuff.Length
      requires 32 + |Prologue()| + 4 < blockend
      modifies this`ckSize, this`wrapper, passes, w, blockbuff
      ensures Valid() && Flushed() && wrapper == []
      ensures AllValid(old(passes[..numTerms]))
      ensures passes[..numTerms] == Settled(old(passes[..numTerms]), mono)
      ensures (w.c0, w.c1) == EntropyRead(EntropyWritten(old(w.c0), old(w.c1), mono), mono, old(w.c1))
      ensures ckSize == 24 + |old(Prologue())| && ChunkArea() == old(Prologue())
    {
      hide StateChunks, OptionalChunk, WordsData.Valid, ToBits, Settled, EntropyRead, EntropyWritten, AllRun;
      AllRunParts(passes[..numTerms], mono);
      ghost var head, body := OptionalChunk(ID_RIFF_HEADER, wrapper), StateChunks(passes[..numTerms], w.c0, w.c1, mono);
      ghost var tail := OptionalChunk(ID_CONFIG_BLOCK, FirstConfig());
      assert ChunkArea() == [];
      AddOptional(ID_RIFF_HEADER, wrapper);
      wrapper := [];
      AddState();
      AddOptional(ID_CONFIG_BLOCK, if initial && sampleIndex == 0 then config else []);
      assert ChunkArea() == [] + head + body + tail;
      assert [] + head + body + tail == head + body + tail;
    }

    /** A chunk that is left out when it is empty. */
    method AddOptional(id: nat, data: seq<byte>)
      requires id < 0x40 && 24 <= ckSize && blockend <= blockbuff.Length
      requires ckSize + 8 + |OptionalChunk(id, data)| < blockend
      modifies this`ckSize, blockbuff
      ensures ckSize == old(ckSize) + |OptionalChunk(id, data)|
      ensures ChunkArea() == old(ChunkArea()) + OptionalChunk(id, data)
    {
      hide ChunkBytes;
      if |data| > 0 {
        AddChunk(id, data);
      }
    }

    /** The four chunks every block has; the encoder goes on with what the decoder will read. */
    method AddState()
      requires Valid() && Flushed() && 24 <= ckSize && blockend <= blockbuff.Length
      requires AllValid(passes[..numTerms])
      requires ckSize + 8 + |StateChunks(passes[..numTerms], w.c0, w.c1, mono)| < blockend
      modifies this`ckSize, passes, w, blockbuff
      ensures Valid() && Flushed()
      ensures passes[..numTerms] == Settled(old(passes[..numTerms]), mono)
      ensures (w.c0, w.c1) == EntropyRead(EntropyWritten(old(w.c0), old(w.c1), mono), mono, old(w.c1))
      ensures ckSize == old(ckSize) + |StateChunks(old(passes[..numTerms]), old(w.c0), old(w.c1), mono)|
      ensures ChunkArea() == old(ChunkArea()) + StateChunks(old(passes[..numTerms]), old(w.c0), old(w.c1), mono)
    {
      hide ChunkBytes, WordsData.Valid, ToBits, EntropyWritten, EntropyAt, PassChunks, Runs, Settled;
      ghost var ps, area := passes[..numTerms], ChunkArea();
      ghost var t := PassChunks(ps, mono);
      StateSplit(ps, w.c0, w.c1, mono);
      AddPasses();
      SettledRuns(ps, mono);
      var data := WriteEntropyVars(w, mono);
      AddChunk(ID_ENTROPY_VARS, data);
      Assoc(area, t, ChunkBytes(ID_ENTROPY_VARS, data));
    }

    /** The first three of them. */
    method AddPasses()
      requires passes.Length == MAX_NTERMS && numTerms <= MAX_NTERMS && 24 <= ckSize && blockend <= blockbuff.Length
      requires AllValid(passes[..numTerms])
      requires ckSize + 8 + |PassChunks(passes[..numTerms], mono)| < blockend
      modifies this`ckSize, passes, blockbuff
      ensures passes[..numTerms] == Settled(old(passes[..numTerms]), mono)
      ensures ckSize == old(ckSize) + |PassChunks(old(passes[..numTerms]), mono)|
      ensures ChunkArea() == old(ChunkArea()) + PassChunks(old(passes[..numTerms]), mono)
    {
      hide ChunkBytes, TermBytes, WeightsWritten, SamplesWritten, SamplesSettled, WeightsSettled, ValidPass;
      ghost var ps, area := passes[..numTerms], ChunkArea();
      ghost var t := ChunkBytes(ID_DECORR_TERMS, TermBytes(ps));
      ghost var u := ChunkBytes(ID_DECORR_WEIGHTS, WeightsWritten(ps, mono));
      AddTermsAndWeights();
      var data := WriteDecorrSamples(passes, numTerms, mono);
      AddChunk(ID_DECORR_SAMPLES, data);
      Assoc(area, t + u, ChunkBytes(ID_DECORR_SAMPLES, data));
    }

    method AddTermsAndWeights()
      requires passes.Length == MAX_NTERMS && numTerms <= MAX_NTERMS && 24 <= ckSize && blockend <= blockbuff.Length
      requires var ps := passes[..numTerms];
               ckSize + 8 + |ChunkBytes(ID_DECORR_TERMS, TermBytes(ps))|
               + |ChunkBytes(ID_DECORR_WEIGHTS, WeightsWritten(ps, mono))| < blockend
      modifies this`ckSize, passes, blockbuff
      ensures passes[..numTerms] == WeightsSettled(old(passes[..numTerms]), mono)
      ensures var ps := old(passes[..numTerms]);
              var added := ChunkBytes(ID_DECORR_TERMS, TermBytes(ps))
                           + ChunkBytes(ID_DECORR_WEIGHTS, WeightsWritten(ps, mono));
              ckSize == old(ckSize) + |added| && ChunkArea() == old(ChunkArea()) + added
    {
      hide ChunkBytes, TermBytes, WeightsWritten, WeightsSettled;
      ghost var area := ChunkArea();
      var data := WriteDecorrTerms(passes, numTerms);
      AddChunk(ID_DECORR_TERMS, data);
      ghost var t := ChunkBytes(ID_DECORR_TERMS, data);
      data := WriteDecorrWeights(passes, numTerms, mono);
      AddChunk(ID_DECORR_WEIGHTS, data);
      Assoc(area, t, ChunkBytes(ID_DECORR_WEIGHTS, data));
    }

    /** Lines 434-450 of pack.c: every circular history in order again. */
    method RotateHistories(m: nat)
      requires numTerms <= passes.Length && m < MAX_TERM && AllRun(passes[..numTerms], mono)
      modifies passes
      ensures AllRun(passes[..numTerms], mono)
      ensures AllValid(old(passes[..numTerms]))
      ensures AllValid(passes[..numTerms]) && Loads(passes[..numTerms], 0) == Loads(old(passes[..numTerms]), m)
    {
      hide Load, Runs, Rotate;
      ghost var ps := passes[..numTerms];
      RunsSuits(ps, mono, m);
      for i := 0 to numTerms
        invariant forall j :: i <= j < numTerms ==> passes[j] == ps[j]
        invariant forall j :: 0 <= j < i ==> Runs(passes[j], mono) && ValidPass(passes[j]) && Load(passes[j], 0) == Load(ps[j], m)
      {
        var p := passes[i];
        RotateLoads(p, m, mono);
        if m != 0 && Delayed(p.term) {
          var sA := RotateSlots(p.samplesA, m);
          var sB := RotateSlots(p.samplesB, m);
          passes[i] := p.(samplesA := sA, samplesB := sB);
        }
      }
      RunsSuits(passes[..numTerms], mono, 0);
    }

    /** `pack_finish_block`. When the buffer fills up before the last word it says so; when the padding alone
        does not fit, the block ends without a bitstream and without a word. */
    method FinishBlock() returns (ok: bool)
      requires Valid() && Open()
      modifies this`ckSize, this`wvbits, passes, w, wvbits, blockbuff
      ensures Valid() && Flushed() && w.c0 == old(w.c0) && w.c1 == old(w.c1)
      ensures AllValid(passes[..numTerms]) && Loads(passes[..numTerms], 0) == old(View()).fs
      ensures var sent := old(wvbits.Written()) + FlushBits(old(w.EncView()));
              var n, room := PaddedBytes(|sent|), blockend - old(ckSize) - 12;
              && (ok <==> |sent| / 8 < room)
              && (if 0 < n < room then
                    && ckSize == old(ckSize) + 4 + n && ckSize + 8 <= blockbuff.Length
                    && blockbuff[old(ckSize) + 8..old(ckSize) + 12] == StreamHeader(n)
                    && BytesBits(blockbuff[old(ckSize) + 12..ckSize + 8]) == Padded(sent)
                  else ckSize == old(ckSize))
      ensures forall i :: 0 <= i < old(ckSize) + 8 ==> i < blockbuff.Length && blockbuff[i] == old(blockbuff[i])
    {
      hide Loads, AllRun, FlushBits, BitWriter.Valid, BitWriter.Written, WordsData.Valid, ToBits, BytesBits, Padded,
           PaddedBytes, Slot, StreamHeader;
      PaddedSize(|wvbits.Written() + FlushBits(w.EncView())|);
      RotateHistories(Slot(blockSamples));
      var dataCount := CloseStream();
      ok := dataCount != TWO32 - 1;
      if dataCount != 0 && ok {
        ghost var at := ckSize + 12;
        ghost var data := blockbuff[at..at + dataCount];
        PutStreamHeader(dataCount);
        assert blockbuff[at..at + dataCount] == data;
      }
    }

    /** `flush_word` and `bs_close_write`. */
    method CloseStream() returns (dataCount: u32)
      requires Valid() && Open()
      modifies this`wvbits, w, wvbits, blockbuff
      ensures Valid() && Flushed() && w.c0 == old(w.c0) && w.c1 == old(w.c1)
      ensures var sent := old(wvbits.Written()) + FlushBits(old(w.EncView()));
              var n, room := PaddedBytes(|sent|), blockend - ckSize - 12;
              if |sent| / 8 >= room then dataCount == TWO32 - 1
              else if n < room then
                dataCount == n && BytesBits(blockbuff[ckSize + 12..ckSize + 12 + n]) == Padded(sent)
              else dataCount == 0
      ensures forall i :: 0 <= i < ckSize + 12 ==> blockbuff[i] == old(blockbuff[i])
    {
      hide Loads, AllRun, FlushBits, BitWriter.Valid, BitWriter.Written, WordsData.Valid, ToBits, BytesBits, Padded,
           PaddedBytes;
      w.FlushWord(wvbits);
      wvbits.ErrorMeansFull();
      dataCount := wvbits.CloseWrite();
      wvbits := null;
    }

    /** Lines 457-463 of pack.c. */
    method PutStreamHeader(dataCount: u32)
      requires 24 <= ckSize && ckSize + 12 + dataCount <= blockbuff.Length
      modifies this`ckSize, blockbuff
      ensures ckSize == old(ckSize) + 4 + dataCount
      ensures blockbuff[old(ckSize) + 8..old(ckSize) + 12] == StreamHeader(dataCount)
      ensures forall i :: 0 <= i < blockbuff.Length && !(old(ckSize) + 8 <= i < old(ckSize) + 12) ==>
                blockbuff[i] == old(blockbuff[i])
    {
      var at := ckSize + 8;
      blockbuff[at] := ID_WV_BITSTREAM + ID_LARGE;
      blockbuff[at + 1] := Chunks.Low(dataCount / 2);
      blockbuff[at + 2] := Chunks.Low(dataCount / 512);
      blockbuff[at + 3] := Chunks.Low(dataCount / 0x2_0000);
      ckSize := ckSize + dataCount + 4;
    }
  }

  lemma RotateLoads(p: DecorrPass, m: nat, mono: bool)
    requires Runs(p, mono) && m < MAX_TERM
    ensures m == 0 || !Delayed(p.term) ==> Load(p, 0) == Load(p, m)
    ensures Delayed(p.term) ==>
              var q := p.(samplesA := Rotate(p.samplesA, m), samplesB := Rotate(p.samplesB, m));
              Runs(q, mono) && Load(q, 0) == Load(p, m)
  {
    hide Hist, Rotate, Supported;
    if Delayed(p.term) {
      HistRotate(p.term, m, p.samplesA);
      HistRotate(p.term, m, p.samplesB);
      if mono {
        RotateNothing(p.samplesB, m);
      }
    } else {
      HistShort(p.term, 0, m, p.samplesA);
      HistShort(p.term, 0, m, p.samplesB);
    }
  }

  lemma RotateNothing(s: seq<int32>, m: nat)
    requires s == [0, 0, 0, 0, 0, 0, 0, 0]
    ensures Rotate(s, m) == s
  {
    forall k | 0 <= k < MAX_TERM
      ensures Rotate(s, m)[k] == s[k]
    {
      ZeroAt(s, Slot(m + k));
      ZeroAt(s, k);
    }
  }

  function PassChunks(ps: seq<DecorrPass>, mono: bool): seq<byte>
    requires AllValid(ps)
  {
    ChunkBytes(ID_DECORR_TERMS, TermBytes(ps))
    + ChunkBytes(ID_DECORR_WEIGHTS, WeightsWritten(ps, mono))
    + ChunkBytes(ID_DECORR_SAMPLES, SamplesWritten(WeightsSettled(ps, mono), mono))
  }

  lemma StateSplit(ps: seq<DecorrPass>, c0: Entropy, c1: Entropy, mono: bool)
    requires AllValid(ps)
    ensures StateChunks(ps, c0, c1, mono)
            == PassChunks(ps, mono) + ChunkBytes(ID_ENTROPY_VARS, EntropyWritten(c0, c1, mono))
  {
    hide ChunkBytes, EntropyWritten, WeightsWritten, SamplesWritten, WeightsSettled;
  }

  lemma Assoc(a: seq<byte>, b: seq<byte>, c: seq<byte>)
    ensures a + b + c == a + (b + c)
  {
  }

  lemma SettledRuns(ps: seq<DecorrPass>, mono: bool)
    requires AllRun(ps, mono) && AllValid(ps)
    ensures AllRun(Settled(ps, mono), mono)
  {
    hide Runs, Settled;
    forall i | 0 <= i < |ps|
      ensures Runs(Settled(ps, mono)[i], mono)
    {
      SettledRunsAt(ps, mono, i);
    }
  }

  lemma SettledRunsAt(ps: seq<DecorrPass>, mono: bool, i: nat)
    requires AllValid(ps) && i < |ps| && Runs(ps[i], mono)
    ensures Runs(Settled(ps, mono)[i], mono)
  {
    hide RestoreWeight, StoreWeight, CoarseSlots;
  }

  lemma AllRunParts(ps: seq<DecorrPass>, mono: bool)
    requires AllRun(ps, mono)
    ensures AllValid(ps)
    ensures mono ==> forall i :: 0 <= i < |ps| ==> NoSecond(ps[i])
    ensures !mono ==> forall i :: 0 <= i < |ps| ==> ps[i].term != MAX_TERM
  {
  }

  lemma JoinedMono(joint: bool, frames: seq<Frame>)
    requires AllFrames(true, frames)
    ensures Joined(joint, frames) == frames
  {
  }

  lemma NoUnflat(mono: bool)
    ensures Unflat(mono, []) == []
  {
  }

  lemma SlotWraps(n: nat, count: nat)
    ensures Slot(U32(n + count)) == Slot(Slot(n) + count)
  {
    var x := n + count;
    assert x == U32(x) + 8 * (0x2000_0000 * (x / TWO32));
    assert x == Slot(n) + count + 8 * (n / 8);
  }
}
