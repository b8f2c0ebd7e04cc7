/** The decoder's block functions (jni/wv/unpack.c and metadata.c) on the stream's own fields, proved against
    modules Chunks and BlockSpec. */
module Unpacking {
  import opened Machine
  import opened BitIO
  import opened WordSpec
  import opened WordsCoder
  import opened DecorrSpec
  import opened DecorrInverse
  import opened DecorrPasses
  import opened DecorrCont
  import opened DecorrEncode
  import opened Metadata
  import opened Chunks
  import opened Sync
  import opened BlockSpec
  import opened BlockRoundTrip

  // ---------------------------------------------------------------- the passes

  /** A mono pass leaves the second weight alone. */
  lemma {:induction false} MonoKeepsWeight(f: Filter, frames: seq<Frame>)
    requires Suits(f, true, frames)
    ensures DecLoop(f, true, frames).0.wB == f.wB
    decreases |frames|
  {
    hide DecChan;
    if frames == [] {
    } else {
      MonoKeepsWeight(f, frames[..|frames| - 1]);
    }
  }

  lemma PassShort(f: Filter, mono: bool, frames: seq<Frame>)
    requires Suits(f, mono, frames) && f.wB == Wrap16(f.wB)
    ensures ShortWeights(DecPass(f, mono, frames).0)
  {
    hide DecLoop, Wrap16;
    var g := DecLoop(f, mono, frames).0;
    Wrap16Twice(g.wA);
    Wrap16Twice(g.wB);
    if mono {
      MonoKeepsWeight(f, frames);
    }
  }

  lemma BlockPassShort(f: Filter, mono: bool, frames: seq<Frame>)
    requires Suits(f, mono, frames) && f.wB == Wrap16(f.wB)
    ensures ShortWeights(BlockPass(f, mono, frames).0)
  {
    hide DecPass, Wrap16;
    if mono || |frames| < 16 {
      PassShort(f, mono, frames);
    } else {
      PassShort(f, mono, frames[..8]);
      PassShort(DecPass(f, mono, frames[..8]).0, mono, frames[8..]);
    }
  }

  /** What a pass stores is what the next call loads. */
  lemma StoredLoads(p: DecorrPass, mono: bool, frames: seq<Frame>)
    requires ValidPass(p) && (mono ==> p.term > 0) && AllFrames(mono, frames)
    ensures Load(Store(p, 0, BlockPass(Load(p, 0), mono, frames).0), 0) == BlockPass(Load(p, 0), mono, frames).0
  {
    hide BlockPass, Store, Hist, Wrap16;
    Wrap16OfShort(p.weightB);
    BlockPassShort(Load(p, 0), mono, frames);
    LoadOfStore(p, 0, BlockPass(Load(p, 0), mono, frames).0);
  }

  lemma DecAllStep(fs: seq<Filter>, mono: bool, frames: seq<Frame>, i: nat)
    requires AllSuit(fs, mono, frames) && i < |fs|
    ensures AllSuit(fs[i..], mono, frames) && Suits(fs[i], mono, frames)
    ensures var (g, ys) := BlockPass(fs[i], mono, frames);
            AllSuit(fs[i + 1..], mono, ys) &&
            var (gs, zs) := DecAll(fs[i + 1..], mono, ys);
            DecAll(fs[i..], mono, frames) == ([g] + gs, zs)
  {
    hide BlockPass, WellFormed;
    assert fs[i..][1..] == fs[i + 1..];
  }

  lemma DecAllNone(fs: seq<Filter>, mono: bool, frames: seq<Frame>)
    requires AllSuit(fs, mono, frames)
    ensures fs[..0] == [] && fs[0..] == fs
    ensures AllSuit(fs[|fs|..], mono, frames) && DecAll(fs[|fs|..], mono, frames) == ([], frames)
  {
  }

  /** Lines 345-380 of unpack.c: every pass in turn over the whole buffer. */
  method RunPasses(passes: array<DecorrPass>, numTerms: nat, mono: bool, buffer: array<int32>, count: nat)
    requires numTerms <= passes.Length && Values(mono, count) <= buffer.Length
    requires AllValid(passes[..numTerms]) && AllSuit(Loads(passes[..numTerms], 0), mono, [])
    modifies passes, buffer
    ensures AllValid(passes[..numTerms])
    ensures passes[numTerms..] == old(passes[numTerms..])
    ensures var frames := Unflat(mono, old(buffer[..Values(mono, count)]));
            && AllSuit(old(Loads(passes[..numTerms], 0)), mono, frames)
            && DecAll(old(Loads(passes[..numTerms], 0)), mono, frames)
               == (Loads(passes[..numTerms], 0), Unflat(mono, buffer[..Values(mono, count)]))
    ensures OnlyWithin(buffer, 0, Values(mono, count))
  {
    hide Load, BlockPass, DecAll, WellFormed, ValidPass, MonoFrames, StereoFrames;
    ghost var ps := passes[..numTerms];
    ghost var fs := Loads(ps, 0);
    ghost var n := Values(mono, count);
    ghost var frames := Unflat(mono, buffer[..n]);
    ghost var done: seq<DecorrPass> := [];
    SuitsEmpty(fs, mono, frames);
    DecAllNone(fs, mono, frames);
    ghost var all := DecAll(fs, mono, frames);
    assert [] + all.0 == all.0;
    for i := 0 to numTerms
      invariant passes[..i] == done && AllValid(done)
      invariant passes[i..] == old(passes[i..])
      invariant AllSuit(fs[i..], mono, Unflat(mono, buffer[..n]))
      invariant var rest := DecAll(fs[i..], mono, Unflat(mono, buffer[..n]));
                all == (Loads(done, 0) + rest.0, rest.1)
      invariant OnlyWithin(buffer, 0, n)
    {
      ghost var cur := Unflat(mono, buffer[..n]);
      assert passes[i] == old(passes[i]) == ps[i] && ValidPass(ps[i]);
      DecStepAt(fs, mono, cur, i, passes[i]);
      var p := OnePass(passes[i], mono, buffer, count);
      ghost var rest := DecAll(fs[i + 1..], mono, Unflat(mono, buffer[..n]));
      LoadsSnoc(done, 0, p);
      assert Loads(done, 0) + ([Load(p, 0)] + rest.0) == Loads(done + [p], 0) + rest.0;
      ghost var behind := passes[i..];
      passes[i] := p;
      assert passes[i + 1..] == behind[1..] == old(passes[i..])[1..] == old(passes[i + 1..]);
      done := done + [p];
    }
    DecAllNone(fs, mono, Unflat(mono, buffer[..n]));
    assert Loads(done, 0) + [] == Loads(done, 0);
  }

  lemma DecStepAt(fs: seq<Filter>, mono: bool, frames: seq<Frame>, i: nat, p: DecorrPass)
    requires i < |fs| && AllSuit(fs[i..], mono, frames)
    requires ValidPass(p) && fs[i] == Load(p, 0)
    ensures (mono ==> p.term > 0) && Suits(Load(p, 0), mono, frames)
    ensures var (g, ys) := BlockPass(Load(p, 0), mono, frames);
            AllSuit(fs[i + 1..], mono, ys) &&
            var (gs, zs) := DecAll(fs[i + 1..], mono, ys);
            DecAll(fs[i..], mono, frames) == ([g] + gs, zs)
  {
    hide BlockPass;
    var gs := fs[i..];
    assert gs[0] == fs[i] && gs[0..] == gs && gs[1..] == fs[i + 1..];
    DecAllStep(gs, mono, frames, 0);
  }

  /** One pass over the buffer, in the form the channel count and length call for. */
  method OnePass(dpp: DecorrPass, mono: bool, buffer: array<int32>, count: nat) returns (p: DecorrPass)
    requires ValidPass(dpp) && (mono ==> dpp.term > 0) && Values(mono, count) <= buffer.Length
    modifies buffer
    ensures ValidPass(p)
    ensures BlockPass(Load(dpp, 0), mono, Unflat(mono, old(buffer[..Values(mono, count)])))
            == (Load(p, 0), Unflat(mono, buffer[..Values(mono, count)]))
    ensures OnlyWithin(buffer, 0, Values(mono, count))
  {
    hide Load, DecPass, MonoFrames, StereoFrames;
    ghost var frames := Unflat(mono, buffer[..Values(mono, count)]);
    StoredLoads(dpp, mono, frames);
    if mono {
      p := DecorrMonoPass(dpp, buffer, count);
    } else {
      hide BlockPass;
      p := DecorrStereoBlock(dpp, buffer, count);
    }
  }

  // ---------------------------------------------------------------- judging the samples

  lemma QuietStep(limit: int, frames: seq<Frame>, i: nat)
    requires i < |frames| && AllWithin(limit, frames[..i])
    ensures Within(limit, frames[i]) ==> AllWithin(limit, frames[..i + 1])
    ensures !Within(limit, frames[i]) ==> QuietPrefix(limit, frames) == i
  {
    hide Within;
    if Within(limit, frames[i]) {
      assert frames[..i + 1] == frames[..i] + [frames[i]];
    } else {
      QuietStops(limit, frames, i);
    }
  }

  lemma {:induction false} QuietStops(limit: int, frames: seq<Frame>, i: nat)
    requires i < |frames| && AllWithin(limit, frames[..i]) && !Within(limit, frames[i])
    ensures QuietPrefix(limit, frames) == i
    decreases i
  {
    hide Within;
    if i == 0 {
    } else {
      assert Within(limit, frames[..i][0]);
      var rest := frames[1..][..i - 1];
      forall j | 0 <= j < |rest|
        ensures Within(limit, rest[j])
      {
        assert rest[j] == frames[..i][j + 1];
      }
      QuietStops(limit, frames[1..], i - 1);
    }
  }

  lemma CrcUp(crc: u32, frames: seq<Frame>, i: nat)
    requires i < |frames|
    ensures CrcOver(UnpackCrc, crc, frames[..i + 1]) == UnpackCrc(CrcOver(UnpackCrc, crc, frames[..i]), frames[i])
  {
    hide UnpackCrc;
    assert frames[..i + 1][..i] == frames[..i];
  }

  lemma NothingJudged(crc: u32, frames: seq<Frame>)
    ensures CrcOver(UnpackCrc, crc, frames[..0]) == crc
  {
  }

  lemma JudgedAll(limit: int, frames: seq<Frame>)
    requires AllWithin(limit, frames[..|frames|])
    ensures QuietPrefix(limit, frames) == |frames| && frames[..|frames|] == frames
  {
    assert frames[..|frames|] == frames;
    QuietAll(limit, frames);
  }

  /** The loop of unpack.c lines 348-355: stops at the first sample over the limit. */
  method JudgeMono(buffer: array<int32>, count: nat, limit: int, crc0: u32) returns (i: nat, crc: u32)
    requires count <= buffer.Length
    ensures var frames := MonoFrames(buffer[..count]);
            i == QuietPrefix(limit, frames) && crc == CrcOver(UnpackCrc, crc0, frames[..i])
  {
    hide QuietPrefix, CrcOver, AllWithin, MonoFrames;
    ghost var frames := MonoFrames(buffer[..count]);
    MonoBasics(buffer[..count]);
    i, crc := 0, crc0;
    NothingJudged(crc0, frames);
    assert AllWithin(limit, frames[..0]) by { NoneOver(limit, frames); }
    while i < count
      invariant 0 <= i <= count && AllWithin(limit, frames[..i])
      invariant crc == CrcOver(UnpackCrc, crc0, frames[..i])
    {
      assert frames[i] == Mono(buffer[..count][i]);
      QuietStep(limit, frames, i);
      if Labs(buffer[i]) > limit {
        return;
      }
      CrcUp(crc0, frames, i);
      crc := U32(crc * 3 + buffer[i]);
      i := i + 1;
    }
    JudgedAll(limit, frames);
  }

  lemma NoneOver(limit: int, frames: seq<Frame>)
    ensures AllWithin(limit, frames[..0])
  {
  }

  /** The loops of lines 382-401 of unpack.c: the joint-stereo inverse in place, up to the first sample over the limit. */
  method JudgeStereo(buffer: array<int32>, count: nat, joint: bool, limit: int, crc0: u32) returns (i: nat, crc: u32)
    requires 2 * count <= buffer.Length
    modifies buffer
    ensures var frames := Unjoined(joint, StereoFrames(old(buffer[..2 * count])));
            && i == QuietPrefix(limit, frames) && crc == CrcOver(UnpackCrc, crc0, frames[..i])
            && (i == count ==> StereoFrames(buffer[..2 * count]) == frames)
    ensures OnlyWithin(buffer, 0, 2 * count)
  {
    hide QuietPrefix, CrcOver, AllWithin, StereoFrames, FromJoint, UnpackCrc, Unjoined;
    ghost var input := buffer[..2 * count];
    ghost var frames := Unjoined(joint, StereoFrames(input));
    ghost var done: seq<int32> := [];
    i, crc := 0, crc0;
    NoFrames();
    NothingJudged(crc0, frames);
    NoneOver(limit, frames);
    assert frames[..0] == [];
    while i < count
      invariant 0 <= i <= count && AllWithin(limit, frames[..i])
      invariant crc == CrcOver(UnpackCrc, crc0, frames[..i])
      invariant buffer[..2 * i] == done && StereoFrames(done) == frames[..i]
      invariant OnlyWithin(buffer, 0, 2 * i)
    {
      UnjoinedAt(joint, input, i);
      assert input[2 * i] == buffer[2 * i] && input[2 * i + 1] == buffer[2 * i + 1];
      QuietStep(limit, frames, i);
      if joint {
        UnjoinFrame(buffer, 2 * i);
      }
      if Labs(buffer[2 * i]) > limit || Labs(buffer[2 * i + 1]) > limit {
        return;
      }
      CrcUp(crc0, frames, i);
      crc := UnpackCrc(crc, Stereo(buffer[2 * i], buffer[2 * i + 1]));
      FramesAppend(done, buffer[2 * i], buffer[2 * i + 1]);
      done := done + [buffer[2 * i], buffer[2 * i + 1]];
      assert frames[..i + 1] == frames[..i] + [frames[i]];
      i := i + 1;
    }
    JudgedAll(limit, frames);
  }

  /** `bptr [0] += (bptr [1] -= (bptr [0] >> 1))`. */
  method UnjoinFrame(buffer: array<int32>, at: nat)
    requires at + 2 <= buffer.Length
    modifies buffer
    ensures Stereo(buffer[at], buffer[at + 1]) == FromJoint(Stereo(old(buffer[at]), old(buffer[at + 1])))
    ensures OnlyWithin(buffer, at, at + 2)
  {
    hide Wrap32;
    var diff: int, sum: int := buffer[at], buffer[at + 1];
    var right: int := Wrap32(sum - diff / 2);
    buffer[at + 1] := right;
    buffer[at] := Wrap32(diff + right);
  }

  lemma UnjoinedAt(joint: bool, s: seq<int32>, i: nat)
    requires |s| % 2 == 0 && 2 * i + 1 < |s|
    ensures var fr := Stereo(s[2 * i], s[2 * i + 1]);
            Unjoined(joint, StereoFrames(s))[i] == if joint then FromJoint(fr) else fr
  {
    hide FromJoint;
  }

  // ---------------------------------------------------------------- the stream

  /** The decoding half of `WavpackContext` and its stream. */
  class Unpacker {
    const mono: bool
    const joint: bool
    const mag: nat                    // the magnitude field of the block flags
    const passes: array<DecorrPass>
    const readBuffer: array<byte>
    var w: WordsData
    var wvbits: BitReader?
    var infile: seq<byte>             // what the read callback has still to deliver
    var numTerms: nat
    var crc: u32
    var muteError: bool
    var sampleIndex: nat
    var blockIndex: nat
    var blockSamples: nat

    ghost predicate Shape()
      reads this
    {
      passes.Length == MAX_NTERMS && readBuffer.Length == READ_BUFFER && numTerms <= MAX_NTERMS
    }

    /** The pass table and the medians. */
    ghost function Table(): Setup
      reads this, passes, w
    {
      Setup(passes[..], numTerms, w.c0, w.c1)
    }

    /** A block is being unpacked. */
    ghost predicate Open()
      reads this, passes, w, wvbits, readBuffer
    {
      && Shape() && AllValid(passes[..numTerms]) && AllSuit(Loads(passes[..numTerms], 0), mono, [])
      && wvbits != null && wvbits.buf == readBuffer && wvbits.Valid() && w.holdingOne <= 1
      && sampleIndex <= blockIndex + blockSamples
    }

    /** What unpacking samples changes. */
    ghost function View(): Unpack
      requires Open()
      reads this, passes, w, wvbits, readBuffer
    {
      Unpack(Loads(passes[..numTerms], 0), w.DecView(), crc, wvbits.rest)
    }

    /** A stream whose block header has just been read. */
    constructor (mono: bool, joint: bool, mag: nat, infile: seq<byte>, blockIndex: nat, blockSamples: nat)
      ensures Shape() && fresh(passes) && fresh(readBuffer)
      ensures this.mono == mono && this.joint == joint && this.mag == mag && this.infile == infile
      ensures this.blockIndex == blockIndex && this.blockSamples == blockSamples && sampleIndex == blockIndex
    {
      this.mono, this.joint, this.mag, this.infile := mono, joint, mag, infile;
      this.blockIndex, this.blockSamples, sampleIndex := blockIndex, blockSamples, blockIndex;
      passes := new DecorrPass[MAX_NTERMS](i => CLEARED);
      readBuffer := new byte[READ_BUFFER];
      w := new WordsData(ZERO_ENTROPY, ZERO_ENTROPY);
      wvbits, numTerms, crc, muteError := null, 0, 0, false;
    }

    /** `process_metadata` for a chunk other than the bitstream. */
    method ProcessMetadata(id: nat, data: seq<byte>) returns (ok: bool)
      requires Shape() && ValidSetup(Table())
      modifies this`numTerms, passes, w`c0, w`c1
      ensures Shape()
      ensures match Process(old(Table()), mono, id, data)
              case Ok(d) => ok && Table() == d && ValidSetup(d)
              case Refused => !ok
      ensures w.DecView() == old(w.DecView()).(c0 := w.c0, c1 := w.c1) && w.holdingOne == old(w.holdingOne)
    {
      hide TermsOk, TermsSet, WeightsRead, SamplesRead, EntropyRead;
      ghost var before := passes[..];
      if id == ID_DECORR_TERMS {
        var n;
        ok, n := ReadDecorrTerms(passes, data);
        if ok {
          numTerms := n;
          assert ValidSetup(Table()) by { assert Process(old(Table()), mono, id, data).Ok?; }
        }
      } else if id == ID_DECORR_WEIGHTS {
        ok := ReadDecorrWeights(passes, numTerms, mono, data);
      } else if id == ID_DECORR_SAMPLES {
        ok := ReadDecorrSamples(passes, numTerms, mono, data);
      } else if id == ID_ENTROPY_VARS {
        ok := ReadEntropyVars(w, mono, data);
      } else {
        ok := id == ID_DUMMY || (6 <= id <= 0xd && id != 0xa) || id >= ID_OPTIONAL_DATA;
      }
    }

    /** `unpack_init`: scans the chunks up to the bitstream and opens it. */
    method UnpackInit() returns (ok: bool)
      requires Shape()
      modifies this`muteError, this`sampleIndex, this`crc, this`w, this`wvbits, this`numTerms, passes
      ensures Shape() && fresh(w) && !muteError
      ensures sampleIndex == if blockSamples != 0 then blockIndex else old(sampleIndex)
      ensures match ScanBlock(infile, mono)
              case Invalid => !ok
              case NoStream(d) => ok <==> blockSamples == 0
              case Ready(d, length, rest) =>
                && (ok <==> blockSamples == 0 || length > 0)
                && (length > 0 && AllSuit(Opened(d, length, rest).fs, mono, []) && sampleIndex <= blockIndex + blockSamples ==>
                      fresh(wvbits) && Open() && View() == Opened(d, length, rest))
    {
      hide ScanBlock, WellFormed, ValidTerm, BytesBits, BitReader.Valid;
      if blockSamples != 0 {
        sampleIndex := blockIndex;
      }
      Clear();
      var found, length, rest;
      ok, found, length, rest := FindStream();
      if ok {
        if found && length > 0 {
          wvbits := new BitReader.OpenFile(readBuffer, rest, length + length % 2);
        }
        ok := blockSamples == 0 || wvbits != null;
      }
    }

    /** Lines 41-45 of unpack.c. */
    method Clear()
      requires Shape()
      modifies this`muteError, this`crc, this`w, this`wvbits, this`numTerms, passes
      ensures Shape() && fresh(w) && !muteError && crc == TWO32 - 1 && wvbits == null && Table() == FRESH
      ensures w.DecView() == Dec(0, false, false, w.c0, w.c1) && w.holdingOne == 0
    {
      muteError, crc, wvbits, numTerms := false, TWO32 - 1, null, 0;
      forall i | 0 <= i < passes.Length {
        passes[i] := CLEARED;
      }
      w := new WordsData(ZERO_ENTROPY, ZERO_ENTROPY);
    }

    /** The loop of `unpack_init`: processes chunks until the bitstream or the end of the block. */
    method FindStream() returns (ok: bool, found: bool, length: nat, rest: seq<byte>)
      requires Shape() && Table() == FRESH
      requires w.DecView() == Dec(0, false, false, w.c0, w.c1) && w.holdingOne == 0
      modifies this`numTerms, passes, w`c0, w`c1
      ensures Shape() && w.DecView() == Dec(0, false, false, w.c0, w.c1) && w.holdingOne == 0
      ensures match ScanBlock(infile, mono)
              case Invalid => !ok
              case NoStream(d) => ok && !found
              case Ready(d, l, r) => ok && found && length == l && rest == r && Table() == d
    {
      hide Process, NextChunk;
      FreshIsValid();
      ok, found, length, rest := true, false, 0, infile;
      while true
        invariant Shape() && ValidSetup(Table()) && ok && !found
        invariant w.DecView() == Dec(0, false, false, w.c0, w.c1) && w.holdingOne == 0
        invariant ScanChunks(rest, mono, Table()) == ScanBlock(infile, mono)
        decreases |rest|
      {
        var next := NextChunk(rest);
        if next.NoChunk? {
          return;
        }
        if next.id == ID_WV_BITSTREAM {
          return true, true, next.length, next.rest;
        }
        if next.oversized && ID_DECORR_TERMS <= next.id <= ID_ENTROPY_VARS {
          return false, false, 0, [];
        }
        ok := ProcessMetadata(next.id, next.data);
        if !ok {
          return;
        }
        rest := next.rest;
      }
    }

    /** `memset (buffer, 0, ...)`. */
    static method Silence(buffer: array<int32>, n: nat)
      requires n <= buffer.Length
      modifies buffer
      ensures buffer[..n] == Zeros(n) && OnlyWithin(buffer, 0, n)
    {
      forall i | 0 <= i < n {
        buffer[i] := 0;
      }
    }

    /** `unpack_samples`, before fixup_samples. */
    method UnpackSamples(buffer: array<int32>, sampleCount: nat) returns (count: nat)
      requires Open() && Values(mono, sampleCount) <= buffer.Length && buffer as object != readBuffer
      modifies this`crc, this`muteError, this`sampleIndex, passes, w, wvbits, readBuffer, buffer
      ensures Open()
      ensures count == Min(sampleCount, blockIndex + blockSamples - old(sampleIndex))
      ensures sampleIndex == old(sampleIndex) + count
      ensures OnlyWithin(buffer, 0, Values(mono, count))
      ensures old(muteError) ==>
                muteError && View() == old(View()) && buffer[..Values(mono, count)] == Zeros(Values(mono, count))
      ensures !old(muteError) ==>
                var n := Values(mono, count);
                var r := UnpackStep(old(View()), mono, joint, MuteLimit(mag), old(Front(buffer, mono, count)));
                && muteError == r.muted && View() == r.next
                && buffer[..n] == if r.muted then Zeros(n) else Flat(r.frames)
    {
      hide Loads, UnpackStep, Flat, WellFormed, BitReader.Valid, MuteLimit, AllValid, AllSuit;
      count := sampleCount;
      if sampleIndex + sampleCount > blockIndex + blockSamples {
        count := blockIndex + blockSamples - sampleIndex;
      }
      if muteError {
        Silence(buffer, Values(mono, count));
        sampleIndex := sampleIndex + count;
        return;
      }
      var i := Decode(buffer, count);
      if i != count {
        Silence(buffer, Values(mono, count));
        muteError := true;
        i := count;
      }
      sampleIndex := sampleIndex + i;
    }

    /** Lines 341-402 of unpack.c; i is the sample count unless something went wrong. */
    method Decode(buffer: array<int32>, count: nat) returns (i: nat)
      requires Open() && Values(mono, count) <= buffer.Length && buffer as object != readBuffer
      modifies this`crc, passes, w, wvbits, readBuffer, buffer
      ensures Open() && OnlyWithin(buffer, 0, Values(mono, count))
      ensures var n := Values(mono, count);
              var r := UnpackStep(old(View()), mono, joint, MuteLimit(mag), old(Front(buffer, mono, count)));
              && (i != count <==> r.muted) && View() == r.next
              && (!r.muted ==> buffer[..n] == Flat(r.frames))
    {
      hide GetWords, Loads, DecAll, QuietPrefix, CrcOver, UnpackCrc, UnpackStep, Flat, Unjoined, WellFormed,
           BitReader.Valid, StereoFrames, MonoFrames;
      ghost var n, u := Values(mono, count), View();
      ghost var before, all := buffer[..n], buffer[..];
      ghost var words := WordSpec.GetWords(u.d, mono, 0, n, u.rest);
      i := w.GetWords(buffer, count, mono, wvbits);
      assert buffer[..n] == Filled(words.values, before) by { WordsFill(words.values, all, buffer[..], n); }
      ShortCount(mono, |words.values|, count);
      RunPasses(passes, numTerms, mono, buffer, count);
      var stop, sum := Judge(buffer, count);
      crc := sum;
      if stop < count {
        i := stop;
      }
      StepParts(u, mono, joint, MuteLimit(mag), before);
    }

    /** The last loop of `unpack_samples`, in the form the channel count calls for. */
    method Judge(buffer: array<int32>, count: nat) returns (i: nat, sum: u32)
      requires Values(mono, count) <= buffer.Length
      modifies buffer
      ensures var n := Values(mono, count);
              var frames := Unjoined(joint, Unflat(mono, old(buffer[..n])));
              && i == QuietPrefix(MuteLimit(mag), frames) && sum == CrcOver(UnpackCrc, crc, frames[..i])
              && (i == count ==> buffer[..n] == Flat(frames))
      ensures OnlyWithin(buffer, 0, Values(mono, count))
    {
      hide QuietPrefix, CrcOver, UnpackCrc, Flat, StereoFrames, MonoFrames;
      ghost var n := Values(mono, count);
      if mono {
        UnjoinedMono(joint, Unflat(mono, buffer[..n]));
        FlatUnflat(mono, buffer[..n]);
        i, sum := JudgeMono(buffer, count, MuteLimit(mag), crc);
      } else {
        i, sum := JudgeStereo(buffer, count, joint, MuteLimit(mag), crc);
        FlatUnflat(mono, buffer[..n]);
      }
    }
  }

  lemma WordsFill(values: seq<int32>, before: seq<int32>, after: seq<int32>, n: nat)
    requires |values| <= n <= |before| == |after|
    requires after[..|values|] == values && after[|values|..] == before[|values|..]
    ensures after[..n] == Filled(values, before[..n])
  {
    var k := |values|;
    assert after[..n] == after[..k] + after[k..][..n - k];
    assert before[..n][k..] == before[k..][..n - k];
  }

  /** A word short is a frame short. */
  lemma ShortCount(mono: bool, k: nat, count: nat)
    requires k <= Values(mono, count)
    ensures (if mono then k else k / 2) < count <==> k < Values(mono, count)
    ensures (if mono then k else k / 2) <= count
  {
  }

  lemma UnjoinedMono(joint: bool, frames: seq<Frame>)
    requires AllFrames(true, frames)
    ensures Unjoined(joint, frames) == frames
  {
  }

  /** The decoder's state in front of a bitstream of the given length. */
  function Opened(d: Setup, length: nat, rest: seq<byte>): Unpack
    requires ValidSetup(d)
  {
    OpenedAt(d.passes[..d.numTerms], d.c0, d.c1, BytesBits(rest[..Min(length + length % 2, |rest|)]))
  }
}
