/** A packed block unpacks to the samples that were packed, however the calls on either side cut it up. */
module BlockRoundTrip {
  import opened Machine
  import opened BitIO
  import opened WordSpec
  import opened WordsRoundTrip
  import opened DecorrSpec
  import opened DecorrInverse
  import opened DecorrResume
  import opened DecorrPasses
  import opened Metadata
  import opened Chunks
  import opened Sync
  import opened BlockSpec

  // ---------------------------------------------------------------- filters that stay exact

  /** If the encoder stays exact over a block, it does over each part of it. */
  lemma {:induction false} FitsAllSplit(fs: seq<Filter>, mono: bool, a: seq<Frame>, b: seq<Frame>)
    requires AllSuit(fs, mono, a) && AllFrames(mono, b) && AllSuit(fs, mono, a + b)
    requires FitsAll(fs, mono, a + b)
    ensures FitsAll(fs, mono, a)
    ensures AllSuit(EncAll(fs, mono, a).0, mono, b) && FitsAll(EncAll(fs, mono, a).0, mono, b)
    decreases |fs|
  {
    hide EncPass, FitsPass, WellFormed;
    if fs == [] {
    } else {
      var n := |fs| - 1;
      FitsAllSplit(fs[..n], mono, a, b);
      EncAllSplit(fs[..n], mono, a, b);
      var (gs, ya) := EncAll(fs[..n], mono, a);
      var yb := EncAll(gs, mono, b).1;
      FitsSplit(fs[n], mono, ya, yb);
      var g := EncPass(fs[n], mono, ya).0;
      assert (gs + [g])[..n] == gs;
    }
  }

  predicate AllShort(fs: seq<Filter>) {
    forall i :: 0 <= i < |fs| ==> ShortWeights(fs[i])
  }

  /** What one block of the encoder needs: passes it has loops for, and products that fit 32 bits. */
  predicate Lossless(fs: seq<Filter>, mono: bool, frames: seq<Frame>) {
    && AllSuit(fs, mono, frames) && AllSupported(fs, mono) && AllShort(fs)
    && FitsAll(fs, mono, frames)
  }

  lemma {:induction false} TermsStay(fs: seq<Filter>, mono: bool, frames: seq<Frame>)
    requires AllSuit(fs, mono, frames) && AllSupported(fs, mono)
    ensures AllSupported(EncAll(fs, mono, frames).0, mono)
    decreases |fs|
  {
    hide EncPass, Supported, WellFormed;
    if fs == [] {
    } else {
      TermsStay(fs[..|fs| - 1], mono, frames);
    }
  }

  lemma {:induction false} StayShort(fs: seq<Filter>, mono: bool, frames: seq<Frame>)
    requires Lossless(fs, mono, frames)
    ensures AllShort(EncAll(fs, mono, frames).0)
    decreases |fs|
  {
    hide EncPass, FitsPass, WellFormed;
    if fs == [] {
    } else {
      var n := |fs| - 1;
      StayShort(fs[..n], mono, frames);
      WeightsStayShort(fs[n], mono, EncAll(fs[..n], mono, frames).1);
    }
  }

  // ---------------------------------------------------------------- one call

  /** What the encoder's passes make of frames. */
  function Encoded(fs: seq<Filter>, mono: bool, joint: bool, frames: seq<Frame>): (r: (seq<Filter>, seq<Frame>))
    requires Lossless(fs, mono, Joined(joint, frames))
    ensures |r.0| == |fs| && |r.1| == |frames|
    ensures |Flat(r.1)| == Values(mono, |frames|) && Whole(mono, Flat(r.1))
  {
    hide EncAll, FitsAll, WellFormed, ShortWeights, Supported, Flat, ToJoint;
    var r := EncAll(fs, mono, Joined(joint, frames));
    FlatSize(mono, r.1);
    r
  }

  /** The decoder in state u is about to receive these frames: its passes mirror the encoder's, and the words
      the encoder made of them are next in the stream. */
  predicate Carries(u: Unpack, fs: seq<Filter>, mono: bool, joint: bool, frames: seq<Frame>) {
    && AllSuit(u.fs, mono, [])
    && Lossless(fs, mono, Joined(joint, frames)) && Mirror(fs, u.fs, mono)
    && var vs := Flat(Encoded(fs, mono, joint, frames).1);
       GetWords(u.d, mono, 0, |vs|, u.rest).values == vs
  }

  /** The passes and the joint-stereo inverse give back what was packed. */
  lemma DecodedComesBack(fs: seq<Filter>, ds: seq<Filter>, mono: bool, joint: bool, frames: seq<Frame>)
    requires AllSuit(ds, mono, [])
    requires Lossless(fs, mono, Joined(joint, frames)) && Mirror(fs, ds, mono)
    ensures var (gs, out) := Encoded(fs, mono, joint, frames);
            var (es, back) := Decoded(ds, mono, joint, Flat(out));
            && back == frames && Mirror(gs, es, mono)
            && AllSuit(gs, mono, []) && AllShort(gs) && AllSupported(gs, mono)
  {
    hide EncAll, DecAll, Unflat, Flat, FitsAll, Mirror, WellFormed, Supported, ShortWeights, FromJoint, ToJoint, Joined, Unjoined;
    var js := Joined(joint, frames);
    var (gs, out) := EncAll(fs, mono, js);
    AllPassesInvert(fs, ds, mono, js);
    TermsStay(fs, mono, js);
    UnflatFlat(mono, out);
    JoinedComesBack(joint, frames);
  }

  /** The words of the frames b still follow once those of a have been read. */
  lemma WordsFollow(d: Dec, mono: bool, va: seq<int32>, vb: seq<int32>, rest: seq<bool>)
    requires Whole(mono, va)
    requires GetWords(d, mono, 0, |va + vb|, rest).values == va + vb
    ensures var w := GetWords(d, mono, 0, |va|, rest);
            w.values == va && GetWords(w.state, mono, 0, |vb|, w.rest).values == vb
  {
    hide GetWords;
    var w := GetWords(d, mono, 0, |va|, rest);
    assert |va + vb| == |va| + |vb|;
    if |w.values| < |va| {
      GetEnds(d, mono, 0, |va|, |vb|, rest);
    } else {
      GetSplit(d, mono, 0, |va|, |vb|, rest);
      assert 0 + |va| == |va|;
      GetFromEven(w.state, mono, 0, |va|, |vb|, w.rest);
      var w2 := GetWords(w.state, mono, 0, |vb|, w.rest);
      assert w.values + w2.values == va + vb;
      assert w.values == (va + vb)[..|va|] && w2.values == (va + vb)[|va|..];
    }
  }

  /** Encoding in two calls is encoding at once, and stays exact. */
  lemma EncodedParts(fs: seq<Filter>, mono: bool, joint: bool, a: seq<Frame>, b: seq<Frame>)
    requires Lossless(fs, mono, Joined(joint, a + b))
    ensures Lossless(fs, mono, Joined(joint, a))
    ensures var (gs, ya) := Encoded(fs, mono, joint, a);
            Lossless(gs, mono, Joined(joint, b)) &&
            var (hs, yb) := Encoded(gs, mono, joint, b);
            Encoded(fs, mono, joint, a + b) == (hs, ya + yb) && Flat(ya + yb) == Flat(ya) + Flat(yb)
  {
    hide EncAll, FitsAll, WellFormed, Supported, ShortWeights, Flat, Joined, ToJoint;
    var ja, jb := Joined(joint, a), Joined(joint, b);
    JoinedConcat(joint, a, b);
    FramesParts(mono, ja, jb);
    FitsAllSplit(fs, mono, ja, jb);
    EncAllSplit(fs, mono, ja, jb);
    StayShort(fs, mono, ja);
    TermsStay(fs, mono, ja);
    var (gs, ya) := EncAll(fs, mono, ja);
    FlatConcat(ya, EncAll(gs, mono, jb).1);
  }

  lemma FramesParts(mono: bool, a: seq<Frame>, b: seq<Frame>)
    requires AllFrames(mono, a + b)
    ensures AllFrames(mono, a) && AllFrames(mono, b)
  {
    assert forall i :: 0 <= i < |a| ==> a[i] == (a + b)[i];
    assert forall i :: 0 <= i < |b| ==> b[i] == (a + b)[|a| + i];
  }

  /** A call for the frames a gets them, unless one is over the limit, and the frames b are next. */
  lemma CallComesBack(u: Unpack, fs: seq<Filter>, mono: bool, joint: bool, limit: int, a: seq<Frame>, b: seq<Frame>,
                      buffer: seq<int32>, r: Unpacked)
    returns (gs: seq<Filter>)
    requires AllSuit(u.fs, mono, []) && Whole(mono, buffer) && |buffer| == Values(mono, |a|)
    requires r == UnpackStep(u, mono, joint, limit, buffer)
    requires Carries(u, fs, mono, joint, a + b)
    ensures r.frames == a
    ensures r.muted <==> !AllWithin(limit, a)
    ensures !r.muted ==> r.next.crc == CrcOver(UnpackCrc, u.crc, a)
    ensures Carries(r.next, gs, mono, joint, b)
  {
    hide UnpackStep, GetWords, Decoded, Lossless, Encoded, Mirror, WellFormed, Flat, Joined,
         CrcOver, UnpackCrc, QuietPrefix, AllWithin, Whole, Values;
    EncodedParts(fs, mono, joint, a, b);
    gs := Encoded(fs, mono, joint, a).0;
    var ya := Encoded(fs, mono, joint, a).1;
    var yb := Encoded(gs, mono, joint, b).1;
    WordsFollow(u.d, mono, Flat(ya), Flat(yb), u.rest);
    DecodedComesBack(fs, u.fs, mono, joint, a);
    StepParts(u, mono, joint, limit, buffer);
    assert Filled(Flat(ya), buffer) == Flat(ya);
    QuietAll(limit, a);
    assert a[..|a|] == a;
  }

  // ---------------------------------------------------------------- any number of calls

  function Zeros(n: nat): (s: seq<int32>)
    ensures |s| == n
  {
    seq(n, i => 0)
  }

  /** What a run of calls delivers into the caller's buffers, one after the other: once the block is muted,
      silence. */
  datatype Run = Run(out: seq<int32>, muted: bool, last: Unpack)

  predicate AllWhole(mono: bool, buffers: seq<seq<int32>>) {
    forall i :: 0 <= i < |buffers| ==> Whole(mono, buffers[i])
  }

  function TotalSize(buffers: seq<seq<int32>>): nat {
    if buffers == [] then 0 else |buffers[0]| + TotalSize(buffers[1..])
  }

  function UnpackRun(u: Unpack, mono: bool, joint: bool, limit: int, buffers: seq<seq<int32>>): (r: Run)
    requires AllSuit(u.fs, mono, []) && AllWhole(mono, buffers)
    decreases |buffers|
  {
    hide UnpackStep, WellFormed, Whole;
    if buffers == [] then Run([], false, u)
    else
      var r := UnpackStep(u, mono, joint, limit, buffers[0]);
      if r.muted then Run(Zeros(TotalSize(buffers)), true, r.next)
      else
        var more := UnpackRun(r.next, mono, joint, limit, buffers[1..]);
        more.(out := Flat(r.frames) + more.out)
  }

  /** However the caller cuts up its calls, it gets the frames that were packed, with the encoder's checksum,
      unless one of them is over the limit; then, and only then, the block is muted. */
  lemma {:induction false} RunComesBack(u: Unpack, fs: seq<Filter>, mono: bool, joint: bool, limit: int,
                                        frames: seq<Frame>, buffers: seq<seq<int32>>, run: Run)
    requires AllSuit(u.fs, mono, []) && AllWhole(mono, buffers)
    requires run == UnpackRun(u, mono, joint, limit, buffers)
    requires TotalSize(buffers) == Values(mono, |frames|)
    requires Carries(u, fs, mono, joint, frames)
    ensures run.muted <==> !AllWithin(limit, frames)
    ensures !run.muted ==> run.out == Flat(frames) && run.last.crc == CrcOver(UnpackCrc, u.crc, frames)
    decreases |buffers|
  {
    hide UnpackStep, Carries, WellFormed, Flat, CrcOver, UnpackCrc, Within;
    if buffers == [] {
      assert frames == [];
      FlatNone();
    } else {
      var n := if mono then |buffers[0]| else |buffers[0]| / 2;
      var a, b := frames[..n], frames[n..];
      assert frames == a + b;
      var r := UnpackStep(u, mono, joint, limit, buffers[0]);
      var gs := CallComesBack(u, fs, mono, joint, limit, a, b, buffers[0], r);
      WithinParts(limit, a, b);
      if !r.muted {
        RunComesBack(r.next, gs, mono, joint, limit, b, buffers[1..],
                     UnpackRun(r.next, mono, joint, limit, buffers[1..]));
        FlatConcat(a, b);
        CrcConcat(UnpackCrc, u.crc, a, b);
      }
    }
  }

  lemma FlatNone()
    ensures Flat([]) == []
    ensures forall crc: u32 :: CrcOver(UnpackCrc, crc, []) == crc
  {
  }

  lemma WithinParts(limit: int, a: seq<Frame>, b: seq<Frame>)
    ensures AllWithin(limit, a + b) <==> AllWithin(limit, a) && AllWithin(limit, b)
  {
    hide Within;
    if AllWithin(limit, a + b) {
      assert forall i :: 0 <= i < |a| ==> a[i] == (a + b)[i];
      assert forall i :: 0 <= i < |b| ==> b[i] == (a + b)[|a| + i];
    }
  }

  // ---------------------------------------------------------------- packing in any number of calls

  function Concat(calls: seq<seq<Frame>>): seq<Frame> {
    if calls == [] then [] else calls[0] + Concat(calls[1..])
  }

  predicate AllCalls(mono: bool, calls: seq<seq<Frame>>) {
    forall i :: 0 <= i < |calls| ==> AllFrames(mono, calls[i])
  }

  /** Calls of `pack_samples` one after the other. */
  function PackRun(p: Pack, mono: bool, joint: bool, calls: seq<seq<Frame>>): (r: (Pack, seq<bool>))
    requires AllSuit(p.fs, mono, []) && AllCalls(mono, calls)
    decreases |calls|
  {
    hide PackStep, WellFormed, AllFrames;
    if calls == [] then (p, [])
    else
      SuitsEmpty(p.fs, mono, calls[0]);
      var (p1, b1) := PackStep(p, mono, joint, calls[0]);
      var (p2, b2) := PackRun(p1, mono, joint, calls[1..]);
      (p2, b1 + b2)
  }

  /** However the caller cuts up the samples, the block is the same. */
  lemma {:induction false} PackRunIsOne(p: Pack, mono: bool, joint: bool, calls: seq<seq<Frame>>)
    requires AllSuit(p.fs, mono, []) && AllCalls(mono, calls)
    ensures AllFrames(mono, Concat(calls)) && AllSuit(p.fs, mono, Concat(calls))
    ensures PackRun(p, mono, joint, calls) == PackStep(p, mono, joint, Concat(calls))
    decreases |calls|
  {
    hide PackStep, WellFormed;
    if calls == [] {
      PackNothing(p, mono, joint);
    } else {
      var p1 := PackStep(p, mono, joint, calls[0]).0;
      PackRunIsOne(p1, mono, joint, calls[1..]);
      PackSplit(p, mono, joint, calls[0], Concat(calls[1..]));
    }
  }

  lemma PackNothing(p: Pack, mono: bool, joint: bool)
    requires AllSuit(p.fs, mono, [])
    ensures PackStep(p, mono, joint, []) == (p, [])
  {
    hide EncAll, WellFormed;
    assert Joined(joint, []) == [];
    EncAllEmpty(p.fs, mono);
  }

  // ---------------------------------------------------------------- a block from end to end

  /** The encoder's state once `pack_start_block` has written the metadata. */
  function Started(ps: seq<DecorrPass>, c0: Entropy, c1: Entropy, mono: bool): (p: Pack)
    requires AllValid(ps)
  {
    var (m0, m1) := EntropyRead(EntropyWritten(c0, c1, mono), mono, c1);
    Pack(Loads(Settled(ps, mono), 0), Enc(0, 0, false, [], m0, m1), TWO32 - 1)
  }

  /** The passes are ones `pack_init` can set up, and over these frames no product of theirs leaves 32 bits. */
  predicate Packable(ps: seq<DecorrPass>, c0: Entropy, c1: Entropy, mono: bool, joint: bool, frames: seq<Frame>) {
    && AllValid(ps) && |ps| <= MAX_NTERMS
    && (forall i :: 0 <= i < |ps| ==> Supported(ps[i].term, mono) && ps[i].delta == 2)
    && (mono ==> c1 == ZERO_ENTROPY)
    && frames != [] && AllFrames(mono, frames) && |frames| < TWO31
    && var fs := Loads(Settled(ps, mono), 0);
       AllSuit(fs, mono, Joined(joint, frames)) && FitsAll(fs, mono, Joined(joint, frames))
  }

  lemma StartIsLossless(ps: seq<DecorrPass>, c0: Entropy, c1: Entropy, mono: bool, joint: bool, frames: seq<Frame>)
    requires Packable(ps, c0, c1, mono, joint, frames)
    ensures Lossless(Loads(Settled(ps, mono), 0), mono, Joined(joint, frames))
  {
    hide FitsAll, Supported, Joined, SampleSettled;
    var qs := Settled(ps, mono);
    forall i | 0 <= i < |ps|
      ensures qs[i].term == ps[i].term && qs[i].delta == ps[i].delta
    {
      SettledKeepsTerm(ps, mono, i);
    }
  }

  lemma SettledKeepsTerm(ps: seq<DecorrPass>, mono: bool, i: nat)
    requires AllValid(ps) && i < |ps|
    ensures Settled(ps, mono)[i].term == ps[i].term && Settled(ps, mono)[i].delta == ps[i].delta
  {
    hide RestoreWeight, StoreWeight, CoarseSlots;
  }

  /** An empty stream delivers nothing. */
  lemma NothingInNothing(d: Dec, mono: bool, n: nat)
    requires d.zeros == 0 && !d.zero && !d.one
    ensures GetWords(d, mono, 0, n, []).values == []
  {
    hide GetWords, ReadBody;
    GetWordsStep(d, mono, 0, n, []);
    UnaryRunsOut(33);
    UnaryRunsOut(17);
  }

  lemma {:induction false} UnaryRunsOut(limit: nat)
    ensures Unary([], limit) == (limit, [])
  {
    if limit == 0 {
    } else {
      UnaryRunsOut(limit - 1);
    }
  }

  /** The decoder's state when it opens a stream with these passes and medians. */
  function OpenedAt(ps: seq<DecorrPass>, m0: Entropy, m1: Entropy, rest: seq<bool>): (u: Unpack)
    requires AllValid(ps)
  {
    Unpack(Loads(ps, 0), Dec(0, false, false, m0, m1), TWO32 - 1, rest)
  }

  /** Everything sent for a block's frames. */
  function Sent(ps: seq<DecorrPass>, c0: Entropy, c1: Entropy, mono: bool, joint: bool, frames: seq<Frame>): seq<bool>
    requires Packable(ps, c0, c1, mono, joint, frames)
  {
    var (p, bits) := PackStep(Started(ps, c0, c1, mono), mono, joint, frames);
    bits + FlushBits(p.e)
  }

  /** The decoder that has read a block's metadata is about to receive the block's frames. */
  lemma StreamCarries(ps: seq<DecorrPass>, c0: Entropy, c1: Entropy, mono: bool, joint: bool, frames: seq<Frame>,
                      u: Unpack)
    requires Packable(ps, c0, c1, mono, joint, frames)
    requires var p := Started(ps, c0, c1, mono);
             u == OpenedAt(RebuiltPasses(ps, mono), p.e.c0, p.e.c1, Padded(Sent(ps, c0, c1, mono, joint, frames)))
    ensures Carries(u, Loads(Settled(ps, mono), 0), mono, joint, frames)
    ensures u.rest != []
  {
    hide Settled, RebuiltPasses, FitsAll, WellFormed, Supported, SendWords, FlushBits, GetWords, EncAll, Mirror, Flat,
         EntropyRead, EntropyWritten, CrcOver, ToJoint;
    var p := Started(ps, c0, c1, mono);
    StartIsLossless(ps, c0, c1, mono, joint, frames);
    RebuiltMirrors(ps, mono);
    MirrorSuits(p.fs, u.fs, mono, []);
    var vs := Flat(Encoded(p.fs, mono, joint, frames).1);
    var (e, bits) := SendWords(p.e, mono, 0, vs);
    var sent := bits + FlushBits(e);
    var pad := Padded(sent)[|sent|..];
    assert Padded(sent) == bits + FlushBits(e) + pad;
    WordsComeBack(mono, p.e.c0, p.e.c1, vs, pad);
    NothingInNothing(u.d, mono, |vs|);
  }

  /** The bytes of a block behind its header: the chunks, then the bitstream. */
  function BlockBytes(wrapper: seq<byte>, state: seq<byte>, config: seq<byte>, data: seq<byte>): seq<byte>
  {
    OptionalChunk(ID_RIFF_HEADER, wrapper) + state + OptionalChunk(ID_CONFIG_BLOCK, config)
    + StreamHeader(|data|) + data
  }

  function OptionalChunk(id: nat, data: seq<byte>): seq<byte>
    requires id < 0x40
  {
    if data == [] then [] else ChunkBytes(id, data)
  }

  lemma OptionalScans(id: nat, data: seq<byte>, rest: seq<byte>, mono: bool, d: Setup)
    requires ValidSetup(d) && ID_OPTIONAL_DATA <= id < 0x40 && |data| < 0x1ff_ffff
    ensures ScanChunks(OptionalChunk(id, data) + rest, mono, d) == ScanChunks(rest, mono, d)
  {
    hide ScanChunks, ChunkBytes, ValidSetup;
    if data == [] {
      assert [] + rest == rest;
    } else {
      ScanOptional(id, data, rest, mono, d);
    }
  }

  /** Scanning a block finds its passes and medians and stops at its bitstream. */
  lemma BlockScans(ps: seq<DecorrPass>, c0: Entropy, c1: Entropy, mono: bool, wrapper: seq<byte>, config: seq<byte>,
                   data: seq<byte>, after: seq<byte>)
    requires AllValid(ps) && SmallDeltas(ps) && |ps| <= MAX_NTERMS
    requires |wrapper| < 0x1ff_ffff && |config| < 0x1ff_ffff
    requires |data| % 2 == 0 && |data| < 0x200_0000
    ensures ScanBlock(BlockBytes(wrapper, StateChunks(ps, c0, c1, mono), config, data) + after, mono)
            == Ready(Rebuilt(ps, c0, c1, mono), |data|, data + after)
  {
    hide ScanChunks, OptionalChunk, StateChunks, StreamHeader, Rebuilt, ValidSetup;
    var state := StateChunks(ps, c0, c1, mono);
    var d := Rebuilt(ps, c0, c1, mono);
    var r2 := StreamHeader(|data|) + (data + after);
    var r1 := OptionalChunk(ID_CONFIG_BLOCK, config) + r2;
    var r0 := state + r1;
    FreshIsValid();
    OptionalScans(ID_RIFF_HEADER, wrapper, r0, mono, FRESH);
    StateScans(ps, c0, c1, mono, r1);
    OptionalScans(ID_CONFIG_BLOCK, config, r2, mono, d);
    StreamScans(|data|, data + after, mono, d);
    assert BlockBytes(wrapper, state, config, data) + after == OptionalChunk(ID_RIFF_HEADER, wrapper) + r0;
  }

  lemma StreamScans(count: nat, rest: seq<byte>, mono: bool, d: Setup)
    requires ValidSetup(d) && count % 2 == 0 && count < 0x200_0000
    ensures ScanChunks(StreamHeader(count) + rest, mono, d) == Ready(d, count, rest)
  {
    hide NextChunk, StreamHeader;
    StreamSizeComesBack(count, rest);
  }

  /** A scan stopped in front of a bitstream, ready to unpack from state u. */
  predicate OpensFrom(scan: Scan, mono: bool, u: Unpack) {
    && scan.Ready? && 0 < scan.length <= |scan.rest| && scan.length % 2 == 0
    && scan.d.numTerms <= |scan.d.passes| && AllValid(scan.d.passes[..scan.d.numTerms])
    && u == OpenedAt(scan.d.passes[..scan.d.numTerms], scan.d.c0, scan.d.c1, BytesBits(scan.rest[..scan.length]))
    && AllSuit(u.fs, mono, [])
  }

  /** `unpack_init` scans the block and is ready to unpack from state u. */
  predicate Opens(block: seq<byte>, mono: bool, u: Unpack) {
    OpensFrom(ScanBlock(block, mono), mono, u)
  }

  /** Calls of `unpack_samples` for these buffers from state u come to this. */
  predicate Delivers(u: Unpack, mono: bool, joint: bool, limit: int, buffers: seq<seq<int32>>, run: Run) {
    AllSuit(u.fs, mono, []) && AllWhole(mono, buffers) && run == UnpackRun(u, mono, joint, limit, buffers)
  }

  /** Calls of `pack_samples` for these frames, in a block just started, come to this. */
  predicate Packs(ps: seq<DecorrPass>, c0: Entropy, c1: Entropy, mono: bool, joint: bool, calls: seq<seq<Frame>>,
                  p: Pack, bits: seq<bool>)
    requires AllValid(ps)
  {
    && AllSuit(Started(ps, c0, c1, mono).fs, mono, []) && AllCalls(mono, calls)
    && PackRun(Started(ps, c0, c1, mono), mono, joint, calls) == (p, bits)
  }

  lemma PacksStream(ps: seq<DecorrPass>, c0: Entropy, c1: Entropy, mono: bool, joint: bool, calls: seq<seq<Frame>>,
                    p: Pack, bits: seq<bool>)
    requires AllValid(ps) && Packs(ps, c0, c1, mono, joint, calls, p, bits)
    requires Packable(ps, c0, c1, mono, joint, Concat(calls))
    ensures Sent(ps, c0, c1, mono, joint, Concat(calls)) == bits + FlushBits(p.e)
    ensures p.crc == CrcOver(PackCrc, TWO32 - 1, Concat(calls))
  {
    hide PackRun, FitsAll, WellFormed, FlushBits, EncAll, SendWords, CrcOver, PackCrc, Settled, EntropyRead,
         EntropyWritten, Concat, Flat, Joined, Supported;
    PackRunIsOne(Started(ps, c0, c1, mono), mono, joint, calls);
  }

  /** The whole way round. Take any passes and medians an encoder can reach, any frames cut into any calls of
      `pack_samples`, and any bytes around the block; let the decoder scan the block and the caller cut up its
      calls of `unpack_samples` as it likes. The frames come back, with the checksum the encoder put into the
      header, unless one of them is over the mute limit, and then the block is muted. */
  lemma BlockComesBack(ps: seq<DecorrPass>, c0: Entropy, c1: Entropy, mono: bool, joint: bool, limit: int,
                       calls: seq<seq<Frame>>, p: Pack, bits: seq<bool>,
                       wrapper: seq<byte>, config: seq<byte>, data: seq<byte>, after: seq<byte>,
                       buffers: seq<seq<int32>>)
    returns (u: Unpack, run: Run)
    requires AllValid(ps) && Packs(ps, c0, c1, mono, joint, calls, p, bits)
    requires Packable(ps, c0, c1, mono, joint, Concat(calls))
    requires BytesBits(data) == Padded(bits + FlushBits(p.e))
    requires |data| < 0x200_0000 && |wrapper| < 0x1ff_ffff && |config| < 0x1ff_ffff
    requires AllWhole(mono, buffers) && TotalSize(buffers) == Values(mono, |Concat(calls)|)
    ensures Opens(BlockBytes(wrapper, StateChunks(ps, c0, c1, mono), config, data) + after, mono, u)
    ensures Delivers(u, mono, joint, limit, buffers, run)
    ensures run.muted <==> !AllWithin(limit, Concat(calls))
    ensures !run.muted ==> run.out == Flat(Concat(calls)) && run.last.crc == p.crc
  {
    hide ScanBlock, Sent, UnpackRun, Packs, FlushBits, Carries, Started, Packable, CrcOver, OpenedAt, RebuiltPasses,
         UnpackCrc, PackCrc, Flat, AllWithin, Settled, BytesBits, Padded, Concat, AllSuit, AllWhole, Values, Opens,
         BlockBytes, StateChunks;
    var frames := Concat(calls);
    PacksStream(ps, c0, c1, mono, joint, calls, p, bits);
    u := BlockOpens(ps, c0, c1, mono, joint, frames, wrapper, config, data, after);
    var fs := Loads(Settled(ps, mono), 0);
    CarriesSuits(u, fs, mono, joint, frames);
    run := UnpackRun(u, mono, joint, limit, buffers);
    RunComesBack(u, fs, mono, joint, limit, frames, buffers, run);
    CrcsAgree(TWO32 - 1, frames);
  }

  lemma BlockOpens(ps: seq<DecorrPass>, c0: Entropy, c1: Entropy, mono: bool, joint: bool, frames: seq<Frame>,
                   wrapper: seq<byte>, config: seq<byte>, data: seq<byte>, after: seq<byte>)
    returns (u: Unpack)
    requires AllValid(ps)
    requires Packable(ps, c0, c1, mono, joint, frames)
    requires BytesBits(data) == Padded(Sent(ps, c0, c1, mono, joint, frames))
    requires |data| < 0x200_0000 && |wrapper| < 0x1ff_ffff && |config| < 0x1ff_ffff
    ensures Opens(BlockBytes(wrapper, StateChunks(ps, c0, c1, mono), config, data) + after, mono, u)
    ensures Carries(u, Loads(Settled(ps, mono), 0), mono, joint, frames) && u.crc == TWO32 - 1
  {
    hide ScanBlock, Sent, FlushBits, Carries, Started, FitsAll, RebuiltPasses, EntropyRead, EntropyWritten,
         Settled, BytesBits, Padded, AllSuit, BlockBytes, StateChunks, Joined, Supported;
    var p := Started(ps, c0, c1, mono);
    SameBytes(data, Sent(ps, c0, c1, mono, joint, frames));
    BlockScans(ps, c0, c1, mono, wrapper, config, data, after);
    assert (data + after)[..|data|] == data;
    StartMedians(ps, c0, c1, mono);
    u := OpenedAt(RebuiltPasses(ps, mono), p.e.c0, p.e.c1, BytesBits(data));
    StreamCarries(ps, c0, c1, mono, joint, frames, u);
    CarriesSuits(u, Loads(Settled(ps, mono), 0), mono, joint, frames);
    assert data != [] by { EmptyBytes(); }
  }

  lemma SameBytes(data: seq<byte>, w: seq<bool>)
    requires BytesBits(data) == Padded(w)
    ensures |data| == PaddedBytes(|w|) && |data| % 2 == 0
  {
    hide BytesBits, Padded, PaddedBytes;
    PaddedSize(|w|);
  }

  lemma StartMedians(ps: seq<DecorrPass>, c0: Entropy, c1: Entropy, mono: bool)
    requires AllValid(ps) && |ps| <= MAX_NTERMS && (mono ==> c1 == ZERO_ENTROPY)
    ensures var e := Started(ps, c0, c1, mono).e;
            Rebuilt(ps, c0, c1, mono).c0 == e.c0 && Rebuilt(ps, c0, c1, mono).c1 == e.c1
  {
    hide Settled, RebuiltPasses, EntropyWritten, EntropyAt;
  }

  lemma CarriesSuits(u: Unpack, fs: seq<Filter>, mono: bool, joint: bool, frames: seq<Frame>)
    requires Carries(u, fs, mono, joint, frames)
    ensures AllSuit(u.fs, mono, [])
  {
  }
}
