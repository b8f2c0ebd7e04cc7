/** The encoder's methods followed by the decoder's: what one leaves in the block buffer the other reads. */
module EndToEnd {
  import opened Machine
  import opened BitIO
  import opened WordSpec
  import opened DecorrSpec
  import opened DecorrInverse
  import opened DecorrPasses
  import opened Chunks
  import opened Sync
  import opened BlockSpec
  import opened BlockRoundTrip
  import opened Packing
  import opened Unpacking

  lemma OneCall(p: Pack, mono: bool, joint: bool, frames: seq<Frame>)
    requires AllSuit(p.fs, mono, []) && AllFrames(mono, frames)
    ensures AllCalls(mono, [frames]) && Concat([frames]) == frames
    ensures AllSuit(p.fs, mono, frames) && PackRun(p, mono, joint, [frames]) == PackStep(p, mono, joint, frames)
  {
    hide PackStep, WellFormed;
    assert [frames][1..] == [];
    assert frames + [] == frames;
    SuitsEmpty(p.fs, mono, frames);
    var (q, bits) := PackStep(p, mono, joint, frames);
    assert bits + [] == bits;
  }

  lemma OneBuffer(u: Unpack, mono: bool, joint: bool, limit: int, buffer: seq<int32>)
    requires AllSuit(u.fs, mono, []) && Whole(mono, buffer)
    ensures AllWhole(mono, [buffer])
    ensures var r := UnpackStep(u, mono, joint, limit, buffer);
            var run := UnpackRun(u, mono, joint, limit, [buffer]);
            && run.muted == r.muted
            && (!r.muted ==> run.out == Flat(r.frames) && run.last == r.next)
  {
    hide UnpackStep, WellFormed, Flat;
    assert [buffer][1..] == [];
    var r := UnpackStep(u, mono, joint, limit, buffer);
    assert Flat(r.frames) + [] == Flat(r.frames);
  }

  lemma OneSize(mono: bool, buffer: seq<int32>)
    requires Whole(mono, buffer)
    ensures AllWhole(mono, [buffer]) && TotalSize([buffer]) == |buffer|
  {
    assert [buffer][1..] == [];
  }

  /** The block in the buffer is the one the theorem is about. */
  lemma BlockInBuffer(wrapper: seq<byte>, state: seq<byte>, config: seq<byte>, area: seq<byte>, head: seq<byte>,
                      data: seq<byte>)
    requires area == OptionalChunk(ID_RIFF_HEADER, wrapper) + state + OptionalChunk(ID_CONFIG_BLOCK, config)
    requires head == StreamHeader(|data|)
    ensures area + head + data == BlockBytes(wrapper, state, config, data) + []
  {
    hide OptionalChunk, StreamHeader;
  }

  /** One call on each side. */
  lemma BlockArrives(ps: seq<DecorrPass>, c0: Entropy, c1: Entropy, mono: bool, joint: bool, limit: int,
                     frames: seq<Frame>, p: Pack, bits: seq<bool>, wrapper: seq<byte>, config: seq<byte>,
                     data: seq<byte>, block: seq<byte>, buffer: seq<int32>)
    returns (u: Unpack, r: Unpacked)
    requires AllValid(ps) && AllSuit(Started(ps, c0, c1, mono).fs, mono, []) && AllFrames(mono, frames)
    requires AllSuit(Started(ps, c0, c1, mono).fs, mono, frames)
    requires (p, bits) == PackStep(Started(ps, c0, c1, mono), mono, joint, frames)
    requires Packable(ps, c0, c1, mono, joint, frames)
    requires BytesBits(data) == Padded(bits + FlushBits(p.e)) && |data| < 0x200_0000
    requires |wrapper| < 0x1ff_ffff && |config| < 0x1ff_ffff
    requires block == BlockBytes(wrapper, StateChunks(ps, c0, c1, mono), config, data)
    requires Whole(mono, buffer) && |buffer| == Values(mono, |frames|)
    ensures Opens(block, mono, u)
    ensures AllSuit(u.fs, mono, []) && r == UnpackStep(u, mono, joint, limit, buffer)
    ensures r.muted <==> !AllWithin(limit, frames)
    ensures !r.muted ==> Flat(r.frames) == Flat(frames) && r.next.crc == p.crc
  {
    hide Packable, PackStep, UnpackStep, FlushBits, WellFormed, Flat, AllWithin, BytesBits, Padded, Opens, BlockBytes,
         StateChunks, Started, ScanBlock, Whole, Values;
    OneCall(Started(ps, c0, c1, mono), mono, joint, frames);
    assert block + [] == block;
    var run;
    OneSize(mono, buffer);
    u, run := BlockComesBack(ps, c0, c1, mono, joint, limit, [frames], p, bits, wrapper, config, data, [], [buffer]);
    assert AllSuit(u.fs, mono, []);
    OneBuffer(u, mono, joint, limit, buffer);
    r := UnpackStep(u, mono, joint, limit, buffer);
  }

  /** The frames in the first values of a buffer. */
  ghost function FramesIn(buffer: array<int32>, mono: bool, count: nat): (frames: seq<Frame>)
    requires Values(mono, count) <= buffer.Length
    reads buffer
    ensures AllFrames(mono, frames) && |frames| == count
  {
    Unflat(mono, buffer[..Values(mono, count)])
  }

  /** A whole block of the encoder: its metadata, the samples, and the end of the bitstream. */
  method Pack(enc: Packer, samples: array<int32>, count: nat, block: array<byte>, end: nat)
    returns (ghost bits: seq<bool>, ghost start: nat)
    requires enc.Valid() && enc.Flushed() && end <= block.Length && end < TWO31
    requires Values(enc.mono, count) <= samples.Length && samples as object != block
    requires 32 + |enc.Prologue()| + 4 < end
    modifies enc, enc.passes, enc.w, samples, block
    ensures AllValid(old(enc.passes[..enc.numTerms])) && start == 36 + |old(enc.Prologue())|
    ensures var p := Started(old(enc.passes[..enc.numTerms]), old(enc.w.c0), old(enc.w.c1), enc.mono);
            AllSuit(p.fs, enc.mono, old(FramesIn(samples, enc.mono, count))) &&
            var q := PackStep(p, enc.mono, enc.joint, old(FramesIn(samples, enc.mono, count)));
            var sent := q.1 + FlushBits(q.0.e);
            var n := PaddedBytes(|sent|);
            bits == q.1 && enc.crc == q.0.crc &&
            (0 < n < end - start ==>
               && enc.ckSize + 8 == start + n && start + n <= block.Length
               && block[32..start - 4] == old(enc.Prologue())
               && block[start - 4..start] == StreamHeader(n)
               && BytesBits(block[start..start + n]) == Padded(sent))
  {
    hide PackStep, FlushBits, Started, BytesBits, Padded, PaddedBytes, StreamHeader, WellFormed, Packer.Prologue,
         BitWriter.Valid, BitWriter.Written, Unflat;
    ghost var prologue := enc.Prologue();
    ghost var frames := FramesIn(samples, enc.mono, count);
    enc.StartBlock(block, end);
    start := enc.ckSize + 12;
    ghost var p := enc.View();
    assert FramesIn(samples, enc.mono, count) == frames;
    enc.PackSamples(samples, count);
    bits := PackStep(p, enc.mono, enc.joint, frames).1;
    assert block[32..start - 4] == prologue;
    assert [] + bits == bits;
    ghost var n := PaddedBytes(|bits + FlushBits(enc.w.EncView())|);
    var ok := enc.FinishBlock();
    assert block[32..start - 4] == prologue;
    if 0 < n < end - start {
      assert enc.ckSize + 8 == start + n;
    }
  }

  /** Frames make a bitstream of at least one word. */
  lemma SomethingIsSent(ps: seq<DecorrPass>, c0: Entropy, c1: Entropy, mono: bool, joint: bool, frames: seq<Frame>)
    requires Packable(ps, c0, c1, mono, joint, frames)
    ensures PaddedBytes(|Sent(ps, c0, c1, mono, joint, frames)|) > 0
  {
    hide Sent, Started, RebuiltPasses, FitsAll, AllSuit, Supported, Settled, Carries;
    var p := Started(ps, c0, c1, mono);
    StreamCarries(ps, c0, c1, mono, joint, frames,
                  OpenedAt(RebuiltPasses(ps, mono), p.e.c0, p.e.c1, Padded(Sent(ps, c0, c1, mono, joint, frames))));
  }

  lemma SentIs(ps: seq<DecorrPass>, c0: Entropy, c1: Entropy, mono: bool, joint: bool, frames: seq<Frame>)
    requires Packable(ps, c0, c1, mono, joint, frames)
    ensures AllValid(ps) && AllSuit(Started(ps, c0, c1, mono).fs, mono, frames)
    ensures AllFrames(mono, frames) && frames != []
    ensures var (p, bits) := PackStep(Started(ps, c0, c1, mono), mono, joint, frames);
            Sent(ps, c0, c1, mono, joint, frames) == bits + FlushBits(p.e)
  {
    hide PackStep, FlushBits, FitsAll, Settled;
  }

  /** A decoder for the block in these bytes, opened and asked for its samples. */
  method Unpack(bytes: seq<byte>, mono: bool, joint: bool, mag: nat, output: array<int32>, count: nat,
                ghost u: BlockSpec.Unpack)
    returns (dec: Unpacker)
    requires Opens(bytes, mono, u) && count > 0 && Values(mono, count) <= output.Length
    modifies output
    ensures AllSuit(u.fs, mono, []) && dec.sampleIndex == count
    ensures var n := Values(mono, count);
            var r := UnpackStep(u, mono, joint, MuteLimit(mag), old(Front(output, mono, count)));
            && dec.muteError == r.muted && dec.crc == r.next.crc
            && (!r.muted ==> output[..n] == Flat(r.frames))
  {
    hide UnpackStep, WellFormed, Flat, ScanBlock, BytesBits, Loads, BitReader.Valid;
    dec := new Unpacker(mono, joint, mag, bytes, 0, count);
    var ok := dec.UnpackInit();
    var n := dec.UnpackSamples(output, count);
  }

  lemma WholeValues(mono: bool, s: seq<int32>, n: nat)
    requires |s| == Values(mono, n)
    ensures Whole(mono, s)
  {
  }

  /** There is room in the buffer for the whole block, and in its size field for the bitstream. */
  ghost predicate Room(enc: Packer, frames: seq<Frame>, end: nat)
    requires enc.Valid() && AllValid(enc.passes[..enc.numTerms])
    requires Packable(enc.passes[..enc.numTerms], enc.w.c0, enc.w.c1, enc.mono, enc.joint, frames)
    reads enc, enc.passes, enc.w
  {
    var n := PaddedBytes(|Sent(enc.passes[..enc.numTerms], enc.w.c0, enc.w.c1, enc.mono, enc.joint, frames)|);
    36 + |enc.Prologue()| + n < end && n < 0x200_0000
  }

  /** Pack a block with the encoder's methods, give its bytes to a decoder, unpack it with the decoder's methods: the
      samples are back in the output buffer and the checksums agree, unless a sample is over the mute limit. */
  method RoundTrip(enc: Packer, samples: array<int32>, count: nat, block: array<byte>, end: nat, mag: nat,
                   output: array<int32>)
    returns (dec: Unpacker)
    requires enc.Valid() && enc.Flushed() && end <= block.Length && end < TWO31 && |enc.wrapper| < 0x1ff_ffff
    requires Values(enc.mono, count) <= samples.Length && Values(enc.mono, count) <= output.Length
    requires samples as object != block
    requires AllValid(enc.passes[..enc.numTerms])
    requires Packable(enc.passes[..enc.numTerms], enc.w.c0, enc.w.c1, enc.mono, enc.joint,
                      FramesIn(samples, enc.mono, count))
    requires Room(enc, FramesIn(samples, enc.mono, count), end)
    modifies enc, enc.passes, enc.w, samples, block, output
    ensures dec.muteError <==> !AllWithin(MuteLimit(mag), old(FramesIn(samples, enc.mono, count)))
    ensures !dec.muteError ==>
              && output[..Values(enc.mono, count)] == old(samples[..Values(enc.mono, count)])
              && dec.crc == enc.crc && dec.sampleIndex == count
  {
    hide Packable, PackStep, UnpackStep, FlushBits, Started, BytesBits, Padded, PaddedBytes, StreamHeader, WellFormed,
         StateChunks, OptionalChunk, Flat, AllWithin, Unflat, Opens, ScanBlock, BlockBytes, Values, Whole, AllValid,
         AllFrames;
    ghost var ps, c0, c1, mono, joint := enc.passes[..enc.numTerms], enc.w.c0, enc.w.c1, enc.mono, enc.joint;
    ghost var frames := FramesIn(samples, mono, count);
    ghost var wrapper, config := enc.wrapper, enc.FirstConfig();
    SomethingIsSent(ps, c0, c1, mono, joint, frames);
    SentIs(ps, c0, c1, mono, joint, frames);
    WholeValues(mono, samples[..Values(mono, count)], count);
    FlatUnflat(mono, samples[..Values(mono, count)]);
    ghost var bits, start := Pack(enc, samples, count, block, end);
    ghost var p := PackStep(Started(ps, c0, c1, mono), mono, joint, frames).0;
    var bytes := block[32..enc.ckSize + 8];
    ghost var data := block[start..enc.ckSize + 8];
    BlockInBuffer(wrapper, StateChunks(ps, c0, c1, mono), config, block[32..start - 4], block[start - 4..start], data);
    assert bytes == block[32..start - 4] + block[start - 4..start] + data;
    WholeValues(mono, output[..Values(mono, count)], count);
    ghost var u, r := BlockArrives(ps, c0, c1, mono, joint, MuteLimit(mag), frames, p, bits, wrapper, config, data,
                                   bytes, output[..Values(mono, count)]);
    dec := Unpack(bytes, enc.mono, enc.joint, mag, output, count, u);
  }
}
