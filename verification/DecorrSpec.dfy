/** The decorrelation filters of jni/wv/pack.c and jni/wv/unpack.c, over whole streams of samples: what one
    pass does to one sample, to a block, and what a list of passes does. Buffers, circular histories and the
    order in which the loops visit the samples are the business of module DecorrPasses. */
module DecorrSpec {
  import opened Machine

  const MAX_TERM := 8

  /** One sample time. */
  datatype Frame = Mono(a: int32) | Stereo(a: int32, b: int32)

  /** One pass: its term and delta, the weight of each channel, and the samples it remembers of each,
      oldest first. */
  datatype Filter = Filter(term: int, delta: nat, wA: int32, wB: int32, hA: seq<int32>, hB: seq<int32>)

  predicate ValidTerm(term: int) {
    -3 <= term <= -1 || 1 <= term <= MAX_TERM || term == 17 || term == 18
  }

  /** How many samples of a channel a pass remembers. */
  function Depth(term: int): nat {
    if term > MAX_TERM then 2 else if term > 0 then MAX_TERM else 1
  }

  predicate WellFormed(f: Filter) {
    ValidTerm(f.term) && |f.hA| == |f.hB| == Depth(f.term)
  }

  // ---------------------------------------------------------------- one sample

  /** `apply_weight_i`. */
  function ApplyI(w: int, s: int): int {
    Wrap32(w * s + 512) / 1024
  }

  /** `apply_weight_f`. */
  function ApplyF(w: int, s: int): int {
    var lo := s % TWO16;
    Wrap32(Wrap32(lo * w) / 512 + Wrap32((s - lo) / 512 * w) + 1) / 2
  }

  /** `apply_weight`. */
  function Apply(w: int, s: int): int {
    if s == Wrap16(s) then ApplyI(w, s) else ApplyF(w, s)
  }

  /** `update_weight`. */
  function Update(w: int, delta: nat, source: int, result: int): (r: int)
    ensures Abs(r) <= Abs(w) + delta
  {
    if source == 0 || result == 0 then w
    else if (source < 0) == (result < 0) then w + delta
    else w - delta
  }

  /** `update_weight_clip`. */
  function UpdateClip(w: int, delta: nat, source: int, result: int): (r: int)
    ensures Abs(r) <= Abs(w) + delta
    ensures -1024 <= w <= 1024 ==> -1024 <= r <= 1024
  {
    if source == 0 || result == 0 then w
    else if (source < 0) != (result < 0) then (if w - delta < -1024 then -1024 else w - delta)
    else if w + delta > 1024 then 1024 else w + delta
  }

  function Extrapolate17(newer: int, older: int): int32 {
    Wrap32(2 * newer - older)
  }

  function Extrapolate18(newer: int, older: int): int32 {
    Wrap32(3 * newer - older) / 2
  }

  /** The prediction of a term above 0 from one channel's history. */
  function Predict(term: int, h: seq<int32>): int32
    requires term > 0 && |h| == Depth(term) && ValidTerm(term)
  {
    if term == 17 then Extrapolate17(h[1], h[0])
    else if term == 18 then Extrapolate18(h[1], h[0])
    else h[MAX_TERM - term]
  }

  function Push(h: seq<int32>, x: int32): (r: seq<int32>)
    requires |h| > 0
    ensures |r| == |h|
  {
    h[1..] + [x]
  }

  datatype Chan = Chan(w: int32, h: seq<int32>, out: int32)

  /** The encoder on one channel; it nudges weights by 2 whatever delta says, and keeps them in shorts. */
  function EncChan(term: int, w: int32, h: seq<int32>, x: int32): (c: Chan)
    requires term > 0 && |h| == Depth(term) && ValidTerm(term)
    ensures |c.h| == |h|
  {
    var s := Predict(term, h);
    var r := Wrap32(x - ApplyI(w, s));
    Chan(Wrap16(Update(w, 2, s, r)), Push(h, x), r)
  }

  /** The decoder on one channel. */
  function DecChan(term: int, delta: nat, w: int32, h: seq<int32>, r: int32): (c: Chan)
    requires term > 0 && |h| == Depth(term) && ValidTerm(term)
    ensures |c.h| == |h|
  {
    var s := Predict(term, h);
    var x := Wrap32(Apply(w, s) + r);
    Chan(Wrap32(Update(w, delta, s, r)), Push(h, x), x)
  }

  /** One turn of a loop of pack.c. In stereo, terms 8, -1 and -3 match none of the cases and the pass
      does nothing. */
  function EncFrame(f: Filter, fr: Frame): (r: (Filter, Frame))
    requires WellFormed(f) && (fr.Mono? ==> f.term > 0)
    ensures WellFormed(r.0) && r.0.term == f.term && r.0.delta == f.delta
    ensures r.1.Mono? <==> fr.Mono?
  {
    match fr
    case Mono(a) =>
      var c := EncChan(f.term, f.wA, f.hA, a);
      (f.(wA := c.w, hA := c.h), Mono(c.out))
    case Stereo(a, b) =>
      if f.term > 0 && f.term != MAX_TERM then
        var c, d := EncChan(f.term, f.wA, f.hA, a), EncChan(f.term, f.wB, f.hB, b);
        (f.(wA := c.w, hA := c.h, wB := d.w, hB := d.h), Stereo(c.out, d.out))
      else if f.term == -2 then
        var prev := f.hB[0];
        var ra := Wrap32(a - ApplyI(f.wA, b));
        var rb := Wrap32(b - ApplyI(f.wB, prev));
        (f.(wA := Wrap16(UpdateClip(f.wA, 2, b, ra)), wB := Wrap16(UpdateClip(f.wB, 2, prev, rb)), hB := [a]),
         Stereo(ra, rb))
      else
        (f, fr)
  }

  /** One turn of a loop of unpack.c. */
  function DecFrame(f: Filter, fr: Frame): (r: (Filter, Frame))
    requires WellFormed(f) && (fr.Mono? ==> f.term > 0)
    ensures WellFormed(r.0) && r.0.term == f.term && r.0.delta == f.delta
    ensures r.1.Mono? <==> fr.Mono?
  {
    match fr
    case Mono(a) =>
      var c := DecChan(f.term, f.delta, f.wA, f.hA, a);
      (f.(wA := c.w, hA := c.h), Mono(c.out))
    case Stereo(a, b) =>
      if f.term > 0 then
        var c, d := DecChan(f.term, f.delta, f.wA, f.hA, a), DecChan(f.term, f.delta, f.wB, f.hB, b);
        (f.(wA := c.w, hA := c.h, wB := d.w, hB := d.h), Stereo(c.out, d.out))
      else if f.term == -1 then
        var prev := f.hA[0];
        var xa := Wrap32(a + Apply(f.wA, prev));
        var xb := Wrap32(b + Apply(f.wB, xa));
        (f.(wA := Wrap32(UpdateClip(f.wA, f.delta, prev, a)), wB := Wrap32(UpdateClip(f.wB, f.delta, xa, b)),
            hA := [xb]), Stereo(xa, xb))
      else if f.term == -2 then
        var prev := f.hB[0];
        var xb := Wrap32(b + Apply(f.wB, prev));
        var xa := Wrap32(a + Apply(f.wA, xb));
        (f.(wB := Wrap32(UpdateClip(f.wB, f.delta, prev, b)), wA := Wrap32(UpdateClip(f.wA, f.delta, xb, a)),
            hB := [xa]), Stereo(xa, xb))
      else
        var xa := Wrap32(a + Apply(f.wA, f.hA[0]));
        var xb := Wrap32(b + Apply(f.wB, f.hB[0]));
        (f.(wA := Wrap32(UpdateClip(f.wA, f.delta, f.hA[0], a)), wB := Wrap32(UpdateClip(f.wB, f.delta, f.hB[0], b)),
            hA := [xb], hB := [xa]), Stereo(xa, xb))
  }

  // ---------------------------------------------------------------- one block

  /** All frames have the block's channel count, and mono blocks only terms above 0. */
  predicate Suits(f: Filter, mono: bool, frames: seq<Frame>) {
    && WellFormed(f) && (mono ==> f.term > 0)
    && AllFrames(mono, frames)
  }

  predicate AllFrames(mono: bool, frames: seq<Frame>) {
    forall i :: 0 <= i < |frames| ==> (frames[i].Mono? <==> mono)
  }

  function EncPass(f: Filter, mono: bool, frames: seq<Frame>): (r: (Filter, seq<Frame>))
    requires Suits(f, mono, frames)
    ensures |r.1| == |frames| && Suits(r.0, mono, r.1)
    ensures r.0.term == f.term && r.0.delta == f.delta
  {
    if frames == [] then (f, [])
    else
      var n := |frames| - 1;
      var (g, out) := EncPass(f, mono, frames[..n]);
      var (g', o) := EncFrame(g, frames[n]);
      (g', out + [o])
  }

  /** The loop of a decoder pass. */
  function DecLoop(f: Filter, mono: bool, frames: seq<Frame>): (r: (Filter, seq<Frame>))
    requires Suits(f, mono, frames)
    ensures |r.1| == |frames| && Suits(r.0, mono, r.1)
    ensures r.0.term == f.term && r.0.delta == f.delta
  {
    if frames == [] then (f, [])
    else
      var n := |frames| - 1;
      var (g, out) := DecLoop(f, mono, frames[..n]);
      var (g', o) := DecFrame(g, frames[n]);
      (g', out + [o])
  }

  lemma DecLoopStep(f: Filter, mono: bool, frames: seq<Frame>, i: nat)
    requires Suits(f, mono, frames) && i < |frames|
    ensures var (g, out) := DecLoop(f, mono, frames[..i]);
            var (g', o) := DecFrame(g, frames[i]);
            DecLoop(f, mono, frames[..i + 1]) == (g', out + [o])
  {
    hide DecFrame;
    assert frames[..i + 1][..i] == frames[..i];
  }

  lemma EncPassStep(f: Filter, mono: bool, frames: seq<Frame>, i: nat)
    requires Suits(f, mono, frames) && i < |frames|
    ensures var (g, out) := EncPass(f, mono, frames[..i]);
            var (g', o) := EncFrame(g, frames[i]);
            EncPass(f, mono, frames[..i + 1]) == (g', out + [o])
  {
    hide EncFrame;
    assert frames[..i + 1][..i] == frames[..i];
  }

  /** A decoder pass works on 32-bit copies of its weights and stores them back into shorts. */
  function DecPass(f: Filter, mono: bool, frames: seq<Frame>): (r: (Filter, seq<Frame>))
    requires Suits(f, mono, frames)
    ensures |r.1| == |frames| && Suits(r.0, mono, r.1)
    ensures r.0.term == f.term && r.0.delta == f.delta
  {
    var (g, out) := DecLoop(f, mono, frames);
    (g.(wA := Wrap16(g.wA), wB := if mono then g.wB else Wrap16(g.wB)), out)
  }

  /** What `unpack_samples` does with one pass: stereo blocks from sixteen frames on are decoded as eight
      frames and a continuation, with the weights going through the shorts in between. */
  function BlockPass(f: Filter, mono: bool, frames: seq<Frame>): (r: (Filter, seq<Frame>))
    requires Suits(f, mono, frames)
    ensures |r.1| == |frames| && Suits(r.0, mono, r.1)
    ensures r.0.term == f.term && r.0.delta == f.delta
  {
    if mono || |frames| < 16 then DecPass(f, mono, frames)
    else
      var (g, head) := DecPass(f, mono, frames[..8]);
      var (h, tail) := DecPass(g, mono, frames[8..]);
      (h, head + tail)
  }

  predicate AllSuit(fs: seq<Filter>, mono: bool, frames: seq<Frame>) {
    && AllFrames(mono, frames)
    && forall i :: 0 <= i < |fs| ==> WellFormed(fs[i]) && (mono ==> fs[i].term > 0)
  }

  /** Every pass of the encoder in turn over the whole block (stereo). */
  function EncAll(fs: seq<Filter>, mono: bool, frames: seq<Frame>): (r: (seq<Filter>, seq<Frame>))
    requires AllSuit(fs, mono, frames)
    ensures |r.0| == |fs| && |r.1| == |frames| && AllSuit(r.0, mono, r.1)
  {
    if fs == [] then ([], frames)
    else
      var n := |fs| - 1;
      var (gs, ys) := EncAll(fs[..n], mono, frames);
      var (g, zs) := EncPass(fs[n], mono, ys);
      (gs + [g], zs)
  }

  /** One frame through every pass of the encoder. */
  function EncThrough(fs: seq<Filter>, mono: bool, fr: Frame): (r: (seq<Filter>, Frame))
    requires AllSuit(fs, mono, [fr])
    ensures |r.0| == |fs| && AllSuit(r.0, mono, [r.1])
  {
    if fs == [] then ([], fr)
    else
      var n := |fs| - 1;
      var (gs, y) := EncThrough(fs[..n], mono, fr);
      assert [y][0] == y;
      var (g, z) := EncFrame(fs[n], y);
      (gs + [g], z)
  }

  /** Every frame of the block in turn through all passes (mono). */
  function EncBySample(fs: seq<Filter>, mono: bool, frames: seq<Frame>): (r: (seq<Filter>, seq<Frame>))
    requires AllSuit(fs, mono, frames)
    ensures |r.0| == |fs| && |r.1| == |frames| && AllSuit(r.0, mono, r.1)
  {
    if frames == [] then (fs, [])
    else
      var n := |frames| - 1;
      var (gs, out) := EncBySample(fs, mono, frames[..n]);
      assert AllSuit(gs, mono, [frames[n]]);
      var (gs', o) := EncThrough(gs, mono, frames[n]);
      assert [o][0] == o;
      (gs', out + [o])
  }

  /** Every pass of the decoder in turn over the whole block. */
  function DecAll(fs: seq<Filter>, mono: bool, frames: seq<Frame>): (r: (seq<Filter>, seq<Frame>))
    requires AllSuit(fs, mono, frames)
    ensures |r.0| == |fs| && |r.1| == |frames| && AllSuit(r.0, mono, r.1)
  {
    if fs == [] then ([], frames)
    else
      var (g, ys) := BlockPass(fs[0], mono, frames);
      var (gs, zs) := DecAll(fs[1..], mono, ys);
      ([g] + gs, zs)
  }

  // ---------------------------------------------------------------- around the passes

  /** Joint stereo: difference and half-sum. */
  function ToJoint(fr: Frame): (r: Frame)
    ensures r.Mono? <==> fr.Mono?
  {
    match fr
    case Mono(_) => fr
    case Stereo(l, r) =>
      var d := Wrap32(l - r);
      Stereo(d, Wrap32(r + d / 2))
  }

  function FromJoint(fr: Frame): (r: Frame)
    ensures r.Mono? <==> fr.Mono?
  {
    match fr
    case Mono(_) => fr
    case Stereo(d, s) =>
      var r := Wrap32(s - d / 2);
      Stereo(Wrap32(d + r), r)
  }

  /** The encoder's checksum step. */
  function PackCrc(crc: u32, fr: Frame): u32 {
    match fr
    case Mono(a) => U32(crc * 3 + a)
    case Stereo(a, b) => U32(crc * 9 + a * 3 + b)
  }

  /** The decoder's. */
  function UnpackCrc(crc: u32, fr: Frame): u32 {
    match fr
    case Mono(a) => U32(crc * 3 + a)
    case Stereo(a, b) => U32(U32(crc * 3 + a) * 3 + b)
  }

  /** The checksum of a run of frames, by either step. */
  function CrcOver(step: (u32, Frame) -> u32, crc: u32, frames: seq<Frame>): u32 {
    if frames == [] then crc
    else step(CrcOver(step, crc, frames[..|frames| - 1]), frames[|frames| - 1])
  }
}
