/** One WavPack block as functions: what packing runs of frames appends to the bitstream, and what unpacking
    reads back, in any number of calls on either side. */
module BlockSpec {
  import opened Machine
  import opened Bits
  import opened BitIO
  import opened WordSpec
  import opened WordsRoundTrip
  import opened DecorrSpec
  import opened DecorrInverse
  import opened DecorrResume
  import opened DecorrPasses

  // ---------------------------------------------------------------- frames and buffers

  /** The samples of frames as a buffer holds them. */
  function Flat(frames: seq<Frame>): (s: seq<int32>)
  {
    if frames == [] then []
    else
      var n := |frames| - 1;
      Flat(frames[..n]) + match frames[n] case Mono(a) => [a] case Stereo(a, b) => [a, b]
  }

  /** How many values n frames take. */
  function Values(mono: bool, n: nat): nat {
    if mono then n else 2 * n
  }

  /** The buffer holds whole frames. */
  predicate Whole(mono: bool, s: seq<int32>) {
    mono || |s| % 2 == 0
  }

  lemma {:induction false} FlatSize(mono: bool, frames: seq<Frame>)
    requires AllFrames(mono, frames)
    ensures |Flat(frames)| == Values(mono, |frames|) && Whole(mono, Flat(frames))
    decreases |frames|
  {
    if frames == [] {
    } else {
      FlatSize(mono, frames[..|frames| - 1]);
    }
  }

  lemma {:induction false} FlatConcat(a: seq<Frame>, b: seq<Frame>)
    ensures Flat(a + b) == Flat(a) + Flat(b)
    decreases |b|
  {
    if b == [] {
      assert a + b == a;
    } else {
      var n := |b| - 1;
      FlatConcat(a, b[..n]);
      assert (a + b)[..|a| + n] == a + b[..n] && (a + b)[|a| + n] == b[n];
    }
  }

  /** The first n frames of a buffer, as values. */
  ghost function Front(buffer: array<int32>, mono: bool, n: nat): (s: seq<int32>)
    requires Values(mono, n) <= buffer.Length
    reads buffer
    ensures Whole(mono, s) && |s| == Values(mono, n)
  {
    buffer[..Values(mono, n)]
  }

  /** The frames of a buffer. */
  function Unflat(mono: bool, s: seq<int32>): (r: seq<Frame>)
    requires Whole(mono, s)
    ensures AllFrames(mono, r) && |s| == Values(mono, |r|)
  {
    if mono then MonoFrames(s) else StereoFrames(s)
  }

  lemma {:induction false} UnflatFlat(mono: bool, frames: seq<Frame>)
    requires AllFrames(mono, frames)
    ensures |Flat(frames)| == Values(mono, |frames|) && Whole(mono, Flat(frames))
    ensures Unflat(mono, Flat(frames)) == frames
    decreases |frames|
  {
    FlatSize(mono, frames);
    if frames == [] {
    } else {
      var n := |frames| - 1;
      UnflatFlat(mono, frames[..n]);
      FlatSize(mono, frames[..n]);
      var s := Flat(frames);
      var r := Unflat(mono, s);
      forall i | 0 <= i < |frames|
        ensures r[i] == frames[i]
      {
        if i < n {
          assert Unflat(mono, Flat(frames[..n]))[i] == frames[i];
        }
      }
    }
  }

  lemma {:induction false} FlatUnflat(mono: bool, s: seq<int32>)
    requires Whole(mono, s)
    ensures Flat(Unflat(mono, s)) == s
    decreases |s|
  {
    hide Unflat;
    UnflatLast(mono, s);
    if s == [] {
    } else {
      var k := if mono then 1 else 2;
      FlatUnflat(mono, s[..|s| - k]);
      assert s == s[..|s| - k] + s[|s| - k..];
    }
  }

  lemma UnflatLast(mono: bool, s: seq<int32>)
    requires Whole(mono, s)
    ensures s == [] ==> Unflat(mono, s) == []
    ensures s != [] ==>
              var k, r := if mono then 1 else 2, Unflat(mono, s);
              && k <= |s| && Whole(mono, s[..|s| - k]) && |r| > 0
              && r[..|r| - 1] == Unflat(mono, s[..|s| - k])
              && r[|r| - 1] == if mono then Mono(s[|s| - 1]) else Stereo(s[|s| - 2], s[|s| - 1])
  {
    if s != [] && !mono {
      var h := |s| / 2 - 1;
      assert |s| == 2 * h + 2;
      StereoFramesSnoc(s, h);
      assert s[..2 * h + 2] == s;
    }
  }

  // ---------------------------------------------------------------- joint stereo, checksum, muting

  function Joined(joint: bool, frames: seq<Frame>): (r: seq<Frame>)
    ensures |r| == |frames|
    ensures forall i :: 0 <= i < |r| ==> (r[i].Mono? <==> frames[i].Mono?)
  {
    seq(|frames|, i requires 0 <= i < |frames| => if joint then ToJoint(frames[i]) else frames[i])
  }

  function Unjoined(joint: bool, frames: seq<Frame>): (r: seq<Frame>)
    ensures |r| == |frames|
    ensures forall i :: 0 <= i < |r| ==> (r[i].Mono? <==> frames[i].Mono?)
  {
    seq(|frames|, i requires 0 <= i < |frames| => if joint then FromJoint(frames[i]) else frames[i])
  }

  lemma JoinedComesBack(joint: bool, frames: seq<Frame>)
    ensures Unjoined(joint, Joined(joint, frames)) == frames
  {
    hide ToJoint, FromJoint;
    forall i | 0 <= i < |frames|
      ensures Unjoined(joint, Joined(joint, frames))[i] == frames[i]
    {
      JointInverts(frames[i]);
    }
  }

  lemma JoinedConcat(joint: bool, a: seq<Frame>, b: seq<Frame>)
    ensures Joined(joint, a + b) == Joined(joint, a) + Joined(joint, b)
    ensures Unjoined(joint, a + b) == Unjoined(joint, a) + Unjoined(joint, b)
  {
    hide ToJoint, FromJoint;
  }

  lemma {:induction false} CrcConcat(step: (u32, Frame) -> u32, crc: u32, a: seq<Frame>, b: seq<Frame>)
    ensures CrcOver(step, crc, a + b) == CrcOver(step, CrcOver(step, crc, a), b)
    decreases |b|
  {
    if b == [] {
      assert a + b == a;
    } else {
      var n := |b| - 1;
      CrcConcat(step, crc, a, b[..n]);
      assert (a + b)[..|a| + n] == a + b[..n] && (a + b)[|a| + n] == b[n];
    }
  }

  /** `mute_limit`; mag is the magnitude field of the block flags. */
  function MuteLimit(mag: nat): int32 {
    Wrap32(Pow2(mag) + 2)
  }

  /** The limit is the one the flags announce for magnitudes up to 30; for 31 it wraps below zero and mutes every block
      but those whose samples are all -2^31, the one number that `labs` leaves below it. */
  lemma WideBlocksAreMuted(mag: nat, frames: seq<Frame>)
    requires mag <= 31
    ensures mag < 31 ==> MuteLimit(mag) == Pow2(mag) + 2
    ensures mag == 31 ==> (AllWithin(MuteLimit(mag), frames) <==> forall i :: 0 <= i < |frames| ==> AllLowest(frames[i]))
  {
    hide Pow2;
    Pow2Of31();
    if mag < 31 {
      Pow2Mono(mag, 30);
      Pow2Add(30, 1);
      OneBitFits();
    } else {
      assert MuteLimit(mag) == -TWO31 + 2;
      forall i | 0 <= i < |frames|
        ensures Within(MuteLimit(mag), frames[i]) <==> AllLowest(frames[i])
      {
      }
    }
  }

  predicate AllLowest(fr: Frame) {
    fr.a == -TWO31 && (fr.Stereo? ==> fr.b == -TWO31)
  }

  /** `labs`, for a `long` of 32 bits. */
  function Labs(x: int32): int32 {
    Wrap32(Abs(x))
  }

  predicate Within(limit: int, fr: Frame) {
    Labs(fr.a) <= limit && (fr.Stereo? ==> Labs(fr.b) <= limit)
  }

  predicate AllWithin(limit: int, frames: seq<Frame>) {
    forall i :: 0 <= i < |frames| ==> Within(limit, frames[i])
  }

  /** How many frames come before the first one over the limit. */
  function QuietPrefix(limit: int, frames: seq<Frame>): (n: nat)
    ensures n <= |frames|
    ensures AllWithin(limit, frames[..n])
    ensures n < |frames| ==> !Within(limit, frames[n])
  {
    if frames == [] || !Within(limit, frames[0]) then 0
    else
      var n := QuietPrefix(limit, frames[1..]);
      assert frames[..n + 1] == [frames[0]] + frames[1..][..n];
      n + 1
  }

  // ---------------------------------------------------------------- packing

  /** What packing samples changes. */
  datatype Pack = Pack(fs: seq<Filter>, e: Enc, crc: u32)

  /** One call of `pack_samples`: the new state and the bits appended. */
  function PackStep(p: Pack, mono: bool, joint: bool, frames: seq<Frame>): (r: (Pack, seq<bool>))
    requires AllSuit(p.fs, mono, frames)
    ensures |r.0.fs| == |p.fs| && AllSuit(r.0.fs, mono, [])
  {
    var (gs, out) := EncAll(p.fs, mono, Joined(joint, frames));
    var (e, bits) := SendWords(p.e, mono, 0, Flat(out));
    (Pack(gs, e, CrcOver(PackCrc, p.crc, frames)), bits)
  }

  lemma SuitsEmpty(fs: seq<Filter>, mono: bool, frames: seq<Frame>)
    requires AllSuit(fs, mono, [])
    ensures AllFrames(mono, frames) ==> AllSuit(fs, mono, frames)
  {
  }

  /** Two calls of `pack_samples` are one. */
  lemma PackSplit(p: Pack, mono: bool, joint: bool, a: seq<Frame>, b: seq<Frame>)
    requires AllSuit(p.fs, mono, a) && AllFrames(mono, b)
    ensures AllSuit(p.fs, mono, a + b)
    ensures var (p1, b1) := PackStep(p, mono, joint, a);
            AllSuit(p1.fs, mono, b) &&
            var (p2, b2) := PackStep(p1, mono, joint, b);
            PackStep(p, mono, joint, a + b) == (p2, b1 + b2)
  {
    hide EncAll, SendWords, CrcOver, Joined, Flat, PackCrc, WellFormed;
    var ja, jb := Joined(joint, a), Joined(joint, b);
    JoinedConcat(joint, a, b);
    EncAllSplit(p.fs, mono, ja, jb);
    var (gs, ya) := EncAll(p.fs, mono, ja);
    var (hs, yb) := EncAll(gs, mono, jb);
    FlatConcat(ya, yb);
    FlatSize(mono, ya);
    SendSplit(p.e, mono, 0, Flat(ya), Flat(yb));
    SendFromEven(SendWords(p.e, mono, 0, Flat(ya)).0, mono, 0, |Flat(ya)|, Flat(yb));
    CrcConcat(PackCrc, p.crc, a, b);
  }

  // ---------------------------------------------------------------- unpacking

  /** What unpacking samples changes while the block is not muted. */
  datatype Unpack = Unpack(fs: seq<Filter>, d: Dec, crc: u32, rest: seq<bool>)

  /** A call of `unpack_samples`: the frames, or silence, and the state after it. */
  datatype Unpacked = Unpacked(frames: seq<Frame>, muted: bool, next: Unpack)

  /** The buffer once `get_words` has run out of data or not. */
  function Filled(values: seq<int32>, buffer: seq<int32>): (r: seq<int32>)
    requires |values| <= |buffer|
    ensures |r| == |buffer|
  {
    values + buffer[|values|..]
  }

  /** The frames the passes and the joint-stereo inverse make of a buffer. */
  function Decoded(fs: seq<Filter>, mono: bool, joint: bool, s: seq<int32>): (r: (seq<Filter>, seq<Frame>))
    requires AllSuit(fs, mono, []) && Whole(mono, s)
    ensures |r.0| == |fs| && AllSuit(r.0, mono, [])
    ensures AllFrames(mono, r.1) && |s| == Values(mono, |r.1|)
  {
    var (gs, out) := DecAll(fs, mono, Unflat(mono, s));
    (gs, Unjoined(joint, out))
  }

  /** One call of `unpack_samples` that fills the whole buffer, in a block not muted so far. */
  function UnpackStep(u: Unpack, mono: bool, joint: bool, limit: int, buffer: seq<int32>): (r: Unpacked)
    requires AllSuit(u.fs, mono, []) && Whole(mono, buffer)
    ensures |r.next.fs| == |u.fs| && AllSuit(r.next.fs, mono, [])
    ensures AllFrames(mono, r.frames) && |buffer| == Values(mono, |r.frames|)
  {
    hide Decoded, GetWords, Unflat;
    var w := GetWords(u.d, mono, 0, |buffer|, u.rest);
    var (gs, frames) := Decoded(u.fs, mono, joint, Filled(w.values, buffer));
    var quiet := QuietPrefix(limit, frames);
    Unpacked(frames, |w.values| < |buffer| || quiet < |frames|,
             Unpack(gs, w.state, CrcOver(UnpackCrc, u.crc, frames[..quiet]), w.rest))
  }

  lemma {:induction false} QuietConcat(limit: int, a: seq<Frame>, b: seq<Frame>)
    ensures QuietPrefix(limit, a + b) == if QuietPrefix(limit, a) < |a| then QuietPrefix(limit, a) else |a| + QuietPrefix(limit, b)
    decreases |a|
  {
    hide Within;
    if a == [] {
      assert a + b == b;
    } else {
      assert (a + b)[1..] == a[1..] + b;
      QuietConcat(limit, a[1..], b);
    }
  }

  /** Nothing is over the limit exactly when every frame is within it. */
  lemma QuietAll(limit: int, frames: seq<Frame>)
    ensures QuietPrefix(limit, frames) == |frames| <==> AllWithin(limit, frames)
  {
    hide Within;
    var n := QuietPrefix(limit, frames);
    if n == |frames| {
      assert frames[..n] == frames;
    }
  }

  predicate AllRoom(fs: seq<Filter>, mono: bool, n: nat) {
    forall i :: 0 <= i < |fs| ==> Room(fs[i], mono, n)
  }

  /** No pass stores a weight that is not a short while these words are decoded in two calls or in one. */
  predicate StoredShort(fs: seq<Filter>, mono: bool, s1: seq<int32>, s2: seq<int32>)
    requires AllSuit(fs, mono, []) && Whole(mono, s1) && Whole(mono, s2)
  {
    hide Unflat, AllCallsShort;
    SuitsEmpty(fs, mono, Unflat(mono, s1));
    AllCallsShort(fs, mono, Unflat(mono, s1), Unflat(mono, s2))
  }

  /** The same for the words two calls of `unpack_samples` get, unless they run out in the first. */
  predicate CallsStoreShort(u: Unpack, mono: bool, s1: seq<int32>, s2: seq<int32>)
    requires AllSuit(u.fs, mono, []) && Whole(mono, s1) && Whole(mono, s2)
  {
    hide GetWords, StoredShort, Unflat;
    var w1 := GetWords(u.d, mono, 0, |s1|, u.rest);
    var w2 := GetWords(w1.state, mono, 0, |s2|, w1.rest);
    |w1.values| == |s1| ==> StoredShort(u.fs, mono, Filled(w1.values, s1), Filled(w2.values, s2))
  }

  lemma DecodedSplit(fs: seq<Filter>, mono: bool, joint: bool, s1: seq<int32>, s2: seq<int32>)
    requires AllSuit(fs, mono, []) && Whole(mono, s1) && Whole(mono, s2)
    requires StoredShort(fs, mono, s1, s2)
    ensures Whole(mono, s1 + s2)
    ensures var (gs, f) := Decoded(fs, mono, joint, s1);
            var (hs, g) := Decoded(gs, mono, joint, s2);
            Decoded(fs, mono, joint, s1 + s2) == (hs, f + g)
  {
    var a, b := Unflat(mono, s1), Unflat(mono, s2);
    UnflatParts(mono, s1, s2);
    SuitsEmpty(fs, mono, a);
    hide DecAll, Unflat, WellFormed, AllCallsShort, FromJoint, Unjoined, AllFrames;
    DecAllSplit(fs, mono, a, b);
    var (gs, ya) := DecAll(fs, mono, a);
    JoinedConcat(joint, ya, DecAll(gs, mono, b).1);
  }

  lemma UnflatParts(mono: bool, a: seq<int32>, b: seq<int32>)
    requires Whole(mono, a) && Whole(mono, b)
    ensures Whole(mono, a + b)
    ensures Unflat(mono, a + b) == Unflat(mono, a) + Unflat(mono, b)
  {
  }

  lemma SameSize(mono: bool, a: seq<int32>, b: seq<int32>)
    requires |a| == |b| && Whole(mono, a)
    ensures Whole(mono, b)
    ensures |Unflat(mono, a)| == |Unflat(mono, b)|
  {
  }

  /** What a call reads and decodes, before it judges the samples. */
  lemma StepParts(u: Unpack, mono: bool, joint: bool, limit: int, buffer: seq<int32>)
    requires AllSuit(u.fs, mono, []) && Whole(mono, buffer)
    ensures var w := GetWords(u.d, mono, 0, |buffer|, u.rest);
            var (gs, frames) := Decoded(u.fs, mono, joint, Filled(w.values, buffer));
            var r := UnpackStep(u, mono, joint, limit, buffer);
            && r.frames == frames && r.next.fs == gs && r.next.d == w.state && r.next.rest == w.rest
            && (r.muted <==> |w.values| < |buffer| || QuietPrefix(limit, frames) < |frames|)
            && r.next.crc == CrcOver(UnpackCrc, u.crc, frames[..QuietPrefix(limit, frames)])
  {
    hide Decoded, GetWords, QuietPrefix, CrcOver, Filled;
  }

  /** When no data runs out, the words of two calls are those of one. */
  lemma WordsSplit(d: Dec, mono: bool, s1: seq<int32>, s2: seq<int32>, rest: seq<bool>)
    requires Whole(mono, s1)
    requires |GetWords(d, mono, 0, |s1|, rest).values| == |s1|
    ensures var w1 := GetWords(d, mono, 0, |s1|, rest);
            var w2 := GetWords(w1.state, mono, 0, |s2|, w1.rest);
            var w := GetWords(d, mono, 0, |s1 + s2|, rest);
            && w == Words(w1.values + w2.values, w2.state, w2.rest)
            && Filled(w.values, s1 + s2) == Filled(w1.values, s1) + Filled(w2.values, s2)
  {
    hide GetWords, Filled;
    GetSplit(d, mono, 0, |s1|, |s2|, rest);
    var w1 := GetWords(d, mono, 0, |s1|, rest);
    GetFromEven(w1.state, mono, 0, |s1|, |s2|, w1.rest);
    assert 0 + |s1| == |s1| && |s1 + s2| == |s1| + |s2|;
    FilledSplit(w1.values, GetWords(w1.state, mono, 0, |s2|, w1.rest).values, s1, s2);
  }

  lemma FilledSplit(v1: seq<int32>, v2: seq<int32>, s1: seq<int32>, s2: seq<int32>)
    requires |v1| == |s1| && |v2| <= |s2|
    ensures Filled(v1 + v2, s1 + s2) == Filled(v1, s1) + Filled(v2, s2)
  {
  }

  /** Judging two runs of frames one after the other is judging them together. */
  lemma JudgeSplit(limit: int, crc: u32, f: seq<Frame>, g: seq<Frame>)
    ensures QuietPrefix(limit, f + g) < |f + g| <==> QuietPrefix(limit, f) < |f| || QuietPrefix(limit, g) < |g|
    ensures var q, q1, q2 := QuietPrefix(limit, f + g), QuietPrefix(limit, f), QuietPrefix(limit, g);
            q == |f + g| ==> CrcOver(UnpackCrc, crc, (f + g)[..q])
                             == CrcOver(UnpackCrc, CrcOver(UnpackCrc, crc, f[..q1]), g[..q2])
  {
    hide QuietPrefix, CrcOver, UnpackCrc;
    QuietConcat(limit, f, g);
    if QuietPrefix(limit, f + g) == |f + g| {
      assert f[..|f|] == f && g[..|g|] == g && (f + g)[..|f + g|] == f + g;
      CrcConcat(UnpackCrc, crc, f, g);
    }
  }

  /** Unpacking a block in two calls is unpacking it in one, as long as no weight is stored that is not a short: it is
      muted by both or neither, and unmuted the samples, checksum, filters, entropy and bit state are the same. */
  lemma UnpackSplit(u: Unpack, mono: bool, joint: bool, limit: int, s1: seq<int32>, s2: seq<int32>)
    requires AllSuit(u.fs, mono, []) && Whole(mono, s1) && Whole(mono, s2)
    requires CallsStoreShort(u, mono, s1, s2)
    ensures Whole(mono, s1 + s2)
    ensures var one := UnpackStep(u, mono, joint, limit, s1 + s2);
            var first := UnpackStep(u, mono, joint, limit, s1);
            var second := UnpackStep(first.next, mono, joint, limit, s2);
            && (one.muted <==> first.muted || second.muted)
            && (!one.muted ==> one.frames == first.frames + second.frames && one.next == second.next)
  {
    hide GetWords, Decoded, UnpackStep, CrcOver, Unflat, Filled, QuietPrefix, StoredShort, WellFormed, UnpackCrc;
    var first := UnpackStep(u, mono, joint, limit, s1);
    var second := UnpackStep(first.next, mono, joint, limit, s2);
    StepParts(u, mono, joint, limit, s1 + s2);
    StepParts(u, mono, joint, limit, s1);
    StepParts(first.next, mono, joint, limit, s2);
    var w1 := GetWords(u.d, mono, 0, |s1|, u.rest);
    if |w1.values| < |s1| {
      GetEnds(u.d, mono, 0, |s1|, |s2|, u.rest);
    } else {
      WordsSplit(u.d, mono, s1, s2, u.rest);
      DecodedSplit(u.fs, mono, joint, Filled(w1.values, s1), Filled(GetWords(w1.state, mono, 0, |s2|, w1.rest).values, s2));
      JudgeSplit(limit, u.crc, first.frames, second.frames);
    }
  }

  /** A bound a caller can check: weights that have room for the first call and eight frames more. */
  lemma RoomStoresShort(u: Unpack, mono: bool, s1: seq<int32>, s2: seq<int32>)
    requires AllSuit(u.fs, mono, []) && Whole(mono, s1) && Whole(mono, s2)
    requires AllRoom(u.fs, mono, |Unflat(mono, s1)| + MAX_TERM)
    ensures CallsStoreShort(u, mono, s1, s2)
  {
    hide GetWords, Unflat, Filled, AllCallsShort, Room, WellFormed, AllFrames;
    var w1 := GetWords(u.d, mono, 0, |s1|, u.rest);
    if |w1.values| == |s1| {
      var v1 := Filled(w1.values, s1);
      var v2 := Filled(GetWords(w1.state, mono, 0, |s2|, w1.rest).values, s2);
      SameSize(mono, v1, s1);
      SuitsEmpty(u.fs, mono, Unflat(mono, v1));
      AllRoomCallsShort(u.fs, mono, Unflat(mono, v1), Unflat(mono, v2));
    }
  }
}
