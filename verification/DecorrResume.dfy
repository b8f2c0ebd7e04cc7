/** Processing a block in pieces is processing it at once. */
module DecorrResume {
  import opened Machine
  import opened DecorrSpec
  import opened DecorrInverse

  lemma {:induction false} EncPassSplit(f: Filter, mono: bool, a: seq<Frame>, b: seq<Frame>)
    requires Suits(f, mono, a) && AllFrames(mono, b)
    ensures AllFrames(mono, a + b)
    ensures var (g, ya) := EncPass(f, mono, a);
            var (h, yb) := EncPass(g, mono, b);
            EncPass(f, mono, a + b) == (h, ya + yb)
    decreases |b|
  {
    hide EncFrame;
    if b == [] {
      assert a + b == a;
      var (g, ya) := EncPass(f, mono, a);
      assert ya + [] == ya;
    } else {
      var n := |b| - 1;
      EncPassSplit(f, mono, a, b[..n]);
      assert (a + b)[..|a| + n] == a + b[..n] && (a + b)[|a| + n] == b[n];
      var (g, ya) := EncPass(f, mono, a);
      var (h, yb) := EncPass(g, mono, b[..n]);
      var o := EncFrame(h, b[n]).1;
      assert ya + yb + [o] == ya + (yb + [o]);
    }
  }

  lemma {:induction false} DecLoopSplit(f: Filter, mono: bool, a: seq<Frame>, b: seq<Frame>)
    requires Suits(f, mono, a) && AllFrames(mono, b)
    ensures AllFrames(mono, a + b)
    ensures var (g, ya) := DecLoop(f, mono, a);
            var (h, yb) := DecLoop(g, mono, b);
            DecLoop(f, mono, a + b) == (h, ya + yb)
    decreases |b|
  {
    hide DecFrame;
    if b == [] {
      assert a + b == a;
      var (g, ya) := DecLoop(f, mono, a);
      assert ya + [] == ya;
    } else {
      var n := |b| - 1;
      DecLoopSplit(f, mono, a, b[..n]);
      assert (a + b)[..|a| + n] == a + b[..n] && (a + b)[|a| + n] == b[n];
      var (g, ya) := DecLoop(f, mono, a);
      var (h, yb) := DecLoop(g, mono, b[..n]);
      var o := DecFrame(h, b[n]).1;
      assert ya + yb + [o] == ya + (yb + [o]);
    }
  }

  /** The weights a decoder pass ends with still fit the shorts they are stored in. */
  predicate EndsShort(f: Filter, mono: bool, frames: seq<Frame>)
    requires Suits(f, mono, frames)
  {
    var g := DecLoop(f, mono, frames).0;
    g.wA == Wrap16(g.wA) && (mono || g.wB == Wrap16(g.wB))
  }

  lemma DecPassSplit(f: Filter, mono: bool, a: seq<Frame>, b: seq<Frame>)
    requires Suits(f, mono, a) && AllFrames(mono, b)
    requires EndsShort(f, mono, a)
    ensures AllFrames(mono, a + b)
    ensures var (g, ya) := DecPass(f, mono, a);
            var (h, yb) := DecPass(g, mono, b);
            DecPass(f, mono, a + b) == (h, ya + yb)
  {
    hide DecLoop;
    DecLoopSplit(f, mono, a, b);
  }

  lemma {:induction false} EncAllSplit(fs: seq<Filter>, mono: bool, a: seq<Frame>, b: seq<Frame>)
    requires AllSuit(fs, mono, a) && AllFrames(mono, b)
    ensures AllFrames(mono, a + b)
    ensures var (gs, ya) := EncAll(fs, mono, a);
            AllSuit(gs, mono, b) &&
            var (hs, yb) := EncAll(gs, mono, b);
            EncAll(fs, mono, a + b) == (hs, ya + yb)
    decreases |fs|
  {
    hide EncPass;
    if fs == [] {
    } else {
      var n := |fs| - 1;
      EncAllSplit(fs[..n], mono, a, b);
      var (gs, ya) := EncAll(fs[..n], mono, a);
      var (hs, yb) := EncAll(gs, mono, b);
      EncPassSplit(fs[n], mono, ya, yb);
      var (g, za) := EncPass(fs[n], mono, ya);
      assert (gs + [g])[..n] == gs;
    }
  }

  // ---------------------------------------------------------------- a bound a caller can check

  /** Both weights have room for n samples before they leave the range of a short. */
  predicate Room(f: Filter, mono: bool, n: nat) {
    && Abs(f.wA) + f.delta * n < TWO15
    && (mono || Abs(f.wB) + f.delta * n < TWO15)
  }

  /** A decoded frame moves each weight by at most delta. */
  lemma FrameMoves(f: Filter, fr: Frame)
    requires WellFormed(f) && (fr.Mono? ==> f.term > 0)
    requires Abs(f.wA) + f.delta < TWO31 && (fr.Stereo? ==> Abs(f.wB) + f.delta < TWO31)
    ensures var g := DecFrame(f, fr).0;
            && Abs(g.wA) <= Abs(f.wA) + f.delta
            && (fr.Stereo? ==> Abs(g.wB) <= Abs(f.wB) + f.delta)
  {
    hide Apply, Predict, Push, Update, UpdateClip;
  }

  /** So a short first call, as in every block of a few thousand samples, never loses a weight. */
  lemma {:induction false} RoomEndsShort(f: Filter, mono: bool, frames: seq<Frame>)
    requires Suits(f, mono, frames) && Room(f, mono, |frames|)
    ensures EndsShort(f, mono, frames)
    ensures var g := DecLoop(f, mono, frames).0;
            && Abs(g.wA) <= Abs(f.wA) + f.delta * |frames|
            && (!mono ==> Abs(g.wB) <= Abs(f.wB) + f.delta * |frames|)
    decreases |frames|
  {
    hide DecFrame;
    if frames == [] {
    } else {
      var n := |frames| - 1;
      assert f.delta * (n + 1) == f.delta * n + f.delta;
      RoomEndsShort(f, mono, frames[..n]);
      FrameMoves(DecLoop(f, mono, frames[..n]).0, frames[n]);
    }
  }

  // ---------------------------------------------------------------- where a decoder stores its weights

  /** The weights are shorts at the eighth frame, if that is where a pass over these frames stores them. */
  predicate HeadShort(f: Filter, mono: bool, frames: seq<Frame>)
    requires Suits(f, mono, frames)
  {
    mono || |frames| < 16 || EndsShort(f, mono, frames[..8])
  }

  /** Eight frames and the continuation are the plain pass. */
  lemma BlockIsPlain(f: Filter, mono: bool, frames: seq<Frame>)
    requires Suits(f, mono, frames) && HeadShort(f, mono, frames)
    ensures BlockPass(f, mono, frames) == DecPass(f, mono, frames)
  {
    hide DecPass, EndsShort;
    if !mono && |frames| >= 16 {
      DecPassSplit(f, mono, frames[..8], frames[8..]);
      assert frames == frames[..8] + frames[8..];
    }
  }

  /** The weights are shorts wherever one pass over a + b, or passes over a and b, store them before the end. */
  predicate CallsShort(f: Filter, mono: bool, a: seq<Frame>, b: seq<Frame>)
    requires Suits(f, mono, a) && AllFrames(mono, b)
  {
    && AllFrames(mono, a + b)
    && EndsShort(f, mono, a) && HeadShort(f, mono, a) && HeadShort(f, mono, a + b)
    && HeadShort(DecPass(f, mono, a).0, mono, b)
  }

  lemma BlockPassSplit(f: Filter, mono: bool, a: seq<Frame>, b: seq<Frame>)
    requires Suits(f, mono, a) && AllFrames(mono, b) && CallsShort(f, mono, a, b)
    ensures AllFrames(mono, a + b)
    ensures var (g, ya) := BlockPass(f, mono, a);
            var (h, yb) := BlockPass(g, mono, b);
            BlockPass(f, mono, a + b) == (h, ya + yb)
  {
    hide DecLoop, DecPass, BlockPass, EndsShort, HeadShort;
    DecPassSplit(f, mono, a, b);
    BlockIsPlain(f, mono, a);
    BlockIsPlain(f, mono, a + b);
    BlockIsPlain(DecPass(f, mono, a).0, mono, b);
  }

  /** The same for every pass on what the one before it makes of the frames. */
  predicate AllCallsShort(fs: seq<Filter>, mono: bool, a: seq<Frame>, b: seq<Frame>)
    requires AllSuit(fs, mono, a) && AllFrames(mono, b)
    decreases |fs|
  {
    hide BlockPass, CallsShort;
    if fs == [] then true
    else
      var (g, ya) := BlockPass(fs[0], mono, a);
      CallsShort(fs[0], mono, a, b) && AllCallsShort(fs[1..], mono, ya, BlockPass(g, mono, b).1)
  }

  /** Unpacking a block in two calls is unpacking it in one, as long as no weight is stored that is not a short. */
  lemma {:induction false} DecAllSplit(fs: seq<Filter>, mono: bool, a: seq<Frame>, b: seq<Frame>)
    requires AllSuit(fs, mono, a) && AllFrames(mono, b) && AllCallsShort(fs, mono, a, b)
    ensures AllFrames(mono, a + b)
    ensures var (gs, ya) := DecAll(fs, mono, a);
            AllSuit(gs, mono, b) &&
            var (hs, yb) := DecAll(gs, mono, b);
            DecAll(fs, mono, a + b) == (hs, ya + yb)
    decreases |fs|
  {
    hide BlockPass, CallsShort;
    if fs == [] {
    } else {
      BlockPassSplit(fs[0], mono, a, b);
      var (g, ya) := BlockPass(fs[0], mono, a);
      var (h, yb) := BlockPass(g, mono, b);
      DecAllSplit(fs[1..], mono, ya, yb);
      var (gs, za) := DecAll(fs[1..], mono, ya);
      assert ([g] + gs)[1..] == gs;
    }
  }

  // ---------------------------------------------------------------- room for a number of frames

  lemma RoomParts(d: nat, m: nat, n: nat)
    ensures d * (m + n) == d * m + d * n
    ensures 0 <= d * m && 0 <= d * n
  {
  }

  lemma RoomLess(f: Filter, mono: bool, n: nat, m: nat)
    requires Room(f, mono, n) && m <= n
    ensures Room(f, mono, m)
  {
    RoomParts(f.delta, m, n - m);
  }

  lemma RoomHeadShort(f: Filter, mono: bool, frames: seq<Frame>)
    requires Suits(f, mono, frames) && Room(f, mono, 8)
    ensures HeadShort(f, mono, frames)
  {
    hide Room, EndsShort;
    if !mono && |frames| >= 16 {
      RoomEndsShort(f, mono, frames[..8]);
    }
  }

  /** A bound a caller can check: with room for the first call and eight frames more, no stored weight is lost. */
  lemma RoomCallsShort(f: Filter, mono: bool, a: seq<Frame>, b: seq<Frame>)
    requires Suits(f, mono, a) && AllFrames(mono, b) && Room(f, mono, |a| + MAX_TERM)
    ensures CallsShort(f, mono, a, b)
  {
    hide DecLoop, EndsShort, HeadShort;
    RoomParts(f.delta, |a|, MAX_TERM);
    RoomLess(f, mono, |a| + MAX_TERM, |a|);
    RoomLess(f, mono, |a| + MAX_TERM, MAX_TERM);
    RoomEndsShort(f, mono, a);
    RoomHeadShort(f, mono, a);
    assert AllFrames(mono, a + b);
    RoomHeadShort(f, mono, a + b);
    StoredRoom(f, mono, a);
    RoomHeadShort(DecPass(f, mono, a).0, mono, b);
  }

  lemma StoredRoom(f: Filter, mono: bool, a: seq<Frame>)
    requires Suits(f, mono, a) && Room(f, mono, |a| + MAX_TERM)
    ensures Room(DecPass(f, mono, a).0, mono, MAX_TERM)
  {
    hide DecLoop;
    RoomParts(f.delta, |a|, MAX_TERM);
    RoomEndsShort(f, mono, a);
  }

  lemma {:induction false} AllRoomCallsShort(fs: seq<Filter>, mono: bool, a: seq<Frame>, b: seq<Frame>)
    requires AllSuit(fs, mono, a) && AllFrames(mono, b)
    requires forall i :: 0 <= i < |fs| ==> Room(fs[i], mono, |a| + MAX_TERM)
    ensures AllCallsShort(fs, mono, a, b)
    decreases |fs|
  {
    hide BlockPass, CallsShort, Room;
    if fs == [] {
    } else {
      RoomCallsShort(fs[0], mono, a, b);
      var (g, ya) := BlockPass(fs[0], mono, a);
      AllRoomCallsShort(fs[1..], mono, ya, BlockPass(g, mono, b).1);
    }
  }

  // ---------------------------------------------------------------- exactly when storing is harmless

  /** The pass over a and the pass over b make of the frames what one pass makes of them. */
  predicate Splits(f: Filter, mono: bool, a: seq<Frame>, b: seq<Frame>)
    requires Suits(f, mono, a) && AllFrames(mono, b)
  {
    && AllFrames(mono, a + b)
    && var (g, ya) := DecPass(f, mono, a);
       var (h, yb) := DecPass(g, mono, b);
       DecPass(f, mono, a + b) == (h, ya + yb)
  }

  /** The same filter but for weights that differ by multiples of 2^16. */
  predicate Twins(g: Filter, h: Filter, mono: bool) {
    && WellFormed(g) && g.term > 0 && h == g.(wA := h.wA, wB := h.wB)
    && (g.wA - h.wA) % TWO16 == 0 && (!mono ==> (g.wB - h.wB) % TWO16 == 0)
    && (g.wA != h.wA || (!mono && g.wB != h.wB))
  }

  function OneFrame(mono: bool): Frame {
    if mono then Mono(1) else Stereo(1, 1)
  }

  /** What a pass decodes to ones. */
  function Wanted(g: Filter, mono: bool): (fr: Frame)
    requires WellFormed(g) && g.term > 0
    ensures fr.Mono? <==> mono
  {
    var a := Wrap32(1 - Apply(g.wA, Predict(g.term, g.hA)));
    if mono then Mono(a) else Stereo(a, Wrap32(1 - Apply(g.wB, Predict(g.term, g.hB))))
  }

  lemma WantedIsOnes(g: Filter, mono: bool)
    requires WellFormed(g) && g.term > 0
    ensures var (g1, o) := DecFrame(g, Wanted(g, mono));
            && o == OneFrame(mono) && g1.hA == Push(g.hA, 1) && (!mono ==> g1.hB == Push(g.hB, 1))
  {
    hide Apply, Predict, Update, Push, Wrap32;
    WrapAddUndoesSub(1, Apply(g.wA, Predict(g.term, g.hA)));
    WrapAddUndoesSub(1, Apply(g.wB, Predict(g.term, g.hB)));
  }

  /** n frames that a pass decodes to ones. */
  function Drive(g: Filter, mono: bool, n: nat): (b: seq<Frame>)
    requires WellFormed(g) && g.term > 0
    ensures |b| == n && AllFrames(mono, b)
  {
    hide Wanted, DecLoop;
    if n == 0 then []
    else
      var before := Drive(g, mono, n - 1);
      before + [Wanted(DecLoop(g, mono, before).0, mono)]
  }

  predicate LastOnes(h: seq<int32>, n: nat) {
    forall i :: 0 <= i < |h| && i + n >= |h| ==> h[i] == 1
  }

  lemma {:induction false} DriveFillsHistory(g: Filter, mono: bool, n: nat)
    requires WellFormed(g) && g.term > 0
    ensures var g1 := DecLoop(g, mono, Drive(g, mono, n)).0;
            LastOnes(g1.hA, n) && (!mono ==> LastOnes(g1.hB, n))
  {
    hide DecFrame, DecLoop, Wanted, Push, LastOnes, WellFormed, Drive, AllFrames;
    DriveSnoc(g, mono, n);
    if n == 0 {
      GoodHistory(g, 0);
    } else {
      DriveFillsHistory(g, mono, n - 1);
      var g0 := DecLoop(g, mono, Drive(g, mono, n - 1)).0;
      GoodHistory(g0, n - 1);
      WantedIsOnes(g0, mono);
      PushedOnes(g0.hA, n - 1);
      if !mono {
        PushedOnes(g0.hB, n - 1);
      }
    }
  }

  lemma DriveSnoc(g: Filter, mono: bool, n: nat)
    requires WellFormed(g) && g.term > 0
    ensures n == 0 ==> DecLoop(g, mono, Drive(g, mono, n)).0 == g
    ensures n > 0 ==>
              var g0 := DecLoop(g, mono, Drive(g, mono, n - 1)).0;
              DecLoop(g, mono, Drive(g, mono, n)).0 == DecFrame(g0, Wanted(g0, mono)).0
  {
    hide DecFrame, Wanted;
    if n > 0 {
      assert Drive(g, mono, n)[..n - 1] == Drive(g, mono, n - 1);
    }
  }

  lemma GoodHistory(g: Filter, n: nat)
    requires WellFormed(g)
    ensures g.hA != [] && g.hB != [] && LastOnes(g.hA, 0) && LastOnes(g.hB, 0)
  {
  }

  lemma PushedOnes(h: seq<int32>, n: nat)
    requires h != [] && LastOnes(h, n)
    ensures LastOnes(Push(h, 1), n + 1)
  {
  }

  /** While they put the same out, twins stay twins. */
  lemma TwinsGoOn(g: Filter, h: Filter, mono: bool, fr: Frame)
    requires Twins(g, h, mono) && (fr.Mono? <==> mono)
    requires DecFrame(g, fr).1 == DecFrame(h, fr).1
    ensures Twins(DecFrame(g, fr).0, DecFrame(h, fr).0, mono)
  {
    hide Apply, Predict, Push, Wrap32;
    var s, t := Predict(g.term, g.hA), Predict(g.term, g.hB);
    UpdatesApart(g.wA, h.wA, g.delta, s, fr.a);
    if !mono {
      UpdatesApart(g.wB, h.wB, g.delta, t, fr.b);
    }
  }

  lemma UpdatesApart(w: int32, v: int32, delta: nat, s: int, r: int)
    requires (w - v) % TWO16 == 0
    ensures var w1, v1 := Wrap32(Update(w, delta, s, r)), Wrap32(Update(v, delta, s, r));
            (w1 - v1) % TWO16 == 0 && (w1 == v1 <==> w == v)
  {
    var d := Update(w, delta, s, r) - w;
    assert Update(v, delta, s, r) == v + d;
    ShiftedApart(w, v, d);
  }

  lemma ShiftedApart(w: int, v: int, d: int)
    requires -TWO31 <= w < TWO31 && -TWO31 <= v < TWO31 && (w - v) % TWO16 == 0
    ensures (Wrap32(w + d) - Wrap32(v + d)) % TWO16 == 0 && (Wrap32(w + d) == Wrap32(v + d) <==> w == v)
  {
    var m := (w - v) / TWO16;
    var x, j := Turns(w + d);
    var y, k := Turns(v + d);
    assert x - y == TWO16 * (m - TWO16 * (j - k));
  }

  /** On a history of ones different weights show. */
  lemma OnesTellTwins(g: Filter, h: Filter, mono: bool, fr: Frame)
    requires Twins(g, h, mono) && (fr.Mono? <==> mono)
    requires LastOnes(g.hA, 8) && (!mono ==> LastOnes(g.hB, 8))
    ensures DecFrame(g, fr).1 != DecFrame(h, fr).1
  {
    hide Apply, Update, Push, Wrap32, Predict, LastOnes;
    if g.wA != h.wA {
      PredictOnes(g.term, g.hA);
      WeightsTell(g.wA, h.wA, fr.a);
    } else {
      PredictOnes(g.term, g.hB);
      WeightsTell(g.wB, h.wB, fr.b);
    }
  }

  lemma PredictOnes(term: int, h: seq<int32>)
    requires term > 0 && ValidTerm(term) && |h| == Depth(term) && LastOnes(h, 8)
    ensures Predict(term, h) == 1
  {
  }

  lemma WeightsTell(w: int32, v: int32, r: int32)
    requires (w - v) % TWO16 == 0 && w != v
    ensures Wrap32(Apply(w, 1) + r) != Wrap32(Apply(v, 1) + r)
  {
    hide Wrap32;
    var x, y := Wrap32(w + 512), Wrap32(v + 512);
    ShiftedApart(w, v, 512);
    assert Apply(w, 1) == x / 1024 && Apply(v, 1) == y / 1024;
    ApartQuotients(x, y);
    SmallSums(x / 1024, y / 1024, r);
  }

  lemma ApartQuotients(x: int32, y: int32)
    requires (x - y) % TWO16 == 0 && x != y
    ensures x / 1024 != y / 1024
  {
  }

  lemma SmallSums(p: int, q: int, r: int32)
    requires -TWO31 <= p < TWO31 && -TWO31 <= q < TWO31 && p != q
    ensures Wrap32(p + r) != Wrap32(q + r)
  {
  }

  /** Driving one of two twins shows the difference within nine frames. */
  lemma {:induction false} DriveTells(g: Filter, h: Filter, mono: bool, n: nat)
    requires Twins(g, h, mono) && n <= 9
    ensures var b := Drive(g, mono, n);
            var (g1, yg) := DecLoop(g, mono, b);
            var (h1, yh) := DecLoop(h, mono, b);
            yg != yh || (n < 9 && Twins(g1, h1, mono))
  {
    hide DecFrame, Wanted, Twins;
    TwinsSuit(g, h, mono);
    if n == 0 {
    } else {
      var b := Drive(g, mono, n);
      DriveTells(g, h, mono, n - 1);
      assert b[..n - 1] == Drive(g, mono, n - 1);
      var (g0, y0) := DecLoop(g, mono, b[..n - 1]);
      var (h0, z0) := DecLoop(h, mono, b[..n - 1]);
      if y0 != z0 {
        var (yg, yh) := (DecLoop(g, mono, b).1, DecLoop(h, mono, b).1);
        assert yg[..n - 1] == y0 && yh[..n - 1] == z0;
      } else if n == 9 {
        DriveFillsHistory(g, mono, 8);
        OnesTellTwins(g0, h0, mono, b[8]);
        LastTells(DecLoop(g, mono, b).1, DecLoop(h, mono, b).1, 8);
      } else if DecFrame(g0, b[n - 1]).1 == DecFrame(h0, b[n - 1]).1 {
        TwinsGoOn(g0, h0, mono, b[n - 1]);
      } else {
        LastTells(DecLoop(g, mono, b).1, DecLoop(h, mono, b).1, n - 1);
      }
    }
  }

  lemma LastTells(x: seq<Frame>, y: seq<Frame>, i: nat)
    requires i < |x| && i < |y| && x[i] != y[i]
    ensures x != y
  {
  }

  lemma TwinsSuit(g: Filter, h: Filter, mono: bool)
    requires Twins(g, h, mono)
    ensures WellFormed(g) && WellFormed(h) && g.term == h.term > 0
  {
  }

  /** Clipped weights never leave their shorts. */
  lemma {:induction false} ClippedStayShort(f: Filter, mono: bool, frames: seq<Frame>)
    requires Suits(f, mono, frames) && f.term < 0 && ShortWeights(f)
    ensures ShortWeights(DecLoop(f, mono, frames).0)
    decreases |frames|
  {
    hide DecFrame;
    if frames == [] {
    } else {
      ClippedStayShort(f, mono, frames[..|frames| - 1]);
      ClippedStepShort(DecLoop(f, mono, frames[..|frames| - 1]).0, frames[|frames| - 1]);
    }
  }

  lemma ClippedStepShort(f: Filter, fr: Frame)
    requires WellFormed(f) && f.term < 0 && fr.Stereo? && ShortWeights(f)
    ensures ShortWeights(DecFrame(f, fr).0)
  {
    hide Apply;
  }

  /** A pass may store its weights after a and go on, whatever comes, if and only if they are shorts there. */
  lemma StoringIsHarmlessExactly(f: Filter, mono: bool, a: seq<Frame>)
    requires Suits(f, mono, a) && ShortWeights(f)
    ensures (forall b: seq<Frame> :: AllFrames(mono, b) ==> Splits(f, mono, a, b)) <==> EndsShort(f, mono, a)
  {
    hide DecLoop, AllFrames, DecPass;
    if EndsShort(f, mono, a) {
      forall b: seq<Frame> | AllFrames(mono, b)
        ensures Splits(f, mono, a, b)
      {
        DecPassSplit(f, mono, a, b);
      }
    } else {
      var b := LostWeightShows(f, mono, a);
      assert !Splits(f, mono, a, b);
    }
  }

  /** A weight that is not a short when it is stored is missed within nine frames. */
  lemma LostWeightShows(f: Filter, mono: bool, a: seq<Frame>) returns (b: seq<Frame>)
    requires Suits(f, mono, a) && ShortWeights(f) && !EndsShort(f, mono, a)
    ensures |b| == 9 && AllFrames(mono, b) && !Splits(f, mono, a, b)
  {
    hide DecLoop, Drive;
    var (g, ya) := DecLoop(f, mono, a);
    var h := DecPass(f, mono, a).0;
    if f.term < 0 {
      ClippedStayShort(f, mono, a);
      assert false;
    }
    Wrap16Apart(g.wA);
    Wrap16Apart(g.wB);
    assert Twins(g, h, mono);
    b := Drive(g, mono, 9);
    DriveTells(g, h, mono, 9);
    DecLoopSplit(f, mono, a, b);
    SameFront(ya, DecLoop(g, mono, b).1, DecLoop(h, mono, b).1);
  }

  lemma Wrap16Apart(w: int32)
    ensures (w - Wrap16(w)) % TWO16 == 0
  {
  }

  lemma SameFront(a: seq<Frame>, x: seq<Frame>, y: seq<Frame>)
    requires x != y
    ensures a + x != a + y
  {
    assert (a + x)[|a|..] == x && (a + y)[|a|..] == y;
  }

  /** So eight frames and the continuation are the plain pass, whatever the continuation, if and only if the weights
      are shorts after the eight. */
  lemma BlockIsPlainExactly(f: Filter, head: seq<Frame>)
    requires Suits(f, false, head) && |head| == 8 && ShortWeights(f)
    ensures (forall tail: seq<Frame> :: AllFrames(false, tail) && |tail| >= 8 ==> Plain(f, head, tail))
            <==> EndsShort(f, false, head)
  {
    hide DecPass, EndsShort, AllFrames;
    if EndsShort(f, false, head) {
      forall tail: seq<Frame> | AllFrames(false, tail) && |tail| >= 8
        ensures Plain(f, head, tail)
      {
        PlainIsSplit(f, head, tail);
        DecPassSplit(f, false, head, tail);
      }
    } else {
      var tail := LostWeightShows(f, false, head);
      PlainIsSplit(f, head, tail);
      assert !Plain(f, head, tail);
    }
  }

  predicate Plain(f: Filter, head: seq<Frame>, tail: seq<Frame>)
    requires Suits(f, false, head) && AllFrames(false, tail)
  {
    AllFrames(false, head + tail) && BlockPass(f, false, head + tail) == DecPass(f, false, head + tail)
  }

  lemma PlainIsSplit(f: Filter, head: seq<Frame>, tail: seq<Frame>)
    requires Suits(f, false, head) && AllFrames(false, tail) && |head| == 8 && |tail| >= 8
    ensures Plain(f, head, tail) <==> Splits(f, false, head, tail)
  {
    hide DecPass;
    assert (head + tail)[..8] == head && (head + tail)[8..] == tail;
  }

  /** A weight of 32767 that grows by 2 is lost between two calls: the sample after it comes back with the other sign. */
  lemma StoredWeightIsLost()
    ensures var f := Filter(1, 2, 32767, 0, [0, 0, 0, 0, 0, 0, 0, 1], [0, 0, 0, 0, 0, 0, 0, 0]);
            var (g, first) := DecPass(f, true, [Mono(68)]);
            && DecPass(f, true, [Mono(68), Mono(0)]).1 == [Mono(100), Mono(3200)]
            && first == [Mono(100)] && DecPass(g, true, [Mono(0)]).1 == [Mono(-3200)]
  {
    var f := Filter(1, 2, 32767, 0, [0, 0, 0, 0, 0, 0, 0, 1], [0, 0, 0, 0, 0, 0, 0, 0]);
    var f1 := f.(wA := 32769, hA := [0, 0, 0, 0, 0, 0, 1, 100]);
    var g := f1.(wA := -32767);
    assert Predict(1, f.hA) == 1 && Apply(32767, 1) == 32 && Push(f.hA, 100) == f1.hA;
    assert DecFrame(f, Mono(68)) == (f1, Mono(100));
    assert Predict(1, f1.hA) == 100;
    assert Apply(32769, 100) == Wrap32(3277412) / 1024 == 3200;
    assert Apply(-32767, 100) == Wrap32(-3276188) / 1024 == -3200;
    LoopOfOne(f, Mono(68));
    LoopOfOne(g, Mono(0));
    LoopOfTwo(f, Mono(68), Mono(0));
  }

  lemma LoopOfOne(f: Filter, x: Frame)
    requires WellFormed(f) && f.term > 0 && x.Mono?
    ensures var (g, o) := DecFrame(f, x); DecLoop(f, true, [x]) == (g, [o])
  {
    hide DecFrame, WellFormed;
    LoopGoesOn(f, [], x);
    assert DecLoop(f, true, []) == (f, []);
    assert [] + [x] == [x] && [] + [DecFrame(f, x).1] == [DecFrame(f, x).1];
  }

  lemma LoopOfTwo(f: Filter, x: Frame, y: Frame)
    requires WellFormed(f) && f.term > 0 && x.Mono? && y.Mono?
    ensures var (g, o) := DecFrame(f, x);
            var (h, p) := DecFrame(g, y);
            DecLoop(f, true, [x, y]) == (h, [o, p])
  {
    hide DecFrame, DecLoop, WellFormed;
    var (g, o) := DecFrame(f, x);
    LoopOfOne(f, x);
    LoopGoesOn(f, [x], y);
    var p := DecFrame(g, y).1;
    assert [x] + [y] == [x, y] && [o] + [p] == [o, p];
  }

  lemma LoopGoesOn(f: Filter, xs: seq<Frame>, y: Frame)
    requires Suits(f, true, xs) && y.Mono?
    ensures AllFrames(true, xs + [y])
    ensures var (g, out) := DecLoop(f, true, xs);
            var (h, p) := DecFrame(g, y);
            DecLoop(f, true, xs + [y]) == (h, out + [p])
  {
    hide DecFrame, WellFormed;
    assert (xs + [y])[..|xs|] == xs;
  }
}
