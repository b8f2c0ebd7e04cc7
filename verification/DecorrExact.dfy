/** Exactly when a decoder pass gives back what the encoder pass was given, over a whole block. Two things go wrong in
    the encoder: a product of weight and prediction that does not fit 32 bits, and a weight that does not fit the short
    it is kept in, once it is used again. */
module DecorrExact {
  import opened Machine
  import opened Arithmetic
  import opened DecorrSpec
  import opened DecorrInverse
  import opened DecorrResume

  /** The predictions the condition is exact for: up to 2^24 in size. With -2^16 a weight of 32768 happens to survive
      its wrap. */
  predicate InReach(s: int) {
    -0x100_0000 <= s <= 0x100_0000 && s != -0x1_0000
  }

  /** A weight one step outside the shorts. */
  predicate IsLost(v: int) {
    32768 <= v <= 32769 || -32770 <= v <= -32769
  }

  predicate Same(a: int, b: int) {
    (a - b) % TWO32 == 0
  }

  // ---------------------------------------------------------------- one product

  /** With equal weights both sides predict the same exactly if the encoder's product fits. */
  lemma KeptTells(w: int16, s: int32)
    requires InReach(s)
    ensures Same(Apply(w, s), ApplyI(w, s)) <==> InInt32(w * s + 512)
  {
    hide Apply, ApplyI, Exact, Wrap32;
    if InInt32(w * s + 512) {
      ApplyIsExact(w, s);
    } else {
      BigIsExact(w, s);
      ProductBound(w, TWO15, s, 0x100_0000);
      OverflowShows(w * s + 512);
      assert ApplyI(w, s) == Wrap32(w * s + 512) / 1024 && Apply(w, s) == (w * s + 512) / 1024 by {
        Definitions(w, s);
      }
    }
  }

  lemma Definitions(w: int, s: int)
    ensures ApplyI(w, s) == Wrap32(w * s + 512) / 1024 && Exact(w, s) == (w * s + 512) / 1024
    ensures Apply(w, s) == if s == Wrap16(s) then ApplyI(w, s) else ApplyF(w, s)
  {
  }

  /** The two-step product of the decoder is exact also where the one-step product is not. */
  lemma BigIsExact(w: int16, s: int32)
    requires InReach(s) && !InInt32(w * s + 512)
    ensures Apply(w, s) == Exact(w, s)
  {
    hide Exact, ApplyI, Wrap32;
    if s == Wrap16(s) {
      ProductBound(w, TWO15, s, TWO15);
      assert false;
    }
    SplitProduct(w, s);
    LowPart(s);
    var lo := s % TWO16;
    ProductBound(lo, TWO16 - 1, w, TWO15);
    ProductBound((s - lo) / 512, 0x8080, w, TWO15);
    Wrap32Small(lo * w);
    Wrap32Small((s - lo) / 512 * w);
    Wrap32Small(lo * w / 512 + (s - lo) / 512 * w + 1);
  }

  /** With a weight that has wrapped, only a prediction of zero is the same on both sides. */
  lemma LostTells(v: int, s: int32)
    requires IsLost(v) && InReach(s)
    ensures Same(Apply(v, s), ApplyI(Wrap16(v), s)) <==> s == 0
  {
    hide Apply, ApplyI, Wrap16;
    if s == 0 {
      NothingPredicted(v);
      NothingPredicted(Wrap16(v));
    } else {
      var k := if v > 0 then 1 else -1;
      assert Wrap16(v) == v - TWO16 * k by { WrappedWeight(v); }
      if s % TWO16 == 0 {
        WholeTells(v, s, s / TWO16, k);
      } else {
        PartTells(v, s, k);
      }
    }
  }

  lemma NothingPredicted(w: int)
    ensures Apply(w, 0) == 0 && ApplyI(w, 0) == 0
  {
    assert w * 0 == 0;
  }

  lemma WrappedWeight(v: int)
    requires IsLost(v)
    ensures Wrap16(v) == v - TWO16 * (if v > 0 then 1 else -1)
  {
  }

  const TWO22 := 0x40_0000

  /** A prediction that is no multiple of 2^16 tells the weights apart modulo 2^22, whatever wraps. */
  lemma PartTells(v: int, s: int32, k: int)
    requires s % TWO16 != 0 && (k == 1 || k == -1)
    ensures !Same(Apply(v, s), ApplyI(v - TWO16 * k, s))
  {
    hide Apply, ApplyI, Exact;
    var a := ApplyTurns(v, s);
    var b := ApplyITurns(v - TWO16 * k, s);
    ExactApart(v, s, k);
    var x, y := Apply(v, s), ApplyI(v - TWO16 * k, s);
    assert x - y == 64 * (k * s) + TWO22 * (a - b);
    if Same(x, y) {
      var m := (x - y) / TWO32;
      assert x - y == TWO32 * m;
      assert 64 * (k * s) == TWO22 * (1024 * m - a + b);
      assert k * s == TWO16 * (1024 * m - a + b);
      Divides(s, k, 1024 * m - a + b);
      assert false;
    }
  }

  lemma Divides(s: int, k: int, q: int)
    requires (k == 1 || k == -1) && k * s == TWO16 * q
    ensures s % TWO16 == 0
  {
    assert s == TWO16 * (k * q) by {
      if k == -1 {
        assert s == -(TWO16 * q);
      }
    }
  }

  lemma ExactApart(v: int, s: int, k: int)
    requires k == 1 || k == -1
    ensures Exact(v, s) - Exact(v - TWO16 * k, s) == 64 * (k * s)
  {
    var p := v * s;
    assert (v - TWO16 * k) * s == p - TWO16 * (k * s) by { Spread(v, k, s); }
  }

  lemma Spread(v: int, k: int, s: int)
    ensures (v - TWO16 * k) * s == v * s - TWO16 * (k * s)
  {
  }

  /** The decoder's product is the exact one up to multiples of 2^22. */
  lemma ApplyTurns(v: int, s: int32) returns (a: int)
    ensures Apply(v, s) == Exact(v, s) + TWO22 * a
  {
    hide Apply, Exact, ApplyI, ApplyF;
    Definitions(v, s);
    if s == Wrap16(s) {
      a := ApplyITurns(v, s);
    } else {
      a := ApplyFTurns(v, s);
    }
  }

  lemma ApplyITurns(v: int, s: int32) returns (a: int)
    ensures ApplyI(v, s) == Exact(v, s) + TWO22 * a
  {
    hide Wrap32;
    var r, k := Turns(v * s + 512);
    a := -k;
    assert (v * s + 512) / 1024 == r / 1024 + TWO22 * k;
  }

  lemma ApplyFTurns(v: int, s: int32) returns (a: int)
    ensures ApplyF(v, s) == Exact(v, s) + TWO22 * a
  {
    hide Wrap32, Exact;
    SplitProduct(v, s);
    var lo := s % TWO16;
    var p, h := lo * v, (s - lo) / 512 * v;
    var r, i := Turns(p);
    var t, j := Turns(h);
    var u, k := Turns(r / 512 + t + 1);
    assert ApplyF(v, s) == u / 2;
    assert p / 512 == r / 512 + 0x80_0000 * i;
    a := -(512 * k + i + 512 * j);
    Collect(p / 512, h, r / 512, t, u, i, j, k);
  }

  lemma Collect(p: int, h: int, r: int, t: int, u: int, i: int, j: int, k: int)
    requires p == r + 0x80_0000 * i && h == t + TWO32 * j && r + t + 1 == u + TWO32 * k
    ensures u / 2 == (p + h + 1) / 2 + TWO22 * -(512 * k + i + 512 * j)
  {
    assert p + h + 1 == u + 2 * (TWO22 * (512 * k + i + 512 * j));
  }

  /** A multiple of 2^16 is predicted exactly by the decoder, and 2^22 or more away by the encoder. */
  lemma WholeTells(v: int, s: int32, j: int, k: int)
    requires IsLost(v) && InReach(s) && s != 0 && s == TWO16 * j
    requires k == (if v > 0 then 1 else -1)
    ensures !Same(Apply(v, s), ApplyI(v - TWO16 * k, s))
  {
    hide Apply, ApplyI, ApplyF, Wrap32;
    Definitions(v, s);
    Definitions(v - TWO16 * k, s);
    WholeApplied(v, s, j);
    WholeProduct(v, j, k);
    var q := v * j;
    var r, m := Turns(TWO16 * q + 512);
    assert ApplyI(v - TWO16 * k, s) == r / 1024;
    OutOfWord(v, j, q, m, r);
    FarOff(64 * q, r / 1024, q, m, r);
  }

  lemma FarOff(a: int, b: int, q: int, m: int, r: int)
    requires a == 64 * q && b == r / 1024 && TWO16 * q + 512 == r + TWO32 * m && m != 0 && -0x100 <= m <= 0x100
    ensures !Same(a, b)
  {
    assert b == 64 * q - TWO22 * m;
    assert a - b == TWO22 * m;
  }

  lemma WholeApplied(v: int, s: int32, j: int)
    requires IsLost(v) && InReach(s) && s != 0 && s == TWO16 * j
    ensures s != Wrap16(s) && ApplyF(v, s) == 64 * (v * j)
  {
    hide Wrap32;
    ProductBound(v, 32770, j, 256);
    assert s % TWO16 == 0 && s / 512 == 128 * j;
    assert 0 * v == 0 && 128 * j * v == 128 * (v * j);
    Wrap32Small(0);
    Wrap32Small(128 * (v * j));
    Wrap32Small(128 * (v * j) + 1);
  }

  lemma WholeProduct(v: int, j: int, k: int)
    ensures Wrap32((v - TWO16 * k) * (TWO16 * j) + 512) == Wrap32(TWO16 * (v * j) + 512)
  {
    assert (v - TWO16 * k) * (TWO16 * j) + 512 == TWO16 * (v * j) + 512 - TWO32 * (k * j) by { Spread(v, k, TWO16 * j); }
    WholeTurns(TWO16 * (v * j) + 512, -(k * j));
  }

  lemma OutOfWord(v: int, j: int, q: int, m: int, r: int32)
    requires IsLost(v) && j != 0 && j != -1 && -256 <= j <= 256 && q == v * j
    requires TWO16 * q + 512 == r + TWO32 * m
    ensures m != 0 && -0x100 <= m <= 0x100
  {
    ProductBound(v, 32770, j, 256);
    LostProduct(v, j);
  }

  lemma LostProduct(v: int, j: int)
    requires IsLost(v) && j != 0 && j != -1
    ensures v * j >= 32768 || v * j < -32768
  {
    if j >= 1 && v > 0 {
      MulUp(1, j, v);
    } else if j >= 1 {
      MulUp(1, j, -v);
    } else if v > 0 {
      MulUp(1, -j, v);
      assert v * j == -(-j * v);
    } else {
      MulUp(1, -j, -v);
      assert v * j == -j * -v;
    }
  }

  // ---------------------------------------------------------------- one sample of one channel

  /** The weight after a sample still fits its short. */
  predicate StaysShort(term: int, w: int32, h: seq<int32>, x: int32)
    requires term > 0 && |h| == Depth(term) && ValidTerm(term)
  {
    var s := Predict(term, h);
    var u := Update(w, 2, s, Wrap32(x - ApplyI(w, s)));
    u == Wrap16(u)
  }

  /** A sample is predicted alike: a weight that has wrapped is not used, any other has a product that fits. */
  predicate UsedRight(lost: bool, w: int32, s: int32) {
    if lost then s == 0 else InInt32(w * s + 512)
  }

  /** The decoder's weight v against the encoder's w. */
  predicate Weights(lost: bool, w: int32, v: int32) {
    if lost then IsLost(v) && w == Wrap16(v) else v == w && w == Wrap16(w)
  }

  lemma ChanTells(term: int, lost: bool, w: int32, v: int32, h: seq<int32>, g: seq<int32>, x: int32)
    requires term > 0 && ValidTerm(term) && |h| == |g| == Depth(term) && Live(term, h) == Live(term, g)
    requires Weights(lost, w, v) && InReach(Predict(term, h))
    ensures var e := EncChan(term, w, h, x);
            var d := DecChan(term, 2, v, g, e.out);
            && (d.out == x <==> UsedRight(lost, w, Predict(term, h)))
            && (d.out == x ==> Live(term, d.h) == Live(term, e.h)
                               && Weights(lost || !StaysShort(term, w, h, x), e.w, d.w))
  {
    hide ApplyI, Apply, Predict, Update, Live, Push, InReach, Same, Wrap32, UsedRight, Weights;
    var s := Predict(term, h);
    LivePush(term, h, g, x);
    PredictionTells(lost, w, v, s);
    SurvivesIfSame(x, Apply(v, s), ApplyI(w, s));
    if UsedRight(lost, w, s) {
      WeightsGoOn(lost, w, v, s, Wrap32(x - ApplyI(w, s)));
    }
  }

  lemma PredictionTells(lost: bool, w: int32, v: int32, s: int32)
    requires Weights(lost, w, v) && InReach(s)
    ensures Same(Apply(v, s), ApplyI(w, s)) <==> UsedRight(lost, w, s)
  {
    hide ApplyI, Apply, InReach, Same, Wrap16;
    if lost {
      LostTells(v, s);
    } else {
      KeptTells(w, s);
    }
  }

  lemma SurvivesIfSame(x: int32, a: int, b: int)
    ensures Wrap32(a + Wrap32(x - b)) == x <==> Same(a, b)
  {
    var y, j := Turns(x - b);
    var z, k := Turns(a + y);
    assert a - b == z - x + TWO32 * (k + j);
    if Same(a, b) {
      var m := (a - b) / TWO32;
      assert z - x == TWO32 * (m - k - j);
    }
  }

  lemma WeightsGoOn(lost: bool, w: int32, v: int32, s: int32, r: int32)
    requires Weights(lost, w, v) && UsedRight(lost, w, s)
    ensures var u := Update(w, 2, s, r);
            Weights(lost || u != Wrap16(u), Wrap16(u), Wrap32(Update(v, 2, s, r)))
  {
  }

  // ---------------------------------------------------------------- one frame

  /** Which weights have wrapped so far. */
  datatype Fate = Fate(a: bool, b: bool)

  function FateAfter(g: Filter, fate: Fate, fr: Frame): Fate
    requires WellFormed(g) && (fr.Mono? ==> g.term > 0)
  {
    if g.term < 0 then fate
    else
      Fate(fate.a || !StaysShort(g.term, g.wA, g.hA, fr.a),
           fate.b || (fr.Stereo? && !StaysShort(g.term, g.wB, g.hB, fr.b)))
  }

  predicate FrameInReach(g: Filter, fr: Frame)
    requires WellFormed(g) && (fr.Mono? ==> g.term > 0)
  {
    if g.term > 0 then
      InReach(Predict(g.term, g.hA)) && (fr.Stereo? ==> InReach(Predict(g.term, g.hB)))
    else InReach(fr.b) && InReach(g.hB[0])
  }

  /** What the encoder has to get right for the frame to come back. */
  predicate FrameRight(g: Filter, fate: Fate, fr: Frame)
    requires WellFormed(g) && (fr.Mono? ==> g.term > 0)
  {
    if g.term > 0 then
      && UsedRight(fate.a, g.wA, Predict(g.term, g.hA))
      && (fr.Stereo? ==> UsedRight(fate.b, g.wB, Predict(g.term, g.hB)))
    else InInt32(g.wA * fr.b + 512) && InInt32(g.wB * g.hB[0] + 512)
  }

  /** Decoder filter d follows encoder filter e. */
  predicate Follows(e: Filter, d: Filter, mono: bool, fate: Fate)
    requires WellFormed(e) && WellFormed(d)
  {
    && e.term == d.term && e.delta == d.delta == 2 && (e.term < 0 ==> fate == Fate(false, false))
    && Weights(fate.a, e.wA, d.wA) && (!mono ==> Weights(fate.b, e.wB, d.wB))
    && (e.term > 0 ==> Live(e.term, e.hA) == Live(d.term, d.hA))
    && (!mono ==> Live(e.term, e.hB) == Live(d.term, d.hB))
  }

  lemma FrameTells(e: Filter, d: Filter, mono: bool, fate: Fate, fr: Frame)
    requires WellFormed(e) && WellFormed(d) && Follows(e, d, mono, fate)
    requires (fr.Mono? <==> mono) && Supported(e.term, mono) && FrameInReach(e, fr)
    ensures var (e1, out) := EncFrame(e, fr);
            var (d1, back) := DecFrame(d, out);
            && (back == fr <==> FrameRight(e, fate, fr))
            && (back == fr ==> Follows(e1, d1, mono, FateAfter(e, fate, fr)))
  {
    hide InReach, StaysShort, UsedRight, Weights;
    if e.term > 0 {
      hide Live, EncChan, DecChan, Predict;
      ChanTells(e.term, fate.a, e.wA, d.wA, e.hA, d.hA, fr.a);
      if !mono {
        ChanTells(e.term, fate.b, e.wB, d.wB, e.hB, d.hB, fr.b);
      }
    } else {
      CrossTells(e, d, fr);
    }
  }

  lemma CrossTells(e: Filter, d: Filter, fr: Frame)
    requires WellFormed(e) && WellFormed(d) && Follows(e, d, false, Fate(false, false))
    requires fr.Stereo? && e.term == -2 && FrameInReach(e, fr)
    ensures var (e1, out) := EncFrame(e, fr);
            var (d1, back) := DecFrame(d, out);
            && (back == fr <==> FrameRight(e, Fate(false, false), fr))
            && (back == fr ==> Follows(e1, d1, false, Fate(false, false)))
  {
    hide ApplyI, Apply, Wrap32, InReach, InInt32, Same;
    var Stereo(a, b) := fr;
    var prev := e.hB[0];
    assert d.hB[0] == prev by { assert Live(-2, e.hB)[0] == Live(-2, d.hB)[0]; }
    PredictionTells(false, e.wA, e.wA, b);
    PredictionTells(false, e.wB, e.wB, prev);
    SurvivesIfSame(a, Apply(e.wA, b), ApplyI(e.wA, b));
    SurvivesIfSame(b, Apply(e.wB, prev), ApplyI(e.wB, prev));
    ClipGoesOn(e.wA, b, Wrap32(a - ApplyI(e.wA, b)));
    ClipGoesOn(e.wB, prev, Wrap32(b - ApplyI(e.wB, prev)));
  }

  lemma ClipGoesOn(w: int16, s: int32, r: int32)
    ensures var u := UpdateClip(w, 2, s, r); Wrap16(u) == u == Wrap32(u)
  {
  }

  // ---------------------------------------------------------------- one pass over a block

  /** The weights that have wrapped by the end. */
  function PassFate(e: Filter, mono: bool, frames: seq<Frame>): Fate
    requires Suits(e, mono, frames)
  {
    hide EncFrame;
    if frames == [] then Fate(false, false)
    else
      var n := |frames| - 1;
      FateAfter(EncPass(e, mono, frames[..n]).0, PassFate(e, mono, frames[..n]), frames[n])
  }

  predicate PassInReach(e: Filter, mono: bool, frames: seq<Frame>)
    requires Suits(e, mono, frames)
  {
    hide EncFrame;
    frames == [] ||
    (var n := |frames| - 1;
     PassInReach(e, mono, frames[..n]) && FrameInReach(EncPass(e, mono, frames[..n]).0, frames[n]))
  }

  /** Every product fits 32 bits, and no weight is used on a prediction other than zero once it has wrapped. */
  predicate PassRight(e: Filter, mono: bool, frames: seq<Frame>)
    requires Suits(e, mono, frames)
  {
    hide EncFrame;
    frames == [] ||
    (var n := |frames| - 1;
     && PassRight(e, mono, frames[..n])
     && FrameRight(EncPass(e, mono, frames[..n]).0, PassFate(e, mono, frames[..n]), frames[n]))
  }

  lemma {:induction false} LoopTells(e: Filter, d: Filter, mono: bool, frames: seq<Frame>)
    requires Suits(e, mono, frames) && WellFormed(d) && Follows(e, d, mono, Fate(false, false))
    requires Supported(e.term, mono) && PassInReach(e, mono, frames)
    ensures var (e1, out) := EncPass(e, mono, frames);
            Suits(d, mono, out) &&
            var (d1, back) := DecLoop(d, mono, out);
            && (back == frames <==> PassRight(e, mono, frames))
            && (back == frames ==> Follows(e1, d1, mono, PassFate(e, mono, frames)))
    decreases |frames|
  {
    hide EncFrame, DecFrame, FrameRight, FrameInReach, FateAfter, Follows;
    assert d.term == e.term by { FollowsTerm(e, d, mono, Fate(false, false)); }
    if frames == [] {
    } else {
      var n := |frames| - 1;
      LoopTells(e, d, mono, frames[..n]);
      var (e0, out0) := EncPass(e, mono, frames[..n]);
      var (d0, back0) := DecLoop(d, mono, out0);
      var o := EncFrame(e0, frames[n]).1;
      var x := DecFrame(d0, o).1;
      assert (out0 + [o])[..n] == out0;
      LastFrame(frames, back0, x);
      if back0 == frames[..n] {
        FrameTells(e0, d0, mono, PassFate(e, mono, frames[..n]), frames[n]);
      }
    }
  }

  lemma LastFrame(frames: seq<Frame>, before: seq<Frame>, x: Frame)
    requires |frames| == |before| + 1
    ensures before + [x] == frames <==> before == frames[..|before|] && x == frames[|before|]
  {
    assert frames == frames[..|before|] + [frames[|before|]];
    assert (before + [x])[..|before|] == before;
  }

  lemma FollowsTerm(e: Filter, d: Filter, mono: bool, fate: Fate)
    requires WellFormed(e) && WellFormed(d) && Follows(e, d, mono, fate)
    ensures d.term == e.term
  {
  }

  /** A block survives a pass, any term and both channels, if and only if the encoder gets all that right. */
  lemma BlockSurvivesExactly(e: Filter, d: Filter, mono: bool, frames: seq<Frame>)
    requires Suits(e, mono, frames) && WellFormed(d) && Agree(e, d, mono)
    requires Supported(e.term, mono) && e.delta == 2 && ShortWeights(e) && PassInReach(e, mono, frames)
    ensures var out := EncPass(e, mono, frames).1;
            Suits(d, mono, out) && (DecPass(d, mono, out).1 == frames <==> PassRight(e, mono, frames))
  {
    hide DecLoop, EncPass, PassRight, PassInReach, PassFate, Live;
    LoopTells(e, d, mono, frames);
  }

  /** 16-bit sound is enough to lose a sample to a weight: it grows out of its short, and the silent sample after
      that comes back as 6400. */
  lemma WrappedWeightIsLost()
    ensures var f := Filter(1, 2, 32767, 0, [0, 0, 0, 0, 0, 0, 0, 1], [0, 0, 0, 0, 0, 0, 0, 0]);
            && InInt32(32767 * 1 + 512) && InInt32(-32767 * 100 + 512)
            && DecPass(f, true, EncPass(f, true, [Mono(100), Mono(0)]).1).1 == [Mono(100), Mono(6400)]
  {
    var f := Filter(1, 2, 32767, 0, [0, 0, 0, 0, 0, 0, 0, 1], [0, 0, 0, 0, 0, 0, 0, 0]);
    var e1 := f.(wA := -32767, hA := [0, 0, 0, 0, 0, 0, 1, 100]);
    var d1 := e1.(wA := 32769);
    assert Predict(1, f.hA) == 1 && Apply(32767, 1) == 32 && ApplyI(32767, 1) == 32 && Push(f.hA, 100) == e1.hA;
    assert EncFrame(f, Mono(100)) == (e1, Mono(68)) && DecFrame(f, Mono(68)) == (d1, Mono(100));
    assert Predict(1, e1.hA) == 100;
    assert ApplyI(-32767, 100) == Wrap32(-3276188) / 1024 == -3200;
    assert Apply(32769, 100) == Wrap32(3277412) / 1024 == 3200;
    var e2 := EncFrame(e1, Mono(0)).0;
    assert EncFrame(e1, Mono(0)).1 == Mono(3200);
    EncOfTwo(f, Mono(100), Mono(0));
    LoopOfTwo(f, Mono(68), Mono(3200));
  }

  lemma EncOfTwo(f: Filter, x: Frame, y: Frame)
    requires WellFormed(f) && f.term > 0 && x.Mono? && y.Mono?
    ensures var (g, o) := EncFrame(f, x);
            var (h, p) := EncFrame(g, y);
            EncPass(f, true, [x, y]) == (h, [o, p])
  {
    hide EncFrame, WellFormed;
    assert [x, y][..1] == [x] && [x][..0] == [];
    var (g, o) := EncFrame(f, x);
    assert EncPass(f, true, []) == (f, []);
    assert EncPass(f, true, [x]) == (g, [] + [o]);
    assert [] + [o] == [o] && [o] + [EncFrame(g, y).1] == [o, EncFrame(g, y).1];
  }
}
