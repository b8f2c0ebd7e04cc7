/** The decoder's passes undo the encoder's, as long as the encoder's 32-bit products do not overflow. */
module DecorrInverse {
  import opened Machine
  import opened Arithmetic
  import opened DecorrSpec

  // ---------------------------------------------------------------- weights applied

  predicate InInt32(x: int) {
    -TWO31 <= x < TWO31
  }

  /** The exact value both forms of apply_weight aim at. */
  function Exact(w: int, s: int): int {
    (w * s + 512) / 1024
  }

  /** Over the integers the two-step form is the one-step form. */
  lemma SplitProduct(w: int, s: int)
    ensures var lo := s % TWO16;
            ((lo * w) / 512 + (s - lo) / 512 * w + 1) / 2 == Exact(w, s)
  {
    var lo := s % TWO16;
    var q := s / TWO16;
    assert s - lo == TWO16 * q;
    assert (s - lo) / 512 == 128 * q;
    var p := lo * w;
    var h := q * w;
    assert (s - lo) / 512 * w == 128 * h by { Mul3(q, w); }
    assert w * s == p + TWO16 * h by { Distribute(w, lo, q); }
    assert (p / 512 + 128 * h + 1) / 2 == (p + TWO16 * h + 512) / 1024;
  }

  lemma Mul3(q: int, w: int)
    ensures 128 * q * w == 128 * (q * w)
  {
  }

  lemma Distribute(w: int, lo: int, q: int)
    ensures w * (lo + TWO16 * q) == lo * w + TWO16 * (q * w)
  {
  }

  /** The decoder's apply_weight is exact wherever the encoder's product fits 32 bits. */
  lemma ApplyIsExact(w: int16, s: int32)
    requires InInt32(w * s + 512)
    ensures ApplyI(w, s) == Exact(w, s) && Apply(w, s) == Exact(w, s)
  {
    if s != Wrap16(s) {
      hide Wrap16, ApplyI, Exact, Wrap32;
      ApplyFIsExact(w, s);
    }
  }

  lemma ApplyFIsExact(w: int16, s: int32)
    requires InInt32(w * s + 512)
    ensures ApplyF(w, s) == Exact(w, s)
  {
    hide Exact, Wrap32, InInt32;
    SplitProduct(w, s);
    LowPart(s);
    NoStepWraps(w, s, s % TWO16, (s - s % TWO16) / 512);
  }

  lemma LowPart(s: int)
    ensures 0 <= s % TWO16 < TWO16 && (s - s % TWO16) / 512 * 512 == s - s % TWO16
  {
  }

  /** The 32-bit steps of apply_weight_f are exact. */
  lemma NoStepWraps(w: int16, s: int32, lo: int, q: int)
    requires InInt32(w * s + 512) && 0 <= lo < TWO16 && q * 512 == s - lo
    ensures Wrap32(Wrap32(lo * w) / 512 + Wrap32(q * w) + 1) == lo * w / 512 + q * w + 1
  {
    hide Wrap32;
    var p, h := lo * w, q * w;
    ProductBound(lo, TWO16 - 1, w, TWO15);
    Distribute2(w, s, lo, q);
    NoOverflow(p, h, w * s);
    Wrap32Small(p);
    Wrap32Small(h);
    Wrap32Small(p / 512 + h + 1);
  }

  lemma Wrap32Small(x: int)
    ensures InInt32(x) ==> Wrap32(x) == x
  {
  }

  /** No step of apply_weight_f overflows when the whole product fits. */
  lemma NoOverflow(p: int, h: int, product: int)
    requires h * 512 == product - p && InInt32(product + 512)
    requires -0x7fff_8000 <= p <= 0x7fff_8000
    ensures InInt32(p) && InInt32(h) && InInt32(p / 512 + h + 1)
  {
  }

  lemma Distribute2(w: int, s: int, lo: int, q: int)
    requires q * 512 == s - lo
    ensures q * w * 512 == w * s - lo * w
  {
    assert q * w * 512 == (q * 512) * w;
    assert (s - lo) * w == w * s - lo * w;
  }

  lemma ProductBound(x: int, boundX: int, y: int, boundY: int)
    requires 0 <= boundX && 0 <= boundY
    requires -boundX <= x <= boundX && -boundY <= y <= boundY
    ensures -(boundX * boundY) <= x * y <= boundX * boundY
  {
    var a, b := Abs(x), Abs(y);
    MulUp(b, boundY, a);
    MulUp(a, boundX, boundY);
    assert b * a == a * b && boundY * a == a * boundY;
    SignedProduct(x, y);
  }

  lemma SignedProduct(x: int, y: int)
    ensures x * y == Abs(x) * Abs(y) || x * y == -(Abs(x) * Abs(y))
  {
    if x < 0 && y < 0 {
      assert x * y == (-x) * (-y);
    }
  }

  // ---------------------------------------------------------------- when the encoder stays exact

  /** The prediction product fits 32 bits and the nudged weight fits a short. */
  predicate FitsChan(term: int, w: int32, h: seq<int32>, x: int32)
    requires term > 0 && |h| == Depth(term) && ValidTerm(term)
  {
    var s := Predict(term, h);
    var r := Wrap32(x - ApplyI(w, s));
    && w == Wrap16(w)
    && InInt32(w * s + 512)
    && Update(w, 2, s, r) == Wrap16(Update(w, 2, s, r))
  }

  predicate FitsFrame(f: Filter, fr: Frame)
    requires WellFormed(f) && (fr.Mono? ==> f.term > 0)
  {
    match fr
    case Mono(a) => FitsChan(f.term, f.wA, f.hA, a)
    case Stereo(a, b) =>
      if f.term > 0 then FitsChan(f.term, f.wA, f.hA, a) && FitsChan(f.term, f.wB, f.hB, b)
      else
        && -1024 <= f.wA <= 1024 && -1024 <= f.wB <= 1024
        && InInt32(f.wA * b + 512) && InInt32(f.wB * f.hB[0] + 512)
  }

  /** The encoder has a case for the term: all it can set up but 8, -1 and -3 in stereo. */
  predicate Supported(term: int, mono: bool) {
    if mono then term > 0 && ValidTerm(term) else term == 17 || term == 18 || 1 <= term <= 7 || term == -2
  }

  predicate FitsPass(f: Filter, mono: bool, frames: seq<Frame>)
    requires Suits(f, mono, frames)
  {
    frames == [] ||
    (var n := |frames| - 1;
     FitsPass(f, mono, frames[..n]) && FitsFrame(EncPass(f, mono, frames[..n]).0, frames[n]))
  }

  predicate FitsAll(fs: seq<Filter>, mono: bool, frames: seq<Frame>)
    requires AllSuit(fs, mono, frames)
  {
    fs == [] ||
    (var n := |fs| - 1;
     FitsAll(fs[..n], mono, frames) && FitsPass(fs[n], mono, EncAll(fs[..n], mono, frames).1))
  }

  // ---------------------------------------------------------------- what the two sides share

  /** The remembered samples a later step can read. */
  function Live(term: int, h: seq<int32>): seq<int32>
    requires ValidTerm(term) && |h| == Depth(term)
  {
    if 1 <= term <= MAX_TERM then h[MAX_TERM - term..] else h
  }

  /** Encoder and decoder pass agree on all that matters. */
  predicate Agree(e: Filter, d: Filter, mono: bool)
    requires WellFormed(e) && WellFormed(d)
  {
    && e.term == d.term && e.delta == d.delta
    && e.wA == d.wA
    && (e.term > 0 ==> Live(e.term, e.hA) == Live(d.term, d.hA))
    && (!mono ==> e.wB == d.wB && Live(e.term, e.hB) == Live(d.term, d.hB))
  }

  lemma LivePush(term: int, h: seq<int32>, g: seq<int32>, x: int32)
    requires term > 0 && ValidTerm(term) && |h| == |g| == Depth(term) && Live(term, h) == Live(term, g)
    ensures Predict(term, h) == Predict(term, g)
    ensures Live(term, Push(h, x)) == Live(term, Push(g, x))
  {
    if term <= MAX_TERM {
      var k := MAX_TERM - term;
      assert h[k] == Live(term, h)[0] == Live(term, g)[0] == g[k];
      assert Push(h, x)[k..] == Live(term, h)[1..] + [x];
      assert Push(g, x)[k..] == Live(term, g)[1..] + [x];
    }
  }

  // ---------------------------------------------------------------- one frame

  lemma ChanInverts(term: int, w: int32, h: seq<int32>, g: seq<int32>, x: int32)
    requires term > 0 && ValidTerm(term) && |h| == |g| == Depth(term) && Live(term, h) == Live(term, g)
    requires FitsChan(term, w, h, x)
    ensures var e := EncChan(term, w, h, x);
            var d := DecChan(term, 2, w, g, e.out);
            d.out == x && d.w == e.w && Live(term, d.h) == Live(term, e.h)
  {
    hide ApplyI, Apply, Predict, Update, Live, Push;
    var s := Predict(term, h);
    LivePush(term, h, g, x);
    ApplyIsExact(w, s);
    WrapAddUndoesSub(x, ApplyI(w, s));
  }

  lemma FrameInverts(e: Filter, d: Filter, mono: bool, fr: Frame)
    requires WellFormed(e) && WellFormed(d) && Agree(e, d, mono)
    requires (fr.Mono? <==> mono) && Supported(e.term, mono) && e.delta == 2
    requires FitsFrame(e, fr)
    ensures var (e1, out) := EncFrame(e, fr);
            var (d1, back) := DecFrame(d, out);
            back == fr && Agree(e1, d1, mono)
  {
    if e.term > 0 {
      hide Live, EncChan, DecChan, FitsChan;
      ChanInverts(e.term, e.wA, e.hA, d.hA, fr.a);
      if !mono {
        ChanInverts(e.term, e.wB, e.hB, d.hB, fr.b);
      }
    } else {
      CrossInverts(e, d, fr);
    }
  }

  lemma CrossInverts(e: Filter, d: Filter, fr: Frame)
    requires WellFormed(e) && WellFormed(d) && Agree(e, d, false)
    requires fr.Stereo? && e.term == -2 && e.delta == 2
    requires FitsFrame(e, fr)
    ensures var (e1, out) := EncFrame(e, fr);
            var (d1, back) := DecFrame(d, out);
            back == fr && Agree(e1, d1, false)
  {
    hide ApplyI, Apply;
    var Stereo(a, b) := fr;
    var prev := e.hB[0];
    assert d.hB[0] == prev by { assert Live(-2, e.hB)[0] == Live(-2, d.hB)[0]; }
    ApplyIsExact(e.wA, b);
    ApplyIsExact(e.wB, prev);
    WrapAddUndoesSub(a, ApplyI(e.wA, b));
    WrapAddUndoesSub(b, ApplyI(e.wB, prev));
  }

  // ---------------------------------------------------------------- one pass, all passes

  lemma {:induction false} PassInverts(e: Filter, d: Filter, mono: bool, frames: seq<Frame>)
    requires Suits(e, mono, frames) && WellFormed(d) && Agree(e, d, mono)
    requires Supported(e.term, mono) && e.delta == 2
    requires FitsPass(e, mono, frames)
    ensures var (e1, out) := EncPass(e, mono, frames);
            Suits(d, mono, out) &&
            var (d1, back) := DecLoop(d, mono, out);
            back == frames && Agree(e1, d1, mono)
    decreases |frames|
  {
    hide EncFrame, DecFrame, FitsFrame, Agree;
    assert d.term == e.term by { AgreeTerm(e, d, mono); }
    if frames == [] {
    } else {
      var n := |frames| - 1;
      PassInverts(e, d, mono, frames[..n]);
      var (e0, out0) := EncPass(e, mono, frames[..n]);
      var (d0, back0) := DecLoop(d, mono, out0);
      var (e1, o) := EncFrame(e0, frames[n]);
      FrameInverts(e0, d0, mono, frames[n]);
      assert (out0 + [o])[..n] == out0;
      assert frames == frames[..n] + [frames[n]];
    }
  }

  lemma AgreeTerm(e: Filter, d: Filter, mono: bool)
    requires WellFormed(e) && WellFormed(d) && Agree(e, d, mono)
    ensures d.term == e.term && d.delta == e.delta
  {
  }

  /** Encoder passes fs and decoder passes ds are the same filters in opposite order. */
  predicate Mirror(fs: seq<Filter>, ds: seq<Filter>, mono: bool) {
    && |fs| == |ds|
    && forall i :: 0 <= i < |fs| ==>
         WellFormed(fs[i]) && WellFormed(ds[|fs| - 1 - i]) && Agree(fs[i], ds[|fs| - 1 - i], mono)
  }

  predicate AllSupported(fs: seq<Filter>, mono: bool) {
    forall i :: 0 <= i < |fs| ==> Supported(fs[i].term, mono) && fs[i].delta == 2
  }

  /** The decoder's weights are shorts again after a pass that mirrors the encoder's. */
  lemma {:induction false} WeightsStayShort(f: Filter, mono: bool, frames: seq<Frame>)
    requires Suits(f, mono, frames)
    requires FitsPass(f, mono, frames) && Supported(f.term, mono)
    requires f.wA == Wrap16(f.wA) && f.wB == Wrap16(f.wB)
    ensures var g := EncPass(f, mono, frames).0; g.wA == Wrap16(g.wA) && g.wB == Wrap16(g.wB)
    decreases |frames|
  {
    hide ApplyI, Predict, Update, UpdateClip;
    if frames == [] {
    } else {
      WeightsStayShort(f, mono, frames[..|frames| - 1]);
    }
  }

  predicate ShortWeights(f: Filter) {
    f.wA == Wrap16(f.wA) && f.wB == Wrap16(f.wB)
  }

  lemma DecPassInverts(e: Filter, d: Filter, mono: bool, frames: seq<Frame>)
    requires Suits(e, mono, frames) && WellFormed(d) && Agree(e, d, mono)
    requires Supported(e.term, mono) && e.delta == 2
    requires FitsPass(e, mono, frames) && ShortWeights(e)
    ensures var (e1, out) := EncPass(e, mono, frames);
            Suits(d, mono, out) &&
            var (d1, back) := DecPass(d, mono, out);
            back == frames && Agree(e1, d1, mono) && ShortWeights(e1)
  {
    hide EncPass, DecLoop, FitsPass, Live;
    PassInverts(e, d, mono, frames);
    WeightsStayShort(e, mono, frames);
  }

  lemma {:induction false} FitsSplit(e: Filter, mono: bool, a: seq<Frame>, b: seq<Frame>)
    requires Suits(e, mono, a) && AllFrames(mono, b) && AllFrames(mono, a + b)
    requires FitsPass(e, mono, a + b)
    ensures FitsPass(e, mono, a) && FitsPass(EncPass(e, mono, a).0, mono, b)
    ensures var (g, ya) := EncPass(e, mono, a);
            var (h, yb) := EncPass(g, mono, b);
            EncPass(e, mono, a + b) == (h, ya + yb)
    decreases |b|
  {
    hide EncFrame, FitsFrame;
    if b == [] {
      assert a + b == a;
      var (g, ya) := EncPass(e, mono, a);
      assert ya + [] == ya;
    } else {
      var n := |b| - 1;
      assert (a + b)[..|a| + n] == a + b[..n] && (a + b)[|a| + n] == b[n];
      FitsSplit(e, mono, a, b[..n]);
      var (g, ya) := EncPass(e, mono, a);
      var (h, yb) := EncPass(g, mono, b[..n]);
      var o := EncFrame(h, b[n]).1;
      assert ya + yb + [o] == ya + (yb + [o]);
    }
  }

  lemma BlockPassInverts(e: Filter, d: Filter, mono: bool, frames: seq<Frame>)
    requires Suits(e, mono, frames) && WellFormed(d) && Agree(e, d, mono)
    requires Supported(e.term, mono) && e.delta == 2
    requires FitsPass(e, mono, frames) && ShortWeights(e)
    ensures var (e1, out) := EncPass(e, mono, frames);
            Suits(d, mono, out) &&
            var (d1, back) := BlockPass(d, mono, out);
            back == frames && Agree(e1, d1, mono) && ShortWeights(e1)
  {
    hide EncPass, DecPass, FitsPass, Agree;
    if mono || |frames| < 16 {
      DecPassInverts(e, d, mono, frames);
    } else {
      var a, b := frames[..8], frames[8..];
      assert frames == a + b;
      FitsSplit(e, mono, a, b);
      DecPassInverts(e, d, mono, a);
      var (e1, ya) := EncPass(e, mono, a);
      var (d1, back) := DecPass(d, mono, ya);
      DecPassInverts(e1, d1, mono, b);
      var yb := EncPass(e1, mono, b).1;
      assert (ya + yb)[..8] == ya && (ya + yb)[8..] == yb;
    }
  }

  /** All passes of the encoder, then all passes of the decoder in mirrored order: the samples come back
      and the two sides still mirror each other. */
  lemma {:induction false} AllPassesInvert(fs: seq<Filter>, ds: seq<Filter>, mono: bool, frames: seq<Frame>)
    requires AllSuit(fs, mono, frames) && Mirror(fs, ds, mono) && AllSupported(fs, mono)
    requires FitsAll(fs, mono, frames)
    requires forall i :: 0 <= i < |fs| ==> ShortWeights(fs[i])
    ensures var (gs, out) := EncAll(fs, mono, frames);
            AllSuit(ds, mono, out) &&
            var (es, back) := DecAll(ds, mono, out);
            && back == frames && Mirror(gs, es, mono)
            && forall i :: 0 <= i < |gs| ==> ShortWeights(gs[i])
    decreases |fs|
  {
    hide EncPass, BlockPass, FitsPass, Agree, Supported, Mirror, WellFormed, ShortWeights;
    MirrorEnds(fs, ds, mono);
    if fs != [] {
      var n := |fs| - 1;
      var (gs, ys) := EncAll(fs[..n], mono, frames);
      var (g, zs) := EncPass(fs[n], mono, ys);
      BlockPassInverts(fs[n], ds[0], mono, ys);
      AllPassesInvert(fs[..n], ds[1..], mono, frames);
      MirrorSuits(fs, ds, mono, zs);
      var (d, ys') := BlockPass(ds[0], mono, zs);
      var (es, back) := DecAll(ds[1..], mono, ys);
      MirrorGrows(gs, es, g, d, mono);
    } else {
      assert AllSuit(ds, mono, frames);
    }
  }

  lemma MirrorEnds(fs: seq<Filter>, ds: seq<Filter>, mono: bool)
    requires Mirror(fs, ds, mono)
    ensures |ds| == |fs|
    ensures fs == [] ==> Mirror([], [], mono)
    ensures fs != [] ==>
              var n := |fs| - 1;
              && WellFormed(fs[n]) && WellFormed(ds[0]) && Agree(fs[n], ds[0], mono)
              && Mirror(fs[..n], ds[1..], mono)
  {
    hide Agree;
    if fs != [] {
      var n := |fs| - 1;
      assert Agree(fs[n], ds[|fs| - 1 - n], mono);
      forall i | 0 <= i < n
        ensures WellFormed(ds[1..][n - 1 - i]) && Agree(fs[..n][i], ds[1..][n - 1 - i], mono)
      {
        assert fs[..n][i] == fs[i] && ds[1..][n - 1 - i] == ds[|fs| - 1 - i];
        assert Agree(fs[i], ds[|fs| - 1 - i], mono);
      }
    }
  }

  lemma MirrorGrows(gs: seq<Filter>, es: seq<Filter>, g: Filter, d: Filter, mono: bool)
    requires Mirror(gs, es, mono) && WellFormed(g) && WellFormed(d) && Agree(g, d, mono)
    ensures Mirror(gs + [g], [d] + es, mono)
  {
    hide Agree;
    var n, fs, ds := |gs|, gs + [g], [d] + es;
    forall i | 0 <= i < |fs|
      ensures WellFormed(fs[i]) && WellFormed(ds[|fs| - 1 - i]) && Agree(fs[i], ds[|fs| - 1 - i], mono)
    {
      if i < n {
        assert fs[i] == gs[i] && ds[|fs| - 1 - i] == es[n - 1 - i];
        assert Agree(gs[i], es[n - 1 - i], mono);
      }
    }
  }

  lemma MirrorSuits(fs: seq<Filter>, ds: seq<Filter>, mono: bool, frames: seq<Frame>)
    requires Mirror(fs, ds, mono) && AllSuit(fs, mono, frames)
    ensures AllSuit(ds, mono, frames)
  {
    forall j | 0 <= j < |ds|
      ensures WellFormed(ds[j]) && (mono ==> ds[j].term > 0)
    {
      var i := |fs| - 1 - j;
      assert WellFormed(fs[i]) && ds[|fs| - 1 - i] == ds[j];
      assert Agree(fs[i], ds[|fs| - 1 - i], mono);
    }
  }

  // ---------------------------------------------------------------- visiting order

  /** A frame appended to the block goes through the passes as the block left them. */
  lemma {:induction false} EncAllSnoc(fs: seq<Filter>, mono: bool, frames: seq<Frame>, fr: Frame)
    requires AllSuit(fs, mono, frames) && (fr.Mono? <==> mono)
    ensures AllSuit(fs, mono, frames + [fr])
    ensures var (gs, out) := EncAll(fs, mono, frames);
            AllSuit(gs, mono, [fr]) &&
            var (gs', o) := EncThrough(gs, mono, fr);
            EncAll(fs, mono, frames + [fr]) == (gs', out + [o])
    decreases |fs|
  {
    hide EncFrame;
    if fs == [] {
    } else {
      var n := |fs| - 1;
      EncAllSnoc(fs[..n], mono, frames, fr);
      var (gs, ys) := EncAll(fs[..n], mono, frames);
      var (g, zs) := EncPass(fs[n], mono, ys);
      var (gs', y) := EncThrough(gs, mono, fr);
      assert (ys + [y])[..|ys|] == ys;
      assert (gs + [g])[..n] == gs;
    }
  }

  /** Sample by sample through all passes, as mono blocks are packed, is pass by pass over all samples. */
  lemma {:induction false} BySampleIsByPass(fs: seq<Filter>, mono: bool, frames: seq<Frame>)
    requires AllSuit(fs, mono, frames)
    ensures EncBySample(fs, mono, frames) == EncAll(fs, mono, frames)
    decreases |frames|
  {
    hide EncFrame, EncThrough;
    if frames == [] {
      EncAllEmpty(fs, mono);
    } else {
      var n := |frames| - 1;
      BySampleIsByPass(fs, mono, frames[..n]);
      EncAllSnoc(fs, mono, frames[..n], frames[n]);
      assert frames == frames[..n] + [frames[n]];
    }
  }

  lemma {:induction false} EncAllEmpty(fs: seq<Filter>, mono: bool)
    requires AllSuit(fs, mono, [])
    ensures EncAll(fs, mono, []) == (fs, [])
    decreases |fs|
  {
    if fs == [] {
    } else {
      var n := |fs| - 1;
      EncAllEmpty(fs[..n], mono);
      assert fs == fs[..n] + [fs[n]];
    }
  }

  // ---------------------------------------------------------------- around the passes

  lemma JointInverts(fr: Frame)
    ensures FromJoint(ToJoint(fr)) == fr
  {
    match fr
    case Mono(_) =>
    case Stereo(l, r) =>
      hide Wrap32, U32, ToJoint, FromJoint;
      var d := Wrap32(l - r);
      var s := Wrap32(r + d / 2);
      JoinedIs(l, r, d, s);
      UnjoinedIs(d, s, r);
      JointParts(l, r, d, d / 2);
  }

  lemma JoinedIs(l: int32, r: int32, d: int32, s: int32)
    requires d == Wrap32(l - r) && s == Wrap32(r + d / 2)
    ensures ToJoint(Stereo(l, r)) == Stereo(d, s)
  {
    hide Wrap32;
  }

  lemma UnjoinedIs(d: int32, s: int32, r: int32)
    ensures Wrap32(s - d / 2) == r ==> FromJoint(Stereo(d, s)) == Stereo(Wrap32(d + r), r)
  {
    hide Wrap32;
  }

  lemma JointParts(l: int32, r: int32, d: int32, half: int)
    requires d == Wrap32(l - r)
    ensures Wrap32(Wrap32(r + half) - half) == r && Wrap32(d + r) == l
  {
    hide Wrap32, U32;
    WrapSubUndoesAdd(r, half);
    WrapAddUndoesSub(l, r);
    assert d + r == r + d;
  }

  /** The two checksum recurrences are one. */
  lemma CrcStepsAgree(crc: u32, fr: Frame)
    ensures PackCrc(crc, fr) == UnpackCrc(crc, fr)
  {
    if fr.Stereo? {
      var y := crc * 3 + fr.a;
      var k := (y - U32(y)) / TWO32;
      assert y == U32(y) + TWO32 * k;
      SameWord(U32(y) * 3 + fr.b, 3 * k);
      assert crc * 9 + fr.a * 3 + fr.b == U32(y) * 3 + fr.b + TWO32 * (3 * k);
    }
  }

  lemma SameWord(x: int, k: int)
    ensures U32(x + TWO32 * k) == U32(x)
  {
  }

  lemma {:induction false} CrcsAgree(crc: u32, frames: seq<Frame>)
    ensures CrcOver(PackCrc, crc, frames) == CrcOver(UnpackCrc, crc, frames)
    decreases |frames|
  {
    if frames == [] {
    } else {
      var n := |frames| - 1;
      CrcsAgree(crc, frames[..n]);
      CrcStepsAgree(CrcOver(UnpackCrc, crc, frames[..n]), frames[n]);
    }
  }

  // ---------------------------------------------------------------- exactly when one sample survives

  /** With a weight in its normal range, one sample of one channel survives exactly when the encoder's
      product fits 32 bits. */
  lemma SurvivesExactlyWhenExact(term: int, w: int32, h: seq<int32>, x: int32)
    requires term > 0 && ValidTerm(term) && |h| == Depth(term)
    requires -1024 <= w <= 1024 && -0x2000_0000 <= Predict(term, h) <= 0x2000_0000
    ensures DecChan(term, 2, w, h, EncChan(term, w, h, x).out).out == x <==> InInt32(w * Predict(term, h) + 512)
  {
    hide Predict;
    var s := Predict(term, h);
    if InInt32(w * s + 512) {
      ApplyIsExact(w, s);
      WrapAddUndoesSub(x, ApplyI(w, s));
    } else {
      WideApplyIsExact(w, s);
      var v := w * s + 512;
      ProductBound(w, 1024, s, 0x2000_0000);
      OverflowShows(v);
      DifferenceShows(x, Apply(w, s), ApplyI(w, s));
    }
  }

  lemma WideApplyIsExact(w: int32, s: int32)
    requires -1024 <= w <= 1024 && -0x2000_0000 <= s <= 0x2000_0000
    requires !InInt32(w * s + 512)
    ensures Apply(w, s) == Exact(w, s)
  {
    var lo := s % TWO16;
    if s == Wrap16(s) {
      ProductBound(w, 1024, s, TWO15);
      assert false;
    }
    SplitProduct(w, s);
    ProductBound(lo, TWO16 - 1, w, 1024);
    ProductBound((s - lo) / 512, 0x10_0080, w, 1024);
  }

  /** A wrapped product is off by a multiple of 2^22 that 32 bits can tell from zero. */
  lemma OverflowShows(v: int)
    requires !InInt32(v) && -0x100_0000_0000 < v < 0x100_0000_0000
    ensures (v / 1024 - Wrap32(v) / 1024) % TWO32 != 0
  {
    var k := (v - Wrap32(v)) / TWO32;
    assert v == Wrap32(v) + TWO32 * k;
    assert k != 0 && -512 < k < 512;
    assert v / 1024 == Wrap32(v) / 1024 + 0x40_0000 * k;
  }

  lemma DifferenceShows(x: int32, a: int, b: int)
    requires (a - b) % TWO32 != 0
    ensures Wrap32(a + Wrap32(x - b)) != x
  {
    hide Wrap32;
    var y := Wrap32(x - b);
    SameResidue(y, x - b);
    SameResidue(Wrap32(a + y), a + y);
    if Wrap32(a + y) == x {
      Residues(a, b, x, y);
    }
  }

  lemma SameResidue(r: int, x: int)
    requires r == Wrap32(x)
    ensures (r - x) % TWO32 == 0
  {
  }

  lemma Residues(a: int, b: int, x: int, y: int)
    requires (y - (x - b)) % TWO32 == 0 && (x - (a + y)) % TWO32 == 0
    ensures (a - b) % TWO32 == 0
  {
    var i, j := (y - (x - b)) / TWO32, (x - (a + y)) / TWO32;
    assert y - (x - b) == TWO32 * i && x - (a + y) == TWO32 * j;
    assert a - b == TWO32 * (-i - j);
  }

  /** 24-bit audio is enough to lose a sample: with full weight on a previous sample of 2^21, a silent
      sample comes back as 2^22. */
  lemma WideSampleIsLost()
    ensures var h: seq<int32> := [0, 0, 0, 0, 0, 0, 0, 0x20_0000];
            DecChan(1, 2, 1024, h, EncChan(1, 1024, h, 0).out).out == 0x40_0000
  {
    var h: seq<int32> := [0, 0, 0, 0, 0, 0, 0, 0x20_0000];
    assert Predict(1, h) == 0x20_0000;
    assert EncChan(1, 1024, h, 0).out == 0x20_0000;
  }
}
