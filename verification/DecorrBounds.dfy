/** A bound a caller can check before packing a block that keeps every product of the encoder within 32 bits. */
module DecorrBounds {
  import opened Machine
  import opened Arithmetic
  import opened WordSpec
  import opened DecorrSpec
  import opened DecorrInverse
  import opened DecorrPasses
  import opened Metadata
  import opened Sync
  import opened BlockSpec
  import opened BlockRoundTrip

  // ---------------------------------------------------------------- one step

  predicate AllUpTo(s: seq<int32>, bound: nat) {
    forall i :: 0 <= i < |s| ==> Abs(s[i]) <= bound
  }

  predicate FrameUpTo(fr: Frame, bound: nat) {
    Abs(fr.a) <= bound && (fr.Stereo? ==> Abs(fr.b) <= bound)
  }

  predicate FramesUpTo(frames: seq<Frame>, bound: nat) {
    forall i :: 0 <= i < |frames| ==> FrameUpTo(frames[i], bound)
  }

  /** Weights up to w, cross-channel weights in their clipping range, remembered samples up to bound. */
  predicate Calm(f: Filter, bound: nat, w: nat) {
    && Abs(f.wA) <= w && Abs(f.wB) <= w
    && (f.term < 0 ==> -1024 <= f.wA <= 1024 && -1024 <= f.wB <= 1024)
    && AllUpTo(f.hA, bound) && AllUpTo(f.hB, bound)
  }

  /** No prediction from samples up to bound is more than this. */
  function Reach(term: int, bound: nat): nat {
    if term == 17 then 3 * bound else if term == 18 then 2 * bound else bound
  }

  /** How large a weight can be: those of cross-channel terms are clipped. */
  function Cap(term: int, w: nat): nat {
    if term < 0 && w > 1024 then 1024 else w
  }

  function Product(term: int, bound: nat, w: nat): nat {
    Reach(term, bound) * Cap(term, w)
  }

  /** How large a pass can make samples up to bound. */
  function Grown(term: int, bound: nat, w: nat): nat {
    bound + Product(term, bound, w) / 1024 + 1
  }

  /** Samples up to bound and weights up to w are safe for one pass. */
  predicate Safe(term: int, bound: nat, w: nat) {
    Product(term, bound, w) + 512 < TWO31 && 4 * bound < TWO31 && Grown(term, bound, w) < TWO31
  }

  lemma PredictUpTo(term: int, h: seq<int32>, bound: nat)
    requires term > 0 && |h| == Depth(term) && ValidTerm(term) && AllUpTo(h, bound) && 4 * bound < TWO31
    ensures Abs(Predict(term, h)) <= Reach(term, bound)
  {
  }

  lemma ProductFits(term: int, w: int, s: int, bound: nat, wMax: nat)
    requires Abs(w) <= Cap(term, wMax) && Abs(s) <= Reach(term, bound) && Safe(term, bound, wMax)
    ensures InInt32(w * s + 512)
    ensures Abs(ApplyI(w, s)) <= Product(term, bound, wMax) / 1024 + 1
  {
    hide Reach, Cap;
    ProductBound(w, Cap(term, wMax), s, Reach(term, bound));
    Commute(Cap(term, wMax), Reach(term, bound));
    RoundedUpTo(w * s, Product(term, bound, wMax));
  }

  lemma RoundedUpTo(p: int, q: nat)
    requires Abs(p) <= q && q + 512 < TWO31
    ensures Abs(Wrap32(p + 512) / 1024) <= q / 1024 + 1
  {
  }

  lemma ChanStaysCalm(term: int, w: int32, h: seq<int32>, x: int32, bound: nat, wMax: nat)
    requires term > 0 && |h| == Depth(term) && ValidTerm(term)
    requires Abs(w) <= wMax && wMax + 2 < TWO15 && Safe(term, bound, wMax)
    requires AllUpTo(h, bound) && Abs(x) <= bound
    ensures FitsChan(term, w, h, x)
    ensures var c := EncChan(term, w, h, x);
            && Abs(c.w) <= wMax + 2 && AllUpTo(c.h, bound)
            && Abs(c.out) <= Grown(term, bound, wMax)
  {
    hide Predict, ApplyI, Safe, Product;
    assert 4 * bound < TWO31 && Grown(term, bound, wMax) < TWO31 by { SafeParts(term, bound, wMax); }
    PredictUpTo(term, h, bound);
    ProductFits(term, w, Predict(term, h), bound, wMax);
  }

  lemma SafeParts(term: int, bound: nat, w: nat)
    requires Safe(term, bound, w)
    ensures 4 * bound < TWO31 && Grown(term, bound, w) < TWO31
  {
  }

  lemma FrameStaysCalm(f: Filter, fr: Frame, mono: bool, bound: nat, wMax: nat)
    requires WellFormed(f) && (fr.Mono? <==> mono) && Supported(f.term, mono)
    requires Calm(f, bound, wMax) && wMax + 2 < TWO15 && Safe(f.term, bound, wMax)
    requires FrameUpTo(fr, bound)
    ensures FitsFrame(f, fr)
    ensures var (g, out) := EncFrame(f, fr);
            Calm(g, bound, wMax + 2) && FrameUpTo(out, Grown(f.term, bound, wMax))
  {
    hide Safe, EncChan, FitsChan, Grown;
    if f.term > 0 {
      ChanStaysCalm(f.term, f.wA, f.hA, fr.a, bound, wMax);
      if !mono {
        ChanStaysCalm(f.term, f.wB, f.hB, fr.b, bound, wMax);
      }
    } else {
      CrossStaysCalm(f, fr, bound, wMax);
    }
  }

  lemma CrossStaysCalm(f: Filter, fr: Frame, bound: nat, wMax: nat)
    requires WellFormed(f) && fr.Stereo? && f.term == -2
    requires Calm(f, bound, wMax) && wMax + 2 < TWO15 && Safe(f.term, bound, wMax)
    requires FrameUpTo(fr, bound)
    ensures FitsFrame(f, fr)
    ensures var (g, out) := EncFrame(f, fr);
            Calm(g, bound, wMax + 2) && FrameUpTo(out, Grown(f.term, bound, wMax))
  {
    hide ApplyI, Safe, Product;
    assert 4 * bound < TWO31 && Grown(-2, bound, wMax) < TWO31 by { SafeParts(-2, bound, wMax); }
    ProductFits(-2, f.wA, fr.b, bound, wMax);
    ProductFits(-2, f.wB, f.hB[0], bound, wMax);
  }

  // ---------------------------------------------------------------- one pass, all passes

  lemma ProductMono(term: int, bound: nat, bound': nat, w: nat, w': nat)
    requires bound <= bound' && w <= w'
    ensures Product(term, bound, w) <= Product(term, bound', w') && Grown(term, bound, w) <= Grown(term, bound', w')
  {
    MulUp(Reach(term, bound), Reach(term, bound'), Cap(term, w));
    MulUp(Cap(term, w), Cap(term, w'), Reach(term, bound'));
    Commute(Cap(term, w), Reach(term, bound'));
    Commute(Cap(term, w'), Reach(term, bound'));
  }

  lemma SafeMono(term: int, bound: nat, bound': nat, w: nat, w': nat)
    requires Safe(term, bound', w') && bound <= bound' && w <= w'
    ensures Safe(term, bound, w) && Grown(term, bound, w) <= Grown(term, bound', w')
  {
    hide Product, Grown;
    ProductMono(term, bound, bound', w, w');
  }

  /** A pass that starts with weights up to w0 stays exact over n samples if weights up to w0 + 2 * n are safe. */
  lemma {:induction false} PassStaysCalm(f: Filter, mono: bool, frames: seq<Frame>, bound: nat, w0: nat)
    requires Suits(f, mono, frames) && Supported(f.term, mono)
    requires Calm(f, bound, w0) && w0 + 2 * |frames| < TWO15
    requires Safe(f.term, bound, w0 + 2 * |frames|) && FramesUpTo(frames, bound)
    ensures FitsPass(f, mono, frames)
    ensures var (g, out) := EncPass(f, mono, frames);
            Calm(g, bound, w0 + 2 * |frames|) && FramesUpTo(out, Grown(f.term, bound, w0 + 2 * |frames|))
    decreases |frames|
  {
    hide EncFrame, FitsFrame, Calm, Safe, FrameUpTo, Grown;
    if frames == [] {
    } else {
      var n := |frames| - 1;
      var w := w0 + 2 * n;
      SafeMono(f.term, bound, bound, w, w + 2);
      PassStaysCalm(f, mono, frames[..n], bound, w0);
      var (g, out) := EncPass(f, mono, frames[..n]);
      FrameStaysCalm(g, frames[n], mono, bound, w);
      UpToGrows(out, EncFrame(g, frames[n]).1, Grown(f.term, bound, w), Grown(f.term, bound, w + 2));
    }
  }

  lemma UpToGrows(out: seq<Frame>, o: Frame, bound: nat, bound': nat)
    requires FramesUpTo(out, bound) && FrameUpTo(o, bound) && bound <= bound'
    ensures FramesUpTo(out + [o], bound')
  {
    var all := out + [o];
    forall i | 0 <= i < |all|
      ensures FrameUpTo(all[i], bound')
    {
      assert i < |out| ==> all[i] == out[i];
    }
  }

  /** How large samples can get by pass i. */
  function Level(terms: seq<int>, i: nat, bound: nat, w: nat): nat
    requires i <= |terms|
  {
    if i == 0 then bound else Grown(terms[i - 1], Level(terms, i - 1, bound, w), w)
  }

  /** Every pass is safe at the level it sees. */
  predicate SafeLevels(terms: seq<int>, bound: nat, w: nat) {
    forall i :: 0 <= i < |terms| ==> Safe(terms[i], Level(terms, i, bound, w), w)
  }

  lemma {:induction false} LevelLocal(terms: seq<int>, n: nat, i: nat, bound: nat, w: nat)
    requires i <= n <= |terms|
    ensures Level(terms[..n], i, bound, w) == Level(terms, i, bound, w)
  {
    hide Grown;
    if i == 0 {
    } else {
      LevelLocal(terms, n, i - 1, bound, w);
    }
  }

  /** Smaller samples and weights stay smaller. */
  lemma {:induction false} LevelMono(terms: seq<int>, i: nat, bound: nat, bound': nat, w: nat, w': nat)
    requires i <= |terms| && bound <= bound' && w <= w'
    ensures Level(terms, i, bound, w) <= Level(terms, i, bound', w')
  {
    hide Grown;
    if i == 0 {
    } else {
      LevelMono(terms, i - 1, bound, bound', w, w');
      ProductMono(terms[i - 1], Level(terms, i - 1, bound, w), Level(terms, i - 1, bound', w'), w, w');
    }
  }

  /** And safe. */
  lemma SafeLevelsMono(terms: seq<int>, bound: nat, bound': nat, w: nat, w': nat)
    requires SafeLevels(terms, bound', w') && bound <= bound' && w <= w'
    ensures SafeLevels(terms, bound, w)
  {
    hide Safe;
    forall i | 0 <= i < |terms|
      ensures Safe(terms[i], Level(terms, i, bound, w), w)
    {
      LevelMono(terms, i, bound, bound', w, w');
      SafeMono(terms[i], Level(terms, i, bound, w), Level(terms, i, bound', w'), w, w');
    }
  }

  function Terms(fs: seq<Filter>): (r: seq<int>)
    ensures |r| == |fs|
  {
    seq(|fs|, i requires 0 <= i < |fs| => fs[i].term)
  }

  predicate CalmLevels(fs: seq<Filter>, bound: nat, w0: nat, w: nat) {
    forall i :: 0 <= i < |fs| ==> Calm(fs[i], Level(Terms(fs), i, bound, w), w0)
  }

  lemma {:induction false} AllStayCalm(fs: seq<Filter>, mono: bool, frames: seq<Frame>, bound: nat, w0: nat)
    requires AllSuit(fs, mono, frames) && forall i :: 0 <= i < |fs| ==> Supported(fs[i].term, mono)
    requires w0 + 2 * |frames| < TWO15 && FramesUpTo(frames, bound)
    requires CalmLevels(fs, bound, w0, w0 + 2 * |frames|) && SafeLevels(Terms(fs), bound, w0 + 2 * |frames|)
    ensures FitsAll(fs, mono, frames)
    ensures FramesUpTo(EncAll(fs, mono, frames).1, Level(Terms(fs), |fs|, bound, w0 + 2 * |frames|))
    decreases |fs|
  {
    hide EncPass, FitsPass, Calm, Safe, Supported, WellFormed, FramesUpTo, Grown, SafeLevels, CalmLevels;
    var w := w0 + 2 * |frames|;
    if fs == [] {
    } else {
      var n := |fs| - 1;
      FewerLevels(fs, bound, w0, w);
      AllStayCalm(fs[..n], mono, frames, bound, w0);
      PassStaysCalm(fs[n], mono, EncAll(fs[..n], mono, frames).1, Level(Terms(fs), n, bound, w), w0);
    }
  }

  /** What holds of all passes holds of all but the last, and of the last. */
  lemma FewerLevels(fs: seq<Filter>, bound: nat, w0: nat, w: nat)
    requires fs != [] && CalmLevels(fs, bound, w0, w) && SafeLevels(Terms(fs), bound, w)
    ensures var n := |fs| - 1;
            && CalmLevels(fs[..n], bound, w0, w) && SafeLevels(Terms(fs[..n]), bound, w)
            && Calm(fs[n], Level(Terms(fs), n, bound, w), w0) && Safe(fs[n].term, Level(Terms(fs), n, bound, w), w)
            && Level(Terms(fs[..n]), n, bound, w) == Level(Terms(fs), n, bound, w)
  {
    hide Calm, Safe, Level;
    var n := |fs| - 1;
    assert Terms(fs[..n]) == Terms(fs)[..n];
    assert Terms(fs)[n] == fs[n].term;
    forall i | 0 <= i <= n
      ensures Level(Terms(fs[..n]), i, bound, w) == Level(Terms(fs), i, bound, w)
    {
      LevelLocal(Terms(fs), n, i, bound, w);
    }
  }

  // ---------------------------------------------------------------- one block

  /** How large the samples the passes see can be. */
  function Base(joint: bool, bound: nat): nat {
    if joint then 2 * bound else bound
  }

  function PassTerms(ps: seq<DecorrPass>): (r: seq<int>)
    ensures |r| == |ps|
  {
    seq(|ps|, i requires 0 <= i < |ps| => ps[i].term)
  }

  /** A block of n samples up to `bound`, whose first pass remembers samples of that size, and passes that start with
      weights up to w0. */
  predicate SmallBlock(ps: seq<DecorrPass>, mono: bool, joint: bool, n: nat, bound: nat, w0: nat)
    requires AllValid(ps)
  {
    && w0 <= 1024 && w0 + 2 * n < TWO15 && StartsCalm(ps, mono, Base(joint, bound), w0)
    && SafeLevels(PassTerms(ps), Base(joint, bound), w0 + 2 * n)
  }

  predicate StartsCalm(ps: seq<DecorrPass>, mono: bool, base: nat, w0: nat)
    requires AllValid(ps)
  {
    var qs := Settled(ps, mono);
    && (forall i :: 0 <= i < |qs| ==> Abs(qs[i].weightA) <= w0 && Abs(qs[i].weightB) <= w0)
    && (qs != [] ==> AllUpTo(qs[0].samplesA, base) && AllUpTo(qs[0].samplesB, base))
  }

  lemma JoinedUpTo(joint: bool, frames: seq<Frame>, bound: nat)
    requires FramesUpTo(frames, bound) && 4 * bound < TWO31
    ensures FramesUpTo(Joined(joint, frames), Base(joint, bound))
  {
    forall i | 0 <= i < |frames|
      ensures FrameUpTo(Joined(joint, frames)[i], Base(joint, bound))
    {
      assert FrameUpTo(frames[i], bound);
      JointUpTo(frames[i], bound);
    }
  }

  lemma JointUpTo(fr: Frame, bound: nat)
    requires FrameUpTo(fr, bound) && 4 * bound < TWO31
    ensures FrameUpTo(ToJoint(fr), 2 * bound)
  {
  }

  lemma LoadUpTo(p: DecorrPass, bound: nat, w: nat)
    requires ValidPass(p) && AllUpTo(p.samplesA, bound) && AllUpTo(p.samplesB, bound)
    requires Abs(p.weightA) <= w <= 1024 && Abs(p.weightB) <= w
    ensures Calm(Load(p, 0), bound, w)
  {
    hide Hist;
    HistUpTo(p.term, p.samplesA, bound);
    HistUpTo(p.term, p.samplesB, bound);
  }

  lemma HistUpTo(term: int, s: seq<int32>, bound: nat)
    requires ValidTerm(term) && |s| == MAX_TERM && AllUpTo(s, bound)
    ensures AllUpTo(Hist(term, 0, s), bound)
  {
    if Delayed(term) {
      forall i | 0 <= i < MAX_TERM
        ensures Abs(Hist(term, 0, s)[i]) <= bound
      {
        assert Hist(term, 0, s)[i] == s[Slot(0 + term + i)];
      }
    }
  }

  lemma {:induction false} LevelGrows(terms: seq<int>, i: nat, bound: nat, w: nat)
    requires i <= |terms|
    ensures Level(terms, i, bound, w) >= bound
    decreases i
  {
    hide Product;
    if i == 0 {
    } else {
      LevelGrows(terms, i - 1, bound, w);
    }
  }

  lemma SettledIsCalm(ps: seq<DecorrPass>, mono: bool, base: nat, w0: nat, w: nat, i: nat)
    requires AllValid(ps) && i < |ps| && StartsCalm(ps, mono, base, w0) && w0 <= 1024
    ensures Calm(Load(Settled(ps, mono)[i], 0), Level(PassTerms(ps), i, base, w), w0)
  {
    hide Load, Level, Calm, StoreWeight, RestoreWeight, CoarseSlots;
    var p := Settled(ps, mono)[i];
    var level := Level(PassTerms(ps), i, base, w);
    LevelGrows(PassTerms(ps), i, base, w);
    assert AllUpTo(p.samplesA, level) && AllUpTo(p.samplesB, level);
    LoadUpTo(p, level, w0);
  }

  /** A check before packing: samples up to a bound, few enough of them, and the levels they can reach safe. Such
      a block is packed without loss. */
  lemma SmallBlocksArePackable(ps: seq<DecorrPass>, c0: Entropy, c1: Entropy, mono: bool, joint: bool,
                               frames: seq<Frame>, bound: nat, w0: nat)
    requires AllValid(ps) && |ps| <= MAX_NTERMS
    requires forall i :: 0 <= i < |ps| ==> Supported(ps[i].term, mono) && ps[i].delta == 2
    requires mono ==> c1 == ZERO_ENTROPY
    requires frames != [] && AllFrames(mono, frames) && FramesUpTo(frames, bound)
    requires 4 * bound < TWO31 && SmallBlock(ps, mono, joint, |frames|, bound, w0)
    ensures Packable(ps, c0, c1, mono, joint, frames)
  {
    hide Supported, Calm, Safe, Level, FramesUpTo, Settled, FitsAll, Load, ToJoint, StartsCalm, SafeLevels;
    var qs := Settled(ps, mono);
    var fs := Loads(qs, 0);
    var js := Joined(joint, frames);
    forall i | 0 <= i < |ps|
      ensures Calm(fs[i], Level(PassTerms(ps), i, Base(joint, bound), w0 + 2 * |frames|), w0)
      ensures fs[i].term == ps[i].term
    {
      SettledIsCalm(ps, mono, Base(joint, bound), w0, w0 + 2 * |frames|, i);
      SettledKeepsTerm(ps, mono, i);
    }
    assert Terms(fs) == PassTerms(ps);
    JoinedUpTo(joint, frames, bound);
    SuitedByTerms(fs, mono, js);
    AllStayCalm(fs, mono, js, Base(joint, bound), w0);
  }

  lemma SuitedByTerms(fs: seq<Filter>, mono: bool, frames: seq<Frame>)
    requires forall i :: 0 <= i < |fs| ==> WellFormed(fs[i]) && Supported(fs[i].term, mono)
    requires AllFrames(mono, frames)
    ensures AllSuit(fs, mono, frames)
  {
  }

  // ---------------------------------------------------------------- what that means for real settings

  const FAST: seq<int> := [17, 17]
  const DEFAULT: seq<int> := [18, 18, 2, 3, -2]
  const HIGH: seq<int> := [18, 18, 2, 3, -2, 18, 2, 4, 7, 5, 3, 6]

  /** Full-scale 16-bit sound in default mode is safe for 135 samples with any stored weights and no joint stereo, and
      for 494 samples, joint or not, from weights of zero, as in the first block of a stream. */
  lemma DefaultModeIsSafe(n: nat)
    ensures n <= 135 ==> SafeLevels(DEFAULT, Base(false, 32768), 1024 + 2 * n)
    ensures n <= 494 ==> SafeLevels(DEFAULT, Base(true, 32768), 0 + 2 * n)
  {
    hide SafeLevels;
    if n <= 135 {
      DefaultAt1294();
      SafeLevelsMono(DEFAULT, 32768, 32768, 1024 + 2 * n, 1294);
    }
    if n <= 494 {
      DefaultAt988();
      SafeLevelsMono(DEFAULT, 65536, 65536, 2 * n, 988);
    }
  }

  lemma DefaultAt1294()
    ensures SafeLevels(DEFAULT, 32768, 1294)
  {
    var terms := DEFAULT;
    assert Level(terms, 0, 32768, 1294) == 32768;
    assert Level(terms, 1, 32768, 1294) == 115585;
    assert Level(terms, 2, 32768, 1294) == 407709;
    assert Level(terms, 3, 32768, 1294) == 922920;
    assert Level(terms, 4, 32768, 1294) == 2089189;
  }

  lemma DefaultAt988()
    ensures SafeLevels(DEFAULT, 65536, 988)
  {
    var terms := DEFAULT;
    assert Level(terms, 0, 65536, 988) == 65536;
    assert Level(terms, 1, 65536, 988) == 192001;
    assert Level(terms, 2, 65536, 988) == 562503;
    assert Level(terms, 3, 65536, 988) == 1105231;
    assert Level(terms, 4, 65536, 988) == 2171607;
  }

  /** 16-bit sound in fast mode is safe for 371 samples, 8-bit sound for 13,000, joint or not and with any weights. */
  lemma FastModeIsSafe(n: nat)
    ensures n <= 371 ==> SafeLevels(FAST, Base(true, 32768), 1024 + 2 * n)
    ensures n <= 13000 ==> SafeLevels(FAST, Base(true, 128), 1024 + 2 * n)
  {
    hide SafeLevels;
    if n <= 371 {
      FastAt(65536, 1766);
      SafeLevelsMono(FAST, 65536, 65536, 1024 + 2 * n, 1766);
    }
    if n <= 13000 {
      FastAt(256, 27024);
      SafeLevelsMono(FAST, 256, 256, 1024 + 2 * n, 27024);
    }
  }

  lemma FastAt(bound: nat, w: nat)
    requires (bound == 65536 && w == 1766) || (bound == 256 && w == 27024)
    ensures SafeLevels(FAST, bound, w)
  {
    assert Level(FAST, 0, bound, w) == bound;
    assert Level(FAST, 1, bound, w) == bound + 3 * bound * w / 1024 + 1;
  }

  /** Where the check says nothing: with weights that can be full, no block of 16-bit sound passes it in high mode, nor
      in joint stereo in default mode. */
  lemma WhereNothingIsSafe(n: nat)
    ensures !SafeLevels(HIGH, 32767, 1024 + 2 * n)
    ensures !SafeLevels(DEFAULT, 2 * 32767, 1024 + 2 * n)
  {
    hide SafeLevels;
    HighIsUnsafe();
    DefaultIsUnsafe();
    if SafeLevels(HIGH, 32767, 1024 + 2 * n) {
      SafeLevelsMono(HIGH, 32767, 32767, 1024, 1024 + 2 * n);
    }
    if SafeLevels(DEFAULT, 2 * 32767, 1024 + 2 * n) {
      SafeLevelsMono(DEFAULT, 65534, 65534, 1024, 1024 + 2 * n);
    }
  }

  lemma HighIsUnsafe()
    ensures !SafeLevels(HIGH, 32767, 1024)
  {
    var terms := HIGH;
    assert Level(terms, 0, 32767, 1024) == 32767;
    assert Level(terms, 1, 32767, 1024) == 98302;
    assert Level(terms, 2, 32767, 1024) == 294907;
    assert Level(terms, 3, 32767, 1024) == 589815;
    assert Level(terms, 4, 32767, 1024) == 1179631;
    assert Level(terms, 5, 32767, 1024) == 2359263;
  }

  lemma DefaultIsUnsafe()
    ensures !SafeLevels(DEFAULT, 65534, 1024)
  {
    var terms := DEFAULT;
    assert Level(terms, 0, 65534, 1024) == 65534;
    assert Level(terms, 1, 65534, 1024) == 196603;
    assert Level(terms, 2, 65534, 1024) == 589810;
    assert Level(terms, 3, 65534, 1024) == 1179621;
    assert Level(terms, 4, 65534, 1024) == 2359243;
  }
}
