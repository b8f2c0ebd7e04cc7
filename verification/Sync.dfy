/** What the decoder rebuilds from a block's metadata mirrors what the encoder went on with after writing it,
    although weights, history samples and medians are stored lossily. */
module Sync {
  import opened Machine
  import opened WordSpec
  import opened DecorrSpec
  import opened DecorrInverse
  import opened DecorrPasses
  import opened Metadata
  import opened Chunks

  predicate AllValid(ps: seq<DecorrPass>) {
    forall i :: 0 <= i < |ps| ==> ValidPass(ps[i])
  }

  /** The filters a pass table stands for, the circular histories starting at slot m. */
  function Loads(ps: seq<DecorrPass>, m: nat): (fs: seq<Filter>)
    requires AllValid(ps)
    ensures |fs| == |ps|
  {
    seq(|ps|, i requires 0 <= i < |ps| => Load(ps[i], m))
  }

  lemma LoadsSnoc(ps: seq<DecorrPass>, m: nat, p: DecorrPass)
    requires AllValid(ps) && ValidPass(p)
    ensures AllValid(ps + [p]) && Loads(ps + [p], m) == Loads(ps, m) + [Load(p, m)]
  {
    hide Load, ValidPass;
  }

  // ---------------------------------------------------------------- both sides

  /** The encoder's passes after `write_decorr_weights` and `write_decorr_samples`. */
  function Settled(ps: seq<DecorrPass>, mono: bool): (qs: seq<DecorrPass>)
    requires AllValid(ps)
    ensures |qs| == |ps| && AllValid(qs)
  {
    hide RestoreWeight, StoreWeight;
    SamplesSettled(WeightsSettled(ps, mono), mono)
  }

  /** The chunks that carry the passes and the medians. */
  function StateChunks(ps: seq<DecorrPass>, c0: Entropy, c1: Entropy, mono: bool): seq<byte>
    requires AllValid(ps)
  {
    ChunkBytes(ID_DECORR_TERMS, TermBytes(ps))
    + ChunkBytes(ID_DECORR_WEIGHTS, WeightsWritten(ps, mono))
    + ChunkBytes(ID_DECORR_SAMPLES, SamplesWritten(WeightsSettled(ps, mono), mono))
    + ChunkBytes(ID_ENTROPY_VARS, EntropyWritten(c0, c1, mono))
  }

  /** A decoder pass with the terms and weights of the encoder's p. */
  function Weighted(p: DecorrPass, mono: bool): (q: DecorrPass)
    requires ValidPass(p)
    ensures ValidPass(q) && q.term == p.term && q.delta == p.delta
  {
    hide RestoreWeight, StoreWeight;
    var w := WeightSettled(p, mono);
    CLEARED.(term := p.term, delta := p.delta, weightA := w.weightA, weightB := if mono then 0 else w.weightB)
  }

  /** The decoder's version of the encoder's pass i: history for the first pass only. */
  function RebuiltPass(ps: seq<DecorrPass>, mono: bool, i: nat): (q: DecorrPass)
    requires AllValid(ps) && i < |ps|
    ensures ValidPass(q) && q.term == ps[i].term && q.delta == ps[i].delta
  {
    var q := Weighted(ps[i], mono);
    if i == 0 then SampleRead(q, mono, LogBytes(ValuesOf(WeightSettled(ps[0], mono), mono)), 0) else q
  }

  /** The decoder's passes after those chunks, in the opposite order. */
  function RebuiltPasses(ps: seq<DecorrPass>, mono: bool): (qs: seq<DecorrPass>)
    requires AllValid(ps)
    ensures |qs| == |ps| && AllValid(qs)
  {
    hide RebuiltPass;
    var n := |ps|;
    seq(n, j requires 0 <= j < n => RebuiltPass(ps, mono, n - 1 - j))
  }

  lemma TableIsValid(qs: seq<DecorrPass>)
    requires AllValid(qs) && |qs| <= MAX_NTERMS
    ensures (qs + Spare(|qs|))[..|qs|] == qs
    ensures forall m0: Entropy, m1: Entropy :: ValidSetup(Setup(qs + Spare(|qs|), |qs|, m0, m1))
  {
    var all := qs + Spare(|qs|);
    assert Shaped(all);
  }

  /** What the decoder has after those chunks. */
  function Rebuilt(ps: seq<DecorrPass>, c0: Entropy, c1: Entropy, mono: bool): (d: Setup)
    requires AllValid(ps) && |ps| <= MAX_NTERMS
    ensures ValidSetup(d) && d.numTerms == |ps| && d.passes[..|ps|] == RebuiltPasses(ps, mono)
  {
    hide RebuiltPasses, EntropyRead, EntropyWritten, ValidSetup, AllValid;
    TableIsValid(RebuiltPasses(ps, mono));
    var (m0, m1) := EntropyRead(EntropyWritten(c0, c1, mono), mono, ZERO_ENTROPY);
    Setup(RebuiltPasses(ps, mono) + Spare(|ps|), |ps|, m0, m1)
  }

  // ---------------------------------------------------------------- one stored sample

  lemma {:induction false} LogByteAt(values: seq<int32>, k: nat)
    requires k < |values|
    ensures SampleAt(LogBytes(values), 2 * k) == Coarse(values[k])
    decreases |values|
  {
    hide Exp2s, Log2s, WordBytes, ShortOf;
    var n := |values| - 1;
    var data := LogBytes(values);
    if k < n {
      LogByteAt(values[..n], k);
      assert data[..2 * n] == LogBytes(values[..n]);
      assert data[2 * k] == data[..2 * n][2 * k] && data[2 * k + 1] == data[..2 * n][2 * k + 1];
    } else {
      var word := WordBytes(Log2s(values[n]));
      WordComesBack(Log2s(values[n]));
      assert data == LogBytes(values[..n]) + word;
      assert data[2 * n] == word[0] && data[2 * n + 1] == word[1];
    }
  }

  lemma {:induction false} FirstSlotAt(sA: seq<int32>, sB: seq<int32>, mono: bool, k: nat, i: nat)
    requires i < k <= |sA| == |sB|
    ensures mono ==> FirstSlots(sA, sB, mono, k)[i] == sA[i]
    ensures !mono ==> FirstSlots(sA, sB, mono, k)[2 * i] == sA[i] && FirstSlots(sA, sB, mono, k)[2 * i + 1] == sB[i]
    decreases k
  {
    if i < k - 1 {
      FirstSlotAt(sA, sB, mono, k - 1, i);
    }
  }

  // ---------------------------------------------------------------- one pass

  /** The slots a later step can read. */
  predicate LiveSlots(term: int, s: seq<int32>, r: seq<int32>)
    requires ValidTerm(term) && |s| == |r| == MAX_TERM
  {
    forall i :: 0 <= i < Covered(term) ==> s[i] == r[i]
  }

  lemma LiveSlotsLive(term: int, s: seq<int32>, r: seq<int32>)
    requires ValidTerm(term) && |s| == |r| == MAX_TERM && LiveSlots(term, s, r)
    ensures Live(term, Hist(term, 0, s)) == Live(term, Hist(term, 0, r))
  {
    if Delayed(term) {
      var h, g := Hist(term, 0, s), Hist(term, 0, r);
      forall i | MAX_TERM - term <= i < MAX_TERM
        ensures h[i] == g[i]
      {
        assert Slot(0 + term + i) == i - (MAX_TERM - term);
      }
    }
  }

  lemma FirstPassLive(p: DecorrPass, q: DecorrPass, mono: bool)
    requires ValidPass(p) && q.term == p.term
    ensures var r := SampleRead(q, mono, LogBytes(ValuesOf(p, mono)), 0);
            var e := SampleSettled(p, mono);
            && LiveSlots(p.term, e.samplesA, r.samplesA)
            && (!mono ==> LiveSlots(p.term, e.samplesB, r.samplesB))
  {
    hide Coarse, SampleAt, LogBytes;
    var values := ValuesOf(p, mono);
    var data := LogBytes(values);
    assert forall k :: 0 <= k < |values| ==> SampleAt(data, 2 * k) == Coarse(values[k]) by {
      forall k | 0 <= k < |values|
        ensures SampleAt(data, 2 * k) == Coarse(values[k])
      {
        LogByteAt(values, k);
      }
    }
    var r := SampleRead(q, mono, data, 0);
    var e := SampleSettled(p, mono);
    if Delayed(p.term) {
      forall i | 0 <= i < p.term
        ensures e.samplesA[i] == r.samplesA[i] && (!mono ==> e.samplesB[i] == r.samplesB[i])
      {
        FirstSlotAt(p.samplesA, p.samplesB, mono, p.term, i);
        if mono {
          assert SampleAt(data, 2 * i) == Coarse(values[i]);
        } else {
          assert SampleAt(data, 2 * (2 * i)) == Coarse(values[2 * i]);
          assert SampleAt(data, 2 * (2 * i + 1)) == Coarse(values[2 * i + 1]);
        }
      }
    } else {
      FewSlots(values, data);
    }
  }

  lemma FewSlots(values: seq<int32>, data: seq<byte>)
    requires forall k :: 0 <= k < |values| ==> SampleAt(data, 2 * k) == Coarse(values[k])
    ensures |values| > 0 ==> SampleAt(data, 0) == Coarse(values[0])
    ensures |values| > 1 ==> SampleAt(data, 2) == Coarse(values[1])
    ensures |values| > 2 ==> SampleAt(data, 4) == Coarse(values[2])
    ensures |values| > 3 ==> SampleAt(data, 6) == Coarse(values[3])
  {
    hide Coarse, SampleAt;
    assert |values| > 0 ==> SampleAt(data, 2 * 0) == Coarse(values[0]);
    assert |values| > 1 ==> SampleAt(data, 2 * 1) == Coarse(values[1]);
    assert |values| > 2 ==> SampleAt(data, 2 * 2) == Coarse(values[2]);
    assert |values| > 3 ==> SampleAt(data, 2 * 3) == Coarse(values[3]);
  }

  lemma PassAgrees(e: DecorrPass, d: DecorrPass, mono: bool)
    requires ValidPass(e) && ValidPass(d) && e.term == d.term && e.delta == d.delta
    requires e.weightA == d.weightA && (!mono ==> e.weightB == d.weightB)
    requires LiveSlots(e.term, e.samplesA, d.samplesA) && (!mono ==> LiveSlots(e.term, e.samplesB, d.samplesB))
    ensures Agree(Load(e, 0), Load(d, 0), mono)
  {
    hide Live, Hist, LiveSlots;
    LiveSlotsLive(e.term, e.samplesA, d.samplesA);
    if !mono {
      LiveSlotsLive(e.term, e.samplesB, d.samplesB);
    }
  }

  // ---------------------------------------------------------------- all passes

  lemma RebuiltMirrors(ps: seq<DecorrPass>, mono: bool)
    requires AllValid(ps)
    ensures Mirror(Loads(Settled(ps, mono), 0), Loads(RebuiltPasses(ps, mono), 0), mono)
  {
    hide RebuiltPass, Settled, Agree, Load;
    var n := |ps|;
    var es, ds := Settled(ps, mono), RebuiltPasses(ps, mono);
    var fs, gs := Loads(es, 0), Loads(ds, 0);
    forall i | 0 <= i < n
      ensures WellFormed(fs[i]) && WellFormed(gs[n - 1 - i]) && Agree(fs[i], gs[n - 1 - i], mono)
    {
      OnePassAgrees(ps, mono, i);
      assert ds[n - 1 - i] == RebuiltPass(ps, mono, i);
    }
  }

  lemma OnePassAgrees(ps: seq<DecorrPass>, mono: bool, i: nat)
    requires AllValid(ps) && i < |ps|
    ensures Agree(Load(Settled(ps, mono)[i], 0), Load(RebuiltPass(ps, mono, i), 0), mono)
  {
    hide RestoreWeight, StoreWeight, SampleRead, LogBytes, Agree, Load, LiveSlots;
    var e := Settled(ps, mono)[i];
    var w := WeightSettled(ps[i], mono);
    if i == 0 {
      FirstPassLive(w, Weighted(ps[0], mono), mono);
    } else {
      assert e == Silenced(w);
      SameIsLive(e.term, e.samplesA);
    }
    PassAgrees(e, RebuiltPass(ps, mono, i), mono);
  }

  lemma SameIsLive(term: int, s: seq<int32>)
    requires ValidTerm(term) && |s| == MAX_TERM
    ensures LiveSlots(term, s, s)
  {
  }

  // ---------------------------------------------------------------- the chunks scanned

  /** A decoder pass with the term of the encoder's p. */
  function Termed(p: DecorrPass): DecorrPass {
    CLEARED.(term := p.term, delta := p.delta)
  }

  function Reversed(ps: seq<DecorrPass>, f: DecorrPass -> DecorrPass): (qs: seq<DecorrPass>)
    ensures |qs| == |ps|
    ensures forall j :: 0 <= j < |ps| ==> qs[j] == f(ps[|ps| - 1 - j])
  {
    var n := |ps|;
    seq(n, j requires 0 <= j < n => f(ps[n - 1 - j]))
  }

  predicate SmallDeltas(ps: seq<DecorrPass>) {
    forall i :: 0 <= i < |ps| ==> ps[i].delta <= 7
  }

  lemma TermsArrive(ps: seq<DecorrPass>)
    requires AllValid(ps) && SmallDeltas(ps) && |ps| <= MAX_NTERMS
    ensures TermsOk(TermBytes(ps))
    ensures TermsSet(FRESH.passes, TermBytes(ps)) == Reversed(ps, Termed) + Spare(|ps|)
  {
    hide TermByte, TermOf, DeltaOf;
    var n := |ps|;
    forall i | 0 <= i < n
      ensures TermOf(TermBytes(ps)[i]) == ps[i].term && DeltaOf(TermBytes(ps)[i]) == ps[i].delta
    {
      TermComesBack(ps[i]);
    }
    var qs, rs := TermsSet(FRESH.passes, TermBytes(ps)), Reversed(ps, Termed) + Spare(n);
    forall j | 0 <= j < MAX_NTERMS
      ensures qs[j] == rs[j]
    {
      if j < n {
        assert DeltaOf(TermBytes(ps)[n - 1 - j]) == ps[n - 1 - j].delta;
      }
    }
  }

  function WeightedAs(mono: bool): DecorrPass -> DecorrPass {
    p => if ValidPass(p) then Weighted(p, mono) else p
  }

  lemma WeightsArrive(ps: seq<DecorrPass>, mono: bool)
    requires AllValid(ps)
    ensures WeightCount(WeightsWritten(ps, mono), mono) == |ps|
    ensures WeightsRead(Reversed(ps, Termed), mono, WeightsWritten(ps, mono)) == Reversed(ps, WeightedAs(mono))
  {
    hide WeightRead, WeightsWritten, WeightsRead, Termed, Reversed, WeightedAs;
    var qs := WeightsRead(Reversed(ps, Termed), mono, WeightsWritten(ps, mono));
    forall j | 0 <= j < |ps|
      ensures qs[j] == Reversed(ps, WeightedAs(mono))[j]
    {
      ReadAt(ps, mono, j);
    }
  }

  lemma ReadAt(ps: seq<DecorrPass>, mono: bool, j: nat)
    requires AllValid(ps) && j < |ps|
    ensures WeightsRead(Reversed(ps, Termed), mono, WeightsWritten(ps, mono))[j] == Reversed(ps, WeightedAs(mono))[j]
  {
    hide Weighted, WeightRead, WeightsRead, WeightsWritten, Termed, Reversed, ValidPass;
    var ts := Reversed(ps, Termed);
    var p := ps[|ps| - 1 - j];
    WeightArrives(ps, mono, |ps| - 1 - j);
    WeightsReadAt(ts, mono, WeightsWritten(ps, mono), j);
    assert ts[j] == Termed(p);
    assert Reversed(ps, WeightedAs(mono))[j] == WeightedAs(mono)(p) == Weighted(p, mono);
  }

  lemma WeightArrives(ps: seq<DecorrPass>, mono: bool, i: nat)
    requires AllValid(ps) && i < |ps|
    ensures WeightRead(Termed(ps[i]), mono, WeightsWritten(ps, mono), i) == Weighted(ps[i], mono)
  {
    hide RestoreWeight, StoreWeight, WeightsWritten, CharByte, ByteChar;
    WeightByteAt(ps, mono, i);
    CharComesBack(StoreWeight(ps[i].weightA));
    CharComesBack(StoreWeight(ps[i].weightB));
  }

  lemma SamplesArrive(ps: seq<DecorrPass>, mono: bool)
    requires AllValid(ps)
    ensures var data := SamplesWritten(WeightsSettled(ps, mono), mono);
            && |data| <= 32
            && AllValid(Reversed(ps, WeightedAs(mono)))
            && SamplesRead(Reversed(ps, WeightedAs(mono)), mono, data, 0) == (RebuiltPasses(ps, mono), |data|)
  {
    hide SampleRead, LogBytes, ValuesOf, WeightSettled, Weighted, RebuiltPasses;
    var qs := Reversed(ps, WeightedAs(mono));
    var n := |ps|;
    if n > 0 {
      SettledTerm(ps[0], mono);
      var data := LogBytes(ValuesOf(WeightSettled(ps[0], mono), mono));
      assert |data| == 2 * SampleCount(ps[0].term, mono) > 0;
      OthersArrive(ps, mono, data);
      var rs := SamplesRead(qs[..n - 1], mono, data, |data|).0;
      var last := SampleRead(qs[n - 1], mono, data, 0);
      assert SamplesRead(qs, mono, data, 0) == (rs + [last], |data|);
      RebuiltLast(ps, mono);
      assert RebuiltPasses(ps, mono) == rs + [last];
    } else {
      assert RebuiltPasses(ps, mono) == [];
    }
  }

  lemma RebuiltLast(ps: seq<DecorrPass>, mono: bool)
    requires AllValid(ps) && ps != []
    ensures RebuiltPasses(ps, mono)[|ps| - 1]
            == SampleRead(Weighted(ps[0], mono), mono, LogBytes(ValuesOf(WeightSettled(ps[0], mono), mono)), 0)
  {
    hide SampleRead, LogBytes, ValuesOf, WeightSettled, Weighted;
    assert RebuiltPasses(ps, mono)[|ps| - 1] == RebuiltPass(ps, mono, 0);
  }

  /** The passes behind the first get no history. */
  lemma OthersArrive(ps: seq<DecorrPass>, mono: bool, data: seq<byte>)
    requires AllValid(ps) && ps != [] && AllValid(Reversed(ps, WeightedAs(mono)))
    ensures var n := |ps| - 1;
            SamplesRead(Reversed(ps, WeightedAs(mono))[..n], mono, data, |data|) == (RebuiltPasses(ps, mono)[..n], |data|)
  {
    hide SampleRead, SamplesRead, RebuiltPasses, Reversed, WeightedAs, Silenced, ValidTerm;
    var n := |ps| - 1;
    var qs := Reversed(ps, WeightedAs(mono));
    NothingLeft(qs[..n], mono, data, |data|);
    var rs := SamplesRead(qs[..n], mono, data, |data|).0;
    forall j | 0 <= j < n
      ensures rs[j] == RebuiltPasses(ps, mono)[j]
    {
      assert rs[j] == Silenced(qs[..n][j]);
      OtherArrives(ps, mono, j);
    }
    assert rs == RebuiltPasses(ps, mono)[..n];
  }

  lemma OtherArrives(ps: seq<DecorrPass>, mono: bool, j: nat)
    requires AllValid(ps) && j < |ps| - 1
    ensures RebuiltPasses(ps, mono)[j] == Silenced(Reversed(ps, WeightedAs(mono))[j])
  {
    hide Weighted, Silenced, ValidPass, Reversed, SampleRead;
    var i := |ps| - 1 - j;
    WeightedSilent(ps[i], mono);
    assert RebuiltPasses(ps, mono)[j] == RebuiltPass(ps, mono, i) == Weighted(ps[i], mono);
    assert Reversed(ps, WeightedAs(mono))[j] == WeightedAs(mono)(ps[i]) == Weighted(ps[i], mono);
  }

  lemma WeightedSilent(p: DecorrPass, mono: bool)
    requires ValidPass(p)
    ensures Silenced(Weighted(p, mono)) == Weighted(p, mono)
  {
  }

  lemma SettledTerm(p: DecorrPass, mono: bool)
    ensures WeightSettled(p, mono).term == p.term
    ensures ValidPass(p) ==> ValidPass(WeightSettled(p, mono))
  {
  }

  /** Scanning the four chunks of a block leaves the decoder with the rebuilt passes and medians. */
  lemma StateScans(ps: seq<DecorrPass>, c0: Entropy, c1: Entropy, mono: bool, rest: seq<byte>)
    requires AllValid(ps) && SmallDeltas(ps) && |ps| <= MAX_NTERMS
    ensures ScanBlock(StateChunks(ps, c0, c1, mono) + rest, mono)
            == ScanChunks(rest, mono, Rebuilt(ps, c0, c1, mono))
  {
    hide ScanChunks, ChunkBytes, TermsOk, TermsSet, WeightsRead, SamplesRead, RebuiltPasses, EntropyRead,
         EntropyWritten, WeightsWritten, SamplesWritten, Reversed, WeightedAs, WeightsSettled;
    FreshIsValid();
    var n := |ps|;
    var t, w := TermBytes(ps), WeightsWritten(ps, mono);
    var s, m := SamplesWritten(WeightsSettled(ps, mono), mono), EntropyWritten(c0, c1, mono);
    var (m0, m1) := EntropyRead(m, mono, ZERO_ENTROPY);
    TermsArrive(ps);
    WeightsArrive(ps, mono);
    SamplesArrive(ps, mono);
    var a := Reversed(ps, Termed);
    var b := Reversed(ps, WeightedAs(mono));
    var c := RebuiltPasses(ps, mono);
    assert (a + Spare(n))[..n] == a && (a + Spare(n))[n..] == Spare(n);
    assert (b + Spare(n))[..n] == b && (b + Spare(n))[n..] == Spare(n);
    var d1 := Setup(a + Spare(n), n, ZERO_ENTROPY, ZERO_ENTROPY);
    var d2 := d1.(passes := b + Spare(n));
    var d3 := d1.(passes := c + Spare(n));
    var d4 := d3.(c0 := m0, c1 := m1);
    var r3 := ChunkBytes(ID_ENTROPY_VARS, m) + rest;
    var r2 := ChunkBytes(ID_DECORR_SAMPLES, s) + r3;
    var r1 := ChunkBytes(ID_DECORR_WEIGHTS, w) + r2;
    assert Process(FRESH, mono, ID_DECORR_TERMS, t) == Ok(d1);
    assert Process(d1, mono, ID_DECORR_WEIGHTS, w) == Ok(d2);
    assert Process(d2, mono, ID_DECORR_SAMPLES, s) == Ok(d3);
    assert Process(d3, mono, ID_ENTROPY_VARS, m) == Ok(d4);
    ScanOne(ID_DECORR_TERMS, t, r1, mono, FRESH);
    ScanOne(ID_DECORR_WEIGHTS, w, r2, mono, d1);
    ScanOne(ID_DECORR_SAMPLES, s, r3, mono, d2);
    ScanOne(ID_ENTROPY_VARS, m, rest, mono, d3);
    assert StateChunks(ps, c0, c1, mono) + rest == ChunkBytes(ID_DECORR_TERMS, t) + r1;
  }
}
