/** The encoder's passes (jni/wv/pack.c) and the decoder's mono pass, in place on buffers and slots. */
module DecorrEncode {
  import opened Machine
  import opened DecorrSpec
  import opened DecorrPasses

  // ---------------------------------------------------------------- decoder, mono

  /** unpack.c `decorr_mono_pass`. */
  method DecorrMonoPass(dpp: DecorrPass, buffer: array<int32>, count: nat) returns (p: DecorrPass)
    requires ValidPass(dpp) && dpp.term > 0 && count <= buffer.Length
    modifies buffer
    ensures var (f, out) := DecPass(Load(dpp, 0), true, MonoFrames(old(buffer[..count])));
            p == Store(dpp, 0, f) && MonoFrames(buffer[..count]) == out
    ensures OnlyWithin(buffer, 0, count)
  {
    hide DecLoop, Hist, Slots, Slot, MonoFrames, SameOthers, Rotate, Wrap16;
    var wA, sA, m := MonoLoop(dpp, buffer, count);
    if Delayed(dpp.term) && m != 0 {
      HistRotate(dpp.term, m, sA);
      sA := RotateSlots(sA, m);
    } else if !Delayed(dpp.term) {
      HistShort(dpp.term, m, 0, sA);
    }
    DelayedOthers(dpp.term, dpp.samplesA, sA);
    SlotsOfHist(dpp.term, 0, dpp.samplesA, sA);
    SameOthersSelf(dpp.term, dpp.samplesB);
    SlotsOfHist(dpp.term, 0, dpp.samplesB, dpp.samplesB);
    p := dpp.(weightA := Wrap16(wA), samplesA := sA);
    Wrap16Twice(wA);
    Wrap16OfShort(dpp.weightB);
  }

  lemma Wrap16OfShort(x: int16)
    ensures Wrap16(x) == x
  {
  }

  lemma DelayedOthers(term: int, s: seq<int32>, r: seq<int32>)
    requires (Delayed(term) && |s| == |r| == MAX_TERM) || SameOthers(term, s, r)
    ensures SameOthers(term, s, r)
  {
  }

  /** The loops of `decorr_mono_pass`. */
  method MonoLoop(dpp: DecorrPass, buffer: array<int32>, count: nat)
    returns (wA: int32, sA: seq<int32>, m: nat)
    requires ValidPass(dpp) && dpp.term > 0 && count <= buffer.Length
    modifies buffer
    ensures |sA| == MAX_TERM && m < MAX_TERM && SameOthers(dpp.term, dpp.samplesA, sA)
    ensures DecLoop(Load(dpp, 0), true, MonoFrames(old(buffer[..count])))
            == (Load(dpp, 0).(wA := wA, hA := Hist(dpp.term, m, sA)), MonoFrames(buffer[..count]))
    ensures OnlyWithin(buffer, 0, count)
  {
    hide DecFrame, DecLoop, Hist, Slots, Slot, MonoFrames, SameOthers, DecChan;
    sA, wA, m := dpp.samplesA, dpp.weightA, 0;
    var k: nat := Slot(dpp.term);
    ghost var f0 := Load(dpp, 0);
    ghost var input := buffer[..count];
    ghost var frames := MonoFrames(input);
    MonoBasics(input);
    NoLoop(f0, true, frames);
    SameOthersSelf(dpp.term, sA);
    ghost var done: seq<int32> := [];
    for i := 0 to count
      invariant m < MAX_TERM && k == Slot(m + dpp.term)
      invariant |sA| == MAX_TERM && SameOthers(dpp.term, dpp.samplesA, sA)
      invariant buffer[..i] == done
      invariant DecLoop(f0, true, frames[..i]) == (f0.(wA := wA, hA := Hist(dpp.term, m, sA)), MonoFrames(done))
      invariant OnlyWithin(buffer, 0, i)
    {
      DecLoopStep(f0, true, frames, i);
      MonoDecStep(f0, wA, Hist(dpp.term, m, sA), buffer[i]);
      assert input[i] == buffer[i];
      ghost var before := sA;
      var o;
      wA, sA, o := ChannelStep(dpp.term, dpp.delta, wA, sA, m, k, buffer[i]);
      SameOthersChain(dpp.term, dpp.samplesA, before, sA);
      buffer[i] := o;
      MonoAppend(done, o);
      done := done + [o];
      SlotTogether(m, dpp.term);
      m := Slot(m + 1);
      k := Slot(k + 1);
    }
    assert frames[..count] == frames;
  }

  lemma MonoBasics(s: seq<int32>)
    ensures MonoFrames([]) == []
    ensures forall i :: 0 <= i < |s| ==> MonoFrames(s)[i] == Mono(s[i])
  {
  }

  lemma MonoAppend(s: seq<int32>, a: int32)
    ensures MonoFrames(s + [a]) == MonoFrames(s) + [Mono(a)]
  {
  }

  lemma MonoDecStep(f0: Filter, w: int32, h: seq<int32>, a: int32)
    requires WellFormed(f0) && f0.term > 0 && |h| == Depth(f0.term)
    ensures var c := DecChan(f0.term, f0.delta, w, h, a);
            DecFrame(f0.(wA := w, hA := h), Mono(a)) == (f0.(wA := c.w, hA := c.h), Mono(c.out))
  {
  }

  // ---------------------------------------------------------------- encoder, one channel

  /** One channel of one turn of the loops of pack.c for the terms above 0. The stereo loops of the delayed
      terms store the sample before they read the prediction, which is sound because k is not m. */
  method EncodeStep(term: int, w: int16, s: seq<int32>, m: nat, k: nat, x: int32, storeFirst: bool)
    returns (w': int16, s': seq<int32>, o: int32)
    requires ValidTerm(term) && term > 0 && |s| == MAX_TERM && m < MAX_TERM && k == Slot(m + term)
    requires storeFirst ==> term != MAX_TERM
    ensures |s'| == MAX_TERM
    ensures EncChan(term, w, Hist(term, m, s), x) == Chan(w', Hist(term, Slot(m + 1), s'), o)
  {
    hide ApplyI, Update, Hist, Slot, Extrapolate17, Extrapolate18, Wrap16;
    var sam;
    if term == 17 || term == 18 {
      HistOfTwo(term, m, s);
      sam := if term == 17 then Extrapolate17(s[0], s[1]) else Extrapolate18(s[0], s[1]);
      s' := s[1 := s[0]];
      s' := s'[0 := x];
      HistOfTwo(term, Slot(m + 1), s');
    } else {
      if storeFirst {
        s' := s[k := x];
        SlotsDiffer(m, term);
        sam := s'[m];
      } else {
        sam := s[m];
        s' := s[k := x];
      }
      HistStep(term, m, s, x);
    }
    o := Wrap32(x - ApplyI(w, sam));
    w' := Wrap16(Update(w, 2, sam, o));
  }

  lemma SlotsDiffer(m: nat, term: int)
    requires m < 8 && 1 <= term <= 7
    ensures Slot(m + term) != m
  {
  }

  /** One turn of the stereo loops of pack.c; a term without a loop leaves everything alone. */
  method EncodeStereoStep(p: DecorrPass, m: nat, k: nat, b0: int32, b1: int32)
    returns (p': DecorrPass, o0: int32, o1: int32)
    requires ValidPass(p) && m < MAX_TERM && k == Slot(m + p.term)
    requires p.term != MAX_TERM
    ensures ValidPass(p') && p'.term == p.term && p'.delta == p.delta
    ensures EncFrame(Load(p, m), Stereo(b0, b1)) == (Load(p', Slot(m + 1)), Stereo(o0, o1))
  {
    hide ApplyI, Update, UpdateClip, Hist, Slot, EncChan, Wrap32, Wrap16;
    p', o0, o1 := p, b0, b1;
    if p.term > 0 {
      var wA, sA, wB, sB;
      wA, sA, o0 := EncodeStep(p.term, p.weightA, p.samplesA, m, k, b0, true);
      wB, sB, o1 := EncodeStep(p.term, p.weightB, p.samplesB, m, k, b1, true);
      p' := p.(weightA := wA, samplesA := sA, weightB := wB, samplesB := sB);
    } else {
      if p.term == -2 {
        var sam_A, sam_B := b1, p.samplesB[0];
        p' := p'.(samplesB := p.samplesB[0 := b0]);
        o0 := Wrap32(b0 - ApplyI(p.weightA, sam_A));
        p' := p'.(weightA := Wrap16(UpdateClip(p.weightA, 2, sam_A, o0)));
        o1 := Wrap32(b1 - ApplyI(p.weightB, sam_B));
        p' := p'.(weightB := Wrap16(UpdateClip(p.weightB, 2, sam_B, o1)));
      }
      HistOfOne(p.term, m, p.samplesA);
      HistOfOne(p.term, m, p.samplesB);
      HistOfOne(p.term, Slot(m + 1), p'.samplesA);
      HistOfOne(p.term, Slot(m + 1), p'.samplesB);
    }
  }

  /** pack.c lines 333-342 for one pass, starting at slot m. */
  method EncodeStereoPass(dpp: DecorrPass, buffer: array<int32>, count: nat, m0: nat) returns (p: DecorrPass)
    requires ValidPass(dpp) && 2 * count <= buffer.Length && m0 < MAX_TERM
    modifies buffer
    ensures ValidPass(p) && p.term == dpp.term && p.delta == dpp.delta
    ensures dpp.term != MAX_TERM ==>
              EncPass(Load(dpp, m0), false, StereoFrames(old(buffer[..2 * count])))
              == (Load(p, Slot(m0 + count)), StereoFrames(buffer[..2 * count]))
    ensures dpp.term == MAX_TERM ==> p == dpp && buffer[..] == old(buffer[..])
    ensures OnlyWithin(buffer, 0, 2 * count)
  {
    hide EncFrame, EncPass, Hist, Slot, StereoFrames;
    p := dpp;
    ghost var f0 := Load(dpp, m0);
    ghost var input := buffer[..2 * count];
    ghost var frames := StereoFrames(input);
    if dpp.term == MAX_TERM {
      return;
    }
    var m, k := m0, Slot(m0 + dpp.term);
    ghost var done: seq<int32> := [];
    NoFrames();
    NoLoop(f0, false, frames);
    SlotSmall(m0);
    assert m0 + 0 == m0;
    for i := 0 to count
      invariant m == Slot(m0 + i) && k == Slot(m + dpp.term)
      invariant ValidPass(p) && p.term == dpp.term && p.delta == dpp.delta
      invariant buffer[..2 * i] == done
      invariant EncPass(f0, false, frames[..i]) == (Load(p, m), StereoFrames(done))
      invariant OnlyWithin(buffer, 0, 2 * i)
    {
      FrameAt(input, i);
      EncPassStep(f0, false, frames, i);
      assert input[2 * i] == buffer[2 * i] && input[2 * i + 1] == buffer[2 * i + 1];
      var o0, o1;
      p, o0, o1 := EncodeStereoStep(p, m, k, buffer[2 * i], buffer[2 * i + 1]);
      buffer[2 * i] := o0;
      buffer[2 * i + 1] := o1;
      FramesAppend(done, o0, o1);
      done := done + [o0, o1];
      SlotTogether(m, dpp.term);
      SlotAdd(m0 + i, 1);
      assert m0 + i + 1 == m0 + (i + 1);
      m := Slot(m + 1);
      k := Slot(k + 1);
    }
    assert frames[..count] == frames;
  }
}
