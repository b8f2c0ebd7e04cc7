/** The decorrelation loops as jni/wv/pack.c and jni/wv/unpack.c run them: in place on the sample buffer, with
    circular histories of eight slots, proved against the filters of module DecorrSpec. The source switches
    on the term outside its loops; here one loop switches inside. */
module DecorrPasses {
  import opened Machine
  import opened DecorrSpec

  /** `struct decorr_pass`. */
  datatype DecorrPass = DecorrPass(
    term: int, delta: nat, weightA: int16, weightB: int16, samplesA: seq<int32>, samplesB: seq<int32>)

  predicate ValidPass(p: DecorrPass) {
    ValidTerm(p.term) && |p.samplesA| == |p.samplesB| == MAX_TERM
  }

  predicate Delayed(term: int) {
    1 <= term <= MAX_TERM
  }

  // ---------------------------------------------------------------- histories in slots

  /** The remembered samples, oldest first, when the next read is from slot m. */
  function Hist(term: int, m: nat, s: seq<int32>): (h: seq<int32>)
    requires ValidTerm(term) && |s| == MAX_TERM
    ensures |h| == Depth(term)
  {
    if term > MAX_TERM then [s[1], s[0]]
    else if term > 0 then seq(MAX_TERM, i requires 0 <= i < MAX_TERM => s[Slot(m + term + i)])
    else [s[0]]
  }

  /** The slots that hold the history h; slots the term never uses keep their contents. */
  function Slots(term: int, m: nat, h: seq<int32>, s: seq<int32>): (r: seq<int32>)
    requires ValidTerm(term) && |s| == MAX_TERM && |h| == Depth(term)
    ensures |r| == MAX_TERM
  {
    if term > MAX_TERM then [h[1], h[0]] + s[2..]
    else if term > 0 then seq(MAX_TERM, k requires 0 <= k < MAX_TERM => h[Slot(k - m - term)])
    else [h[0]] + s[1..]
  }

  function View(p: DecorrPass, m: nat, wA: int32, wB: int32): (f: Filter)
    requires ValidPass(p)
    ensures WellFormed(f)
  {
    Filter(p.term, p.delta, wA, wB, Hist(p.term, m, p.samplesA), Hist(p.term, m, p.samplesB))
  }

  function Load(p: DecorrPass, m: nat): (f: Filter)
    requires ValidPass(p)
    ensures WellFormed(f) && f.term == p.term && f.delta == p.delta
  {
    View(p, m, p.weightA, p.weightB)
  }

  /** The struct p once the filter has become f. */
  function Store(p: DecorrPass, m: nat, f: Filter): (q: DecorrPass)
    requires ValidPass(p) && WellFormed(f) && f.term == p.term
    ensures ValidPass(q) && q.term == p.term
  {
    p.(weightA := Wrap16(f.wA), weightB := Wrap16(f.wB),
       samplesA := Slots(p.term, m, f.hA, p.samplesA), samplesB := Slots(p.term, m, f.hB, p.samplesB))
  }

  /** `i & (MAX_TERM - 1)`. */
  function Slot(i: int): (k: nat)
    ensures k < 8
  {
    i % 8
  }

  lemma SlotSmall(i: int)
    requires 0 <= i < 8
    ensures Slot(i) == i
  {
  }

  lemma SlotAdd(a: int, b: int)
    ensures Slot(Slot(a) + b) == Slot(a + b)
  {
  }

  lemma SlotApart(n: int, i: int, j: int)
    requires -8 < i - j < 8
    ensures Slot(n + i) == Slot(n + j) <==> i == j
  {
  }

  lemma HistOfSlots(term: int, m: nat, h: seq<int32>, s: seq<int32>)
    requires ValidTerm(term) && |s| == MAX_TERM && |h| == Depth(term)
    ensures Hist(term, m, Slots(term, m, h, s)) == h
  {
    if Delayed(term) {
      hide Slot;
      var g := Hist(term, m, Slots(term, m, h, s));
      forall i | 0 <= i < MAX_TERM
        ensures g[i] == h[i]
      {
        var k := Slot(m + term + i);
        var back: int := 0 - m - term;
        SlotAdd(m + term + i, back);
        assert k - m - term == k + back && m + term + i + back == i;
        SlotSmall(i);
      }
    }
  }

  /** Slots the term does not use are the same in both. */
  predicate SameOthers(term: int, s: seq<int32>, r: seq<int32>) {
    |s| == |r| == MAX_TERM && (term > MAX_TERM ==> s[2..] == r[2..]) && (term < 0 ==> s[1..] == r[1..])
  }

  lemma SlotsOfHist(term: int, m: nat, s: seq<int32>, r: seq<int32>)
    requires ValidTerm(term) && SameOthers(term, s, r)
    ensures r == Slots(term, m, Hist(term, m, r), s)
  {
    if term > MAX_TERM {
      assert r == [r[0], r[1]] + r[2..];
    } else if term < 0 {
      assert r == [r[0]] + r[1..];
    } else {
      hide Slot;
      var q := Slots(term, m, Hist(term, m, r), s);
      forall k | 0 <= k < MAX_TERM
        ensures q[k] == r[k]
      {
        var i := Slot(k - m - term);
        SlotAdd(k - m - term, m + term);
        assert m + term + i == i + (m + term) && k - m - term + (m + term) == k;
        SlotSmall(k);
      }
    }
  }

  lemma LoadOfStore(p: DecorrPass, m: nat, f: Filter)
    requires ValidPass(p) && WellFormed(f) && f.term == p.term && f.delta == p.delta
    ensures Load(Store(p, m, f), m) == f.(wA := Wrap16(f.wA), wB := Wrap16(f.wB))
  {
    HistOfSlots(p.term, m, f.hA, p.samplesA);
    HistOfSlots(p.term, m, f.hB, p.samplesB);
  }

  /** Writing the slot term places ahead of m, then stepping m, remembers one more sample. */
  lemma HistStep(term: int, m: nat, s: seq<int32>, x: int32)
    requires Delayed(term) && |s| == MAX_TERM && m < MAX_TERM
    ensures Predict(term, Hist(term, m, s)) == s[m]
    ensures Hist(term, Slot(m + 1), s[Slot(m + term) := x]) == Push(Hist(term, m, s), x)
  {
    hide Slot;
    var h := Hist(term, m, s);
    var h' := Hist(term, Slot(m + 1), s[Slot(m + term) := x]);
    forall i | 0 <= i < MAX_TERM
      ensures h'[i] == Push(h, x)[i]
    {
      SlotAdd(m + 1, term + i);
      assert Slot(m + 1) + term + i == Slot(m + 1) + (term + i);
      assert m + 1 + (term + i) == m + term + (i + 1);
      SlotAdd(m + term, 8);
      if i < MAX_TERM - 1 {
        SlotApart(m + term, i + 1, 0);
      }
      WholeTurn(m + term);
    }
    WholeTurn(m);
    SlotSmall(m);
    assert m + term + (MAX_TERM - term) == m + 8;
  }

  lemma WholeTurn(n: int)
    ensures Slot(n + 8) == Slot(n)
  {
  }

  /** The rotation that ends a call: slot m becomes slot 0. */
  function Rotate(s: seq<int32>, m: nat): (r: seq<int32>)
    requires |s| == MAX_TERM
    ensures |r| == MAX_TERM
  {
    seq(MAX_TERM, k requires 0 <= k < MAX_TERM => s[Slot(m + k)])
  }

  lemma HistRotate(term: int, m: nat, s: seq<int32>)
    requires Delayed(term) && |s| == MAX_TERM
    ensures Hist(term, 0, Rotate(s, m)) == Hist(term, m, s)
  {
    hide Slot;
    forall i | 0 <= i < MAX_TERM
      ensures Hist(term, 0, Rotate(s, m))[i] == Hist(term, m, s)[i]
    {
      SlotAdd(0 + term + i, m);
      assert 0 + term + i + m == m + term + i;
    }
  }

  lemma HistShort(term: int, m: nat, n: nat, s: seq<int32>)
    requires ValidTerm(term) && !Delayed(term) && |s| == MAX_TERM
    ensures Hist(term, m, s) == Hist(term, n, s)
  {
  }

  /** The loop of unpack.c that copies the slots back in order. */
  method RotateSlots(s: seq<int32>, m: nat) returns (r: seq<int32>)
    requires |s| == MAX_TERM && m < MAX_TERM
    ensures r == Rotate(s, m)
  {
    r := s;
    for k := 0 to MAX_TERM
      invariant |r| == MAX_TERM
      invariant forall j :: 0 <= j < k ==> r[j] == Rotate(s, m)[j]
    {
      r := r[k := s[Slot(m + k)]];
    }
  }

  // ---------------------------------------------------------------- frames in buffers

  /** The stereo samples of an interleaved buffer. */
  function StereoFrames(s: seq<int32>): (r: seq<Frame>)
    requires |s| % 2 == 0
    ensures |r| == |s| / 2
    ensures AllFrames(false, r)
  {
    seq(|s| / 2, i requires 0 <= i < |s| / 2 => Stereo(s[2 * i], s[2 * i + 1]))
  }

  function MonoFrames(s: seq<int32>): (r: seq<Frame>)
    ensures |r| == |s|
    ensures AllFrames(true, r)
  {
    seq(|s|, i requires 0 <= i < |s| => Mono(s[i]))
  }

  lemma StereoFramesSnoc(s: seq<int32>, n: nat)
    requires 2 * n + 2 <= |s|
    ensures StereoFrames(s[..2 * n + 2]) == StereoFrames(s[..2 * n]) + [Stereo(s[2 * n], s[2 * n + 1])]
  {
  }

  /** Outside [from, to) the buffer is as it was. */
  twostate predicate OnlyWithin(buffer: array<int32>, from: int, to: int)
    reads buffer
  {
    forall i :: 0 <= i < buffer.Length && !(from <= i < to) ==> buffer[i] == old(buffer[i])
  }

  // ---------------------------------------------------------------- decoder

  /** One channel of one turn of the loops of unpack.c, for the terms above 0. */
  method ChannelStep(term: int, delta: nat, w: int32, s: seq<int32>, m: nat, k: nat, b: int32)
    returns (w': int32, s': seq<int32>, o: int32)
    requires ValidTerm(term) && term > 0 && |s| == MAX_TERM && m < MAX_TERM && k == Slot(m + term)
    ensures SameOthers(term, s, s')
    ensures DecChan(term, delta, w, Hist(term, m, s), b) == Chan(w', Hist(term, Slot(m + 1), s'), o)
  {
    hide Apply, Update, Hist, Slot, Extrapolate17, Extrapolate18;
    if term == 17 || term == 18 {
      var sam := if term == 17 then Extrapolate17(s[0], s[1]) else Extrapolate18(s[0], s[1]);
      s' := s[1 := s[0]];
      o := Wrap32(Apply(w, sam) + b);
      s' := s'[0 := o];
      w' := Wrap32(Update(w, delta, sam, b));
      HistOfTwo(term, m, s);
      HistOfTwo(term, Slot(m + 1), s');
    } else {
      var sam := s[m];
      o := Wrap32(Apply(w, sam) + b);
      s' := s[k := o];
      w' := Wrap32(Update(w, delta, sam, b));
      HistStep(term, m, s, o);
    }
  }

  /** One turn of the loops of unpack.c `decorr_stereo_pass`. */
  method StereoStep(p: DecorrPass, wA: int32, wB: int32, m: nat, k: nat, b0: int32, b1: int32)
    returns (p': DecorrPass, wA': int32, wB': int32, o0: int32, o1: int32)
    requires ValidPass(p) && m < MAX_TERM && k == Slot(m + p.term)
    ensures ValidPass(p') && p'.term == p.term
    ensures DecFrame(View(p, m, wA, wB), Stereo(b0, b1)) == (View(p', Slot(m + 1), wA', wB'), Stereo(o0, o1))
    ensures SameOthers(p.term, p.samplesA, p'.samplesA) && SameOthers(p.term, p.samplesB, p'.samplesB)
    ensures p'.weightA == p.weightA && p'.weightB == p.weightB
  {
    hide Apply, Update, UpdateClip, Hist, Slot, DecChan, Wrap32;
    p', wA', wB' := p, wA, wB;
    if p.term > 0 {
      var sA, sB;
      wA', sA, o0 := ChannelStep(p.term, p.delta, wA, p.samplesA, m, k, b0);
      wB', sB, o1 := ChannelStep(p.term, p.delta, wB, p.samplesB, m, k, b1);
      p' := p.(samplesA := sA, samplesB := sB);
    } else {
      if p.term == -1 {
        o0 := Wrap32(b0 + Apply(wA, p.samplesA[0]));
        wA' := Wrap32(UpdateClip(wA, p.delta, p.samplesA[0], b0));
        o1 := Wrap32(b1 + Apply(wB, o0));
        p' := p'.(samplesA := p.samplesA[0 := o1]);
        wB' := Wrap32(UpdateClip(wB, p.delta, o0, b1));
      } else if p.term == -2 {
        o1 := Wrap32(b1 + Apply(wB, p.samplesB[0]));
        wB' := Wrap32(UpdateClip(wB, p.delta, p.samplesB[0], b1));
        o0 := Wrap32(b0 + Apply(wA, o1));
        p' := p'.(samplesB := p.samplesB[0 := o0]);
        wA' := Wrap32(UpdateClip(wA, p.delta, o1, b0));
      } else {
        o0 := Wrap32(b0 + Apply(wA, p.samplesA[0]));
        wA' := Wrap32(UpdateClip(wA, p.delta, p.samplesA[0], b0));
        o1 := Wrap32(b1 + Apply(wB, p.samplesB[0]));
        wB' := Wrap32(UpdateClip(wB, p.delta, p.samplesB[0], b1));
        p' := p'.(samplesB := p.samplesB[0 := o0], samplesA := p.samplesA[0 := o1]);
      }
      HistOfOne(p.term, m, p.samplesA);
      HistOfOne(p.term, m, p.samplesB);
      HistOfOne(p.term, Slot(m + 1), p'.samplesA);
      HistOfOne(p.term, Slot(m + 1), p'.samplesB);
    }
  }

  lemma HistOfTwo(term: int, m: nat, s: seq<int32>)
    requires (term == 17 || term == 18) && |s| == MAX_TERM
    ensures Hist(term, m, s) == [s[1], s[0]]
  {
  }

  lemma HistOfOne(term: int, m: nat, s: seq<int32>)
    requires -3 <= term <= -1 && |s| == MAX_TERM
    ensures Hist(term, m, s) == [s[0]]
  {
  }

  /** unpack.c `decorr_stereo_pass` on count frames from `from` on. */
  method DecorrStereoPass(dpp: DecorrPass, buffer: array<int32>, from: nat, count: nat) returns (p: DecorrPass)
    requires ValidPass(dpp) && from + 2 * count <= buffer.Length
    modifies buffer
    ensures var (f, out) := DecPass(Load(dpp, 0), false, StereoFrames(old(buffer[from..from + 2 * count])));
            p == Store(dpp, 0, f) && StereoFrames(buffer[from..from + 2 * count]) == out
    ensures OnlyWithin(buffer, from, from + 2 * count)
  {
    hide DecFrame, DecLoop, Hist, Slots, Slot, StereoFrames, SameOthers;
    p := dpp;
    var wA: int32, wB: int32 := dpp.weightA, dpp.weightB;
    var m: nat, k: nat := 0, Slot(dpp.term);
    ghost var f0 := Load(dpp, 0);
    ghost var input := buffer[from..from + 2 * count];
    ghost var frames := StereoFrames(input);
    ghost var done: seq<int32> := [];
    var i := 0;
    NoFrames();
    NoLoop(f0, false, frames);
    SameOthersSelf(dpp.term, dpp.samplesA);
    SameOthersSelf(dpp.term, dpp.samplesB);
    while i < count
      invariant 0 <= i <= count && m < MAX_TERM && k == Slot(m + dpp.term)
      invariant ValidPass(p) && p.(samplesA := dpp.samplesA, samplesB := dpp.samplesB) == dpp
      invariant SameOthers(p.term, dpp.samplesA, p.samplesA) && SameOthers(p.term, dpp.samplesB, p.samplesB)
      invariant buffer[from..from + 2 * i] == done
      invariant DecLoop(f0, false, frames[..i]) == (View(p, m, wA, wB), StereoFrames(done))
      invariant OnlyWithin(buffer, from, from + 2 * i)
    {
      FrameAt(input, i);
      DecLoopStep(f0, false, frames, i);
      assert input[2 * i] == buffer[from + 2 * i] && input[2 * i + 1] == buffer[from + 2 * i + 1];
      ghost var q := p;
      var o0, o1;
      p, wA, wB, o0, o1 := StereoStep(p, wA, wB, m, k, buffer[from + 2 * i], buffer[from + 2 * i + 1]);
      SameOthersChain(dpp.term, dpp.samplesA, q.samplesA, p.samplesA);
      SameOthersChain(dpp.term, dpp.samplesB, q.samplesB, p.samplesB);
      buffer[from + 2 * i] := o0;
      buffer[from + 2 * i + 1] := o1;
      FramesAppend(done, o0, o1);
      done := done + [o0, o1];
      SlotTogether(m, dpp.term);
      m := Slot(m + 1);
      k := Slot(k + 1);
      i := i + 1;
    }
    assert frames[..count] == frames;
    p := FinishPass(dpp, p, m, wA, wB);
  }

  /** The end of a decoder pass: the slots in order again, the weights back in shorts. */
  method FinishPass(ghost dpp: DecorrPass, q: DecorrPass, m: nat, wA: int32, wB: int32) returns (p: DecorrPass)
    requires ValidPass(dpp) && ValidPass(q) && m < MAX_TERM
    requires q.(samplesA := dpp.samplesA, samplesB := dpp.samplesB) == dpp
    requires SameOthers(dpp.term, dpp.samplesA, q.samplesA) && SameOthers(dpp.term, dpp.samplesB, q.samplesB)
    ensures p == Store(dpp, 0, View(q, m, wA, wB).(wA := Wrap16(wA), wB := Wrap16(wB)))
  {
    hide Hist, Slots, Slot, Rotate, Wrap16;
    p := q;
    if Delayed(q.term) && m != 0 {
      HistRotate(q.term, m, p.samplesA);
      HistRotate(q.term, m, p.samplesB);
      var rA := RotateSlots(p.samplesA, m);
      var rB := RotateSlots(p.samplesB, m);
      p := p.(samplesA := rA, samplesB := rB);
    } else if !Delayed(q.term) {
      HistShort(q.term, m, 0, p.samplesA);
      HistShort(q.term, m, 0, p.samplesB);
    }
    SlotsOfHist(dpp.term, 0, dpp.samplesA, p.samplesA);
    SlotsOfHist(dpp.term, 0, dpp.samplesB, p.samplesB);
    Wrap16Twice(wA);
    Wrap16Twice(wB);
    p := p.(weightA := Wrap16(wA), weightB := Wrap16(wB));
  }

  lemma Wrap16Twice(x: int)
    ensures Wrap16(Wrap16(x)) == Wrap16(x)
  {
  }

  lemma SameOthersSelf(term: int, s: seq<int32>)
    requires |s| == MAX_TERM
    ensures SameOthers(term, s, s)
  {
  }

  lemma SameOthersChain(term: int, s: seq<int32>, r: seq<int32>, t: seq<int32>)
    requires SameOthers(term, s, r) && SameOthers(term, r, t)
    ensures SameOthers(term, s, t)
  {
  }

  lemma SlotTogether(m: nat, term: int)
    ensures Slot(Slot(m + term) + 1) == Slot(Slot(m + 1) + term)
  {
    hide Slot;
    SlotAdd(m + term, 1);
    SlotAdd(m + 1, term);
    assert m + term + 1 == m + 1 + term;
  }

  lemma NoLoop(f: Filter, mono: bool, frames: seq<Frame>)
    requires Suits(f, mono, frames)
    ensures DecLoop(f, mono, frames[..0]) == (f, [])
    ensures EncPass(f, mono, frames[..0]) == (f, [])
  {
  }

  lemma NoFrames()
    ensures StereoFrames([]) == []
  {
  }

  lemma FrameAt(s: seq<int32>, i: nat)
    requires |s| % 2 == 0 && 2 * i + 1 < |s|
    ensures StereoFrames(s)[i] == Stereo(s[2 * i], s[2 * i + 1])
  {
  }

  lemma FramesAppend(s: seq<int32>, a: int32, b: int32)
    requires |s| % 2 == 0
    ensures StereoFrames(s + [a, b]) == StereoFrames(s) + [Stereo(a, b)]
  {
  }
}
