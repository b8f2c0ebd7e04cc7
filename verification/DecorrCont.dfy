/** The continuation pass of jni/wv/unpack.c, which reads its history out of the samples already decoded, and
    the choice `unpack_samples` makes between the two forms. */
module DecorrCont {
  import opened Machine
  import opened DecorrSpec
  import opened DecorrPasses

  /** The history of f is the tail of the frames out. */
  predicate Echoes(f: Filter, out: seq<Frame>)
    requires WellFormed(f) && AllFrames(false, out)
  {
    var n := |out|;
    && n >= MAX_TERM
    && (f.term > 0 ==> forall i :: 0 <= i < Depth(f.term) ==>
            f.hA[i] == out[n - Depth(f.term) + i].a && f.hB[i] == out[n - Depth(f.term) + i].b)
    && (f.term == -1 || f.term == -3 ==> f.hA[0] == out[n - 1].b)
    && (f.term == -2 || f.term == -3 ==> f.hB[0] == out[n - 1].a)
  }

  lemma EchoStep(f: Filter, out: seq<Frame>, fr: Frame)
    requires WellFormed(f) && AllFrames(false, out) && fr.Stereo? && Echoes(f, out)
    ensures var (g, o) := DecFrame(f, fr);
            AllFrames(false, out + [o]) && Echoes(g, out + [o])
  {
    hide Apply, Update, UpdateClip, Predict, Wrap32;
  }

  /** What the history holds after k frames: older samples of h first, then what came out. */
  predicate Shifted(term: int, h: seq<int32>, g: seq<int32>, out: seq<int32>)
    requires |h| == |g| == Depth(term)
  {
    var d, k := Depth(term), |out|;
    forall i :: 0 <= i < d ==> g[i] == (if i + k < d then h[i + k] else out[i + k - d])
  }

  function Lefts(out: seq<Frame>): seq<int32> {
    seq(|out|, i requires 0 <= i < |out| => out[i].a)
  }

  function Rights(out: seq<Frame>): seq<int32>
    requires AllFrames(false, out)
  {
    seq(|out|, i requires 0 <= i < |out| => out[i].b)
  }

  lemma {:induction false} HistoryShifts(f: Filter, frames: seq<Frame>)
    requires Suits(f, false, frames)
    ensures var (g, out) := DecLoop(f, false, frames);
            && (f.term > 0 ==> Shifted(f.term, f.hA, g.hA, Lefts(out)) && Shifted(f.term, f.hB, g.hB, Rights(out)))
            && (frames != [] && (f.term == -1 || f.term == -3) ==> g.hA[0] == out[|out| - 1].b)
            && (frames != [] && (f.term == -2 || f.term == -3) ==> g.hB[0] == out[|out| - 1].a)
    decreases |frames|
  {
    hide Apply, Update, UpdateClip, Predict, Wrap32;
    if frames == [] {
    } else {
      var n := |frames| - 1;
      HistoryShifts(f, frames[..n]);
      var (g, out) := DecLoop(f, false, frames[..n]);
      if f.term > 0 {
        var (g', o) := DecFrame(g, frames[n]);
        ShiftOne(f.term, f.hA, g.hA, Lefts(out), o.a);
        ShiftOne(f.term, f.hB, g.hB, Rights(out), o.b);
        assert Lefts(out + [o]) == Lefts(out) + [o.a];
        assert Rights(out + [o]) == Rights(out) + [o.b];
      }
    }
  }

  lemma ShiftOne(term: int, h: seq<int32>, g: seq<int32>, out: seq<int32>, x: int32)
    requires |h| == |g| == Depth(term) && Shifted(term, h, g, out)
    ensures Shifted(term, h, Push(g, x), out + [x])
  {
  }

  /** After eight frames every history is in the samples that came out. */
  lemma EightEcho(f: Filter, frames: seq<Frame>)
    requires Suits(f, false, frames) && |frames| >= MAX_TERM
    ensures var (g, out) := DecLoop(f, false, frames); Echoes(g, out)
  {
    hide DecLoop;
    HistoryShifts(f, frames);
    var (g, out) := DecLoop(f, false, frames);
    if f.term > 0 {
      forall i | 0 <= i < Depth(f.term)
        ensures g.hA[i] == out[|out| - Depth(f.term) + i].a && g.hB[i] == out[|out| - Depth(f.term) + i].b
      {
        assert g.hA[i] == Lefts(out)[i + |out| - Depth(f.term)];
        assert g.hB[i] == Rights(out)[i + |out| - Depth(f.term)];
      }
    }
  }

  /** Where the history is found among the sixteen values before the current frame. */
  lemma EchoValues(f: Filter, s: seq<int32>)
    requires WellFormed(f) && |s| == 16 && Echoes(f, StereoFrames(s))
    ensures f.term > MAX_TERM ==> f.hA == [s[12], s[14]] && f.hB == [s[13], s[15]]
    ensures Delayed(f.term) ==> forall i :: 0 <= i < 8 ==> f.hA[i] == s[2 * i] && f.hB[i] == s[2 * i + 1]
    ensures f.term == -1 || f.term == -3 ==> f.hA == [s[15]]
    ensures f.term == -2 || f.term == -3 ==> f.hB == [s[14]]
  {
    var out := StereoFrames(s);
    assert forall i :: 0 <= i < 8 ==> out[i].a == s[2 * i] && out[i].b == s[2 * i + 1];
  }

  /** One turn of the loops of `decorr_stereo_pass_cont`, at buffer index `at`. */
  method ContStep(term: int, delta: nat, wA: int32, wB: int32, buffer: array<int32>, at: nat, ghost f: Filter)
    returns (wA': int32, wB': int32)
    requires 16 <= at && at + 2 <= buffer.Length
    requires WellFormed(f) && f.term == term && f.delta == delta && f.wA == wA && f.wB == wB
    requires Echoes(f, StereoFrames(buffer[at - 16..at]))
    modifies buffer
    ensures OnlyWithin(buffer, at, at + 2)
    ensures var (g, o) := DecFrame(f, Stereo(old(buffer[at]), old(buffer[at + 1])));
            g.wA == wA' && g.wB == wB' && o == Stereo(buffer[at], buffer[at + 1])
  {
    hide Apply, Update, UpdateClip, Wrap32, Extrapolate17, Extrapolate18, Echoes, StereoFrames;
    wA', wB' := wA, wB;
    EchoValues(f, buffer[at - 16..at]);
    var b0: int32, b1: int32 := buffer[at], buffer[at + 1];
    if term == 17 || term == 18 {
      var sam := if term == 17 then Extrapolate17(buffer[at - 2], buffer[at - 4])
                 else Extrapolate18(buffer[at - 2], buffer[at - 4]);
      buffer[at] := Wrap32(Apply(wA, sam) + b0);
      wA' := Wrap32(Update(wA, delta, sam, b0));
      sam := if term == 17 then Extrapolate17(buffer[at - 1], buffer[at - 3])
             else Extrapolate18(buffer[at - 1], buffer[at - 3]);
      buffer[at + 1] := Wrap32(Apply(wB, sam) + b1);
      wB' := Wrap32(Update(wB, delta, sam, b1));
    } else if term > 0 {
      var t := at - term * 2;
      assert f.hA[8 - term] == buffer[t] && f.hB[8 - term] == buffer[t + 1];
      buffer[at] := Wrap32(Apply(wA, buffer[t]) + b0);
      wA' := Wrap32(Update(wA, delta, buffer[t], b0));
      buffer[at + 1] := Wrap32(Apply(wB, buffer[t + 1]) + b1);
      wB' := Wrap32(Update(wB, delta, buffer[t + 1], b1));
    } else if term == -1 {
      buffer[at] := Wrap32(Apply(wA, buffer[at - 1]) + b0);
      wA' := Wrap32(UpdateClip(wA, delta, buffer[at - 1], b0));
      buffer[at + 1] := Wrap32(Apply(wB, buffer[at]) + b1);
      wB' := Wrap32(UpdateClip(wB, delta, buffer[at], b1));
    } else if term == -2 {
      buffer[at + 1] := Wrap32(Apply(wB, buffer[at - 2]) + b1);
      wB' := Wrap32(UpdateClip(wB, delta, buffer[at - 2], b1));
      buffer[at] := Wrap32(Apply(wA, buffer[at + 1]) + b0);
      wA' := Wrap32(UpdateClip(wA, delta, buffer[at + 1], b0));
    } else {
      buffer[at] := Wrap32(Apply(wA, buffer[at - 1]) + b0);
      wA' := Wrap32(UpdateClip(wA, delta, buffer[at - 1], b0));
      buffer[at + 1] := Wrap32(Apply(wB, buffer[at - 2]) + b1);
      wB' := Wrap32(UpdateClip(wB, delta, buffer[at - 2], b1));
    }
  }

  /** The history slots a pass that ended with filter f leaves behind, read back from the samples. */
  method HarvestHistory(dpp: DecorrPass, buffer: array<int32>, end: nat, ghost f: Filter)
    returns (sA: seq<int32>, sB: seq<int32>)
    requires ValidPass(dpp) && 16 <= end <= buffer.Length
    requires WellFormed(f) && f.term == dpp.term
    requires Echoes(f, StereoFrames(buffer[end - 16..end]))
    requires dpp.term == -1 || dpp.term == -2 ==> Untouched(dpp, f)
    ensures sA == Slots(dpp.term, 0, f.hA, dpp.samplesA) && sB == Slots(dpp.term, 0, f.hB, dpp.samplesB)
  {
    hide Slot, Echoes, StereoFrames;
    EchoValues(f, buffer[end - 16..end]);
    sA, sB := dpp.samplesA, dpp.samplesB;
    if dpp.term == 17 || dpp.term == 18 {
      sB := sB[0 := buffer[end - 1]];
      sA := sA[0 := buffer[end - 2]];
      sB := sB[1 := buffer[end - 3]];
      sA := sA[1 := buffer[end - 4]];
    } else if dpp.term > 0 {
      sA, sB := HarvestDelayed(dpp, buffer, end, f);
    } else {
      if dpp.term != -2 {
        sA := sA[0 := buffer[end - 1]];
      }
      if dpp.term != -1 {
        sB := sB[0 := buffer[end - 2]];
      }
      assert sA == [f.hA[0]] + dpp.samplesA[1..];
      assert sB == [f.hB[0]] + dpp.samplesB[1..];
    }
  }

  /** `for (k = dpp->term - 1, i = 8; i--; k--)`: the newest sample goes into slot term - 1. */
  method HarvestDelayed(dpp: DecorrPass, buffer: array<int32>, end: nat, ghost f: Filter)
    returns (sA: seq<int32>, sB: seq<int32>)
    requires ValidPass(dpp) && Delayed(dpp.term) && 16 <= end <= buffer.Length
    requires WellFormed(f) && f.term == dpp.term
    requires forall i :: 0 <= i < 8 ==> f.hA[i] == buffer[end - 16 + 2 * i] && f.hB[i] == buffer[end - 15 + 2 * i]
    ensures sA == Slots(dpp.term, 0, f.hA, dpp.samplesA) && sB == Slots(dpp.term, 0, f.hB, dpp.samplesB)
  {
    hide Slot, Slots;
    sA, sB := dpp.samplesA, dpp.samplesB;
    for j := 0 to 8
      invariant |sA| == |sB| == MAX_TERM
      invariant FilledFrom(dpp.term, f.hA, sA, 8 - j) && FilledFrom(dpp.term, f.hB, sB, 8 - j)
    {
      var k := Slot(dpp.term - 1 - j);
      FillNext(dpp.term, f.hA, sA, 7 - j);
      FillNext(dpp.term, f.hB, sB, 7 - j);
      assert f.hA[7 - j] == buffer[end - 2 - 2 * j] && f.hB[7 - j] == buffer[end - 1 - 2 * j];
      sB := sB[k := buffer[end - 1 - 2 * j]];
      sA := sA[k := buffer[end - 2 - 2 * j]];
    }
    AllSlots(dpp.term, f.hA, sA, dpp.samplesA);
    AllSlots(dpp.term, f.hB, sB, dpp.samplesB);
  }

  /** History positions from i0 on are in their slots. */
  predicate FilledFrom(term: int, h: seq<int32>, s: seq<int32>, i0: int)
    requires |h| == |s| == MAX_TERM
  {
    forall i :: 0 <= i0 <= i < 8 ==> s[Slot(term + i)] == h[i]
  }

  lemma FillNext(term: int, h: seq<int32>, s: seq<int32>, i: nat)
    requires |h| == |s| == MAX_TERM && i < 8 && FilledFrom(term, h, s, i + 1)
    ensures Slot(term - 1 - (7 - i)) == Slot(term + i)
    ensures FilledFrom(term, h, s[Slot(term + i) := h[i]], i)
  {
    hide Slot;
    SlotTurn(term + i);
    assert term - 1 - (7 - i) == term + i - 8;
    var r := s[Slot(term + i) := h[i]];
    forall j | i <= j < 8
      ensures r[Slot(term + j)] == h[j]
    {
      SlotApart(term, j, i);
    }
  }

  /** The channel a cross-channel term does not remember keeps its slots. */
  predicate Untouched(dpp: DecorrPass, f: Filter)
    requires ValidPass(dpp) && WellFormed(f)
  {
    (dpp.term == -1 ==> f.hB[0] == dpp.samplesB[0]) && (dpp.term == -2 ==> f.hA[0] == dpp.samplesA[0])
  }

  lemma AllSlots(term: int, h: seq<int32>, s: seq<int32>, before: seq<int32>)
    requires Delayed(term) && |h| == |s| == |before| == MAX_TERM
    requires FilledFrom(term, h, s, 0)
    ensures s == Slots(term, 0, h, before)
  {
    hide Slot;
    var r := Slots(term, 0, h, before);
    forall k | 0 <= k < MAX_TERM
      ensures s[k] == r[k]
    {
      var i := Slot(k - 0 - term);
      SlotAdd(k - 0 - term, term);
      SlotSmall(k);
      assert k - 0 - term + term == k && i + term == term + i;
      assert s[Slot(term + i)] == h[i];
    }
  }

  lemma SlotTurn(n: int)
    ensures Slot(n - 8) == Slot(n)
  {
  }

  lemma {:induction false} LoopUntouched(f: Filter, frames: seq<Frame>)
    requires Suits(f, false, frames)
    ensures f.term == -1 ==> DecLoop(f, false, frames).0.hB == f.hB
    ensures f.term == -2 ==> DecLoop(f, false, frames).0.hA == f.hA
    decreases |frames|
  {
    hide Apply, UpdateClip, Wrap32;
    if frames == [] {
    } else {
      LoopUntouched(f, frames[..|frames| - 1]);
    }
  }

  /** unpack.c `decorr_stereo_pass_cont`: given that the eight frames before `from` are what the pass last
      produced, it does what `decorr_stereo_pass` does on the frames from there on. */
  method DecorrStereoPassCont(dpp: DecorrPass, buffer: array<int32>, from: nat, count: nat) returns (p: DecorrPass)
    requires ValidPass(dpp) && 16 <= from && from + 2 * count <= buffer.Length
    requires Echoes(Load(dpp, 0), StereoFrames(buffer[from - 16..from]))
    modifies buffer
    ensures var (f, out) := DecPass(Load(dpp, 0), false, StereoFrames(old(buffer[from..from + 2 * count])));
            p == Store(dpp, 0, f) && StereoFrames(buffer[from..from + 2 * count]) == out
    ensures OnlyWithin(buffer, from, from + 2 * count)
  {
    hide DecFrame, DecLoop, Hist, Slots, Slot, StereoFrames, Echoes, Wrap16, Load, OnlyWithin;
    ghost var frames := StereoFrames(buffer[from..from + 2 * count]);
    var wA, wB;
    ghost var f;
    wA, wB, f := ContLoop(dpp, buffer, from, count);
    LoopUntouched(Load(dpp, 0), frames);
    StillUntouched(dpp, f);
    var sA, sB := HarvestHistory(dpp, buffer, from + 2 * count, f);
    p := dpp.(weightA := Wrap16(wA), weightB := Wrap16(wB), samplesA := sA, samplesB := sB);
    Wrap16Twice(wA);
    Wrap16Twice(wB);
  }

  /** The loop of `decorr_stereo_pass_cont`; f is the filter it ends with. */
  method ContLoop(dpp: DecorrPass, buffer: array<int32>, from: nat, count: nat)
    returns (wA: int32, wB: int32, ghost f: Filter)
    requires ValidPass(dpp) && 16 <= from && from + 2 * count <= buffer.Length
    requires Echoes(Load(dpp, 0), StereoFrames(buffer[from - 16..from]))
    modifies buffer
    ensures WellFormed(f) && f.term == dpp.term && f.wA == wA && f.wB == wB
    ensures DecLoop(Load(dpp, 0), false, StereoFrames(old(buffer[from..from + 2 * count])))
            == (f, StereoFrames(buffer[from..from + 2 * count]))
    ensures Echoes(f, StereoFrames(buffer[from + 2 * count - 16..from + 2 * count]))
    ensures OnlyWithin(buffer, from, from + 2 * count)
  {
    hide DecFrame, DecLoop, Hist, StereoFrames, Echoes;
    wA, wB := dpp.weightA, dpp.weightB;
    ghost var f0 := Load(dpp, 0);
    f := f0;
    ghost var input := buffer[from..from + 2 * count];
    ghost var frames := StereoFrames(input);
    ghost var done: seq<int32> := [];
    NoFrames();
    NoLoop(f0, false, frames);
    for i := 0 to count
      invariant WellFormed(f) && f.term == dpp.term && f.delta == dpp.delta && f.wA == wA && f.wB == wB
      invariant buffer[from..from + 2 * i] == done
      invariant DecLoop(f0, false, frames[..i]) == (f, StereoFrames(done))
      invariant Echoes(f, StereoFrames(buffer[from + 2 * i - 16..from + 2 * i]))
      invariant OnlyWithin(buffer, from, from + 2 * i)
    {
      ghost var at := from + 2 * i;
      FrameAt(input, i);
      DecLoopStep(f0, false, frames, i);
      assert input[2 * i] == buffer[at] && input[2 * i + 1] == buffer[at + 1];
      ghost var prev := buffer[at - 16..at];
      wA, wB := ContStep(dpp.term, dpp.delta, wA, wB, buffer, from + 2 * i, f);
      assert buffer[at - 16..at] == prev;
      EchoMoves(f, prev, Stereo(input[2 * i], input[2 * i + 1]), buffer[at - 14..at + 2]);
      f := DecFrame(f, frames[i]).0;
      FramesAppend(done, buffer[at], buffer[at + 1]);
      assert buffer[from..at] == done;
      done := done + [buffer[at], buffer[at + 1]];
    }
    assert frames[..count] == frames;
  }

  lemma StillUntouched(dpp: DecorrPass, f: Filter)
    requires ValidPass(dpp) && WellFormed(f) && f.term == dpp.term
    requires dpp.term == -1 ==> f.hB == Load(dpp, 0).hB
    requires dpp.term == -2 ==> f.hA == Load(dpp, 0).hA
    ensures Untouched(dpp, f)
  {
  }

  /** The window of eight frames moves on by one. */
  lemma EchoMoves(f: Filter, prev: seq<int32>, fr: Frame, next: seq<int32>)
    requires WellFormed(f) && |prev| == |next| == 16 && fr.Stereo?
    requires Echoes(f, StereoFrames(prev))
    requires next[..14] == prev[2..]
    requires DecFrame(f, fr).1 == Stereo(next[14], next[15])
    ensures Echoes(DecFrame(f, fr).0, StereoFrames(next))
  {
    hide DecFrame;
    var (g, o) := DecFrame(f, fr);
    var out := StereoFrames(prev);
    EchoStep(f, out, fr);
    forall i | 0 <= i < 8
      ensures StereoFrames(next)[i] == (out + [o])[i + 1]
    {
      if i < 7 {
        assert next[2 * i] == next[..14][2 * i] == prev[2..][2 * i];
        assert next[2 * i + 1] == next[..14][2 * i + 1] == prev[2..][2 * i + 1];
      }
    }
  }

  /** Lines 364-380 of unpack.c: up to fifteen frames in one go, more as eight frames and the continuation. */
  method DecorrStereoBlock(dpp: DecorrPass, buffer: array<int32>, count: nat) returns (p: DecorrPass)
    requires ValidPass(dpp) && 2 * count <= buffer.Length
    modifies buffer
    ensures var (f, out) := BlockPass(Load(dpp, 0), false, StereoFrames(old(buffer[..2 * count])));
            p == Store(dpp, 0, f) && StereoFrames(buffer[..2 * count]) == out
    ensures OnlyWithin(buffer, 0, 2 * count)
  {
    hide DecFrame, DecLoop, DecPass, Hist, Slots, Slot, StereoFrames, Echoes, Wrap16, Load, Store;
    assert buffer[..2 * count] == buffer[0..0 + 2 * count];
    ghost var input := buffer[..2 * count];
    if count < 16 {
      p := DecorrStereoPass(dpp, buffer, 0, count);
    } else {
      ghost var head, tail := input[..16], input[16..];
      assert buffer[0..0 + 2 * 8] == head && buffer[16..16 + 2 * (count - 8)] == tail;
      FramesSplit(input, 8);
      p := DecorrStereoPass(dpp, buffer, 0, 8);
      HeadEchoes(dpp, p, StereoFrames(head), StereoFrames(buffer[0..0 + 2 * 8]));
      assert buffer[16 - 16..16] == buffer[0..0 + 2 * 8];
      assert buffer[16..16 + 2 * (count - 8)] == tail;
      ghost var p1, front := p, buffer[0..16];
      p := DecorrStereoPassCont(p, buffer, 16, count - 8);
      assert buffer[0..16] == front;
      assert buffer[..2 * count] == front + buffer[16..16 + 2 * (count - 8)];
      FramesSplit(buffer[..2 * count], 8);
      assert StereoFrames(input)[..8] == StereoFrames(head) && StereoFrames(input)[8..] == StereoFrames(tail);
      StoreTwice(dpp, DecPass(Load(dpp, 0), false, StereoFrames(head)).0, DecPass(Load(p1, 0), false, StereoFrames(tail)).0);
    }
    assert buffer[..2 * count] == buffer[0..0 + 2 * count];
  }

  lemma FramesSplit(s: seq<int32>, n: nat)
    requires |s| % 2 == 0 && 2 * n <= |s|
    ensures StereoFrames(s) == StereoFrames(s[..2 * n]) + StereoFrames(s[2 * n..])
  {
  }

  lemma HeadEchoes(dpp: DecorrPass, p: DecorrPass, head: seq<Frame>, out: seq<Frame>)
    requires ValidPass(dpp) && AllFrames(false, head) && |head| == MAX_TERM
    requires DecPass(Load(dpp, 0), false, head).1 == out
    requires p == Store(dpp, 0, DecPass(Load(dpp, 0), false, head).0)
    ensures Load(p, 0) == DecPass(Load(dpp, 0), false, head).0
    ensures Echoes(Load(p, 0), out)
  {
    hide DecLoop, Hist, Slots, Wrap16, Load, Store;
    EightEcho(Load(dpp, 0), head);
    var f := DecPass(Load(dpp, 0), false, head).0;
    LoadOfStore(dpp, 0, f);
    var g := DecLoop(Load(dpp, 0), false, head).0;
    Wrap16Twice(g.wA);
    Wrap16Twice(g.wB);
  }

  lemma StoreTwice(p: DecorrPass, f: Filter, g: Filter)
    requires ValidPass(p) && WellFormed(f) && WellFormed(g) && f.term == g.term == p.term
    ensures Store(Store(p, 0, f), 0, g) == Store(p, 0, g)
  {
    SlotsTwice(p.term, f.hA, g.hA, p.samplesA);
    SlotsTwice(p.term, f.hB, g.hB, p.samplesB);
  }

  lemma SlotsTwice(term: int, h: seq<int32>, g: seq<int32>, s: seq<int32>)
    requires ValidTerm(term) && |s| == MAX_TERM && |h| == |g| == Depth(term)
    ensures Slots(term, 0, g, Slots(term, 0, h, s)) == Slots(term, 0, g, s)
  {
  }
}
