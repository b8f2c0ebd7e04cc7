/** How a decorrelation pass of jni/wv/pack.c and jni/wv/unpack.c learns (with the macros of jni/wv/wavpack.h lines
    366-391): what its predictions look back on, and where its weights go. */
module DecorrAdapt {
  import opened Machine
  import opened DecorrSpec
  import opened DecorrInverse

  function Sgn(x: int): int {
    if x > 0 then 1 else if x < 0 then -1 else 0
  }

  /** Whether prediction and residual agree in sign: 1, -1, or 0 if one of them is zero. */
  function Agreement(source: int, residual: int): (a: int)
    ensures -1 <= a <= 1
  {
    Sgn(source) * Sgn(residual)
  }

  function Times(x: int, y: int): int {
    x * y
  }

  // ---------------------------------------------------------------- predictions

  /** Both forms of `apply_weight` give the integer nearest to weight times sample over 1024, where the product fits. */
  lemma ApplyRounds(w: int16, s: int32)
    requires InInt32(Times(w, s) + 512)
    ensures -512 < 1024 * Apply(w, s) - Times(w, s) <= 512
    ensures -512 < 1024 * ApplyI(w, s) - Times(w, s) <= 512
  {
    hide Apply, ApplyI;
    ApplyIsExact(w, s);
  }

  function PushAll(h: seq<int32>, xs: seq<int32>): (r: seq<int32>)
    requires |h| > 0
    ensures |r| == |h|
  {
    if xs == [] then h else Push(PushAll(h, xs[..|xs| - 1]), xs[|xs| - 1])
  }

  /** A history holds the newest samples, the oldest first. */
  lemma {:induction false} HistoryHolds(h: seq<int32>, xs: seq<int32>, k: nat)
    requires 1 <= k <= |xs| && k <= |h|
    ensures PushAll(h, xs)[|h| - k] == xs[|xs| - k]
    decreases |xs|
  {
    if k == 1 {
    } else {
      HistoryHolds(h, xs[..|xs| - 1], k - 1);
    }
  }

  /** A term up to 8 predicts the sample that many before. */
  lemma DelayPredicts(term: int, h: seq<int32>, xs: seq<int32>)
    requires 1 <= term <= MAX_TERM && |h| == Depth(term) && term <= |xs|
    ensures Predict(term, PushAll(h, xs)) == xs[|xs| - term]
  {
    hide Push;
    HistoryHolds(h, xs, term);
  }

  /** Terms 17 and 18 continue a straight line: by the whole step and by half of it. */
  lemma LinePredicts(h: seq<int32>, xs: seq<int32>, a: int32, step: int)
    requires |h| == 2 && |xs| >= 2 && xs[|xs| - 2] == a && xs[|xs| - 1] == a + step
    requires InInt32(a + 2 * step) && InInt32(2 * a + 3 * step)
    ensures Predict(17, PushAll(h, xs)) == a + 2 * step
    ensures 2 * (a + step) + step - 1 <= 2 * Predict(18, PushAll(h, xs)) <= 2 * (a + step) + step
  {
    hide Push;
    HistoryHolds(h, xs, 1);
    HistoryHolds(h, xs, 2);
  }

  // ---------------------------------------------------------------- weights

  /** A weight after a sample: delta nearer to agreement. */
  predicate Moves(w: int, delta: nat, source: int, residual: int, v: int) {
    v == w + Times(delta, Agreement(source, residual))
  }

  /** The same within bounds, for a weight that moves towards them. */
  predicate MovesWithin(w: int, delta: nat, source: int, residual: int, v: int) {
    var a := Agreement(source, residual);
    if a > 0 then v == Lower(w + delta, 1024) else if a < 0 then v == Upper(w - delta, -1024) else v == w
  }

  function Lower(x: int, y: int): int {
    if x < y then x else y
  }

  function Upper(x: int, y: int): int {
    if x > y then x else y
  }

  /** The move has the size of delta, no move only for silence, and the same sample weighs delta times its size more
      in the direction of the residual. */
  lemma MoveHelps(w: int, delta: nat, source: int, residual: int, v: int)
    requires Moves(w, delta, source, residual, v)
    ensures source == 0 || residual == 0 ==> v == w
    ensures source != 0 && residual != 0 ==> Abs(v - w) == delta
    ensures Times(v, source) - Times(w, source) == Times(Times(delta, Abs(source)), Sgn(residual))
  {
    var a := Agreement(source, residual);
    assert Times(v, source) - Times(w, source) == Times(delta, Times(a, source)) by {
      Spread(w, delta, a, source);
    }
    assert Times(a, source) == Times(Abs(source), Sgn(residual));
    Regroup(delta, Abs(source), Sgn(residual));
  }

  /** A weight that is kept within bounds moves the same way, if less far, and stands still for silence or at a bound. */
  lemma BoundedMoveHelps(w: int, delta: nat, source: int, residual: int, v: int)
    requires -1024 <= w <= 1024 && delta > 0 && MovesWithin(w, delta, source, residual, v)
    ensures -1024 <= v <= 1024 && Abs(v - w) <= delta
    ensures v > w ==> Agreement(source, residual) == 1
    ensures v < w ==> Agreement(source, residual) == -1
    ensures v == w <==> source == 0 || residual == 0 || w == 1024 * Agreement(source, residual)
  {
  }

  lemma Spread(w: int, delta: int, a: int, s: int)
    ensures Times(w + Times(delta, a), s) - Times(w, s) == Times(delta, Times(a, s))
  {
    assert (w + delta * a) * s == w * s + delta * a * s;
    assert delta * a * s == delta * (a * s);
  }

  lemma Regroup(x: int, y: int, z: int)
    ensures Times(x, Times(y, z)) == Times(Times(x, y), z)
  {
  }

  lemma UpdateMoves(w: int, delta: nat, source: int, result: int)
    ensures Moves(w, delta, source, result, Update(w, delta, source, result))
    ensures MovesWithin(w, delta, source, result, UpdateClip(w, delta, source, result))
  {
  }

  // ---------------------------------------------------------------- a frame

  /** The samples whose products with the weights a frame is predicted by, from the history and from the frame's own
      samples as the decoder has them. */
  function Sources(f: Filter, samples: Frame): (int, int)
    requires WellFormed(f) && (samples.Mono? ==> f.term > 0)
  {
    if f.term > 0 then (Predict(f.term, f.hA), Predict(f.term, f.hB))
    else if f.term == -1 then (f.hA[0], samples.a)
    else if f.term == -2 then (samples.b, f.hB[0])
    else (f.hA[0], f.hB[0])
  }

  /** The weights after a frame, in integers. */
  predicate Learns(f: Filter, delta: nat, samples: Frame, residuals: Frame, vA: int, vB: int)
    requires WellFormed(f) && (samples.Mono? ==> f.term > 0) && (samples.Mono? <==> residuals.Mono?)
  {
    var (a, b) := Sources(f, samples);
    if f.term > 0 then
      && Moves(f.wA, delta, a, residuals.a, vA)
      && (if residuals.Mono? then vB == f.wB else Moves(f.wB, delta, b, residuals.b, vB))
    else
      MovesWithin(f.wA, delta, a, residuals.a, vA) && MovesWithin(f.wB, delta, b, residuals.b, vB)
  }

  /** Every term of the decoder learns from its samples and residuals. */
  lemma DecFrameLearns(f: Filter, residuals: Frame) returns (vA: int, vB: int)
    requires WellFormed(f) && (residuals.Mono? ==> f.term > 0)
    ensures var (g, samples) := DecFrame(f, residuals);
            && Learns(f, f.delta, samples, residuals, vA, vB)
            && g.wA == Wrap32(vA) && (residuals.Stereo? ==> g.wB == Wrap32(vB))
  {
    hide Moves, MovesWithin, Update, UpdateClip, Apply, Wrap32, Predict;
    var (g, samples) := DecFrame(f, residuals);
    var (a, b) := Sources(f, samples);
    UpdateMoves(f.wA, f.delta, a, residuals.a);
    if f.term > 0 {
      vA, vB := Update(f.wA, f.delta, a, residuals.a), f.wB;
    } else {
      vA := UpdateClip(f.wA, f.delta, a, residuals.a);
    }
    if residuals.Stereo? {
      UpdateMoves(f.wB, f.delta, b, residuals.b);
      vB := if f.term > 0 then Update(f.wB, f.delta, b, residuals.b) else UpdateClip(f.wB, f.delta, b, residuals.b);
    }
  }

  /** Every term of the encoder does, by 2 at a time and into shorts. */
  lemma EncFrameLearns(f: Filter, samples: Frame) returns (vA: int, vB: int)
    requires WellFormed(f) && (samples.Mono? ==> f.term > 0)
    requires samples.Stereo? ==> f.term == -2 || 0 < f.term != MAX_TERM
    ensures var (g, residuals) := EncFrame(f, samples);
            && Learns(f, 2, samples, residuals, vA, vB)
            && g.wA == Wrap16(vA) && (samples.Stereo? ==> g.wB == Wrap16(vB))
  {
    hide Moves, MovesWithin, Update, UpdateClip, ApplyI, Wrap32, Predict;
    var (g, residuals) := EncFrame(f, samples);
    var (a, b) := Sources(f, samples);
    UpdateMoves(f.wA, 2, a, residuals.a);
    if f.term > 0 {
      vA, vB := Update(f.wA, 2, a, residuals.a), f.wB;
    } else {
      vA := UpdateClip(f.wA, 2, a, residuals.a);
    }
    if samples.Stereo? {
      UpdateMoves(f.wB, 2, b, residuals.b);
      vB := if f.term > 0 then Update(f.wB, 2, b, residuals.b) else UpdateClip(f.wB, 2, b, residuals.b);
    }
  }

  /** What a cross term remembers of a frame: the sample of the other channel that the next frame is predicted by. */
  lemma CrossRemembers(f: Filter, residuals: Frame)
    requires WellFormed(f) && f.term < 0 && residuals.Stereo?
    ensures var (g, samples) := DecFrame(f, residuals);
            && (f.term != -2 ==> g.hA == [samples.b])
            && (f.term != -1 ==> g.hB == [samples.a])
  {
    hide UpdateClip, Apply, Wrap32;
  }

  /** A sample is its residual and what its source predicts. */
  lemma DecFrameAdds(f: Filter, residuals: Frame)
    requires WellFormed(f) && (residuals.Mono? ==> f.term > 0)
    ensures var samples := DecFrame(f, residuals).1;
            var (a, b) := Sources(f, samples);
            && samples.a == WrapAdd(residuals.a, Apply(f.wA, a))
            && (residuals.Stereo? ==> samples.b == WrapAdd(residuals.b, Apply(f.wB, b)))
  {
    hide Update, UpdateClip, Apply, Predict;
  }

  // ---------------------------------------------------------------- a pass

  /** How often source and residual agreed in a channel during an encoder pass, less how often they did not. */
  function Score(f: Filter, mono: bool, frames: seq<Frame>): int
    requires Suits(f, mono, frames) && f.term > 0
  {
    hide EncFrame, Predict;
    if frames == [] then 0
    else
      var n := |frames| - 1;
      var g := EncPass(f, mono, frames[..n]).0;
      Score(f, mono, frames[..n]) + Agreement(Predict(g.term, g.hA), EncFrame(g, frames[n]).1.a)
  }

  /** A weight of the encoder is where it began and 2 for every agreement. */
  lemma {:induction false} WeightIsScore(f: Filter, mono: bool, frames: seq<Frame>)
    requires Suits(f, mono, frames) && f.term > 0 && f.wA == Wrap16(f.wA) && (mono || f.term != MAX_TERM)
    ensures EncPass(f, mono, frames).0.wA == Wrap16(f.wA + 2 * Score(f, mono, frames))
    decreases |frames|
  {
    hide EncFrame, Predict, Wrap16, Learns;
    if frames == [] {
    } else {
      var n := |frames| - 1;
      var g := EncPass(f, mono, frames[..n]).0;
      WeightIsScore(f, mono, frames[..n]);
      var vA, vB := EncFrameLearns(g, frames[n]);
      MovedA(g, frames[n], EncFrame(g, frames[n]).1, vA, vB);
      ShortOnTheWay(f.wA + 2 * Score(f, mono, frames[..n]),
                    2 * Agreement(Predict(g.term, g.hA), EncFrame(g, frames[n]).1.a));
    }
  }

  lemma MovedA(f: Filter, samples: Frame, residuals: Frame, vA: int, vB: int)
    requires WellFormed(f) && f.term > 0 && (samples.Mono? <==> residuals.Mono?)
    requires Learns(f, 2, samples, residuals, vA, vB)
    ensures vA == f.wA + 2 * Agreement(Predict(f.term, f.hA), residuals.a)
  {
    hide Predict, Agreement;
  }

  lemma ShortOnTheWay(x: int, y: int)
    ensures Wrap16(Wrap16(x) + y) == Wrap16(x + y)
  {
    var k := (x - Wrap16(x)) / TWO16;
    assert x == Wrap16(x) + k * TWO16;
    assert (Wrap16(x) + y + k * TWO16) % TWO16 == (Wrap16(x) + y) % TWO16;
  }
}
