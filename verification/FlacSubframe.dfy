/** Whole FLAC subframes (jni/flac/flac_decoder.c lines 181-300): warm-up samples, partitions of residuals, and the
    predictor, fixed or linear (sections 9.2.5 and 9.2.6 of RFC 9639). */
module FlacSubframe {
  import opened Machine
  import opened Arithmetic
  import opened Bits
  import opened FlacGolomb
  import opened FlacResiduals
  import opened FlacFixed
  import opened FlacCodes
  import Linear = FlacLinear

  // ---------------------------------------------------------------- what every plan accepts

  /** How large k-th differences can be. */
  function Grown(bound: nat, k: nat): nat {
    if k == 0 then bound else 2 * Grown(bound, k - 1)
  }

  lemma {:induction false} DifferenceBound(x: seq<int32>, k: nat, i: nat, bound: nat)
    requires k <= i < |x| && forall j :: 0 <= j < |x| ==> Abs(x[j]) <= bound
    ensures Abs(Difference(x, k, i)) <= Grown(bound, k)
    decreases k
  {
    if k == 0 {
    } else {
      DifferenceBound(x, k - 1, i, bound);
      DifferenceBound(x, k - 1, i - 1, bound);
    }
  }

  /** Samples of the announced width, coded with Rice parameters only, always fit: no size of a residual is too large. */
  lemma SoundFits(plan: Plan, x: seq<int32>)
    requires plan.Shares(|x|) && plan.order <= 4
    requires forall i :: 0 <= i < |x| ==> Linear.Fits(x[i], plan.bps)
    requires forall j :: 0 <= j < |plan.kinds| ==>
               plan.kinds[j].RiceKind? && plan.kinds[j].k <= 24 && Announced(plan.kinds[j], plan.coding)
    ensures Accepts(plan, Residuals(x, plan.order))
  {
    hide Pow2, Residuals, TotalCount, Share, Rest, Announced;
    var n, r := Pow2(plan.riceOrder), Residuals(x, plan.order);
    OrderFits(plan, |x|);
    FillsExactly(|x|, plan.order, plan.riceOrder);
    forall i | plan.order <= i < |x|
      ensures Small(r[i])
    {
      SmallResidual(plan, x, i);
    }
    assert AllSmall(r[plan.order..]);
    WarmUpIsPlain(x, plan.order);
    SmallIsPlanned(r[plan.order..], plan.kinds, plan.coding, Share(|x|, n), plan.order, n);
  }

  lemma WarmUpIsPlain(x: seq<int32>, k: nat)
    requires k <= |x|
    ensures Residuals(x, k)[..k] == x[..k]
  {
    hide Difference;
  }

  predicate Small(r: int) {
    -0x1000_0000 <= r <= 0x1000_0000
  }

  predicate AllSmall(r: seq<int32>) {
    forall i :: 0 <= i < |r| ==> Small(r[i])
  }

  lemma SmallResidual(plan: Plan, x: seq<int32>, i: nat)
    requires plan.Shares(|x|) && plan.order <= 4 && plan.order <= i < |x|
    requires forall j :: 0 <= j < |x| ==> Linear.Fits(x[j], plan.bps)
    ensures Small(Residuals(x, plan.order)[i])
  {
    hide Plan.Shares, Difference;
    PlanBounds(plan, |x|);
    Pow2Mono(plan.bps - 1, 24);
    Pow24();
    DifferenceBound(x, plan.order, i, 0x100_0000);
    GrownFour(plan.order);
  }

  lemma PlanBounds(plan: Plan, n: nat)
    requires plan.Shares(n)
    ensures 1 <= plan.bps <= 25
  {
  }

  lemma Pow24()
    ensures Pow2(24) == 0x100_0000
  {
    Powers();
  }

  lemma GrownFour(k: nat)
    requires k <= 4
    ensures Grown(0x100_0000, k) <= 0x1000_0000
  {
    assert Grown(0x100_0000, 4) == 2 * Grown(0x100_0000, 3);
  }

  lemma {:induction false} SmallIsPlanned(r: seq<int32>, kinds: seq<Kind>, coding: nat, samples: nat, order: nat, n: nat)
    requires n <= |kinds| && |r| == TotalCount(samples, order, n) && AllSmall(r)
    requires forall j :: 0 <= j < n ==> kinds[j].RiceKind? && kinds[j].k <= 24 && Announced(kinds[j], coding)
    ensures Planned(r, kinds, coding, samples, order, n)
    decreases n
  {
    hide Announced, Fits, Count;
    if n == 0 {
    } else {
      var m := TotalCount(samples, order, n - 1);
      forall i | m <= i < |r|
        ensures Fits(r[i], kinds[n - 1])
      {
        SmallFits(r[i], kinds[n - 1].k);
      }
      SmallIsPlanned(r[..m], kinds, coding, samples, order, n - 1);
    }
  }

  lemma SmallFits(x: int32, k: nat)
    requires Small(x) && k <= 24
    ensures Fits(x, RiceKind(k))
  {
    hide Pow2;
    QuotientBounds(FlacGolomb.Fold(x), Pow2(k));
  }

  // ---------------------------------------------------------------- reading

  /** Where warm-up samples or coefficients end. */
  ghost function After(bits: seq<bool>, p: nat, n: nat, width: nat): nat
    requires Samples(bits, p, PlainKind(width), n).Got?
  {
    Samples(bits, p, PlainKind(width), n).next
  }

  /** The block with the warm-up samples in front. */
  ghost function Warmed(bits: seq<bool>, p: nat, order: nat, bps: nat, was: seq<int32>): (s: seq<int32>)
    requires order <= |was| && Samples(bits, p, PlainKind(bps), order).Got?
    ensures |s| == |was|
  {
    Samples(bits, p, PlainKind(bps), order).values + was[order..]
  }

  /** The data holds the residuals that are announced, and they are no more than a block. */
  ghost predicate TailComplete(bits: seq<bool>, q: nat, blocksize: nat, order: nat) {
    && order <= blocksize && Loadable(bits, q) && Loadable(bits, q + 2)
    && (Coding(bits, q) <= 1 ==>
          && AllPartitions(bits, q, blocksize, order).Got?
          && order + |AllPartitions(bits, q, blocksize, order).values| <= blocksize)
  }

  /** The block with the residuals stored behind the warm-up. */
  ghost function Filled(bits: seq<bool>, q: nat, order: nat, block: seq<int32>): (s: seq<int32>)
    requires TailComplete(bits, q, |block|, order)
    ensures |s| == |block|
  {
    var r := if Coding(bits, q) <= 1 then AllPartitions(bits, q, |block|, order).values else [];
    block[..order] + r + block[order + |r|..]
  }

  method ReadWarmUp(bits: seq<bool>, index: nat, decoded: array<int32>, order: nat, bps: nat) returns (next: nat)
    requires order <= decoded.Length && Samples(bits, index, PlainKind(bps), order).Got?
    modifies decoded
    ensures decoded[..] == Warmed(bits, index, order, bps, old(decoded[..])) && next == After(bits, index, order, bps)
  {
    hide Samples;
    ghost var was := decoded[..];
    next := ReadSamples(bits, index, PlainKind(bps), decoded, 0, order);
    assert decoded[..] == decoded[..order] + was[order..];
  }

  method ReadResiduals(bits: seq<bool>, index: nat, decoded: array<int32>, order: nat) returns (code: int, next: nat)
    requires TailComplete(bits, index, decoded.Length, order)
    modifies decoded
    ensures decoded[..] == Filled(bits, index, order, old(decoded[..]))
    ensures if Coding(bits, index) > 1 then code < 0
            else code == 0 && next == AllPartitions(bits, index, decoded.Length, order).next
  {
    hide Partitions, TotalCount, Number, Pow2, Loadable, Share;
    ghost var was := decoded[..];
    ghost var r;
    code, next, r := DecodeResiduals(bits, index, decoded, decoded.Length, order);
    FilledIs(decoded[..], was, order, r);
  }

  lemma FilledIs(now: seq<int32>, was: seq<int32>, order: nat, r: seq<int32>)
    requires order + |r| <= |now| == |was|
    requires forall j :: 0 <= j < |now| && !(order <= j < order + |r|) ==> now[j] == was[j]
    requires now[order..order + |r|] == r
    ensures now == was[..order] + r + was[order + |r|..]
  {
    assert now[..order] == was[..order];
    assert now[order + |r|..] == was[order + |r|..];
    assert now == now[..order] + now[order..order + |r|] + now[order + |r|..];
  }

  /** What was written is what is stored. */
  lemma BlockFills(bits: seq<bool>, p: nat, q: nat, plan: Plan, data: seq<int32>, was: seq<int32>)
    requires |was| == |data| && plan.Shares(|data|) && Accepts(plan, data)
    requires Reachable(bits, p, WarmUpCode(plan, data)) && Reachable(bits, q, ResidualCode(plan, data))
    ensures Samples(bits, p, PlainKind(plan.bps), plan.order).Got? && plan.order <= |data|
    ensures After(bits, p, plan.order, plan.bps) == p + |WarmUpCode(plan, data)|
    ensures TailComplete(bits, q, |data|, plan.order) && Coding(bits, q) <= 1
    ensures Filled(bits, q, plan.order, Warmed(bits, p, plan.order, plan.bps, was)) == data
    ensures AllPartitions(bits, q, |data|, plan.order).next == q + |ResidualCode(plan, data)|
  {
    hide WarmUpCode, ResidualCode, Samples, AllPartitions, Coding, Loadable, Reachable, Plan.Shares, Accepts;
    WarmUpComesBack(bits, p, plan, data);
    ResidualsComeBack(bits, q, plan, data);
    assert data[..plan.order] + data[plan.order..] == data;
  }

  // ---------------------------------------------------------------- fixed predictors

  /** The data holds what a subframe of a fixed predictor announces. */
  ghost predicate FixedComplete(bits: seq<bool>, p: nat, blocksize: nat, order: nat, bps: nat) {
    && order <= blocksize && Samples(bits, p, PlainKind(bps), order).Got?
    && TailComplete(bits, After(bits, p, order, bps), blocksize, order)
  }

  /** `decode_subframe_fixed`. */
  method DecodeSubframeFixed(bits: seq<bool>, index: nat, decoded: array<int32>, order: nat, bps: nat)
    returns (code: int, next: nat)
    requires FixedComplete(bits, index, decoded.Length, order, bps)
    modifies decoded
    ensures var q := After(bits, index, order, bps);
            var stored := Filled(bits, q, order, Warmed(bits, index, order, bps, old(decoded[..])));
            if Coding(bits, q) > 1 then code == -4 && decoded[..] == stored
            else
              && next == AllPartitions(bits, q, decoded.Length, order).next
              && code == (if order > 4 then -5 else 0)
              && decoded[..] == if order > 4 then stored else Restored(stored, order)
  {
    hide Samples, AllPartitions, Restored, Coding, Loadable, Filled, Warmed;
    next := ReadWarmUp(bits, index, decoded, order, bps);
    code, next := ReadResiduals(bits, next, decoded, order);
    if code < 0 {
      return -4, next;
    }
    code := RestoreFixed(decoded, decoded.Length, order);
  }

  /** The subframe of samples x with a fixed predictor. */
  ghost function FixedCode(plan: Plan, x: seq<int32>): seq<bool>
    requires plan.Shares(|x|)
  {
    WarmUpCode(plan, Residuals(x, plan.order)) + ResidualCode(plan, Residuals(x, plan.order))
  }

  /** Samples coded with a fixed predictor by any plan that accepts their differences come back, wherever the subframe
      is. */
  method FixedComesBack(bits: seq<bool>, index: nat, decoded: array<int32>, ghost plan: Plan, ghost x: seq<int32>,
                        order: nat, bps: nat)
    returns (code: int, next: nat)
    requires |x| == decoded.Length && plan.Shares(|x|) && order == plan.order <= 4 && bps == plan.bps
    requires Accepts(plan, Residuals(x, order)) && Reachable(bits, index, FixedCode(plan, x))
    modifies decoded
    ensures code == 0 && decoded[..] == x && next == index + |FixedCode(plan, x)|
  {
    hide Residuals, Restored, Samples, AllPartitions, Coding, Loadable, Reachable, WarmUpCode, ResidualCode, Accepts,
         Plan.Shares, Filled, Warmed;
    ghost var data := Residuals(x, order);
    ReachableBoth(bits, index, WarmUpCode(plan, data), ResidualCode(plan, data));
    BlockFills(bits, index, index + |WarmUpCode(plan, data)|, plan, data, decoded[..]);
    RestoredOfResiduals(x, order);
    code, next := DecodeSubframeFixed(bits, index, decoded, order, bps);
  }

  // ---------------------------------------------------------------- linear predictors

  /** The bits of a coefficient. */
  function Precision(bits: seq<bool>, q: nat): nat
    requires Loadable(bits, q)
  {
    Number(bits[q..q + 4]) + 1
  }

  /** How far a sum is shifted. */
  function Level(bits: seq<bool>, q: nat): int32
    requires Loadable(bits, q + 4)
  {
    FlacResiduals.Signed(Shown(Loaded(bits, q + 4), 5), 5)
  }

  /** Where the coefficients of a good predictor begin, and where its residuals do. */
  ghost predicate HeadComplete(bits: seq<bool>, q: nat, order: nat) {
    && Loadable(bits, q) && Loadable(bits, q + 4)
    && (Precision(bits, q) != 16 && Level(bits, q) >= 0 ==>
          Samples(bits, q + 9, PlainKind(Precision(bits, q)), order).Got?)
  }

  ghost function Coefficients(bits: seq<bool>, q: nat, order: nat): (c: seq<int32>)
    requires HeadComplete(bits, q, order) && Precision(bits, q) != 16 && Level(bits, q) >= 0
    ensures |c| == order
  {
    Samples(bits, q + 9, PlainKind(Precision(bits, q)), order).values
  }

  ghost function AfterHead(bits: seq<bool>, q: nat, order: nat): nat
    requires HeadComplete(bits, q, order) && Precision(bits, q) != 16 && Level(bits, q) >= 0
  {
    After(bits, q + 9, order, Precision(bits, q))
  }

  /** The data holds what a subframe of a linear predictor announces. */
  ghost predicate LinearComplete(bits: seq<bool>, p: nat, blocksize: nat, order: nat, bps: nat) {
    && order <= blocksize && Samples(bits, p, PlainKind(bps), order).Got?
    && var q := After(bits, p, order, bps);
       && HeadComplete(bits, q, order)
       && (Precision(bits, q) != 16 && Level(bits, q) >= 0 ==>
             TailComplete(bits, AfterHead(bits, q, order), blocksize, order))
  }

  /** The head of a linear predictor: refused for a precision of 16 or a negative level. */
  method ReadHead(bits: seq<bool>, index: nat, order: nat) returns (code: int, precision: nat, level: nat, coeffs: seq<int32>, next: nat)
    requires HeadComplete(bits, index, order)
    ensures code == if Precision(bits, index) == 16 then -6 else if Level(bits, index) < 0 then -7 else 0
    ensures code == 0 ==> && precision == Precision(bits, index) && level == Level(bits, index) < 16
                          && coeffs == Coefficients(bits, index, order) && next == AfterHead(bits, index, order)
  {
    hide Number, Shown, Samples, FlacResiduals.Signed, Loadable;
    var v, n := GetBits(bits, index, 4);
    precision, level, coeffs, next := v + 1, 0, [], n;
    if precision == 16 {
      return -6, precision, level, coeffs, next;
    }
    var signed;
    signed, next := GetSBits(bits, next, 5);
    LevelBounds(bits, index);
    if signed < 0 {
      return -7, precision, level, coeffs, next;
    }
    level := signed;
    var buffer := new int32[order];
    next := ReadSamples(bits, next, PlainKind(precision), buffer, 0, order);
    coeffs := buffer[..];
    assert buffer[0..order] == buffer[..];
    code := 0;
  }

  lemma LevelBounds(bits: seq<bool>, q: nat)
    requires Loadable(bits, q + 4)
    ensures Level(bits, q) < 16
  {
    hide Shown;
    assert Pow2(5) == 32 && Pow2(4) == 16;
  }

  /** What becomes of a subframe: a code and the block as it was left, or the block decoded and where it ended. */
  datatype Subframe = Refused(code: int, block: seq<int32>) | Decoded(block: seq<int32>, next: nat)

  ghost function LinearSubframe(bits: seq<bool>, p: nat, order: nat, curr: nat, bps: nat, was: seq<int32>): Subframe
    requires LinearComplete(bits, p, |was|, order, curr)
  {
    hide Samples, AllPartitions, Linear.Restored, Linear.Narrow, Coding, Loadable, Filled, Warmed, Precision, Level;
    var q, warmed := After(bits, p, order, curr), Warmed(bits, p, order, curr, was);
    if Precision(bits, q) == 16 then Refused(-6, warmed)
    else if Level(bits, q) < 0 then Refused(-7, warmed)
    else
      LinearTail(bits, AfterHead(bits, q, order), Coefficients(bits, q, order), Level(bits, q),
                 Linear.Narrow(bps, Precision(bits, q), order), warmed)
  }

  ghost function LinearTail(bits: seq<bool>, t: nat, coeffs: seq<int32>, level: nat, narrow: bool, warmed: seq<int32>): Subframe
    requires TailComplete(bits, t, |warmed|, |coeffs|)
  {
    hide AllPartitions, Linear.Restored, Coding, Loadable, Filled;
    var stored := Filled(bits, t, |coeffs|, warmed);
    if Coding(bits, t) > 1 then Refused(-8, stored)
    else
      Decoded(Linear.Restored(stored, coeffs, level, narrow), AllPartitions(bits, t, |warmed|, |coeffs|).next)
  }

  /** `decode_subframe_lpc`, with curr the bits of a sample here and bps those of the frame. */
  method DecodeSubframeLpc(bits: seq<bool>, index: nat, decoded: array<int32>, order: nat, curr: nat, bps: nat)
    returns (code: int, next: nat)
    requires 0 < order < TWO32 && LinearComplete(bits, index, decoded.Length, order, curr)
    modifies decoded
    ensures match LinearSubframe(bits, index, order, curr, bps, old(decoded[..]))
            case Refused(c, block) => code == c && decoded[..] == block
            case Decoded(block, n) => code == 0 && decoded[..] == block && next == n
  {
    hide Samples, AllPartitions, Linear.Restored, Linear.Narrow, Coding, Loadable, Filled, Warmed, Precision, Level;
    next := ReadWarmUp(bits, index, decoded, order, curr);
    var precision, level, coeffs;
    code, precision, level, coeffs, next := ReadHead(bits, next, order);
    if code < 0 {
      return;
    }
    code, next := ReadResiduals(bits, next, decoded, order);
    if code < 0 {
      return -8, next;
    }
    Linear.RestoreLinear(decoded, coeffs, level, bps, precision);
  }

  /** The head of a linear predictor. */
  function HeadCode(coeffs: seq<int32>, level: nat, precision: nat): seq<bool>
    requires precision > 0
  {
    Spelled(precision - 1, 4) + (Plain(level, 5) + Codes(coeffs, PlainKind(precision)))
  }

  lemma HeadComesBack(bits: seq<bool>, q: nat, coeffs: seq<int32>, level: nat, precision: nat)
    requires 1 <= precision <= 15 && level < 16 && Linear.AllFit(coeffs, precision)
    requires Reachable(bits, q, HeadCode(coeffs, level, precision))
    ensures HeadComplete(bits, q, |coeffs|) && Precision(bits, q) == precision && Level(bits, q) == level
    ensures Coefficients(bits, q, |coeffs|) == coeffs
            && AfterHead(bits, q, |coeffs|) == q + |HeadCode(coeffs, level, precision)|
  {
    hide Number, Shown, Samples, FlacResiduals.Signed, Loadable, Loaded, Plain, Spelled, Codes, Reachable, Holds;
    var tail := Plain(level, 5) + Codes(coeffs, PlainKind(precision));
    assert Pow2(4) == 16;
    hide Pow2;
    ReachableBoth(bits, q, Spelled(precision - 1, 4), tail);
    NumberComesBack(bits, q, precision - 1, 4);
    ReachableBoth(bits, q + 4, Plain(level, 5), Codes(coeffs, PlainKind(precision)));
    ReachableIs(bits, q + 4, Plain(level, 5));
    PlainComesBack(bits, q + 4, level, 5);
    CodesComeBack(bits, q + 9, coeffs, PlainKind(precision));
  }

  lemma ReachableIs(bits: seq<bool>, p: nat, s: seq<bool>)
    requires Reachable(bits, p, s)
    ensures Holds(bits, p, s) && Loadable(bits, p)
  {
    LoadableBefore(bits, p, p + |s|);
  }

  /** The subframe of samples x with a linear predictor. */
  ghost function LinearCode(plan: Plan, x: seq<int32>, coeffs: seq<int32>, level: nat, precision: nat): seq<bool>
    requires plan.Shares(|x|) && precision > 0
  {
    var data := Linear.Residuals(x, coeffs, level);
    WarmUpCode(plan, data) + (HeadCode(coeffs, level, precision) + ResidualCode(plan, data))
  }

  /** Samples coded with a linear predictor come back if they have no more bits than the frame announces. Those of a
      side channel, which have one more, come back exactly if no sum that is shifted leaves the 32 bits it is taken in. */
  method LinearComesBack(bits: seq<bool>, index: nat, decoded: array<int32>, ghost plan: Plan, ghost x: seq<int32>,
                         ghost coeffs: seq<int32>, ghost level: nat, ghost precision: nat, order: nat, curr: nat, bps: nat)
    returns (code: int, next: nat)
    requires |x| == decoded.Length && plan.Shares(|x|) && 0 < order == plan.order == |coeffs| && curr == plan.bps
    requires 1 <= precision <= 15 && level < 16 && 0 < bps && curr <= bps + 1
    requires Linear.AllFit(x, curr) && Linear.AllFit(coeffs, precision)
    requires Accepts(plan, Linear.Residuals(x, coeffs, level))
    requires Reachable(bits, index, LinearCode(plan, x, coeffs, level, precision))
    modifies decoded
    ensures code == 0 && next == index + |LinearCode(plan, x, coeffs, level, precision)|
    ensures curr <= bps ==> decoded[..] == x
    ensures decoded[..] == x <==> !Linear.Narrow(bps, precision, order) || level == 0
                                  || forall i :: order <= i < |x| ==> Linear.SumFits(coeffs, x, i)
  {
    hide Linear.Residuals, Linear.Restored, Linear.Narrow, Linear.AllFit, Linear.SumFits, Samples, AllPartitions, Coding,
         Loadable, Reachable, WarmUpCode, HeadCode, ResidualCode, Accepts, Plan.Shares, Filled, Warmed, Precision, Level,
         HeadComplete, Coefficients, AfterHead;
    OrderSmall(plan, |x|);
    LinearArrives(bits, index, plan, x, coeffs, level, precision, decoded[..]);
    WidthGrows(x, curr, bps + 1);
    Linear.SideSurvivesExactly(x, coeffs, level, bps, precision);
    if curr <= bps {
      WidthGrows(x, curr, bps);
      Linear.SoundSurvives(x, coeffs, level, bps, precision);
    }
    code, next := DecodeSubframeLpc(bits, index, decoded, order, curr, bps);
  }

  lemma OrderSmall(plan: Plan, n: nat)
    requires plan.Shares(n)
    ensures plan.order <= 32 && plan.bps > 0
  {
  }

  lemma WidthGrows(x: seq<int32>, m: nat, n: nat)
    requires 0 < m <= n && Linear.AllFit(x, m)
    ensures Linear.AllFit(x, n)
  {
    hide Pow2;
    Pow2Mono(m - 1, n - 1);
  }

  /** Predictor, residuals and the end of a linear subframe are found. */
  ghost predicate Finds(bits: seq<bool>, p: nat, bps: nat, was: seq<int32>, coeffs: seq<int32>, level: nat, precision: nat,
                        stored: seq<int32>, end: nat)
  {
    var order := |coeffs|;
    && LinearComplete(bits, p, |was|, order, bps)
    && var q := After(bits, p, order, bps);
       && Precision(bits, q) == precision && Level(bits, q) == level && precision != 16
       && Coefficients(bits, q, order) == coeffs
       && FindsTail(bits, AfterHead(bits, q, order), order, Warmed(bits, p, order, bps, was), stored, end)
  }

  ghost predicate FindsTail(bits: seq<bool>, t: nat, order: nat, warmed: seq<int32>, stored: seq<int32>, end: nat) {
    && TailComplete(bits, t, |warmed|, order) && Coding(bits, t) <= 1 && Filled(bits, t, order, warmed) == stored
    && AllPartitions(bits, t, |warmed|, order).next == end
  }

  lemma LinearArrives(bits: seq<bool>, p: nat, plan: Plan, x: seq<int32>, coeffs: seq<int32>, level: nat, precision: nat,
                      was: seq<int32>)
    requires |was| == |x| && plan.Shares(|x|) && plan.order == |coeffs|
    requires 1 <= precision <= 15 && level < 16 && Linear.AllFit(coeffs, precision)
    requires Accepts(plan, Linear.Residuals(x, coeffs, level))
    requires Reachable(bits, p, LinearCode(plan, x, coeffs, level, precision))
    ensures Finds(bits, p, plan.bps, was, coeffs, level, precision, Linear.Residuals(x, coeffs, level),
                  p + |LinearCode(plan, x, coeffs, level, precision)|)
  {
    hide Linear.Residuals, Linear.AllFit, Samples, AllPartitions, Coding, Loadable, Reachable, WarmUpCode, HeadCode,
         ResidualCode, Accepts, Plan.Shares, Filled, Warmed, Precision, Level, HeadComplete, Coefficients, AfterHead,
         TailComplete;
    var data := Linear.Residuals(x, coeffs, level);
    var head := HeadCode(coeffs, level, precision);
    var q := p + |WarmUpCode(plan, data)|;
    ReachableBoth(bits, p, WarmUpCode(plan, data), head + ResidualCode(plan, data));
    ReachableBoth(bits, q, head, ResidualCode(plan, data));
    HeadComesBack(bits, q, coeffs, level, precision);
    BlockFills(bits, p, q + |head|, plan, data, was);
  }
}
