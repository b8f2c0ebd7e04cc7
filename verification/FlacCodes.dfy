/** A writer of FLAC's partitioned residuals (section 9.2.7 of RFC 9639), and that the readers of
    jni/flac/flac_decoder.c get back what it wrote, wherever in the data that is. */
module FlacCodes {
  import opened Arithmetic
  import opened Machine
  import opened Bits
  import opened FlacGolomb
  import opened FlacResiduals
  import Linear = FlacLinear

  // ---------------------------------------------------------------- bits at a place

  predicate Holds(bits: seq<bool>, p: nat, s: seq<bool>) {
    p + |s| <= |bits| && bits[p..p + |s|] == s
  }

  lemma HoldsBoth(bits: seq<bool>, p: nat, a: seq<bool>, b: seq<bool>)
    requires Holds(bits, p, a + b)
    ensures Holds(bits, p, a) && Holds(bits, p + |a|, b)
  {
    var s := a + b;
    assert bits[p..p + |s|][..|a|] == a;
    assert bits[p..p + |s|][|a|..] == b;
    assert bits[p..p + |a|] == bits[p..p + |s|][..|a|];
    assert bits[p + |a|..p + |s|] == bits[p..p + |s|][|a|..];
  }

  /** The whole bits of a code can be loaded. */
  predicate Reachable(bits: seq<bool>, p: nat, s: seq<bool>) {
    Holds(bits, p, s) && Loadable(bits, p + |s|)
  }

  lemma ReachableBoth(bits: seq<bool>, p: nat, a: seq<bool>, b: seq<bool>)
    requires Reachable(bits, p, a + b)
    ensures Reachable(bits, p, a) && Reachable(bits, p + |a|, b)
  {
    hide Holds;
    HoldsBoth(bits, p, a, b);
    LoadableBefore(bits, p + |a|, p + |a + b|);
  }

  // ---------------------------------------------------------------- one number

  /** x in n bits, two's complement. */
  function Plain(x: int, n: nat): (s: seq<bool>)
    ensures |s| == n
  {
    hide Pow2;
    Spelled(x % Pow2(n), n)
  }

  function Code(x: int32, kind: Kind): seq<bool> {
    match kind
    case RiceKind(k) => RiceCode(x, k)
    case PlainKind(width) => Plain(x, width)
  }

  /** The number fits its kind of code, and the code the reader's cache. */
  predicate Fits(x: int32, kind: Kind) {
    match kind
    case RiceKind(k) => k <= 24 && FlacGolomb.Fold(x) < TWO31 && Quot(x, k) < INT_MAX - 1
    case PlainKind(width) => 1 <= width <= 25 && Linear.Fits(x, width)
  }

  lemma PlainComesBack(bits: seq<bool>, p: nat, x: int32, n: nat)
    requires 1 <= n <= 25 && Linear.Fits(x, n) && Loadable(bits, p) && Holds(bits, p, Plain(x, n))
    ensures FlacResiduals.Signed(Shown(Loaded(bits, p), n), n) == x
  {
    hide Pow2, Number, Spelled, Shown;
    HalfOf(n);
    ShortIsShown(bits, p, n);
    SpelledReads(x % Pow2(n), n);
    TwosComplement(x, Pow2(n - 1));
  }

  lemma TwosComplement(x: int, half: nat)
    requires 0 - half <= x < half
    ensures x % (2 * half) == if x < 0 then x + 2 * half else x
  {
    if x < 0 {
      Uniquely(x, -1, x + 2 * half, 2 * half);
    } else {
      Uniquely(x, 0, x, 2 * half);
    }
  }

  lemma CodeComesBack(bits: seq<bool>, p: nat, x: int32, kind: Kind)
    requires Fits(x, kind) && Reachable(bits, p, Code(x, kind))
    ensures Readable(bits, p, kind) && One(bits, p, kind) == (x, p + |Code(x, kind)|)
  {
    hide Pow2, FlacGolomb.Fold, Quot, Rem, RiceCode, Plain, Zeros, HasOne, Rice, Unfold, Loadable, Linear.Fits, Shown,
         FlacResiduals.Signed, Loaded;
    match kind
    case RiceKind(k) =>
      var before, after := bits[..p], bits[p + |RiceCode(x, k)|..];
      assert bits == before + RiceCode(x, k) + after;
      LoadableBefore(bits, p + Quot(x, k), p + |RiceCode(x, k)|);
      RiceComesBack(x, k, INT_MAX, 0, before, after);
    case PlainKind(width) =>
      LoadableBefore(bits, p, p + width);
      PlainComesBack(bits, p, x, width);
  }

  // ---------------------------------------------------------------- a partition

  function Codes(xs: seq<int32>, kind: Kind): seq<bool> {
    if xs == [] then [] else Codes(xs[..|xs| - 1], kind) + Code(xs[|xs| - 1], kind)
  }

  predicate AllFit(xs: seq<int32>, kind: Kind) {
    forall i :: 0 <= i < |xs| ==> Fits(xs[i], kind)
  }

  lemma {:induction false} CodesComeBack(bits: seq<bool>, p: nat, xs: seq<int32>, kind: Kind)
    requires AllFit(xs, kind) && Reachable(bits, p, Codes(xs, kind))
    ensures Samples(bits, p, kind, |xs|) == Got(xs, p + |Codes(xs, kind)|)
    decreases |xs|
  {
    hide Fits, Code, Readable, One, Reachable;
    NoSamples(bits, p, kind);
    hide Samples;
    if xs == [] {
    } else {
      var n := |xs| - 1;
      ReachableBoth(bits, p, Codes(xs[..n], kind), Code(xs[n], kind));
      CodesComeBack(bits, p, xs[..n], kind);
      CodeComesBack(bits, p + |Codes(xs[..n], kind)|, xs[n], kind);
      OneSampleMore(bits, p, kind, xs[..n], p + |Codes(xs[..n], kind)|);
      assert xs == xs[..n] + [xs[n]];
    }
  }

  lemma NoSamples(bits: seq<bool>, p: nat, kind: Kind)
    ensures Samples(bits, p, kind, 0) == Got([], p)
  {
  }

  lemma OneSampleMore(bits: seq<bool>, p: nat, kind: Kind, xs: seq<int32>, q: nat)
    requires Samples(bits, p, kind, |xs|) == Got(xs, q) && Readable(bits, q, kind)
    ensures var (v, next) := One(bits, q, kind); Samples(bits, p, kind, |xs| + 1) == Got(xs + [v], next)
  {
    hide Readable, One;
  }

  function Escape(coding: nat): nat {
    if coding == 0 then 15 else 31
  }

  /** The kinds a header can announce. */
  predicate Announced(kind: Kind, coding: nat) {
    match kind
    case RiceKind(k) => k < Escape(coding)
    case PlainKind(width) => width < 32
  }

  function HeaderCode(kind: Kind, coding: nat): seq<bool> {
    match kind
    case RiceKind(k) => Spelled(k, 4 + coding)
    case PlainKind(width) => Spelled(Escape(coding), 4 + coding) + Spelled(width, 5)
  }

  lemma HeaderComesBack(bits: seq<bool>, p: nat, kind: Kind, coding: nat)
    requires coding <= 1 && Announced(kind, coding) && Reachable(bits, p, HeaderCode(kind, coding))
    ensures Loadable(bits, p + 4 + coding) && Header(bits, p, coding) == (kind, p + |HeaderCode(kind, coding)|)
  {
    hide Pow2, Number, Spelled, Loadable, Holds;
    SmallPowers();
    match kind
    case RiceKind(k) =>
      NumberComesBack(bits, p, k, 4 + coding);
    case PlainKind(width) =>
      ReachableBoth(bits, p, Spelled(Escape(coding), 4 + coding), Spelled(width, 5));
      NumberComesBack(bits, p, Escape(coding), 4 + coding);
      NumberComesBack(bits, p + 4 + coding, width, 5);
  }

  lemma SmallPowers()
    ensures Pow2(2) == 4 && Pow2(4) == 16 && Pow2(5) == 32
  {
  }

  lemma NumberComesBack(bits: seq<bool>, p: nat, v: nat, n: nat)
    requires v < Pow2(n) && Reachable(bits, p, Spelled(v, n))
    ensures p + n <= |bits| && Number(bits[p..p + n]) == v
    ensures Loadable(bits, p + n) && Loadable(bits, p)
  {
    hide Pow2, Number, Spelled;
    SpelledReads(v, n);
    LoadableBefore(bits, p, p + n);
  }

  function PartitionCode(xs: seq<int32>, kind: Kind, coding: nat): seq<bool> {
    HeaderCode(kind, coding) + Codes(xs, kind)
  }

  lemma PartitionComesBack(bits: seq<bool>, p: nat, xs: seq<int32>, kind: Kind, coding: nat)
    requires coding <= 1 && Announced(kind, coding) && AllFit(xs, kind) && Reachable(bits, p, PartitionCode(xs, kind, coding))
    ensures Partition(bits, p, coding, |xs|) == Got(xs, p + |PartitionCode(xs, kind, coding)|)
  {
    hide Announced, AllFit, Samples, Header, HeaderCode, Codes, Reachable, Loadable;
    ReachableBoth(bits, p, HeaderCode(kind, coding), Codes(xs, kind));
    HeaderComesBack(bits, p, kind, coding);
    CodesComeBack(bits, p + |HeaderCode(kind, coding)|, xs, kind);
  }

  // ---------------------------------------------------------------- all partitions

  /** The first n partitions of residuals r. */
  function PartitionsCode(r: seq<int32>, kinds: seq<Kind>, coding: nat, samples: nat, order: nat, n: nat): seq<bool>
    requires n <= |kinds| && |r| == TotalCount(samples, order, n)
    decreases n
  {
    if n == 0 then []
    else
      var m := TotalCount(samples, order, n - 1);
      PartitionsCode(r[..m], kinds, coding, samples, order, n - 1) + PartitionCode(r[m..], kinds[n - 1], coding)
  }

  /** Every partition's header says its kind, and its residuals fit. */
  predicate Planned(r: seq<int32>, kinds: seq<Kind>, coding: nat, samples: nat, order: nat, n: nat)
    requires n <= |kinds| && |r| == TotalCount(samples, order, n)
    decreases n
  {
    n == 0 ||
    (var m := TotalCount(samples, order, n - 1);
     && Announced(kinds[n - 1], coding) && AllFit(r[m..], kinds[n - 1])
     && Planned(r[..m], kinds, coding, samples, order, n - 1))
  }

  lemma {:induction false} PartitionsComeBack(bits: seq<bool>, p: nat, r: seq<int32>, kinds: seq<Kind>, coding: nat,
                                              samples: nat, order: nat, n: nat)
    requires coding <= 1 && n <= |kinds| && |r| == TotalCount(samples, order, n)
    requires Planned(r, kinds, coding, samples, order, n)
    requires Reachable(bits, p, PartitionsCode(r, kinds, coding, samples, order, n))
    ensures Partitions(bits, p, coding, samples, order, n)
            == Got(r, p + |PartitionsCode(r, kinds, coding, samples, order, n)|)
    decreases n
  {
    hide Announced, AllFit, Partition, PartitionCode, Reachable, Count;
    if n == 0 {
    } else {
      var m := TotalCount(samples, order, n - 1);
      var head := PartitionsCode(r[..m], kinds, coding, samples, order, n - 1);
      ReachableBoth(bits, p, head, PartitionCode(r[m..], kinds[n - 1], coding));
      PartitionsComeBack(bits, p, r[..m], kinds, coding, samples, order, n - 1);
      PartitionComesBack(bits, p + |head|, r[m..], kinds[n - 1], coding);
      assert r == r[..m] + r[m..];
    }
  }

  // ---------------------------------------------------------------- a block

  /** How a subframe is coded: the predictor's order, the width of a sample, the size of a parameter, and each
      partition's kind. */
  datatype Plan = Plan(order: nat, bps: nat, coding: nat, riceOrder: nat, kinds: seq<Kind>) {
    /** The partitions share the block out evenly, and the warm-up is within the first. */
    ghost predicate Shares(blocksize: nat) {
      && order <= 32 && 1 <= bps <= 25 && coding <= 1 && riceOrder < 16
      && |kinds| == Pow2(riceOrder)
      && Rest(blocksize, Pow2(riceOrder)) == 0 && order <= Share(blocksize, Pow2(riceOrder))
    }
  }

  lemma OrderFits(plan: Plan, n: nat)
    requires plan.Shares(n)
    ensures plan.order <= n
  {
    hide Pow2, Share, Rest, TotalCount;
    FillsExactly(n, plan.order, plan.riceOrder);
  }

  /** The warm-up samples at the front of a block and the residuals behind them fit the plan. */
  ghost predicate Accepts(plan: Plan, data: seq<int32>)
    requires plan.Shares(|data|)
  {
    var n := Pow2(plan.riceOrder);
    FillsExactly(|data|, plan.order, plan.riceOrder);
    && AllFit(data[..plan.order], PlainKind(plan.bps))
    && Planned(data[plan.order..], plan.kinds, plan.coding, Share(|data|, n), plan.order, n)
  }

  ghost function WarmUpCode(plan: Plan, data: seq<int32>): seq<bool>
    requires plan.Shares(|data|)
  {
    OrderFits(plan, |data|);
    Codes(data[..plan.order], PlainKind(plan.bps))
  }

  /** The way of coding, the size of a parameter, and the partitions. */
  ghost function ResidualCode(plan: Plan, data: seq<int32>): seq<bool>
    requires plan.Shares(|data|)
  {
    var n := Pow2(plan.riceOrder);
    FillsExactly(|data|, plan.order, plan.riceOrder);
    Spelled(plan.coding, 2) + (Spelled(plan.riceOrder, 4)
    + PartitionsCode(data[plan.order..], plan.kinds, plan.coding, Share(|data|, n), plan.order, n))
  }

  lemma WarmUpComesBack(bits: seq<bool>, p: nat, plan: Plan, data: seq<int32>)
    requires plan.Shares(|data|) && Accepts(plan, data) && Reachable(bits, p, WarmUpCode(plan, data))
    ensures plan.order <= |data|
            && Samples(bits, p, PlainKind(plan.bps), plan.order) == Got(data[..plan.order], p + |WarmUpCode(plan, data)|)
  {
    OrderFits(plan, |data|);
    hide Codes, Samples, Planned, Reachable, AllFit, Plan.Shares;
    CodesComeBack(bits, p, data[..plan.order], PlainKind(plan.bps));
  }

  /** The way of coding and the size of a parameter, and with the block's size the number of partitions. */
  function Coding(bits: seq<bool>, q: nat): nat
    requires Loadable(bits, q)
  {
    Number(bits[q..q + 2])
  }

  function PartitionCount(bits: seq<bool>, q: nat): (n: nat)
    requires Loadable(bits, q + 2)
    ensures n > 0
  {
    hide Pow2, Number;
    Pow2(Number(bits[q + 2..q + 6]))
  }

  ghost function AllPartitions(bits: seq<bool>, q: nat, blocksize: nat, order: nat): Outcome
    requires Loadable(bits, q) && Loadable(bits, q + 2) && Coding(bits, q) <= 1
  {
    var n := PartitionCount(bits, q);
    Partitions(bits, q + 6, Coding(bits, q), Share(blocksize, n), order, n)
  }

  /** What decode_residuals finds behind the warm-up samples: the residuals that were written. */
  lemma ResidualsComeBack(bits: seq<bool>, p: nat, plan: Plan, data: seq<int32>)
    requires plan.Shares(|data|) && Accepts(plan, data) && Reachable(bits, p, ResidualCode(plan, data))
    ensures Loadable(bits, p) && Loadable(bits, p + 2) && Coding(bits, p) == plan.coding <= 1
    ensures plan.order <= |data| && AllPartitions(bits, p, |data|, plan.order)
                                    == Got(data[plan.order..], p + |ResidualCode(plan, data)|)
  {
    hide Number, Spelled, Loadable, Holds, PartitionsCode, Planned, Share, Rest, Partitions, TotalCount, AllFit;
    var n := Pow2(plan.riceOrder);
    FillsExactly(|data|, plan.order, plan.riceOrder);
    SmallPowers();
    hide Pow2;
    var code := PartitionsCode(data[plan.order..], plan.kinds, plan.coding, Share(|data|, n), plan.order, n);
    ReachableBoth(bits, p, Spelled(plan.coding, 2), Spelled(plan.riceOrder, 4) + code);
    NumberComesBack(bits, p, plan.coding, 2);
    ReachableBoth(bits, p + 2, Spelled(plan.riceOrder, 4), code);
    NumberComesBack(bits, p + 2, plan.riceOrder, 4);
    PartitionsComeBack(bits, p + 6, data[plan.order..], plan.kinds, plan.coding, Share(|data|, n), plan.order, n);
  }
}
