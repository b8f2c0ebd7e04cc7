/** The residuals of a FLAC subframe (jni/flac/flac_decoder.c lines 141-179): partitions of equal size, the first shorter
    by the warm-up samples, each with its own Rice parameter or plain width (section 9.2.7 of RFC 9639). */
module FlacResiduals {
  import opened Machine
  import opened Arithmetic
  import opened Bits
  import opened FlacGolomb

  const INT_MAX := 0x7fff_ffff

  // ---------------------------------------------------------------- one residual

  datatype Kind = RiceKind(k: nat) | PlainKind(width: nat)

  /** A residual that can be read: what it needs is in memory, and no shift is by the width of the cache. */
  predicate Readable(bits: seq<bool>, p: nat, kind: Kind) {
    match kind
    case RiceKind(k) => k <= 31 && HasOne(bits, p) && Loadable(bits, p + Zeros(bits, p))
    case PlainKind(width) => 1 <= width <= 32 && Loadable(bits, p)
  }

  /** n bits as a number in two's complement. */
  function Signed(v: nat, n: nat): (r: int32)
    requires 1 <= n <= 32 && v < Pow2(n)
  {
    hide Pow2;
    HalfOf(n);
    if v < Pow2(n - 1) then v else v - Pow2(n)
  }

  lemma HalfOf(n: nat)
    requires 1 <= n <= 32
    ensures Pow2(n) == 2 * Pow2(n - 1) && Pow2(n - 1) <= TWO31
  {
    PowNext(n - 1);
    Pow32();
    Pow2Mono(n - 1, 31);
  }

  function One(bits: seq<bool>, p: nat, kind: Kind): (r: (int32, nat))
    requires Readable(bits, p, kind)
  {
    match kind
    case RiceKind(k) =>
      var (v, next) := Rice(bits, p, k, INT_MAX, 0);
      (Unfold(v), next)
    case PlainKind(width) => (Signed(Shown(Loaded(bits, p), width), width), p + width)
  }

  /** `get_bits (n)`. */
  method GetBits(bits: seq<bool>, index: nat, n: nat) returns (value: nat, next: nat)
    requires 1 <= n <= 25 && Loadable(bits, index)
    ensures value == Number(bits[index..index + n]) && next == index + n
  {
    hide Number, Top, Scaled;
    ShowsFront(Loaded(bits, index), index % 8, n);
    assert Loaded(bits, index)[..n] == bits[index..index + n];
    value, next := Top(Cache(bits, index), n), index + n;
  }

  /** `get_sbits (n)`: the cache as a signed number, shifted right. */
  method GetSBits(bits: seq<bool>, index: nat, n: nat) returns (value: int32, next: nat)
    requires 1 <= n <= 32 && Loadable(bits, index)
    ensures value == Signed(Shown(Loaded(bits, index), n), n) && next == index + n
  {
    hide Number, Top, Scaled, Cache, Signed, Pow2, Shown;
    ShowsAll(Loaded(bits, index), index % 8, n);
    CacheIs(bits, index);
    SignedShift(Cache(bits, index), n);
    value, next := SignedTop(Wrap32(Cache(bits, index)), n), index + n;
  }

  /** Up to 25 bits the cache holds them all. */
  lemma ShortIsShown(bits: seq<bool>, p: nat, n: nat)
    requires Loadable(bits, p) && n <= 25
    ensures p + n <= |bits| && Shown(Loaded(bits, p), n) == Number(bits[p..p + n])
  {
    assert Loaded(bits, p)[..n] == bits[p..p + n];
  }

  lemma CacheIs(bits: seq<bool>, p: nat)
    requires Loadable(bits, p)
    ensures Cache(bits, p) == Scaled(Number(Loaded(bits, p)), p % 8)
  {
  }

  /** `NEG_SSR32`. */
  function SignedTop(c: int32, n: nat): (r: int32)
    requires 1 <= n <= 32
  {
    hide Pow2;
    QuotientFits(c, Pow2(32 - n));
    c / Pow2(32 - n)
  }

  /** Shifting a signed cache is taking its top bits as a signed number. */
  lemma SignedShift(c: u32, n: nat)
    requires 1 <= n <= 32
    ensures Top(c, n) < Pow2(n) && SignedTop(Wrap32(c), n) == Signed(Top(c, n), n)
  {
    hide Pow2;
    HalfOf(n);
    Pow32();
    Pow2Add(n, 32 - n);
    Pow2Add(n - 1, 32 - n);
    ShiftCases(c, Pow2(32 - n), Pow2(n), Pow2(n - 1));
  }

  lemma ShiftCases(c: u32, d: nat, m: nat, h: nat)
    requires d > 0 && m * d == TWO32 && h * d == TWO31
    ensures c / d < m && Wrap32(c) / d == if c / d < h then c / d else c / d - m
  {
    var q, r := c / d, c % d;
    assert c == q * d + r;
    Below(q, m, d, c);
    Below(q, h, d, c);
    if c >= TWO31 {
      Shifted(q, r, d, m);
    }
  }

  /** q is below m exactly if c is below m * d. */
  lemma Below(q: nat, m: nat, d: nat, c: nat)
    requires d > 0 && q == c / d
    ensures c < m * d <==> q < m
  {
    assert c == q * d + c % d;
    if q < m {
      MulUp(q + 1, m, d);
      MulNext(q, d);
    } else {
      MulUp(m, q, d);
    }
  }

  lemma Shifted(q: nat, r: nat, d: nat, m: nat)
    requires d > 0 && r < d && m * d == TWO32
    ensures (q * d + r - TWO32) / d == q - m
  {
    assert q * d + r - m * d == (q - m) * d + r;
    Uniquely((q - m) * d + r, q - m, r, d);
  }

  lemma ResidualFits(bits: seq<bool>, p: nat, k: nat)
    requires Readable(bits, p, RiceKind(k))
    ensures -TWO31 <= Unfold(Rice(bits, p, k, INT_MAX, 0).0) < TWO31
  {
    hide Zeros, HasOne, Number, Scaled;
  }

  /** One residual of a partition. */
  method ReadOne(bits: seq<bool>, index: nat, kind: Kind) returns (value: int32, next: nat)
    requires Readable(bits, index, kind)
    ensures (value, next) == One(bits, index, kind)
  {
    hide Rice, Number, Pow2, Zeros, HasOne, Signed, Shown;
    match kind {
      case RiceKind(k) =>
        var v;
        v, next := GetSrGolomb(bits, index, k, INT_MAX, 0);
        ResidualFits(bits, index, k);
        value := v;
      case PlainKind(width) =>
        value, next := GetSBits(bits, index, width);
    }
  }

  // ---------------------------------------------------------------- partitions

  /** Values read and where reading ended, or the data did not hold them. */
  datatype Outcome = Got(values: seq<int32>, next: nat) | Stuck

  /** n residuals of one kind. */
  function Samples(bits: seq<bool>, p: nat, kind: Kind, n: nat): (r: Outcome)
    ensures r.Got? ==> |r.values| == n
  {
    hide Readable, One;
    if n == 0 then Got([], p)
    else
      match Samples(bits, p, kind, n - 1)
      case Stuck => Stuck
      case Got(values, q) =>
        if !Readable(bits, q, kind) then Stuck
        else var (v, next) := One(bits, q, kind); Got(values + [v], next)
  }

  /** The parameter of a partition: a Rice parameter of four or five bits, or the escape and a width. */
  function Header(bits: seq<bool>, p: nat, coding: nat): (r: (Kind, nat))
    requires coding <= 1 && Loadable(bits, p)
  {
    var width := 4 + coding;
    var parameter := Number(bits[p..p + width]);
    if parameter == (if coding == 0 then 15 else 31)
    then (PlainKind(Number(bits[p + width..p + width + 5])), p + width + 5)
    else (RiceKind(parameter), p + width)
  }

  function Partition(bits: seq<bool>, p: nat, coding: nat, n: nat): (r: Outcome)
    requires coding <= 1
    ensures r.Got? ==> |r.values| == n
  {
    hide Header;
    if !Loadable(bits, p + 4 + coding) then Stuck
    else
      LoadableBefore(bits, p, p + 4 + coding);
      var (kind, q) := Header(bits, p, coding); Samples(bits, q, kind, n)
  }

  /** How many residuals partition j has; none if the warm-up is longer than the partition. */
  function Count(samples: nat, order: nat, j: nat): nat {
    if j > 0 then samples else if samples > order then samples - order else 0
  }

  /** The first n partitions. */
  function Partitions(bits: seq<bool>, p: nat, coding: nat, samples: nat, order: nat, n: nat): (r: Outcome)
    requires coding <= 1
    ensures r.Got? ==> |r.values| == TotalCount(samples, order, n)
  {
    hide Partition;
    if n == 0 then Got([], p)
    else
      match Partitions(bits, p, coding, samples, order, n - 1)
      case Stuck => Stuck
      case Got(before, q) =>
        match Partition(bits, q, coding, Count(samples, order, n - 1))
        case Stuck => Stuck
        case Got(values, next) => Got(before + values, next)
  }

  function TotalCount(samples: nat, order: nat, n: nat): nat {
    if n == 0 then 0 else TotalCount(samples, order, n - 1) + Count(samples, order, n - 1)
  }

  lemma {:induction false} TotalIs(samples: nat, order: nat, n: nat)
    requires n > 0
    ensures TotalCount(samples, order, n) == Count(samples, order, 0) + samples * (n - 1)
  {
    if n > 1 {
      TotalIs(samples, order, n - 1);
      assert samples * (n - 1) == samples * (n - 2) + samples;
    } else {
      assert TotalCount(samples, order, 1) == TotalCount(samples, order, 0) + Count(samples, order, 0);
    }
  }

  /** The residuals fill the block behind the warm-up exactly if what the division by the number of partitions leaves
      over is as much as the warm-up exceeds the first partition: nothing, for a subframe as it should be. */
  lemma FillsExactly(blocksize: nat, order: nat, riceOrder: nat)
    ensures var n := Pow2(riceOrder);
            order + TotalCount(Share(blocksize, n), order, n) == blocksize
            <==> Rest(blocksize, n) == (if order > Share(blocksize, n) then order - Share(blocksize, n) else 0)
  {
    hide Pow2, Share, Rest;
    var n := Pow2(riceOrder);
    TotalIs(Share(blocksize, n), order, n);
    ShareAndRest(blocksize, n);
  }

  /** `blocksize >> rice_order`, and what that leaves over. */
  function Share(blocksize: nat, n: nat): nat
    requires n > 0
  {
    blocksize / n
  }

  function Rest(blocksize: nat, n: nat): nat
    requires n > 0
  {
    blocksize % n
  }

  lemma ShareAndRest(blocksize: nat, n: nat)
    requires n > 0
    ensures blocksize == Share(blocksize, n) + Share(blocksize, n) * (n - 1) + Rest(blocksize, n)
  {
    var q := blocksize / n;
    assert blocksize == q * n + blocksize % n;
    assert q * n == q + q * (n - 1);
  }

  /** One partition into the block. */
  method ReadSamples(bits: seq<bool>, index: nat, kind: Kind, decoded: array<int32>, at: nat, n: nat) returns (next: nat)
    requires Samples(bits, index, kind, n).Got? && at + n <= decoded.Length
    modifies decoded
    ensures var r := Samples(bits, index, kind, n); decoded[at..at + n] == r.values && next == r.next
    ensures forall j :: 0 <= j < decoded.Length && !(at <= j < at + n) ==> decoded[j] == old(decoded[j])
  {
    hide Readable, One;
    next := index;
    for i := 0 to n
      invariant Samples(bits, index, kind, i) == Got(decoded[at..at + i], next)
      invariant forall j :: 0 <= j < decoded.Length && !(at <= j < at + i) ==> decoded[j] == old(decoded[j])
    {
      SamplesGot(bits, index, kind, i + 1, n);
      ghost var before := decoded[at..at + i];
      decoded[at + i], next := ReadOne(bits, next, kind);
      assert decoded[at..at + i + 1] == before + [decoded[at + i]];
    }
  }

  lemma {:induction false} SamplesGot(bits: seq<bool>, p: nat, kind: Kind, i: nat, n: nat)
    requires i <= n && Samples(bits, p, kind, n).Got?
    ensures Samples(bits, p, kind, i).Got?
    decreases n
  {
    hide Readable, One;
    if i < n {
      SamplesGot(bits, p, kind, i, n - 1);
    }
  }

  /** `decode_residuals`, for data that holds what the partitions announce. */
  method DecodeResiduals(bits: seq<bool>, index: nat, decoded: array<int32>, blocksize: nat, order: nat)
    returns (code: int, next: nat, ghost residuals: seq<int32>)
    requires Loadable(bits, index) && Loadable(bits, index + 2)
    requires var coding := Number(bits[index..index + 2]);
             var n := Pow2(Number(bits[index + 2..index + 6]));
             coding <= 1 ==>
               && Partitions(bits, index + 6, coding, Share(blocksize, n), order, n).Got?
               && order + TotalCount(Share(blocksize, n), order, n) <= decoded.Length
    modifies decoded
    ensures var coding := Number(bits[index..index + 2]);
            var n := Pow2(Number(bits[index + 2..index + 6]));
            if coding > 1 then code == -3 && residuals == [] && decoded[..] == old(decoded[..])
            else
              && code == 0
              && Partitions(bits, index + 6, coding, Share(blocksize, n), order, n) == Got(residuals, next)
              && |residuals| == TotalCount(Share(blocksize, n), order, n)
              && decoded[order..order + |residuals|] == residuals
    ensures forall j :: 0 <= j < decoded.Length && !(order <= j < order + |residuals|) ==> decoded[j] == old(decoded[j])
  {
    hide Number, Pow2, Partition, Share, Loadable, Partitions, Count;
    var coding, riceOrder;
    coding, next := GetBits(bits, index, 2);
    residuals := [];
    if coding > 1 {
      return -3, next, [];
    }
    riceOrder, next := GetBits(bits, next, 4);
    var n := Pow2(riceOrder);
    var samples := Share(blocksize, n);
    ghost var was := decoded[..];
    NoPartitions(bits, next, coding, samples, order);
    var sample := order;
    var partition := 0;
    while partition < n
      invariant 0 <= partition <= n && sample == order + |residuals| <= decoded.Length
      invariant |residuals| == TotalCount(samples, order, partition)
      invariant Partitions(bits, index + 6, coding, samples, order, partition) == Got(residuals, next)
      invariant decoded[order..sample] == residuals
      invariant forall j :: 0 <= j < decoded.Length && !(order <= j < sample) ==> decoded[j] == was[j]
    {
      PartitionsGot(bits, index + 6, coding, samples, order, partition + 1, n);
      PartitionJoins(bits, index + 6, coding, samples, order, partition);
      var count := Count(samples, order, partition);
      ghost var now := decoded[..];
      ghost var values;
      next, values := ReadPartition(bits, next, coding, decoded, sample, count);
      SliceGrows(now, decoded[..], order, sample, count, values);
      residuals := residuals + values;
      sample := sample + count;
      partition := partition + 1;
    }
    code := 0;
  }

  lemma NoPartitions(bits: seq<bool>, p: nat, coding: nat, samples: nat, order: nat)
    requires coding <= 1
    ensures Partitions(bits, p, coding, samples, order, 0) == Got([], p)
  {
  }

  /** One partition more. */
  lemma PartitionJoins(bits: seq<bool>, p: nat, coding: nat, samples: nat, order: nat, n: nat)
    requires coding <= 1 && Partitions(bits, p, coding, samples, order, n + 1).Got?
    ensures var before := Partitions(bits, p, coding, samples, order, n);
            && before.Got?
            && var r := Partition(bits, before.next, coding, Count(samples, order, n));
               r.Got? && Partitions(bits, p, coding, samples, order, n + 1) == Got(before.values + r.values, r.next)
  {
    hide Partition;
  }

  lemma SliceGrows(a: seq<int32>, b: seq<int32>, from: nat, at: nat, n: nat, values: seq<int32>)
    requires from <= at <= at + n <= |a| == |b| && b[at..at + n] == values
    requires forall j :: 0 <= j < |a| && !(at <= j < at + n) ==> b[j] == a[j]
    ensures b[from..at + n] == a[from..at] + values
  {
    assert b[from..at] == a[from..at];
    assert b[from..at + n] == b[from..at] + b[at..at + n];
  }

  /** A partition's parameter and its residuals. */
  method ReadPartition(bits: seq<bool>, index: nat, coding: nat, decoded: array<int32>, at: nat, n: nat)
    returns (next: nat, ghost values: seq<int32>)
    requires coding <= 1 && Partition(bits, index, coding, n).Got? && at + n <= decoded.Length
    modifies decoded
    ensures Partition(bits, index, coding, n) == Got(values, next) && |values| == n && decoded[at..at + n] == values
    ensures forall j :: 0 <= j < decoded.Length && !(at <= j < at + n) ==> decoded[j] == old(decoded[j])
  {
    hide Number, Samples, Readable;
    LoadableBefore(bits, index, index + 4 + coding);
    var tmp, q := GetBits(bits, index, 4 + coding);
    var kind: Kind;
    if tmp == (if coding == 0 then 15 else 31) {
      tmp, q := GetBits(bits, q, 5);
      kind := PlainKind(tmp);
    } else {
      kind := RiceKind(tmp);
    }
    values := Samples(bits, q, kind, n).values;
    next := ReadSamples(bits, q, kind, decoded, at, n);
  }

  lemma {:induction false} PartitionsGot(bits: seq<bool>, p: nat, coding: nat, samples: nat, order: nat, i: nat, n: nat)
    requires coding <= 1 && i <= n && Partitions(bits, p, coding, samples, order, n).Got?
    ensures Partitions(bits, p, coding, samples, order, i).Got?
    ensures TotalCount(samples, order, i) <= TotalCount(samples, order, n)
    decreases n
  {
    hide Partition;
    if i < n {
      PartitionsGot(bits, p, coding, samples, order, i, n - 1);
    }
  }
}
