/** FLAC's bit reader and its Rice codes (jni/flac/bitstream.h lines 173-240, jni/flac/golomb.h lines 23-108): a 32-bit
    cache loaded at the byte of the current bit, and two ways to read a code from it. Bits are a sequence, most
    significant first, as a big-endian load delivers them. */
module FlacGolomb {
  import opened Machine
  import opened Arithmetic
  import opened Bits

  /** The number that bits spell, most significant first. */
  function Number(s: seq<bool>): (v: nat)
    ensures v < Pow2(|s|)
  {
    if s == [] then 0 else 2 * Number(s[..|s| - 1]) + Bit(s[|s| - 1])
  }

  lemma {:induction false} NumberConcat(a: seq<bool>, b: seq<bool>)
    ensures Number(a + b) == Number(a) * Pow2(|b|) + Number(b)
    decreases |b|
  {
    hide Pow2;
    PowNext(0);
    if b == [] {
      assert a + b == a;
    } else {
      var n := |b| - 1;
      PowNext(n);
      NumberConcat(a, b[..n]);
      assert (a + b)[..|a + b| - 1] == a + b[..n];
      Twice(Number(a), Pow2(n));
    }
  }

  // ---------------------------------------------------------------- the cache

  /** The four bytes from p's byte on are in the buffer. */
  predicate Loadable(bits: seq<bool>, p: nat) {
    p / 8 * 8 + 32 <= |bits|
  }

  lemma LoadableBefore(bits: seq<bool>, p: nat, q: nat)
    requires Loadable(bits, q) && p <= q
    ensures Loadable(bits, p) && p + 25 <= |bits|
  {
  }

  /** The bits the cache is loaded with: those from p on in the four bytes that begin with p's byte. */
  function Loaded(bits: seq<bool>, p: nat): (s: seq<bool>)
    requires Loadable(bits, p)
    ensures 25 <= |s| == 32 - p % 8
  {
    bits[p..p / 8 * 8 + 32]
  }

  /** `x << k`. */
  function Scaled(x: int, k: nat): int {
    x * Pow2(k)
  }

  /** `UPDATE_CACHE`. */
  function Cache(bits: seq<bool>, p: nat): (c: u32)
    requires Loadable(bits, p)
  {
    CacheFits(Loaded(bits, p), p % 8);
    Scaled(Number(Loaded(bits, p)), p % 8)
  }

  lemma CacheFits(s: seq<bool>, k: nat)
    requires |s| == 32 - k && k <= 8
    ensures 0 <= Scaled(Number(s), k) < TWO32
  {
    hide Pow2;
    Pow32();
    Pow2Add(32 - k, k);
    MulUp(Number(s) + 1, Pow2(32 - k), Pow2(k));
    MulNext(Number(s), Pow2(k));
    MulUp(0, Number(s), Pow2(k));
  }

  lemma Pow32()
    ensures Pow2(32) == TWO32 && Pow2(31) == TWO31
  {
    assert Pow2(8) == 256;
    Pow2Add(8, 8);
    Pow2Add(16, 16);
    assert Pow2(32) == 2 * Pow2(31);
  }

  /** The top n bits of a cache: `SHOW_UBITS (n)`. */
  function Top(c: nat, n: nat): nat
    requires n <= 32
  {
    hide Pow2;
    c / Pow2(32 - n)
  }

  /** `SHOW_UBITS (n)` on a cache that holds s in front and zeros behind: the first n bits of s. */
  lemma ShowsFront(s: seq<bool>, k: nat, n: nat)
    requires |s| == 32 - k && n <= |s|
    ensures Scaled(Number(s), k) >= 0 && Top(Scaled(Number(s), k), n) == Number(s[..n])
  {
    hide Pow2, Number;
    assert s == s[..n] + s[n..];
    NumberConcat(s[..n], s[n..]);
    Pow2Add(32 - k - n, k);
    QuotientOf(Number(s[..n]), Number(s[n..]), Pow2(32 - k - n), Pow2(k));
  }

  lemma QuotientOf(a: nat, r: nat, d: nat, e: nat)
    requires r < d && e > 0
    ensures d * e > 0 && (a * d + r) * e >= 0 && (a * d + r) * e / (d * e) == a
  {
    Regroup(a, d, e, r);
    MulUp(r + 1, d, e);
    MulNext(r, e);
    MulUp(0, r, e);
    DivSum(a, d * e, r * e);
    MulUp(0, a, d * e);
  }

  /** n bits where only those of s are left in the cache: zeros stand for the ones that are missing. */
  function Shown(s: seq<bool>, n: nat): (v: nat)
    ensures v < Pow2(n)
  {
    hide Pow2, Number;
    if n <= |s| then Number(s[..n])
    else
      ShiftFits(Number(s), |s|, n - |s|);
      Scaled(Number(s), n - |s|)
  }

  lemma ShiftFits(v: nat, n: nat, k: nat)
    requires v < Pow2(n)
    ensures 0 <= Scaled(v, k) < Pow2(n + k)
  {
    hide Pow2;
    Pow2Add(n, k);
    MulUp(v + 1, Pow2(n), Pow2(k));
    MulNext(v, Pow2(k));
    MulUp(0, v, Pow2(k));
  }

  /** `SHOW_UBITS (n)` of any n on a cache that holds s in front and zeros behind. */
  lemma ShowsAll(s: seq<bool>, k: nat, n: nat)
    requires |s| == 32 - k && n <= 32
    ensures Scaled(Number(s), k) >= 0 && Top(Scaled(Number(s), k), n) == Shown(s, n)
  {
    hide Pow2, Number, Top, Scaled;
    ShiftFits(Number(s), |s|, k);
    if n <= |s| {
      ShowsFront(s, k, n);
    } else {
      RunsDry(Number(s), k, 32 - n);
    }
  }

  /** What is shown is right if and only if the bits that are missing are zeros; it is never too large. */
  lemma ShownExactly(s: seq<bool>, missing: seq<bool>)
    ensures Shown(s, |s| + |missing|) <= Number(s + missing)
    ensures Shown(s, |s| + |missing|) == Number(s + missing) <==> forall i :: 0 <= i < |missing| ==> !missing[i]
  {
    hide Pow2, Number;
    NumberConcat(s, missing);
    if missing == [] {
      assert s + missing == s == s[..|s|];
    } else {
      assert Shown(s, |s| + |missing|) == Number(s) * Pow2(|missing|);
      ZeroExactly(missing);
    }
  }

  // ---------------------------------------------------------------- logarithm

  /** `ff_log2_tab`. */
  function Log2Table(v: nat): nat
    requires v < 256
  {
    if v < 2 then 0 else if v < 4 then 1 else if v < 8 then 2 else if v < 16 then 3 else if v < 32 then 4
    else if v < 64 then 5 else if v < 128 then 6 else 7
  }

  /** `av_log2`. */
  method AvLog2(value: u32) returns (n: nat)
    ensures value > 0 ==> n <= 31 && Pow2(n) <= value < Pow2(n + 1)
    ensures value == 0 ==> n == 0
  {
    hide Pow2;
    n := 0;
    var v: nat := value;
    if v >= 0x1_0000 {
      v := v / 0x1_0000;
      n := n + 16;
    }
    if v >= 0x100 {
      v := v / 0x100;
      n := n + 8;
    }
    TablePowers(v);
    var t := Log2Table(v);
    assert v * Pow2(n) <= value < (v + 1) * Pow2(n) by { Powers(); }
    if value > 0 {
      Pow2Add(t, n);
      Pow2Add(t + 1, n);
      MulUp(Pow2(t), v, Pow2(n));
      MulUp(v + 1, Pow2(t + 1), Pow2(n));
    }
    n := n + t;
  }

  lemma Powers()
    ensures Pow2(0) == 1 && Pow2(8) == 0x100 && Pow2(16) == 0x1_0000 && Pow2(24) == 0x100_0000
  {
    assert Pow2(8) == 0x100;
    Pow2Add(8, 8);
    Pow2Add(8, 16);
  }

  lemma TablePowers(v: nat)
    requires v < 256
    ensures v > 0 ==> Pow2(Log2Table(v)) <= v < Pow2(Log2Table(v) + 1)
  {
    assert Pow2(3) == 8;
    assert Pow2(8) == 256 && Pow2(7) == 128 && Pow2(6) == 64 && Pow2(5) == 32 && Pow2(4) == 16;
  }

  // ---------------------------------------------------------------- the code

  /** How many zeros come before the next one. */
  function Zeros(bits: seq<bool>, p: nat): (u: nat)
    requires exists i :: p <= i < |bits| && bits[i]
    ensures p + u < |bits| && bits[p + u] && forall i :: p <= i < p + u ==> !bits[i]
    decreases |bits| - p
  {
    if bits[p] then 0 else 1 + Zeros(bits, p + 1)
  }

  predicate HasOne(bits: seq<bool>, p: nat) {
    exists i :: p <= i < |bits| && bits[i]
  }

  /** A Rice code: zeros counted, a one, and the low k bits; with as many zeros as the limit allows, a number of its own
      length; with more, nothing. The bits behind the one are those left in its cache. The value, and where the next
      code begins. */
  function Rice(bits: seq<bool>, p: nat, k: nat, limit: int, escLen: nat): (r: (int, nat))
    requires HasOne(bits, p) && Loadable(bits, p + Zeros(bits, p))
  {
    var u := Zeros(bits, p);
    var q := p + u + 1;
    if u < limit - 1 then (Wrap32(Shown(Behind(bits, q), k) + Scaled(u, k)), q + k)
    else if u == limit - 1 then (Wrap32(Shown(Behind(bits, q), escLen) + 1), q + escLen)
    else (-1, p)
  }

  /** The bits from q on that the cache loaded just before it holds. */
  function Behind(bits: seq<bool>, q: nat): (s: seq<bool>)
    requires q > 0 && Loadable(bits, q - 1)
    ensures 24 <= |s| == 31 - (q - 1) % 8
  {
    bits[q..(q - 1) / 8 * 8 + 32]
  }

  /** Zeros and a one spell the number one. */
  lemma {:induction false} ZerosAndOne(s: seq<bool>)
    requires s != [] && s[|s| - 1] && forall i :: 0 <= i < |s| - 1 ==> !s[i]
    ensures Number(s) == 1
  {
    AllZero(s[..|s| - 1]);
  }

  lemma {:induction false} AllZero(s: seq<bool>)
    requires forall i :: 0 <= i < |s| ==> !s[i]
    ensures Number(s) == 0
    decreases |s|
  {
    if s == [] {
    } else {
      AllZero(s[..|s| - 1]);
    }
  }

  /** The highest bit of the cache tells the number of zeros, if there is a one in it. */
  lemma LogTellsZeros(s: seq<bool>, k: nat, u: nat, log: nat)
    requires |s| == 32 - k && u < |s| && s[u] && forall i :: 0 <= i < u ==> !s[i]
    requires Pow2(log) <= Scaled(Number(s), k) < Pow2(log + 1) && log <= 31
    ensures log == 31 - u
  {
    hide Pow2, Number;
    ShowsFront(s, k, u + 1);
    ZerosAndOne(s[..u + 1]);
    OneQuotient(Scaled(Number(s), k), Pow2(31 - u));
    assert Pow2(32 - u) == 2 * Pow2(31 - u) by { PowNext(31 - u); }
    if log < 31 - u {
      Pow2Mono(log + 1, 31 - u);
      assert false;
    }
    if log > 31 - u {
      Pow2Mono(32 - u, log);
      assert false;
    }
  }

  lemma OneQuotient(c: nat, d: nat)
    requires d > 0 && c / d == 1
    ensures d <= c < 2 * d
  {
  }

  lemma PowNext(n: nat)
    ensures Pow2(0) == 1 && Pow2(n + 1) == 2 * Pow2(n)
  {
  }

  /** The fast way: the code taken out of the cache at once, for it has no more than 25 bits. */
  lemma FastReads(bits: seq<bool>, p: nat, k: nat, u: nat)
    requires Loadable(bits, p) && u + 1 + k <= 25
    requires p + u < |bits| && bits[p + u] && forall i :: p <= i < p + u ==> !bits[i]
    ensures var q := p + u + 1;
            Top(Cache(bits, p), u + 1 + k) == Pow2(k) + Number(bits[q..q + k])
  {
    hide Pow2, Number, Scaled, Top;
    var s := Loaded(bits, p);
    ShowsFront(s, p % 8, u + 1 + k);
    var code := bits[p..p + u + 1 + k];
    assert s[..u + 1 + k] == code;
    CodeNumber(code, u);
    assert code[u + 1..] == bits[p + u + 1..p + u + 1 + k];
  }

  lemma CodeNumber(code: seq<bool>, u: nat)
    requires u < |code| && code[u] && forall i :: 0 <= i < u ==> !code[i]
    ensures Number(code) == Pow2(|code| - u - 1) + Number(code[u + 1..])
  {
    hide Pow2, Number;
    assert code == code[..u + 1] + code[u + 1..];
    NumberConcat(code[..u + 1], code[u + 1..]);
    ZerosAndOne(code[..u + 1]);
  }

  /** The slow way: the one skipped in the cache, the bits behind it are there or count as zeros. */
  lemma SlowReads(bits: seq<bool>, q: nat, k: nat)
    requires Loadable(bits, q) && q < |bits| && bits[q] && k <= 31
    ensures Top(U32(2 * Cache(bits, q)), k) == Shown(Behind(bits, q + 1), k)
  {
    hide Pow2, Number, Scaled, Top, U32, Cache, Loadable, Shown;
    LoadableBefore(bits, q, q);
    OneSkipped(bits, q);
    var t := Loaded(bits, q)[1..];
    assert t == Behind(bits, q + 1);
    ShowsAll(t, q % 8 + 1, k);
  }

  lemma OneSkipped(bits: seq<bool>, q: nat)
    requires Loadable(bits, q) && q < |bits| && bits[q]
    ensures U32(2 * Cache(bits, q)) == Scaled(Number(Loaded(bits, q)[1..]), q % 8 + 1)
  {
    hide Pow2, Number;
    var s, a := Loaded(bits, q), q % 8;
    var t := s[1..];
    assert s == [true] + t && |t| == 31 - a;
    NumberConcat([true], t);
    ZerosAndOne([true]);
    Pow2Add(31 - a, a + 1);
    Pow32();
    PowNext(a);
    CacheFits(t, a + 1);
    OneOverflows(Number(t), Pow2(31 - a), Pow2(a));
  }

  lemma OneOverflows(n: nat, d: nat, e: nat)
    requires d * (2 * e) == TWO32 && n * (2 * e) < TWO32
    ensures U32(2 * ((d + n) * e)) == n * (2 * e)
  {
    assert 2 * ((d + n) * e) == d * (2 * e) + n * (2 * e);
  }

  /** The first bit of the cache. */
  lemma FirstBit(bits: seq<bool>, p: nat)
    requires Loadable(bits, p)
    ensures Top(Cache(bits, p), 1) == Bit(bits[p])
  {
    hide Pow2;
    Pow32();
    ShowsFront(Loaded(bits, p), p % 8, 1);
    assert Loaded(bits, p)[..1] == [bits[p]];
  }

  /** `get_ur_golomb_jpegls`: the fast way or the slow way, always the same value and end. */
  method GetUrGolomb(bits: seq<bool>, index: nat, k: nat, limit: int, escLen: nat) returns (value: int, next: nat)
    requires HasOne(bits, index) && k <= 31 && escLen <= 31
    requires Loadable(bits, index + Zeros(bits, index))
    ensures (value, next) == Rice(bits, index, k, limit, escLen)
  {
    hide Pow2, Number, Cache, Zeros, Top, Scaled, Wrap32, U32, Loadable, HasOne, Shown, Behind;
    ghost var u := Zeros(bits, index);
    LoadableBefore(bits, index, index + u);
    LoadableBefore(bits, index + u, index + u);
    ZerosFind(bits, index);
    var buf := Cache(bits, index);
    var log := AvLog2(buf);
    if log - k >= 7 && 32 - log < limit {
      LogFinds(bits, index, log);
      FastReads(bits, index, k, u);
      OneLess(u, k);
      FastShows(bits, index, k, u);
      return Wrap32(Top(buf, 32 - (log - k)) + Scaled(30 - log, k)), index + 32 + k - log;
    }
    value, next := SlowGolomb(bits, index, k, limit, escLen);
  }

  /** The branch that reads bit by bit. */
  method SlowGolomb(bits: seq<bool>, index: nat, k: nat, limit: int, escLen: nat) returns (value: int, next: nat)
    requires HasOne(bits, index) && k <= 31 && escLen <= 31
    requires Loadable(bits, index + Zeros(bits, index))
    ensures (value, next) == Rice(bits, index, k, limit, escLen)
  {
    hide Pow2, Number, Cache, Zeros, Top, Scaled, Wrap32, U32, Loadable, HasOne, Shown, Behind;
    ghost var u := Zeros(bits, index);
    LoadableBefore(bits, index, index + u);
    LoadableBefore(bits, index + u, index + u);
    ZerosFind(bits, index);
    var i := 0;
    FirstBit(bits, index);
    while Top(Cache(bits, index + i), 1) == 0
      invariant 0 <= i <= u
      invariant Loadable(bits, index + i)
      decreases u - i
    {
      FirstBit(bits, index + i);
      assert !bits[index + i];
      i := i + 1;
      LoadableBefore(bits, index + i, index + u);
    }
    FirstBit(bits, index + i);
    assert i == u;
    var cache := U32(2 * Cache(bits, index + i));
    var q := index + i + 1;
    if i < limit - 1 {
      SlowReads(bits, index + i, k);
      var buf := 0;
      if k > 0 {
        buf := Top(cache, k);
      } else {
        NoBits(Behind(bits, q));
      }
      return Wrap32(buf + Scaled(i, k)), q + k;
    } else if i == limit - 1 {
      SlowReads(bits, index + i, escLen);
      return Wrap32(Top(cache, escLen) + 1), q + escLen;
    } else {
      return -1, index;
    }
  }

  lemma ZerosFind(bits: seq<bool>, p: nat)
    requires HasOne(bits, p)
    ensures var u := Zeros(bits, p);
            p + u < |bits| && bits[p + u] && forall i :: p <= i < p + u ==> !bits[i]
  {
  }

  lemma NoBits(s: seq<bool>)
    ensures Shown(s, 0) == 0
  {
    assert s[..0] == [];
  }

  lemma FastShows(bits: seq<bool>, p: nat, k: nat, u: nat)
    requires Loadable(bits, p + u) && u + 1 + k <= 25
    ensures p + u + 1 + k <= |bits| && Shown(Behind(bits, p + u + 1), k) == Number(bits[p + u + 1..p + u + 1 + k])
  {
    assert Behind(bits, p + u + 1)[..k] == bits[p + u + 1..p + u + 1 + k];
  }

  lemma OneLess(u: int, k: nat)
    ensures Pow2(k) + Scaled(u - 1, k) == Scaled(u, k)
  {
  }

  /** A high bit in the cache is the first one in the bits. */
  lemma LogFinds(bits: seq<bool>, p: nat, log: nat)
    requires HasOne(bits, p) && Loadable(bits, p)
    requires 7 <= log <= 31 && Cache(bits, p) > 0 && Pow2(log) <= Cache(bits, p) < Pow2(log + 1)
    ensures log == 31 - Zeros(bits, p)
  {
    hide Pow2, Number, Zeros;
    var s, u := Loaded(bits, p), Zeros(bits, p);
    if u >= |s| {
      AllZero(s);
      assert false;
    }
    LogTellsZeros(s, p % 8, u, log);
  }

  // ---------------------------------------------------------------- remainders of more than 24 bits

  /** The remainder is what the bits behind the one spell if and only if those the cache lacks are zeros: from 25 bits
      on it may run dry. */
  lemma RemainderExact(bits: seq<bool>, q: nat, k: nat)
    requires q > 0 && Loadable(bits, q - 1) && q + k <= |bits|
    ensures Shown(Behind(bits, q), k) <= Number(bits[q..q + k])
    ensures Shown(Behind(bits, q), k) == Number(bits[q..q + k])
            <==> forall i :: (q - 1) / 8 * 8 + 32 <= i < q + k ==> !bits[i]
  {
    hide Pow2, Number;
    var s, e := Behind(bits, q), (q - 1) / 8 * 8 + 32;
    if k <= |s| {
      assert s[..k] == bits[q..q + k];
    } else {
      var missing := bits[e..q + k];
      assert s + missing == bits[q..q + k];
      ShownExactly(s, missing);
      forall i | e <= i < q + k
        ensures bits[i] == missing[i - e]
      {
      }
      assert forall i :: 0 <= i < |missing| ==> missing[i] == bits[e + i];
    }
  }

  lemma RunsDry(n: nat, a: nat, b: nat)
    requires b <= a && b <= 32 && Scaled(n, a) >= 0
    ensures Top(Scaled(n, a), 32 - b) == Scaled(n, a - b)
  {
    hide Pow2;
    Pow2Add(a - b, b);
    QuotientOf2(n, Pow2(a - b), Pow2(b));
  }

  lemma QuotientOf2(n: nat, d: nat, e: nat)
    requires e > 0
    ensures n * (d * e) / e == n * d
  {
    Assoc3(n, d, e);
    MulUp(0, n, d);
    DivSum(n * d, e, 0);
  }

  lemma ZeroExactly(s: seq<bool>)
    ensures Number(s) == 0 <==> forall i :: 0 <= i < |s| ==> !s[i]
  {
    if Number(s) == 0 {
      ZeroIsZeros(s);
    } else if forall i :: 0 <= i < |s| ==> !s[i] {
      AllZero(s);
    }
  }

  lemma {:induction false} ZeroIsZeros(s: seq<bool>)
    requires Number(s) == 0
    ensures forall i :: 0 <= i < |s| ==> !s[i]
    decreases |s|
  {
    if s == [] {
    } else {
      ZeroIsZeros(s[..|s| - 1]);
    }
  }

  // ---------------------------------------------------------------- signed values

  /** `(v >> 1) ^ -(v & 1)`. */
  function Unfold(v: int): int {
    if v % 2 == 0 then v / 2 else -(v / 2) - 1
  }

  /** The other direction. */
  function Fold(x: int): nat {
    if x >= 0 then 2 * x else -2 * x - 1
  }

  lemma FoldingIsABijection(x: int, v: nat)
    ensures Unfold(Fold(x)) == x && Fold(Unfold(v)) == v
  {
  }

  /** `get_sr_golomb_flac`. */
  method GetSrGolomb(bits: seq<bool>, index: nat, k: nat, limit: int, escLen: nat) returns (value: int, next: nat)
    requires HasOne(bits, index) && k <= 31 && escLen <= 31
    requires Loadable(bits, index + Zeros(bits, index))
    ensures var (v, n) := Rice(bits, index, k, limit, escLen); value == Unfold(v) && next == n
  {
    hide Rice, Unfold;
    var v;
    v, next := GetUrGolomb(bits, index, k, limit, escLen);
    value := Unfold(v);
  }

  /** v in n bits, most significant first. */
  function Spelled(v: nat, n: nat): (s: seq<bool>)
    ensures |s| == n
  {
    if n == 0 then [] else Spelled(v / 2, n - 1) + [v % 2 == 1]
  }

  lemma {:induction false} SpelledReads(v: nat, n: nat)
    requires v < Pow2(n)
    ensures Number(Spelled(v, n)) == v
  {
    if n == 0 {
    } else {
      SpelledReads(v / 2, n - 1);
      assert Spelled(v, n)[..n - 1] == Spelled(v / 2, n - 1);
    }
  }

  /** The two parts of a folded number. */
  function Quot(x: int, k: nat): nat {
    hide Pow2;
    QuotientBounds(Fold(x), Pow2(k));
    Fold(x) / Pow2(k)
  }

  function Rem(x: int, k: nat): (r: nat)
    ensures r < Pow2(k)
  {
    hide Pow2;
    Fold(x) % Pow2(k)
  }

  /** The Rice code of a number (section 9.2.7 of RFC 9639). */
  function RiceCode(x: int, k: nat): (s: seq<bool>)
    ensures |s| == Quot(x, k) + 1 + k
  {
    seq(Quot(x, k), i => false) + [true] + Spelled(Rem(x, k), k)
  }

  /** A number that fits comes back from its code, wherever that is and whatever is around it, if and only if the bits
      of the code that the cache lacks are zeros; up to k = 24 it lacks none. */
  lemma RiceComesBack(x: int, k: nat, limit: int, escLen: nat, before: seq<bool>, after: seq<bool>)
    requires Fold(x) < TWO31 && Quot(x, k) < limit - 1
    requires Loadable(before + RiceCode(x, k) + after, |before| + Quot(x, k))
    ensures var bits, one := before + RiceCode(x, k) + after, |before| + Quot(x, k);
            && HasOne(bits, |before|) && |before| + Zeros(bits, |before|) == one
            && var (v, next) := Rice(bits, |before|, k, limit, escLen);
               && next == |before| + |RiceCode(x, k)| && next <= |bits|
               && (Unfold(v) == x <==> forall i :: one / 8 * 8 + 32 <= i < next ==> !bits[i])
               && (k <= 24 ==> Unfold(v) == x)
  {
    hide Pow2, Number, Fold, Unfold, Spelled, Zeros, HasOne, RiceCode, Loadable, Scaled, Shown, Behind, Wrap32, Quot, Rem;
    var u, p := Quot(x, k), |before|;
    var bits := before + RiceCode(x, k) + after;
    CodePlaces(x, k, before, after);
    ZerosAre(bits, p, u);
    SpelledReads(Rem(x, k), k);
    FoldingIsABijection(x, 0);
    var shown := Shown(Behind(bits, p + u + 1), k);
    RemainderExact(bits, p + u + 1, k);
    Together(x, k, shown);
    RiceIs(bits, p, k, limit, escLen);
  }

  lemma RiceIs(bits: seq<bool>, p: nat, k: nat, limit: int, escLen: nat)
    requires HasOne(bits, p) && Loadable(bits, p + Zeros(bits, p)) && Zeros(bits, p) < limit - 1
    ensures var q := p + Zeros(bits, p) + 1;
            Rice(bits, p, k, limit, escLen) == (Wrap32(Shown(Behind(bits, q), k) + Scaled(q - 1 - p, k)), q + k)
  {
    hide Shown, Behind, Zeros, HasOne, Loadable, Wrap32;
  }

  lemma Together(x: int, k: nat, r: nat)
    requires Fold(x) < TWO31 && r <= Rem(x, k)
    ensures var w := Wrap32(r + Scaled(Quot(x, k), k)); Unfold(w) == Unfold(Fold(x)) <==> r == Rem(x, k)
  {
    hide Pow2, Fold;
    Quotient(Fold(x), Pow2(k));
    MulUp(0, Quot(x, k), Pow2(k));
  }

  lemma CodePlaces(x: int, k: nat, before: seq<bool>, after: seq<bool>)
    ensures var u, p := Quot(x, k), |before|;
            var bits := before + RiceCode(x, k) + after;
            && p + u + 1 + k + |after| == |bits|
            && bits[p + u] && (forall i :: p <= i < p + u ==> !bits[i])
            && bits[p + u + 1..p + u + 1 + k] == Spelled(Rem(x, k), k)
  {
    hide Spelled, Quot, Rem;
  }

  lemma {:induction false} ZerosAre(bits: seq<bool>, p: nat, u: nat)
    requires p + u < |bits| && bits[p + u] && forall i :: p <= i < p + u ==> !bits[i]
    ensures HasOne(bits, p) && Zeros(bits, p) == u
    decreases u
  {
    if u == 0 {
    } else {
      ZerosAre(bits, p + 1, u - 1);
    }
  }
}
