/** The predictor of Monkey's Audio (jni/ape/predictor.c): four histories of samples and four of signs in one array,
    through which a window slides and is moved back when it reaches the end; against a channel that keeps just its two
    histories, for a sign in the array is always the sign of the sample it was made for. */
module ApePredictor {
  import opened Machine

  const HISTORY_SIZE := 512
  const WINDOW := 50

  // ---------------------------------------------------------------- one channel, its histories apart

  /** The registers of one channel, and the three and four values its predictions look back on, newest first. */
  datatype Channel = Channel(coeffsA: seq<int32>, coeffsB: seq<int32>, filterA: int32, filterB: int32, lastA: int32,
                             delayA: seq<int32>, delayB: seq<int32>)

  predicate Sound(c: Channel) {
    |c.coeffsA| == 4 && |c.coeffsB| == 5 && |c.delayA| == 3 && |c.delayB| == 4
  }

  /** `SIGN`: minus the sign. */
  function Sign(x: int32): int32 {
    if x == 0 then 0 else if x > 0 then -1 else 1
  }

  function Signs(h: seq<int32>): (r: seq<int32>)
    ensures |r| == |h|
  {
    seq(|h|, i requires 0 <= i < |h| => Sign(h[i]))
  }

  /** A value joins its history: the one before turns into their difference, the others stay. */
  function Push(h: seq<int32>, x: int32): (r: seq<int32>)
    requires h != []
    ensures |r| == |h| + 1
  {
    [x, Difference(x, h[0])] + h[1..]
  }

  function Difference(x: int, y: int): int32 {
    Wrap32(x - y)
  }

  function Total(x: int, y: int): int32 {
    Wrap32(x + y)
  }

  /** `(x * 31) >> 5`. */
  function Leak(x: int): int32 {
    Wrap32(x * 31) / 32
  }

  /** The sum of products, in 32 bits. */
  function Weigh(h: seq<int32>, coeffs: seq<int32>): int32
    requires |h| == |coeffs|
  {
    Wrap32(Sum(h, coeffs))
  }

  function Sum(h: seq<int32>, coeffs: seq<int32>): int
    requires |h| == |coeffs|
  {
    if h == [] then 0 else Sum(h[..|h| - 1], coeffs[..|h| - 1]) + Product(h[|h| - 1], coeffs[|h| - 1])
  }

  function Product(x: int, y: int): int {
    x * y
  }

  /** The coefficients follow the signs, with the sign of the data. */
  function Steer(coeffs: seq<int32>, data: int32, h: seq<int32>): (r: seq<int32>)
    requires |h| == |coeffs|
    ensures |r| == |coeffs|
  {
    seq(|coeffs|, i requires 0 <= i < |coeffs| =>
      if data > 0 then Difference(coeffs[i], Sign(h[i]))
      else if data < 0 then Total(coeffs[i], Sign(h[i]))
      else coeffs[i])
  }

  /** What a channel's new value is predicted to be, from its own past and the other channel's newest. */
  function Predict(c: Channel, other: int32): int32
    requires Sound(c)
  {
    var a := Weigh(Push(c.delayA, c.lastA), c.coeffsA);
    var b := Weigh(Push(c.delayB, Difference(other, Leak(c.filterB))), c.coeffsB);
    Total(a, b / 2) / 1024
  }

  function Next(c: Channel, other: int32, data: int32): (r: Channel)
    requires Sound(c)
    ensures Sound(r)
  {
    var a := Push(c.delayA, c.lastA);
    var b := Push(c.delayB, Difference(other, Leak(c.filterB)));
    var last := Total(data, Predict(c, other));
    Channel(Steer(c.coeffsA, data, a), Steer(c.coeffsB, data, b), Total(last, Leak(c.filterA)), other, last, a[..3], b[..4])
  }

  /** Both channels: the second sees the first's new value. */
  function Both(y: Channel, x: Channel, data0: int32, data1: int32): (r: (Channel, Channel))
    requires Sound(y) && Sound(x)
    ensures Sound(r.0) && Sound(r.1)
  {
    var y1 := Next(y, x.filterA, data0);
    (y1, Next(x, y1.filterA, data1))
  }

  function Decode(y: Channel, x: Channel, data: seq<(int32, int32)>): (r: (Channel, Channel, seq<(int32, int32)>))
    requires Sound(y) && Sound(x)
    ensures Sound(r.0) && Sound(r.1) && |r.2| == |data|
    decreases |data|
  {
    hide Sound, Both;
    if data == [] then (y, x, [])
    else
      var (y1, x1, before) := Decode(y, x, data[..|data| - 1]);
      var (y2, x2) := Both(y1, x1, data[|data| - 1].0, data[|data| - 1].1);
      (y2, x2, before + [(y2.filterA, x2.filterA)])
  }

  // ---------------------------------------------------------------- nothing is lost

  /** The data that makes a channel put out a given value. */
  function Residual(c: Channel, other: int32, out: int32): int32
    requires Sound(c)
  {
    Difference(Difference(out, Leak(c.filterA)), Predict(c, other))
  }

  /** Exactly that data does. */
  lemma ResidualIsTheData(c: Channel, other: int32, out: int32, data: int32)
    requires Sound(c)
    ensures Next(c, other, data).filterA == out <==> data == Residual(c, other, out)
  {
    hide Predict, Leak, Steer, Push, Sound;
    NextOut(c, other, data);
    Undo(data, Predict(c, other), Leak(c.filterA), out);
  }

  lemma NextOut(c: Channel, other: int32, data: int32)
    requires Sound(c)
    ensures Next(c, other, data).filterA == Total(Total(data, Predict(c, other)), Leak(c.filterA))
  {
    hide Predict, Leak, Steer, Total;
  }

  lemma Undo(data: int32, p: int32, k: int32, out: int32)
    ensures Total(Total(data, p), k) == out <==> data == Difference(Difference(out, k), p)
  {
    TotalTells(Total(data, p), k, out);
    TotalTells(data, p, Difference(out, k));
  }

  lemma TotalTells(x: int32, k: int32, out: int32)
    ensures Total(x, k) == out <==> x == Difference(out, k)
  {
  }

  /** Every sequence of outputs has its data. */
  function Compress(y: Channel, x: Channel, out: seq<(int32, int32)>): (data: seq<(int32, int32)>)
    requires Sound(y) && Sound(x)
    ensures |data| == |out|
    decreases |out|
  {
    hide Sound, Residual, Next;
    if out == [] then []
    else
      var n := |out| - 1;
      var before := Compress(y, x, out[..n]);
      var (y1, x1, _) := Decode(y, x, before);
      var d0 := Residual(y1, x1.filterA, out[n].0);
      before + [(d0, Residual(x1, Next(y1, x1.filterA, d0).filterA, out[n].1))]
  }

  lemma {:induction false} DecodeInverts(y: Channel, x: Channel, out: seq<(int32, int32)>)
    requires Sound(y) && Sound(x)
    ensures Decode(y, x, Compress(y, x, out)).2 == out
    decreases |out|
  {
    hide Sound, Residual, Next;
    if out == [] {
    } else {
      var n := |out| - 1;
      DecodeInverts(y, x, out[..n]);
      var before, data := Compress(y, x, out[..n]), Compress(y, x, out);
      assert data[..n] == before;
      var (y1, x1, _) := Decode(y, x, before);
      ResidualIsTheData(y1, x1.filterA, out[n].0, data[n].0);
      ResidualIsTheData(x1, Next(y1, x1.filterA, data[n].0).filterA, out[n].1, data[n].1);
      assert out == out[..n] + [out[n]];
    }
  }

  /** Cutting the data into chunks changes nothing. */
  lemma {:induction false} DecodeSplit(y: Channel, x: Channel, a: seq<(int32, int32)>, b: seq<(int32, int32)>)
    requires Sound(y) && Sound(x)
    ensures var (y1, x1, r) := Decode(y, x, a);
            var (y2, x2, s) := Decode(y1, x1, b);
            Decode(y, x, a + b) == (y2, x2, r + s)
    decreases |b|
  {
    hide Sound, Both;
    var (y1, x1, r) := Decode(y, x, a);
    if b == [] {
      assert a + b == a && r + [] == r;
    } else {
      var n := |b| - 1;
      DecodeSplit(y, x, a, b[..n]);
      assert (a + b)[..|a + b| - 1] == a + b[..n] && (a + b)[|a + b| - 1] == b[n];
      var (y3, x3, s) := Decode(y1, x1, b[..n]);
      var (y2, x2) := Both(y3, x3, b[n].0, b[n].1);
      assert (r + s) + [(y2.filterA, x2.filterA)] == r + (s + [(y2.filterA, x2.filterA)]);
    }
  }

  // ---------------------------------------------------------------- mono

  function NextMono(c: Channel, data: int32): (r: Channel)
    requires Sound(c)
    ensures Sound(r)
  {
    var a := Push(c.delayA, c.lastA);
    var last := Total(data, Weigh(a, c.coeffsA) / 1024);
    c.(coeffsA := Steer(c.coeffsA, data, a), filterA := Total(last, Leak(c.filterA)), lastA := last, delayA := a[..3])
  }

  function DecodeMono(c: Channel, data: seq<int32>): (r: (Channel, seq<int32>))
    requires Sound(c)
    ensures Sound(r.0) && |r.1| == |data|
    decreases |data|
  {
    hide Sound, NextMono;
    if data == [] then (c, [])
    else
      var (c1, before) := DecodeMono(c, data[..|data| - 1]);
      var c2 := NextMono(c1, data[|data| - 1]);
      (c2, before + [c2.filterA])
  }

  // ---------------------------------------------------------------- the window

  /** `YDELAYA` and the like: where in the window the newest value of each history goes. */
  datatype Places = Places(delayA: nat, delayB: nat, signsA: nat, signsB: nat)

  const Y_PLACES := Places(50, 42, 18, 10)
  const X_PLACES := Places(34, 26, 14, 5)

  /** A history in the array, its newest value in slot p - 1. */
  predicate TrackAt(b: seq<int32>, p: nat, h: seq<int32>) {
    |h| <= p <= |b| && forall i :: p - |h| <= i < p ==> b[i] == h[p - 1 - i]
  }

  /** A history and its signs. */
  predicate PairAt(b: seq<int32>, p: nat, s: nat, h: seq<int32>) {
    TrackAt(b, p, h) && TrackAt(b, s, Signs(h))
  }

  /** The histories of a channel in the window at `at`. */
  predicate ChannelAt(b: seq<int32>, at: nat, p: Places, c: Channel) {
    PairAt(b, at + p.delayA, at + p.signsA, c.delayA) && PairAt(b, at + p.delayB, at + p.signsB, c.delayB)
  }

  /** The histories with their newest values, before the window moves on. */
  predicate PushedAt(b: seq<int32>, at: nat, p: Places, a: seq<int32>, bs: seq<int32>) {
    PairAt(b, at + p.delayA + 1, at + p.signsA + 1, a) && PairAt(b, at + p.delayB + 1, at + p.signsB + 1, bs)
  }

  /** One history after a push, if slots p and p - 1 were written and the rest of the history was not. */
  lemma TrackGrows(b: seq<int32>, d: seq<int32>, p: nat, h: seq<int32>, q: seq<int32>)
    requires TrackAt(b, p, h) && h != [] && p < |b| == |d| && |q| == |h| + 1 && q[2..] == h[1..]
    requires d[p] == q[0] && d[p - 1] == q[1] && forall i :: p - |h| <= i < p - 1 ==> d[i] == b[i]
    ensures TrackAt(d, p + 1, q)
  {
    forall i | p - |h| <= i <= p
      ensures d[i] == q[p - i]
    {
      if i < p - 1 {
        assert q[2..][p - i - 2] == h[1..][p - i - 2];
      }
    }
  }

  lemma SignsPush(h: seq<int32>, x: int32)
    requires h != []
    ensures var q := Signs(Push(h, x));
            q[0] == Sign(x) && q[1] == Sign(Difference(x, h[0])) && q[2..] == Signs(h)[1..]
  {
    hide Sign, Difference;
    var q, s := Signs(Push(h, x)), Signs(h);
    forall i | 1 <= i < |h|
      ensures q[i + 1] == s[i]
    {
      assert Push(h, x)[i + 1] == h[1..][i - 1] == h[i];
    }
    assert q[2..] == s[1..];
  }

  lemma TrackStays(b: seq<int32>, d: seq<int32>, p: nat, h: seq<int32>)
    requires TrackAt(b, p, h) && |d| == |b| && forall i :: p - |h| <= i < p ==> d[i] == b[i]
    ensures TrackAt(d, p, h)
  {
  }

  /** The oldest value is forgotten. */
  lemma PairForgets(b: seq<int32>, p: nat, s: nat, h: seq<int32>, n: nat)
    requires PairAt(b, p, s, h) && n <= |h|
    ensures PairAt(b, p, s, h[..n])
  {
    assert Signs(h[..n]) == Signs(h)[..n];
  }

  lemma {:induction false} SumOfFour(h: seq<int32>, c: seq<int32>)
    requires |h| == |c| == 4
    ensures Sum(h, c) == Product(h[0], c[0]) + Product(h[1], c[1]) + Product(h[2], c[2]) + Product(h[3], c[3])
  {
    hide Product;
    assert Sum(h[..0], c[..0]) == 0;
    SumStep(h, c, 0);
    SumStep(h, c, 1);
    SumStep(h, c, 2);
    SumStep(h, c, 3);
    assert h[..4] == h && c[..4] == c;
  }

  lemma {:induction false} SumOfFive(h: seq<int32>, c: seq<int32>)
    requires |h| == |c| == 5
    ensures Sum(h, c) == Product(h[0], c[0]) + Product(h[1], c[1]) + Product(h[2], c[2]) + Product(h[3], c[3])
                         + Product(h[4], c[4])
  {
    hide Product;
    var g, d := h[..4], c[..4];
    SumOfFour(g, d);
    SumStep(h, c, 4);
    assert h[..5] == h && c[..5] == c;
  }

  lemma SumStep(h: seq<int32>, c: seq<int32>, n: nat)
    requires n < |h| == |c|
    ensures Sum(h[..n + 1], c[..n + 1]) == Sum(h[..n], c[..n]) + Product(h[n], c[n])
  {
    hide Product;
    assert h[..n + 1][..n] == h[..n] && c[..n + 1][..n] == c[..n];
  }

  lemma ZerosAt(b: seq<int32>, p: nat, s: nat, n: nat)
    requires 3 <= n <= 4 && n <= p <= |b| && n <= s <= |b| && forall i :: 0 <= i < |b| ==> b[i] == 0
    ensures PairAt(b, p, s, if n == 3 then [0, 0, 0] else [0, 0, 0, 0])
  {
  }

  /** The slots of the window one prediction writes. */
  predicate Written(p: Places, i: int) {
    || i == p.delayA || i == p.delayA - 1 || i == p.signsA || i == p.signsA - 1
    || i == p.delayB || i == p.delayB - 1 || i == p.signsB || i == p.signsB - 1
  }

  /** Predicting Y leaves the histories of X alone. */
  lemma XStays(b: seq<int32>, d: seq<int32>, at: nat, x: Channel)
    requires Sound(x) && ChannelAt(b, at, X_PLACES, x) && |b| == |d| == HISTORY_SIZE + WINDOW
    requires forall i :: 0 <= i < |b| && !Written(Y_PLACES, i - at) ==> d[i] == b[i]
    ensures ChannelAt(d, at, X_PLACES, x)
  {
    hide Signs;
    TrackStays(b, d, at + 34, x.delayA);
    TrackStays(b, d, at + 14, Signs(x.delayA));
    TrackStays(b, d, at + 26, x.delayB);
    TrackStays(b, d, at + 5, Signs(x.delayB));
  }

  /** And the other way round. */
  lemma YStays(b: seq<int32>, d: seq<int32>, at: nat, yA: seq<int32>, yB: seq<int32>)
    requires |yA| == 4 && |yB| == 5 && PushedAt(b, at, Y_PLACES, yA, yB) && |b| == |d| == HISTORY_SIZE + WINDOW
    requires forall i :: 0 <= i < |b| && !Written(X_PLACES, i - at) ==> d[i] == b[i]
    ensures PushedAt(d, at, Y_PLACES, yA, yB)
  {
    hide Signs;
    TrackStays(b, d, at + 51, yA);
    TrackStays(b, d, at + 19, Signs(yA));
    TrackStays(b, d, at + 43, yB);
    TrackStays(b, d, at + 11, Signs(yB));
  }

  /** `p->buf++`. */
  lemma MovesOn(b: seq<int32>, at: nat, p: Places, a: seq<int32>, bs: seq<int32>, c: Channel)
    requires |a| == 4 && |bs| == 5 && PushedAt(b, at, p, a, bs) && c.delayA == a[..3] && c.delayB == bs[..4]
    ensures ChannelAt(b, at + 1, p, c)
  {
    PairForgets(b, at + p.delayA + 1, at + p.signsA + 1, a, 3);
    PairForgets(b, at + p.delayB + 1, at + p.signsB + 1, bs, 4);
  }

  lemma TrackMoves(b: seq<int32>, d: seq<int32>, from: nat, p: nat, h: seq<int32>)
    requires TrackAt(b, from + p, h) && |h| <= p <= |d| && |d| == |b| && p <= WINDOW && from + WINDOW <= |b|
    requires forall i :: 0 <= i < WINDOW ==> d[i] == b[from + i]
    ensures TrackAt(d, p, h)
  {
  }

  /** Two channels as one sequence of pairs. */
  function Zip(a: seq<int32>, b: seq<int32>): (r: seq<(int32, int32)>)
    requires |a| == |b|
    ensures |r| == |a|
  {
    seq(|a|, i requires 0 <= i < |a| => (a[i], b[i]))
  }

  lemma ZipNone(a: seq<int32>, b: seq<int32>)
    ensures Zip(a[..0], b[..0]) == []
  {
  }

  lemma ZipOne(a: seq<int32>, b: seq<int32>, i: nat)
    requires i < |a| && i < |b|
    ensures Zip(a[..i + 1], b[..i + 1]) == Zip(a[..i], b[..i]) + [(a[i], b[i])]
  {
  }

  // ---------------------------------------------------------------- the object

  /** The fields of struct predictor_t that belong to one channel. */
  datatype Registers = Registers(coeffsA: seq<int32>, coeffsB: seq<int32>, filterA: int32, filterB: int32, lastA: int32)

  predicate Fits(r: Registers, c: Channel) {
    Sound(c) && r == Registers(c.coeffsA, c.coeffsB, c.filterA, c.filterB, c.lastA)
  }

  const INITIAL_COEFFS: seq<int32> := [360, 317, -109, 98]
  const FRESH := Channel(INITIAL_COEFFS, [0, 0, 0, 0, 0], 0, 0, 0, [0, 0, 0], [0, 0, 0, 0])

  class Predictor {
    const buf: array<int32>
    var at: nat
    var y: Registers
    var x: Registers
    ghost var yChannel: Channel
    ghost var xChannel: Channel

    ghost predicate Valid()
      reads this, buf
    {
      && buf.Length == HISTORY_SIZE + WINDOW && at < HISTORY_SIZE && Fits(y, yChannel) && Fits(x, xChannel)
      && ChannelAt(buf[..], at, Y_PLACES, yChannel) && ChannelAt(buf[..], at, X_PLACES, xChannel)
    }

    /** `init_predictor_decoder`. */
    constructor ()
      ensures Valid() && ValidMono(0) && fresh(buf) && yChannel == xChannel == FRESH
    {
      hide TrackAt, Signs;
      buf := new int32[HISTORY_SIZE + WINDOW](i => 0);
      at := 0;
      y := Registers(INITIAL_COEFFS, [0, 0, 0, 0, 0], 0, 0, 0);
      x := Registers(INITIAL_COEFFS, [0, 0, 0, 0, 0], 0, 0, 0);
      yChannel, xChannel := FRESH, FRESH;
      new;
      ZerosAt(buf[..], 50, 18, 3);
      ZerosAt(buf[..], 42, 10, 4);
      ZerosAt(buf[..], 34, 14, 3);
      ZerosAt(buf[..], 26, 5, 4);
    }

    /** A value and its difference to the one before, and their signs, into slots p, p - 1, s and s - 1. */
    method Remember(p: nat, s: nat, value: int32, ghost h: seq<int32>)
      requires PairAt(buf[..], p, s, h) && |h| >= 2 && s + |h| < p < buf.Length
      modifies buf
      ensures PairAt(buf[..], p + 1, s + 1, Push(h, value))
      ensures forall i :: 0 <= i < buf.Length && i != p && i != p - 1 && i != s && i != s - 1 ==> buf[i] == old(buf[i])
    {
      hide Sign, Difference;
      ghost var was := buf[..];
      buf[p] := value;
      buf[s] := Sign(buf[p]);
      buf[p - 1] := Difference(buf[p], buf[p - 1]);
      buf[s - 1] := Sign(buf[p - 1]);
      SignsPush(h, value);
      TrackGrows(was, buf[..], p, h, Push(h, value));
      TrackGrows(was, buf[..], s, Signs(h), Signs(Push(h, value)));
    }

    /** The prediction of one channel: its histories grow, and the registers take its new value. */
    method PredictChannel(p: Places, r: Registers, other: int32, data: int32, ghost c: Channel) returns (q: Registers)
      requires (p == Y_PLACES || p == X_PLACES) && at < HISTORY_SIZE && buf.Length == HISTORY_SIZE + WINDOW
      requires Fits(r, c) && ChannelAt(buf[..], at, p, c)
      modifies buf
      ensures PushedAt(buf[..], at, p, Push(c.delayA, c.lastA), Push(c.delayB, Difference(other, Leak(c.filterB))))
      ensures q.coeffsA == r.coeffsA && q.coeffsB == r.coeffsB && q.filterB == other
      ensures q.lastA == Total(data, Predict(c, other)) && q.filterA == Total(q.lastA, Leak(r.filterA))
      ensures forall i :: 0 <= i < buf.Length && !Written(p, i - at) ==> buf[i] == old(buf[i])
    {
      hide Sign, Signs, Difference, Total, Leak, Push, Weigh, TrackAt;
      ghost var a, b := Push(c.delayA, r.lastA), Push(c.delayB, Difference(other, Leak(r.filterB)));
      ghost var was := buf[..];
      Remember(at + p.delayA, at + p.signsA, r.lastA, c.delayA);
      var predictionA := Weigh4(at + p.delayA, r.coeffsA, a);
      TrackStays(was, buf[..], at + p.delayB, c.delayB);
      TrackStays(was, buf[..], at + p.signsB, Signs(c.delayB));
      ghost var middle := buf[..];
      Remember(at + p.delayB, at + p.signsB, Difference(other, Leak(r.filterB)), c.delayB);
      var predictionB := Weigh5(at + p.delayB, r.coeffsB, b);
      TrackStays(middle, buf[..], at + p.delayA + 1, a);
      TrackStays(middle, buf[..], at + p.signsA + 1, Signs(a));
      var last := Total(data, Total(predictionA, predictionB / 2) / 1024);
      q := Registers(r.coeffsA, r.coeffsB, Total(last, Leak(r.filterA)), other, last);
    }

    method Weigh4(p: nat, coeffs: seq<int32>, ghost h: seq<int32>) returns (r: int32)
      requires p < buf.Length && TrackAt(buf[..], p + 1, h) && |h| == |coeffs| == 4
      ensures r == Weigh(h, coeffs)
    {
      SumOfFour(h, coeffs);
      r := Wrap32(Product(buf[p], coeffs[0]) + Product(buf[p - 1], coeffs[1]) + Product(buf[p - 2], coeffs[2])
                  + Product(buf[p - 3], coeffs[3]));
    }

    method Weigh5(p: nat, coeffs: seq<int32>, ghost h: seq<int32>) returns (r: int32)
      requires p < buf.Length && TrackAt(buf[..], p + 1, h) && |h| == |coeffs| == 5
      ensures r == Weigh(h, coeffs)
    {
      SumOfFive(h, coeffs);
      r := Wrap32(Product(buf[p], coeffs[0]) + Product(buf[p - 1], coeffs[1]) + Product(buf[p - 2], coeffs[2])
                  + Product(buf[p - 3], coeffs[3]) + Product(buf[p - 4], coeffs[4]));
    }

    /** The coefficients less or plus the signs in front of slot s. */
    method Adapt(s: nat, coeffs: seq<int32>, data: int32, ghost h: seq<int32>) returns (r: seq<int32>)
      requires s < buf.Length && TrackAt(buf[..], s + 1, Signs(h)) && |h| == |coeffs|
      ensures r == Steer(coeffs, data, h)
    {
      hide Sign, Total, Difference;
      r := coeffs;
      if data != 0 {
        for k := 0 to |coeffs|
          invariant |r| == |coeffs|
          invariant forall i :: 0 <= i < k ==> r[i] == Steer(coeffs, data, h)[i]
          invariant forall i :: k <= i < |coeffs| ==> r[i] == coeffs[i]
        {
          assert buf[s - k] == Signs(h)[k];
          r := r[k := if data > 0 then Difference(r[k], buf[s - k]) else Total(r[k], buf[s - k])];
        }
      }
      assert r == Steer(coeffs, data, h);
    }

    method AdaptChannel(p: Places, r: Registers, data: int32, ghost a: seq<int32>, ghost b: seq<int32>)
      returns (q: Registers)
      requires buf.Length == HISTORY_SIZE + WINDOW && at < HISTORY_SIZE && (p == Y_PLACES || p == X_PLACES)
      requires PushedAt(buf[..], at, p, a, b) && |a| == |r.coeffsA| && |b| == |r.coeffsB|
      ensures q == r.(coeffsA := Steer(r.coeffsA, data, a), coeffsB := Steer(r.coeffsB, data, b))
    {
      hide Steer;
      var coeffsA := Adapt(at + p.signsA, r.coeffsA, data, a);
      var coeffsB := Adapt(at + p.signsB, r.coeffsB, data, b);
      q := r.(coeffsA := coeffsA, coeffsB := coeffsB);
    }

    /** The window back to the start of the array. */
    method MoveBack()
      requires buf.Length == HISTORY_SIZE + WINDOW && at == HISTORY_SIZE && Fits(y, yChannel) && Fits(x, xChannel)
      requires ChannelAt(buf[..], at, Y_PLACES, yChannel) && ChannelAt(buf[..], at, X_PLACES, xChannel)
      modifies this`at, buf
      ensures Valid()
    {
      hide Signs;
      ghost var was := buf[..];
      forall i | 0 <= i < WINDOW {
        buf[i] := buf[at + i];
      }
      TrackMoves(was, buf[..], at, 50, yChannel.delayA);
      TrackMoves(was, buf[..], at, 42, yChannel.delayB);
      TrackMoves(was, buf[..], at, 18, Signs(yChannel.delayA));
      TrackMoves(was, buf[..], at, 10, Signs(yChannel.delayB));
      TrackMoves(was, buf[..], at, 34, xChannel.delayA);
      TrackMoves(was, buf[..], at, 26, xChannel.delayB);
      TrackMoves(was, buf[..], at, 14, Signs(xChannel.delayA));
      TrackMoves(was, buf[..], at, 5, Signs(xChannel.delayB));
      at := 0;
    }

    /** One turn of predictor_decode_stereo. */
    method Turn(data0: int32, data1: int32) returns (out0: int32, out1: int32)
      requires Valid()
      modifies this`at, this`y, this`x, this`yChannel, this`xChannel, buf
      ensures Valid()
      ensures (yChannel, xChannel) == Both(old(yChannel), old(xChannel), data0, data1)
      ensures out0 == yChannel.filterA && out1 == xChannel.filterA
    {
      hide Total, Leak, Push, Difference, Predict, Steer, ChannelAt, PushedAt, Written, Signs;
      ghost var c, d, was := yChannel, xChannel, buf[..];
      ghost var yA, yB := Push(c.delayA, c.lastA), Push(c.delayB, Difference(x.filterA, Leak(c.filterB)));
      y := PredictChannel(Y_PLACES, y, x.filterA, data0, c);
      XStays(was, buf[..], at, d);
      ghost var middle := buf[..];
      ghost var xA, xB := Push(d.delayA, d.lastA), Push(d.delayB, Difference(y.filterA, Leak(d.filterB)));
      x := PredictChannel(X_PLACES, x, y.filterA, data1, d);
      YStays(middle, buf[..], at, yA, yB);
      y := AdaptChannel(Y_PLACES, y, data0, yA, yB);
      out0 := y.filterA;
      x := AdaptChannel(X_PLACES, x, data1, xA, xB);
      out1 := x.filterA;
      yChannel := Next(c, d.filterA, data0);
      xChannel := Next(d, yChannel.filterA, data1);
      MovesOn(buf[..], at, Y_PLACES, yA, yB, yChannel);
      MovesOn(buf[..], at, X_PLACES, xA, xB, xChannel);
      at := at + 1;
      if at == HISTORY_SIZE {
        MoveBack();
      }
    }

    /** `predictor_decode_stereo`. */
    method DecodeStereo(decoded0: array<int32>, decoded1: array<int32>, count: nat)
      requires Valid() && decoded0 != decoded1 && buf != decoded0 && buf != decoded1
      requires count <= decoded0.Length && count <= decoded1.Length
      modifies this`at, this`y, this`x, this`yChannel, this`xChannel, buf, decoded0, decoded1
      ensures Valid()
      ensures (yChannel, xChannel, Zip(decoded0[..count], decoded1[..count]))
              == Decode(old(yChannel), old(xChannel), old(Zip(decoded0[..count], decoded1[..count])))
      ensures decoded0[count..] == old(decoded0[count..]) && decoded1[count..] == old(decoded1[count..])
    {
      hide Decode, Both, Sound, Zip, ChannelAt, Fits;
      ghost var c, d, was0, was1 := yChannel, xChannel, decoded0[..], decoded1[..];
      ValidSound();
      ZipNone(was0, was1);
      ZipNone(decoded0[..], decoded1[..]);
      DecodeNone(c, d);
      var i := 0;
      assert decoded0[..0] == was0[..0] && decoded1[..0] == was1[..0];
      while i < count
        invariant 0 <= i <= count && Valid()
        invariant (yChannel, xChannel, Zip(decoded0[..i], decoded1[..i])) == Decode(c, d, Zip(was0[..i], was1[..i]))
        invariant forall j :: i <= j < decoded0.Length ==> decoded0[j] == was0[j]
        invariant forall j :: i <= j < decoded1.Length ==> decoded1[j] == was1[j]
      {
        ghost var out0, out1 := decoded0[..i], decoded1[..i];
        DecodeOne(c, d, was0, was1, i);
        var v0, v1 := Turn(decoded0[i], decoded1[i]);
        decoded0[i] := v0;
        decoded1[i] := v1;
        ZipOne(decoded0[..], decoded1[..], i);
        assert decoded0[..][..i] == out0 && decoded1[..][..i] == out1;
        assert decoded0[..][..i + 1] == decoded0[..i + 1] && decoded1[..][..i + 1] == decoded1[..i + 1];
        i := i + 1;
      }
    }

    lemma ValidSound()
      requires Valid()
      ensures Sound(yChannel) && Sound(xChannel)
    {
    }

    // -------------------------------------------------------------- mono

    /** Mono looks at Y's first history only, and keeps the newest value to itself until it is done. */
    ghost predicate ValidMono(current: int32)
      reads this, buf
    {
      && buf.Length == HISTORY_SIZE + WINDOW && at < HISTORY_SIZE
      && Fits(y.(lastA := current), yChannel) && PairAt(buf[..], at + 50, at + 18, yChannel.delayA)
    }

    method MonoTurn(data: int32, currentA: int32) returns (out: int32, next: int32)
      requires ValidMono(currentA)
      modifies this`at, this`y, this`yChannel, buf
      ensures ValidMono(next) && y.lastA == old(y.lastA)
      ensures yChannel == NextMono(old(yChannel), data) && out == yChannel.filterA
    {
      hide Sign, Signs, Total, Leak, Push, Difference, Steer, Weigh, TrackAt;
      ghost var c := yChannel;
      ghost var a := Push(c.delayA, currentA);
      Remember(at + 50, at + 18, currentA, c.delayA);
      var predictionA := Weigh4(at + 50, y.coeffsA, a);
      next := Total(data, predictionA / 1024);
      var coeffsA := Adapt(at + 18, y.coeffsA, data, a);
      PairForgets(buf[..], at + 51, at + 19, a, 3);
      at := at + 1;
      if at == HISTORY_SIZE {
        ghost var was := buf[..];
        forall i | 0 <= i < WINDOW {
          buf[i] := buf[at + i];
        }
        TrackMoves(was, buf[..], at, 50, a[..3]);
        TrackMoves(was, buf[..], at, 18, Signs(a[..3]));
        at := 0;
      }
      out := Total(next, Leak(y.filterA));
      y := y.(coeffsA := coeffsA, filterA := out);
      yChannel := NextMono(c, data);
    }

    /** `predictor_decode_mono`. */
    method DecodeMonoSamples(decoded0: array<int32>, count: nat)
      requires ValidMono(y.lastA) && buf != decoded0 && count <= decoded0.Length
      modifies this`at, this`y, this`yChannel, buf, decoded0
      ensures ValidMono(y.lastA)
      ensures (yChannel, decoded0[..count]) == DecodeMono(old(yChannel), old(decoded0[..count]))
      ensures decoded0[count..] == old(decoded0[count..])
    {
      hide DecodeMono, NextMono, Sound, Fits, TrackAt;
      ghost var c, was := yChannel, decoded0[..];
      MonoSound(y.lastA);
      DecodeMonoNone(c);
      var currentA := y.lastA;
      var i := 0;
      assert was[..0] == [] && decoded0[..0] == [];
      while i < count
        invariant 0 <= i <= count && ValidMono(currentA)
        invariant (yChannel, decoded0[..i]) == DecodeMono(c, was[..i])
        invariant forall j :: i <= j < decoded0.Length ==> decoded0[j] == was[j]
      {
        ghost var before := decoded0[..i];
        DecodeMonoOne(c, was[..i + 1]);
        assert was[..i + 1][..i] == was[..i];
        var out;
        out, currentA := MonoTurn(decoded0[i], currentA);
        decoded0[i] := out;
        assert decoded0[..i + 1] == before + [out];
        i := i + 1;
      }
      y := y.(lastA := currentA);
    }

    lemma MonoSound(current: int32)
      requires ValidMono(current)
      ensures Sound(yChannel)
    {
    }
  }

  lemma DecodeNone(y: Channel, x: Channel)
    requires Sound(y) && Sound(x)
    ensures Decode(y, x, []) == (y, x, [])
  {
  }

  lemma DecodeOne(y: Channel, x: Channel, a: seq<int32>, b: seq<int32>, i: nat)
    requires Sound(y) && Sound(x) && i < |a| && i < |b|
    ensures var (y1, x1, before) := Decode(y, x, Zip(a[..i], b[..i]));
            var (y2, x2) := Both(y1, x1, a[i], b[i]);
            Decode(y, x, Zip(a[..i + 1], b[..i + 1])) == (y2, x2, before + [(y2.filterA, x2.filterA)])
  {
    hide Sound, Both;
    ZipOne(a, b, i);
    var z := Zip(a[..i + 1], b[..i + 1]);
    assert z[..|z| - 1] == Zip(a[..i], b[..i]);
  }

  lemma DecodeMonoNone(c: Channel)
    requires Sound(c)
    ensures DecodeMono(c, []) == (c, [])
  {
  }

  lemma DecodeMonoOne(c: Channel, data: seq<int32>)
    requires Sound(c) && data != []
    ensures var (c1, before) := DecodeMono(c, data[..|data| - 1]);
            var c2 := NextMono(c1, data[|data| - 1]);
            DecodeMono(c, data) == (c2, before + [c2.filterA])
  {
    hide Sound, NextMono;
  }
}
