/** What the predictor of jni/ape/predictor.c learns (lines 85-230): which way its coefficients go and how far. */
module ApePredictorLearns {
  import opened Machine
  import opened ApePredictor

  /** The size of a history, all its values together. */
  function Size(h: seq<int32>): nat {
    if h == [] then 0 else Size(h[..|h| - 1]) + Abs(h[|h| - 1])
  }

  function Direction(data: int): int {
    if data > 0 then 1 else if data < 0 then -1 else 0
  }

  /** Coefficients not at the ends of 32 bits. */
  predicate RoomLeft(coeffs: seq<int32>) {
    forall i :: 0 <= i < |coeffs| ==> -TWO31 < coeffs[i] < TWO31 - 1
  }

  /** New coefficients weigh a history by its whole size higher, lower, or as before. */
  predicate Learns(h: seq<int32>, before: seq<int32>, after: seq<int32>, data: int)
    requires |h| == |before| == |after|
  {
    Sum(h, after) == Sum(h, before) + Times(Direction(data), Size(h))
  }

  function Times(x: int, y: int): int {
    x * y
  }

  lemma {:induction false} SteerLearns(h: seq<int32>, coeffs: seq<int32>, data: int32)
    requires |h| == |coeffs| && RoomLeft(coeffs)
    ensures Learns(h, coeffs, Steer(coeffs, data, h), data)
  {
    hide Product, Sign, Times;
    if h == [] {
      NoTimes(Direction(data));
    } else {
      var n := |h| - 1;
      var s := Steer(coeffs, data, h);
      assert s[..n] == Steer(coeffs[..n], data, h[..n]);
      SteerLearns(h[..n], coeffs[..n], data);
      OneLearns(h[n], coeffs[n], data);
      assert s[n] == if data > 0 then Difference(coeffs[n], Sign(h[n]))
                     else if data < 0 then Total(coeffs[n], Sign(h[n])) else coeffs[n];
      TimesSum(Direction(data), Size(h[..n]), Abs(h[n]));
    }
  }

  lemma NoTimes(x: int)
    ensures Times(x, 0) == 0
  {
  }

  lemma TimesSum(x: int, y: int, z: int)
    ensures Times(x, y + z) == Times(x, y) + Times(x, z)
  {
  }

  lemma OneLearns(x: int32, c: int32, data: int32)
    requires -TWO31 < c < TWO31 - 1
    ensures var d := if data > 0 then Difference(c, Sign(x)) else if data < 0 then Total(c, Sign(x)) else c;
            Product(x, d) == Product(x, c) + Times(Direction(data), Abs(x))
  {
    var d := if data > 0 then Difference(c, Sign(x)) else if data < 0 then Total(c, Sign(x)) else c;
    assert d == c + Direction(data) * Direction(x);
    MulSum(x, c, Direction(data) * Direction(x));
  }

  lemma MulSum(x: int, c: int, d: int)
    ensures x * (c + d) == x * c + x * d
  {
  }

  // ---------------------------------------------------------------- a channel

  /** The last value, its difference to the one before, and the older differences; the newest first. */
  function Joined(x: int32, h: seq<int32>): (r: seq<int32>)
    requires |h| >= 1
    ensures |r| == |h| + 1
  {
    [x, WrapSub(x, h[0])] + h[1..]
  }

  /** What a channel looks back on of its own, and of the other channel: there the newest value of that channel less
      31 of 32 parts of the one before. */
  function OwnHistory(c: Channel): (h: seq<int32>)
    requires Sound(c)
    ensures |h| == 4
  {
    Joined(c.lastA, c.delayA)
  }

  function OtherHistory(c: Channel, other: int32): (h: seq<int32>)
    requires Sound(c)
    ensures |h| == 5
  {
    Joined(WrapSub(other, Leak(c.filterB)), c.delayB)
  }

  /** A channel learns from every datum: both sums move by the size of their histories, up for positive data. */
  lemma NextLearns(c: Channel, other: int32, data: int32)
    requires Sound(c) && RoomLeft(c.coeffsA) && RoomLeft(c.coeffsB)
    ensures var d := Next(c, other, data);
            && Learns(OwnHistory(c), c.coeffsA, d.coeffsA, data)
            && Learns(OtherHistory(c, other), c.coeffsB, d.coeffsB, data)
  {
    hide Predict, Leak, Steer, Total, Learns, RoomLeft;
    SteerLearns(Push(c.delayA, c.lastA), c.coeffsA, data);
    SteerLearns(Push(c.delayB, Difference(other, Leak(c.filterB))), c.coeffsB, data);
  }

  lemma NextMonoLearns(c: Channel, data: int32)
    requires Sound(c) && RoomLeft(c.coeffsA)
    ensures var d := NextMono(c, data);
            Learns(OwnHistory(c), c.coeffsA, d.coeffsA, data) && d.coeffsB == c.coeffsB
  {
    hide Leak, Steer, Total, Learns, RoomLeft, Weigh;
    SteerLearns(Push(c.delayA, c.lastA), c.coeffsA, data);
  }

  /** And the datum is added to the sums over 1024, those of the other channel counting half, rounded down. */
  lemma NextPredicts(c: Channel, other: int32, data: int32)
    requires Sound(c)
    ensures var d, a, b := Next(c, other, data), Sum(OwnHistory(c), c.coeffsA), Sum(OtherHistory(c, other), c.coeffsB);
            && (-0x4000_0000 <= a < 0x4000_0000 && -0x4000_0000 <= b < 0x4000_0000 && -0x4000_0000 <= data < 0x4000_0000 ==>
                  2 * a + b - 2048 < 2048 * (d.lastA - data) <= 2 * a + b)
            && d.filterA == WrapAdd(d.lastA, Leak(c.filterA)) && d.filterB == other
            && d.delayA == OwnHistory(c)[..3] && d.delayB == OtherHistory(c, other)[..4]
  {
    hide Leak, Steer, Sum;
  }

  /** `(x * 31) >> 5`: x less a thirty-second of it, rounded up; nothing grows by it. */
  lemma LeakLoses(x: int32)
    requires -TWO31 <= 31 * x < TWO31
    ensures x <= 32 * (x - Leak(x)) <= x + 31 && Abs(Leak(x)) <= Abs(x)
  {
  }

  // ---------------------------------------------------------------- a first run

  function Silence(n: nat): (s: seq<int32>)
    ensures |s| == n && forall i :: 0 <= i < n ==> s[i] == 0
  {
    seq(n, i => 0)
  }

  /** A channel whose neighbour is silent and has always been. */
  function Alone(coeffs: seq<int32>, filterA: int32, last: int32, h: seq<int32>): Channel {
    Channel(coeffs, Silence(5), filterA, 0, last, h, Silence(4))
  }

  /** Data 1000, 100 and 0 in the first channel of a fresh predictor, the other one silent: 1000, 1729 and 1761. Its first
      two coefficients have moved by one in between. */
  lemma FirstRun()
    ensures var c := Next(FRESH, 0, 1000);
            var d := Next(c, 0, 100);
            var e := Next(d, 0, 0);
            (c.filterA, d.filterA, e.filterA) == (1000, 1729, 1761)
  {
    hide Next;
    FreshIsAlone();
    FirstTurn();
    SecondTurn();
    ThirdTurn();
  }

  lemma FreshIsAlone()
    ensures FRESH == Alone([360, 317, -109, 98], 0, 0, [0, 0, 0])
  {
    assert Silence(4) == [0, 0, 0, 0] && Silence(5) == [0, 0, 0, 0, 0];
  }

  lemma FirstTurn()
    ensures Next(Alone([360, 317, -109, 98], 0, 0, [0, 0, 0]), 0, 1000) == Alone([360, 317, -109, 98], 1000, 1000, [0, 0, 0])
  {
    hide Next;
    OneTurn([360, 317, -109, 98], 0, 0, [0, 0, 0], 1000, Silence(4));
  }

  lemma SecondTurn()
    ensures Next(Alone([360, 317, -109, 98], 1000, 1000, [0, 0, 0]), 0, 100)
            == Alone([361, 318, -109, 98], 1729, 761, [1000, 1000, 0])
  {
    hide Next;
    OneTurn([360, 317, -109, 98], 1000, 1000, [0, 0, 0], 100, [1000, 1000, 0, 0]);
  }

  lemma ThirdTurn()
    ensures Next(Alone([361, 318, -109, 98], 1729, 761, [1000, 1000, 0]), 0, 0).filterA == 1761
  {
    hide Next;
    OneTurn([361, 318, -109, 98], 1729, 761, [1000, 1000, 0], 0, [761, -239, 1000, 0]);
  }

  lemma OneTurn(coeffs: seq<int32>, filterA: int32, lastA: int32, h: seq<int32>, data: int32, a: seq<int32>)
    requires |coeffs| == 4 && |h| == 3 && a == Joined(lastA, h)
    ensures var p := Wrap32(Product(a[0], coeffs[0]) + Product(a[1], coeffs[1]) + Product(a[2], coeffs[2])
                            + Product(a[3], coeffs[3])) / 1024;
            var last := WrapAdd(data, p);
            Next(Alone(coeffs, filterA, lastA, h), 0, data)
            == Alone(Steer(coeffs, data, a), WrapAdd(last, Leak(filterA)), last, a[..3])
  {
    hide Product, Wrap32, Leak, Weigh, Predict, Steer, Push, Joined, Silence, Difference;
    PredictsAlone(coeffs, filterA, lastA, h, a);
    OtherIsNone();
    Unsteered(Silence(5), data, Silence(5));
    JoinedIsPush(h, lastA);
  }

  lemma JoinedIsPush(h: seq<int32>, x: int32)
    requires |h| >= 1
    ensures Joined(x, h) == Push(h, x)
  {
    hide Wrap32;
  }

  lemma OtherIsNone()
    ensures Difference(0, Leak(0)) == 0 && Push(Silence(4), 0) == Silence(5) && Silence(5)[..4] == Silence(4)
  {
    hide Difference, Leak;
    NoDifference();
  }

  lemma NoDifference()
    ensures Difference(0, Leak(0)) == 0 && Difference(0, 0) == 0
  {
  }

  lemma PredictsAlone(coeffs: seq<int32>, filterA: int32, lastA: int32, h: seq<int32>, a: seq<int32>)
    requires |coeffs| == 4 && |h| == 3 && a == Joined(lastA, h)
    ensures Predict(Alone(coeffs, filterA, lastA, h), 0)
            == Wrap32(Product(a[0], coeffs[0]) + Product(a[1], coeffs[1]) + Product(a[2], coeffs[2])
                      + Product(a[3], coeffs[3])) / 1024
  {
    hide Product, Leak, Wrap32, Weigh, Push, Joined, Silence, Difference;
    OtherIsNone();
    WeighFour(a, coeffs);
    WeighSilence();
    TotalZero(Weigh(a, coeffs));
    JoinedIsPush(h, lastA);
  }

  lemma WeighFour(a: seq<int32>, coeffs: seq<int32>)
    requires |a| == |coeffs| == 4
    ensures Weigh(a, coeffs) == Wrap32(Product(a[0], coeffs[0]) + Product(a[1], coeffs[1]) + Product(a[2], coeffs[2])
                                       + Product(a[3], coeffs[3]))
  {
    hide Product, Sum, Wrap32;
    SumOfFour(a, coeffs);
  }

  lemma WeighSilence()
    ensures Weigh(Silence(5), Silence(5)) == 0
  {
    hide Product, Sum, Silence;
    SumOfFive(Silence(5), Silence(5));
    NoProduct();
  }

  lemma NoProduct()
    ensures Product(0, 0) == 0
  {
  }

  lemma TotalZero(x: int32)
    ensures Total(x, 0) == x
  {
  }

  lemma Unsteered(coeffs: seq<int32>, data: int32, h: seq<int32>)
    requires |h| == |coeffs| && forall i :: 0 <= i < |h| ==> h[i] == 0
    ensures Steer(coeffs, data, h) == coeffs
  {
  }
}
