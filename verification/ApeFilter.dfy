/** The adaptive filters of Monkey's Audio (jni/ape/filter.c with jni/ape/vector_math_generic.h): coefficients, output
    history and adaption history share one array through which the histories slide, the newer adaption values over the
    oldest outputs; when the array is full both are moved back. Against histories that are kept apart and for ever. */
module ApeFilter {
  import opened Machine

  const HISTORY_SIZE := 512

  // ---------------------------------------------------------------- arithmetic

  /** `SATURATE`: the value if a short holds it, else the short that is nearest. */
  function Saturate(x: int32): (r: int16)
    ensures x > 32767 ==> r == 32767
    ensures x < -32768 ==> r == -32768
    ensures -32768 <= x <= 32767 ==> r == x
  {
    if x == Wrap16(x) then x else if x < 0 then -32768 else 32767
  }

  /** `1 << (fracBits - 1)` and `1 << fracBits`, for the five filters there are. */
  function Half(fracBits: nat): nat {
    match fracBits
    case 10 => 512
    case 11 => 1024
    case 13 => 4096
    case _ => 16384
  }

  /** `FP_TO_INT`. */
  function FpToInt(x: int32, fracBits: nat): (r: int32) {
    var h := Half(fracBits);
    Wrap32(x + h) / (2 * h)
  }

  function Times(x: int, y: int): int {
    x * y
  }

  function Plus(x: int, y: int): int {
    x + y
  }

  function Minus(x: int, y: int): int {
    x - y
  }

  /** The exact scalar product; `scalarproduct` has it modulo 2^32. */
  function Dot(a: seq<int16>, b: seq<int16>): int
    requires |a| == |b|
  {
    if a == [] then 0 else Dot(a[..|a| - 1], b[..|b| - 1]) + Times(a[|a| - 1], b[|b| - 1])
  }

  function AddVector(a: seq<int16>, b: seq<int16>): (r: seq<int16>)
    requires |a| == |b|
    ensures |r| == |a|
  {
    seq(|a|, i requires 0 <= i < |a| => Wrap16(Plus(a[i], b[i])))
  }

  function SubVector(a: seq<int16>, b: seq<int16>): (r: seq<int16>)
    requires |a| == |b|
    ensures |r| == |a|
  {
    seq(|a|, i requires 0 <= i < |a| => Wrap16(Minus(a[i], b[i])))
  }

  function Last(s: seq<int16>, n: nat): (r: seq<int16>)
    requires n <= |s|
    ensures |r| == n
  {
    s[|s| - n..]
  }

  /** C's division. */
  function Truncate(x: int, d: nat): int
    requires d > 0
  {
    if x >= 0 then x / d else -(-x / d)
  }

  // ---------------------------------------------------------------- the filter with histories apart

  /** All outputs and all adaption values so far, zeros in front of them. */
  datatype Memory = Memory(coeffs: seq<int16>, outputs: seq<int16>, adaption: seq<int16>, avg: int32)

  predicate Sound(m: Memory, order: nat) {
    order >= 16 && |m.coeffs| == order && |m.outputs| >= order && |m.adaption| >= order
  }

  function Predict(m: Memory, order: nat, fracBits: nat): int32
    requires Sound(m, order)
  {
    FpToInt(Wrap32(Dot(m.coeffs, Last(m.outputs, order))), fracBits)
  }

  function Adapt(m: Memory, order: nat, data: int32): (coeffs: seq<int16>)
    requires Sound(m, order)
    ensures |coeffs| == order
  {
    if data < 0 then AddVector(m.coeffs, Last(m.adaption, order))
    else if data > 0 then SubVector(m.coeffs, Last(m.adaption, order))
    else m.coeffs
  }

  /** `absres`; the most negative number stays negative. */
  function AbsOf(res: int32): int32 {
    Wrap32(Abs(res))
  }

  /** The adaption value for an output: its sign against a size that depends on how it stands to the average. */
  function Value(late: bool, res: int32, avg: int32): int16 {
    var a: int := AbsOf(res);
    if !late then (if res == 0 then 0 else Signed(res, 4))
    else if a > Wrap32(3 * avg) then Signed(res, 32)
    else if Wrap32(3 * a) > Wrap32(4 * avg) then Signed(res, 16)
    else if a > 0 then Signed(res, 8)
    else 0
  }

  /** `((res >> k) & (2 * size)) - size`, where the shift brings the sign bit to that place. */
  function Signed(res: int32, size: int): int16
    requires 0 <= size <= 32
  {
    if res < 0 then size else -size
  }

  function Average(late: bool, res: int32, avg: int32): int32 {
    if late then Wrap32(avg + Truncate(Wrap32(AbsOf(res) - avg), 16)) else avg
  }

  /** `f->adaptcoeffs[-k] >>= 1`. */
  function HalveAt(s: seq<int16>, k: nat): (r: seq<int16>)
    requires 1 <= k <= |s|
    ensures |r| == |s|
  {
    s[|s| - k := s[|s| - k] / 2]
  }

  /** Older values fade: in late files at three places, in early ones at two. */
  function Fade(late: bool, s: seq<int16>): (r: seq<int16>)
    requires |s| >= 8
    ensures |r| == |s|
  {
    if late then HalveAt(HalveAt(HalveAt(s, 1), 2), 8) else HalveAt(HalveAt(s, 4), 8)
  }

  function Step(m: Memory, order: nat, fracBits: nat, late: bool, data: int32): (r: (Memory, int32))
    requires Sound(m, order)
    ensures Sound(r.0, order)
  {
    hide Predict, Wrap32;
    var res := Wrap32(Plus(Predict(m, order, fracBits), data));
    (Memory(Adapt(m, order, data), m.outputs + [Saturate(res)],
            Fade(late, m.adaption) + [Value(late, res, m.avg)], Average(late, res, m.avg)), res)
  }

  function Filter(m: Memory, order: nat, fracBits: nat, late: bool, data: seq<int32>): (r: (Memory, seq<int32>))
    requires Sound(m, order)
    ensures Sound(r.0, order) && |r.1| == |data|
    decreases |data|
  {
    hide Sound, Step;
    if data == [] then (m, [])
    else
      var (m1, before) := Filter(m, order, fracBits, late, data[..|data| - 1]);
      var (m2, res) := Step(m1, order, fracBits, late, data[|data| - 1]);
      (m2, before + [res])
  }

  /** Cutting the data into chunks changes nothing. */
  lemma {:induction false} FilterSplit(m: Memory, order: nat, fracBits: nat, late: bool, a: seq<int32>, b: seq<int32>)
    requires Sound(m, order)
    ensures var (m1, x) := Filter(m, order, fracBits, late, a);
            var (m2, y) := Filter(m1, order, fracBits, late, b);
            Filter(m, order, fracBits, late, a + b) == (m2, x + y)
    decreases |b|
  {
    hide Sound, Step;
    var (m1, x) := Filter(m, order, fracBits, late, a);
    if b == [] {
      assert a + b == a && x + [] == x;
    } else {
      var n := |b| - 1;
      FilterSplit(m, order, fracBits, late, a, b[..n]);
      assert (a + b)[..|a + b| - 1] == a + b[..n] && (a + b)[|a + b| - 1] == b[n];
      var (m3, y) := Filter(m1, order, fracBits, late, b[..n]);
      var (_, res) := Step(m3, order, fracBits, late, b[n]);
      assert (x + y) + [res] == x + (y + [res]);
    }
  }

  /** The other direction: the data a compressor would have to send for given outputs. */
  function Residual(m: Memory, order: nat, fracBits: nat, late: bool, out: seq<int32>): (data: seq<int32>)
    requires Sound(m, order)
    ensures |data| == |out|
    decreases |out|
  {
    hide Sound, Step, Predict;
    if out == [] then []
    else
      var data := Residual(m, order, fracBits, late, out[..|out| - 1]);
      var m1 := Filter(m, order, fracBits, late, data).0;
      data + [Wrap32(Minus(out[|out| - 1], Predict(m1, order, fracBits)))]
  }

  /** The filter loses nothing: every sequence of outputs has its data, overflow or not. */
  lemma {:induction false} FilterInverts(m: Memory, order: nat, fracBits: nat, late: bool, out: seq<int32>)
    requires Sound(m, order)
    ensures Filter(m, order, fracBits, late, Residual(m, order, fracBits, late, out)).1 == out
    decreases |out|
  {
    hide Sound, Step, Predict, Wrap32;
    if out == [] {
    } else {
      var n := |out| - 1;
      FilterInverts(m, order, fracBits, late, out[..n]);
      var before := Residual(m, order, fracBits, late, out[..n]);
      var data := Residual(m, order, fracBits, late, out);
      var m1 := Filter(m, order, fracBits, late, before).0;
      assert data[..n] == before;
      StepOut(m1, order, fracBits, late, data[n]);
      WrapAddUndoesSub(out[n], Predict(m1, order, fracBits));
      assert out == out[..n] + [out[n]];
    }
  }

  lemma StepOut(m: Memory, order: nat, fracBits: nat, late: bool, data: int32)
    requires Sound(m, order)
    ensures Step(m, order, fracBits, late, data).1 == Wrap32(Plus(Predict(m, order, fracBits), data))
  {
    hide Predict, Fade, Adapt, Value, Average, Saturate, Wrap32;
  }

  /** And only that data: two inputs with the same outputs are the same. */
  lemma {:induction false} FilterIsInjective(m: Memory, order: nat, fracBits: nat, late: bool, a: seq<int32>, b: seq<int32>)
    requires Sound(m, order) && |a| == |b|
    requires Filter(m, order, fracBits, late, a).1 == Filter(m, order, fracBits, late, b).1
    ensures a == b
    decreases |a|
  {
    hide Sound, Step, Predict, Wrap32;
    if a == [] {
    } else {
      var n := |a| - 1;
      var x, y := Filter(m, order, fracBits, late, a).1, Filter(m, order, fracBits, late, b).1;
      assert x[..n] == Filter(m, order, fracBits, late, a[..n]).1;
      assert y[..n] == Filter(m, order, fracBits, late, b[..n]).1;
      FilterIsInjective(m, order, fracBits, late, a[..n], b[..n]);
      var m1 := Filter(m, order, fracBits, late, a[..n]).0;
      var p := Predict(m1, order, fracBits);
      StepOut(m1, order, fracBits, late, a[n]);
      StepOut(m1, order, fracBits, late, b[n]);
      assert x[n] == Wrap32(Plus(p, a[n])) && y[n] == Wrap32(Plus(p, b[n]));
      SumTells(p, a[n], b[n]);
      assert a == a[..n] + [a[n]] && b == b[..n] + [b[n]];
    }
  }

  lemma SumTells(p: int, x: int32, y: int32)
    requires Wrap32(Plus(p, x)) == Wrap32(Plus(p, y))
    ensures x == y
  {
  }

  // ---------------------------------------------------------------- the sliding array

  /** The orders the filters are built for. */
  predicate ValidOrder(order: nat) {
    order == 16 || (order >= 32 && order % 32 == 0)
  }

  /** What the array shows of the histories: the coefficients, the last outputs in front of `delay`, and in front of
      these the last adaption values. */
  predicate Shows(b: seq<int16>, delay: nat, order: nat, m: Memory) {
    && Sound(m, order) && 3 * order <= delay <= |b|
    && b[..order] == m.coeffs
    && b[delay - order..delay] == Last(m.outputs, order)
    && b[delay - 2 * order..delay - order] == Last(m.adaption, order)
  }

  /** The array after `*f->delay++` and `f->adaptcoeffs++`: the adaption values grow over the oldest output. */
  lemma SlideOn(b: seq<int16>, d: seq<int16>, delay: nat, order: nat, m: Memory, output: int16, faded: seq<int16>,
                value: int16)
    requires Shows(b, delay, order, m) && delay < |b| == |d| && |faded| == |m.adaption|
    requires d[..order] == b[..order] && d[delay] == output && d[delay - order] == value
    requires d[delay - 2 * order..delay - order] == Last(faded, order)
    requires d[delay - order + 1..delay] == b[delay - order + 1..delay]
    ensures Shows(d, delay + 1, order, Memory(m.coeffs, m.outputs + [output], faded + [value], m.avg))
  {
    var q := Memory(m.coeffs, m.outputs + [output], faded + [value], m.avg);
    assert d[delay + 1 - order..delay + 1] == Last(q.outputs, order) by {
      forall i | 0 <= i < order
        ensures d[delay + 1 - order..delay + 1][i] == Last(q.outputs, order)[i]
      {
        if i < order - 1 {
          assert d[delay - order + 1..delay][i] == b[delay - order + 1..delay][i];
          assert b[delay - order..delay][i + 1] == Last(m.outputs, order)[i + 1];
        }
      }
    }
    assert d[delay + 1 - 2 * order..delay + 1 - order] == Last(q.adaption, order) by {
      forall i | 0 <= i < order
        ensures d[delay + 1 - 2 * order..delay + 1 - order][i] == Last(q.adaption, order)[i]
      {
        if i < order - 1 {
          assert d[delay - 2 * order..delay - order][i + 1] == Last(faded, order)[i + 1];
        }
      }
    }
  }

  /** All a turn writes behind the coefficients. */
  lemma Remembered(b: seq<int16>, d: seq<int16>, delay: nat, order: nat, m: Memory, late: bool, output: int16,
                   value: int16, avg: int32)
    requires Shows(b, delay, order, m) && delay < |b| == |d|
    requires d[delay] == output && d[delay - order] == value
    requires d[delay - 2 * order..delay - order] == Fade(late, b[delay - 2 * order..delay - order])
    requires forall i :: 0 <= i < delay - 2 * order || delay - order < i < delay ==> d[i] == b[i]
    ensures |m.adaption| >= 8
    ensures Shows(d, delay + 1, order, Memory(m.coeffs, m.outputs + [output], Fade(late, m.adaption) + [value], avg))
  {
    hide Fade;
    FadeLast(late, m.adaption, order);
    assert d[..order] == b[..order];
    assert d[delay - order + 1..delay] == b[delay - order + 1..delay];
    SlideOn(b, d, delay, order, m, output, Fade(late, m.adaption), value);
  }

  lemma VectorShows(b: seq<int16>, d: seq<int16>, delay: nat, order: nat, m: Memory, minus: bool)
    requires Shows(b, delay, order, m) && |d| == |b|
    requires forall i :: 0 <= i < order ==> d[i] == Summed(minus, b[i], b[delay - 2 * order + i])
    requires forall i :: order <= i < |b| ==> d[i] == b[i]
    ensures |m.adaption| >= order == |m.coeffs|
    ensures var w := Last(m.adaption, order);
            Shows(d, delay, order, m.(coeffs := if minus then SubVector(m.coeffs, w) else AddVector(m.coeffs, w)))
  {
    hide AddVector, SubVector, Summed;
    VectorIs(b, d, order, delay - 2 * order, minus);
    assert d[delay - order..delay] == b[delay - order..delay];
    assert d[delay - 2 * order..delay - order] == b[delay - 2 * order..delay - order];
  }

  lemma ShowsSound(b: seq<int16>, delay: nat, order: nat, m: Memory)
    requires Shows(b, delay, order, m)
    ensures 16 <= order == |m.coeffs| && order <= |m.adaption| && 3 * order <= delay <= |b|
  {
  }

  /** Fading in the array is fading in the history. */
  lemma HalveLast(s: seq<int16>, k: nat, order: nat)
    requires 1 <= k <= order <= |s|
    ensures Last(HalveAt(s, k), order) == HalveAt(Last(s, order), k)
  {
  }

  lemma ZerosShow(b: seq<int16>, order: nat, m: Memory)
    requires order >= 16 && |m.coeffs| == |m.outputs| == |m.adaption| == order && 3 * order <= |b|
    requires forall i :: 0 <= i < |b| ==> b[i] == 0
    requires forall i :: 0 <= i < order ==> m.coeffs[i] == m.outputs[i] == m.adaption[i] == 0
    ensures Shows(b, 3 * order, order, m)
  {
  }

  class SlidingFilter {
    const order: nat
    const fracBits: nat
    const buf: array<int16>
    var delay: nat
    var adaptcoeffs: nat
    var avg: int32
    ghost var memory: Memory

    ghost predicate Valid()
      reads this, buf
    {
      && ValidOrder(order) && buf.Length == 3 * order + HISTORY_SIZE && delay < buf.Length
      && adaptcoeffs == delay - order && avg == memory.avg
      && Shows(buf[..], delay, order, memory)
    }

    /** `do_init_filter`. */
    constructor (order: nat, fracBits: nat)
      requires ValidOrder(order)
      ensures Valid() && fresh(buf) && this.order == order && this.fracBits == fracBits
      ensures var zeros := seq(order, i => 0); memory == Memory(zeros, zeros, zeros, 0)
    {
      hide Shows;
      this.order, this.fracBits := order, fracBits;
      buf := new int16[3 * order + HISTORY_SIZE](i => 0);
      adaptcoeffs, delay, avg := 2 * order, 3 * order, 0;
      memory := Memory(seq(order, i => 0), seq(order, i => 0), seq(order, i => 0), 0);
      new;
      ZerosShow(buf[..], order, memory);
    }

    /** `do_apply_filter_3980` and `do_apply_filter_3970`. */
    method Apply(late: bool, data: array<int32>, count: nat)
      requires Valid() && count <= data.Length
      modifies this`delay, this`adaptcoeffs, this`avg, this`memory, buf, data
      ensures Valid()
      ensures (memory, data[..count]) == Filter(old(memory), order, fracBits, late, old(data[..count]))
      ensures data[count..] == old(data[count..])
    {
      hide Filter, Sound, Step;
      ghost var was := data[..];
      var i := 0;
      assert was[..0] == [] && data[..0] == [];
      FilterNone(memory, order, fracBits, late);
      while i < count
        invariant 0 <= i <= count && Valid()
        invariant (memory, data[..i]) == Filter(old(memory), order, fracBits, late, was[..i])
        invariant data[i..] == was[i..]
      {
        assert data[i] == data[i..][0] == was[i];
        FilterOne(old(memory), order, fracBits, late, was[..i + 1]);
        assert was[..i + 1][..i] == was[..i];
        var res := Turn(late, data[i]);
        ghost var before := data[..i];
        data[i] := res;
        assert data[..i + 1] == before + [res];
        i := i + 1;
      }
    }

    /** One turn of their loops. */
    method Turn(late: bool, data: int32) returns (res: int32)
      requires Valid()
      modifies this`delay, this`adaptcoeffs, this`avg, this`memory, buf
      ensures Valid() && (memory, res) == Step(old(memory), order, fracBits, late, data)
    {
      hide Sound, Fade, Value, Average, Saturate, Dot, Wrap32, FpToInt, Shows, AddVector, SubVector;
      var product := ScalarProduct();
      res := FpToInt(product, fracBits);
      if data != 0 {
        VectorAccumulate(data > 0);
      }
      res := Wrap32(Plus(res, data));
      Remember(late, res);
      if delay == buf.Length {
        MoveBack();
      }
    }

    /** How many unrolled blocks the vector functions run through, and how long they are. */
    function Blocks(): nat {
      if order > 32 then order / 32 else 1
    }

    function BlockLength(): nat {
      if order > 16 then 32 else 16
    }

    /** `scalarproduct (f->coeffs, f->delay - ORDER)`. */
    method ScalarProduct() returns (res: int32)
      requires Valid()
      ensures res == Wrap32(Dot(memory.coeffs, Last(memory.outputs, order)))
    {
      hide Dot, Wrap32, Times;
      ghost var c, w := memory.coeffs, Last(memory.outputs, order);
      var at, blocks := 0, Blocks();
      res := 0;
      DotNone(c, w);
      while blocks > 0
        invariant at + BlockLength() * blocks == order && res == Wrap32(Dot(c[..at], w[..at]))
      {
        for j := 0 to BlockLength()
          invariant at + BlockLength() * blocks == order + j && res == Wrap32(Dot(c[..at], w[..at]))
        {
          assert buf[..order][at] == c[at] && buf[delay - order..delay][at] == w[at];
          DotStep(c, w, at);
          res := Wrap32(Plus(res, Times(buf[at], buf[delay - order + at])));
          at := at + 1;
        }
        blocks := blocks - 1;
      }
      assert c[..at] == c && w[..at] == w;
    }

    /** `vector_add` and, with `minus`, `vector_sub`, of `f->adaptcoeffs - ORDER` to the coefficients. */
    method VectorAccumulate(minus: bool)
      requires Valid()
      modifies buf, this`memory
      ensures Valid()
      ensures var w := Last(old(memory).adaption, order);
              memory == old(memory).(coeffs := if minus then SubVector(old(memory).coeffs, w) else AddVector(old(memory).coeffs, w))
    {
      hide AddVector, SubVector, Shows;
      ghost var was := buf[..];
      ShowsSound(was, delay, order, memory);
      VectorLoop(minus);
      VectorShows(was, buf[..], delay, order, memory, minus);
      ghost var w := Last(memory.adaption, order);
      memory := memory.(coeffs := if minus then SubVector(memory.coeffs, w) else AddVector(memory.coeffs, w));
    }

    method VectorLoop(minus: bool)
      requires ValidOrder(order) && 2 * order <= adaptcoeffs <= buf.Length
      modifies buf
      ensures forall i :: 0 <= i < order ==> buf[i] == Summed(minus, old(buf[i]), old(buf[adaptcoeffs - order + i]))
      ensures forall i :: order <= i < buf.Length ==> buf[i] == old(buf[i])
    {
      hide Summed;
      ghost var was := buf[..];
      var at, blocks := 0, Blocks();
      while blocks > 0
        invariant at + BlockLength() * blocks == order
        invariant forall i :: 0 <= i < at ==> buf[i] == Summed(minus, was[i], was[adaptcoeffs - order + i])
        invariant forall i :: at <= i < buf.Length ==> buf[i] == was[i]
      {
        for j := 0 to BlockLength()
          invariant at + BlockLength() * blocks == order + j
          invariant forall i :: 0 <= i < at ==> buf[i] == Summed(minus, was[i], was[adaptcoeffs - order + i])
          invariant forall i :: at <= i < buf.Length ==> buf[i] == was[i]
        {
          buf[at] := Summed(minus, buf[at], buf[adaptcoeffs - order + at]);
          at := at + 1;
        }
        blocks := blocks - 1;
      }
    }

    /** The output and the adaption value into their histories. */
    method Remember(late: bool, res: int32)
      requires Valid()
      modifies this`delay, this`adaptcoeffs, this`avg, this`memory, buf
      ensures ValidOrder(order) && delay <= buf.Length == 3 * order + HISTORY_SIZE
      ensures adaptcoeffs == delay - order && avg == memory.avg && Shows(buf[..], delay, order, memory)
      ensures memory == Memory(old(memory).coeffs, old(memory).outputs + [Saturate(res)],
                               Fade(late, old(memory).adaption) + [Value(late, res, old(memory).avg)],
                               Average(late, res, old(memory).avg))
    {
      hide Saturate, Value, Average, Fade, Shows;
      ghost var was, m := buf[..], memory;
      ShowsSound(was, delay, order, m);
      buf[delay] := Saturate(res);
      buf[adaptcoeffs] := Value(late, res, avg);
      avg := Average(late, res, avg);
      FadeInPlace(late);
      Remembered(was, buf[..], delay, order, m, late, Saturate(res), Value(late, res, m.avg), avg);
      memory := Memory(m.coeffs, m.outputs + [Saturate(res)], Fade(late, m.adaption) + [Value(late, res, m.avg)], avg);
      delay := delay + 1;
      adaptcoeffs := adaptcoeffs + 1;
    }

    method FadeInPlace(late: bool)
      requires 16 <= order <= adaptcoeffs - order <= adaptcoeffs < buf.Length
      modifies buf
      ensures buf[adaptcoeffs - order..adaptcoeffs] == Fade(late, old(buf[adaptcoeffs - order..adaptcoeffs]))
      ensures forall i :: 0 <= i < buf.Length && !(adaptcoeffs - order <= i < adaptcoeffs) ==> buf[i] == old(buf[i])
    {
      hide HalveAt;
      if late {
        HalveInPlace(1);
        HalveInPlace(2);
        HalveInPlace(8);
      } else {
        HalveInPlace(4);
        HalveInPlace(8);
      }
    }

    /** `f->adaptcoeffs[-k] >>= 1`. */
    method HalveInPlace(k: nat)
      requires 1 <= k <= order <= adaptcoeffs - order <= adaptcoeffs < buf.Length
      modifies buf
      ensures buf[adaptcoeffs - order..adaptcoeffs] == HalveAt(old(buf[adaptcoeffs - order..adaptcoeffs]), k)
      ensures forall i :: 0 <= i < buf.Length && !(adaptcoeffs - order <= i < adaptcoeffs) ==> buf[i] == old(buf[i])
    {
      buf[adaptcoeffs - k] := buf[adaptcoeffs - k] / 2;
    }

    /** The histories back to the start of the array, where they may overlap with where they come from. */
    method MoveBack()
      requires ValidOrder(order) && delay == buf.Length == 3 * order + HISTORY_SIZE
      requires avg == memory.avg && Shows(buf[..], delay, order, memory)
      modifies this`delay, this`adaptcoeffs, buf
      ensures Valid()
    {
      hide ValidOrder, Shows;
      ghost var was := buf[..];
      ShowsSound(was, delay, order, memory);
      forall i | order <= i < 3 * order {
        buf[i] := buf[delay - 3 * order + i];
      }
      assert buf[order..3 * order] == was[delay - 2 * order..delay];
      MovedBack(was, buf[..], order, memory);
      adaptcoeffs := 2 * order;
      delay := 3 * order;
    }
  }

  lemma MovedBack(b: seq<int16>, d: seq<int16>, order: nat, m: Memory)
    requires Shows(b, |b|, order, m) && |d| == |b|
    requires forall i :: 0 <= i < order ==> d[i] == b[i]
    requires |b| >= 3 * order && d[order..3 * order] == b[|b| - 2 * order..]
    ensures Shows(d, 3 * order, order, m)
  {
    hide Sound;
    var moved := d[order..3 * order];
    assert d[..order] == b[..order];
    assert d[order..2 * order] == moved[..order] == b[|b| - 2 * order..|b| - order];
    assert d[2 * order..3 * order] == moved[order..] == b[|b| - order..];
  }

  function Summed(minus: bool, x: int, y: int): int16 {
    if minus then Wrap16(Minus(x, y)) else Wrap16(Plus(x, y))
  }

  lemma AccumulateWraps(a: int, b: int)
    ensures Wrap32(Plus(Wrap32(a), b)) == Wrap32(a + b)
  {
    hide Wrap32;
    WrapOnTheWay(a, b);
  }

  lemma VectorIs(was: seq<int16>, now: seq<int16>, order: nat, from: nat, minus: bool)
    requires order <= from <= from + order <= |was| == |now|
    requires forall i :: 0 <= i < order ==> now[i] == Summed(minus, was[i], was[from + i])
    ensures var w := was[from..from + order];
            now[..order] == if minus then SubVector(was[..order], w) else AddVector(was[..order], w)
  {
    hide Wrap16;
    var w := was[from..from + order];
    var r := if minus then SubVector(was[..order], w) else AddVector(was[..order], w);
    forall i | 0 <= i < order
      ensures now[i] == r[i]
    {
      assert w[i] == was[from + i];
    }
  }

  lemma DotNone(a: seq<int16>, b: seq<int16>)
    ensures Dot(a[..0], b[..0]) == 0
  {
  }

  lemma DotStep(a: seq<int16>, b: seq<int16>, n: nat)
    requires n < |a| == |b|
    ensures Wrap32(Plus(Wrap32(Dot(a[..n], b[..n])), Times(a[n], b[n]))) == Wrap32(Dot(a[..n + 1], b[..n + 1]))
  {
    hide Wrap32, Times;
    assert a[..n + 1][..n] == a[..n] && b[..n + 1][..n] == b[..n];
    AccumulateWraps(Dot(a[..n], b[..n]), Times(a[n], b[n]));
  }

  lemma FadeLast(late: bool, s: seq<int16>, order: nat)
    requires 8 <= order <= |s|
    ensures Last(Fade(late, s), order) == Fade(late, Last(s, order))
  {
    hide HalveAt;
    if late {
      HalveLast(s, 1, order);
      HalveLast(HalveAt(s, 1), 2, order);
      HalveLast(HalveAt(HalveAt(s, 1), 2), 8, order);
    } else {
      HalveLast(s, 4, order);
      HalveLast(HalveAt(s, 4), 8, order);
    }
  }

  lemma FilterNone(m: Memory, order: nat, fracBits: nat, late: bool)
    requires Sound(m, order)
    ensures Filter(m, order, fracBits, late, []) == (m, [])
  {
  }

  lemma FilterOne(m: Memory, order: nat, fracBits: nat, late: bool, data: seq<int32>)
    requires Sound(m, order) && data != []
    ensures var (m1, before) := Filter(m, order, fracBits, late, data[..|data| - 1]);
            var (m2, res) := Step(m1, order, fracBits, late, data[|data| - 1]);
            Filter(m, order, fracBits, late, data) == (m2, before + [res])
  {
    hide Sound, Step;
  }
}
