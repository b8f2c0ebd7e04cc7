/** FLAC's fixed predictors (jni/flac/flac_decoder.c lines 181-225): running sums of differences, in place, against the
    differences themselves (section 9.2.5 of RFC 9639). */
module FlacFixed {
  import opened Machine

  /** The k-th difference of x at i. */
  function Difference(x: seq<int32>, k: nat, i: nat): int
    requires k <= i < |x|
    decreases k
  {
    if k == 0 then x[i] else Difference(x, k - 1, i) - Difference(x, k - 1, i - 1)
  }

  /** What a subframe of order k holds for the samples x: the first k as they are, then k-th differences. */
  function Residuals(x: seq<int32>, k: nat): (r: seq<int32>)
    ensures |r| == |x|
  {
    seq(|x|, i requires 0 <= i < |x| => if i < k then x[i] else Wrap32(Difference(x, k, i)))
  }

  /** The k-th difference looks at the last k + 1 values only. */
  lemma {:induction false} DifferenceLocal(x: seq<int32>, y: seq<int32>, k: nat, i: nat)
    requires k <= i < |x| && i < |y| && forall j :: i - k <= j <= i ==> x[j] == y[j]
    ensures Difference(x, k, i) == Difference(y, k, i)
    decreases k
  {
    if k == 0 {
    } else {
      DifferenceLocal(x, y, k - 1, i);
      DifferenceLocal(x, y, k - 1, i - 1);
    }
  }

  /** The value at i counts with its full weight. */
  lemma {:induction false} DifferenceShifts(x: seq<int32>, y: seq<int32>, k: nat, i: nat)
    requires k <= i < |x| && i < |y| && forall j :: i - k <= j < i ==> x[j] == y[j]
    ensures Difference(x, k, i) - x[i] == Difference(y, k, i) - y[i]
    decreases k
  {
    if k == 0 {
    } else {
      DifferenceShifts(x, y, k - 1, i);
      DifferenceLocal(x, y, k - 1, i - 1);
    }
  }

  /** Samples are told by their residuals, whatever wraps. */
  lemma {:induction false} ResidualsTell(x: seq<int32>, y: seq<int32>, k: nat, n: nat)
    requires n <= |x| == |y| && Residuals(x, k) == Residuals(y, k)
    ensures x[..n] == y[..n]
    decreases n
  {
    hide Wrap32;
    if n == 0 {
    } else {
      var i := n - 1;
      ResidualsTell(x, y, k, i);
      assert Residuals(x, k)[i] == Residuals(y, k)[i];
      forall j | 0 <= j < i
        ensures x[j] == y[j]
      {
        assert x[..i][j] == y[..i][j];
      }
      if i >= k {
        DifferenceShifts(x, y, k, i);
        WrapTells(Difference(x, k, i), Difference(y, k, i), x[i], y[i]);
      }
      assert x[..n] == x[..i] + [x[i]] && y[..n] == y[..i] + [y[i]];
    }
  }

  lemma WrapTells(a: int, b: int, x: int32, y: int32)
    requires Wrap32(a) == Wrap32(b) && a - x == b - y
    ensures x == y
  {
  }

  /** The samples that given residuals of order k stand for. */
  function Restored(data: seq<int32>, k: nat): (x: seq<int32>)
    ensures |x| == |data|
  {
    if data == [] then []
    else
      var i := |data| - 1;
      var before := Restored(data[..i], k);
      before + [if i < k then data[i] else WrapSub(data[i], Difference(before + [0], k, i))]
  }

  lemma {:induction false} RestoredPrefix(data: seq<int32>, k: nat, n: nat)
    requires n <= |data|
    ensures Restored(data[..n], k) == Restored(data, k)[..n]
    decreases |data|
  {
    hide WrapSub, Difference;
    if n < |data| {
      RestoredPrefix(data[..|data| - 1], k, n);
      assert data[..|data| - 1][..n] == data[..n];
    } else {
      assert data[..n] == data && Restored(data, k)[..n] == Restored(data, k);
    }
  }

  /** Restoring is the inverse of taking differences, for all data. */
  lemma ResidualsOfRestored(data: seq<int32>, k: nat)
    ensures Residuals(Restored(data, k), k) == data
  {
    hide Restored, Difference, Wrap32;
    var x := Restored(data, k);
    forall i | 0 <= i < |data|
      ensures Residuals(x, k)[i] == data[i]
    {
      RestoredAt(data, k, i);
    }
  }

  lemma RestoredAt(data: seq<int32>, k: nat, i: nat)
    requires i < |data|
    ensures var x := Restored(data, k);
            if i < k then x[i] == data[i] else Wrap32(Difference(x, k, i)) == data[i]
  {
    hide Difference;
    var x := Restored(data, k);
    RestoredPrefix(data, k, i + 1);
    RestoredPrefix(data, k, i);
    assert data[..i + 1][..i] == data[..i] && data[..i + 1][i] == data[i];
    if i >= k {
      var y := x[..i] + [0];
      assert x[i] == x[..i + 1][i] == WrapSub(data[i], Difference(y, k, i));
      forall j | i - k <= j < i
        ensures x[j] == y[j]
      {
        assert x[..i][j] == y[j];
      }
      DifferenceShifts(x, y, k, i);
      WrapAddUndoesSub(data[i], Difference(y, k, i));
    }
  }

  lemma RestoredOfResiduals(x: seq<int32>, k: nat)
    ensures Restored(Residuals(x, k), k) == x
  {
    hide Restored, Residuals;
    var y := Restored(Residuals(x, k), k);
    ResidualsOfRestored(Residuals(x, k), k);
    ResidualsTell(x, y, k, |x|);
    assert x[..|x|] == x && y[..|x|] == y;
  }

  // ---------------------------------------------------------------- the running sums

  lemma AddSums(before: int, step: int)
    ensures WrapAdd(Wrap32(before), Wrap32(step)) == Wrap32(before + step)
  {
    hide Wrap32;
    GoOn(before, Wrap32(step));
    GoOn(step, before);
    assert WrapAdd(Wrap32(before), Wrap32(step)) == Wrap32(before + Wrap32(step));
    assert WrapAdd(Wrap32(step), before) == Wrap32(step + before);
  }

  /** The accumulators: the last sample and its first k - 1 differences. */
  predicate Accumulators(x: seq<int32>, k: nat, i: nat, a: int32, b: int32, c: int32, d: int32)
    requires 1 <= k <= 4 && k <= i <= |x|
  {
    && a == x[i - 1]
    && (k >= 2 ==> b == Wrap32(Difference(x, 1, i - 1)))
    && (k >= 3 ==> c == Wrap32(Difference(x, 2, i - 1)))
    && (k >= 4 ==> d == Wrap32(Difference(x, 3, i - 1)))
  }

  /** The accumulators before the loop. */
  method Start(decoded: array<int32>, k: nat, ghost x: seq<int32>) returns (a: int32, b: int32, c: int32, d: int32)
    requires 1 <= k <= 4 && k <= decoded.Length == |x| && forall j :: 0 <= j < k ==> decoded[j] == x[j]
    ensures Accumulators(x, k, k, a, b, c, d)
  {
    a, b, c, d := decoded[k - 1], 0, 0, 0;
    if k >= 2 {
      b := WrapSub(a, decoded[k - 2]);
    }
    if k >= 3 {
      c := WrapAdd(WrapSub(b, decoded[k - 2]), decoded[k - 3]);
      SumsOfStart2(decoded[k - 1], decoded[k - 2], decoded[k - 3]);
    }
    if k >= 4 {
      d := WrapSub(WrapAdd(WrapSub(c, decoded[k - 2]), Twice(decoded[k - 3])), decoded[k - 4]);
      SumsOfStart3(decoded[k - 1], decoded[k - 2], decoded[k - 3], decoded[k - 4]);
    }
    StartDifferences(x, k);
  }

  function First(p: int, q: int): int {
    p - q
  }

  function Second(p: int, q: int, r: int): int {
    p - 2 * q + r
  }

  function Third(p: int, q: int, r: int, s: int): int {
    p - 3 * q + 3 * r - s
  }

  function Twice(x: int): int {
    2 * x
  }

  lemma SumsOfStart2(p: int, q: int, r: int)
    ensures WrapAdd(WrapSub(WrapSub(p, q), q), r) == Wrap32(Second(p, q, r))
  {
    hide Wrap32;
    GoOn(p - q, q);
    GoOn(p - q - q, r);
  }

  lemma SumsOfStart3(p: int, q: int, r: int, s: int)
    ensures WrapSub(WrapAdd(WrapSub(Wrap32(Second(p, q, r)), q), Twice(r)), s) == Wrap32(Third(p, q, r, s))
  {
    hide Wrap32;
    var e := Second(p, q, r);
    GoOn(e, q);
    GoOn(e - q, Twice(r));
    GoOn(e - q + Twice(r), s);
  }

  lemma GoOn(x: int, y: int)
    ensures WrapSub(Wrap32(x), y) == Wrap32(x - y) && WrapAdd(Wrap32(x), y) == Wrap32(x + y)
  {
    hide Wrap32;
    WrapOnTheWay(x, -y);
    WrapOnTheWay(x, y);
  }

  lemma StartDifferences(x: seq<int32>, k: nat)
    requires 1 <= k <= 4 && k <= |x|
    ensures k >= 2 ==> Difference(x, 1, k - 1) == First(x[k - 1], x[k - 2])
    ensures k >= 3 ==> Difference(x, 2, k - 1) == Second(x[k - 1], x[k - 2], x[k - 3])
    ensures k >= 4 ==> Difference(x, 3, k - 1) == Third(x[k - 1], x[k - 2], x[k - 3], x[k - 4])
  {
    if k >= 3 {
      assert Difference(x, 1, k - 2) == First(x[k - 2], x[k - 3]);
    }
    if k >= 4 {
      assert Difference(x, 1, k - 3) == First(x[k - 3], x[k - 4]);
      assert Difference(x, 2, k - 2) == Second(x[k - 2], x[k - 3], x[k - 4]);
    }
  }

  /** One turn of the loop of order k: the sums pass the residual on. */
  method Turn(k: nat, r: int32, a: int32, b: int32, c: int32, d: int32, ghost x: seq<int32>, ghost i: nat)
    returns (a1: int32, b1: int32, c1: int32, d1: int32)
    requires 1 <= k <= 4 && k <= i < |x| && Accumulators(x, k, i, a, b, c, d) && r == Wrap32(Difference(x, k, i))
    ensures Accumulators(x, k, i + 1, a1, b1, c1, d1)
  {
    hide Wrap32, WrapAdd;
    a1, b1, c1, d1 := a, b, c, d;
    PassOn(x, k, i);
    var step := r;
    if k == 4 {
      d1 := WrapAdd(d, step);
      step := d1;
    }
    if k >= 3 {
      c1 := WrapAdd(c, step);
      step := c1;
    }
    if k >= 2 {
      b1 := WrapAdd(b, step);
      step := b1;
    }
    a1 := WrapAdd(a, step);
  }

  lemma PassOn(x: seq<int32>, k: nat, i: nat)
    requires 1 <= k <= 4 && k <= i < |x|
    ensures forall j :: 0 <= j < k ==> WrapAdd(Wrap32(Difference(x, j, i - 1)), Wrap32(Difference(x, j + 1, i)))
                                       == Wrap32(Difference(x, j, i))
    ensures Wrap32(x[i - 1]) == x[i - 1] && Wrap32(x[i]) == x[i]
    ensures Difference(x, 0, i - 1) == x[i - 1] && Difference(x, 0, i) == x[i]
  {
    forall j | 0 <= j < k
      ensures WrapAdd(Wrap32(Difference(x, j, i - 1)), Wrap32(Difference(x, j + 1, i))) == Wrap32(Difference(x, j, i))
    {
      AddSums(Difference(x, j, i - 1), Difference(x, j + 1, i));
    }
  }

  /** The loops of decode_subframe_fixed, in place on the residuals. */
  method RestoreFixed(decoded: array<int32>, blocksize: nat, k: nat) returns (code: int)
    requires k <= blocksize == decoded.Length
    modifies decoded
    ensures code == if k <= 4 then 0 else -5
    ensures k <= 4 ==> decoded[..] == Restored(old(decoded[..]), k)
    ensures k > 4 ==> decoded[..] == old(decoded[..])
  {
    hide Restored, Difference, Accumulators, Wrap32;
    ghost var data := decoded[..];
    ghost var x := Restored(data, k);
    ResidualsOfRestored(data, k);
    if k > 4 {
      return -5;
    }
    if k > 0 {
      WarmUp(x, data, k);
      var a, b, c, d := Start(decoded, k, x);
      var i := k;
      while i < blocksize
        invariant k <= i <= blocksize && Accumulators(x, k, i, a, b, c, d)
        invariant forall j :: 0 <= j < i ==> decoded[j] == x[j]
        invariant forall j :: i <= j < blocksize ==> decoded[j] == data[j]
      {
        assert Residuals(x, k)[i] == data[i];
        a, b, c, d := Turn(k, decoded[i], a, b, c, d, x, i);
        LastIs(x, k, i + 1, a, b, c, d);
        decoded[i] := a;
        i := i + 1;
      }
      assert decoded[..] == x;
    } else {
      NoDifferences(x);
    }
    return 0;
  }

  lemma WarmUp(x: seq<int32>, data: seq<int32>, k: nat)
    requires Residuals(x, k) == data && k <= |x|
    ensures forall j :: 0 <= j < k ==> data[j] == x[j]
  {
    hide Difference;
    forall j | 0 <= j < k
      ensures data[j] == x[j]
    {
      assert Residuals(x, k)[j] == x[j];
    }
  }

  lemma LastIs(x: seq<int32>, k: nat, i: nat, a: int32, b: int32, c: int32, d: int32)
    requires 1 <= k <= 4 && k <= i <= |x| && Accumulators(x, k, i, a, b, c, d)
    ensures a == x[i - 1]
  {
  }

  lemma NoDifferences(x: seq<int32>)
    ensures Residuals(x, 0) == x
  {
  }
}
