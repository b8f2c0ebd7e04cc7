/** The C integer types the codecs rely on, with their wrap-around written out.
    Signed overflow is taken as two's-complement wrap; `>>` on a signed value is a floor division,
    which is what Dafny's Euclidean `/` by a positive number computes. */
module Machine {
  import Arithmetic

  const TWO15 := 0x8000
  const TWO16 := 0x1_0000
  const TWO31 := 0x8000_0000
  const TWO32 := 0x1_0000_0000

  type byte = x: int | 0 <= x < 256
  type u32 = x: int | 0 <= x < TWO32
  type int32 = x: int | -TWO31 <= x < TWO31
  type int16 = x: int | -TWO15 <= x < TWO15

  /** Conversion to uint32_t. */
  function U32(x: int): u32 {
    x % TWO32
  }

  /** Conversion to int32_t. */
  function Wrap32(x: int): (r: int32)
    ensures -TWO31 <= x < TWO31 ==> r == x
    ensures U32(r) == U32(x)
  {
    var u := x % TWO32;
    if u < TWO31 then u else u - TWO32
  }

  /** Conversion to short. */
  function Wrap16(x: int): (r: int16)
    ensures -TWO15 <= x < TWO15 ==> r == x
  {
    var u := x % TWO16;
    if u < TWO15 then u else u - TWO16
  }

  function Abs(x: int): nat {
    if x < 0 then -x else x
  }

  /** Addition and subtraction of int32_t. */
  function WrapAdd(x: int, y: int): int32 {
    Wrap32(x + y)
  }

  function WrapSub(x: int, y: int): int32 {
    Wrap32(x - y)
  }

  /** int32_t addition undoes int32_t subtraction, overflow or not. */
  lemma WrapAddUndoesSub(x: int32, p: int)
    ensures Wrap32(p + Wrap32(x - p)) == x
  {
  }

  lemma WrapSubUndoesAdd(x: int32, p: int)
    ensures Wrap32(Wrap32(x + p) - p) == x
  {
  }

  /** Wrapping on the way does not matter. */
  lemma WrapOnTheWay(x: int, y: int)
    ensures Wrap32(Wrap32(x) + y) == Wrap32(x + y)
  {
    var k := (x - Wrap32(x)) / TWO32;
    assert x == Wrap32(x) + k * TWO32;
    WholeTurns(Wrap32(x) + y, k);
  }

  lemma WholeTurns(x: int, k: int)
    ensures Wrap32(x + k * TWO32) == Wrap32(x)
  {
    assert (x + k * TWO32) % TWO32 == x % TWO32;
  }

  /** A number is its wrapped value and whole turns. */
  lemma Turns(x: int) returns (r: int, k: int)
    ensures r == Wrap32(x) && x == r + TWO32 * k
  {
    r, k := Wrap32(x), (x - Wrap32(x)) / TWO32;
  }

  /** Shifting to the right stays within int32_t. */
  lemma QuotientFits(x: int, d: int)
    requires d > 0 && -TWO31 <= x < TWO31
    ensures -TWO31 <= x / d < TWO31
  {
    var q := x / d;
    assert x == q * d + x % d;
    if q >= TWO31 {
      Arithmetic.MulUp(TWO31, q, d);
      assert false;
    }
    if q < -TWO31 {
      Arithmetic.MulUp(q + 1, -TWO31, d);
      Arithmetic.MulNext(q, d);
      assert false;
    }
  }
}
