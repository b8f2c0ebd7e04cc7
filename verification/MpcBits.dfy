/** Musepack's bit reader (jni/mpc/mpc_decoder.c lines 106-203): words from a ring buffer, most significant bit first,
    and Huffman codes looked up by comparing a 32-bit preview with a table of interval bounds. */
module MpcBits {
  import opened Machine
  import opened Arithmetic
  import opened Bits

  /** `MEMSIZE` and `MEMSIZE2`. */
  const MEMSIZE := 16384
  const HALF := 8192

  // ---------------------------------------------------------------- numbers in a sequence of words

  /** `x >> n`. */
  function Drop(x: nat, n: nat): (r: nat)
    ensures r <= x
  {
    hide Pow2;
    x / Pow2(n)
  }

  /** `x & ((1 << n) - 1)`. */
  function Keep(x: nat, n: nat): (r: nat)
    ensures r < Pow2(n) && r <= x
  {
    hide Pow2;
    ModBound(x, Pow2(n));
    x % Pow2(n)
  }

  lemma ModBound(x: nat, d: nat)
    requires d > 0
    ensures x % d <= x && (x < d ==> x % d == x)
  {
  }

  function BitAt(words: seq<u32>, p: nat): (b: nat)
    requires p < 32 * |words|
    ensures b <= 1
  {
    Drop(words[p / 32], 31 - p % 32) % 2
  }

  /** The number that the n bits from bit p on spell. */
  function Field(words: seq<u32>, p: nat, n: nat): (v: nat)
    requires p + n <= 32 * |words|
    ensures v < Pow2(n)
  {
    if n == 0 then 0 else 2 * Field(words, p, n - 1) + BitAt(words, p + n - 1)
  }

  lemma {:induction false} FieldConcat(words: seq<u32>, p: nat, n: nat, m: nat)
    requires p + n + m <= 32 * |words|
    ensures Field(words, p, n + m) == Field(words, p, n) * Pow2(m) + Field(words, p + n, m)
    decreases m
  {
    hide BitAt;
    if m == 0 {
    } else {
      FieldConcat(words, p, n, m - 1);
      Twice(Field(words, p, n), Pow2(m - 1));
    }
  }

  /** The first m of n bits. */
  lemma FieldTop(words: seq<u32>, p: nat, n: nat, m: nat)
    requires p + n <= 32 * |words| && m <= n
    ensures Drop(Field(words, p, n), n - m) == Field(words, p, m)
  {
    hide Field, Pow2;
    FieldConcat(words, p, m, n - m);
    DivSum(Field(words, p, m), Pow2(n - m), Field(words, p + m, n - m));
  }

  /** The same words give the same numbers. */
  lemma {:induction false} FieldAgrees(a: seq<u32>, b: seq<u32>, skip: nat, p: nat, n: nat, count: nat)
    requires count <= |a| && skip + count <= |b| && a[..count] == b[skip..skip + count]
    requires p + n <= 32 * count
    ensures Field(a, p, n) == Field(b, 32 * skip + p, n)
    decreases n
  {
    hide Pow2, Drop;
    if n == 0 {
    } else {
      FieldAgrees(a, b, skip, p, n - 1, count);
      var q := p + n - 1;
      assert (32 * skip + q) / 32 == skip + q / 32 && (32 * skip + q) % 32 == q % 32;
      assert a[q / 32] == a[..count][q / 32] == b[skip + q / 32];
    }
  }

  /** Bits inside one word. */
  lemma {:induction false} FieldInWord(words: seq<u32>, k: nat, at: nat, n: nat)
    requires k < |words| && at + n <= 32
    ensures Field(words, 32 * k + at, n) == Keep(Drop(words[k], 32 - at - n), n)
    decreases n
  {
    hide Pow2, Drop, Keep;
    if n == 0 {
      assert Keep(Drop(words[k], 32 - at), 0) == 0 by { PowStep(0); }
    } else {
      FieldInWord(words, k, at, n - 1);
      var p := 32 * k + at + n - 1;
      assert p / 32 == k && p % 32 == at + n - 1;
      DropOne(words[k], 32 - at - n);
      KeepOne(Drop(words[k], 32 - at - n), n - 1);
    }
  }

  lemma DropOne(x: nat, n: nat)
    ensures Drop(x, n + 1) == Drop(x, n) / 2
  {
    PowStep(n);
    DivDiv(x, Pow2(n));
  }

  lemma KeepOne(x: nat, n: nat)
    ensures Keep(x, n + 1) == 2 * Keep(x / 2, n) + x % 2
  {
    PowStep(n);
    LowBitSplit(x, Pow2(n));
  }

  lemma PowStep(n: nat)
    ensures Pow2(0) == 1 && Pow2(n + 1) == 2 * Pow2(n)
  {
  }

  lemma LowBitSplit(x: nat, d: nat)
    requires d > 0
    ensures x % (2 * d) == 2 * (x / 2 % d) + x % 2
  {
    var y := x / 2;
    var q := y / d;
    assert y == q * d + y % d;
    Twice(q, d);
    assert x == q * (2 * d) + (2 * (y % d) + x % 2);
    DivSum(q, 2 * d, 2 * (y % d) + x % 2);
  }

  /** Bits across the boundary of two words. */
  lemma FieldAcross(words: seq<u32>, at: nat, n: nat)
    requires |words| >= 2 && at < 32 && 32 <= at + n <= 64
    ensures Field(words, at, n)
            == Keep(words[0], 32 - at) * Pow2(at + n - 32) + Drop(words[1], 64 - at - n)
  {
    hide Field, Pow2, Drop, Keep;
    var m := at + n - 32;
    FieldConcat(words, at, 32 - at, m);
    FieldInWord(words, 0, at, 32 - at);
    FieldInWord(words, 1, 0, m);
    DropNone(words[0]);
    DropBelow(words[1], 32 - m, m);
    KeepAll(Drop(words[1], 32 - m), m);
  }

  lemma DropNone(x: nat)
    ensures Drop(x, 0) == x
  {
  }

  lemma KeepAll(x: nat, n: nat)
    requires x < Pow2(n)
    ensures Keep(x, n) == x
  {
    hide Pow2;
    ModBound(x, Pow2(n));
  }

  lemma DropBelow(x: u32, a: nat, b: nat)
    requires a + b == 32
    ensures Drop(x, a) < Pow2(b)
  {
    hide Pow2;
    Pow32();
    PowSum(a, b, 32);
    var q := x / Pow2(a);
    assert x == q * Pow2(a) + x % Pow2(a);
    if q >= Pow2(b) {
      MulUp(Pow2(b), q, Pow2(a));
      Commute(Pow2(b), Pow2(a));
      assert false;
    }
  }

  // ---------------------------------------------------------------- Huffman tables

  /** `HuffmanTyp`: a codeword, as the first 32-bit number that starts with it, its length and what it stands for. */
  datatype Entry = Entry(code: u32, length: nat, value: int)

  /** The codewords cover all 32-bit numbers from the top down, each its own aligned interval. */
  predicate Tiles(table: seq<Entry>, maxLength: nat) {
    && maxLength <= 32 && table != [] && table[|table| - 1].code == 0
    && forall i :: 0 <= i < |table| ==> EntryFits(table, i, maxLength)
  }

  predicate EntryFits(table: seq<Entry>, i: nat, maxLength: nat)
    requires i < |table|
  {
    && 1 <= table[i].length <= maxLength <= 32
    && Keep(table[i].code, 32 - table[i].length) == 0
    && table[i].code + Size(table[i]) == if i == 0 then TWO32 else table[i - 1].code
  }

  /** How many 32-bit numbers start with a codeword. */
  function Size(e: Entry): nat
    requires e.length <= 32
  {
    Pow2(32 - e.length)
  }

  /** The bits of a codeword as a number. */
  function Codeword(e: Entry): nat
    requires e.length <= 32
  {
    Drop(e.code, 32 - e.length)
  }

  /** `while (code < Table->Code) Table++`. */
  function Lookup(table: seq<Entry>, code: nat, i: nat): (k: nat)
    requires i < |table| && table[|table| - 1].code == 0
    ensures i <= k < |table|
    decreases |table| - i
  {
    if code < table[i].code then Lookup(table, code, i + 1) else i
  }

  lemma {:induction false} CodesFall(table: seq<Entry>, maxLength: nat, i: nat, j: nat)
    requires Tiles(table, maxLength) && i < j < |table|
    ensures EntryFits(table, j, maxLength) && table[j].code + Size(table[j]) <= table[i].code
    decreases j - i
  {
    hide Size, Keep;
    assert EntryFits(table, j, maxLength);
    if i < j - 1 {
      CodesFall(table, maxLength, i, j - 1);
    }
  }

  /** The search ends at the entry whose interval holds the number, from wherever above it starts. */
  lemma {:induction false} LookupFinds(table: seq<Entry>, maxLength: nat, code: nat, k: nat, i: nat)
    requires Tiles(table, maxLength) && i <= k < |table|
    requires EntryFits(table, k, maxLength) && table[k].code <= code < table[k].code + Size(table[k])
    ensures Lookup(table, code, i) == k
    decreases k - i
  {
    hide Size, Keep;
    if i < k {
      CodesFall(table, maxLength, i, k);
      LookupFinds(table, maxLength, code, k, i + 1);
    }
  }

  /** A preview that starts with a codeword, whatever is behind, finds its entry. */
  lemma PreviewFinds(table: seq<Entry>, maxLength: nat, k: nat, preview: u32)
    requires Tiles(table, maxLength) && k < |table|
    requires EntryFits(table, k, maxLength) && Drop(preview, 32 - table[k].length) == Codeword(table[k])
    ensures Lookup(table, preview, 0) == k
  {
    hide Pow2, Drop, Keep, Lookup, Tiles;
    var n := 32 - table[k].length;
    Whole(preview, n);
    Whole(table[k].code, n);
    LookupFinds(table, maxLength, preview, k, 0);
  }

  lemma Whole(x: nat, n: nat)
    ensures x == Drop(x, n) * Pow2(n) + Keep(x, n)
  {
  }

  /** Whatever the search finds, the preview starts with its codeword. */
  lemma {:induction false} LookupIsCodeword(table: seq<Entry>, maxLength: nat, preview: u32, i: nat)
    requires Tiles(table, maxLength) && i < |table| && (i == 0 || preview < table[i - 1].code)
    ensures var e := table[Lookup(table, preview, i)];
            1 <= e.length <= maxLength <= 32 && Drop(preview, 32 - e.length) == Codeword(e)
    decreases |table| - i
  {
    hide Pow2, Drop, Keep;
    assert EntryFits(table, i, maxLength);
    if preview < table[i].code {
      LookupIsCodeword(table, maxLength, preview, i + 1);
    } else {
      var n := 32 - table[i].length;
      Whole(table[i].code, n);
      SameTop(Codeword(table[i]), preview - table[i].code, n);
    }
  }

  lemma SameTop(a: nat, r: nat, n: nat)
    requires r < Pow2(n)
    ensures Drop(a * Pow2(n) + r, n) == a
  {
    DivSum(a, Pow2(n), r);
  }

  /** The preview mpc_decoder_huffman_decode builds of the two words at the reading position. */
  function Preview(words: seq<u32>, pos: nat, maxLength: nat): u32
    requires |words| >= 2 && pos < 32
  {
    var code := U32(words[0] * Pow2(pos));
    if 32 - pos < maxLength then U32(code + Drop(words[1], 32 - pos)) else code
  }

  lemma PowSum(a: nat, b: nat, c: nat)
    requires a + b == c
    ensures Pow2(a) * Pow2(b) == Pow2(c)
  {
    Pow2Add(a, b);
  }

  /** `x << k` in 32 bits keeps the low 32 - k bits. */
  lemma ShiftKeepsLow(x: nat, k: nat)
    requires k <= 32
    ensures U32(x * Pow2(k)) == Keep(x, 32 - k) * Pow2(k)
    ensures Keep(x, 32 - k) * Pow2(k) + Pow2(k) <= TWO32
  {
    hide Pow2;
    PowSum(32 - k, k, 32);
    Pow32();
    ShiftMod(x, Pow2(32 - k), Pow2(k));
  }

  lemma ShiftMod(x: nat, c: nat, p: nat)
    requires c > 0 && p > 0
    ensures c * p > 0 && x * p % (c * p) == x % c * p && x % c * p + p <= c * p
  {
    var q, r := x / c, x % c;
    assert x == q * c + r;
    MulUp(r + 1, c, p);
    MulSplit(r, 1, p);
    ShiftedSum(q, r, c, p);
  }

  lemma ShiftedSum(q: nat, r: nat, c: nat, p: nat)
    requires r * p < c * p
    ensures (q * c + r) * p % (c * p) == r * p
  {
    Regroup(q, c, p, r);
    DivSum(q, c * p, r * p);
  }

  lemma Pow32()
    ensures Pow2(32) == TWO32
  {
    assert Pow2(8) == 256;
    Pow2Add(8, 8);
    Pow2Add(16, 16);
  }

  /** Up to the longest codeword the preview shows the bits to come. */
  lemma PreviewShows(words: seq<u32>, pos: nat, maxLength: nat, m: nat)
    requires |words| >= 2 && pos < 32 && m <= maxLength <= 32
    ensures Drop(Preview(words, pos, maxLength), 32 - m) == Field(words, pos, m)
  {
    hide Field, Pow2, Drop, Keep;
    ShiftKeepsLow(words[0], pos);
    if 32 - pos < maxLength {
      FieldAcross(words, pos, 32);
      DropBelow(words[1], 32 - pos, pos);
      assert Preview(words, pos, maxLength) == Field(words, pos, 32);
      FieldTop(words, pos, 32, m);
    } else {
      FieldInWord(words, 0, pos, 32 - pos);
      DropNone(words[0]);
      FieldTop(words, pos, 32 - pos, m);
      DropScaled(Keep(words[0], 32 - pos), 32 - pos - m, pos);
    }
  }

  lemma DropScaled(x: nat, a: nat, b: nat)
    ensures Drop(x * Pow2(b), a + b) == Drop(x, a)
  {
    hide Pow2;
    PowSum(a, b, a + b);
    DivOut(x, Pow2(a), Pow2(b));
  }

  /** At most one entry of a table fits the bits to come. */
  lemma OnlyOneFits(words: seq<u32>, pos: nat, table: seq<Entry>, maxLength: nat, j: nat, k: nat)
    requires |words| >= 2 && pos < 32 && Tiles(table, maxLength) && j < |table| && k < |table|
    requires EntryFits(table, j, maxLength) && EntryFits(table, k, maxLength)
    requires Field(words, pos, table[j].length) == Codeword(table[j])
    requires Field(words, pos, table[k].length) == Codeword(table[k])
    ensures j == k
  {
    hide Field, Codeword, EntryFits, Preview, Drop, Lookup;
    var preview := Preview(words, pos, maxLength);
    LengthFits(table, j, maxLength);
    LengthFits(table, k, maxLength);
    PreviewShows(words, pos, maxLength, table[j].length);
    PreviewShows(words, pos, maxLength, table[k].length);
    PreviewFinds(table, maxLength, j, preview);
    PreviewFinds(table, maxLength, k, preview);
  }

  lemma LengthFits(table: seq<Entry>, k: nat, maxLength: nat)
    requires k < |table| && EntryFits(table, k, maxLength)
    ensures 1 <= table[k].length <= maxLength <= 32
  {
  }

  // ---------------------------------------------------------------- a stretch of a frame

  /** What an encoder puts into a frame: plain numbers and codewords. */
  datatype Token =
    | Plain(bits: nat, number: nat)
    | Coded(table: seq<Entry>, maxLength: nat, k: nat)
  {
    predicate Proper() {
      match this
      case Plain(bits, _) => 1 <= bits <= 31
      case Coded(table, maxLength, k) =>
        maxLength <= 32 && k < |table| && Tiles(table, maxLength) && EntryFits(table, k, maxLength)
    }

    function Length(): nat
      requires Proper()
    {
      match this
      case Plain(bits, _) => bits
      case Coded(table, _, k) => table[k].length
    }

    function Number(): nat
      requires Proper()
    {
      match this
      case Plain(_, number) => number
      case Coded(table, _, k) => Codeword(table[k])
    }

    function Meaning(): int
      requires Proper()
    {
      match this
      case Plain(_, number) => number
      case Coded(table, _, k) => table[k].value
    }

    function Question(): Ask {
      match this
      case Plain(bits, _) => AskNumber(bits)
      case Coded(table, maxLength, _) => AskCode(table, maxLength)
    }
  }

  /** What the decoder knows beforehand: the width of a number, or the table of a codeword. */
  datatype Ask = AskNumber(bits: nat) | AskCode(table: seq<Entry>, maxLength: nat)

  predicate AllProper(ts: seq<Token>) {
    forall i :: 0 <= i < |ts| ==> ts[i].Proper()
  }

  function Total(ts: seq<Token>): nat
    requires AllProper(ts)
  {
    if ts == [] then 0 else ts[0].Length() + Total(ts[1..])
  }

  /** The words hold these tokens, one behind the other, from bit p on. */
  predicate Spells(words: seq<u32>, p: nat, ts: seq<Token>)
    requires AllProper(ts)
    decreases |ts|
  {
    if ts == [] then true
    else
      && p + ts[0].Length() <= 32 * |words| && Field(words, p, ts[0].Length()) == ts[0].Number()
      && Spells(words, p + ts[0].Length(), ts[1..])
  }
}
