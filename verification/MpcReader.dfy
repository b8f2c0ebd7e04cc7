/** The reader itself: a ring buffer of two halves that is refilled from the file one half at a time
    (jni/mpc/mpc_decoder.c lines 96-203). */
module MpcReader {
  import opened Machine
  import opened Arithmetic
  import opened Bits
  import opened MpcBits

  class Reader {
    /** The words of the file from the header on, as they are after `SWAP`, and where the next `f_read` begins. */
    const file: seq<u32>
    var at: nat

    const speicher: array<u32>
    var dword: u32
    var pos: nat
    var zaehler: nat
    var wordsRead: nat

    /** Word k of the file belongs in slot (k + shift) modulo the ring; those before `loaded` have been asked for. */
    ghost var shift: nat
    ghost var loaded: nat

    ghost predicate Valid()
      reads this, speicher
    {
      && speicher.Length == MEMSIZE && pos < 32 && at <= |file|
      && zaehler == Around(wordsRead + shift) && dword == speicher[zaehler]
    }

    /** The words of the ring from the current one on. */
    ghost function Ahead(): (words: seq<u32>)
      requires Valid()
      reads this, speicher
      ensures |words| == MEMSIZE && words[0] == dword
    {
      speicher[zaehler..] + speicher[..zaehler]
    }

    /** `mpc_decoder_bits_read`, before its wrap-around. */
    function Position(): nat
      reads this
    {
      32 * wordsRead + pos
    }

    /** `mpc_decoder_bits_read`. */
    function BitsRead(): (r: u32)
      reads this
      ensures Position() < TWO32 ==> r == Position()
    {
      U32(32 * wordsRead + pos)
    }

    /** The ring holds the file's words from the current one up to `loaded`, which belongs at the start of a half. */
    ghost predicate Synced()
      reads this`at, this`shift, this`wordsRead, this`loaded, speicher
    {
      at == Min(loaded, |file|) && (loaded + shift) % HALF == 0 && Holds(speicher[..], file, shift, wordsRead, loaded)
    }

    /** As between two frames: a whole half and more ahead. */
    ghost predicate Ready()
      reads this, speicher
    {
      Valid() && Synced() && loaded > wordsRead + HALF
    }

    lemma ReadyParts()
      requires Ready()
      ensures Valid() && Synced() && wordsRead + HALF < loaded <= wordsRead + MEMSIZE
    {
    }

    constructor (file: seq<u32>)
      ensures this.file == file && fresh(speicher) && speicher.Length == MEMSIZE
      ensures pos == 0 && zaehler == 0 && wordsRead == 0 && at == 0
    {
      this.file := file;
      at, loaded, shift := 0, 0, 0;
      speicher := new u32[MEMSIZE];
      dword, pos, zaehler, wordsRead := 0, 0, 0, 0;
    }

    /** `f_read_dword` to the words from `from` on: as many as there are left; the others stay. */
    method ReadDword(from: nat, count: nat)
      requires from + count <= speicher.Length && at <= |file|
      modifies this`at, speicher
      ensures at == Min(old(at) + count, |file|)
      ensures forall i :: from <= i < from + count && old(at) + i - from < |file|
                          ==> speicher[i] == file[old(at) + i - from]
      ensures forall i :: 0 <= i < speicher.Length && !(from <= i < from + count) ==> speicher[i] == old(speicher[i])
    {
      var i := 0;
      while i < count && at < |file|
        invariant 0 <= i <= count && at == old(at) + i <= |file|
        invariant forall j :: from <= j < from + i ==> speicher[j] == file[old(at) + j - from]
        invariant forall j :: 0 <= j < speicher.Length && !(from <= j < from + i) ==> speicher[j] == old(speicher[j])
      {
        speicher[from + i] := file[at];
        i, at := i + 1, at + 1;
      }
    }

    /** What is read from a ring in step with the file is what the file holds there. */
    lemma AheadIsFile(n: nat)
      requires Valid() && Synced() && Position() + n <= 32 * |file| && pos + n <= 32 * (loaded - wordsRead)
      ensures Field(Ahead(), pos, n) == Field(file, Position(), n)
    {
      hide Field;
      var count := Min(loaded, |file|) - wordsRead;
      if count > 0 {
        HoldsAhead(speicher[..], file, shift, wordsRead, loaded, count);
        FieldAgrees(Ahead(), file, wordsRead, pos, n, count);
      } else {
        assert n == 0;
        NoBits(Ahead(), pos);
        NoBits(file, Position());
      }
    }

    /** `mpc_decoder_seek` to a bit of the file. */
    method Seek(bitpos: nat)
      requires speicher.Length == MEMSIZE && bitpos / 32 <= |file|
      modifies this, speicher
      ensures Ready() && Position() == bitpos
    {
      hide Around, ShiftFor, Holds;
      var word := bitpos / 32;
      at := word;
      ReadDword(0, MEMSIZE);
      zaehler, dword := 0, speicher[0];
      wordsRead, pos := word, bitpos % 32;
      loaded, shift := word + MEMSIZE, ShiftFor(word);
      SeekAligns(word);
      SeekHolds(speicher[..], file, word);
    }

    /** `mpc_decoder_bitstream_jump`. */
    method BitstreamJump(bits: nat)
      requires Valid()
      modifies this`dword, this`pos, this`zaehler, this`wordsRead
      ensures Valid() && wordsRead >= old(wordsRead) && Position() == old(Position()) + bits
      ensures old(Synced()) && wordsRead < loaded ==> Synced()
    {
      hide Around;
      pos := pos + bits;
      if pos >= 32 {
        AroundTwice(wordsRead + shift, pos / 32);
        zaehler := Around(zaehler + pos / 32);
        dword := speicher[zaehler];
        wordsRead := wordsRead + pos / 32;
        pos := pos % 32;
      }
    }

    /** `d->dword = SWAP(d->Speicher[d->Zaehler = (d->Zaehler + 1) & MEMMASK]); d->WordsRead++`. */
    method NextWord()
      requires speicher.Length == MEMSIZE && zaehler == Around(wordsRead + shift)
      modifies this`dword, this`zaehler, this`wordsRead
      ensures zaehler == Around(wordsRead + shift) == Around(old(zaehler) + 1) && dword == speicher[zaehler]
      ensures wordsRead == old(wordsRead) + 1
      ensures old(Synced()) && wordsRead < loaded ==> Synced()
    {
      hide Around;
      AroundTwice(wordsRead + shift, 1);
      zaehler := Around(zaehler + 1);
      dword := speicher[zaehler];
      wordsRead := wordsRead + 1;
    }

    /** `mpc_decoder_bitstream_read`. */
    method BitstreamRead(bits: nat) returns (r: nat)
      requires Valid() && 1 <= bits <= 31
      modifies this`dword, this`pos, this`zaehler, this`wordsRead
      ensures Valid() && wordsRead >= old(wordsRead) && Position() == old(Position()) + bits
      ensures old(Synced()) && wordsRead < loaded ==> Synced()
      ensures r == Field(old(Ahead()), old(pos), bits)
    {
      hide Field, Pow2, Drop, Keep, Synced, Around;
      ghost var words, start := Ahead(), pos;
      var out: u32 := dword;
      pos := pos + bits;
      if pos < 32 {
        out := Drop(out, 32 - pos);
        FieldInWord(words, 0, start, bits);
      } else {
        SecondWord(speicher[..], zaehler);
        NextWord();
        pos := pos - 32;
        if pos > 0 {
          out := U32(out * Pow2(pos));
          ReadAcross(words, start, bits);
          out := out + Drop(dword, 32 - pos);
        } else {
          FieldInWord(words, 0, start, bits);
          DropNone(words[0]);
        }
      }
      r := Keep(out, bits);
    }

    /** `mpc_decoder_huffman_decode`: the entry found, and on by its length. */
    method HuffmanDecode(table: seq<Entry>, maxLength: nat) returns (value: int, ghost k: nat)
      requires Valid() && Tiles(table, maxLength)
      modifies this`dword, this`pos, this`zaehler, this`wordsRead
      ensures Valid() && wordsRead >= old(wordsRead) && k < |table| && value == table[k].value
      ensures 1 <= table[k].length <= maxLength <= 32 && Position() == old(Position()) + table[k].length
      ensures old(Synced()) && wordsRead < loaded ==> Synced()
      ensures Field(old(Ahead()), old(pos), table[k].length) == Codeword(table[k])
    {
      hide Field, Pow2, Drop, Keep, Codeword, Lookup, Tiles, Synced;
      ghost var words, start := Ahead(), pos;
      assert table != [] && table[|table| - 1].code == 0 by { TilesEnds(table, maxLength); }
      var code: u32 := U32(dword * Pow2(pos));
      if 32 - pos < maxLength {
        assert speicher[Around(zaehler + 1)] == words[1];
        code := U32(code + Drop(speicher[Around(zaehler + 1)], 32 - pos));
      }
      assert code == Preview(words, start, maxLength);
      var i := 0;
      while code < table[i].code
        invariant 0 <= i < |table| && Lookup(table, code, 0) == Lookup(table, code, i)
        modifies {}
        decreases |table| - i
      {
        LookupStep(table, code, i);
        i := i + 1;
      }
      LookupStep(table, code, i);
      LookupIsCodeword(table, maxLength, code, 0);
      PreviewShows(words, start, maxLength, table[i].length);
      k := i;
      pos := pos + table[i].length;
      if pos >= 32 {
        pos := pos - 32;
        NextWord();
      }
      value := table[i].value;
    }

    /** Any mixture of numbers and codewords comes back, across words and halves of the ring. */
    method ReadTokens(asks: seq<Ask>, ghost ts: seq<Token>) returns (values: seq<int>)
      requires Valid() && Synced() && AllProper(ts) && Spells(file, Position(), ts)
      requires |asks| == |ts| && forall i :: 0 <= i < |ts| ==> asks[i] == ts[i].Question()
      requires Position() + Total(ts) < 32 * loaded
      modifies this`dword, this`pos, this`zaehler, this`wordsRead
      ensures Valid() && Synced() && Position() == old(Position()) + Total(ts)
      ensures |values| == |ts| && forall i :: 0 <= i < |ts| ==> values[i] == ts[i].Meaning()
    {
      hide Synced, Spells, Total;
      values := [];
      var i := 0;
      assert ts[0..] == ts;
      while i < |asks|
        invariant 0 <= i <= |ts| == |asks| && |values| == i
        invariant Valid() && Synced() && Spells(file, Position(), ts[i..])
        invariant Position() + Total(ts[i..]) == old(Position()) + Total(ts)
        invariant forall j :: 0 <= j < i ==> values[j] == ts[j].Meaning()
      {
        SpellsFirst(file, Position(), ts[i..]);
        assert ts[i..][0] == ts[i] && ts[i..][1..] == ts[i + 1..];
        var value := ReadToken(asks[i], ts[i]);
        values := values + [value];
        i := i + 1;
      }
      assert Total(ts[i..]) == 0 by { NoTokens(ts[i..]); }
    }

    method ReadToken(ask: Ask, ghost t: Token) returns (value: int)
      requires Valid() && Synced() && t.Proper() && ask == t.Question()
      requires Position() + t.Length() <= 32 * |file| && Position() + t.Length() < 32 * loaded
      requires Field(file, Position(), t.Length()) == t.Number()
      modifies this`dword, this`pos, this`zaehler, this`wordsRead
      ensures Valid() && Synced() && Position() == old(Position()) + t.Length() && value == t.Meaning()
    {
      hide Synced, Field, Tiles, EntryFits, Codeword;
      AheadIsFile(t.Length());
      match ask {
        case AskNumber(bits) =>
          value := BitstreamRead(bits);
        case AskCode(table, maxLength) =>
          ghost var words, start := Ahead(), pos;
          ghost var k;
          value, k := HuffmanDecode(table, maxLength);
          TilesEntry(table, maxLength, k);
          OnlyOneFits(words, start, table, maxLength, k, t.k);
      }
    }

    /** `mpc_decoder_update_buffer`, at most a half on from word w, when the ring stood at `ring` and was ready. */
    method UpdateBuffer(ring: nat, ghost w: nat)
      requires Valid() && ring < MEMSIZE
      modifies this`at, this`loaded, speicher
      ensures Valid()
      ensures old(Synced()) && ring == Around(w + shift) && w <= wordsRead <= w + HALF < old(loaded) <= w + MEMSIZE
              ==> Ready()
    {
      hide Around, Holds;
      ghost var known := Synced() && ring == Around(w + shift) && w <= wordsRead <= w + HALF < loaded <= w + MEMSIZE;
      if known {
        RefillAt(w + shift, wordsRead + shift, loaded + shift);
      }
      if ring / HALF != zaehler / HALF {
        ghost var before := speicher[..];
        ReadDword(ring / HALF * HALF, HALF);
        if known {
          Refilled(before, speicher[..], file, shift, w, wordsRead, loaded);
        }
        loaded := loaded + HALF;
      }
    }
  }

  predicate Holds(ring: seq<u32>, file: seq<u32>, shift: nat, w: nat, loaded: nat) {
    && |ring| == MEMSIZE && w < loaded <= w + MEMSIZE
    && forall k :: w <= k < loaded && k < |file| ==> ring[Around(k + shift)] == file[k]
  }

  lemma SecondWord(ring: seq<u32>, z: nat)
    requires |ring| == MEMSIZE && z < MEMSIZE
    ensures (ring[z..] + ring[..z])[1] == ring[Around(z + 1)]
  {
  }

  /** `i & MEMMASK`. */
  function Around(i: nat): (r: nat)
    ensures r < MEMSIZE
  {
    i % MEMSIZE
  }

  lemma AroundTwice(a: nat, e: nat)
    ensures Around(Around(a) + e) == Around(a + e)
  {
    var q := a / MEMSIZE;
    assert a == q * MEMSIZE + Around(a);
    assert a + e == q * MEMSIZE + (Around(a) + e);
  }

  /** The shift that puts a word at the start of the ring. */
  function ShiftFor(word: nat): nat {
    MEMSIZE - word % MEMSIZE
  }

  lemma SeekAligns(word: nat)
    ensures Around(word + ShiftFor(word)) == 0 && (word + MEMSIZE + ShiftFor(word)) % HALF == 0
  {
    var q := word / MEMSIZE;
    assert word + (MEMSIZE - word % MEMSIZE) == (q + 1) * MEMSIZE;
    DivSum(q + 1, MEMSIZE, 0);
    DivSum(2 * q + 4, HALF, 0);
  }

  lemma SeekHolds(ring: seq<u32>, file: seq<u32>, word: nat)
    requires |ring| == MEMSIZE && forall i :: 0 <= i < MEMSIZE && word + i < |file| ==> ring[i] == file[word + i]
    ensures Holds(ring, file, ShiftFor(word), word, word + MEMSIZE)
  {
    hide Around, ShiftFor;
    forall k | word <= k < word + MEMSIZE && k < |file|
      ensures ring[Around(k + ShiftFor(word))] == file[k]
    {
      SeekSlot(word, k);
    }
  }

  lemma SeekSlot(word: nat, k: nat)
    requires word <= k < word + MEMSIZE
    ensures Around(k + ShiftFor(word)) == k - word
  {
    var q := word / MEMSIZE;
    assert word + (MEMSIZE - word % MEMSIZE) == (q + 1) * MEMSIZE;
    DivSum(q + 1, MEMSIZE, k - word);
  }

  lemma Refilled(before: seq<u32>, ring: seq<u32>, file: seq<u32>, shift: nat, w: nat, n: nat, loaded: nat)
    requires w <= n <= w + HALF < loaded <= w + MEMSIZE && (loaded + shift) % HALF == 0 && n + HALF >= loaded
    requires Holds(before, file, shift, n, loaded) && |ring| == MEMSIZE
    requires var from := Around(w + shift) / HALF * HALF;
             && (forall i :: from <= i < from + HALF && loaded + i - from < |file| ==> ring[i] == file[loaded + i - from])
             && (forall i :: 0 <= i < MEMSIZE && !(from <= i < from + HALF) ==> ring[i] == before[i])
    ensures Holds(ring, file, shift, n, loaded + HALF)
  {
    hide Around;
    forall k | n <= k < loaded + HALF && k < |file|
      ensures ring[Around(k + shift)] == file[k]
    {
      RefillSlot(w + shift, n + shift, loaded + shift, k + shift);
      if k < loaded {
        assert before[Around(k + shift)] == file[k];
      }
    }
  }

  /** From o to n, at most a half on: the halves differ just when less than a half and one word is left. */
  lemma RefillAt(o: nat, n: nat, end: nat)
    requires o <= n <= o + HALF < end <= o + MEMSIZE && end % HALF == 0
    ensures Around(o) / HALF == Around(n) / HALF ==> end > n + HALF
    ensures Around(o) / HALF != Around(n) / HALF ==> n + HALF >= end > n
    ensures (end + HALF) % HALF == 0
  {
    HalfOf(o);
    HalfOf(n);
    HalvesAhead(o, end);
    DivSum(o / HALF + 3, HALF, 0);
  }

  lemma HalfOf(i: nat)
    ensures Around(i) / HALF == i / HALF % 2 && Around(i) == i / HALF % 2 * HALF + i % HALF
  {
    var h := i / HALF;
    assert i == h / 2 * MEMSIZE + (h % 2 * HALF + i % HALF);
    DivSum(h / 2, MEMSIZE, h % 2 * HALF + i % HALF);
    DivSum(h % 2, HALF, i % HALF);
  }

  /** The slots refilled are those of the words behind `end`, and of none still to be read. */
  lemma RefillSlot(o: nat, n: nat, end: nat, k: nat)
    requires o <= n <= o + HALF < end <= o + MEMSIZE && end % HALF == 0 && n + HALF >= end && n <= k < end + HALF
    ensures var from := Around(o) / HALF * HALF;
            if k < end then !(from <= Around(k) < from + HALF) else Around(k) == from + (k - end)
  {
    HalfOf(o);
    HalfOf(k);
    HalvesAhead(o, end);
    var h := o / HALF;
    if k < end {
      SameHalf(h + 1, k);
      OddEven(h);
      Apart(h % 2, (h + 1) % 2, k % HALF);
    } else {
      DivSum(h + 2, HALF, k - end);
    }
  }

  lemma SameHalf(h: nat, k: nat)
    requires h * HALF <= k < (h + 1) * HALF
    ensures k / HALF == h
  {
  }

  lemma Apart(a: nat, b: nat, r: nat)
    requires a < 2 && b < 2 && a != b && r < HALF
    ensures !(a * HALF <= b * HALF + r < a * HALF + HALF)
  {
  }

  lemma HalvesAhead(o: nat, end: nat)
    requires o + HALF < end <= o + MEMSIZE && end % HALF == 0
    ensures end == (o / HALF + 2) * HALF
  {
  }

  lemma OddEven(h: nat)
    ensures (h + 1) % 2 != h % 2
  {
  }

  lemma HoldsAhead(ring: seq<u32>, file: seq<u32>, shift: nat, w: nat, loaded: nat, count: nat)
    requires Holds(ring, file, shift, w, loaded) && w + count <= loaded && w + count <= |file|
    ensures var z := Around(w + shift); (ring[z..] + ring[..z])[..count] == file[w..w + count]
  {
    var z := Around(w + shift);
    var words := ring[z..] + ring[..z];
    forall j | 0 <= j < count
      ensures words[j] == file[w + j]
    {
      AroundTwice(w + shift, j);
      assert ring[Around(w + j + shift)] == file[w + j];
    }
    assert words[..count] == file[w..w + count];
  }

  lemma SpellsFirst(words: seq<u32>, p: nat, ts: seq<Token>)
    requires AllProper(ts) && ts != [] && Spells(words, p, ts)
    ensures p + ts[0].Length() <= 32 * |words| && Field(words, p, ts[0].Length()) == ts[0].Number()
    ensures Spells(words, p + ts[0].Length(), ts[1..]) && Total(ts) == ts[0].Length() + Total(ts[1..])
  {
  }

  lemma NoTokens(ts: seq<Token>)
    requires ts == []
    ensures AllProper(ts) && Total(ts) == 0
  {
  }

  lemma TilesEntry(table: seq<Entry>, maxLength: nat, k: nat)
    requires Tiles(table, maxLength) && k < |table|
    ensures EntryFits(table, k, maxLength)
  {
  }

  lemma NoBits(words: seq<u32>, p: nat)
    requires p <= 32 * |words|
    ensures Field(words, p, 0) == 0
  {
  }

  function Min(a: int, b: int): int {
    if a < b then a else b
  }

  lemma TilesEnds(table: seq<Entry>, maxLength: nat)
    requires Tiles(table, maxLength)
    ensures table != [] && table[|table| - 1].code == 0
  {
  }

  lemma LookupStep(table: seq<Entry>, code: nat, i: nat)
    requires i < |table| && table[|table| - 1].code == 0
    ensures Lookup(table, code, i) == if code < table[i].code then Lookup(table, code, i + 1) else i
  {
  }

  /** The shifted word and the top of the next, masked. */
  lemma ReadAcross(words: seq<u32>, at: nat, n: nat)
    requires |words| >= 2 && at < 32 && n <= 31 && at + n > 32
    ensures var m := at + n - 32;
            var out := U32(words[0] * Pow2(m)) + Drop(words[1], 32 - m);
            out < TWO32 && Keep(out, n) == Field(words, at, n)
  {
    hide Field, Pow2, Drop, Keep;
    var m := at + n - 32;
    var w := words[0];
    ShiftKeepsLow(w, m);
    DropBelow(words[1], 32 - m, m);
    FieldAcross(words, at, n);
    KeepLow(w, 32 - m, 32 - at, m, Drop(words[1], 32 - m));
  }

  /** Masking after shifting left by m keeps the n - m low bits of the word. */
  lemma KeepLow(w: nat, a: nat, b: nat, m: nat, t: nat)
    requires b <= a && t < Pow2(m)
    ensures Keep(Keep(w, a) * Pow2(m) + t, b + m) == Keep(w, b) * Pow2(m) + t
  {
    hide Pow2;
    var x, d := w % Pow2(a), Pow2(b);
    var y, q := x % d, x / d;
    ModOfMod(w, a, b);
    assert x == q * d + y;
    Regroup(q, d, Pow2(m), y);
    PowSum(b, m, b + m);
    MulUp(y + 1, d, Pow2(m));
    MulSplit(y, 1, Pow2(m));
    DivSum(q, Pow2(b + m), y * Pow2(m) + t);
  }

  lemma ModOfMod(w: nat, a: nat, b: nat)
    requires b <= a
    ensures w % Pow2(a) % Pow2(b) == w % Pow2(b)
  {
    hide Pow2;
    PowSum(a - b, b, a);
    ModOfProduct(w, Pow2(a - b), Pow2(b));
  }

  lemma ModOfProduct(w: nat, e: nat, d: nat)
    requires e > 0 && d > 0
    ensures e * d > 0 && w % (e * d) % d == w % d
  {
    MulUp(1, e, d);
    Quotient(w, e * d);
    var q, x := w / (e * d), w % (e * d);
    Quotient(x, d);
    var z, y := x / d, x % d;
    assert w == (q * e + z) * d + y by {
      Assoc3(q, e, d);
      MulSplit(q * e, z, d);
    }
    Nonneg(q, e);
    DivSum(q * e + z, d, y);
  }

}
