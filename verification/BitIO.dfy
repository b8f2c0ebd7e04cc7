/** The LSB-first bit buffers of jni/wv: the putbit/putbits/getbit/getbits macros of wavpack.h and the
    open, refill and close functions of wputils.c. */
module BitIO {
  import opened Machine
  import opened Arithmetic
  import opened Bits

  /** The bits of a run of bytes, in the order they are read. */
  function BytesBits(s: seq<byte>): (b: seq<bool>)
    ensures |b| == 8 * |s|
  {
    if s == [] then [] else ToBits(s[0], 8) + BytesBits(s[1..])
  }

  lemma {:induction false} BytesBitsConcat(a: seq<byte>, b: seq<byte>)
    ensures BytesBits(a + b) == BytesBits(a) + BytesBits(b)
  {
    hide ToBits;
    if a == [] {
      assert a + b == b;
    } else {
      BytesBitsConcat(a[1..], b);
      assert (a + b)[1..] == a[1..] + b;
      assert ToBits(a[0], 8) + (BytesBits(a[1..]) + BytesBits(b)) == BytesBits(a) + BytesBits(b);
    }
  }

  lemma BytesBitsOne(b: byte)
    ensures BytesBits([b]) == ToBits(b, 8)
  {
    hide ToBits;
    assert [b][1..] == [];
  }

  lemma Pow2Of8()
    ensures Pow2(8) == 256
  {
  }

  lemma Pow2Of31()
    ensures Pow2(31) == TWO31
  {
    assert Pow2(7) == 128;
    Pow2Add(8, 8);
    Pow2Add(16, 8);
    Pow2Add(24, 7);
  }

  /** `sr |= value << bc` queues the bits of value behind the bc bits already there. */
  lemma QueueBits(sr: nat, bc: nat, value: nat, n: nat)
    requires sr < Pow2(bc) && value < Pow2(n)
    ensures sr + Shl(value, bc) < Pow2(bc + n)
    ensures ToBits(sr + Shl(value, bc), bc + n) == ToBits(sr, bc) + ToBits(value, n)
  {
    hide ToBits, FromBits;
    var s := ToBits(sr, bc) + ToBits(value, n);
    FromToBits(sr, bc);
    FromToBits(value, n);
    FromBitsConcat(ToBits(sr, bc), ToBits(value, n));
    assert Pow2(bc) * value == Shl(value, bc);
    FromBitsBound(s);
    ToFromBits(s);
  }

  lemma QueueBit(sr: nat, bc: nat, bit: bool)
    requires sr < Pow2(bc)
    ensures var sr' := if bit then sr + Shl(1, bc) else sr;
            sr' < Pow2(bc + 1) && ToBits(sr', bc + 1) == ToBits(sr, bc) + [bit]
  {
    hide ToBits;
    QueueBits(sr, bc, Bit(bit), 1);
    OneBit(bit);
  }

  lemma ToBitsSize(v: nat, n: nat)
    ensures |ToBits(v, n)| == n
  {
  }

  lemma FromBitsBound(s: seq<bool>)
    ensures FromBits(s) < Pow2(|s|)
  {
  }

  /** A byte off the front of the queue. */
  lemma DequeueByte(sr: nat, bc: nat)
    requires sr < Pow2(bc) && bc >= 8
    ensures sr / 256 < Pow2(bc - 8)
    ensures ToBits(sr, bc) == ToBits(sr % 256, 8) + ToBits(sr / 256, bc - 8)
  {
    hide ToBits, FromBits, Pow2;
    var s := ToBits(sr, bc);
    Shr8(sr);
    ShrDropsBits(sr, bc, 8);
    LowBitsFirst(sr, bc, 8);
    Pow2Of8();
    LowBitsMod(sr % 256, sr / 256, 8);
    assert sr == sr % 256 + sr / 256 * Pow2(8);
    assert s == s[..8] + s[8..];
  }

  lemma Shr8(v: nat)
    ensures Shr(v, 8) == v / 256
  {
    assert Shr(v, 8) == Shr(v / 2 / 2, 6) == Shr(v / 2 / 2 / 2 / 2, 4) == Shr(v / 2 / 2 / 2 / 2 / 2 / 2, 2);
  }

  // ---------------------------------------------------------------- writing

  /** A `Bitstream` opened with `bs_open_write` on buf[base..end]. */
  class BitWriter {
    const buf: array<byte>
    const base: nat
    const end: nat
    var ptr: nat
    var sr: u32
    var bc: nat
    var error: bool
    ghost var stored: seq<bool>  // the bits of every byte stored so far

    ghost predicate Valid()
      reads this, buf
    {
      && base <= ptr < end <= buf.Length
      && bc < 8 && sr < Pow2(bc)
      && |stored| % 8 == 0
      && (error <==> |stored| / 8 >= end - base)
      && (!error ==> ptr == base + |stored| / 8 && stored == BytesBits(buf[base..ptr]))
    }

    /** Every bit put so far. */
    ghost function Written(): seq<bool>
      reads this
    {
      stored + ToBits(sr, bc)
    }

    /** The error flag goes up with the byte that fills the buffer. */
    lemma ErrorMeansFull()
      requires Valid()
      ensures error <==> |Written()| / 8 >= end - base
    {
      ToBitsSize(sr, bc);
      assert |Written()| == 8 * (|stored| / 8) + bc;
    }

    constructor OpenWrite(buffer: array<byte>, start: nat, limit: nat)
      requires start < limit <= buffer.Length
      ensures Valid() && buf == buffer && base == start && end == limit
      ensures Written() == [] && !error
    {
      buf, base, end := buffer, start, limit;
      error, sr, bc, ptr := false, 0, 0, start;
      stored := [];
    }

    /** `*ptr = b; if (++ptr == end) wrap`; bs_write starts over and flags the error. */
    method StoreByte(b: byte)
      requires base <= ptr < end <= buf.Length
      requires |stored| % 8 == 0
      requires error <==> |stored| / 8 >= end - base
      requires !error ==> ptr == base + |stored| / 8 && stored == BytesBits(buf[base..ptr])
      modifies this`ptr, this`error, this`stored, buf
      ensures stored == old(stored) + ToBits(b, 8)
      ensures base <= ptr < end
      ensures error <==> |stored| / 8 >= end - base
      ensures !error ==> ptr == base + |stored| / 8 && stored == BytesBits(buf[base..ptr])
      ensures error && !old(error) ==> ptr == base
      ensures forall i :: 0 <= i < buf.Length && !(base <= i < end) ==> buf[i] == old(buf[i])
    {
      hide ToBits, BytesBits;
      buf[ptr] := b;
      stored := stored + ToBits(b, 8);
      ptr := ptr + 1;
      if !error {
        assert buf[base..ptr] == old(buf[base..ptr]) + [b];
        BytesBitsConcat(old(buf[base..ptr]), [b]);
        BytesBitsOne(b);
      }
      if ptr == end {
        ptr := base;
        error := true;
      }
    }

    /** `putbit`. */
    method PutBit(bit: bool)
      requires Valid()
      modifies this, buf
      ensures Valid() && Written() == old(Written()) + [bit]
      ensures error && !old(error) ==> ptr == base && bc == 0
      ensures forall i :: 0 <= i < buf.Length && !(base <= i < end) ==> buf[i] == old(buf[i])
    {
      hide ToBits, BytesBits, Pow2, Shl;
      ghost var w := Written();
      QueueBit(sr, bc, bit);
      Pow2Of8();
      Pow2Mono(bc + 1, 8);
      if bit {
        sr := sr + Shl(1, bc);
      }
      bc := bc + 1;
      assert stored + ToBits(sr, bc) == w + [bit];
      if bc == 8 {
        StoreByte(sr);
        sr, bc := 0, 0;
        NoBits(0);
      }
    }

    /** `putbits` for a value that fits nbits. */
    method PutBits(value: nat, nbits: nat)
      requires Valid() && nbits <= 24 && value < Pow2(nbits)
      modifies this, buf
      ensures Valid() && Written() == old(Written()) + ToBits(value, nbits)
      ensures forall i :: 0 <= i < buf.Length && !(base <= i < end) ==> buf[i] == old(buf[i])
    {
      hide ToBits, BytesBits, Pow2, Shl;
      QueueBits(sr, bc, value, nbits);
      ghost var w := Written() + ToBits(value, nbits);
      Pow2Mono(bc + nbits, 31);
      Pow2Of31();
      Pow2Of8();
      sr := sr + Shl(value, bc);
      bc := bc + nbits;
      assert Written() == w;
      while bc >= 8
        invariant base <= ptr < end <= buf.Length
        invariant sr < Pow2(bc)
        invariant |stored| % 8 == 0
        invariant error <==> |stored| / 8 >= end - base
        invariant !error ==> ptr == base + |stored| / 8 && stored == BytesBits(buf[base..ptr])
        invariant Written() == w
        invariant forall i :: 0 <= i < buf.Length && !(base <= i < end) ==> buf[i] == old(buf[i])
        decreases bc
      {
        DequeueByte(sr, bc);
        assert stored + ToBits(sr, bc) == (stored + ToBits(sr % 256, 8)) + ToBits(sr / 256, bc - 8);
        StoreByte(sr % 256);
        sr := sr / 256;
        bc := bc - 8;
      }
    }

    /** `bs_close_write`: pads with ones to an even number of bytes and returns that number. */
    method CloseWrite() returns (count: u32)
      requires Valid() && end - base < TWO31
      modifies this, buf
      ensures forall i :: 0 <= i < buf.Length && !(base <= i < end) ==> buf[i] == old(buf[i])
      ensures var n := PaddedBytes(|old(Written())|);
              if old(error) then count == TWO32 - 1
              else if n < end - base then
                count == n && BytesBits(buf[base..base + n]) == Padded(old(Written()))
              else count == 0
    {
      hide ToBits, BytesBits, Pow2, Shl, Padded, PaddedBytes;
      if error {
        return TWO32 - 1;
      }
      ghost var w := Written();
      ghost var pads := PadToWord();
      PaddedSize(|w|);
      if !error {
        NoBits(sr);
        WordEnd(|stored|, ptr - base, bc);
        PaddingDone(w, pads);
      }
      count := ptr - base;
      error, sr, bc, ptr := false, 0, 0, 0;
    }

    /** The loop of `bs_close_write`. */
    method PadToWord() returns (ghost pads: nat)
      requires Valid() && !error
      modifies this, buf
      ensures Valid() && Written() == old(Written()) + Ones(pads)
      ensures bc == 0 && (ptr - base) % 2 == 0
      ensures |old(Written())| + pads <= 8 * PaddedBytes(|old(Written())|)
      ensures error ==> ptr == base && PaddedBytes(|old(Written())|) >= end - base
      ensures forall i :: 0 <= i < buf.Length && !(base <= i < end) ==> buf[i] == old(buf[i])
    {
      hide ToBits, BytesBits, Pow2, Shl, PaddedBytes;
      ghost var w := Written();
      pads := 0;
      PaddedSize(|w|);
      while bc > 0 || (ptr - base) % 2 == 1
        invariant Valid()
        invariant |w| + pads <= 8 * PaddedBytes(|w|)
        invariant Written() == w + Ones(pads)
        invariant error ==> ptr == base && bc == 0 && PaddedBytes(|w|) >= end - base
        invariant forall i :: 0 <= i < buf.Length && !(base <= i < end) ==> buf[i] == old(buf[i])
        decreases if error then 0 else 1 + 8 * PaddedBytes(|w|) - |w| - pads
      {
        WordEnd(|stored|, ptr - base, bc);
        PaddingGoesOn(|w|, |w| + pads);
        PutBit(true);
        assert w + Ones(pads) + [true] == w + Ones(pads + 1);
        pads := pads + 1;
      }
    }
  }

  // ---------------------------------------------------------------- reading

  /** The next n bits; past the end of the data every bit is one. */
  function Extend(s: seq<bool>, n: nat): (r: seq<bool>)
    ensures |r| == n
  {
    if n <= |s| then s[..n] else s + Ones(n - |s|)
  }

  function Drop(s: seq<bool>, n: nat): seq<bool> {
    if n <= |s| then s[n..] else []
  }

  /** What the buffers hold is the data left, followed by ones only once the data has run out. */
  ghost predicate Agrees(rest: seq<bool>, held: seq<bool>, ranOut: bool) {
    && |rest| <= |held| && held[..|rest|] == rest
    && (forall i :: |rest| <= i < |held| ==> held[i])
    && (|rest| < |held| ==> ranOut)
  }

  lemma AgreesTake(rest: seq<bool>, held: seq<bool>, ranOut: bool, n: nat)
    requires Agrees(rest, held, ranOut) && n <= |held|
    ensures Extend(rest, n) == held[..n]
    ensures Agrees(Drop(rest, n), held[n..], ranOut)
  {
  }

  lemma AgreesLonger(rest: seq<bool>, held: seq<bool>, more: seq<bool>, ranOut: bool)
    requires Agrees(rest, held, ranOut)
    requires forall i :: 0 <= i < |more| ==> more[i]
    ensures Agrees(rest, held + more, true)
  {
  }

  lemma {:induction false} AllOnesBytes(s: seq<byte>)
    requires forall i :: 0 <= i < |s| ==> s[i] == 255
    ensures forall i :: 0 <= i < |BytesBits(s)| ==> BytesBits(s)[i]
  {
    hide ToBits;
    if s == [] {
    } else {
      AllOnesBytes(s[1..]);
      OnesByte();
    }
  }

  lemma {:induction false} OnesValue(n: nat)
    ensures ToBits(Pow2(n) - 1, n) == Ones(n)
  {
    if n == 0 {
    } else {
      OnesValue(n - 1);
      assert (Pow2(n) - 1) / 2 == Pow2(n - 1) - 1;
    }
  }

  lemma OnesByte()
    ensures forall i :: 0 <= i < 8 ==> ToBits(255, 8)[i]
  {
    Pow2Of8();
    OnesValue(8);
  }

  function Min(a: nat, b: nat): nat {
    if a < b then a else b
  }

  /** A `Bitstream` opened with `bs_open_read`. The read callback is the field `file`: the bytes it
      has still to deliver, in pieces of any size. */
  class BitReader {
    const buf: array<byte>
    var end: nat
    var ptr: int
    var sr: u32
    var bc: nat
    var fileBytes: nat
    var file: seq<byte>
    var error: bool
    ghost var rest: seq<bool>  // the data not read yet

    /** The bytes behind sr. */
    ghost function Queue(): seq<bool>
      requires 0 < end <= buf.Length && -1 <= ptr < end
      reads this`ptr, this`end, this`file, this`fileBytes, buf
    {
      BytesBits(buf[ptr + 1..end]) + BytesBits(file[..Min(fileBytes, |file|)])
    }

    ghost predicate Open()
      reads this, buf
    {
      && 0 < end <= buf.Length && -1 <= ptr < end
      && (error ==> Min(fileBytes, |file|) == 0)
    }

    ghost predicate Valid()
      reads this, buf
    {
      && Open()
      && bc < 16 && sr < Pow2(bc)
      && Agrees(rest, ToBits(sr, bc) + Queue(), error)
    }

    /** A stream whose data comes through the callback, byteLength bytes of it at most. */
    constructor OpenFile(buffer: array<byte>, data: seq<byte>, byteLength: nat)
      requires buffer.Length > 0
      ensures Valid() && buf == buffer
      ensures rest == BytesBits(data[..Min(byteLength, |data|)])
    {
      buf, end, ptr := buffer, buffer.Length, buffer.Length - 1;
      sr, bc, error := 0, 0, false;
      fileBytes, file := byteLength, data;
      rest := BytesBits(data[..Min(byteLength, |data|)]);
      new;
      NoBits(0);
      assert [] + ([] + rest) == rest;
    }

    /** A stream whose data is already in the buffer. */
    constructor OpenBuffer(buffer: array<byte>)
      requires buffer.Length > 0
      ensures Valid() && buf == buffer
      ensures rest == BytesBits(buffer[..])
    {
      buf, end, ptr := buffer, buffer.Length, -1;
      sr, bc, error := 0, 0, false;
      fileBytes, file := 0, [];
      rest := BytesBits(buffer[..]);
      new;
      NoBits(0);
      assert buf[0..end] == buf[..];
      assert [] + (rest + []) == rest;
    }

    /** `bs_read`: the callback delivers between one and n bytes, or none when it has none left. */
    method Refill()
      requires Open() && ptr == end - 1
      modifies this`end, this`ptr, this`file, this`fileBytes, this`error, buf
      ensures Open() && ptr == 0
      ensures old(Queue()) != [] ==> BytesBits(buf[0..end]) + BytesBits(file[..Min(fileBytes, |file|)]) == old(Queue())
      ensures old(Queue()) != [] ==> error == old(error)
      ensures old(Queue()) == [] ==> error && forall i :: 0 <= i < end ==> buf[i] == 255
    {
      hide BytesBits;
      assert buf[ptr + 1..end] == [];
      assert BytesBits([]) == [] by { EmptyBytes(); }
      ghost var data := file[..Min(fileBytes, |file|)];
      var bytesRead: nat := 0;
      if fileBytes > 0 {
        var bytesToRead := Min(end, fileBytes);
        if |file| > 0 {
          assert 1 <= 1 <= bytesToRead && 1 <= |file|;
          bytesRead :| 1 <= bytesRead <= bytesToRead && bytesRead <= |file|;
        }
        if bytesRead > 0 {
          assert bytesRead <= end <= buf.Length && bytesRead <= fileBytes;
          forall i | 0 <= i < bytesRead {
            buf[i] := file[i];
          }
          end := bytesRead;
          fileBytes := fileBytes - bytesRead;
          assert buf[0..end] == file[..bytesRead];
          file := file[bytesRead..];
          assert data == buf[0..end] + file[..Min(fileBytes, |file|)];
          BytesBitsConcat(buf[0..end], file[..Min(fileBytes, |file|)]);
        } else {
          error := true;
        }
      } else {
        error := true;
      }
      if error {
        forall i | 0 <= i < end {
          buf[i] := 255;
        }
        assert data == [];
      }
      ptr := 0;
    }

    /** `if (++ptr == end) wrap; *ptr`. */
    method NextByte() returns (b: byte)
      requires Open()
      modifies this`end, this`ptr, this`file, this`fileBytes, this`error, buf
      ensures Open() && ptr >= 0 && b == buf[ptr]
      ensures old(Queue()) != [] ==> old(Queue()) == ToBits(b, 8) + Queue() && error == old(error)
      ensures old(Queue()) == [] ==> error && b == 255 && forall i :: 0 <= i < |Queue()| ==> Queue()[i]
    {
      hide ToBits;
      ghost var q := Queue();
      if ptr + 1 == end {
        Refill();
      } else {
        ptr := ptr + 1;
        assert q != [];
      }
      b := buf[ptr];
      assert buf[ptr..end] == [b] + buf[ptr + 1..end];
      ghost var f := BytesBits(file[..Min(fileBytes, |file|)]);
      assert BytesBits(buf[ptr..end]) + f == ToBits(b, 8) + (BytesBits(buf[ptr + 1..end]) + f);
      if q == [] {
        AllOnesBytes(buf[ptr + 1..end]);
        assert f == [];
      }
    }

    /** A byte moved from the queue behind the bits of `full`. */
    lemma Loaded(full: nat, bits: nat, queue: seq<bool>, b: byte, queue': seq<bool>, ranOut: bool, ranOut': bool)
      requires full < Pow2(bits)
      requires Agrees(rest, ToBits(full, bits) + queue, ranOut)
      requires queue != [] ==> queue == ToBits(b, 8) + queue' && ranOut' == ranOut
      requires queue == [] ==> ranOut' && b == 255 && forall i :: 0 <= i < |queue'| ==> queue'[i]
      ensures full + Shl(b, bits) < Pow2(bits + 8)
      ensures ToBits(full + Shl(b, bits), bits + 8) == ToBits(full, bits) + ToBits(b, 8)
      ensures Agrees(rest, ToBits(full + Shl(b, bits), bits + 8) + queue', ranOut')
    {
      hide ToBits, Pow2;
      Pow2Of8();
      QueueBits(full, bits, b, 8);
      var held := ToBits(full, bits) + queue;
      var held' := ToBits(full, bits) + ToBits(b, 8) + queue';
      if queue != [] {
        assert held' == held;
      } else {
        OnesByte();
        AgreesLonger(rest, held, ToBits(b, 8) + queue', ranOut);
        assert held' == held + (ToBits(b, 8) + queue');
      }
    }

    lemma LoadedEmpty(none: nat, queue: seq<bool>, b: byte, queue': seq<bool>, ranOut: bool, ranOut': bool)
      requires none < Pow2(0)
      requires Agrees(rest, ToBits(none, 0) + queue, ranOut)
      requires queue != [] ==> queue == ToBits(b, 8) + queue' && ranOut' == ranOut
      requires queue == [] ==> ranOut' && b == 255 && forall i :: 0 <= i < |queue'| ==> queue'[i]
      ensures b < Pow2(8)
      ensures Agrees(rest, ToBits(b, 8) + queue', ranOut')
    {
      ZeroWidth(none);
      Loaded(none, 0, queue, b, queue', ranOut, ranOut');
    }

    /** `getbit`. */
    method GetBit() returns (bit: bool)
      requires Valid()
      modifies this, buf
      ensures Valid() && [bit] == Extend(old(rest), 1) && rest == Drop(old(rest), 1)
    {
      hide ToBits, BytesBits, Pow2, Shl, Agrees, Extend, Drop;
      if bc == 0 {
        ghost var q, e := Queue(), error;
        ghost var none: nat := sr;
        var b := NextByte();
        LoadedEmpty(none, q, b, Queue(), e, error);
        sr, bc := b, 8;
      }
      bit := sr % 2 == 1;
      TakeOne(sr, bc, Queue(), error);
      sr := sr / 2;
      bc := bc - 1;
      rest := Drop(rest, 1);
    }

    lemma TakeOne(full: nat, bits: nat, queue: seq<bool>, ranOut: bool)
      requires full < Pow2(bits) && bits > 0
      requires Agrees(rest, ToBits(full, bits) + queue, ranOut)
      ensures [full % 2 == 1] == Extend(rest, 1)
      ensures full / 2 < Pow2(bits - 1)
      ensures Agrees(Drop(rest, 1), ToBits(full / 2, bits - 1) + queue, ranOut)
    {
      hide ToBits, Pow2, Agrees, Extend, Drop;
      var held := ToBits(full, bits) + queue;
      FirstBit(full, bits);
      AgreesTake(rest, held, ranOut, 1);
      assert held[..1] == [full % 2 == 1];
      assert held[1..] == ToBits(full / 2, bits - 1) + queue;
    }

    /** `sr |= *ptr << bc; bc += 8` in a 32-bit register; `full` is what a wider one would hold. */
    method QueueByte(ghost full: nat) returns (ghost full': nat)
      requires Open() && full < Pow2(bc) && sr == U32(full)
      requires Agrees(rest, ToBits(full, bc) + Queue(), error)
      modifies this`end, this`ptr, this`file, this`fileBytes, this`error, this`sr, this`bc, buf
      ensures Open() && ptr >= 0 && bc == old(bc) + 8
      ensures full' < Pow2(bc) && sr == U32(full')
      ensures Agrees(rest, ToBits(full', bc) + Queue(), error)
      ensures ToBits(full', bc)[old(bc)..] == ToBits(buf[ptr], 8)
    {
      hide U32, ToBits, BytesBits, Pow2, Shl, Agrees, Shr;
      ghost var q, e := Queue(), error;
      var b := NextByte();
      Loaded(full, bc, q, b, Queue(), e, error);
      WrapQueue(sr, full, Shl(b, bc));
      full' := full + Shl(b, bc);
      sr := U32(sr + Shl(b, bc));
      bc := bc + 8;
    }

    /** The byte `get_words` looks at before it decides how many bits to take. */
    method Peek8() returns (next8: byte)
      requires Valid()
      modifies this, buf
      ensures Valid() && rest == old(rest) && bc >= 8
      ensures ToBits(next8, 8) == Extend(rest, 8)
    {
      hide ToBits, BytesBits, Pow2, Shl, Extend, Agrees;
      if bc < 8 {
        ghost var full := QueueByte(sr);
        Pow2Mono(bc, 32);
        Pow2Of32();
      }
      next8 := sr % 256;
      FrontByte(sr, bc, Queue(), error);
    }

    lemma FrontByte(full: nat, bits: nat, queue: seq<bool>, ranOut: bool)
      requires full < Pow2(bits) && bits >= 8
      requires Agrees(rest, ToBits(full, bits) + queue, ranOut)
      ensures ToBits(full % 256, 8) == Extend(rest, 8)
    {
      hide ToBits, Pow2;
      var held := ToBits(full, bits) + queue;
      DequeueByte(full, bits);
      AgreesTake(rest, held, ranOut, 8);
      assert held[..8] == ToBits(full % 256, 8);
    }

    /** `bc -= n; sr >>= n`. */
    method Skip(n: nat)
      requires Valid() && n <= bc
      modifies this
      ensures Valid() && rest == Drop(old(rest), n) && bc == old(bc) - n
    {
      hide ToBits, BytesBits, Pow2, Shl;
      ghost var held := ToBits(sr, bc) + Queue();
      AgreesTake(rest, held, error, n);
      ShrDropsBits(sr, bc, n);
      ShrShrinks(sr, n);
      assert held[n..] == ToBits(sr, bc)[n..] + Queue();
      sr := Shr(sr, n);
      bc := bc - n;
      rest := Drop(rest, n);
    }

    /** `getbits`: bits of the result above nbits are whatever else was buffered. */
    method GetBits(nbits: nat) returns (value: u32)
      requires Valid() && nbits <= 31
      modifies this, buf
      ensures Valid() && ToBits(value, nbits) == Extend(old(rest), nbits) && rest == Drop(old(rest), nbits)
    {
      hide ToBits, BytesBits, Pow2, Shl, Agrees, Extend, Drop, Shr;
      ghost var full: nat := sr;
      ghost var lastBc: nat := 0;
      while nbits > bc
        invariant Open() && full < Pow2(bc) && sr == U32(full)
        invariant bc < nbits + 8 || bc < 16
        invariant Agrees(rest, ToBits(full, bc) + Queue(), error)
        invariant rest == old(rest)
        invariant bc >= 16 ==> ptr >= 0 && lastBc < nbits && bc == lastBc + 8
                               && ToBits(full, bc)[lastBc..] == ToBits(buf[ptr], 8)
        decreases nbits - bc
      {
        lastBc := bc;
        full := QueueByte(full);
      }
      value := TakeBuffered(nbits, full, lastBc);
    }

    /** The second half of `getbits`, with enough bits in the register. */
    method TakeBuffered(nbits: nat, ghost full: nat, ghost lastBc: nat) returns (value: u32)
      requires Open() && full < Pow2(bc) && sr == U32(full)
      requires nbits <= bc && nbits <= 31 && (bc < nbits + 8 || bc < 16)
      requires Agrees(rest, ToBits(full, bc) + Queue(), error)
      requires bc >= 16 ==> ptr >= 0 && lastBc < nbits && bc == lastBc + 8
                            && ToBits(full, bc)[lastBc..] == ToBits(buf[ptr], 8)
      modifies this`sr, this`bc, this`rest
      ensures Valid() && ToBits(value, nbits) == Extend(old(rest), nbits) && rest == Drop(old(rest), nbits)
    {
      hide U32, ToBits, BytesBits, Pow2, Shl, Agrees, Extend, Drop, Shr, BitReader.Queue;
      value := sr;
      ghost var left, queue := Shr(full, nbits), Queue();
      TakeBits(full, bc, nbits, queue, error);
      if bc > 32 {
        LastByte(full, bc, lastBc, nbits, buf[ptr]);
        sr := Shr(buf[ptr], 8 - (bc - nbits));
      } else {
        FitsRegister(full, bc);
        ShrShrinks(sr, nbits);
        sr := Shr(sr, nbits);
      }
      assert sr == left;
      rest, bc := Drop(rest, nbits), bc - nbits;
    }

    lemma TakeBits(full: nat, bits: nat, n: nat, queue: seq<bool>, ranOut: bool)
      requires full < Pow2(bits) && n <= bits && n <= 32
      requires Agrees(rest, ToBits(full, bits) + queue, ranOut)
      ensures ToBits(U32(full), n) == Extend(rest, n)
      ensures Shr(full, n) < Pow2(bits - n)
      ensures Agrees(Drop(rest, n), ToBits(Shr(full, n), bits - n) + queue, ranOut)
    {
      hide ToBits, Pow2, Agrees, Extend, Drop, Shr;
      var held := ToBits(full, bits) + queue;
      AgreesTake(rest, held, ranOut, n);
      LowBitsU32(full, n);
      LowBitsFirst(full, bits, n);
      ShrDropsBits(full, bits, n);
      assert held[..n] == ToBits(full, bits)[..n];
      assert held[n..] == ToBits(full, bits)[n..] + queue;
    }
  }

  /** The more-than-32-bit path: what stays buffered is the top of the last byte. */
  lemma LastByte(full: nat, bits: nat, lastBits: nat, n: nat, last: byte)
    requires full < Pow2(bits) && bits == lastBits + 8 && lastBits < n <= bits
    requires ToBits(full, bits)[lastBits..] == ToBits(last, 8)
    ensures Shr(last, 8 - (bits - n)) == Shr(full, n) <= last
  {
    hide ToBits, Pow2, Shr;
    var k := 8 - (bits - n);
    Pow2Of8();
    ShrShrinks(last, k);
    ShrDropsBits(last, 8, k);
    ShrDropsBits(full, bits, n);
    assert ToBits(full, bits)[n..] == ToBits(full, bits)[lastBits..][k..];
    FromToBits(Shr(last, k), 8 - k);
    FromToBits(Shr(full, n), bits - n);
  }

  lemma FitsRegister(full: nat, bits: nat)
    requires full < Pow2(bits) && bits <= 32
    ensures U32(full) == full
  {
    Pow2Mono(bits, 32);
    Pow2Of32();
  }

  lemma EmptyBytes()
    ensures BytesBits([]) == []
  {
  }

  lemma ZeroWidth(v: nat)
    ensures v < Pow2(0) ==> v == 0
    ensures forall b: nat :: 0 + Shl(b, 0) == b
  {
  }

  lemma FirstBit(v: nat, n: nat)
    requires n > 0 && v < Pow2(n)
    ensures ToBits(v, n) == [v % 2 == 1] + ToBits(v / 2, n - 1)
    ensures v / 2 < Pow2(n - 1)
  {
  }

  lemma {:induction false} ShrShrinks(v: nat, n: nat)
    ensures Shr(v, n) <= v
    decreases n
  {
    if n == 0 {
    } else {
      ShrShrinks(v / 2, n - 1);
    }
  }

  lemma Pow2Of32()
    ensures Pow2(32) == TWO32
  {
    Pow2Of31();
  }

  /** A 32-bit register keeps the 32 low bits. */
  lemma LowBitsU32(full: nat, n: nat)
    requires n <= 32
    ensures ToBits(U32(full), n) == ToBits(full, n)
  {
    hide ToBits;
    Pow2Of32();
    Pow2Add(32 - n, n);
    var x := full / TWO32;
    assert full == U32(full) + x * TWO32;
    assert x * (Pow2(32 - n) * Pow2(n)) == (x * Pow2(32 - n)) * Pow2(n) by { Assoc3(x, Pow2(32 - n), Pow2(n)); }
    LowBitsMod(U32(full), x * Pow2(32 - n), n);
  }

  lemma WrapQueue(sr: u32, full: nat, more: nat)
    requires sr == U32(full)
    ensures U32(sr + more) == U32(full + more)
  {
  }

  /** The bytes a stream of n bits takes once padded to 16-bit words. */
  function PaddedBytes(n: nat): nat {
    (n + 15) / 16 * 2
  }

  /** A bit string padded with ones to whole 16-bit words. */
  function Padded(w: seq<bool>): (p: seq<bool>)
    ensures |p| == 8 * PaddedBytes(|w|)
    ensures w <= p
  {
    w + Ones(8 * PaddedBytes(|w|) - |w|)
  }

  lemma PaddedSize(n: nat)
    ensures PaddedBytes(n) % 2 == 0 && n <= 8 * PaddedBytes(n) < n + 16
  {
  }

  /** What closing a stream accepts: its words must leave room behind them. */
  lemma RoomExactly(bits: nat, room: nat)
    requires room > 0
    ensures PaddedBytes(bits) < room <==> bits <= 16 * ((room - 1) / 2)
  {
    var words := (bits + 15) / 16;
    assert 2 * words < room <==> words <= (room - 1) / 2;
    assert bits <= 16 * words < bits + 16;
  }

  /** A stream of one bit whose padding fills its buffer: closing it returns 0, neither the length nor the error. */
  method FilledBufferReadsAsEmpty(buffer: array<byte>) returns (count: u32)
    requires buffer.Length == 2
    modifies buffer
    ensures count == 0
  {
    var stream := new BitWriter.OpenWrite(buffer, 0, 2);
    stream.PutBit(true);
    count := stream.CloseWrite();
  }

  /** The loop test of bs_close_write: whole 16-bit words have been stored. */
  lemma WordEnd(bits: nat, bytes: nat, bc: nat)
    requires bits % 8 == 0 && bits / 8 == bytes && bc < 8
    ensures (bits + bc) % 16 == 0 <==> bc == 0 && bytes % 2 == 0
  {
    assert bits == 8 * bytes;
    assert bytes == bytes / 2 * 2 + bytes % 2;
  }

  lemma PaddingGoesOn(n: nat, now: nat)
    requires n <= now <= 8 * PaddedBytes(n) && now % 16 != 0
    ensures now + 1 <= 8 * PaddedBytes(n)
  {
    PaddedSize(n);
  }

  lemma PaddingDone(w: seq<bool>, pads: nat)
    requires |w| + pads <= 8 * PaddedBytes(|w|) && (|w| + pads) % 16 == 0
    ensures w + Ones(pads) == Padded(w) && |w| + pads == 8 * PaddedBytes(|w|)
  {
    PaddedSize(|w|);
  }

  lemma OneBit(bit: bool)
    ensures ToBits(Bit(bit), 1) == [bit]
  {
  }

  lemma NoBits(v: nat)
    ensures ToBits(v, 0) == []
  {
  }
}
