/** The chunk layer of jni/wv/metadata.c, and the loop of `unpack_init` that feeds chunks to the decoder. */
module Chunks {
  import opened Machine
  import opened WordSpec
  import opened DecorrSpec
  import opened DecorrPasses
  import opened Metadata

  const ID_OPTIONAL_DATA := 0x20
  const ID_ODD_SIZE := 0x40
  const ID_LARGE := 0x80

  const ID_DUMMY := 0x0
  const ID_DECORR_TERMS := 0x2
  const ID_DECORR_WEIGHTS := 0x3
  const ID_DECORR_SAMPLES := 0x4
  const ID_ENTROPY_VARS := 0x5
  const ID_WV_BITSTREAM := 0xa
  const ID_RIFF_HEADER := 0x21
  const ID_CONFIG_BLOCK := 0x25

  const READ_BUFFER := 1024

  // ---------------------------------------------------------------- writing

  /** An integer stored in a byte. */
  function Low(x: int): byte {
    x % 256
  }

  /** The head of a chunk of n bytes. */
  function ChunkHead(id: nat, n: nat): (r: seq<byte>)
    requires id < 0x40
    ensures |r| == if n > 510 then 4 else 2
  {
    var tag := id + (if n % 2 == 1 then ID_ODD_SIZE else 0);
    if n > 510 then [tag + ID_LARGE, Low((n + 1) / 2), Low((n + 1) / 512), Low((n + 1) / 0x2_0000)]
    else [tag, Low((n + 1) / 2)]
  }

  /** The data of a chunk, padded to an even number of bytes. */
  function Even(data: seq<byte>): (r: seq<byte>)
    ensures |r| == |data| + |data| % 2
  {
    data + (if |data| % 2 == 1 then [0] else [])
  }

  /** A chunk as `copy_metadata` lays it out. */
  function ChunkBytes(id: nat, data: seq<byte>): (r: seq<byte>)
    requires id < 0x40
    ensures |r| == |data| + |data| % 2 + (if |data| > 510 then 4 else 2)
  {
    ChunkHead(id, |data|) + Even(data)
  }

  method PutHead(id: nat, n: nat, buffer: array<byte>, pos: nat) returns (body: nat)
    requires id < 0x40 && pos + |ChunkHead(id, n)| <= buffer.Length
    modifies buffer
    ensures body == pos + |ChunkHead(id, n)| && buffer[pos..body] == ChunkHead(id, n)
    ensures forall i :: 0 <= i < buffer.Length && !(pos <= i < body) ==> buffer[i] == old(buffer[i])
  {
    buffer[pos] := id + (if n % 2 == 1 then ID_ODD_SIZE else 0);
    buffer[pos + 1] := Low((n + 1) / 2);
    body := pos + 2;
    if n > 510 {
      buffer[pos] := buffer[pos] + ID_LARGE;
      buffer[pos + 2] := Low((n + 1) / 512);
      buffer[pos + 3] := Low((n + 1) / 0x2_0000);
      body := pos + 4;
    }
  }

  /** `copy_metadata`; pos is ckSize + 8. Too little room leaves the block as it is, and says so. */
  method CopyMetadata(id: nat, data: seq<byte>, buffer: array<byte>, pos: nat, end: nat)
    returns (ok: bool, next: nat)
    requires id < 0x40 && end <= buffer.Length
    modifies buffer
    ensures ok <==> pos + |ChunkBytes(id, data)| < end
    ensures ok ==> next == pos + |ChunkBytes(id, data)| && buffer[pos..next] == ChunkBytes(id, data)
    ensures !ok ==> next == pos && buffer[..] == old(buffer[..])
    ensures forall i :: 0 <= i < buffer.Length && !(pos <= i < next) ==> buffer[i] == old(buffer[i])
  {
    hide ChunkHead;
    var padded := Even(data);
    var mdsize := |padded| + (if |data| > 510 then 4 else 2);
    if pos + mdsize >= end {
      return false, pos;
    }
    var body := PutHead(id, |data|, buffer, pos);
    ghost var head := buffer[pos..body];
    forall i | 0 <= i < |padded| {
      buffer[body + i] := padded[i];
    }
    ok, next := true, pos + mdsize;
    assert buffer[pos..body] == head;
    assert buffer[body..next] == padded;
    assert buffer[pos..next] == head + padded;
  }

  // ---------------------------------------------------------------- reading

  /** `read_metadata_buff` on the bytes s: an id, a length, the data if it fits the read buffer. */
  datatype Next = Chunk(id: nat, length: nat, data: seq<byte>, oversized: bool, rest: seq<byte>) | NoChunk

  function NextChunk(s: seq<byte>): (r: Next)
    ensures r.Chunk? ==> |r.rest| < |s|
  {
    if |s| < 2 || (s[0] >= 0x80 && |s| < 4) then NoChunk
    else if s[0] >= 0x80 then ChunkBody(s[0] % 0x80, SizeOf(s[1], s[2], s[3]), s[4..])
    else ChunkBody(s[0], SizeOf(s[1], 0, 0), s[2..])
  }

  /** The rest of read_metadata_buff once id, odd flag and size are known. */
  function ChunkBody(tag: nat, size: nat, body: seq<byte>): (r: Next)
    ensures r.Chunk? ==> |r.rest| <= |body|
  {
    var odd := tag >= 0x40;
    var id := tag % 0x40;
    var length := if odd && size > 0 then size - 1 else size;
    if length == 0 || id == ID_WV_BITSTREAM then Chunk(id, length, [], false, body)
    else
      var toRead := length + length % 2;
      if |body| < toRead then NoChunk
      else if toRead > READ_BUFFER then Chunk(id, length, [], true, body[toRead..])
      else Chunk(id, length, body[..length], false, body[toRead..])
  }

  function SizeOf(a: nat, b: nat, c: nat): nat {
    a * 2 + b * 512 + c * 0x2_0000
  }

  /** A chunk comes back, its data if it fits the read buffer. */
  lemma ChunkComesBack(id: nat, data: seq<byte>, rest: seq<byte>)
    requires id < 0x40 && id != ID_WV_BITSTREAM && |data| < 0x1ff_ffff
    ensures NextChunk(ChunkBytes(id, data) + rest) == WholeChunk(id, data, rest)
  {
    hide SizeOf, ChunkBody, Low, WholeChunk;
    var n := |data|;
    var tag := id + (if n % 2 == 1 then ID_ODD_SIZE else 0);
    var body := Even(data) + rest;
    var s := ChunkBytes(id, data) + rest;
    SizeComesBack(n);
    if n > 510 {
      var a, b, c, d := tag + ID_LARGE, Low((n + 1) / 2), Low((n + 1) / 512), Low((n + 1) / 0x2_0000);
      assert s == [a, b, c, d] + body;
      assert s[4..] == body;
    } else {
      assert s == [tag, Low((n + 1) / 2)] + body;
      assert s[2..] == body;
    }
    BodyComesBack(id, data, rest);
  }

  function WholeChunk(id: nat, data: seq<byte>, rest: seq<byte>): Next {
    var big := |data| > READ_BUFFER;
    Chunk(id, |data|, if big then [] else data, big, rest)
  }

  lemma BodyComesBack(id: nat, data: seq<byte>, rest: seq<byte>)
    requires id < 0x40 && id != ID_WV_BITSTREAM
    ensures var n := |data|;
            ChunkBody(id + (if n % 2 == 1 then ID_ODD_SIZE else 0), n + n % 2, Even(data) + rest)
            == WholeChunk(id, data, rest)
  {
    var n := |data|;
    var body := Even(data) + rest;
    assert body[..n] == data;
    assert body[n + n % 2..] == rest;
  }

  lemma SizeComesBack(n: nat)
    ensures n > 510 ==>
              SizeOf(Low((n + 1) / 2), Low((n + 1) / 512), Low((n + 1) / 0x2_0000)) == (n + n % 2) % 0x200_0000
    ensures n <= 510 ==> SizeOf(Low((n + 1) / 2), 0, 0) == n + n % 2
  {
    if n > 510 {
      hide Low;
      SizeBytes((n + 1) / 2, n + 1);
      assert n + n % 2 == 2 * ((n + 1) / 2);
    }
  }

  /** The size bytes of 2 * h, taken out of x = 2 * h or 2 * h + 1. */
  lemma SizeBytes(h: nat, x: nat)
    requires h == x / 2
    ensures SizeOf(Low(x / 2), Low(x / 512), Low(x / 0x2_0000)) == (2 * h) % 0x200_0000
  {
    hide Low;
    var q := h / 256;
    var r := q / 256;
    NineIsOneAndEight(x);
    SplitByte(h);
    SplitByte(q);
    SplitByte(r);
    ThreeDigits(h, q, r, r / 256, Low(h), Low(q), Low(r));
  }

  lemma NineIsOneAndEight(x: nat)
    ensures x / 512 == x / 2 / 256 && x / 0x2_0000 == x / 2 / 256 / 256
  {
  }

  lemma SplitByte(x: nat)
    ensures x == Low(x) + 256 * (x / 256)
  {
  }

  lemma ThreeDigits(h: nat, q: nat, r: nat, s: nat, a: nat, b: nat, c: nat)
    requires h == a + 256 * q && q == b + 256 * r && r == c + 256 * s
    requires a < 256 && b < 256 && c < 256
    ensures SizeOf(a, b, c) == (2 * h) % 0x200_0000
  {
    assert 2 * h == SizeOf(a, b, c) + 0x200_0000 * s;
    ModUnique(2 * h, SizeOf(a, b, c), s);
  }

  lemma ModUnique(x: nat, v: nat, s: nat)
    requires x == v + 0x200_0000 * s && v < 0x200_0000
    ensures x % 0x200_0000 == v
  {
  }

  /** The header pack_finish_block puts before the bitstream. */
  function StreamHeader(count: nat): seq<byte> {
    [ID_WV_BITSTREAM + ID_LARGE, Low(count / 2), Low(count / 512), Low(count / 0x2_0000)]
  }

  /** Its three size bytes hold every even size below 2^25, and no larger one. */
  lemma StreamSizeComesBack(count: nat, rest: seq<byte>)
    requires count % 2 == 0
    ensures NextChunk(StreamHeader(count) + rest) == Chunk(ID_WV_BITSTREAM, count, [], false, rest)
            <==> count < 0x200_0000
  {
    hide SizeOf, Low;
    StreamHead(count, rest);
    SizeBytes(count / 2, count);
    EvenHalf(count);
    ModSmall(count);
  }

  lemma StreamHead(count: nat, rest: seq<byte>)
    ensures var size := SizeOf(Low(count / 2), Low(count / 512), Low(count / 0x2_0000));
            NextChunk(StreamHeader(count) + rest) == Chunk(ID_WV_BITSTREAM, size, [], false, rest)
  {
    hide SizeOf, Low;
    var s := StreamHeader(count) + rest;
    assert s[4..] == rest;
    assert s[0] == 0x8a;
  }

  lemma EvenHalf(n: nat)
    requires n % 2 == 0
    ensures 2 * (n / 2) == n
  {
  }

  lemma ModSmall(n: nat)
    ensures n % 0x200_0000 == n <==> n < 0x200_0000
  {
  }

  // ---------------------------------------------------------------- the decoder's set-up

  /** What `unpack_init` fills in: the pass table and the medians. */
  datatype Setup = Setup(passes: seq<DecorrPass>, numTerms: nat, c0: Entropy, c1: Entropy)

  predicate ValidSetup(d: Setup) {
    && |d.passes| == MAX_NTERMS && d.numTerms <= MAX_NTERMS && Shaped(d.passes)
    && forall i :: 0 <= i < d.numTerms ==> ValidTerm(d.passes[i].term)
  }

  /** The part of a cleared pass table behind n passes. */
  function Spare(n: nat): (qs: seq<DecorrPass>)
    requires n <= MAX_NTERMS
    ensures |qs| == MAX_NTERMS - n
    ensures forall j :: 0 <= j < |qs| ==> qs[j] == CLEARED
  {
    seq(MAX_NTERMS - n, j => CLEARED)
  }

  const FRESH := Setup(Spare(0), 0, ZERO_ENTROPY, ZERO_ENTROPY)

  datatype Processed = Ok(d: Setup) | Refused

  /** The set-up with other passes in use. */
  function WithPasses(d: Setup, qs: seq<DecorrPass>): (r: Setup)
    requires ValidSetup(d) && |qs| == d.numTerms && Shaped(qs)
    requires forall i :: 0 <= i < |qs| ==> qs[i].term == d.passes[i].term
    ensures ValidSetup(r)
  {
    d.(passes := qs + d.passes[d.numTerms..])
  }

  function ProcessTerms(d: Setup, data: seq<byte>): (r: Processed)
    requires ValidSetup(d)
    ensures r.Ok? ==> ValidSetup(r.d)
  {
    hide TermOf, DeltaOf;
    if TermsOk(data) then Ok(d.(passes := TermsSet(d.passes, data), numTerms := |data|)) else Refused
  }

  function ProcessWeights(d: Setup, mono: bool, data: seq<byte>): (r: Processed)
    requires ValidSetup(d)
    ensures r.Ok? ==> ValidSetup(r.d)
  {
    hide RestoreWeight, ByteChar;
    var ps := d.passes[..d.numTerms];
    if WeightCount(data, mono) <= d.numTerms then Ok(WithPasses(d, WeightsRead(ps, mono, data))) else Refused
  }

  function ProcessSamples(d: Setup, mono: bool, data: seq<byte>): (r: Processed)
    requires ValidSetup(d)
    ensures r.Ok? ==> ValidSetup(r.d)
  {
    hide SamplesRead;
    var (qs, stop) := SamplesRead(d.passes[..d.numTerms], mono, data, 0);
    SamplesReadShape(d.passes[..d.numTerms], mono, data, 0);
    if stop == |data| then Ok(WithPasses(d, qs)) else Refused
  }

  function ProcessEntropy(d: Setup, mono: bool, data: seq<byte>): (r: Processed)
    requires ValidSetup(d)
    ensures r.Ok? ==> ValidSetup(r.d)
  {
    hide EntropyAt;
    if |data| == (if mono then 6 else 12) then
      var (c0, c1) := EntropyRead(data, mono, d.c1);
      Ok(d.(c0 := c0, c1 := c1))
    else Refused
  }

  /** `process_metadata` for a chunk other than the bitstream. Chunks for features this model leaves out
      are passed over. */
  function Process(d: Setup, mono: bool, id: nat, data: seq<byte>): (r: Processed)
    requires ValidSetup(d)
    ensures r.Ok? ==> ValidSetup(r.d)
  {
    if id == ID_DECORR_TERMS then ProcessTerms(d, data)
    else if id == ID_DECORR_WEIGHTS then ProcessWeights(d, mono, data)
    else if id == ID_DECORR_SAMPLES then ProcessSamples(d, mono, data)
    else if id == ID_ENTROPY_VARS then ProcessEntropy(d, mono, data)
    else if id == ID_DUMMY || (6 <= id <= 0xd && id != 0xa) || id >= ID_OPTIONAL_DATA then Ok(d)
    else Refused
  }

  lemma {:induction false} SamplesReadShape(ps: seq<DecorrPass>, mono: bool, data: seq<byte>, at: nat)
    requires forall i :: 0 <= i < |ps| ==> ValidTerm(ps[i].term)
    ensures var qs := SamplesRead(ps, mono, data, at).0;
            && Shaped(qs)
            && forall i :: 0 <= i < |ps| ==> qs[i].term == ps[i].term && qs[i].delta == ps[i].delta
                                             && qs[i].weightA == ps[i].weightA && qs[i].weightB == ps[i].weightB
    decreases |ps|
  {
    hide SampleRead, SampleCount;
    if ps == [] {
    } else {
      var n := |ps| - 1;
      if at >= |data| {
        SamplesReadShape(ps[..n], mono, data, at);
      } else {
        SamplesReadShape(ps[..n], mono, data, at + 2 * SampleCount(ps[n].term, mono));
      }
    }
  }

  /** How the scan of a block ends: at its bitstream, with `length` bytes of it next; at the end of the
      chunks; or at a chunk that makes no sense. */
  datatype Scan = Ready(d: Setup, length: nat, rest: seq<byte>) | NoStream(d: Setup) | Invalid

  /** The loop of `unpack_init`. */
  function ScanChunks(s: seq<byte>, mono: bool, d: Setup): (r: Scan)
    requires ValidSetup(d)
    ensures r.Ready? ==> ValidSetup(r.d)
    decreases |s|
  {
    match NextChunk(s)
    case NoChunk => NoStream(d)
    case Chunk(id, length, data, oversized, rest) =>
      if id == ID_WV_BITSTREAM then Ready(d, length, rest)
      else if oversized && ID_DECORR_TERMS <= id <= ID_ENTROPY_VARS then Invalid
      else
        match Process(d, mono, id, data)
        case Refused => Invalid
        case Ok(d1) => ScanChunks(rest, mono, d1)
  }

  lemma FreshIsValid()
    ensures ValidSetup(FRESH)
  {
  }

  /** The scan of a block by a decoder that has just cleared its state. */
  function ScanBlock(s: seq<byte>, mono: bool): (r: Scan)
    ensures r.Ready? ==> ValidSetup(r.d)
  {
    hide ValidSetup, ScanChunks;
    FreshIsValid();
    ScanChunks(s, mono, FRESH)
  }

  /** One chunk of a scan. */
  lemma ScanOne(id: nat, data: seq<byte>, rest: seq<byte>, mono: bool, d: Setup)
    requires ValidSetup(d) && id < 0x40 && id != ID_WV_BITSTREAM && |data| <= READ_BUFFER
    requires Process(d, mono, id, data).Ok?
    ensures ScanChunks(ChunkBytes(id, data) + rest, mono, d) == ScanChunks(rest, mono, Process(d, mono, id, data).d)
  {
    hide Process, ChunkBytes, NextChunk;
    ChunkComesBack(id, data, rest);
  }

  /** A chunk the decoder may pass over, whatever its size. */
  lemma ScanOptional(id: nat, data: seq<byte>, rest: seq<byte>, mono: bool, d: Setup)
    requires ValidSetup(d) && ID_OPTIONAL_DATA <= id < 0x40 && |data| < 0x1ff_ffff
    ensures ScanChunks(ChunkBytes(id, data) + rest, mono, d) == ScanChunks(rest, mono, d)
  {
    hide ChunkBytes, NextChunk;
    ChunkComesBack(id, data, rest);
  }
}
