/** The decoder object that plays and seeks (jni/mpc/mpc_decoder.c lines 292-425 and 1180-1271), against the cursor of
    module MpcSeek. What parsing a frame reads, codewords and numbers alike, is a list of widths. */
module MpcPlayer {
  import opened Machine
  import opened MpcBits
  import opened MpcReader
  import opened MpcSeek

  function Sum(widths: seq<nat>): nat {
    if widths == [] then 0 else Sum(widths[..|widths| - 1]) + widths[|widths| - 1]
  }

  predicate Widths(widths: seq<nat>) {
    forall i :: 0 <= i < |widths| ==> 1 <= widths[i] <= 31
  }

  /** What the parse of each frame reads ahead of playing it. */
  predicate ScansFit(s: Stream, scans: seq<seq<nat>>) {
    && |s.starts| == |scans| + 1
    && forall i :: 0 <= i < |scans| ==> Widths(scans[i]) && s.starts[i] + JUMP_BITS + Sum(scans[i]) <= s.starts[i + 1]
  }

  /** The smallest power of two that lets the table span all frames. */
  method FindPower(frames: nat) returns (pwr: nat)
    ensures pwr == Power(frames, 0)
  {
    hide Mark;
    pwr := 0;
    while frames > Mark(TABLE_SIZE, pwr)
      invariant Power(frames, pwr) == Power(frames, 0)
      decreases frames - Mark(TABLE_SIZE, pwr)
    {
      MarkGrows(pwr);
      pwr := pwr + 1;
    }
  }

  lemma MarkGrows(pwr: nat)
    ensures Mark(TABLE_SIZE, pwr) < Mark(TABLE_SIZE, pwr + 1)
  {
  }

  lemma PlayIs(s: Stream, c: Cursor, pwr: nat, tail: nat)
    requires Good(s, c, pwr) && c.decoded < s.Frames()
    ensures var q := Passed(s, c, pwr);
            Play(s, c, pwr, tail) == if q.decoded == s.Frames() then q.(position := q.position + tail) else q
  {
    hide Passed, Good;
  }

  lemma PlayedOut(s: Stream, c: Cursor, pwr: nat, tail: nat)
    requires Good(s, c, pwr) && c.decoded >= s.Frames()
    ensures Play(s, c, pwr, tail) == c
  {
    hide Good;
  }

  lemma SmallStays(x: nat)
    requires x < TWO32
    ensures U32(x) == x
  {
  }

  class Player {
    const reader: Reader
    const overallFrames: nat
    ghost const stream: Stream
    var decodedFrames: nat
    const seekingTable: array<nat>
    const seekingPwr: nat
    var seekingTableFrames: nat
    var seekingWindow: u32
    var samplesToSkip: int

    ghost function Now(): Cursor
      reads this, reader, seekingTable
    {
      Cursor(decodedFrames, reader.Position(), seekingTable[..], seekingTableFrames)
    }

    ghost predicate Valid()
      reads this, reader, reader.speicher, seekingTable
    {
      && reader.Valid() && reader.file == stream.words && stream.starts != [] && overallFrames == stream.Frames()
      && Good(stream, Now(), seekingPwr)
      && (decodedFrames < overallFrames ==> reader.Ready())
    }

    /** `mpc_decoder_initialize`. */
    constructor (ghost stream: Stream, words: seq<u32>, frames: nat, start: nat)
      requires stream.Correct() && words == stream.words && frames == stream.Frames() && start == stream.starts[0]
      ensures Valid() && this.stream == stream && fresh(reader) && fresh(reader.speicher) && fresh(seekingTable)
      ensures seekingPwr == Power(frames, 0) && Now() == Start(stream, seekingPwr)
    {
      hide Good, Mark;
      this.stream := stream;
      overallFrames := frames;
      reader := new Reader(words);
      decodedFrames, seekingTableFrames, samplesToSkip := 0, 0, SYNTH_DELAY;
      seekingWindow := 32;
      var pwr := FindPower(frames);
      seekingPwr := pwr;
      seekingTable := new nat[TABLE_SIZE](i => 0);
      new;
      reader.Seek(start);
      seekingTable[0] := start;
      assert seekingTable[..] == Start(stream, seekingPwr).table;
      StartIsGood(stream, seekingPwr);
    }

    /** Lines 303-308 and 1242-1247. */
    method NoteFrame()
      requires Index(decodedFrames, seekingPwr) < seekingTable.Length && reader.Position() < TWO32
      modifies this`seekingTableFrames, seekingTable
      ensures Now() == Note(old(Now()), seekingPwr)
    {
      if seekingTableFrames < decodedFrames && OnMark(decodedFrames, seekingPwr) {
        seekingTable[Index(decodedFrames, seekingPwr)] := reader.BitsRead();
        seekingTableFrames := decodedFrames;
      }
    }

    /** What a parse of the frame reads. */
    method Parse(widths: seq<nat>)
      requires reader.Valid() && Widths(widths)
      modifies reader`dword, reader`pos, reader`zaehler, reader`wordsRead
      ensures reader.Valid() && reader.wordsRead >= old(reader.wordsRead)
      ensures reader.Position() == old(reader.Position()) + Sum(widths)
      ensures old(reader.Synced()) && reader.wordsRead < reader.loaded ==> reader.Synced()
    {
      hide Reader.Synced, Reader.Valid;
      var i := 0;
      while i < |widths|
        invariant 0 <= i <= |widths|
        invariant reader.Valid() && reader.wordsRead >= old(reader.wordsRead)
        invariant old(reader.Synced()) && reader.wordsRead < reader.loaded ==> reader.Synced()
        invariant reader.Position() == old(reader.Position()) + Sum(widths[..i])
      {
        assert widths[..i + 1][..i] == widths[..i];
        var _ := reader.BitstreamRead(widths[i]);
        i := i + 1;
      }
      assert widths[..i] == widths;
    }

    /** The reading part of the loop of mpc_decoder_seek_sample: jump info, the scale factors if the frame is near the
        one sought, and on to the end of the frame. */
    method SkipBits(near: bool, widths: seq<nat>)
      requires reader.Ready() && Widths(widths)
      requires reader.Position() + JUMP_BITS <= 32 * |reader.file| < TWO32
      requires var length := Field(reader.file, reader.Position(), JUMP_BITS);
               && JUMP_BITS + length <= 32 * HALF && Sum(widths) <= length
               && reader.Position() + JUMP_BITS + length <= 32 * |reader.file|
      modifies reader, reader.speicher
      ensures reader.Ready()
      ensures reader.Position() == old(reader.Position() + JUMP_BITS + Field(reader.file, reader.Position(), JUMP_BITS))
    {
      hide Field, Widths, Sum, Reader.Synced, Reader.Ready, Reader.BitsRead, Around, U32;
      var ring := reader.zaehler;
      ghost var w, end := reader.wordsRead, reader.Position() + JUMP_BITS + Field(reader.file, reader.Position(), JUMP_BITS);
      reader.ReadyParts();
      reader.AheadIsFile(JUMP_BITS);
      var fwdJumpInfo := reader.BitstreamRead(JUMP_BITS);
      var target := U32(fwdJumpInfo + reader.BitsRead());
      assert target == end by { SmallStays(end); }
      if near {
        Parse(widths);
      }
      var bits := U32(target - reader.BitsRead());
      assert reader.Position() + bits == end by { SmallStays(end - reader.Position()); }
      reader.BitstreamJump(bits);
      reader.UpdateBuffer(ring, w);
    }

    /** The body of that loop. */
    method SkipFrame(fwd: nat, widths: seq<nat>)
      requires Valid() && decodedFrames < fwd <= overallFrames && Widths(widths)
      requires stream.starts[decodedFrames] + JUMP_BITS + Sum(widths) <= stream.starts[decodedFrames + 1]
      modifies this`decodedFrames, this`seekingTableFrames, seekingTable, reader, reader.speicher
      ensures Valid() && Now() == Passed(stream, old(Now()), seekingPwr) && reader.Ready()
    {
      hide Good, Field, Index, Note, OnMark, Widths, Sum;
      ghost var c := Now();
      Bounds();
      NoteFrame();
      SkipBits(fwd <= U32(decodedFrames + seekingWindow), widths);
      decodedFrames := decodedFrames + 1;
      NoteSame(c, seekingPwr);
      PassKeeps(stream, c, seekingPwr);
    }

    /** `mpc_decoder_seek_sample`. */
    method SeekSample(dest: int, scans: seq<seq<nat>>)
      requires Valid() && ScansFit(stream, scans)
      modifies this, seekingTable, reader, reader.speicher
      ensures Valid()
      ensures Now() == SeekFrame(stream, old(Now()), seekingPwr, seekingWindow, Target(stream, dest))
      ensures dest >= 0 ==> samplesToSkip == 481 + dest % 1152
      ensures seekingWindow == old(seekingWindow)
    {
      hide Good, Index, OnMark, TableTrue, Passed, Sum, Widths, Reader.Synced, Holds;
      var fwd := ToFrame(dest);
      RewindTo(fwd);
      ghost var c := Now();
      while decodedFrames < fwd
        invariant Valid() && decodedFrames <= fwd && seekingWindow == old(seekingWindow)
        invariant dest >= 0 ==> samplesToSkip == SYNTH_DELAY + dest % FRAME_LENGTH
        invariant SkipTo(stream, c, seekingPwr, fwd) == SkipTo(stream, Now(), seekingPwr, fwd)
      {
        SkipFrame(fwd, scans[decodedFrames]);
      }
    }

    /** Lines 1213-1220. */
    method ToFrame(dest: int) returns (fwd: nat)
      requires stream.starts != [] && overallFrames == stream.Frames()
      modifies this`samplesToSkip
      ensures fwd == Target(stream, dest)
      ensures dest >= 0 ==> samplesToSkip == 481 + dest % 1152
    {
      var q := if dest >= 0 then dest / FRAME_LENGTH else -(-dest / FRAME_LENGTH);
      fwd := Min(U32(q), overallFrames);
      samplesToSkip := U32(SYNTH_DELAY + (dest - q * FRAME_LENGTH));
    }

    /** Lines 1227-1235. */
    method RewindTo(fwd: nat)
      requires Valid() && fwd <= overallFrames
      modifies this`decodedFrames, reader, reader.speicher
      ensures Valid() && decodedFrames <= fwd
      ensures Index(old(Now()).noted, seekingPwr) < |old(Now()).table|
      ensures Now() == Rewind(old(Now()), seekingPwr, seekingWindow, fwd)
    {
      hide Good, Index, Mark, TableTrue;
      GoodBounds(stream, Now(), seekingPwr);
      RewindKeeps(stream, Now(), seekingPwr, seekingWindow, fwd);
      if seekingTableFrames > decodedFrames || fwd < decodedFrames {
        decodedFrames := 0;
        if fwd > seekingWindow {
          decodedFrames := Mark(Index(fwd - seekingWindow, seekingPwr), seekingPwr);
        }
        if decodedFrames > seekingTableFrames {
          decodedFrames := seekingTableFrames;
        }
        IndexMono(decodedFrames, seekingTableFrames, seekingPwr);
        var fpos := seekingTable[Index(decodedFrames, seekingPwr)];
        assert fpos == stream.starts[decodedFrames];
        stream.Rising(decodedFrames);
        reader.Seek(fpos);
      }
    }

    /** One turn of `mpc_decoder_decode`, for frames as long as their jump info says: whether a frame was played. Behind
        the last one, what is read to find the exact length of the sound. */
    method Decode(widths: seq<nat>, tail: seq<nat>) returns (played: bool, frameWasValid: bool)
      requires Valid() && Widths(widths) && Widths(tail)
      requires decodedFrames < overallFrames
               ==> stream.starts[decodedFrames] + JUMP_BITS + Sum(widths) == stream.starts[decodedFrames + 1]
      modifies this, seekingTable, reader, reader.speicher
      ensures Valid() && played == (old(decodedFrames) < overallFrames) && (played ==> frameWasValid)
      ensures Now() == Play(stream, old(Now()), seekingPwr, Sum(tail))
      ensures seekingWindow == old(seekingWindow)
    {
      hide Good, Index, OnMark, TableTrue, Sum, Widths, Holds, Field, Note, Play;
      if decodedFrames >= overallFrames {
        PlayedOut(stream, Now(), seekingPwr, Sum(tail));
        return false, false;
      }
      ghost var c := Now();
      Bounds();
      NoteFrame();
      NoteSame(c, seekingPwr);
      PassKeeps(stream, c, seekingPwr);
      frameWasValid := PlayBits(widths, tail, decodedFrames + 1 == overallFrames);
      decodedFrames := decodedFrames + 1;
      played := true;
      PlayIs(stream, c, seekingPwr, Sum(tail));
    }

    /** The reading part of playing a frame, and of finding the length of the sound behind the last. */
    method PlayBits(widths: seq<nat>, tail: seq<nat>, last: bool) returns (frameWasValid: bool)
      requires reader.Ready() && Widths(widths) && Widths(tail)
      requires reader.Position() + JUMP_BITS + Sum(widths) <= 32 * |reader.file| < TWO32
      requires JUMP_BITS + Sum(widths) <= 32 * HALF
      requires Field(reader.file, reader.Position(), JUMP_BITS) == Sum(widths)
      modifies reader, reader.speicher
      ensures reader.Valid() && frameWasValid && (!last ==> reader.Ready())
      ensures reader.Position() == old(reader.Position()) + JUMP_BITS + Sum(widths) + if last then Sum(tail) else 0
    {
      hide Field, Widths, Sum, Reader.Synced, Reader.Ready, Reader.BitsRead, Around, U32;
      var ring := reader.zaehler;
      ghost var w := reader.wordsRead;
      reader.ReadyParts();
      reader.AheadIsFile(JUMP_BITS);
      var fwdJumpInfo := reader.BitstreamRead(JUMP_BITS);
      var frameBitCnt := reader.BitsRead();
      Parse(widths);
      frameWasValid := U32(reader.BitsRead() - frameBitCnt) == fwdJumpInfo;
      SmallStays(Sum(widths));
      if last {
        Parse(tail);
      }
      reader.UpdateBuffer(ring, w);
    }

    /** The frame at the cursor lies in the file and, once the ring is ready, in the ring. */
    lemma Bounds()
      requires Valid() && decodedFrames < overallFrames
      ensures Index(decodedFrames, seekingPwr) < seekingTable.Length
      ensures reader.Position() == stream.starts[decodedFrames]
      ensures reader.Position() + JUMP_BITS <= stream.starts[decodedFrames + 1] <= 32 * |stream.words| < TWO32
      ensures stream.starts[decodedFrames + 1] <= reader.Position() + 32 * HALF
      ensures Field(stream.words, reader.Position(), JUMP_BITS)
              == stream.starts[decodedFrames + 1] - reader.Position() - JUMP_BITS
    {
      hide Field, Index;
      GoodBounds(stream, Now(), seekingPwr);
      GoodIndex(stream, Now(), seekingPwr, decodedFrames);
      assert stream.FrameCorrect(decodedFrames);
    }
  }
}
