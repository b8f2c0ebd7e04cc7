/** Playing and seeking in a Musepack stream (jni/mpc/mpc_decoder.c lines 292-388 and 1180-1271): a table of
    frame positions filled in on the way, jumps to its entries, and frames skipped by their jump info. */
module MpcSeek {
  import opened Machine
  import opened Arithmetic
  import opened Bits
  import opened MpcBits
  import opened MpcReader

  const TABLE_SIZE := 256
  const FRAME_LENGTH := 1152
  const SYNTH_DELAY := 481
  const JUMP_BITS := 20

  // ---------------------------------------------------------------- the stream

  /** The words from the header on, and where each frame starts; behind the last start the stream's tail. */
  datatype Stream = Stream(words: seq<u32>, starts: seq<nat>) {
    function Frames(): int {
      |starts| - 1
    }

    /** Each frame starts with the length of what follows, and is no longer than half the ring. */
    predicate Correct() {
      && starts != [] && starts[0] <= 32 * |words| < TWO32
      && forall i :: 0 <= i < Frames() ==> FrameCorrect(i)
    }

    predicate FrameCorrect(i: nat)
      requires i < Frames()
    {
      && starts[i] + 20 <= starts[i + 1] <= 32 * |words|
      && starts[i + 1] - starts[i] <= 32 * HALF
      && Field(words, starts[i], 20) == starts[i + 1] - starts[i] - 20
    }

    lemma {:induction false} Rising(i: nat)
      requires Correct() && i <= Frames()
      ensures starts[0] + 20 * i <= starts[i] <= 32 * |words|
    {
      hide FrameCorrect;
      if i == 0 {
      } else {
        Rising(i - 1);
        assert FrameCorrect(i - 1);
        FrameRises(i - 1);
      }
    }

    lemma FrameRises(i: nat)
      requires i < Frames() && FrameCorrect(i)
      ensures starts[i] + 20 <= starts[i + 1] <= 32 * |words|
    {
    }
  }

  // ---------------------------------------------------------------- the cursor

  /** `DecodedFrames`, the bit position, `seeking_table` and `seeking_table_frames`. */
  datatype Cursor = Cursor(decoded: nat, position: nat, table: seq<nat>, noted: nat)

  /** `1 << seeking_pwr`. */
  function Step(pwr: nat): (s: nat)
    ensures s >= 1
  {
    Pow2(pwr)
  }

  /** `x >> seeking_pwr`, `x & (-1 << seeking_pwr)` and whether the low bits are clear. */
  function Index(x: nat, pwr: nat): nat {
    hide Step;
    x / Step(pwr)
  }

  function Mark(i: nat, pwr: nat): nat {
    i * Step(pwr)
  }

  predicate OnMark(x: nat, pwr: nat) {
    hide Step;
    x % Step(pwr) == 0
  }

  /** Lines 303-308 and 1242-1247: note where this frame starts. */
  function Note(c: Cursor, pwr: nat): Cursor
    requires Index(c.decoded, pwr) < |c.table|
  {
    if c.noted < c.decoded && OnMark(c.decoded, pwr)
    then c.(table := c.table[Index(c.decoded, pwr) := c.position], noted := c.decoded)
    else c
  }

  /** A frame passed, whether skipped or played. */
  function Pass(words: seq<u32>, c: Cursor, pwr: nat): Cursor
    requires Index(c.decoded, pwr) < |c.table| && c.position + JUMP_BITS <= 32 * |words|
  {
    var n := Note(c, pwr);
    n.(position := c.position + JUMP_BITS + Field(words, c.position, JUMP_BITS), decoded := c.decoded + 1)
  }

  /** Lines 1227-1235: back to an entry of the table. */
  function Rewind(c: Cursor, pwr: nat, window: nat, fwd: nat): Cursor
    requires Index(c.noted, pwr) < |c.table|
  {
    if c.noted > c.decoded || fwd < c.decoded then
      var masked := if fwd > window then Mark(Index(fwd - window, pwr), pwr) else 0;
      var frame := Min(masked, c.noted);
      IndexMono(frame, c.noted, pwr);
      c.(decoded := frame, position := c.table[Index(frame, pwr)])
    else c
  }

  /** The table's entries up to `noted` are the true starts of their frames, and the next mark is not far off. */
  predicate Good(s: Stream, c: Cursor, pwr: nat) {
    && s.Correct() && |c.table| == TABLE_SIZE && s.Frames() <= Mark(TABLE_SIZE, pwr)
    && c.decoded <= s.Frames() && (c.decoded < s.Frames() ==> c.position == s.starts[c.decoded])
    && OnMark(c.noted, pwr) && (c.noted == 0 || c.noted < s.Frames())
    && c.decoded <= c.noted + Step(pwr)
    && TableTrue(s, c, pwr)
  }

  predicate TableTrue(s: Stream, c: Cursor, pwr: nat)
  {
    forall i: nat :: i < |c.table| && Mark(i, pwr) <= c.noted && Mark(i, pwr) <= s.Frames()
                     ==> c.table[i] == s.starts[Mark(i, pwr)]
  }

  /** `while (OverallFrames > (SEEKING_TABLE_SIZE << seeking_pwr)) seeking_pwr++`. */
  function Power(frames: nat, pwr: nat): (p: nat)
    ensures p >= pwr && frames <= Mark(TABLE_SIZE, p)
    ensures p > pwr ==> frames > Mark(TABLE_SIZE, p - 1)
    decreases frames - Mark(TABLE_SIZE, pwr)
  {
    if frames > Mark(TABLE_SIZE, pwr) then Power(frames, pwr + 1) else pwr
  }

  // ---------------------------------------------------------------- marks

  lemma IndexMono(a: nat, b: nat, pwr: nat)
    requires a <= b
    ensures Index(a, pwr) <= Index(b, pwr)
  {
    DivMono(a, b, Step(pwr));
  }

  lemma DivMono(a: nat, b: nat, d: nat)
    requires a <= b && d > 0
    ensures a / d <= b / d
  {
    Quotient(a, d);
    Quotient(b, d);
    var x, y := a / d, b / d;
    if y < x {
      MulUp(y + 1, x, d);
      MulSplit(y, 1, d);
      assert false;
    }
  }

  /** A number on a mark is the mark of its index. */
  lemma MarkOfIndex(x: nat, pwr: nat)
    ensures Mark(Index(x, pwr), pwr) <= x < Mark(Index(x, pwr), pwr) + Step(pwr)
    ensures OnMark(x, pwr) ==> Mark(Index(x, pwr), pwr) == x
  {
    hide Step;
    Quotient(x, Step(pwr));
  }

  lemma MarksAre(i: nat, pwr: nat)
    ensures OnMark(Mark(i, pwr), pwr) && Index(Mark(i, pwr), pwr) == i && Mark(0, pwr) == 0
  {
    hide Step;
    DivSum(i, Step(pwr), 0);
  }

  /** Marks of different indices are at least a step apart. */
  lemma MarksApart(i: nat, j: nat, pwr: nat)
    requires i < j
    ensures Mark(i, pwr) + Step(pwr) <= Mark(j, pwr)
  {
    hide Step;
    MulUp(i + 1, j, Step(pwr));
    MulSplit(i, 1, Step(pwr));
  }

  lemma IndexBelow(x: nat, n: nat, pwr: nat)
    requires x < Mark(n, pwr)
    ensures Index(x, pwr) < n
  {
    hide Mark, Index, Step;
    MarkOfIndex(x, pwr);
    if Index(x, pwr) > n {
      MarksApart(n, Index(x, pwr), pwr);
      assert false;
    }
  }

  /** A mark behind `noted` and no more than a step ahead is the next one. */
  lemma NextMark(x: nat, noted: nat, pwr: nat)
    requires OnMark(x, pwr) && OnMark(noted, pwr) && noted < x <= noted + Step(pwr)
    ensures x == noted + Step(pwr) && Index(x, pwr) == Index(noted, pwr) + 1
  {
    hide Mark, Index, Step, OnMark;
    MarkOfIndex(x, pwr);
    MarkOfIndex(noted, pwr);
    var i, j := Index(noted, pwr), Index(x, pwr);
    if j <= i {
      if j < i {
        MarksApart(j, i, pwr);
      }
      assert false;
    }
    MarksApart(i, j, pwr);
    if j > i + 1 {
      MarksApart(i, i + 1, pwr);
      MarksApart(i + 1, j, pwr);
      StepPositive(pwr);
      assert false;
    }
  }

  lemma StepPositive(pwr: nat)
    ensures Step(pwr) >= 1
  {
  }

  // ---------------------------------------------------------------- every step keeps it

  lemma GoodIndex(s: Stream, c: Cursor, pwr: nat, frame: nat)
    requires Good(s, c, pwr) && (frame < s.Frames() || frame <= c.noted)
    ensures Index(frame, pwr) < |c.table|
  {
    hide Mark, Index, Step, OnMark, TableTrue;
    if frame < s.Frames() {
      IndexBelow(frame, TABLE_SIZE, pwr);
    } else {
      MarksAre(0, pwr);
      MarksAre(1, pwr);
      MarksApart(0, TABLE_SIZE, pwr);
      IndexBelow(0, TABLE_SIZE, pwr);
    }
  }

  lemma NoteKeeps(s: Stream, c: Cursor, pwr: nat)
    requires Good(s, c, pwr) && c.decoded < s.Frames() && Index(c.decoded, pwr) < |c.table|
    ensures Good(s, Note(c, pwr), pwr) && c.decoded + 1 <= Note(c, pwr).noted + Step(pwr)
  {
    hide Mark, Index, Step, OnMark;
    StepPositive(pwr);
    var n := Note(c, pwr);
    if c.noted < c.decoded && OnMark(c.decoded, pwr) {
      NextMark(c.decoded, c.noted, pwr);
      var k := Index(c.decoded, pwr);
      MarkOfIndex(c.decoded, pwr);
      MarkOfIndex(c.noted, pwr);
      forall i: nat | i < |n.table| && Mark(i, pwr) <= n.noted && Mark(i, pwr) <= s.Frames()
        ensures n.table[i] == s.starts[Mark(i, pwr)]
      {
        if i > k {
          MarksApart(k, i, pwr);
          assert false;
        } else if i < k {
          MarksApart(i, k, pwr);
        }
      }
    } else if c.decoded == c.noted + Step(pwr) {
      MarkOfIndex(c.noted, pwr);
      MarksAre(Index(c.noted, pwr) + 1, pwr);
      MarkNext(Index(c.noted, pwr), pwr);
      assert false;
    }
  }

  lemma MarkNext(i: nat, pwr: nat)
    ensures Mark(i + 1, pwr) == Mark(i, pwr) + Step(pwr)
  {
    hide Step;
    MulSplit(i, 1, Step(pwr));
  }

  /** Passing a frame leads to the start of the next. */
  lemma PassKeeps(s: Stream, c: Cursor, pwr: nat)
    requires Good(s, c, pwr) && c.decoded < s.Frames()
    ensures Index(c.decoded, pwr) < |c.table| && c.position + JUMP_BITS <= 32 * |s.words|
    ensures var q := Pass(s.words, c, pwr);
            Good(s, q, pwr) && q.decoded == c.decoded + 1 && q.position == s.starts[q.decoded]
  {
    hide Mark, Index, Step, OnMark, Field, TableTrue, Note;
    GoodIndex(s, c, pwr, c.decoded);
    NoteKeeps(s, c, pwr);
    assert s.FrameCorrect(c.decoded);
    NoteSame(c, pwr);
    var n, q := Note(c, pwr), Pass(s.words, c, pwr);
    TableSame(s, n, q, pwr);
  }

  lemma NoteSame(c: Cursor, pwr: nat)
    requires Index(c.decoded, pwr) < |c.table|
    ensures Note(c, pwr).decoded == c.decoded && Note(c, pwr).position == c.position
  {
  }

  lemma TableSame(s: Stream, c: Cursor, q: Cursor, pwr: nat)
    requires s.starts != [] && TableTrue(s, c, pwr) && q.table == c.table && q.noted == c.noted
    ensures TableTrue(s, q, pwr)
  {
  }

  lemma RewindKeeps(s: Stream, c: Cursor, pwr: nat, window: nat, fwd: nat)
    requires Good(s, c, pwr) && fwd <= s.Frames()
    ensures Index(c.noted, pwr) < |c.table|
    ensures var q := Rewind(c, pwr, window, fwd);
            && Good(s, q, pwr) && q.decoded <= fwd
            && (q.position == s.starts[q.decoded] || (q == c && c.decoded == fwd == s.Frames() && c.noted <= c.decoded))
  {
    hide Mark, Index, Step, OnMark, TableTrue;
    GoodIndex(s, c, pwr, c.noted);
    if c.noted > c.decoded || fwd < c.decoded {
      var masked := if fwd > window then Mark(Index(fwd - window, pwr), pwr) else 0;
      MarkOfIndex(if fwd > window then fwd - window else 0, pwr);
      var frame := Min(masked, c.noted);
      IndexMono(frame, c.noted, pwr);
      MarksAre(0, pwr);
      MarksAre(if fwd > window then Index(fwd - window, pwr) else 0, pwr);
      MarkOfIndex(frame, pwr);
      EntryTrue(s, c, pwr, Index(frame, pwr));
      var q := Rewind(c, pwr, window, fwd);
      TableSame(s, c, q, pwr);
    }
  }

  lemma EntryTrue(s: Stream, c: Cursor, pwr: nat, i: nat)
    requires s.starts != [] && TableTrue(s, c, pwr) && i < |c.table|
    requires Mark(i, pwr) <= c.noted && Mark(i, pwr) <= s.Frames()
    ensures c.table[i] == s.starts[Mark(i, pwr)]
  {
  }

  // ---------------------------------------------------------------- whole calls

  /** A frame passed from a good cursor. */
  function Passed(s: Stream, c: Cursor, pwr: nat): (q: Cursor)
    requires Good(s, c, pwr) && c.decoded < s.Frames()
    ensures Good(s, q, pwr) && q.decoded == c.decoded + 1 && q.position == s.starts[q.decoded]
  {
    hide Good, Pass, Index;
    GoodBounds(s, c, pwr);
    PassKeeps(s, c, pwr);
    Pass(s.words, c, pwr)
  }

  /** The loop of mpc_decoder_seek_sample. */
  function SkipTo(s: Stream, c: Cursor, pwr: nat, fwd: nat): (q: Cursor)
    requires Good(s, c, pwr) && c.decoded <= fwd <= s.Frames()
    ensures Good(s, q, pwr) && q.decoded == fwd
    ensures if c.decoded < fwd then q.position == s.starts[fwd] else q == c
    decreases fwd - c.decoded
  {
    hide Good, Passed;
    GoodBounds(s, c, pwr);
    if c.decoded == fwd then c else SkipTo(s, Passed(s, c, pwr), pwr, fwd)
  }

  lemma GoodBounds(s: Stream, c: Cursor, pwr: nat)
    requires Good(s, c, pwr)
    ensures s.Correct() && |s.starts| > 0 && |c.table| == TABLE_SIZE && c.decoded <= s.Frames()
    ensures c.decoded < s.Frames() ==> c.position == s.starts[c.decoded]
    ensures TableTrue(s, c, pwr)
  {
  }

  /** `(mpc_uint32_t) (destsample / MPC_FRAME_LENGTH)`: the quotient rounded towards zero, as an unsigned number. */
  function FrameOf(dest: int): u32 {
    U32(if dest >= 0 then dest / FRAME_LENGTH else -(-dest / FRAME_LENGTH))
  }

  /** That, cut to the number of frames. */
  function Target(s: Stream, dest: int): (fwd: nat)
    requires s.starts != []
    ensures fwd <= s.Frames()
  {
    Min(FrameOf(dest), s.Frames())
  }

  function SeekFrame(s: Stream, c: Cursor, pwr: nat, window: nat, fwd: nat): (q: Cursor)
    requires Good(s, c, pwr) && fwd <= s.Frames()
    ensures Good(s, q, pwr) && q.decoded == fwd
    ensures fwd < s.Frames() || c.decoded < s.Frames() ==> q.position == s.starts[fwd]
  {
    hide Good, Rewind, Index;
    GoodBounds(s, c, pwr);
    RewindKeeps(s, c, pwr, window, fwd);
    SkipTo(s, Rewind(c, pwr, window, fwd), pwr, fwd)
  }

  /** mpc_decoder_decode, and how many bits behind the last frame it reads. */
  function Play(s: Stream, c: Cursor, pwr: nat, tail: nat): (q: Cursor)
    requires Good(s, c, pwr)
    ensures Good(s, q, pwr)
    ensures q.decoded == Min(c.decoded + 1, s.Frames())
    ensures q.decoded < s.Frames() ==> q.position == s.starts[q.decoded]
  {
    hide Passed, Index, TableTrue;
    if c.decoded >= s.Frames() then c
    else
      var q := Passed(s, c, pwr);
      var r := if q.decoded == s.Frames() then q.(position := q.position + tail) else q;
      TableSame(s, q, r, pwr);
      r
  }

  /** What the application asks of the decoder. */
  datatype Command = PlayFrame(tail: nat) | SeekSample(dest: int)

  function Do(s: Stream, c: Cursor, pwr: nat, window: nat, command: Command): (q: Cursor)
    requires Good(s, c, pwr)
    ensures Good(s, q, pwr)
  {
    match command
    case PlayFrame(tail) => Play(s, c, pwr, tail)
    case SeekSample(dest) => SeekFrame(s, c, pwr, window, Target(s, dest))
  }

  function Run(s: Stream, c: Cursor, pwr: nat, window: nat, commands: seq<Command>): (q: Cursor)
    requires Good(s, c, pwr)
    ensures Good(s, q, pwr)
    decreases |commands|
  {
    if commands == [] then c else Run(s, Do(s, c, pwr, window, commands[0]), pwr, window, commands[1..])
  }

  /** The cursor mpc_decoder_initialize leaves. */
  function Start(s: Stream, pwr: nat): Cursor
    requires s.starts != []
  {
    Cursor(0, s.starts[0], seq(TABLE_SIZE, i => if i == 0 then s.starts[0] else 0), 0)
  }

  lemma StartIsGood(s: Stream, pwr: nat)
    requires s.Correct() && s.Frames() <= Mark(TABLE_SIZE, pwr)
    ensures Good(s, Start(s, pwr), pwr)
  {
    hide Step, Mark, OnMark;
    MarksAre(0, pwr);
    var c := Start(s, pwr);
    forall i: nat | i < |c.table| && Mark(i, pwr) <= 0
      ensures c.table[i] == s.starts[Mark(i, pwr)]
    {
      if i > 0 {
        MarksApart(0, i, pwr);
        StepPositive(pwr);
        assert false;
      }
    }
  }

  /** After any run of playing and seeking: a seek ends at the frame asked for, at that frame's true start, and every
      entry of the table is a true start. */
  lemma EverySeekLands(s: Stream, window: nat, commands: seq<Command>, dest: int)
    requires s.Correct()
    ensures var pwr := Power(s.Frames(), 0);
            Good(s, Start(s, pwr), pwr)
            && var c := Run(s, Start(s, pwr), pwr, window, commands);
               var q := Do(s, c, pwr, window, SeekSample(dest));
               && q.decoded == Min(FrameOf(dest), s.Frames())
               && (q.decoded < s.Frames() || c.decoded < s.Frames() ==> q.position == s.starts[q.decoded])
               && TableTrue(s, q, pwr)
  {
    hide *;
    CorrectParts(s);
    var pwr := Power(s.Frames(), 0);
    StartIsGood(s, pwr);
    var c := Run(s, Start(s, pwr), pwr, window, commands);
    DoSeek(s, c, pwr, window, dest);
    TargetIs(s, dest);
    GoodBounds(s, c, pwr);
    GoodBounds(s, SeekFrame(s, c, pwr, window, Target(s, dest)), pwr);
  }

  lemma CorrectParts(s: Stream)
    requires s.Correct()
    ensures s.starts != [] && s.Frames() >= 0
  {
  }

  lemma TargetIs(s: Stream, dest: int)
    requires s.Correct()
    ensures Target(s, dest) == Min(FrameOf(dest), s.Frames())
  {
  }

  lemma DoSeek(s: Stream, c: Cursor, pwr: nat, window: nat, dest: int)
    requires Good(s, c, pwr)
    ensures s.starts != []
    ensures Do(s, c, pwr, window, SeekSample(dest)) == SeekFrame(s, c, pwr, window, Target(s, dest))
  {
  }

  /** The frame asked for is the one of the sample, if it is a frame number at all. */
  lemma FrameOfSample(dest: nat)
    ensures dest < TWO32 * 1152 ==> FrameOf(dest) == dest / 1152
  {
  }

  /** A seek to before the beginning: less than a frame before it still ends at the first frame; otherwise the quotient
      wraps, and the seek ends behind the last frame if and only if what it wraps to is no smaller than their number. */
  lemma NegativeSeek(s: Stream, dest: int)
    requires s.Correct() && dest < 0
    ensures var back := -dest / 1152;
            && FrameOf(dest) == (if back % TWO32 == 0 then 0 else TWO32 - back % TWO32)
            && (Target(s, dest) == s.Frames() <==> (back % TWO32 != 0 && TWO32 - back % TWO32 >= s.Frames()) || s.Frames() == 0)
            && (Target(s, dest) == 0 <==> back % TWO32 == 0 || s.Frames() == 0)
    ensures -1152 < dest ==> Target(s, dest) == 0
    ensures -1152 * TWO31 <= dest <= -1152 ==> Target(s, dest) == s.Frames()
  {
    var back := -dest / 1152;
    Negated(back);
    if -1152 * TWO31 <= dest <= -1152 {
      assert 1 <= back <= TWO31;
      s.Rising(s.Frames());
    }
  }

  lemma Negated(x: int)
    requires x >= 0
    ensures U32(-x) == if x % TWO32 == 0 then 0 else TWO32 - x % TWO32
  {
    var q, r := x / TWO32, x % TWO32;
    assert x == q * TWO32 + r;
    assert -x == (-q - 1) * TWO32 + (TWO32 - r);
  }
}
