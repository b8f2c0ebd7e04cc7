/** The ring buffer between decoder and audio callback (jni/std_audio.cpp). Everything between locking the mutex and
    unlocking it, or waiting on its condition, is one step; a run is any sequence of steps of the two threads. */
module AudioRing {
  import opened Machine

  /** `cbbuf`, `cbstart` and `cbend`; cbstart is -1 once the player has been stopped. */
  datatype Ring = Ring(buf: seq<byte>, start: int, end: int) {
    predicate Valid() {
      |buf| > 0 && -1 <= start < |buf| && 0 <= end < |buf|
    }

    predicate Running() {
      Valid() && start >= 0
    }

    /** `get_free_bytes`. */
    function Free(): (n: nat)
      requires Running()
      ensures n <= |buf|
    {
      if end >= start then |buf| - (end - start) else start - end
    }

    /** The bytes waiting for the callback, in order. */
    function Buffered(): (s: seq<byte>)
      requires Running()
      ensures |s| == |buf| - Free()
    {
      if end >= start then buf[start..end] else buf[start..] + buf[..end]
    }
  }

  /** `memcpy (cbbuf + at, data, |data|)`. */
  function Put(buf: seq<byte>, at: nat, data: seq<byte>): (r: seq<byte>)
    requires at + |data| <= |buf|
    ensures |r| == |buf|
    ensures r[at..at + |data|] == data && r[..at] == buf[..at] && r[at + |data|..] == buf[at + |data|..]
  {
    buf[..at] + data + buf[at + |data|..]
  }

  /** Lines 279-290 of std_audio.cpp. */
  function Accept(r: Ring, data: seq<byte>): (q: Ring)
    requires r.Running() && |data| < r.Free()
  {
    var k := |r.buf| - r.end;
    if k > |data| then Ring(Put(r.buf, r.end, data), r.start, r.end + |data|)
    else if k < |data| then Ring(Put(Put(r.buf, r.end, data[..k]), 0, data[k..]), r.start, |data| - k)
    else Ring(Put(r.buf, r.end, data), r.start, 0)
  }

  /** Lines 335-347 of std_audio.cpp: the bytes handed to the audio track, and the ring without them. */
  function Deliver(r: Ring, size: nat): (q: (Ring, seq<byte>))
    requires r.Running() && 0 < size <= |r.Buffered()|
  {
    var k := |r.buf| - r.start;
    if k > size then (r.(start := r.start + size), r.buf[r.start..r.start + size])
    else if k < size then (r.(start := size - k), r.buf[r.start..] + r.buf[..size - k])
    else (r.(start := 0), r.buf[r.start..])
  }

  // ---------------------------------------------------------------- one step

  /** Equal indices mean an empty buffer, never a full one. */
  lemma EqualMeansEmpty(r: Ring)
    requires r.Running()
    ensures r.start == r.end <==> r.Buffered() == []
    ensures |r.Buffered()| < |r.buf|
  {
  }

  lemma AcceptAppends(r: Ring, data: seq<byte>)
    requires r.Running() && |data| < r.Free()
    ensures var q := Accept(r, data);
            q.Running() && |q.buf| == |r.buf| && q.Buffered() == r.Buffered() + data
  {
    var k := |r.buf| - r.end;
    if r.end < r.start {
      AcceptBelow(r, data);
    } else if k > |data| {
      AcceptAhead(r, data);
    } else if k < |data| {
      AcceptAround(r, data);
    } else {
      var q := Accept(r, data);
      assert q.buf[r.start..] == q.buf[..r.end][r.start..] + q.buf[r.end..r.end + |data|];
    }
  }

  lemma AcceptBelow(r: Ring, data: seq<byte>)
    requires r.Running() && r.end < r.start && |data| < r.Free()
    ensures var q := Accept(r, data);
            q.Running() && |q.buf| == |r.buf| && q.Buffered() == r.Buffered() + data
  {
    var q := Accept(r, data);
    assert q.buf[r.start..] == q.buf[r.end + |data|..][r.start - q.end..] == r.buf[r.start..];
    assert q.buf[..q.end] == q.buf[..r.end] + q.buf[r.end..r.end + |data|];
    assert r.buf[r.start..] + (r.buf[..r.end] + data) == r.buf[r.start..] + r.buf[..r.end] + data;
  }

  lemma AcceptAhead(r: Ring, data: seq<byte>)
    requires r.Running() && r.start <= r.end && |data| < r.Free() && |data| < |r.buf| - r.end
    ensures var q := Accept(r, data);
            q.Running() && |q.buf| == |r.buf| && q.Buffered() == r.Buffered() + data
  {
    var q := Accept(r, data);
    assert q.buf[r.start..q.end] == q.buf[..r.end][r.start..] + q.buf[r.end..r.end + |data|];
  }

  lemma AcceptAround(r: Ring, data: seq<byte>)
    requires r.Running() && r.start <= r.end && |data| < r.Free() && |data| > |r.buf| - r.end
    ensures var q := Accept(r, data);
            q.Running() && |q.buf| == |r.buf| && q.Buffered() == r.Buffered() + data
  {
    hide Put;
    var k := |r.buf| - r.end;
    var p := Put(r.buf, r.end, data[..k]);
    PutLast(r.buf, r.start, r.end, data[..k]);
    PutFirst(p, data[k..], r.start);
    assert r.buf[r.start..r.end] + data[..k] + data[k..] == r.buf[r.start..r.end] + data;
  }

  lemma PutLast(buf: seq<byte>, start: nat, end: nat, data: seq<byte>)
    requires start <= end && end + |data| == |buf|
    ensures Put(buf, end, data)[start..] == buf[start..end] + data
  {
  }

  lemma PutFirst(buf: seq<byte>, data: seq<byte>, start: nat)
    requires |data| <= start <= |buf|
    ensures Put(buf, 0, data)[start..] == buf[start..] && Put(buf, 0, data)[..|data|] == data
  {
  }

  lemma DeliverTakes(r: Ring, size: nat)
    requires r.Running() && 0 < size <= |r.Buffered()|
    ensures var (q, out) := Deliver(r, size);
            q.Running() && q.buf == r.buf && |out| == size && r.Buffered() == out + q.Buffered()
  {
    var k := |r.buf| - r.start;
    if r.end >= r.start {
      assert r.buf[r.start..r.end] == r.buf[r.start..r.start + size] + r.buf[r.start + size..r.end];
    } else if k > size {
      DeliverAhead(r, size);
    } else {
      assert r.buf[..r.end] == r.buf[..size - k] + r.buf[size - k..r.end];
      assert r.buf[r.start..] + (r.buf[..size - k] + r.buf[size - k..r.end])
             == r.buf[r.start..] + r.buf[..size - k] + r.buf[size - k..r.end];
    }
  }

  lemma DeliverAhead(r: Ring, size: nat)
    requires r.Running() && r.end < r.start && 0 < size < |r.buf| - r.start
    ensures var (q, out) := Deliver(r, size);
            q.Running() && q.buf == r.buf && |out| == size && r.Buffered() == out + q.Buffered()
  {
    var a, b, c := r.buf[r.start..r.start + size], r.buf[r.start + size..], r.buf[..r.end];
    assert r.buf[r.start..] == a + b;
    assert a + b + c == a + (b + c);
  }

  // ---------------------------------------------------------------- runs

  /** What the two threads and the player's controls can do: the decoder tries to write, the audio track asks for
      size bytes, the player stops. */
  datatype Action = Write(data: seq<byte>) | Callback(size: nat) | Stop

  /** The ring, every byte `libmediacb_write` has accepted, every byte the callback has delivered. */
  datatype Player = Player(ring: Ring, accepted: seq<byte>, delivered: seq<byte>)

  /** The decoder's thread gets past its waiting loop. */
  predicate Ready(r: Ring, count: nat)
    requires r.Running()
  {
    count < r.Free()
  }

  function Step(s: Player, a: Action): Player
    requires s.ring.Valid()
  {
    var r := s.ring;
    if r.start < 0 then s
    else
      match a
      case Write(data) =>
        if |data| <= |r.buf| && Ready(r, |data|) then
          s.(ring := Accept(r, data), accepted := s.accepted + data)
        else s
      case Callback(size) =>
        var n := if |r.Buffered()| < size then |r.Buffered()| else size;
        if n == 0 then s
        else
          var (q, out) := Deliver(r, n);
          s.(ring := q, delivered := s.delivered + out)
      case Stop => s.(ring := r.(start := -1))
  }

  /** Nothing is lost, repeated or reordered; once stopped, what was delivered still is the beginning of it. */
  predicate Faithful(s: Player) {
    && s.ring.Valid()
    && s.delivered <= s.accepted
    && (s.ring.start >= 0 ==> s.delivered + s.ring.Buffered() == s.accepted)
  }

  lemma StepFaithful(s: Player, a: Action)
    requires Faithful(s)
    ensures var t := Step(s, a);
            && Faithful(t) && |t.ring.buf| == |s.ring.buf|
            && s.accepted <= t.accepted && s.delivered <= t.delivered
            && (s.ring.start < 0 ==> t == s)
  {
    hide Accept, Deliver;
    var r := s.ring;
    if r.start >= 0 {
      match a
      case Write(data) =>
        if |data| <= |r.buf| && Ready(r, |data|) {
          AcceptAppends(r, data);
          assert s.delivered + (r.Buffered() + data) == s.accepted + data;
        }
      case Callback(size) =>
        var n := if |r.Buffered()| < size then |r.Buffered()| else size;
        if n > 0 {
          DeliverTakes(r, n);
          var (q, out) := Deliver(r, n);
          assert s.delivered + (out + q.Buffered()) == s.delivered + out + q.Buffered();
        }
      case Stop =>
    }
  }

  /** And no step that can do something does nothing: a write goes through whenever it leaves a byte free, the callback
      gets all it asks for or all there is. */
  lemma StepProgresses(s: Player, a: Action)
    requires Faithful(s) && s.ring.Running()
    ensures var t, held := Step(s, a), |s.ring.Buffered()|;
            match a
            case Write(data) =>
              && t.accepted == (if held + |data| < |s.ring.buf| then s.accepted + data else s.accepted)
              && t.delivered == s.delivered && t.ring.Running()
            case Callback(size) =>
              && |t.delivered| == |s.delivered| + (if size < held then size else held)
              && t.accepted == s.accepted && t.ring.Running()
            case Stop => t.ring.start == -1 && t.accepted == s.accepted && t.delivered == s.delivered
  {
    hide Accept, Deliver;
    var r := s.ring;
    match a
    case Write(data) =>
      ReadyExactly(r, |data|);
      if Ready(r, |data|) {
        AcceptAppends(r, data);
      }
    case Callback(size) =>
      var n := if |r.Buffered()| < size then |r.Buffered()| else size;
      if n > 0 {
        DeliverTakes(r, n);
      }
    case Stop =>
  }

  function Steps(s: Player, actions: seq<Action>): (t: Player)
    requires Faithful(s)
    ensures Faithful(t)
    decreases |actions|
  {
    if actions == [] then s
    else
      StepFaithful(s, actions[0]);
      Steps(Step(s, actions[0]), actions[1..])
  }

  function Started(buf: seq<byte>): (s: Player)
    requires |buf| > 0
    ensures Faithful(s) && s.ring.Running()
  {
    Player(Ring(buf, 0, 0), [], [])
  }

  /** Over every interleaving: until the player is stopped, what was delivered followed by what is buffered is what was
      accepted, both indices are inside the buffer, and they are equal exactly when the buffer is empty. */
  lemma {:induction false} EveryRun(buf: seq<byte>, s: Player, actions: seq<Action>)
    requires Faithful(s) && |s.ring.buf| == |buf| > 0
    ensures var t := Steps(s, actions);
            && |t.ring.buf| == |buf| && s.accepted <= t.accepted && s.delivered <= t.delivered
            && t.delivered <= t.accepted && 0 <= t.ring.end < |buf| && -1 <= t.ring.start < |buf|
            && (t.ring.start >= 0 ==>
                  && t.delivered + t.ring.Buffered() == t.accepted
                  && (t.ring.start == t.ring.end <==> t.delivered == t.accepted))
    decreases |actions|
  {
    hide Step;
    if actions == [] {
      if s.ring.start >= 0 {
        EqualMeansEmpty(s.ring);
      }
    } else {
      StepFaithful(s, actions[0]);
      EveryRun(buf, Step(s, actions[0]), actions[1..]);
    }
  }

  /** A write goes through exactly when it would leave a byte of the buffer free. */
  lemma ReadyExactly(r: Ring, count: nat)
    requires r.Running()
    ensures Ready(r, count) <==> |r.Buffered()| + count < |r.buf|
  {
  }

  /** So a write as large as the buffer passes the size check and then waits for ever, while any smaller one goes through
      once the callback has emptied the buffer. */
  lemma WholeBufferNeverFits(r: Ring, count: nat)
    requires r.Running() && count <= |r.buf|
    ensures count == |r.buf| <==> !Ready(Emptied(r), count)
    ensures count == |r.buf| ==> !Ready(r, count)
  {
  }

  function Emptied(r: Ring): (q: Ring)
    requires r.Running()
    ensures q.Running() && q.Buffered() == []
  {
    r.(start := r.end)
  }

  // ---------------------------------------------------------------- the code

  datatype Outcome = Refused | Waits | Written

  /** `msm_ctx`, as far as the audio callback mode goes. */
  class Context {
    const cbbuf: array<byte>
    var cbstart: int
    var cbend: int

    ghost function View(): Ring
      reads this, cbbuf
    {
      Ring(cbbuf[..], cbstart, cbend)
    }

    /** The indices as `libmediacb_start` sets them. */
    constructor (size: nat)
      requires size > 0
      ensures View() == Ring(cbbuf[..], 0, 0) && cbbuf.Length == size
    {
      cbbuf := new byte[size];
      cbstart, cbend := 0, 0;
    }

    method GetFreeBytes() returns (k: nat)
      requires View().Running()
      ensures k == View().Free()
    {
      k := if cbend >= cbstart then cbbuf.Length - (cbend - cbstart) else cbstart - cbend;
    }

    method Copy(at: nat, data: seq<byte>)
      requires at + |data| <= cbbuf.Length
      modifies cbbuf
      ensures cbbuf[..] == Put(old(cbbuf[..]), at, data)
    {
      forall i | 0 <= i < |data| {
        cbbuf[at + i] := data[i];
      }
    }

    /** `libmediacb_write`: one turn of its waiting loop and what follows it. */
    method Write(data: seq<byte>) returns (outcome: Outcome)
      requires View().Valid()
      modifies this, cbbuf
      ensures outcome.Refused? <==> |data| > cbbuf.Length || old(cbstart) < 0
      ensures outcome.Waits? ==> old(View()).Running() && !Ready(old(View()), |data|)
      ensures outcome.Written? ==> old(View()).Running() && Ready(old(View()), |data|)
      ensures View() == if outcome.Written? then Accept(old(View()), data) else old(View())
    {
      if |data| > cbbuf.Length || cbstart < 0 {
        return Refused;
      }
      var k := GetFreeBytes();
      if k <= |data| {
        return Waits;
      }
      k := cbbuf.Length - cbend;
      if k > |data| {
        Copy(cbend, data);
        cbend := cbend + |data|;
      } else if k < |data| {
        Copy(cbend, data[..k]);
        Copy(0, data[k..]);
        cbend := |data| - k;
      } else {
        Copy(cbend, data);
        cbend := 0;
      }
      outcome := Written;
    }

    /** `cbf`: fills the track's buffer and returns the size it leaves in it. */
    method Callback(c: array<byte>, requested: nat) returns (size: nat)
      requires View().Valid() && requested <= c.Length && c != cbbuf
      modifies this`cbstart, c
      ensures var r := old(View());
              if requested == 0 || r.start < 0 then size == requested && View() == r && c[..] == old(c[..])
              else
                && size == (if |r.Buffered()| < requested then |r.Buffered()| else requested)
                && (size > 0 ==> View() == Deliver(r, size).0 && c[..size] == Deliver(r, size).1)
                && (size == 0 ==> View() == r)
    {
      size := requested;
      if size == 0 || cbstart < 0 {
        return;
      }
      var free := GetFreeBytes();
      var k := cbbuf.Length - free;
      if k < size {
        size := k;
        if k == 0 {
          return;
        }
      }
      HandOut(c, size);
    }

    /** Lines 335-347 of std_audio.cpp. */
    method HandOut(c: array<byte>, size: nat)
      requires View().Running() && 0 < size <= |View().Buffered()| && size <= c.Length && c != cbbuf
      modifies this`cbstart, c
      ensures View() == Deliver(old(View()), size).0 && c[..size] == Deliver(old(View()), size).1
    {
      ghost var r := View();
      var k := cbbuf.Length - cbstart;
      if k > size {
        CopyOut(c, 0, cbstart, size);
        assert c[..size] == c[0..0 + size] == r.buf[r.start..r.start + size];
        cbstart := cbstart + size;
      } else if k < size {
        CopyOut(c, 0, cbstart, k);
        assert c[..k] == c[0..0 + k] == r.buf[r.start..r.start + k] == r.buf[r.start..];
        CopyOut(c, k, 0, size - k);
        assert c[k..size] == c[k..k + (size - k)] == r.buf[0..0 + (size - k)] == r.buf[..size - k];
        assert c[..size] == c[..k] + c[k..size];
        cbstart := size - k;
      } else {
        CopyOut(c, 0, cbstart, size);
        assert c[..size] == c[0..0 + size] == r.buf[r.start..];
        cbstart := 0;
      }
      assert View().buf == r.buf;
    }

    /** `memcpy (c + at, cbbuf + from, n)`. */
    method CopyOut(c: array<byte>, at: nat, from: nat, n: nat)
      requires at + n <= c.Length && from + n <= cbbuf.Length && c != cbbuf
      modifies c
      ensures c[at..at + n] == cbbuf[from..from + n] && c[..at] == old(c[..at])
    {
      forall i | 0 <= i < n {
        c[at + i] := cbbuf[from + i];
      }
    }

    /** `libmediacb_stop`. */
    method Stop()
      modifies this`cbstart
      ensures View() == old(View()).(start := -1)
    {
      cbstart := -1;
    }
  }
}
