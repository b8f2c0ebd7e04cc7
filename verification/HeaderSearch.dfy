/** The search for the next block header in jni/wv/wputils.c: `read_next_header` slides a 32-byte window over the
    stream and moves on past partial matches. */
module HeaderSearch {
  import opened Machine

  const HEADER_SIZE := 32
  const SEARCH_LIMIT := 1024 * 1024
  const MIN_VERSION := 0x02
  const MAX_VERSION := 0x10

  /** The 32 bytes pass the test; the type `char` of the buffer is signed on some machines, and then a track number
      above 127 looks small. */
  predicate Header(b: seq<byte>, signedChar: bool)
    requires |b| == HEADER_SIZE
  {
    && b[0] == 'w' as int && b[1] == 'v' as int && b[2] == 'p' as int && b[3] == 'k' as int
    && b[4] % 2 == 0
    && (b[6] < 16 || (signedChar && b[6] >= 128)) && b[7] == 0
    && b[9] == 4 && MIN_VERSION <= b[8] <= MAX_VERSION
  }

  predicate HeaderAt(s: seq<byte>, at: nat, signedChar: bool) {
    at + HEADER_SIZE <= |s| && Header(s[at..at + HEADER_SIZE], signedChar)
  }

  predicate NoHeaderBefore(s: seq<byte>, end: nat, signedChar: bool) {
    forall at: nat :: at < end ==> !HeaderAt(s, at, signedChar)
  }

  /** The test of read_next_header, which moves sp along as far as the bytes match. */
  method TestHeader(b: array<byte>, signedChar: bool) returns (ok: bool, sp: nat)
    requires b.Length == HEADER_SIZE
    ensures ok <==> Header(b[..], signedChar)
    ensures !ok ==> 1 <= sp <= 4 && forall i :: 1 <= i < sp ==> b[i] != 'w' as int
  {
    ok := false;
    sp := 1;
    if b[0] != 'w' as int || b[1] != 'v' as int {
      return;
    }
    sp := 2;
    if b[2] != 'p' as int {
      return;
    }
    sp := 3;
    if b[3] != 'k' as int {
      return;
    }
    sp := 4;
    ok := b[sp] % 2 == 0 && (b[sp + 2] < 16 || (signedChar && b[sp + 2] >= 128)) && b[sp + 3] == 0
          && b[sp + 5] == 4 && b[sp + 4] >= MIN_VERSION && b[sp + 4] <= MAX_VERSION;
  }

  /** A header can only start at a `w`. */
  lemma NoneWithout(s: seq<byte>, from: nat, b: seq<byte>, sp: nat, signedChar: bool)
    requires from + HEADER_SIZE <= |s| && b == s[from..from + HEADER_SIZE] && sp <= HEADER_SIZE
    requires NoHeaderBefore(s, from, signedChar) && (sp > 0 ==> !Header(b, signedChar))
    requires forall i :: 1 <= i < sp ==> b[i] != 'w' as int
    ensures NoHeaderBefore(s, from + sp, signedChar)
  {
    forall at: nat | at < from + sp
      ensures !HeaderAt(s, at, signedChar)
    {
      if from < at && at + HEADER_SIZE <= |s| {
        assert s[at] == b[at - from];
        assert s[at..at + HEADER_SIZE][0] == s[at];
      }
    }
  }

  /** What is left of the window moves to its front, and the stream fills it up. */
  method Slide(b: array<byte>, sp: nat, s: seq<byte>, read: nat)
    requires b.Length == HEADER_SIZE && sp <= HEADER_SIZE && read + sp <= |s|
    modifies b
    ensures b[..] == old(b[sp..]) + s[read..read + sp]
  {
    var left := HEADER_SIZE - sp;
    forall i | 0 <= i < left {
      b[i] := b[sp + i];
    }
    forall i | left <= i < HEADER_SIZE {
      b[i] := s[read + i - left];
    }
  }

  /** `while (sp < ep && *sp != 'w') sp++`. */
  method NextW(b: array<byte>, from: nat) returns (sp: nat)
    requires b.Length == HEADER_SIZE && 1 <= from <= HEADER_SIZE
    requires forall i :: 1 <= i < from ==> b[i] != 'w' as int
    ensures from <= sp <= HEADER_SIZE && forall i :: 1 <= i < sp ==> b[i] != 'w' as int
  {
    sp := from;
    while sp < HEADER_SIZE && b[sp] != 'w' as int
      invariant from <= sp <= HEADER_SIZE
      invariant forall i :: 1 <= i < sp ==> b[i] != 'w' as int
    {
      sp := sp + 1;
    }
  }

  /** `read_next_header` on a stream that still has the bytes s to deliver. It finds the earliest header that starts
      within the first megabyte, has then read that many bytes and the header, and fails only if there is none. */
  method ReadNextHeader(s: seq<byte>, signedChar: bool) returns (found: bool, skipped: nat, header: seq<byte>, read: nat)
    ensures found ==> HeaderAt(s, skipped, signedChar) && skipped <= SEARCH_LIMIT
    ensures found ==> NoHeaderBefore(s, skipped, signedChar)
    ensures found ==> header == s[skipped..skipped + HEADER_SIZE] && read == skipped + HEADER_SIZE
    ensures !found ==> NoHeaderBefore(s, SEARCH_LIMIT + 1, signedChar)
  {
    hide Header;
    var b := new byte[HEADER_SIZE];
    var sp: nat := HEADER_SIZE;
    skipped, read, header, found := 0, 0, [], false;
    while true
      invariant 1 <= sp <= HEADER_SIZE && read == skipped + HEADER_SIZE - sp && read <= |s|
      invariant b[sp..] == s[skipped..read]
      invariant skipped <= SEARCH_LIMIT && NoHeaderBefore(s, skipped, signedChar) && !found
      decreases SEARCH_LIMIT - skipped
    {
      if |s| - read < sp {
        TooShort(s, skipped, signedChar);
        return;
      }
      Slide(b, sp, s, read);
      read := read + sp;
      assert s[skipped..skipped + HEADER_SIZE] == s[skipped..read - sp] + s[read - sp..read];
      found, sp := TestHeader(b, signedChar);
      if found {
        header := b[..];
        return;
      }
      sp := NextW(b, sp);
      NoneWithout(s, skipped, b[..], sp, signedChar);
      assert b[sp..] == b[..][sp..] == s[skipped + sp..read];
      skipped := skipped + sp;
      if skipped > SEARCH_LIMIT {
        return;
      }
    }
  }

  lemma TooShort(s: seq<byte>, from: nat, signedChar: bool)
    requires from + HEADER_SIZE > |s| && NoHeaderBefore(s, from, signedChar)
    ensures NoHeaderBefore(s, SEARCH_LIMIT + 1, signedChar)
  {
  }
}
