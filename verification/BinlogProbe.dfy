/**
 Probing for the next event header (pkg/binlogtool/binlog/scan.go, probeNextHeader): a window
 of 19 bytes, kept in a ring buffer, slides over the log until it looks like a header.
 */
module BinlogProbe {
  import opened Bytes
  import opened Wrappers
  import opened BinlogFormat

  datatype Err =
    | Eof | UnexpectedEof | BadEvent | InvalidEvent | BrokenBinlog | ChecksumMismatch
    | ProbeFailed | LimitTooSmall | ParseFailed

  /** The 19 bytes at p, as a header, end where a log at offset says they should, modulo 2^32. */
  predicate LooksLikeHeader(window: seq<byte>, offset: nat)
    requires |window| == 19
  {
    (offset + U32(window[9..13])) % 0x1_0000_0000 == U32(window[13..17])
  }

  function Window(content: seq<byte>, p: nat): (w: seq<byte>)
    requires p + 19 <= |content|
    ensures |w| == 19
  {
    content[p..p + 19]
  }

  /** A header can be k bytes after position pos, where the log offset is cur. */
  predicate HeaderAt(content: seq<byte>, pos: nat, cur: nat, k: nat) {
    pos + k + 19 <= |content| && LooksLikeHeader(Window(content, pos + k), cur + k)
  }

  /** Slides from shift k, at most `left` bytes further; the shift found. */
  function Slide(content: seq<byte>, pos: nat, cur: nat, k: nat, left: nat): Result<nat, Err>
    requires pos + k + 19 <= |content|
    decreases left
  {
    if HeaderAt(content, pos, cur, k) then Ok(k)
    else if left == 0 then Err(ProbeFailed)
    else if pos + k + 20 > |content| then Err(Eof)
    else Slide(content, pos, cur, k + 1, left - 1)
  }

  /** The probe from position pos, a log offset of cur and a limit on the bytes looked at. */
  function Probe(content: seq<byte>, pos: nat, cur: nat, limit: nat): Result<nat, Err> {
    if limit < 19 then Err(LimitTooSmall)
    else if pos + 19 <= |content| then Slide(content, pos, cur, 0, limit - 19)
    else if pos < |content| then Err(UnexpectedEof)
    else Err(Eof)
  }

  lemma {:induction false} SlideFindsFirst(content: seq<byte>, pos: nat, cur: nat, k: nat, left: nat)
    requires pos + k + 19 <= |content|
    ensures var r := Slide(content, pos, cur, k, left);
            && (r.Ok? ==> k <= r.value <= k + left && HeaderAt(content, pos, cur, r.value)
                          && forall j :: k <= j < r.value ==> !HeaderAt(content, pos, cur, j))
            && (r.Err? ==> forall j :: k <= j <= k + left ==> !HeaderAt(content, pos, cur, j))
    decreases left
  {
    if !HeaderAt(content, pos, cur, k) && left > 0 && pos + k + 20 <= |content| {
      SlideFindsFirst(content, pos, cur, k + 1, left - 1);
    }
  }

  /** Shift s is where a naive search over all windows within the limit first succeeds. */
  ghost predicate FirstWithin(content: seq<byte>, pos: nat, cur: nat, limit: nat, s: nat) {
    && s + 19 <= limit && HeaderAt(content, pos, cur, s)
    && forall j :: 0 <= j < s ==> !HeaderAt(content, pos, cur, j)
  }

  /** The probe finds the smallest shift within the limit at which a header can be, and only that. */
  lemma ProbeFindsFirst(content: seq<byte>, pos: nat, cur: nat, limit: nat, s: nat)
    ensures Probe(content, pos, cur, limit) == Ok(s) <==> FirstWithin(content, pos, cur, limit, s)
  {
    if limit >= 19 && pos + 19 <= |content| {
      SlideFindsFirst(content, pos, cur, 0, limit - 19);
    }
  }

  /** At a true event boundary the probe does not move. */
  lemma ProbeStaysAtBoundary(content: seq<byte>, pos: nat, cur: nat, limit: nat)
    requires limit >= 19 && HeaderAt(content, pos, cur, 0)
    ensures Probe(content, pos, cur, limit) == Ok(0)
  {
    ProbeFindsFirst(content, pos, cur, limit, 0);
  }

  /** The ring buffer bs, starting at index w, in normal order. */
  ghost function Unrolled(bs: seq<byte>, w: nat): seq<byte>
    requires |bs| == 19 && w < 19
  {
    bs[w..] + bs[..w]
  }

  lemma UnrolledAt(bs: seq<byte>, w: nat, i: nat)
    requires |bs| == 19 && w < 19 && i < 19
    ensures Unrolled(bs, w)[i] == if w + i < 19 then bs[w + i] else bs[w + i - 19]
  {
  }

  /** The four bytes at 9 of the unrolled buffer, copied out by cases. */
  function EventLengthBytes(bs: seq<byte>, w: nat): (r: seq<byte>)
    requires |bs| == 19 && w < 19
    ensures |r| == 4
  {
    if w + 13 <= 19 then bs[w + 9..w + 13]
    else if w + 9 < 19 then bs[w + 9..19] + bs[0..w - 6]
    else bs[w - 10..w - 6]
  }

  /** The four bytes at 13 of the unrolled buffer, copied out by cases. */
  function NextPositionBytes(bs: seq<byte>, w: nat): (r: seq<byte>)
    requires |bs| == 19 && w < 19
    ensures |r| == 4
  {
    if w + 17 <= 19 then bs[w + 13..w + 17]
    else if w + 13 < 19 then bs[w + 13..19] + bs[0..w - 2]
    else bs[w - 6..w - 2]
  }

  lemma EventLengthIsSlice(bs: seq<byte>, w: nat)
    requires |bs| == 19 && w < 19
    ensures EventLengthBytes(bs, w) == Unrolled(bs, w)[9..13]
  {
    forall i | 0 <= i < 4 ensures EventLengthBytes(bs, w)[i] == Unrolled(bs, w)[9..13][i] {
      UnrolledAt(bs, w, 9 + i);
    }
  }

  lemma NextPositionIsSlice(bs: seq<byte>, w: nat)
    requires |bs| == 19 && w < 19
    ensures NextPositionBytes(bs, w) == Unrolled(bs, w)[13..17]
  {
    forall i | 0 <= i < 4 ensures NextPositionBytes(bs, w)[i] == Unrolled(bs, w)[13..17][i] {
      UnrolledAt(bs, w, 13 + i);
    }
  }

  /** Overwriting the oldest byte and moving the start is sliding the window by one. */
  lemma RingSlides(bs: seq<byte>, w: nat, b: byte)
    requires |bs| == 19 && w < 19
    ensures Unrolled(bs[w := b], (w + 1) % 19) == Unrolled(bs, w)[1..] + [b]
  {
    var bs' := bs[w := b];
    if w == 18 {
      assert bs'[0..] + bs'[..0] == bs';
    } else {
      assert bs'[w + 1..] == bs[w + 1..];
      assert bs'[..w + 1] == bs[..w] + [b];
    }
  }

  /** Checks the window the ring buffer holds, by the length and position bytes copied out of it. */
  method CheckRing(ring: seq<byte>, w: nat, offset: nat) returns (found: bool)
    requires |ring| == 19 && w < 19
    ensures found <==> LooksLikeHeader(Unrolled(ring, w), offset)
  {
    EventLengthIsSlice(ring, w);
    NextPositionIsSlice(ring, w);
    var evLen, nPos := U32(EventLengthBytes(ring, w)), U32(NextPositionBytes(ring, w));
    found := (offset + evLen) % 0x1_0000_0000 == nPos;
  }

  lemma RingFollows(ring: seq<byte>, w: nat, content: seq<byte>, p: nat)
    requires |ring| == 19 && w < 19 && p + 20 <= |content| && Unrolled(ring, w) == Window(content, p)
    ensures Unrolled(ring[w := content[p + 19]], (w + 1) % 19) == Window(content, p + 1)
  {
    RingSlides(ring, w, content[p + 19]);
    assert Window(content, p + 1) == Window(content, p)[1..] + [content[p + 19]];
  }

  /** How sliding ends at shift k, when no smaller shift was a header. */
  lemma {:induction false} SlideEndsAt(content: seq<byte>, pos: nat, cur: nat, j: nat, k: nat, left: nat)
    requires j <= k && pos + k + 19 <= |content|
    requires forall i :: j <= i < k ==> !HeaderAt(content, pos, cur, i)
    ensures var r := Slide(content, pos, cur, j, left + k - j);
            if HeaderAt(content, pos, cur, k) then r == Ok(k)
            else (left == 0 ==> r == Err(ProbeFailed)) && (left > 0 && pos + k + 20 > |content| ==> r == Err(Eof))
    decreases k - j
  {
    if j < k {
      SlideEndsAt(content, pos, cur, j + 1, k, left);
    }
  }

  /** Overwrites one byte of the ring buffer. */
  method Put(bs: array<byte>, w: nat, b: byte)
    requires bs.Length == 19 && w < 19
    modifies bs
    ensures bs[..] == old(bs[..])[w := b]
  {
    bs[w] := b;
  }

  /** Replaces the oldest byte of the ring by the next of the content. */
  method Turn(bs: array<byte>, w: nat, content: seq<byte>, at: nat)
    requires bs.Length == 19 && w < 19 && at + 20 <= |content| && Unrolled(bs[..], w) == Window(content, at)
    modifies bs
    ensures Unrolled(bs[..], (w + 1) % 19) == Window(content, at + 1)
  {
    RingFollows(bs[..], w, content, at);
    Put(bs, w, content[at + 19]);
  }

  ghost predicate NoHeaderBefore(content: seq<byte>, pos: nat, cur: nat, k: nat) {
    forall j :: 0 <= j < k ==> !HeaderAt(content, pos, cur, j)
  }

  /** Sliding over a ring buffer; on success the shift, and the 19 header bytes found there. */
  method SlideRing(content: seq<byte>, pos: nat, cur: nat, limit: nat)
    returns (r: Result<nat, Err>, header: seq<byte>)
    requires pos + 19 <= |content|
    ensures r == Slide(content, pos, cur, 0, limit)
    ensures r.Ok? ==> pos + r.value + 19 <= |content| && header == Window(content, pos + r.value)
  {
    var bs := new byte[19](i requires 0 <= i < 19 => content[pos + i]);
    assert bs[..] == Window(content, pos);
    var w: nat, k: nat, left: nat := 0, 0, limit;
    while true
      invariant w < 19 && k + left == limit && pos + k + 19 <= |content|
      invariant Unrolled(bs[..], w) == Window(content, pos + k)
      invariant NoHeaderBefore(content, pos, cur, k)
      decreases left
    {
      var ring := bs[..];
      var found := CheckRing(ring, w, cur + k);
      assert found <==> HeaderAt(content, pos, cur, k);
      if found {
        SlideEndsAt(content, pos, cur, 0, k, left);
        return Ok(k), ring[w..] + ring[..w];
      }
      if left == 0 {
        SlideEndsAt(content, pos, cur, 0, k, left);
        return Err(ProbeFailed), [];
      }
      if pos + k + 20 > |content| {
        SlideEndsAt(content, pos, cur, 0, k, left);
        return Err(Eof), [];
      }
      Turn(bs, w, content, pos + k);
      w, k, left := (w + 1) % 19, k + 1, left - 1;
    }
  }

  /** The probe; it reads the first 19 bytes, then slides. */
  method ProbeNextHeader(content: seq<byte>, pos: nat, cur: nat, limit: nat)
    returns (r: Result<nat, Err>, header: seq<byte>)
    ensures r == Probe(content, pos, cur, limit)
    ensures r.Ok? ==> pos + r.value + 19 <= |content| && header == Window(content, pos + r.value)
  {
    if limit < 19 {
      return Err(LimitTooSmall), [];
    }
    if pos + 19 > |content| {
      return Err(if pos < |content| then UnexpectedEof else Eof), [];
    }
    r, header := SlideRing(content, pos, cur, limit - 19);
  }
}
