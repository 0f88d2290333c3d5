/**
 Scanning a log that stops amid an event (pkg/binlogtool/binlog/scan.go), as one does that is still
 being written: the short read counts as the end of the log.
 */
module CutLog {
  import opened Bytes
  import opened Wrappers
  import opened Crc32
  import opened BinlogFormat
  import opened BinlogProbe
  import opened BinlogScan
  import opened BinlogLog
  import opened TruncatedStream

  lemma HeldInCut(full: seq<byte>, c: seq<byte>, q: nat, s: seq<byte>)
    requires Holds(full, q, s) && c <= full && q + |s| <= |c|
    ensures Holds(c, q, s)
  {
    assert c[q..q + |s|] == full[q..q + |s|];
  }

  /** An event that ends by the cut is in place before it. */
  lemma PartsInCut(full: seq<byte>, c: seq<byte>, o: nat, end: nat, ev: RawEvent, crc: bool, headerLength: nat)
    requires Parts(full, o, end, ev, crc, headerLength) && c <= full && end <= |c|
    ensures Parts(c, o, end, ev, crc, headerLength)
  {
    var n := 19 + |ev.header.extra|;
    HeldInCut(full, c, o, FixedBytes(ev.header));
    HeldInCut(full, c, o + 19, ev.header.extra);
    HeldInCut(full, c, o + n, ev.data);
    if crc {
      HeldInCut(full, c, o + n + |ev.data|, Footer(Body(ev)));
    }
  }

  predicate IsShortRead(e: Err) { e == Eof || e == UnexpectedEof }

  /** The header itself is cut. */
  lemma HeaderIsCut(cfg: Config, c: seq<byte>, o: nat, h: Header)
    requires o <= |c| < o + 19 + |h.extra| && 19 + |h.extra| == HeaderLengthOf(h.typeCode, cfg.headerLength)
    requires o + 19 <= |c| ==> Holds(c, o, FixedBytes(h))
    ensures var r := NextHeader(cfg, c, o, o, 0); r.Err? && IsShortRead(r.error)
  {
    if o + 19 <= |c| {
      HeaderRoundTrip(h);
      assert ReadFull(c, o, 19) == Ok(FixedBytes(h));
    }
  }

  /** The data are cut: reading them, and skipping them with validation, is a short read. */
  lemma DataAreCut(cfg: Config, c: seq<byte>, h: Header, q: nat)
    requires q <= |c| < q + RestLength(cfg, h)
    ensures var r := ReadData(cfg, c, h, q); r.Err? && IsShortRead(r.error)
    ensures var r := SkipEvent(cfg, c, h, q);
            if cfg.crc && cfg.validate then r.Err? && IsShortRead(r.error) else r == Ok(q + RestLength(cfg, h))
  {
  }

  lemma ReadPastEnd(cfg: Config, c: seq<byte>, p: nat)
    requires p >= |c|
    ensures NextInterested(cfg, c, p, p, 0) == Err(Eof)
  {
  }

  /** Looking for the next event at one that is cut, in data or header. */
  lemma SeekAtCut(cfg: Config, c: seq<byte>, o: nat, end: nat, h: Header)
    requires o + 19 + |h.extra| <= |c| < end && end == o + h.eventLength && h.nextPosition == end % 0x1_0000_0000
    requires 19 + |h.extra| == HeaderLengthOf(h.typeCode, cfg.headerLength)
    requires NextHeader(cfg, c, o, o, 0) == Ok(Found(h, o + 19 + |h.extra|, o))
    ensures var r := NextInterested(cfg, c, o, o, 0);
            if end <= cfg.endPos && cfg.interested(h) then r == Ok(Found(h, o + 19 + |h.extra|, o))
            else r.Err? && IsShortRead(r.error)
  {
    DataAreCut(cfg, c, h, o + 19 + |h.extra|);
    if end <= cfg.endPos && !cfg.interested(h) {
      ReadPastEnd(cfg, c, end);
    }
  }

  lemma ShortReadEnds<B>(cfg: Config<B>, c: seq<byte>, o: nat)
    requires var r := NextInterested(cfg, c, o, o, 0);
             (r.Err? && IsShortRead(r.error)) ||
             (r.Ok? && Finish(cfg, c, r.value).Err? && IsShortRead(Finish(cfg, c, r.value).error))
    ensures ScanAll(cfg, c, Running(o, o, None, 0)) == ([], Eof)
  {
  }

  lemma NoHeaderNoEvent(cfg: Config, c: seq<byte>, o: nat, e: Err)
    requires NextHeader(cfg, c, o, o, 0) == Err(e)
    ensures NextInterested(cfg, c, o, o, 0) == Err(e)
  {
  }

  lemma HeaderCutEnds<B>(cfg: Config<B>, c: seq<byte>, o: nat, h: Header)
    requires o <= |c| < o + 19 + |h.extra| && 19 + |h.extra| == HeaderLengthOf(h.typeCode, cfg.headerLength)
    requires o + 19 <= |c| ==> Holds(c, o, FixedBytes(h))
    ensures ScanAll(cfg, c, Running(o, o, None, 0)) == ([], Eof)
  {
    HeaderIsCut(cfg, c, o, h);
    NoHeaderNoEvent(cfg, c, o, NextHeader(cfg, c, o, o, 0).error);
    ShortReadEnds(cfg, c, o);
  }

  lemma DataCutEnds<B>(cfg: Config<B>, c: seq<byte>, o: nat, end: nat, h: Header)
    requires o + 19 + |h.extra| <= |c| < end && end == o + h.eventLength && h.nextPosition == end % 0x1_0000_0000
    requires 19 + |h.extra| == HeaderLengthOf(h.typeCode, cfg.headerLength) && cfg.mode != HeaderOnly
    requires Holds(c, o, FixedBytes(h)) && Holds(c, o + 19, h.extra)
    ensures ScanAll(cfg, c, Running(o, o, None, 0)) == ([], Eof)
  {
    HeaderRoundTrip(h);
    HeaderHeld(cfg, c, o, o, FixedBytes(h), h);
    SeekAtCut(cfg, c, o, end, h);
    DataAreCut(cfg, c, h, o + 19 + |h.extra|);
    ShortReadEnds(cfg, c, o);
  }

  /** At an event that is cut, a scan that reads data ends, normally. */
  lemma ScanAtCut<B>(cfg: Config<B>, full: seq<byte>, c: seq<byte>, o: nat, end: nat, ev: RawEvent)
    requires Parts(full, o, end, ev, cfg.crc, cfg.headerLength) && c <= full && o <= |c| < end
    requires cfg.mode != HeaderOnly
    ensures ScanAll(cfg, c, Running(o, o, None, 0)) == ([], Eof)
  {
    if o + 19 <= |c| {
      HeldInCut(full, c, o, FixedBytes(ev.header));
    }
    if |c| < o + 19 + |ev.header.extra| {
      HeaderCutEnds(cfg, c, o, ev.header);
    } else {
      HeldInCut(full, c, o + 19, ev.header.extra);
      DataCutEnds(cfg, c, o, end, ev.header);
    }
  }

  lemma ExpectedAtCut<B>(cfg: Config<B>, L: Log, m: nat)
    requires m <= |L.rest|
    ensures Expected(cfg, Shortened(L, m), m) == ([], Eof)
  {
  }

  lemma ExpectedInCut<B>(cfg: Config<B>, L: Log, m: nat, j: nat, after: (seq<Item<B>>, Err))
    requires j < m <= |L.rest| && Expected(cfg, Shortened(L, m), j + 1) == after
    ensures Expected(cfg, Shortened(L, m), j) == From(cfg, Offset(L, j + 1), L.rest[j], after)
  {
    ShortenedPrefix(L, m, j + 1);
  }

  ghost predicate InPlaceUpTo(c: seq<byte>, L: Log, j: nat, m: nat) {
    m <= |L.rest| && forall k :: j <= k < m ==> EventInPlace(c, L, k)
  }

  lemma {:induction false} ScanUpTo<B>(c: seq<byte>, L: Log, cfg: Config<B>, j: nat, m: nat)
    returns (r: (seq<Item<B>>, Err))
    requires j <= m <= |L.rest| && cfg.headerLength == L.headerLength && cfg.crc == L.crc && InPlaceUpTo(c, L, j, m)
    requires ScanAll(cfg, c, Boundary(L, m)) == ([], Eof)
    ensures ScanAll(cfg, c, Boundary(L, j)) == r == Expected(cfg, Shortened(L, m), j)
    decreases m - j
  {
    if j == m {
      ExpectedAtCut(cfg, L, m);
      r := ([], Eof);
    } else {
      var after := ScanUpTo(c, L, cfg, j + 1, m);
      ExpectedInCut(cfg, L, m, j, after);
      assert EventInPlace(c, L, j);
      ScanOverEvent(c, L, cfg, j, after);
      r := From(cfg, Offset(L, j + 1), L.rest[j], after);
    }
  }

  lemma EventsBeforeCut(L: Log, j: nat, m: nat, p: nat)
    requires WellFormed(L) && j <= m <= |L.rest| && Offset(L, m) <= p <= |Content(L)|
    ensures InPlaceUpTo(Content(L)[..p], L, j, m)
  {
    forall k | j <= k < m ensures EventInPlace(Content(L)[..p], L, k) {
      PartsHeld(L, k);
      BoundariesUpTo(L, k + 1, m);
      PartsInCut(Content(L), Content(L)[..p], Offset(L, k), Offset(L, k + 1), L.rest[k], L.crc, L.headerLength);
    }
  }

  /**
   A well-formed log cut at any place within event m: a scan that reads data returns the events
   before it and ends normally, as if they were the whole log. (A header-only scan reads no data,
   and goes by what the header says.)
   */
  lemma CutLogScans<B>(L: Log, cfg: Config<B>, j: nat, m: nat, p: nat)
    requires Suits(cfg, L) && j <= m < |L.rest| && Offset(L, m) <= p < Offset(L, m + 1) && cfg.mode != HeaderOnly
    ensures p <= |Content(L)| && ScanAll(cfg, Content(L)[..p], Boundary(L, j)) == Expected(cfg, Shortened(L, m), j)
  {
    PrefixGrows(L, m + 1, |L.rest|);
    PartsHeld(L, m);
    ScanAtCut(cfg, Content(L), Content(L)[..p], Offset(L, m), Offset(L, m + 1), L.rest[m]);
    EventsBeforeCut(L, j, m, p);
    var r := ScanUpTo(Content(L)[..p], L, cfg, j, m);
  }
}
