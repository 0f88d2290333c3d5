/**
 Truncating a log whose checksums are wrong (pkg/binlogtool/cmd/truncate.go): they are not looked
 at, and come out right.
 */
module WrongChecksums {
  import opened Bytes
  import opened Wrappers
  import opened BinlogFormat
  import opened BinlogProbe
  import opened BinlogScan
  import opened BinlogLog
  import opened BinlogOpen
  import opened BinlogWrite

  /** The event is in place but for the four bytes of its checksum. */
  ghost predicate BodyInPlace(c: seq<byte>, L: Log, k: nat)
    requires k < |L.rest|
  {
    Holds(c, Offset(L, k), Body(L.rest[k])) && Offset(L, k + 1) <= |c|
  }

  /** The bytes are those of L, but for the checksums of the events after the first. */
  ghost predicate SameButChecksums(c: seq<byte>, L: Log) {
    && |c| == Offset(L, |L.rest|) && Holds(c, 0, MAGIC) && Holds(c, 4, Body(L.fde) + L.fdeFooter)
    && forall k :: 0 <= k < |L.rest| ==> BodyInPlace(c, L, k)
  }

  lemma BodyParts(c: seq<byte>, o: nat, ev: RawEvent)
    requires Holds(c, o, Body(ev))
    ensures Holds(c, o, FixedBytes(ev.header)) && Holds(c, o + 19, ev.header.extra)
    ensures Holds(c, o + 19 + |ev.header.extra|, ev.data)
  {
    HoldsParts(c, o, HeaderBytes(ev.header), ev.data);
    HoldsParts(c, o, FixedBytes(ev.header), ev.header.extra);
  }

  /** Without validation data are read whatever the checksum after them. */
  lemma DataWithoutChecksum(cfg: Config, c: seq<byte>, h: Header, p: nat, data: seq<byte>)
    requires cfg.crc && !cfg.validate && RestLength(cfg, h) == |data| + 4
    requires Holds(c, p, data) && p + |data| + 4 <= |c|
    ensures ReadData(cfg, c, h, p) == Ok(data)
  {
    var s := c[p..p + |data| + 4];
    assert ReadFull(c, p, |data| + 4) == Ok(s);
    assert s[..|s| - 4] == c[p..p + |data|];
  }

  lemma BodyIsReadable(cfg: Config, c: seq<byte>, L: Log, k: nat)
    requires Suits(cfg, L) && L.crc && !cfg.validate && k < |L.rest| && BodyInPlace(c, L, k)
    ensures Readable(cfg, c, Offset(L, k), Offset(L, k) + 19 + |L.rest[k].header.extra|, Offset(L, k + 1), L.rest[k])
  {
    var ev, o := L.rest[k], Offset(L, k);
    assert GoodEvent(L, k);
    BodyParts(c, o, ev);
    HeaderRoundTrip(ev.header);
    HeaderHeld(cfg, c, o, o, FixedBytes(ev.header), ev.header);
    DataWithoutChecksum(cfg, c, ev.header, o + 19 + |ev.header.extra|, ev.data);
  }

  lemma {:induction false} ScanWithoutChecksums<B>(cfg: Config<B>, c: seq<byte>, L: Log, k: nat)
    returns (r: (seq<Item<B>>, Err))
    requires Suits(cfg, L) && L.crc && !cfg.validate && k <= |L.rest| && SameButChecksums(c, L)
    ensures ScanAll(cfg, c, Boundary(L, k)) == r == Expected(cfg, L, k)
    decreases |L.rest| - k
  {
    if k == |L.rest| {
      ScanAtEnd(cfg, c);
      r := ([], Eof);
    } else {
      var after := ScanWithoutChecksums(cfg, c, L, k + 1);
      var p := Offset(L, k) + 19 + |L.rest[k].header.extra|;
      BodyIsReadable(cfg, c, L, k);
      ScanOverReadable(cfg, c, Offset(L, k), p, Offset(L, k + 1), L.rest[k]);
      r := From(cfg, Offset(L, k + 1), L.rest[k], after);
    }
  }

  lemma OpensTheSame<B>(c: seq<byte>, L: Log, o: Options<B>)
    requires WellFormed(L) && GoodFde(L) && SameButChecksums(c, L)
    ensures Open(c, 0, o) == Ok((ConfigFor(o, FdeOf(L)), Running(Offset(L, 0), 4, Some(FirstDue(L, o)), o.probeSize)))
  {
    PlainBody(L.fde, L.fdeFooter);
    FirstInPlace(c, L.fde.header, L.fde.data + L.fdeFooter, FdeOf(L));
    FirstIsInOrder(L);
    FirstIsDue(L, o);
    OpenedOn(c, 0, o, FirstReadOf(L), FirstDue(L, o), Offset(L, 0), ConfigFor(o, FdeOf(L)));
  }

  lemma ScansTheSame(c: seq<byte>, L: Log, cfg: Config<()>, first: LogEvent<()>)
    requires Suits(cfg, L) && L.crc && !cfg.validate && SameButChecksums(c, L)
    requires 4 + HeaderOf(first).eventLength == Offset(L, 0)
    ensures var st := Running(Offset(L, 0), 4, Some(first), 0);
            ScanAll(cfg, c, st) == ScanAll(cfg, Content(L), st)
  {
    var r := ScanWithoutChecksums(cfg, c, L, 0);
    ScanFromBoundary(L, cfg, 0);
    FirstComesFirst(cfg, c, Offset(L, 0), 4, first, Offset(L, 0), 0);
    FirstComesFirst(cfg, Content(L), Offset(L, 0), 4, first, Offset(L, 0), 0);
  }

  /** Whatever the checksums of a log, its truncated copy is that of the log with the right ones. */
  lemma TruncationIgnoresChecksums(c: seq<byte>, L: Log, crc: bool, endPos: nat, endTs: u32)
    requires WellFormed(L) && GoodFde(L) && L.crc && SameButChecksums(c, L)
    ensures Truncated(c, crc, endPos, endTs) == Truncated(Content(L), crc, endPos, endTs)
  {
    var o := TruncateOptions(crc, endPos);
    var cfg, st := ConfigFor(o, FdeOf(L)), Running(Offset(L, 0), 4, Some(Raw(L.fde)), 0);
    OpensTheSame(c, L, o);
    OpenAtStart(L, 0, o);
    ScansTheSame(c, L, cfg, Raw(L.fde));
    TruncatedFrom(c, crc, endPos, endTs, cfg, st, ScanAll(cfg, c, st).0);
    TruncatedFrom(Content(L), crc, endPos, endTs, cfg, st, ScanAll(cfg, c, st).0);
  }
}
