/**
 Well-formed version 4 logs, and what the scanner makes of them.

 A log is the magic number, a format description event and any number of further events. From
 server 5.6.1 on the format description event ends in four bytes of checksum, right or not; the
 others end in a checksum when the log declares CRC-32. Positions in headers are modulo 2^32.
 */
module BinlogLog {
  import opened Bytes
  import opened Wrappers
  import opened Crc32
  import opened BinlogFormat
  import opened BinlogProbe
  import opened BinlogScan

  datatype Log = Log(headerLength: byte, crc: bool, fde: RawEvent, fdeFooter: seq<byte>, rest: seq<RawEvent>)

  /** The bytes up to the end of the k-th event after the format description event. */
  function Prefix(L: Log, k: nat): seq<byte>
    requires k <= |L.rest|
  {
    if k == 0 then MAGIC + Body(L.fde) + L.fdeFooter
    else Prefix(L, k - 1) + Stored(L.rest[k - 1], L.crc)
  }

  function Content(L: Log): seq<byte> { Prefix(L, |L.rest|) }

  /** Length of an event as stored. */
  function StoredLength(ev: RawEvent, crc: bool): nat {
    19 + |ev.header.extra| + |ev.data| + if crc then 4 else 0
  }

  /** The true, 64-bit offset of that end. */
  function Offset(L: Log, k: nat): nat
    requires k <= |L.rest|
  {
    if k == 0 then 4 + 19 + |L.fde.header.extra| + |L.fde.data| + |L.fdeFooter|
    else Offset(L, k - 1) + StoredLength(L.rest[k - 1], L.crc)
  }

  lemma StoredIsLong(ev: RawEvent, crc: bool)
    ensures |Stored(ev, crc)| == StoredLength(ev, crc)
  {
  }

  lemma {:induction false} PrefixIsLong(L: Log, k: nat)
    requires k <= |L.rest|
    ensures |Prefix(L, k)| == Offset(L, k)
  {
    if k > 0 {
      PrefixIsLong(L, k - 1);
      StoredIsLong(L.rest[k - 1], L.crc);
    }
  }

  /** Event k has the header its place and its length ask for. */
  predicate GoodEvent(L: Log, k: nat)
    requires k < |L.rest|
  {
    var ev := L.rest[k];
    && 19 + |ev.header.extra| == HeaderLengthOf(ev.header.typeCode, L.headerLength)
    && ev.header.eventLength == StoredLength(ev, L.crc)
    && ev.header.nextPosition == (Offset(L, k) + ev.header.eventLength) % 0x1_0000_0000
  }

  predicate WellFormed(L: Log) {
    && L.headerLength >= 19
    && forall k :: 0 <= k < |L.rest| ==> GoodEvent(L, k)
  }

  // ----- events in place -----

  lemma HeldAtEnd(p: seq<byte>, e: seq<byte>)
    ensures Holds(p + e, |p|, e)
  {
  }

  lemma {:induction false} EventHeld(L: Log, k: nat, m: nat)
    requires k < m <= |L.rest|
    ensures Holds(Prefix(L, m), Offset(L, k), Stored(L.rest[k], L.crc))
    decreases m
  {
    var p, e := Prefix(L, m - 1), Stored(L.rest[m - 1], L.crc);
    if k + 1 == m {
      PrefixIsLong(L, k);
      HeldAtEnd(p, e);
    } else {
      EventHeld(L, k, m - 1);
      HoldsLater(p, e, Offset(L, k), Stored(L.rest[k], L.crc));
    }
  }

  lemma {:induction false} PrefixGrows(L: Log, k: nat, m: nat)
    requires k <= m <= |L.rest|
    ensures Offset(L, k) <= |Prefix(L, m)| && Prefix(L, m)[..Offset(L, k)] == Prefix(L, k)
  {
    PrefixIsLong(L, k);
    if k < m {
      PrefixGrows(L, k, m - 1);
      var p, e := Prefix(L, m - 1), Stored(L.rest[m - 1], L.crc);
      assert (p + e)[..Offset(L, k)] == p[..Offset(L, k)];
    }
  }

  /** Header, data and checksum of an event are in place from o to end, and the header's fields are right. */
  ghost predicate Parts(c: seq<byte>, o: nat, end: nat, ev: RawEvent, crc: bool, headerLength: nat) {
    var n := 19 + |ev.header.extra|;
    && Holds(c, o, FixedBytes(ev.header)) && Holds(c, o + 19, ev.header.extra)
    && Holds(c, o + n, ev.data)
    && (crc ==> Holds(c, o + n + |ev.data|, Footer(Body(ev))))
    && n == HeaderLengthOf(ev.header.typeCode, headerLength)
    && ev.header.eventLength == n + |ev.data| + (if crc then 4 else 0)
    && end == o + ev.header.eventLength
    && ev.header.nextPosition == end % 0x1_0000_0000
  }

  lemma StoredHasParts(c: seq<byte>, o: nat, ev: RawEvent, crc: bool)
    requires Holds(c, o, Stored(ev, crc))
    ensures Holds(c, o, FixedBytes(ev.header)) && Holds(c, o + 19, ev.header.extra)
    ensures Holds(c, o + 19 + |ev.header.extra|, ev.data)
    ensures crc ==> Holds(c, o + 19 + |ev.header.extra| + |ev.data|, Footer(Body(ev)))
  {
    HoldsParts(c, o, Body(ev), if crc then Footer(Body(ev)) else []);
    HoldsParts(c, o, HeaderBytes(ev.header), ev.data);
    HoldsParts(c, o, FixedBytes(ev.header), ev.header.extra);
  }

  lemma StoredIsParts(c: seq<byte>, o: nat, end: nat, ev: RawEvent, crc: bool, headerLength: nat)
    requires Holds(c, o, Stored(ev, crc))
    requires 19 + |ev.header.extra| == HeaderLengthOf(ev.header.typeCode, headerLength)
    requires ev.header.eventLength == StoredLength(ev, crc) && end == o + StoredLength(ev, crc)
    requires ev.header.nextPosition == end % 0x1_0000_0000
    ensures Parts(c, o, end, ev, crc, headerLength)
  {
    StoredHasParts(c, o, ev, crc);
  }

  lemma PartsHeld(L: Log, k: nat)
    requires WellFormed(L) && k < |L.rest|
    ensures Parts(Content(L), Offset(L, k), Offset(L, k + 1), L.rest[k], L.crc, L.headerLength)
  {
    assert GoodEvent(L, k);
    EventHeld(L, k, |L.rest|);
    StoredIsParts(Content(L), Offset(L, k), Offset(L, k + 1), L.rest[k], L.crc, L.headerLength);
  }

  // ----- reading what is in place -----

  lemma ReadHeld(c: seq<byte>, p: nat, s: seq<byte>)
    requires Holds(c, p, s)
    ensures ReadFull(c, p, |s|) == Ok(s)
  {
  }

  lemma HeaderHeld(cfg: Config, c: seq<byte>, p: nat, cur: nat, fixed: seq<byte>, h: Header)
    requires |fixed| == 19 && ParseFixed(fixed) == h.(extra := [])
    requires Holds(c, p, fixed) && Holds(c, p + 19, h.extra)
    requires 19 + |h.extra| == HeaderLengthOf(h.typeCode, cfg.headerLength)
    ensures NextHeader(cfg, c, p, cur, 0) == Ok(Found(h, p + 19 + |h.extra|, cur))
  {
    ReadHeld(c, p, fixed);
    ReadHeld(c, p + 19, h.extra);
  }

  lemma ChecksumTaken(cfg: Config, h: Header, data: seq<byte>, f: seq<byte>)
    requires cfg.crc && |f| == 4 && ChecksumIsRight(h, data, f)
    ensures WithoutChecksum(cfg, h, data + f) == Ok(data)
  {
    assert (data + f)[..|data|] == data && (data + f)[|data|..] == f;
  }

  /** Data with a checksum f after it, as ReadData sees it. */
  lemma ChecksummedDataHeld(cfg: Config, c: seq<byte>, p: nat, h: Header, data: seq<byte>, f: seq<byte>)
    requires cfg.crc && |f| == 4 && RestLength(cfg, h) == |data| + 4
    requires Holds(c, p, data) && Holds(c, p + |data|, f) && ChecksumIsRight(h, data, f)
    ensures ReadData(cfg, c, h, p) == Ok(data)
  {
    assert c[p..p + |data| + 4] == data + f;
    ReadHeld(c, p, data + f);
    ChecksumTaken(cfg, h, data, f);
  }

  lemma DataHeld(cfg: Config, c: seq<byte>, p: nat, h: Header, data: seq<byte>)
    requires RestLength(cfg, h) == |data| + if cfg.crc then 4 else 0
    requires Holds(c, p, data) && (cfg.crc ==> Holds(c, p + |data|, Footer(HeaderBytes(h) + data)))
    ensures ReadData(cfg, c, h, p) == Ok(data)
  {
    if cfg.crc {
      UpdateConcat(0, HeaderBytes(h), data);
      FooterReadBack(HeaderBytes(h) + data);
      ChecksummedDataHeld(cfg, c, p, h, data, Footer(HeaderBytes(h) + data));
    }
  }

  /** The event at o, ending at end, can be read back: its header up to p, then its data. */
  ghost predicate Readable(cfg: Config, c: seq<byte>, o: nat, p: nat, end: nat, ev: RawEvent) {
    && NextHeader(cfg, c, o, o, 0) == Ok(Found(ev.header, p, o))
    && ReadData(cfg, c, ev.header, p) == Ok(ev.data)
    && p + RestLength(cfg, ev.header) == end
    && o + ev.header.eventLength == end
    && ev.header.nextPosition == end % 0x1_0000_0000
  }

  lemma PartsAreReadable(cfg: Config, c: seq<byte>, o: nat, end: nat, ev: RawEvent)
    requires Parts(c, o, end, ev, cfg.crc, cfg.headerLength)
    ensures Readable(cfg, c, o, o + 19 + |ev.header.extra|, end, ev)
  {
    HeaderRoundTrip(ev.header);
    HeaderHeld(cfg, c, o, o, FixedBytes(ev.header), ev.header);
    DataHeld(cfg, c, o + 19 + |ev.header.extra|, ev.header, ev.data);
  }

  // ----- what a scan of a well-formed log returns -----

  function EventOf<B>(cfg: Config<B>, ev: RawEvent): Result<LogEvent<B>, Err> {
    if cfg.mode == HeaderOnly then Ok(Raw(RawEvent(ev.header, []))) else Interpret(cfg, ev.header, ev.data)
  }

  /** What a scan returns from an event ending at end on, given what it returns after it. */
  function From<B>(cfg: Config<B>, end: nat, ev: RawEvent, after: (seq<Item<B>>, Err)): (seq<Item<B>>, Err) {
    if end > cfg.endPos then ([], Eof)
    else if !cfg.interested(ev.header) then after
    else
      match EventOf(cfg, ev)
      case Err(e) => ([], Normalized(e))
      case Ok(x) => ([Item(end, x)] + after.0, after.1)
  }

  /** The events from k on that are of interest and end by endPos, each with the true offset of its end. */
  function Expected<B>(cfg: Config<B>, L: Log, k: nat): (seq<Item<B>>, Err)
    requires k <= |L.rest|
    decreases |L.rest| - k
  {
    if k == |L.rest| then ([], Eof) else From(cfg, Offset(L, k + 1), L.rest[k], Expected(cfg, L, k + 1))
  }

  ghost predicate Suits(cfg: Config, L: Log) {
    WellFormed(L) && cfg.headerLength == L.headerLength && cfg.crc == L.crc
  }

  function Boundary<B>(L: Log, k: nat): State<B>
    requires k <= |L.rest|
  {
    Running(Offset(L, k), Offset(L, k), None, 0)
  }

  /** A readable event is judged by the end position and the filter. */
  lemma ReadOneOf(cfg: Config, c: seq<byte>, o: nat, p: nat, end: nat, ev: RawEvent)
    requires Readable(cfg, c, o, p, end, ev)
    ensures ReadOne(cfg, c, o, o, 0)
         == if end > cfg.endPos then Failed(Eof)
            else if cfg.interested(ev.header) then Wanted(Found(ev.header, p, o))
            else Skipped(end, end)
  {
  }

  /** Advancing over a readable event returns it, fails in decoding it, or goes on after it. */
  lemma AdvanceOver<B>(cfg: Config<B>, c: seq<byte>, o: nat, p: nat, end: nat, ev: RawEvent)
    requires Readable(cfg, c, o, p, end, ev) && end <= cfg.endPos
    ensures var r := Advance(cfg, c, Running(o, o, None, 0));
            if cfg.interested(ev.header) then
              match EventOf(cfg, ev)
              case Err(e) => r == (Stopped(Normalized(e)), Err(Normalized(e)))
              case Ok(ev) => r == (Running(end, end, None, 0), Ok(Item(end, ev)))
            else r == Advance(cfg, c, Running(end, end, None, 0))
  {
    ReadOneOf(cfg, c, o, p, end, ev);
  }

  /** Scanning from an event that can be read to the next. */
  lemma ScanOverReadable<B>(cfg: Config<B>, c: seq<byte>, o: nat, p: nat, end: nat, ev: RawEvent)
    requires Readable(cfg, c, o, p, end, ev)
    ensures ScanAll(cfg, c, Running(o, o, None, 0)) == From(cfg, end, ev, ScanAll(cfg, c, Running(end, end, None, 0)))
  {
    if end > cfg.endPos {
      ReadOneOf(cfg, c, o, p, end, ev);
    } else {
      AdvanceOver(cfg, c, o, p, end, ev);
    }
  }

  lemma ScanOver<B>(cfg: Config<B>, c: seq<byte>, o: nat, end: nat, ev: RawEvent)
    requires Parts(c, o, end, ev, cfg.crc, cfg.headerLength)
    ensures ScanAll(cfg, c, Running(o, o, None, 0)) == From(cfg, end, ev, ScanAll(cfg, c, Running(end, end, None, 0)))
  {
    PartsAreReadable(cfg, c, o, end, ev);
    ScanOverReadable(cfg, c, o, o + 19 + |ev.header.extra|, end, ev);
  }

  /** Every event of L is in place in c, and nothing follows them. */
  ghost predicate InPlace(c: seq<byte>, L: Log) {
    |c| == Offset(L, |L.rest|) && forall k :: 0 <= k < |L.rest| ==> EventInPlace(c, L, k)
  }

  ghost predicate EventInPlace(c: seq<byte>, L: Log, k: nat)
    requires k < |L.rest|
  {
    Parts(c, Offset(L, k), Offset(L, k + 1), L.rest[k], L.crc, L.headerLength)
  }

  lemma ContentIsInPlace(L: Log)
    requires WellFormed(L)
    ensures InPlace(Content(L), L)
  {
    PrefixIsLong(L, |L.rest|);
    forall k | 0 <= k < |L.rest| ensures EventInPlace(Content(L), L, k) {
      PartsHeld(L, k);
    }
  }

  lemma ScanAtEnd<B>(cfg: Config<B>, c: seq<byte>)
    ensures ScanAll(cfg, c, Running(|c|, |c|, None, 0)) == ([], Eof)
  {
  }

  lemma ScanOverEvent<B>(c: seq<byte>, L: Log, cfg: Config<B>, k: nat, after: (seq<Item<B>>, Err))
    requires k < |L.rest| && EventInPlace(c, L, k) && cfg.headerLength == L.headerLength && cfg.crc == L.crc
    requires ScanAll(cfg, c, Boundary(L, k + 1)) == after
    ensures ScanAll(cfg, c, Boundary(L, k)) == From(cfg, Offset(L, k + 1), L.rest[k], after)
  {
    ScanOver(cfg, c, Offset(L, k), Offset(L, k + 1), L.rest[k]);
  }

  lemma {:induction false} ScanInPlace<B>(c: seq<byte>, L: Log, cfg: Config<B>, k: nat)
    requires InPlace(c, L) && k <= |L.rest| && cfg.headerLength == L.headerLength && cfg.crc == L.crc
    ensures ScanAll(cfg, c, Boundary(L, k)) == Expected(cfg, L, k)
    decreases |L.rest| - k
  {
    if k < |L.rest| {
      ScanInPlace(c, L, cfg, k + 1);
      assert EventInPlace(c, L, k);
      ScanOverEvent(c, L, cfg, k, Expected(cfg, L, k + 1));
    } else {
      ScanAtEnd(cfg, c);
    }
  }

  /** Scanning from any boundary returns exactly the expected events and ends with the expected error. */
  lemma ScanFromBoundary<B>(L: Log, cfg: Config<B>, k: nat)
    requires Suits(cfg, L) && k <= |L.rest|
    ensures ScanAll(cfg, Content(L), Boundary(L, k)) == Expected(cfg, L, k)
  {
    ContentIsInPlace(L);
    ScanInPlace(Content(L), L, cfg, k);
  }

  /** With a probe still due, what is read at a true boundary is the same. */
  lemma ProbeAtBoundary(L: Log, cfg: Config, k: nat, probeSize: nat)
    requires Suits(cfg, L) && k < |L.rest| && probeSize >= 19
    ensures NextHeader(cfg, Content(L), Offset(L, k), Offset(L, k), probeSize)
         == NextHeader(cfg, Content(L), Offset(L, k), Offset(L, k), 0)
  {
    PartsHeld(L, k);
    PartsProbe(cfg, Content(L), Offset(L, k), Offset(L, k + 1), L.rest[k], L.crc, probeSize);
  }

  lemma PartsProbe(cfg: Config, c: seq<byte>, o: nat, end: nat, ev: RawEvent, crc: bool, probeSize: nat)
    requires Parts(c, o, end, ev, crc, cfg.headerLength) && probeSize >= 19
    ensures NextHeader(cfg, c, o, o, probeSize) == NextHeader(cfg, c, o, o, 0)
  {
    HeaderRoundTrip(ev.header);
    ProbeHeld(cfg, c, o, FixedBytes(ev.header), ev.header, probeSize);
  }

  lemma ProbeHeld(cfg: Config, c: seq<byte>, p: nat, fixed: seq<byte>, h: Header, probeSize: nat)
    requires |fixed| == 19 && ParseFixed(fixed) == h.(extra := []) && Holds(c, p, fixed)
    requires (p + h.eventLength) % 0x1_0000_0000 == h.nextPosition && probeSize >= 19
    ensures NextHeader(cfg, c, p, p, probeSize) == NextHeader(cfg, c, p, p, 0)
  {
    assert Window(c, p) == fixed;
    assert HeaderAt(c, p, p, 0);
    ProbeStaysAtBoundary(c, p, p, probeSize);
  }

  // ----- scanning from any state at a boundary -----

  /** The scanner is at boundary k, perhaps with a first event to return before it or a probe due. */
  ghost predicate AtBoundary<B>(L: Log, k: nat, st: State<B>)
    requires k <= |L.rest|
  {
    && st.Running? && st.pos == Offset(L, k) && (st.probeSize == 0 || st.probeSize >= 19)
    && st.curOffset + (if st.first.Some? then HeaderOf(st.first.value).eventLength else 0) == Offset(L, k)
  }

  /** A pending first event, if it is wanted, and what follows it. */
  function After<B>(cfg: Config<B>, first: Option<LogEvent<B>>, end: nat, rest: (seq<Item<B>>, Err))
      : (seq<Item<B>>, Err) {
    if first.Some? && cfg.interested(HeaderOf(first.value)) then ([Item(end, first.value)] + rest.0, rest.1) else rest
  }

  lemma SameStepSameScan<B>(cfg: Config<B>, c: seq<byte>, st: State<B>, st': State<B>)
    requires Advance(cfg, c, st) == Advance(cfg, c, st')
    ensures ScanAll(cfg, c, st) == ScanAll(cfg, c, st')
  {
  }

  lemma SameHeaderSameRound(cfg: Config, c: seq<byte>, o: nat, probeSize: nat)
    requires NextHeader(cfg, c, o, o, probeSize) == NextHeader(cfg, c, o, o, 0)
    ensures ReadOne(cfg, c, o, o, probeSize) == ReadOne(cfg, c, o, o, 0)
  {
  }

  lemma SameRoundSameFind(cfg: Config, c: seq<byte>, o: nat, probeSize: nat)
    requires ReadOne(cfg, c, o, o, probeSize) == ReadOne(cfg, c, o, o, 0)
    ensures NextInterested(cfg, c, o, o, probeSize) == NextInterested(cfg, c, o, o, 0)
  {
  }

  lemma SameHeaderSameStep<B>(cfg: Config<B>, c: seq<byte>, o: nat, probeSize: nat)
    requires NextHeader(cfg, c, o, o, probeSize) == NextHeader(cfg, c, o, o, 0)
    ensures Advance(cfg, c, Running(o, o, None, probeSize)) == Advance(cfg, c, Running(o, o, None, 0))
  {
    SameHeaderSameRound(cfg, c, o, probeSize);
    SameRoundSameFind(cfg, c, o, probeSize);
  }

  /** A probe that is due makes no difference at a boundary, the end of the log included. */
  lemma ProbeIsNeutral<B>(L: Log, cfg: Config<B>, k: nat, probeSize: nat)
    requires Suits(cfg, L) && k <= |L.rest| && (probeSize == 0 || probeSize >= 19)
    ensures ScanAll(cfg, Content(L), Running(Offset(L, k), Offset(L, k), None, probeSize))
         == ScanAll(cfg, Content(L), Running(Offset(L, k), Offset(L, k), None, 0))
  {
    if probeSize > 0 {
      if k < |L.rest| {
        ProbeAtBoundary(L, cfg, k, probeSize);
      } else {
        PrefixIsLong(L, k);
      }
      SameHeaderSameStep(cfg, Content(L), Offset(L, k), probeSize);
      SameStepSameScan(cfg, Content(L), Running(Offset(L, k), Offset(L, k), None, probeSize),
                       Running(Offset(L, k), Offset(L, k), None, 0));
    }
  }

  /** A first event that is not wanted is passed over. */
  lemma FirstPassedOver<B>(cfg: Config<B>, content: seq<byte>, pos: nat, cur: nat, first: LogEvent<B>, end: nat,
                           probeSize: nat)
    requires !cfg.interested(HeaderOf(first)) && end == cur + HeaderOf(first).eventLength
    ensures Advance(cfg, content, Running(pos, cur, Some(first), probeSize)) == Seek(cfg, content, pos, end, probeSize)
  {
  }

  /** One that is wanted is returned. */
  lemma FirstTaken<B>(cfg: Config<B>, content: seq<byte>, pos: nat, cur: nat, first: LogEvent<B>, end: nat,
                      probeSize: nat)
    requires cfg.interested(HeaderOf(first)) && end == cur + HeaderOf(first).eventLength
    ensures Advance(cfg, content, Running(pos, cur, Some(first), probeSize))
         == (Running(pos, end, None, probeSize), Ok(Item(end, first)))
  {
  }

  lemma FirstComesFirst<B>(cfg: Config<B>, c: seq<byte>, pos: nat, cur: nat, first: LogEvent<B>, end: nat,
                           probeSize: nat)
    requires end == cur + HeaderOf(first).eventLength
    ensures ScanAll(cfg, c, Running(pos, cur, Some(first), probeSize))
         == After(cfg, Some(first), end, ScanAll(cfg, c, Running(pos, end, None, probeSize)))
  {
    if cfg.interested(HeaderOf(first)) {
      FirstTaken(cfg, c, pos, cur, first, end, probeSize);
      ScanStep(cfg, c, Running(pos, cur, Some(first), probeSize), Running(pos, end, None, probeSize), Item(end, first));
    } else {
      FirstPassedOver(cfg, c, pos, cur, first, end, probeSize);
      SameStepSameScan(cfg, c, Running(pos, cur, Some(first), probeSize), Running(pos, end, None, probeSize));
    }
  }

  lemma ScanStep<B>(cfg: Config<B>, c: seq<byte>, st: State<B>, st': State<B>, item: Item<B>)
    requires Advance(cfg, c, st) == (st', Ok(item))
    ensures ScanAll(cfg, c, st) == ([item] + ScanAll(cfg, c, st').0, ScanAll(cfg, c, st').1)
  {
  }

  lemma ScanWithoutFirst<B>(L: Log, cfg: Config<B>, k: nat, probeSize: nat)
    requires Suits(cfg, L) && k <= |L.rest| && (probeSize == 0 || probeSize >= 19)
    ensures ScanAll(cfg, Content(L), Running(Offset(L, k), Offset(L, k), None, probeSize)) == Expected(cfg, L, k)
  {
    ProbeIsNeutral(L, cfg, k, probeSize);
    ScanFromBoundary(L, cfg, k);
  }

  /** Scanning from any state at a boundary: the first event if one is due, then the events from there on. */
  lemma ScanFromState<B>(L: Log, cfg: Config<B>, k: nat, st: State<B>)
    requires Suits(cfg, L) && k <= |L.rest| && AtBoundary(L, k, st)
    ensures ScanAll(cfg, Content(L), st) == After(cfg, st.first, Offset(L, k), Expected(cfg, L, k))
  {
    ScanWithoutFirst(L, cfg, k, st.probeSize);
    if st.first.Some? {
      FirstComesFirst(cfg, Content(L), st.pos, st.curOffset, st.first.value, Offset(L, k), st.probeSize);
    }
  }

  // ----- filtering in the scanner or after it -----

  predicate Everything(h: Header) { true }

  function Select<B>(items: seq<Item<B>>, f: Header -> bool): seq<Item<B>> {
    if items == [] then []
    else if f(HeaderOf(items[0].ev)) then [items[0]] + Select(items[1..], f)
    else Select(items[1..], f)
  }

  /** No event from k on makes the scanner fail in its mode. */
  ghost predicate NeverFails<B>(cfg: Config<B>, L: Log) {
    forall k :: 0 <= k < |L.rest| ==> EventOf(cfg, L.rest[k]).Ok?
  }

  /** Modes that read strictly ask the decoder to, others do not; what it gives is returned in any of them. */
  lemma DecodedIff<B>(cfg: Config<B>, h: Header, data: seq<byte>, b: B)
    requires cfg.mode != RawMode && cfg.mode != HeaderOnly
    ensures Interpret(cfg, h, data) == Ok(Decoded(h, b))
       <==> cfg.decode(cfg.mode in {Strict, StrictFallback}, h, data) == Some(b)
  {
  }

  /** What it refuses comes out raw in the fallback modes and is an error in the others. */
  lemma RefusedIff<B>(cfg: Config<B>, h: Header, data: seq<byte>)
    requires cfg.mode != RawMode && cfg.mode != HeaderOnly
    ensures cfg.decode(cfg.mode in {Strict, StrictFallback}, h, data).None?
       <==> Interpret(cfg, h, data) == if cfg.mode in {StrictFallback, LooseFallback} then Ok(Raw(RawEvent(h, data)))
                                       else Err(ParseFailed)
  {
  }

  /** Format description and rotate events, 15 and 4, have bare headers; others have what the log declares. */
  lemma ExtraHeaders(L: Log, k: nat)
    requires WellFormed(L) && k < |L.rest|
    ensures |L.rest[k].header.extra| == if L.rest[k].header.typeCode in {4, 15} then 0 else L.headerLength - 19
  {
    assert GoodEvent(L, k);
  }

  lemma RawAndFallbackNeverFail<B>(cfg: Config<B>, L: Log)
    requires cfg.mode in {RawMode, StrictFallback, LooseFallback, HeaderOnly}
    ensures NeverFails(cfg, L)
  {
  }

  lemma {:induction false} ExpectedSelects<B>(L: Log, cfg: Config<B>, f: Header -> bool, k: nat)
    requires k <= |L.rest| && NeverFails(cfg, L)
    ensures var all := Expected(cfg.(interested := Everything), L, k);
            Expected(cfg.(interested := f), L, k) == (Select(all.0, f), all.1)
    decreases |L.rest| - k
  {
    if k < |L.rest| && Offset(L, k + 1) <= cfg.endPos {
      ExpectedSelects(L, cfg, f, k + 1);
      var ev := EventOf(cfg, L.rest[k]).value;
      SelectHead(Item(Offset(L, k + 1), ev), Expected(cfg.(interested := Everything), L, k + 1).0, f);
      assert EventOf(cfg.(interested := Everything), L.rest[k]) == Ok(ev) == EventOf(cfg.(interested := f), L.rest[k]);
      assert HeaderOf(ev) == L.rest[k].header;
    }
  }

  lemma SelectHead<B>(item: Item<B>, items: seq<Item<B>>, f: Header -> bool)
    ensures Select([item] + items, f) == if f(HeaderOf(item.ev)) then [item] + Select(items, f) else Select(items, f)
  {
    assert ([item] + items)[1..] == items;
  }

  /**
   Header-filter pushdown: on a well-formed log, from any state at a boundary, the first event or
   a probe being due or not, filtering inside the scanner gives the same events, offsets and end
   as scanning everything and filtering afterwards.
   */
  lemma PushdownAgrees<B>(L: Log, cfg: Config<B>, f: Header -> bool, k: nat, st: State<B>)
    requires Suits(cfg, L) && k <= |L.rest| && NeverFails(cfg, L) && AtBoundary(L, k, st)
    ensures var all := ScanAll(cfg.(interested := Everything), Content(L), st);
            ScanAll(cfg.(interested := f), Content(L), st) == (Select(all.0, f), all.1)
  {
    ScanFromState(L, cfg.(interested := f), k, st);
    ScanFromState(L, cfg.(interested := Everything), k, st);
    ExpectedSelects(L, cfg, f, k);
    if st.first.Some? {
      SelectHead(Item(Offset(L, k), st.first.value), Expected(cfg.(interested := Everything), L, k).0, f);
    }
  }

  /** In the raw, header-only and fallback modes nothing makes the scanner fail, so there it always agrees. */
  lemma LenientPushdownAgrees<B>(L: Log, cfg: Config<B>, f: Header -> bool, k: nat, st: State<B>)
    requires Suits(cfg, L) && k <= |L.rest| && AtBoundary(L, k, st)
    requires cfg.mode in {RawMode, StrictFallback, LooseFallback, HeaderOnly}
    ensures var all := ScanAll(cfg.(interested := Everything), Content(L), st);
            ScanAll(cfg.(interested := f), Content(L), st) == (Select(all.0, f), all.1)
  {
    RawAndFallbackNeverFail(cfg, L);
    PushdownAgrees(L, cfg, f, k, st);
  }

  /** Offsets are past lo and strictly increase. */
  ghost predicate OffsetsIncrease<B>(items: seq<Item<B>>, lo: nat) {
    && (forall i :: 0 <= i < |items| ==> items[i].offset > lo)
    && (forall i, j :: 0 <= i < j < |items| ==> items[i].offset < items[j].offset)
  }

  lemma OffsetsIncreaseCons<B>(item: Item<B>, items: seq<Item<B>>, lo: nat)
    requires item.offset > lo && OffsetsIncrease(items, item.offset)
    ensures OffsetsIncrease([item] + items, lo)
  {
  }

  lemma {:induction false} HeaderOffsetGrows(cfg: Config, content: seq<byte>, pos: nat, cur: nat, probeSize: nat)
    requires NextInterested(cfg, content, pos, cur, probeSize).Ok?
    ensures NextInterested(cfg, content, pos, cur, probeSize).value.curOffset >= cur
    decreases Left(content, pos)
  {
    var r := ReadOne(cfg, content, pos, cur, probeSize);
    if r.Skipped? {
      HeaderOffsetGrows(cfg, content, r.pos, r.curOffset, 0);
    }
  }

  lemma AdvanceGrows<B>(cfg: Config<B>, content: seq<byte>, st: State<B>)
    requires cfg.headerLength >= 19 && st.Running? && (st.first.Some? ==> HeaderOf(st.first.value).eventLength > 0)
    requires Advance(cfg, content, st).1.Ok?
    ensures var (st', r) := Advance(cfg, content, st);
            st'.curOffset == r.value.offset > st.curOffset
  {
    if st.first.None? {
      HeaderOffsetGrows(cfg, content, st.pos, st.curOffset, st.probeSize);
    } else if !cfg.interested(HeaderOf(st.first.value)) {
      var end := st.curOffset + HeaderOf(st.first.value).eventLength;
      FirstPassedOver(cfg, content, st.pos, st.curOffset, st.first.value, end, st.probeSize);
      HeaderOffsetGrows(cfg, content, st.pos, end, st.probeSize);
    }
  }

  /** Whatever the bytes, the end offsets a scan returns strictly increase. */
  lemma {:induction false} ScannedOffsetsIncrease<B>(cfg: Config<B>, content: seq<byte>, st: State<B>)
    requires cfg.headerLength >= 19 && st.Running? && (st.first.Some? ==> HeaderOf(st.first.value).eventLength > 0)
    ensures OffsetsIncrease(ScanAll(cfg, content, st).0, st.curOffset)
    decreases st.first.Some?, Left(content, st.pos)
  {
    var (st', r) := Advance(cfg, content, st);
    if r.Ok? {
      AdvanceGrows(cfg, content, st);
      ScannedOffsetsIncrease(cfg, content, st');
      OffsetsIncreaseCons(r.value, ScanAll(cfg, content, st').0, st.curOffset);
    }
  }
}
