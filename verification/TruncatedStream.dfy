/**
 Restoring a stream to an offset: the files before it are kept, its file is truncated
 (pkg/binlogtool/cmd/truncate.go), later files are dropped. What is parsed from that is what
 the full stream has up to the offset.
 */
module TruncatedStream {
  import opened Bytes
  import opened Wrappers
  import opened TxEvents
  import opened BinlogFormat
  import opened BinlogProbe
  import opened BinlogScan
  import opened BinlogLog
  import opened BinlogOpen
  import opened BinlogWrite
  import opened TxParser
  import opened StreamLog
  import opened Atomicity

  // ----- a truncated log is a log -----

  function Shortened(L: Log, m: nat): Log
    requires m <= |L.rest|
  {
    L.(rest := L.rest[..m])
  }

  lemma {:induction false} ShortenedPrefix(L: Log, m: nat, k: nat)
    requires k <= m <= |L.rest|
    ensures Prefix(Shortened(L, m), k) == Prefix(L, k) && Offset(Shortened(L, m), k) == Offset(L, k)
  {
    if k > 0 {
      ShortenedPrefix(L, m, k - 1);
    }
  }

  lemma ShortenedIsWellFormed(L: Log, m: nat)
    requires WellFormed(L) && m <= |L.rest|
    ensures WellFormed(Shortened(L, m))
  {
    forall k | 0 <= k < m ensures GoodEvent(Shortened(L, m), k) {
      assert GoodEvent(L, k);
      ShortenedPrefix(L, m, k);
    }
  }

  lemma ShortenedFdeIsGood(L: Log, m: nat)
    requires GoodFde(L) && m <= |L.rest|
    ensures GoodFde(Shortened(L, m))
  {
  }

  /** Truncating a CRC-32 log at an offset gives the log of its events that end by the offset. */
  lemma TruncatedIsShortened(L: Log, crc: bool, endPos: nat)
    requires WellFormed(L) && GoodFde(L) && L.crc
    ensures Truncated(Content(L), crc, endPos, 0) == Content(Shortened(L, KeptUpTo(L, endPos, 0, 0)))
  {
    var m := KeptUpTo(L, endPos, 0, 0);
    TruncateIsPrefix(L, crc, endPos, 0);
    PrefixGrows(L, m, |L.rest|);
    ShortenedPrefix(L, m, m);
  }

  // ----- scanning it -----

  /** a is the part of b up to the offset. */
  ghost predicate UpToOffset<B>(a: seq<Item<B>>, b: seq<Item<B>>, offset: nat) {
    a <= b && forall i :: 0 <= i < |b| ==> (i < |a| <==> b[i].offset <= offset)
  }

  lemma ExpectedIsPast<B>(cfg: Config<B>, L: Log, k: nat)
    requires Suits(cfg, L) && k <= |L.rest|
    ensures OffsetsIncrease(Expected(cfg, L, k).0, Offset(L, k))
  {
    ScanFromBoundary(L, cfg, k);
    ScannedOffsetsIncrease(cfg, Content(L), Boundary(L, k));
  }

  lemma UpToOffsetCons<B>(item: Item<B>, a: seq<Item<B>>, b: seq<Item<B>>, offset: nat)
    requires UpToOffset(a, b, offset) && item.offset <= offset
    ensures UpToOffset([item] + a, [item] + b, offset)
  {
  }

  lemma {:induction false} ExpectedOfShortened<B>(cfg: Config<B>, L: Log, m: nat, k: nat, offset: nat)
    requires Suits(cfg, L) && k <= m <= |L.rest| && Offset(L, m) <= offset
    requires m < |L.rest| ==> Offset(L, m + 1) > offset
    ensures UpToOffset(Expected(cfg, Shortened(L, m), k).0, Expected(cfg, L, k).0, offset)
    decreases m - k
  {
    ShortenedPrefix(L, m, k);
    if k < m {
      ShortenedPrefix(L, m, k + 1);
      ExpectedOfShortened(cfg, L, m, k + 1, offset);
      BoundariesUpTo(L, k + 1, m);
      FromUpTo(cfg, Offset(L, k + 1), L.rest[k], Expected(cfg, Shortened(L, m), k + 1), Expected(cfg, L, k + 1),
          offset);
    } else if m < |L.rest| {
      PastTheEnd(cfg, L, m, offset);
    }
  }

  lemma {:induction false} BoundariesUpTo(L: Log, j: nat, k: nat)
    requires j <= k <= |L.rest|
    ensures Offset(L, j) <= Offset(L, k)
  {
    if j < k {
      BoundariesIncrease(L, j, k);
    }
  }

  lemma FromUpTo<B>(cfg: Config<B>, end: nat, ev: RawEvent, a: (seq<Item<B>>, Err), b: (seq<Item<B>>, Err), offset: nat)
    requires end <= offset && UpToOffset(a.0, b.0, offset)
    ensures UpToOffset(From(cfg, end, ev, a).0, From(cfg, end, ev, b).0, offset)
  {
    if cfg.interested(ev.header) && EventOf(cfg, ev).Ok? {
      UpToOffsetCons(Item(end, EventOf(cfg, ev).value), a.0, b.0, offset);
    }
  }

  /** Past event m nothing ends by the offset. */
  lemma PastTheEnd<B>(cfg: Config<B>, L: Log, m: nat, offset: nat)
    requires Suits(cfg, L) && m < |L.rest| && Offset(L, m + 1) > offset
    ensures UpToOffset([], Expected(cfg, L, m).0, offset)
  {
    ExpectedIsPast(cfg, L, m + 1);
  }

  /** A file is a log with right checksums, read from its boundary k, or from its start with k 0. */
  ghost predicate IsLog(f: LogFile, L: Log, k: nat) {
    && WellFormed(L) && GoodFde(L) && L.crc && f.content == Content(L) && k <= |L.rest|
    && (f.start == Offset(L, k) || (k == 0 && (f.start == 0 || f.start == 4)))
  }

  /** The first event, if the file is read from its start, as a scan returns it. */
  function FirstOnDisk<B>(f: LogFile, L: Log, o: Options<B>): Option<LogEvent<B>>
    requires GoodFde(L)
  {
    if f.start == 0 || f.start == 4 then Some(FirstDue(L, o)) else None
  }

  predicate Probes<B>(o: Options<B>) { o.probeSize == 0 || o.probeSize >= 19 }

  /** The state a scan of such a file starts in. */
  function StateOf<B>(f: LogFile, L: Log, k: nat, o: Options<B>): State<B>
    requires GoodFde(L) && k <= |L.rest|
  {
    Running(Offset(L, k), if f.start == 4 || f.start == 0 then 4 else f.start, FirstOnDisk(f, L, o), o.probeSize)
  }

  lemma StateIsAtBoundary<B>(f: LogFile, L: Log, k: nat, o: Options<B>)
    requires IsLog(f, L, k) && Probes(o)
    ensures AtBoundary(L, k, StateOf(f, L, k, o))
  {
    BoundariesUpTo(L, 0, k);
  }

  lemma LogState<B>(f: LogFile, L: Log, k: nat, o: Options<B>)
    requires IsLog(f, L, k)
    ensures Open(f.content, f.start, o) == Ok((ConfigFor(o, FdeOf(L)), StateOf(f, L, k, o)))
    ensures Suits(ConfigFor(o, FdeOf(L)), L)
  {
    if f.start == 0 || f.start == 4 {
      OpenAtStart(L, f.start, o);
    } else {
      BoundariesUpTo(L, 0, k);
      OpenAtBoundary(L, f.start, o);
    }
  }

  /** What scanning such a file returns. */
  lemma LogScan<B>(f: LogFile, L: Log, k: nat, o: Options<B>)
    requires IsLog(f, L, k) && Probes(o)
    ensures var o' := o.(endPos := f.endPos);
            var cfg := ConfigFor(o', FdeOf(L));
            && Suits(cfg, L)
            && FileScan(f, o).0 == After(cfg, FirstOnDisk(f, L, o'), Offset(L, k), Expected(cfg, L, k)).0
  {
    var o' := o.(endPos := f.endPos);
    LogState(f, L, k, o');
    StateIsAtBoundary(f, L, k, o');
    ScanFromState(L, ConfigFor(o', FdeOf(L)), k, StateOf(f, L, k, o'));
  }

  lemma AfterUpTo<B>(cfg: Config<B>, first: Option<LogEvent<B>>, end: nat, a: (seq<Item<B>>, Err),
                     b: (seq<Item<B>>, Err), offset: nat)
    requires end <= offset && UpToOffset(a.0, b.0, offset)
    ensures UpToOffset(After(cfg, first, end, a).0, After(cfg, first, end, b).0, offset)
  {
    if first.Some? && cfg.interested(HeaderOf(first.value)) {
      UpToOffsetCons(Item(end, first.value), a.0, b.0, offset);
    }
  }

  /** A file truncated at an offset by the truncate command. */
  function TruncatedFile(f: LogFile, crc: bool, offset: nat): LogFile {
    f.(content := Truncated(f.content, crc, offset, 0))
  }

  /** The events kept are at least those up to a boundary that is not past the offset, and end by the offset. */
  lemma KeptEndsByOffset(L: Log, k: nat, offset: nat)
    requires k <= |L.rest| && Offset(L, k) <= offset
    ensures var m := KeptUpTo(L, offset, 0, 0);
            k <= m && Offset(L, m) <= offset && (m < |L.rest| ==> Offset(L, m + 1) > offset)
  {
    var m := KeptUpTo(L, offset, 0, 0);
    if m < k {
      BoundariesUpTo(L, m + 1, k);
    } else if m > k {
      assert Kept(L, offset, 0, m - 1);
    }
  }

  lemma ShortenedIsLog(f: LogFile, f': LogFile, L: Log, k: nat, m: nat)
    requires IsLog(f, L, k) && k <= m <= |L.rest| && f'.content == Content(Shortened(L, m)) && f'.start == f.start
    ensures IsLog(f', Shortened(L, m), k)
  {
    ShortenedIsWellFormed(L, m);
    ShortenedFdeIsGood(L, m);
    ShortenedPrefix(L, m, k);
  }

  lemma ScanOfShortened<B>(f: LogFile, f': LogFile, L: Log, k: nat, m: nat, offset: nat, o: Options<B>)
    requires IsLog(f, L, k) && k <= m <= |L.rest| && IsLog(f', Shortened(L, m), k) && Probes(o)
    requires f.start == f'.start && f.endPos == f'.endPos
    requires Offset(L, k) <= Offset(L, m) <= offset && (m < |L.rest| ==> Offset(L, m + 1) > offset)
    ensures UpToOffset(FileScan(f', o).0, FileScan(f, o).0, offset)
  {
    var S, o' := Shortened(L, m), o.(endPos := f.endPos);
    var cfg := ConfigFor(o', FdeOf(L));
    LogScan(f, L, k, o);
    LogScan(f', S, k, o);
    ShortenedPrefix(L, m, k);
    ExpectedOfShortened(cfg, L, m, k, offset);
    AfterUpTo(cfg, FirstOnDisk(f, L, o'), Offset(L, k), Expected(cfg, S, k), Expected(cfg, L, k), offset);
  }

  /** Scanning a truncated log returns the events of the full one that end by the offset. */
  lemma ScanOfTruncated<B>(f: LogFile, L: Log, k: nat, crc: bool, offset: nat, o: Options<B>)
    requires IsLog(f, L, k) && Probes(o) && Offset(L, k) <= offset
    ensures UpToOffset(FileScan(TruncatedFile(f, crc, offset), o).0, FileScan(f, o).0, offset)
  {
    var m := KeptUpTo(L, offset, 0, 0);
    TruncatedIsShortened(L, crc, offset);
    KeptEndsByOffset(L, k, offset);
    BoundariesUpTo(L, k, m);
    ShortenedIsLog(f, TruncatedFile(f, crc, offset), L, k, m);
    ScanOfShortened(f, TruncatedFile(f, crc, offset), L, k, m, offset, o);
  }

  // ----- the stream -----

  /** The first k log events are those not past p. */
  ghost predicate CutAt(rank: Name -> nat, items: seq<Logged>, k: nat, p: EventOffset) {
    k <= |items| && forall i :: 0 <= i < |items| ==> (i < k <==> UpTo(rank, items[i].at, p))
  }

  /** The stream restored to an offset in file g. */
  function TruncatedFiles(files: seq<LogFile>, g: nat, crc: bool, offset: nat): seq<LogFile>
    requires g < |files|
  {
    files[..g] + [TruncatedFile(files[g], crc, offset)]
  }

  lemma SeenUpTo<B>(rank: Name -> nat, name: Name, a: seq<Item<B>>, b: seq<Item<B>>, view: LogEvent<B> -> LogItem,
                    p: EventOffset)
    requires UpToOffset(a, b, p.offset) && Ordered(b) && p.file == name
    ensures AllSeen(name, a, view) == AllSeen(name, b, view)[..|a|] && CutAt(rank, AllSeen(name, b, view), |a|, p)
  {
    var seen := AllSeen(name, b, view);
    forall i | 0 <= i < |seen| ensures i < |a| <==> UpTo(rank, seen[i].at, p) {
      SmallOffset(name, b[i].offset);
    }
  }

  /** One scan returns the log events of another that are not past p. */
  ghost predicate IsCutOf(rank: Name -> nat, s': Scanned, s: Scanned, p: EventOffset) {
    s'.items <= s.items && CutAt(rank, s.items, |s'.items|, p)
  }

  lemma TruncatedIsCut<B>(rank: Name -> nat, f: LogFile, L: Log, k: nat, crc: bool, p: EventOffset, r: Reading<B>)
    requires IsLog(f, L, k) && Probes(r.options) && p.file == f.name && Offset(L, k) <= p.offset
    ensures IsCutOf(rank, FileItems(TruncatedFile(f, crc, p.offset), r), FileItems(f, r), p)
  {
    ScanOfTruncated(f, L, k, crc, p.offset, r.options);
    FileIsOrdered(f, r.options);
    SeenUpTo(rank, f.name, FileScan(TruncatedFile(f, crc, p.offset), r.options).0, FileScan(f, r.options).0, r.view, p);
  }

  lemma CutAtLater(rank: Name -> nat, a: seq<Logged>, b: seq<Logged>, k: nat, p: EventOffset)
    requires CutAt(rank, a, k, p) && forall j :: 0 <= j < |b| ==> !UpTo(rank, b[j].at, p)
    ensures CutAt(rank, a + b, k, p)
  {
  }

  lemma CutAtEarlier(rank: Name -> nat, a: seq<Logged>, b: seq<Logged>, k: nat, p: EventOffset)
    requires CutAt(rank, b, k, p) && forall j :: 0 <= j < |a| ==> UpTo(rank, a[j].at, p)
    ensures CutAt(rank, a + b, |a| + k, p)
  {
  }

  lemma LaterScansArePast(rank: Name -> nat, scans: seq<Scanned>, names: seq<Name>, p: EventOffset)
    requires |scans| == |names| && forall i :: 0 <= i < |scans| ==>
             Named(scans[i], names[i]) && rank(p.file) < rank(names[i])
    ensures forall j :: 0 <= j < |Chained(scans).items| ==> !UpTo(rank, Chained(scans).items[j].at, p)
  {
    var items := Chained(scans).items;
    forall j | 0 <= j < |items| ensures !UpTo(rank, items[j].at, p) {
      var g, k := ItemIsInScan(scans, j);
    }
  }

  lemma RestoredInFirst(rank: Name -> nat, scans: seq<Scanned>, names: seq<Name>, s': Scanned, p: EventOffset)
      returns (k: nat)
    requires ScansInOrder(rank, scans, names) && scans != [] && p.file == names[0] && IsCutOf(rank, s', scans[0], p)
    ensures CutAt(rank, Chained(scans).items, k, p) && s'.items == Chained(scans).items[..k]
  {
    k := |s'.items|;
    if scans[0].err.None? {
      LaterScansArePast(rank, scans[1..], names[1..], p);
      CutAtLater(rank, scans[0].items, Chained(scans[1..]).items, k, p);
    }
  }

  lemma RestoredInLater(rank: Name -> nat, s: Scanned, rest: seq<Logged>, rest': seq<Logged>, name: Name,
                        p: EventOffset, k: nat)
    requires Named(s, name) && rank(name) < rank(p.file) && CutAt(rank, rest, k, p) && rest' == rest[..k]
    ensures CutAt(rank, s.items + rest, |s.items| + k, p) && s.items + rest' == (s.items + rest)[..|s.items| + k]
  {
    CutAtEarlier(rank, s.items, rest, k, p);
  }

  /** With scan g cut at p and later scans dropped, a chain has the log events not past p. */
  lemma {:induction false} RestoredItems(rank: Name -> nat, scans: seq<Scanned>, names: seq<Name>, g: nat,
                                         s': Scanned, p: EventOffset)
    returns (k: nat)
    requires ScansInOrder(rank, scans, names) && g < |scans| && p.file == names[g] && IsCutOf(rank, s', scans[g], p)
    ensures CutAt(rank, Chained(scans).items, k, p) && Chained(scans[..g] + [s']).items == Chained(scans).items[..k]
    decreases g
  {
    var scans' := scans[..g] + [s'];
    if g == 0 {
      assert scans' == [s'] && scans'[1..] == [] && s'.items + [] == s'.items;
      k := RestoredInFirst(rank, scans, names, s', p);
    } else {
      assert scans'[0] == scans[0] && scans'[1..] == scans[1..][..g - 1] + [s'];
      var rest := RestoredItems(rank, scans[1..], names[1..], g - 1, s', p);
      if scans[0].err.Some? {
        k := |scans[0].items|;
      } else {
        k := |scans[0].items| + rest;
        RestoredInLater(rank, scans[0], Chained(scans[1..]).items, Chained(scans'[1..]).items, names[0], p, rest);
      }
    }
  }

  // ----- parsing it -----

  /** Events parsed from log event j on are at places of log events from there on. */
  lemma {:induction false} ParsedFromRest(items: seq<Logged>, j: nat, l: Local, end: Option<ParseErr>, i: nat)
      returns (at: nat)
    requires j <= |items| && i < |Parsed(items, j, l, end).0| && !Parsed(items, j, l, end).0[i].typ.Begin?
    ensures j <= at < |items| && At(Parsed(items, j, l, end).0[i]) == items[at].at
    decreases |items| - j
  {
    match OnItem(l, items[j])
    case Continue(l') =>
      at := ParsedFromRest(items, j + 1, l', end, i);
    case Emit(evs) =>
      if i < |evs| {
        at := j;
      } else {
        at := ParsedFromRest(items, j + 1, Fresh, end, i - |evs|);
      }
  }

  /** pre is the part of full up to p, as far as events that are no begins are concerned. */
  ghost predicate EventsUpTo(rank: Name -> nat, pre: seq<Event>, full: seq<Event>, p: EventOffset) {
    pre <= full && forall i :: 0 <= i < |full| && !full[i].typ.Begin? ==> (i < |pre| <==> UpTo(rank, At(full[i]), p))
  }

  lemma EventsUpToConcat(rank: Name -> nat, evs: seq<Event>, pre: seq<Event>, full: seq<Event>, p: EventOffset)
    requires EventsUpTo(rank, pre, full, p) && forall e :: e in evs && !e.typ.Begin? ==> UpTo(rank, At(e), p)
    ensures EventsUpTo(rank, evs + pre, evs + full, p)
  {
    forall i | 0 <= i < |evs + full| && !(evs + full)[i].typ.Begin?
      ensures i < |evs + pre| <==> UpTo(rank, At((evs + full)[i]), p)
    {
      if i < |evs| {
        assert evs[i] in evs;
      } else {
        assert (evs + full)[i] == full[i - |evs|];
      }
    }
  }

  /** Parsing the log events not past p gives the events not past p. */
  lemma {:induction false} ParsedOfPrefix(
    rank: Name -> nat, items: seq<Logged>, k: nat, p: EventOffset, j: nat, l: Local, end: Option<ParseErr>,
    end': Option<ParseErr>)
    requires j <= k && CutAt(rank, items, k, p)
    ensures EventsUpTo(rank, Parsed(items[..k], j, l, end').0, Parsed(items, j, l, end).0, p)
    decreases k - j
  {
    var full := Parsed(items, j, l, end).0;
    if j == k {
      forall i | 0 <= i < |full| && !full[i].typ.Begin? ensures !UpTo(rank, At(full[i]), p) {
        var at := ParsedFromRest(items, j, l, end, i);
      }
    } else {
      match OnItem(l, items[j])
      case Fail(_) =>
      case Continue(l') =>
        ParsedOfPrefix(rank, items, k, p, j + 1, l', end, end');
      case Emit(evs) =>
        ParsedOfPrefix(rank, items, k, p, j + 1, Fresh, end, end');
        EmittedAtItem(rank, l, items[j]);
        EventsUpToConcat(rank, evs, Parsed(items[..k], j + 1, Fresh, end').0, Parsed(items, j + 1, Fresh, end).0, p);
    }
  }

  /** A restored stream parses to a prefix of the full one; an event is in it exactly when it is not past p. */
  lemma RestoredEvents<B>(rank: Name -> nat, files: seq<LogFile>, g: nat, f': LogFile, p: EventOffset, r: Reading<B>)
    requires InRankOrder(rank, NamesOf(files)) && g < |files| && p.file == files[g].name
    requires IsCutOf(rank, FileItems(f', r), FileItems(files[g], r), p)
    ensures EventsUpTo(rank, StreamEvents(files[..g] + [f'], r), StreamEvents(files, r), p)
  {
    StreamInOrder(rank, files, r);
    RestoredChain(rank, Scans(files, r), NamesOf(files), g, FileItems(f', r), p);
    ScansOfRestored(files, g, f', r);
  }

  lemma RestoredChain(rank: Name -> nat, scans: seq<Scanned>, names: seq<Name>, g: nat, s': Scanned, p: EventOffset)
    requires ScansInOrder(rank, scans, names) && g < |scans| && p.file == names[g] && IsCutOf(rank, s', scans[g], p)
    ensures EventsUpTo(rank, EventsOf(scans[..g] + [s']), EventsOf(scans), p)
  {
    var k := RestoredItems(rank, scans, names, g, s', p);
    ParsedOfPrefix(rank, Chained(scans).items, k, p, 0, Fresh, Chained(scans).err, Chained(scans[..g] + [s']).err);
  }

  lemma ScansOfRestored<B>(files: seq<LogFile>, g: nat, f': LogFile, r: Reading<B>)
    requires g < |files|
    ensures Scans(files[..g] + [f'], r) == Scans(files, r)[..g] + [FileItems(f', r)]
  {
  }

  /** So does a stream whose file g, a log with right checksums, was truncated at p. */
  lemma TruncatedEvents<B>(rank: Name -> nat, files: seq<LogFile>, g: nat, L: Log, k: nat, crc: bool, p: EventOffset,
                           r: Reading<B>)
    requires InRankOrder(rank, NamesOf(files)) && g < |files| && p.file == files[g].name
    requires IsLog(files[g], L, k) && Probes(r.options) && Offset(L, k) <= p.offset
    ensures EventsUpTo(rank, StreamEvents(TruncatedFiles(files, g, crc, p.offset), r), StreamEvents(files, r), p)
  {
    TruncatedIsCut(rank, files[g], L, k, crc, p, r);
    RestoredEvents(rank, files, g, TruncatedFile(files[g], crc, p.offset), p, r);
  }

  // ----- an event's place is not before where its file is read from -----

  /** No log event of a scan ends before the offset low. */
  ghost predicate StartsAt(s: Scanned, low: nat) {
    forall i :: 0 <= i < |s.items| ==> low <= s.items[i].at.offset
  }

  ghost predicate AllFrom<B>(items: seq<Item<B>>, low: nat) {
    forall i :: 0 <= i < |items| ==> low <= items[i].offset
  }

  lemma AfterIsFrom<B>(cfg: Config<B>, first: Option<LogEvent<B>>, end: nat, rest: (seq<Item<B>>, Err))
    requires OffsetsIncrease(rest.0, end)
    ensures AllFrom(After(cfg, first, end, rest).0, end)
  {
  }

  lemma SeenStartsAt<B>(name: Name, items: seq<Item<B>>, view: LogEvent<B> -> LogItem, low: nat)
    requires Ordered(items) && AllFrom(items, low)
    ensures forall i :: 0 <= i < |items| ==> low <= AllSeen(name, items, view)[i].at.offset
  {
    forall i | 0 <= i < |items| ensures low <= AllSeen(name, items, view)[i].at.offset {
      SmallOffset(name, items[i].offset);
    }
  }

  lemma LogScanIsFrom<B>(f: LogFile, L: Log, k: nat, o: Options<B>)
    requires IsLog(f, L, k) && Probes(o)
    ensures AllFrom(FileScan(f, o).0, Offset(L, k))
  {
    var o' := o.(endPos := f.endPos);
    var cfg := ConfigFor(o', FdeOf(L));
    LogScan(f, L, k, o);
    ExpectedIsPast(cfg, L, k);
    AfterIsFrom(cfg, FirstOnDisk(f, L, o'), Offset(L, k), Expected(cfg, L, k));
  }

  lemma LogStartsAt<B>(f: LogFile, L: Log, k: nat, r: Reading<B>)
    requires IsLog(f, L, k) && Probes(r.options)
    ensures StartsAt(FileItems(f, r), Offset(L, k))
  {
    LogScanIsFrom(f, L, k, r.options);
    FileIsOrdered(f, r.options);
    SeenStartsAt(f.name, FileScan(f, r.options).0, r.view, Offset(L, k));
  }
}
