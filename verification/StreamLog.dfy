/**
 The log of one stream: several binary log files scanned one after the other
 (pkg/binlogtool/cmd/seekcp.go, buildTransactionParsers, over
 pkg/binlogtool/binlog/multi_scan.go) and parsed into two-phase-commit events.
 */
module StreamLog {
  import opened Bytes
  import opened Wrappers
  import opened TxEvents
  import opened BinlogFormat
  import opened BinlogProbe
  import opened BinlogScan
  import opened BinlogLog
  import opened BinlogOpen
  import opened TxParser

  /** A file to scan, from `start` to `endPos`. */
  datatype LogFile = LogFile(name: Name, content: seq<byte>, start: u64, endPos: u64)

  /** How files are scanned; `view` is what the parser sees of an event. */
  datatype Reading<!B> = Reading(options: Options<B>, view: LogEvent<B> -> LogItem)

  function PlaceOf(name: Name, offset: nat): EventOffset {
    EventOffset(name, offset % 0x1_0000_0000_0000_0000)
  }

  function Seen<B>(name: Name, item: Item<B>, view: LogEvent<B> -> LogItem): Logged {
    Logged(PlaceOf(name, item.offset), view(item.ev))
  }

  function AllSeen<B>(name: Name, items: seq<Item<B>>, view: LogEvent<B> -> LogItem): (r: seq<Logged>)
    ensures |r| == |items| && forall i :: 0 <= i < |r| ==> r[i] == Seen(name, items[i], view)
  {
    seq(|items|, i requires 0 <= i < |items| => Seen(name, items[i], view))
  }

  const Broken: Option<ParseErr> := Some(ParseErr.ScanErr([]))

  /** What scanning one file returns; only a normal end is no error. */
  function FileScan<B>(f: LogFile, o: Options<B>): (seq<Item<B>>, Option<ParseErr>) {
    match Open(f.content, f.start, o.(endPos := f.endPos))
    case Err(_) => ([], Broken)
    case Ok((cfg, st)) =>
      var (items, e) := ScanAll(cfg, f.content, st);
      (items, if e == Eof then None else Broken)
  }

  /** Log events and the error after them, if it is one. */
  datatype Scanned = Scanned(items: seq<Logged>, err: Option<ParseErr>)

  function FileItems<B>(f: LogFile, r: Reading<B>): Scanned {
    var (items, e) := FileScan(f, r.options);
    Scanned(AllSeen(f.name, items, r.view), e)
  }

  /** Scanners in turn, up to the first that does not end normally. */
  function Chained(scans: seq<Scanned>): Scanned {
    if scans == [] then Scanned([], None)
    else if scans[0].err.Some? then scans[0]
    else
      var rest := Chained(scans[1..]);
      Scanned(scans[0].items + rest.items, rest.err)
  }

  function Scans<B>(files: seq<LogFile>, r: Reading<B>): (s: seq<Scanned>)
    ensures |s| == |files| && forall i :: 0 <= i < |s| ==> s[i] == FileItems(files[i], r)
  {
    seq(|files|, i requires 0 <= i < |files| => FileItems(files[i], r))
  }

  function EventsOf(scans: seq<Scanned>): seq<Event> {
    Parsed(Chained(scans).items, 0, Fresh, Chained(scans).err).0
  }

  /** The two-phase-commit events of a stream. */
  function StreamEvents<B>(files: seq<LogFile>, r: Reading<B>): seq<Event> { EventsOf(Scans(files, r)) }

  lemma {:induction false} ChainEndsAt(scans: seq<Scanned>, g: nat)
    requires g < |scans| && scans[g].err.Some?
    ensures Chained(scans) == Chained(scans[..g + 1]) && Chained(scans).err.Some?
    decreases g
  {
    if g == 0 {
      assert scans[..1][0] == scans[0];
    } else if scans[0].err.None? {
      ChainEndsAt(scans[1..], g - 1);
      assert scans[1..][..g] == scans[..g + 1][1..];
    }
  }

  /** A file that cannot be opened, or whose scan ends in an error, ends the stream: later files do not matter. */
  lemma BrokenFileEnds<B>(files: seq<LogFile>, g: nat, r: Reading<B>)
    requires g < |files|
    requires match Open(files[g].content, files[g].start, r.options.(endPos := files[g].endPos))
             case Err(_) => true
             case Ok((cfg, st)) => ScanAll(cfg, files[g].content, st).1 != Eof
    ensures Chained(Scans(files, r)) == Chained(Scans(files[..g + 1], r)) && Chained(Scans(files, r)).err.Some?
    ensures StreamEvents(files, r) == StreamEvents(files[..g + 1], r)
  {
    ChainEndsAt(Scans(files, r), g);
    assert Scans(files, r)[..g + 1] == Scans(files[..g + 1], r);
  }

  // ----- reading them -----

  /** Scans one file to its end. */
  method ReadFile<B>(f: LogFile, r: Reading<B>) returns (s: Scanned)
    ensures s == FileItems(f, r)
  {
    match Open(f.content, f.start, r.options.(endPos := f.endPos)) {
      case Err(_) => return Scanned([], Broken);
      case Ok((cfg, st)) =>
        var items, e := ReadAll(f.content, cfg, st);
        s := Scanned(AllSeen(f.name, items, r.view), if e == Eof then None else Broken);
    }
  }

  /** What was read and what is left are together what is wanted. */
  ghost predicate Resumes<B>(read: seq<Item<B>>, left: (seq<Item<B>>, Err), goal: (seq<Item<B>>, Err)) {
    read + left.0 == goal.0 && left.1 == goal.1
  }

  lemma ResumesNext<B>(read: seq<Item<B>>, left: (seq<Item<B>>, Err), goal: (seq<Item<B>>, Err))
    requires Resumes(read, left, goal) && left.0 != []
    ensures Resumes(read + [left.0[0]], (left.0[1..], left.1), goal)
  {
  }

  method ReadAll<B>(content: seq<byte>, cfg: Config<B>, st: State<B>) returns (items: seq<Item<B>>, e: Err)
    requires st.Running?
    ensures (items, e) == ScanAll(cfg, content, st)
  {
    var scanner := new LogEventScanner(content, cfg, st.pos, st.curOffset, st.first, st.probeSize);
    ghost var goal := ScanAll(cfg, content, st);
    ghost var left := goal;
    items := [];
    while true
      invariant fresh(scanner) && scanner.content == content && scanner.cfg == cfg && scanner.View().Running?
      invariant ScanAll(scanner.cfg, scanner.content, scanner.View()) == left && Resumes(items, left, goal)
      decreases |left.0|
    {
      var next := Pull(scanner, left);
      if next.Err? {
        assert items + [] == items;
        return items, next.error;
      }
      ResumesNext(items, left, goal);
      items, left := items + [next.value], (left.0[1..], left.1);
    }
  }

  /** Reads the files in turn; a normal end of one moves on to the next. */
  method ReadStream<B>(files: seq<LogFile>, r: Reading<B>) returns (s: Scanned)
    ensures s == Chained(Scans(files, r))
  {
    ghost var scans := Scans(files, r);
    var items: seq<Logged> := [];
    assert scans[0..] == scans && [] + Chained(scans).items == Chained(scans).items;
    for i := 0 to |files|
      invariant items + Chained(scans[i..]).items == Chained(scans).items &&
                Chained(scans[i..]).err == Chained(scans).err
    {
      var file := ReadFile(files[i], r);
      assert scans[i..][0] == file && scans[i..][1..] == scans[i + 1..];
      if file.err.Some? {
        return Scanned(items + file.items, file.err);
      }
      assert items + (file.items + Chained(scans[i + 1..]).items)
          == (items + file.items) + Chained(scans[i + 1..]).items;
      items := items + file.items;
    }
    assert scans[|files|..] == [] && items + [] == items;
    s := Scanned(items, None);
  }

  // ----- whatever the files, events come in order -----

  lemma FoundEndsInTime(cfg: Config, content: seq<byte>, pos: nat, cur: nat, probeSize: nat)
    requires NextInterested(cfg, content, pos, cur, probeSize).Ok?
    ensures var f := NextInterested(cfg, content, pos, cur, probeSize).value;
            f.curOffset + f.header.eventLength <= cfg.endPos
    decreases Left(content, pos)
  {
    var r := ReadOne(cfg, content, pos, cur, probeSize);
    if r.Skipped? {
      FoundEndsInTime(cfg, content, r.pos, r.curOffset, 0);
    }
  }

  lemma SeekBelow<B>(cfg: Config<B>, content: seq<byte>, pos: nat, cur: nat, probeSize: nat)
    requires Seek(cfg, content, pos, cur, probeSize).1.Ok?
    ensures Seek(cfg, content, pos, cur, probeSize).1.value.offset <= cfg.endPos
  {
    FoundEndsInTime(cfg, content, pos, cur, probeSize);
  }

  lemma AdvanceBelow<B>(cfg: Config<B>, content: seq<byte>, st: State<B>, bound: nat)
    requires cfg.endPos < bound && st.Running? && Advance(cfg, content, st).1.Ok?
    requires st.first.Some? ==> st.curOffset + HeaderOf(st.first.value).eventLength < bound
    ensures Advance(cfg, content, st).1.value.offset < bound
  {
    if st.first.None? {
      SeekBelow(cfg, content, st.pos, st.curOffset, st.probeSize);
    } else if !cfg.interested(HeaderOf(st.first.value)) {
      var end := st.curOffset + HeaderOf(st.first.value).eventLength;
      FirstPassedOver(cfg, content, st.pos, st.curOffset, st.first.value, end, st.probeSize);
      SeekBelow(cfg, content, st.pos, end, st.probeSize);
    }
  }

  ghost predicate AllBelow<B>(items: seq<Item<B>>, bound: nat) {
    forall i :: 0 <= i < |items| ==> items[i].offset < bound
  }

  lemma {:induction false} ScanBelow<B>(cfg: Config<B>, content: seq<byte>, st: State<B>, bound: nat)
    requires cfg.endPos < bound && st.Running?
    requires st.first.Some? ==> st.curOffset + HeaderOf(st.first.value).eventLength < bound
    ensures AllBelow(ScanAll(cfg, content, st).0, bound)
    decreases st.first.Some?, Left(content, st.pos)
  {
    var (st', r) := Advance(cfg, content, st);
    if r.Ok? {
      AdvanceBelow(cfg, content, st, bound);
      ScanBelow(cfg, content, st', bound);
    }
  }

  lemma FirstHeader(bytes: seq<byte>)
    requires |bytes| >= 19 && FirstOf(bytes).Ok?
    ensures FirstOf(bytes).value.header == ParseFixed(bytes[..19])
  {
  }

  lemma LengthInPlace(content: seq<byte>, length: nat)
    requires 19 <= length && 4 + length <= |content|
    ensures ParseFixed(content[4..4 + length][..19]).eventLength == U32(content[13..17])
  {
    var fixed := content[4..4 + length][..19];
    assert Holds(content, 4, fixed);
    FixedInPlace(content, fixed);
  }

  lemma FirstHasLength(content: seq<byte>)
    requires ReadFirst(content).Ok?
    ensures ReadFirst(content).value.header.eventLength >= 19
  {
    var length := U32(content[13..17]);
    LengthInPlace(content, length);
    FirstHeader(content[4..4 + length]);
  }

  lemma FirstKeepsHeader<B>(o: Options<B>, f: First)
    requires |f.bytes| >= 19
    ensures HeaderOf(FirstEvent(o, f)) == f.header
  {
  }

  lemma OpenedFrom<B>(content: seq<byte>, start: nat, o: Options<B>, f: First)
    requires ReadFirst(content) == Ok(f) && Open(content, start, o).Ok?
    ensures var (cfg, st) := Open(content, start, o).value;
            && cfg.headerLength >= 19 && cfg.endPos == o.endPos && st.Running?
            && (st.first.Some? ==> st.first.value == FirstEvent(o, f) && st.curOffset == 4)
  {
  }

  lemma OpenedState<B>(content: seq<byte>, start: nat, o: Options<B>)
    requires Open(content, start, o).Ok?
    ensures var (cfg, st) := Open(content, start, o).value;
            && cfg.headerLength >= 19 && cfg.endPos == o.endPos && st.Running?
            && (st.first.Some? ==> HeaderOf(st.first.value).eventLength > 0 && st.curOffset == 4)
  {
    var f := ReadFirst(content).value;
    FirstHasLength(content);
    OpenedFrom(content, start, o, f);
    FirstKeepsHeader(o, f);
  }

  /** End offsets of a file's events strictly increase and fit 64 bits. */
  ghost predicate Ordered<B>(items: seq<Item<B>>) {
    && AllBelow(items, 0x1_0000_0000_0000_0000)
    && forall i, j :: 0 <= i < j < |items| ==> items[i].offset < items[j].offset
  }

  lemma FileIsOrdered<B>(f: LogFile, o: Options<B>)
    ensures Ordered(FileScan(f, o).0)
  {
    var attempt := Open(f.content, f.start, o.(endPos := f.endPos));
    if attempt.Ok? {
      var (cfg, st) := attempt.value;
      OpenedState(f.content, f.start, o.(endPos := f.endPos));
      ScannedOffsetsIncrease(cfg, f.content, st);
      ScanBelow(cfg, f.content, st, 0x1_0000_0000_0000_0000);
    }
  }

  /** The names are numbered in their order. */
  ghost predicate InRankOrder(rank: Name -> nat, names: seq<Name>) {
    forall i, j :: 0 <= i < j < |names| ==> rank(names[i]) < rank(names[j])
  }

  function NamesOf(files: seq<LogFile>): (names: seq<Name>)
    ensures |names| == |files| && forall i :: 0 <= i < |names| ==> names[i] == files[i].name
  {
    seq(|files|, i requires 0 <= i < |files| => files[i].name)
  }

  ghost predicate Named(s: Scanned, name: Name) {
    forall i :: 0 <= i < |s.items| ==> s.items[i].at.file == name
  }

  /** Every scan is in order and of its file. */
  ghost predicate ScansInOrder(rank: Name -> nat, scans: seq<Scanned>, names: seq<Name>) {
    && |scans| == |names| && InRankOrder(rank, names)
    && forall i :: 0 <= i < |scans| ==> Increasing(rank, scans[i].items) && Named(scans[i], names[i])
  }

  /** Every log event of a chain is one of a scan. */
  lemma {:induction false} ItemIsInScan(scans: seq<Scanned>, i: nat) returns (j: nat, k: nat)
    requires i < |Chained(scans).items|
    ensures j < |scans| && k < |scans[j].items| && scans[j].items[k] == Chained(scans).items[i]
    decreases |scans|
  {
    var items := scans[0].items;
    if i < |items| {
      j, k := 0, i;
    } else {
      var j', k' := ItemIsInScan(scans[1..], i - |items|);
      j, k := j' + 1, k';
    }
  }

  lemma SmallOffset(name: Name, offset: nat)
    requires offset < 0x1_0000_0000_0000_0000
    ensures PlaceOf(name, offset) == EventOffset(name, offset)
  {
  }

  lemma SeenIsIncreasing<B>(rank: Name -> nat, name: Name, items: seq<Item<B>>, view: LogEvent<B> -> LogItem)
    requires Ordered(items)
    ensures Increasing(rank, AllSeen(name, items, view))
  {
    var seen := AllSeen(name, items, view);
    forall i, j | 0 <= i < j < |seen| ensures Before(rank, seen[i].at, seen[j].at) {
      SmallOffset(name, items[i].offset);
      SmallOffset(name, items[j].offset);
    }
  }

  lemma FileIsIncreasing<B>(rank: Name -> nat, f: LogFile, r: Reading<B>)
    ensures Increasing(rank, FileItems(f, r).items) && Named(FileItems(f, r), f.name)
  {
    FileIsOrdered(f, r.options);
    SeenIsIncreasing(rank, f.name, FileScan(f, r.options).0, r.view);
  }

  lemma StreamInOrder<B>(rank: Name -> nat, files: seq<LogFile>, r: Reading<B>)
    requires InRankOrder(rank, NamesOf(files))
    ensures ScansInOrder(rank, Scans(files, r), NamesOf(files))
  {
    forall i | 0 <= i < |files| ensures Increasing(rank, Scans(files, r)[i].items) &&
        Named(Scans(files, r)[i], NamesOf(files)[i]) {
      FileIsIncreasing(rank, files[i], r);
    }
  }

  lemma IncreasingConcat(rank: Name -> nat, a: seq<Logged>, b: seq<Logged>)
    requires Increasing(rank, a) && Increasing(rank, b)
    requires forall i, j :: 0 <= i < |a| && 0 <= j < |b| ==> Before(rank, a[i].at, b[j].at)
    ensures Increasing(rank, a + b)
  {
  }

  lemma {:induction false} ChainIsIncreasing(rank: Name -> nat, scans: seq<Scanned>, names: seq<Name>)
    requires ScansInOrder(rank, scans, names)
    ensures Increasing(rank, Chained(scans).items)
    decreases |scans|
  {
    if scans != [] {
      var items, more := scans[0].items, Chained(scans[1..]).items;
      ChainIsIncreasing(rank, scans[1..], names[1..]);
      forall i, j | 0 <= i < |items| && 0 <= j < |more| ensures Before(rank, items[i].at, more[j].at) {
        var g, k := ItemIsInScan(scans[1..], j);
        assert scans[1..][g] == scans[g + 1] && more[j].at.file == names[g + 1];
      }
      IncreasingConcat(rank, items, more);
    }
  }

  lemma ChainIsLogOrdered(rank: Name -> nat, scans: seq<Scanned>, names: seq<Name>)
    requires ScansInOrder(rank, scans, names)
    ensures LogOrdered(rank, EventsOf(scans))
  {
    ChainIsIncreasing(rank, scans, names);
    ParsedIsLogOrdered(rank, Chained(scans).items, Chained(scans).err);
  }

  /** Whatever the bytes of its files, the two-phase-commit events of a stream are in log order. */
  lemma StreamIsLogOrdered<B>(rank: Name -> nat, files: seq<LogFile>, r: Reading<B>)
    requires InRankOrder(rank, NamesOf(files))
    ensures LogOrdered(rank, StreamEvents(files, r))
  {
    StreamInOrder(rank, files, r);
    ChainIsLogOrdered(rank, Scans(files, r), NamesOf(files));
  }
}
