/**
 The version 4 log event scanner (pkg/binlogtool/binlog/scan.go). Functions say what one call
 does to the scanner's state; the class below does it field by field.
 */
module BinlogScan {
  import opened Bytes
  import opened Wrappers
  import opened Crc32
  import opened BinlogFormat
  import opened BinlogProbe

  datatype ScanMode = Strict | Loose | StrictFallback | LooseFallback | RawMode | HeaderOnly

  /** A scanned event: raw, or with its data decoded to a B. */
  datatype LogEvent<B> = Raw(raw: RawEvent) | Decoded(head: Header, body: B)

  function HeaderOf<B>(ev: LogEvent<B>): Header {
    match ev
    case Raw(raw) => raw.header
    case Decoded(head, _) => head
  }

  /**
   The scanner's options. `interested` is the header filter, accepting all when none is set;
   `decode` stands for the per-type layouts, told whether to be strict.
   */
  datatype Config<!B> = Config(
    headerLength: nat, crc: bool, validate: bool, endPos: nat, mode: ScanMode,
    interested: Header -> bool, decode: (bool, Header, seq<byte>) -> Option<B>)

  /** An event and the log offset of its end. */
  datatype Item<B> = Item(offset: nat, ev: LogEvent<B>)

  /** The reader's position, the log offset, the first event while it is due, and the probe size while it is due. */
  datatype State<B> =
    | Running(pos: nat, curOffset: nat, first: Option<LogEvent<B>>, probeSize: nat)
    | Stopped(err: Err)

  // ----- reading -----

  function ReadFull(content: seq<byte>, pos: nat, n: nat): (r: Result<seq<byte>, Err>)
    ensures r.Ok? ==> |r.value| == n
  {
    if n == 0 then Ok([])
    else if pos + n <= |content| then Ok(content[pos..pos + n])
    else Err(if pos < |content| then UnexpectedEof else Eof)
  }

  /** A header read at pos - 19, whose fixed part is known; `pos` is after all of the header. */
  datatype Found = Found(header: Header, pos: nat, curOffset: nat)

  function ReadExtra(cfg: Config, content: seq<byte>, fixed: seq<byte>, pos: nat, cur: nat): (r: Result<Found, Err>)
    requires |fixed| == 19
    ensures r.Ok? ==> r.value.pos >= pos && r.value.curOffset == cur
  {
    var h := ParseFixed(fixed);
    var n := HeaderLengthOf(h.typeCode, cfg.headerLength);
    if n <= 19 then Ok(Found(h, pos, cur))
    else
      match ReadFull(content, pos, n - 19)
      case Err(e) => Err(e)
      case Ok(extra) => Ok(Found(h.(extra := extra), pos + n - 19, cur))
  }

  /** The next header: probed for while a probe is due, read in place otherwise. */
  function NextHeader(cfg: Config, content: seq<byte>, pos: nat, cur: nat, probeSize: nat): (r: Result<Found, Err>)
    ensures r.Ok? ==> pos + 19 <= r.value.pos && pos < |content|
  {
    if probeSize > 0 then
      match Probe(content, pos, cur, probeSize)
      case Err(e) => Err(e)
      case Ok(k) =>
        ProbeFindsFirst(content, pos, cur, probeSize, k);
        ReadExtra(cfg, content, Window(content, pos + k), pos + k + 19, cur + k)
    else
      match ReadFull(content, pos, 19)
      case Err(e) => Err(e)
      case Ok(fixed) => ReadExtra(cfg, content, fixed, pos + 19, cur)
  }

  /** Length of an event's data and checksum; negative for a header that lies. */
  function RestLength(cfg: Config, h: Header): int {
    h.eventLength - HeaderLengthOf(h.typeCode, cfg.headerLength)
  }

  predicate ChecksumIsRight(h: Header, data: seq<byte>, footer: seq<byte>) {
    FromLittleEndian(footer) == Update(Update(0, HeaderBytes(h)), data) as nat
  }

  /** The bytes after a header, without their checksum. */
  function WithoutChecksum(cfg: Config, h: Header, s: seq<byte>): Result<seq<byte>, Err> {
    var n := |s|;
    if !cfg.crc then Ok(s)
    else if n < 4 then Err(BrokenBinlog)
    else if cfg.validate && !ChecksumIsRight(h, s[..n - 4], s[n - 4..]) then Err(ChecksumMismatch)
    else Ok(s[..n - 4])
  }

  function ReadData(cfg: Config, content: seq<byte>, h: Header, pos: nat): (r: Result<seq<byte>, Err>)
    ensures r.Ok? ==> RestLength(cfg, h) >= 0
  {
    var n := RestLength(cfg, h);
    if n < 0 then Err(InvalidEvent)
    else
      match ReadFull(content, pos, n)
      case Err(e) => Err(e)
      case Ok(s) => WithoutChecksum(cfg, h, s)
  }

  /** Moving past an event that is not wanted. */
  function SkipEvent(cfg: Config, content: seq<byte>, h: Header, pos: nat): (r: Result<nat, Err>)
    ensures r.Ok? ==> r.value >= pos
  {
    var n := RestLength(cfg, h);
    if !cfg.crc || !cfg.validate then
      if n < 0 then Err(InvalidEvent) else Ok(pos + n)
    else
      match ReadData(cfg, content, h, pos)
      case Err(e) => Err(e)
      case Ok(_) => Ok(pos + n)
  }

  function Left(content: seq<byte>, pos: nat): nat {
    if pos <= |content| then |content| - pos else 0
  }

  /** What the checks on a header that was just read say. */
  function CheckHeader(cfg: Config, f: Found): Result<bool, Err> {
    if (f.curOffset + f.header.eventLength) % 0x1_0000_0000 != f.header.nextPosition then Err(BadEvent)
    else if f.curOffset + f.header.eventLength > cfg.endPos then Err(Eof)
    else Ok(cfg.interested(f.header))
  }

  /** One header read and judged: wanted, skipped to the next one, or an error. */
  datatype Round = Wanted(f: Found) | Skipped(pos: nat, curOffset: nat) | Failed(err: Err)

  function ReadOne(cfg: Config, content: seq<byte>, pos: nat, cur: nat, probeSize: nat): (r: Round)
    ensures r.Wanted? ==> pos + 19 <= r.f.pos && pos < |content|
    ensures r.Skipped? ==> pos + 19 <= r.pos && pos < |content|
  {
    match NextHeader(cfg, content, pos, cur, probeSize)
    case Err(e) => Failed(e)
    case Ok(f) =>
      match CheckHeader(cfg, f)
      case Err(e) => Failed(e)
      case Ok(wanted) =>
        if wanted then Wanted(f)
        else
          match SkipEvent(cfg, content, f.header, f.pos)
          case Err(e) => Failed(e)
          case Ok(p) => Skipped(p, f.curOffset + f.header.eventLength)
  }

  function NextInterested(cfg: Config, content: seq<byte>, pos: nat, cur: nat, probeSize: nat): (r: Result<Found, Err>)
    ensures r.Ok? ==> pos + 19 <= r.value.pos && pos < |content|
    decreases Left(content, pos)
  {
    match ReadOne(cfg, content, pos, cur, probeSize)
    case Failed(e) => Err(e)
    case Wanted(f) => Ok(f)
    case Skipped(p, c) => NextInterested(cfg, content, p, c, 0)
  }

  function Interpret<B>(cfg: Config<B>, h: Header, data: seq<byte>): Result<LogEvent<B>, Err> {
    if cfg.mode == RawMode then Ok(Raw(RawEvent(h, data)))
    else
      match cfg.decode(cfg.mode == Strict || cfg.mode == StrictFallback, h, data)
      case Some(b) => Ok(Decoded(h, b))
      case None =>
        if cfg.mode == StrictFallback || cfg.mode == LooseFallback then Ok(Raw(RawEvent(h, data)))
        else Err(ParseFailed)
  }

  /** Reading the event whose header was found. */
  function Finish<B>(cfg: Config<B>, content: seq<byte>, f: Found): (r: Result<LogEvent<B>, Err>)
    ensures r.Ok? ==> RestLength(cfg, f.header) >= 0
  {
    if cfg.mode == HeaderOnly then
      if RestLength(cfg, f.header) < 0 then Err(InvalidEvent) else Ok(Raw(RawEvent(f.header, [])))
    else
      match ReadData(cfg, content, f.header, f.pos)
      case Err(e) => Err(e)
      case Ok(data) => Interpret(cfg, f.header, data)
  }

  function Normalized(e: Err): Err { if e == UnexpectedEof then Eof else e }

  /** From the header that was found to the event and the state after it. */
  function SeekFrom<B>(cfg: Config<B>, content: seq<byte>, found: Result<Found, Err>)
      : (r: (State<B>, Result<Item<B>, Err>))
    ensures r.1.Err? ==> r.0 == Stopped(r.1.error)
    ensures r.1.Ok? ==> found.Ok? && r.0.Running? && r.0.first.None? && r.0.pos >= found.value.pos
  {
    match found
    case Err(e) => (Stopped(Normalized(e)), Err(Normalized(e)))
    case Ok(f) =>
      match Finish(cfg, content, f)
      case Err(e) => (Stopped(Normalized(e)), Err(Normalized(e)))
      case Ok(ev) =>
        var end := f.curOffset + f.header.eventLength;
        (Running(f.pos + RestLength(cfg, f.header), end, None, 0), Ok(Item(end, ev)))
  }

  function Seek<B>(cfg: Config<B>, content: seq<byte>, pos: nat, cur: nat, probeSize: nat)
      : (r: (State<B>, Result<Item<B>, Err>))
    ensures r.1.Err? ==> r.0 == Stopped(r.1.error)
    ensures r.1.Ok? ==> r.0.Running? && r.0.first.None? && Left(content, r.0.pos) < Left(content, pos)
  {
    SeekFrom(cfg, content, NextInterested(cfg, content, pos, cur, probeSize))
  }

  /** One call of Next: the new state, and the event or error returned. */
  function Advance<B>(cfg: Config<B>, content: seq<byte>, st: State<B>): (r: (State<B>, Result<Item<B>, Err>))
    ensures r.1.Err? ==> r.0 == Stopped(r.1.error)
    ensures r.1.Ok? ==> r.0.Running? && r.0.first.None?
    ensures r.1.Ok? && st.Running? && st.first.None? ==> Left(content, r.0.pos) < Left(content, st.pos)
  {
    match st
    case Stopped(e) => (st, Err(e))
    case Running(pos, cur, None, probeSize) => Seek(cfg, content, pos, cur, probeSize)
    case Running(pos, cur, Some(ev), probeSize) =>
      var end := cur + HeaderOf(ev).eventLength;
      if cfg.interested(HeaderOf(ev)) then (Running(pos, end, None, probeSize), Ok(Item(end, ev)))
      else Seek(cfg, content, pos, end, probeSize)
  }

  /** All that calling Next until it fails returns, and the error it ends with. */
  function ScanAll<B>(cfg: Config<B>, content: seq<byte>, st: State<B>): (seq<Item<B>>, Err)
    decreases st.Running? && st.first.Some?, if st.Running? then Left(content, st.pos) else 0
  {
    var (st', r) := Advance(cfg, content, st);
    match r
    case Err(e) => ([], e)
    case Ok(item) =>
      var (items, e) := ScanAll(cfg, content, st');
      ([item] + items, e)
  }

  /** After a probe the offset check of the caller always passes. */
  lemma ProbedHeaderPassesCheck(cfg: Config, content: seq<byte>, pos: nat, cur: nat, probeSize: nat)
    requires probeSize > 0 && NextHeader(cfg, content, pos, cur, probeSize).Ok?
    ensures var f := NextHeader(cfg, content, pos, cur, probeSize).value;
            && (f.curOffset + f.header.eventLength) % 0x1_0000_0000 == f.header.nextPosition
            && CheckHeader(cfg, f) != Err(BadEvent)
  {
    var k := Probe(content, pos, cur, probeSize).value;
    ProbeFindsFirst(content, pos, cur, probeSize, k);
  }

  // ----- the scanner -----

  class LogEventScanner<B> {
    const content: seq<byte>
    const cfg: Config<B>
    var pos: nat
    var curOffset: nat
    var first: Option<LogEvent<B>>
    var probeSize: nat
    var lastErr: Option<Err>

    constructor (content: seq<byte>, cfg: Config<B>, pos: nat, curOffset: nat, first: Option<LogEvent<B>>,
                 probeSize: nat)
      ensures this.content == content && this.cfg == cfg
      ensures View() == Running(pos, curOffset, first, probeSize)
    {
      this.content, this.cfg := content, cfg;
      this.pos, this.curOffset, this.first, this.probeSize := pos, curOffset, first, probeSize;
      lastErr := None;
    }

    function View(): State<B>
      reads this
    {
      if lastErr.Some? then Stopped(lastErr.value) else Running(pos, curOffset, first, probeSize)
    }

    method ReadBytes(n: nat) returns (r: Result<seq<byte>, Err>)
      modifies this`pos
      ensures r == ReadFull(content, old(pos), n)
      ensures r.Ok? ==> pos == old(pos) + n
    {
      r := ReadFull(content, pos, n);
      if r.Ok? {
        pos := pos + n;
      } else if pos < |content| {
        pos := |content|;
      }
    }

    method ReadExtraHeaders(fixed: seq<byte>) returns (r: Result<Header, Err>)
      requires |fixed| == 19
      modifies this`pos
      ensures match ReadExtra(cfg, content, fixed, old(pos), curOffset)
              case Err(e) => r == Err(e)
              case Ok(f) => r == Ok(f.header) && pos == f.pos
    {
      var h := ParseFixed(fixed);
      var headerLength := HeaderLengthOf(h.typeCode, cfg.headerLength);
      if headerLength > 19 {
        var extra := ReadBytes(headerLength - 19);
        if extra.Err? {
          return Err(extra.error);
        }
        h := h.(extra := extra.value);
      }
      r := Ok(h);
    }

    /** The next header; a probe happens at most once and moves the offset. */
    method ReadHeader() returns (r: Result<Header, Err>)
      modifies this`pos, this`curOffset, this`probeSize
      ensures probeSize == 0
      ensures match NextHeader(cfg, content, old(pos), old(curOffset), old(probeSize))
              case Err(e) => r == Err(e)
              case Ok(f) => r == Ok(f.header) && pos == f.pos && curOffset == f.curOffset
    {
      if probeSize > 0 {
        var k, fixed := ProbeNextHeader(content, pos, curOffset, probeSize);
        probeSize := 0;
        if k.Err? {
          return Err(k.error);
        }
        pos, curOffset := pos + k.value + 19, curOffset + k.value;
        r := ReadExtraHeaders(fixed);
      } else {
        var fixed := ReadBytes(19);
        if fixed.Err? {
          return Err(fixed.error);
        }
        r := ReadExtraHeaders(fixed.value);
      }
    }

    method ReadDataAndSkipFooter(h: Header) returns (r: Result<seq<byte>, Err>)
      modifies this`pos
      ensures r == ReadData(cfg, content, h, old(pos))
      ensures r.Ok? ==> pos == old(pos) + RestLength(cfg, h)
    {
      var length := RestLength(cfg, h);
      if length < 0 {
        return Err(InvalidEvent);
      }
      var s := ReadBytes(length);
      if s.Err? || !cfg.crc {
        return s;
      }
      if length < 4 {
        return Err(BrokenBinlog);
      }
      var data, expected := s.value[..length - 4], FromLittleEndian(s.value[length - 4..]);
      if cfg.validate {
        var checksum := Update(Update(0, HeaderBytes(h)), data);
        if expected != checksum as nat {
          return Err(ChecksumMismatch);
        }
      }
      r := Ok(data);
    }

    method SkipDataAndFooter(h: Header) returns (r: Result<(), Err>)
      modifies this`pos
      ensures if RestLength(cfg, h) < 0 then r == Err(InvalidEvent)
              else r == Ok(()) && pos == old(pos) + RestLength(cfg, h)
    {
      var length := RestLength(cfg, h);
      if length < 0 {
        return Err(InvalidEvent);
      }
      pos := pos + length;
      r := Ok(());
    }

    /** Skips an event, checking its checksum when checksums are validated. */
    method SkipUninteresting(h: Header) returns (r: Result<(), Err>)
      modifies this`pos
      ensures match SkipEvent(cfg, content, h, old(pos))
              case Err(e) => r == Err(e)
              case Ok(p) => r == Ok(()) && pos == p
    {
      if !cfg.crc || !cfg.validate {
        r := SkipDataAndFooter(h);
      } else {
        var data := ReadDataAndSkipFooter(h);
        r := if data.Err? then Err(data.error) else Ok(());
      }
    }

    /** Reads one header; None when its event was skipped. */
    method ReadOneHeader() returns (r: Result<Option<Header>, Err>)
      modifies this`pos, this`curOffset, this`probeSize
      ensures probeSize == 0
      ensures match ReadOne(cfg, content, old(pos), old(curOffset), old(probeSize))
              case Failed(e) => r == Err(e)
              case Wanted(f) => r == Ok(Some(f.header)) && pos == f.pos && curOffset == f.curOffset
              case Skipped(p, c) => r == Ok(None) && pos == p && curOffset == c
    {
      var h := ReadHeader();
      if h.Err? {
        return Err(h.error);
      }
      var header := h.value;
      if (curOffset + header.eventLength) % 0x1_0000_0000 != header.nextPosition {
        return Err(BadEvent);
      }
      if curOffset + header.eventLength > cfg.endPos {
        return Err(Eof);
      }
      if cfg.interested(header) {
        return Ok(Some(header));
      }
      var skipped := SkipUninteresting(header);
      if skipped.Err? {
        return Err(skipped.error);
      }
      curOffset := curOffset + header.eventLength;
      r := Ok(None);
    }

    method NextInterestedHeader() returns (r: Result<Header, Err>)
      modifies this`pos, this`curOffset, this`probeSize
      ensures match NextInterested(cfg, content, old(pos), old(curOffset), old(probeSize))
              case Err(e) => r == Err(e)
              case Ok(f) => r == Ok(f.header) && pos == f.pos && curOffset == f.curOffset && probeSize == 0
    {
      while true
        invariant NextInterested(cfg, content, pos, curOffset, probeSize)
               == NextInterested(cfg, content, old(pos), old(curOffset), old(probeSize))
        decreases Left(content, pos)
      {
        var h := ReadOneHeader();
        if h.Err? {
          return Err(h.error);
        }
        if h.value.Some? {
          return Ok(h.value.value);
        }
      }
    }

    /** Reads the event whose header was just read. */
    method ReadEvent(header: Header) returns (r: Result<LogEvent<B>, Err>)
      modifies this`pos, this`curOffset
      ensures r == Finish(cfg, content, Found(header, old(pos), old(curOffset)))
      ensures r.Ok? ==> pos == old(pos) + RestLength(cfg, header) && curOffset == old(curOffset) + header.eventLength
    {
      if cfg.mode == HeaderOnly {
        var skipped := SkipDataAndFooter(header);
        if skipped.Err? {
          return Err(skipped.error);
        }
        curOffset := curOffset + header.eventLength;
        r := Ok(Raw(RawEvent(header, [])));
      } else {
        var data := ReadDataAndSkipFooter(header);
        if data.Err? {
          return Err(data.error);
        }
        curOffset := curOffset + header.eventLength;
        r := Interpret(cfg, header, data.value);
      }
    }

    method SeekNext() returns (r: Result<Item<B>, Err>)
      requires lastErr.None? && first.None?
      modifies this`pos, this`curOffset, this`probeSize, this`lastErr
      ensures (View(), r) == Seek(cfg, content, old(pos), old(curOffset), old(probeSize))
    {
      var h := NextInterestedHeader();
      if h.Err? {
        lastErr := Some(Normalized(h.error));
        return Err(Normalized(h.error));
      }
      var ev := ReadEvent(h.value);
      if ev.Err? {
        lastErr := Some(Normalized(ev.error));
        return Err(Normalized(ev.error));
      }
      r := Ok(Item(curOffset, ev.value));
    }

    /** The next event of interest and the offset of its end; an error is returned forever. */
    method Next() returns (r: Result<Item<B>, Err>)
      modifies this
      ensures (View(), r) == Advance(cfg, content, old(View()))
    {
      if lastErr.Some? {
        return Err(lastErr.value);
      }
      if first.Some? {
        var ev := first.value;
        first := None;
        curOffset := curOffset + HeaderOf(ev).eventLength;
        if cfg.interested(HeaderOf(ev)) {
          return Ok(Item(curOffset, ev));
        }
      }
      assert Advance(cfg, content, old(View())) == Seek(cfg, content, pos, curOffset, probeSize);
      r := SeekNext();
    }
  }

  /** Takes the next of what is left. */
  method Pull<B>(scanner: LogEventScanner<B>, ghost left: (seq<Item<B>>, Err)) returns (r: Result<Item<B>, Err>)
    requires scanner.View().Running? && ScanAll(scanner.cfg, scanner.content, scanner.View()) == left
    modifies scanner
    ensures r.Err? ==> left == ([], r.error)
    ensures r.Ok? ==> left.0 != [] && r.value == left.0[0] && scanner.View().Running?
                      && ScanAll(scanner.cfg, scanner.content, scanner.View()) == (left.0[1..], left.1)
  {
    r := scanner.Next();
  }
}
