/**
 Writing raw events (pkg/binlogtool/binlog/write.go) and truncating a log by reading and
 rewriting it (pkg/binlogtool/cmd/truncate.go).
 */
module BinlogWrite {
  import opened Bytes
  import opened Wrappers
  import opened Crc32
  import opened BinlogFormat
  import opened BinlogProbe
  import opened BinlogScan
  import opened BinlogLog
  import opened BinlogOpen

  /** The algorithm in force once an event is written; a first format description event declares it. */
  function AlgorithmFor(first: bool, alg: byte, ev: RawEvent): byte {
    if first && ev.header.typeCode == FORMAT_DESCRIPTION_EVENT && ev.data != []
    then ev.data[|ev.data| - 1] else alg
  }

  class RawLogEventWriter {
    var out: seq<byte>
    var parseFirstEvent: bool
    var algorithm: byte

    constructor ()
      ensures out == [] && parseFirstEvent && algorithm == CHECKSUM_OFF
    {
      out, parseFirstEvent, algorithm := [], true, CHECKSUM_OFF;
    }

    method WriteCommonHeader()
      modifies this`out
      ensures out == old(out) + MAGIC
    {
      out := out + MAGIC;
    }

    /** Writes the header field by field. */
    method WriteHeader(h: Header) returns (headerBytes: seq<byte>)
      modifies this`out
      ensures headerBytes == HeaderBytes(h) && out == old(out) + HeaderBytes(h)
    {
      headerBytes := LittleEndian(h.timestamp, 4);
      headerBytes := headerBytes + [h.typeCode];
      headerBytes := headerBytes + LittleEndian(h.serverId, 4);
      headerBytes := headerBytes + LittleEndian(h.eventLength, 4);
      headerBytes := headerBytes + LittleEndian(h.nextPosition, 4);
      headerBytes := headerBytes + LittleEndian(h.flags, 2);
      headerBytes := headerBytes + h.extra;
      out := out + headerBytes;
    }

    method WriteBody(ev: RawEvent) returns (headerBytes: seq<byte>)
      modifies this`out
      ensures headerBytes == HeaderBytes(ev.header) && out == old(out) + Body(ev)
    {
      headerBytes := WriteHeader(ev.header);
      out := out + ev.data;
    }

    method WriteChecksum(headerBytes: seq<byte>, data: seq<byte>)
      modifies this`out
      ensures out == old(out) + Footer(headerBytes + data)
    {
      var checksum := Update(Update(0, headerBytes), data);
      UpdateConcat(0, headerBytes, data);
      out := out + LittleEndian(checksum as nat, 4);
    }

    /** The algorithm for this event and those after it. */
    method NoteAlgorithm(ev: RawEvent)
      requires parseFirstEvent && ev.header.typeCode == FORMAT_DESCRIPTION_EVENT ==> ev.data != []
      modifies this`parseFirstEvent, this`algorithm
      ensures !parseFirstEvent && algorithm == AlgorithmFor(old(parseFirstEvent), old(algorithm), ev)
    {
      if parseFirstEvent {
        if ev.header.typeCode == FORMAT_DESCRIPTION_EVENT {
          algorithm := ev.data[|ev.data| - 1];
        }
        parseFirstEvent := false;
      }
    }

    /** Writes an event, recomputing its checksum if the log has them. */
    method Write(ev: RawEvent)
      requires parseFirstEvent && ev.header.typeCode == FORMAT_DESCRIPTION_EVENT ==> ev.data != []
      modifies this
      ensures !parseFirstEvent && algorithm == AlgorithmFor(old(parseFirstEvent), old(algorithm), ev)
      ensures out == old(out) + Stored(ev, algorithm == CHECKSUM_CRC32)
    {
      var headerBytes := WriteBody(ev);
      NoteAlgorithm(ev);
      if algorithm == CHECKSUM_CRC32 {
        WriteChecksum(headerBytes, ev.data);
      }
      StoredAppends(old(out), ev);
    }
  }

  lemma StoredAppends(out: seq<byte>, ev: RawEvent)
    ensures out + Stored(ev, true) == (out + Body(ev)) + Footer(HeaderBytes(ev.header) + ev.data)
    ensures out + Stored(ev, false) == out + Body(ev)
  {
    assert Body(ev) + [] == Body(ev);
  }

  // ----- truncating -----

  /** Raw mode hands out raw events only. */
  function RawOf(ev: LogEvent<()>): RawEvent {
    match ev
    case Raw(raw) => raw
    case Decoded(head, _) => RawEvent(head, [])
  }

  /** Past the end timestamp, when there is one. */
  predicate TooNew(ev: RawEvent, endTs: u32) {
    endTs > 0 && ev.header.timestamp > endTs
  }

  /** The writer indexes the last byte of a first format description event. */
  predicate Unwritable(first: bool, ev: RawEvent) {
    first && ev.header.typeCode == FORMAT_DESCRIPTION_EVENT && ev.data == []
  }

  /** What rewriting the remaining items adds to the output. */
  function Rewritten(items: seq<Item<()>>, first: bool, alg: byte, endTs: u32): seq<byte>
    decreases |items|
  {
    if items == [] then []
    else
      var ev := RawOf(items[0].ev);
      if TooNew(ev, endTs) || Unwritable(first, ev) then []
      else
        var alg' := AlgorithmFor(first, alg, ev);
        Stored(ev, alg' == CHECKSUM_CRC32) + Rewritten(items[1..], false, alg', endTs)
  }

  function TruncateOptions(crc: bool, endPos: nat): Options<()> {
    Options(crc, false, endPos, RawMode, 0, Everything, (_, _, _) => None, _ => ())
  }

  /** The output of truncation, for any input. */
  function Truncated(content: seq<byte>, crc: bool, endPos: nat, endTs: u32): seq<byte> {
    match Open(content, 0, TruncateOptions(crc, endPos))
    case Err(_) => MAGIC
    case Ok((cfg, st)) => MAGIC + Rewritten(ScanAll(cfg, content, st).0, true, CHECKSUM_OFF, endTs)
  }

  /** Reads raw events up to the end offset or timestamp and writes them to a new log. */
  method Truncate(content: seq<byte>, crc: bool, endPos: nat, endTs: u32) returns (out: seq<byte>)
    ensures out == Truncated(content, crc, endPos, endTs)
  {
    var writer := new RawLogEventWriter();
    writer.WriteCommonHeader();
    assert writer.out == MAGIC;
    match Open(content, 0, TruncateOptions(crc, endPos)) {
      case Err(_) => return writer.out;
      case Ok((cfg, st)) =>
        TruncatedFrom(content, crc, endPos, endTs, cfg, st, ScanAll(cfg, content, st).0);
        out := CopyEvents(content, cfg, st, writer, endTs);
    }
  }

  lemma RewrittenHead(items: seq<Item<()>>, first: bool, alg: byte, endTs: u32)
    requires items != []
    ensures var ev := RawOf(items[0].ev);
            var alg' := AlgorithmFor(first, alg, ev);
            Rewritten(items, first, alg, endTs)
            == if TooNew(ev, endTs) || Unwritable(first, ev) then []
               else Stored(ev, alg' == CHECKSUM_CRC32) + Rewritten(items[1..], false, alg', endTs)
  {
  }

  /** Writes one event after the others; `more` unless it is past the end. */
  method CopyOne(item: Item<()>, ghost items: seq<Item<()>>, writer: RawLogEventWriter, endTs: u32) returns (more: bool)
    requires items != [] && items[0] == item
    modifies writer
    ensures more ==>
              writer.out + Rewritten(items[1..], writer.parseFirstEvent, writer.algorithm, endTs)
              == old(writer.out) + Rewritten(items, old(writer.parseFirstEvent), old(writer.algorithm), endTs)
    ensures !more ==>
              writer.out == old(writer.out) +
                  Rewritten(items, old(writer.parseFirstEvent), old(writer.algorithm), endTs)
  {
    var ev := RawOf(item.ev);
    RewrittenHead(items, writer.parseFirstEvent, writer.algorithm, endTs);
    more := !TooNew(ev, endTs) && !Unwritable(writer.parseFirstEvent, ev);
    if more {
      writer.Write(ev);
      Regroup(old(writer.out), Stored(ev, writer.algorithm == CHECKSUM_CRC32),
                  Rewritten(items[1..], false, writer.algorithm, endTs));
    }
  }

  method CopyEvents(content: seq<byte>, cfg: Config<()>, st: State<()>, writer: RawLogEventWriter, endTs: u32)
    returns (out: seq<byte>)
    requires st.Running?
    modifies writer
    ensures out == old(writer.out)
              + Rewritten(ScanAll(cfg, content, st).0, old(writer.parseFirstEvent), old(writer.algorithm), endTs)
  {
    var scanner := new LogEventScanner(content, cfg, st.pos, st.curOffset, st.first, st.probeSize);
    ghost var left := ScanAll(cfg, content, st);
    ghost var goal := writer.out + Rewritten(left.0, writer.parseFirstEvent, writer.algorithm, endTs);
    while true
      invariant fresh(scanner) && scanner.content == content && scanner.cfg == cfg && scanner.View().Running?
      invariant ScanAll(scanner.cfg, scanner.content, scanner.View()) == left
      invariant writer.out + Rewritten(left.0, writer.parseFirstEvent, writer.algorithm, endTs) == goal
      decreases |left.0|
    {
      var r := Pull(scanner, left);
      if r.Err? {
        break;
      }
      var more := CopyOne(r.value, left.0, writer, endTs);
      if !more {
        return writer.out;
      }
      left := (left.0[1..], left.1);
    }
    out := writer.out;
  }

  // ----- truncating a well-formed log -----

  /** Event k ends by the end offset and is not past the end timestamp. */
  predicate Kept(L: Log, endPos: nat, endTs: u32, k: nat)
    requires k < |L.rest|
  {
    Offset(L, k + 1) <= endPos && !TooNew(L.rest[k], endTs)
  }

  /** How many events after the first are kept, from k on. */
  function KeptUpTo(L: Log, endPos: nat, endTs: u32, k: nat): (m: nat)
    requires k <= |L.rest|
    ensures k <= m <= |L.rest|
    ensures forall j :: k <= j < m ==> Kept(L, endPos, endTs, j)
    ensures m < |L.rest| ==> !Kept(L, endPos, endTs, m)
    decreases |L.rest| - k
  {
    if k == |L.rest| || !Kept(L, endPos, endTs, k) then k
    else KeptUpTo(L, endPos, endTs, k + 1)
  }

  /** Rewriting the events of a log from k on. */
  lemma {:induction false} RewrittenRest(L: Log, cfg: Config<()>, alg: byte, endTs: u32, k: nat)
    requires k <= |L.rest| && cfg.mode == RawMode && cfg.interested == Everything
    ensures Rewritten(Expected(cfg, L, k).0, false, alg, endTs)
         == StoredAs(L, alg == CHECKSUM_CRC32, k, KeptUpTo(L, cfg.endPos, endTs, k))
    decreases |L.rest| - k
  {
    if k < |L.rest| && Offset(L, k + 1) <= cfg.endPos {
      var ev, tail := L.rest[k], Expected(cfg, L, k + 1).0;
      var items := [Item(Offset(L, k + 1), Raw(ev))] + tail;
      assert Expected(cfg, L, k).0 == items && items[1..] == tail;
      RewrittenRest(L, cfg, alg, endTs, k + 1);
    }
  }

  /** The events k, ..., m - 1, stored with checksums or without. */
  function StoredAs(L: Log, crc: bool, k: nat, m: nat): seq<byte>
    requires k <= m <= |L.rest|
    decreases m - k
  {
    if k == m then [] else Stored(L.rest[k], crc) + StoredAs(L, crc, k + 1, m)
  }

  /** As the log stores them. */
  function StoredFrom(L: Log, k: nat, m: nat): seq<byte>
    requires k <= m <= |L.rest|
  {
    StoredAs(L, L.crc, k, m)
  }

  lemma {:induction false} PrefixAndRest(L: Log, k: nat, m: nat)
    requires k <= m <= |L.rest|
    ensures Prefix(L, k) + StoredFrom(L, k, m) == Prefix(L, m)
    decreases m - k
  {
    if k < m {
      PrefixAndRest(L, k + 1, m);
      assert Prefix(L, k) + (Stored(L.rest[k], L.crc) + StoredFrom(L, k + 1, m))
          == Prefix(L, k + 1) + StoredFrom(L, k + 1, m);
    } else {
      assert Prefix(L, k) + [] == Prefix(L, k);
    }
  }

  /** Truncation opens the log at its start, with nothing but raw events in view. */
  ghost predicate OpensRaw(L: Log, crc: bool, endPos: nat, cfg: Config<()>) {
    && Open(Content(L), 0, TruncateOptions(crc, endPos)) == Ok((cfg, Running(Offset(L, 0), 4, Some(Raw(L.fde)), 0)))
    && Suits(cfg, L) && cfg.mode == RawMode && cfg.interested == Everything && cfg.endPos == endPos
    && 4 + L.fde.header.eventLength == Offset(L, 0)
  }

  lemma TruncatedIsRewritten(L: Log, crc: bool, endPos: nat, endTs: u32, cfg: Config<()>)
    requires OpensRaw(L, crc, endPos, cfg)
    ensures Truncated(Content(L), crc, endPos, endTs)
         == MAGIC + Rewritten([Item(Offset(L, 0), Raw(L.fde))] + Expected(cfg, L, 0).0, true, CHECKSUM_OFF, endTs)
  {
    var st, rest := Running(Offset(L, 0), 4, Some(Raw(L.fde)), 0), Expected(cfg, L, 0);
    ScanFromState(L, cfg, 0, st);
    AfterWanted(cfg, Raw(L.fde), Offset(L, 0), rest);
    TruncatedFrom(Content(L), crc, endPos, endTs, cfg, st, [Item(Offset(L, 0), Raw(L.fde))] + rest.0);
  }

  lemma RewrittenLog(L: Log, cfg: Config<()>, alg: byte, endTs: u32)
    requires cfg.mode == RawMode && cfg.interested == Everything && !TooNew(L.fde, endTs)
    requires L.fde.header.typeCode == FORMAT_DESCRIPTION_EVENT
    requires L.fde.data != [] && L.fde.data[|L.fde.data| - 1] == alg
    ensures var crc' := alg == CHECKSUM_CRC32;
            Rewritten([Item(Offset(L, 0), Raw(L.fde))] + Expected(cfg, L, 0).0, true, CHECKSUM_OFF, endTs)
            == Stored(L.fde, crc') + StoredAs(L, crc', 0, KeptUpTo(L, cfg.endPos, endTs, 0))
  {
    RewrittenFirst(Offset(L, 0), L.fde, alg, Expected(cfg, L, 0).0, endTs);
    RewrittenRest(L, cfg, alg, endTs, 0);
  }

  /** Truncating such a log, whatever algorithm the last byte of its first event is. */
  lemma ShapeOf(L: Log, crc: bool, endPos: nat, endTs: u32, cfg: Config<()>, alg: byte)
    requires OpensRaw(L, crc, endPos, cfg)
    requires L.fde.header.typeCode == FORMAT_DESCRIPTION_EVENT
    requires L.fde.data != [] && L.fde.data[|L.fde.data| - 1] == alg && !TooNew(L.fde, endTs)
    ensures var crc' := alg == CHECKSUM_CRC32;
            Truncated(Content(L), crc, endPos, endTs)
            == MAGIC + (Stored(L.fde, crc') + StoredAs(L, crc', 0, KeptUpTo(L, endPos, endTs, 0)))
  {
    TruncatedIsRewritten(L, crc, endPos, endTs, cfg);
    RewrittenLog(L, cfg, alg, endTs);
  }

  lemma AfterWanted(cfg: Config<()>, first: LogEvent<()>, end: nat, rest: (seq<Item<()>>, Err))
    requires cfg.interested == Everything
    ensures After(cfg, Some(first), end, rest).0 == [Item(end, first)] + rest.0
  {
  }

  lemma TruncatedFrom(content: seq<byte>, crc: bool, endPos: nat, endTs: u32, cfg: Config<()>, st: State<()>,
                      items: seq<Item<()>>)
    requires Open(content, 0, TruncateOptions(crc, endPos)) == Ok((cfg, st)) && ScanAll(cfg, content, st).0 == items
    ensures Truncated(content, crc, endPos, endTs) == MAGIC + Rewritten(items, true, CHECKSUM_OFF, endTs)
  {
  }

  /** Truncating a well-formed log, whatever it declares: the checksum of the first event comes back only for CRC-32. */
  lemma TruncatedShape(L: Log, crc: bool, endPos: nat, endTs: u32)
    requires WellFormed(L) && GoodFde(L) && !TooNew(L.fde, endTs)
    ensures Truncated(Content(L), crc, endPos, endTs)
         == MAGIC + (Stored(L.fde, L.crc) + StoredFrom(L, 0, KeptUpTo(L, endPos, endTs, 0)))
  {
    var o := TruncateOptions(crc, endPos);
    OpenAtStart(L, 0, o);
    AlgIsLastByte(L);
    ShapeOf(L, crc, endPos, endTs, ConfigFor(o, FdeOf(L)), AlgOf(L));
  }

  /** Rewriting a format description event notes the algorithm it declares. */
  lemma RewrittenFirst(end: nat, ev: RawEvent, alg: byte, rest: seq<Item<()>>, endTs: u32)
    requires !TooNew(ev, endTs) && ev.header.typeCode == FORMAT_DESCRIPTION_EVENT
    requires ev.data != [] && ev.data[|ev.data| - 1] == alg
    ensures Rewritten([Item(end, Raw(ev))] + rest, true, CHECKSUM_OFF, endTs)
         == Stored(ev, alg == CHECKSUM_CRC32) + Rewritten(rest, false, alg, endTs)
  {
    assert ([Item(end, Raw(ev))] + rest)[1..] == rest;
  }

  /** Truncating a CRC-32 log yields exactly its bytes up to the last kept boundary. */
  lemma TruncateIsPrefix(L: Log, crc: bool, endPos: nat, endTs: u32)
    requires WellFormed(L) && GoodFde(L) && L.crc && !TooNew(L.fde, endTs)
    ensures var m := KeptUpTo(L, endPos, endTs, 0);
            Offset(L, m) <= |Content(L)| && Truncated(Content(L), crc, endPos, endTs) == Content(L)[..Offset(L, m)]
  {
    var m := KeptUpTo(L, endPos, endTs, 0);
    TruncatedShape(L, crc, endPos, endTs);
    PrefixAndRest(L, 0, m);
    PrefixGrows(L, m, |L.rest|);
    Regroup(MAGIC + Body(L.fde), L.fdeFooter, StoredFrom(L, 0, m));
    Regroup(MAGIC, Body(L.fde), L.fdeFooter + StoredFrom(L, 0, m));
    Regroup(Body(L.fde), L.fdeFooter, StoredFrom(L, 0, m));
  }

  /** For logs without checksums the output lacks the four bytes that end the first event. */
  lemma TruncateIsPrefixIff(L: Log, crc: bool, endPos: nat, endTs: u32)
    requires WellFormed(L) && GoodFde(L) && !TooNew(L.fde, endTs)
    ensures var m := KeptUpTo(L, endPos, endTs, 0);
            && Offset(L, m) <= |Content(L)|
            && (Truncated(Content(L), crc, endPos, endTs) == Content(L)[..Offset(L, m)] <==> L.crc)
  {
    var m := KeptUpTo(L, endPos, endTs, 0);
    PrefixGrows(L, m, |L.rest|);
    if L.crc {
      TruncateIsPrefix(L, crc, endPos, endTs);
    } else {
      TruncatedShape(L, crc, endPos, endTs);
      PrefixAndRest(L, 0, m);
      PrefixIsLong(L, m);
      assert |Truncated(Content(L), crc, endPos, endTs)| + 4 == Offset(L, m);
    }
  }

  /** A log without checksums whose truncated copy is no prefix of it: four bytes are gone, whatever the limits. */
  lemma TruncationDropsBytes(crc: bool, endPos: nat, endTs: u32) returns (L: Log)
    ensures WellFormed(L) && GoodFde(L) && !L.crc && KeptUpTo(L, endPos, endTs, 0) == 0
    ensures Offset(L, 0) == |Content(L)| && Truncated(Content(L), crc, endPos, endTs) != Content(L)[..Offset(L, 0)]
  {
    L := GoodLogExists(false);
    PrefixIsLong(L, 0);
    TruncateIsPrefixIff(L, crc, endPos, endTs);
  }

  lemma {:induction false} BoundariesIncrease(L: Log, j: nat, k: nat)
    requires j < k <= |L.rest|
    ensures Offset(L, j) < Offset(L, k)
  {
    if j < k - 1 {
      BoundariesIncrease(L, j, k - 1);
    }
  }

  /** Without an end timestamp, what is kept is what ends at or before the end offset. */
  lemma KeptExactly(L: Log, endPos: nat, k: nat)
    requires k < |L.rest|
    ensures k < KeptUpTo(L, endPos, 0, 0) <==> Offset(L, k + 1) <= endPos
  {
    var m := KeptUpTo(L, endPos, 0, 0);
    if k < m {
      assert Kept(L, endPos, 0, k);
    } else if m < k {
      BoundariesIncrease(L, m + 1, k + 1);
    }
  }

  // ----- which events are kept, by offsets and timestamps alone -----

  /** Event j after the first ends by the end offset, and is no newer than the end timestamp if there is one. */
  predicate WithinLimits(L: Log, endPos: nat, endTs: u32, j: nat)
    requires j < |L.rest|
  {
    Offset(L, j + 1) <= endPos && (endTs == 0 || L.rest[j].header.timestamp <= endTs)
  }

  /** Event k and all events before it are within the limits. */
  ghost predicate AllWithin(L: Log, endPos: nat, endTs: u32, k: nat)
    requires k < |L.rest|
  {
    forall j :: 0 <= j <= k ==> WithinLimits(L, endPos, endTs, j)
  }

  /** Event k is kept if and only if it and all events before it are within the limits. */
  lemma KeptIff(L: Log, endPos: nat, endTs: u32, k: nat)
    requires k < |L.rest|
    ensures k < KeptUpTo(L, endPos, endTs, 0) <==> AllWithin(L, endPos, endTs, k)
  {
    var m := KeptUpTo(L, endPos, endTs, 0);
    if k < m {
      forall j | 0 <= j <= k ensures WithinLimits(L, endPos, endTs, j) {
        assert Kept(L, endPos, endTs, j);
      }
    } else {
      assert !WithinLimits(L, endPos, endTs, m);
    }
  }

  lemma TruncatedTooNew(L: Log, crc: bool, endPos: nat, endTs: u32)
    requires WellFormed(L) && GoodFde(L) && TooNew(L.fde, endTs)
    ensures Truncated(Content(L), crc, endPos, endTs) == MAGIC
  {
    var o := TruncateOptions(crc, endPos);
    OpenAtStart(L, 0, o);
    TruncatedIsRewritten(L, crc, endPos, endTs, ConfigFor(o, FdeOf(L)));
  }

  /**
   All of truncation on a well-formed log: the magic number, the first event unless it is newer than
   the end timestamp, and then the first m events after it, where event k is among them exactly when
   it and all before it are within the limits.
   */
  lemma TruncatesByLimits(L: Log, crc: bool, endPos: nat, endTs: u32) returns (m: nat)
    requires WellFormed(L) && GoodFde(L)
    ensures m <= |L.rest|
    ensures forall k :: 0 <= k < |L.rest| ==> (k < m <==> AllWithin(L, endPos, endTs, k))
    ensures Truncated(Content(L), crc, endPos, endTs)
         == if endTs == 0 || L.fde.header.timestamp <= endTs
            then MAGIC + (Stored(L.fde, L.crc) + StoredFrom(L, 0, m))
            else MAGIC
  {
    m := KeptUpTo(L, endPos, endTs, 0);
    forall k | 0 <= k < |L.rest|
      ensures k < m <==> AllWithin(L, endPos, endTs, k)
    {
      KeptIff(L, endPos, endTs, k);
    }
    if TooNew(L.fde, endTs) {
      TruncatedTooNew(L, crc, endPos, endTs);
    } else {
      TruncatedShape(L, crc, endPos, endTs);
    }
  }

  /** The copy holds the first event if and only if it is no newer than the end timestamp. */
  lemma FirstIsKeptIff(L: Log, crc: bool, endPos: nat, endTs: u32)
    requires WellFormed(L) && GoodFde(L)
    ensures MAGIC + Stored(L.fde, L.crc) <= Truncated(Content(L), crc, endPos, endTs)
       <==> endTs == 0 || L.fde.header.timestamp <= endTs
  {
    var m := TruncatesByLimits(L, crc, endPos, endTs);
    Regroup(MAGIC, Stored(L.fde, L.crc), StoredFrom(L, 0, m));
    StoredIsLong(L.fde, L.crc);
  }
}
