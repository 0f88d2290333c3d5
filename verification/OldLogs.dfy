/**
 Logs of servers before 5.6.1, which declare no checksum algorithm and have no checksums
 (pkg/binlogtool/binlog/scan.go, pkg/binlogtool/binlog/write.go). Scanned with the option for no
 checksums they are read in full; but the writer takes the last byte of the first event, which
 is the length of some event's fixed part there, for an algorithm.
 */
module OldLogs {
  import opened Bytes
  import opened Wrappers
  import opened BinlogFormat
  import opened BinlogScan
  import opened BinlogLog
  import opened BinlogOpen
  import opened BinlogWrite

  /** The format description event is in order and declares no algorithm. */
  predicate OldFde(L: Log) {
    var h := L.fde.header;
    && h.typeCode == FORMAT_DESCRIPTION_EVENT && h.extra == []
    && L.fdeFooter == [] && !L.crc
    && h.eventLength == 19 + |L.fde.data|
    && h.nextPosition == 4 + h.eventLength
    && ParseFde(L.fde.data).Some?
    && ParseFde(L.fde.data).value.headerLength == L.headerLength
    && ParseFde(L.fde.data).value.alg == None
  }

  function LastByte(L: Log): byte
    requires OldFde(L)
  {
    L.fde.data[|L.fde.data| - 1]
  }

  lemma OldFirstIsReadBack(L: Log)
    requires OldFde(L)
    ensures ReadFirst(Content(L)) == Ok(First(Body(L.fde), L.fde.header, ParseFde(L.fde.data).value))
  {
    FirstIsHeld(L);
    PlainBody(L.fde, []);
    assert L.fde.data + [] == L.fde.data && Body(L.fde) + [] == Body(L.fde);
    FirstInPlace(Content(L), L.fde.header, L.fde.data, ParseFde(L.fde.data).value);
  }

  lemma OldOpenedOn<B>(c: seq<byte>, o: Options<B>, f: First)
    requires ReadFirst(c) == Ok(f) && f.header.nextPosition == 4 + |f.bytes|
    requires f.fde.headerLength >= 19 && f.fde.alg.None?
    ensures Open(c, 0, o) == Ok((ConfigFor(o, f.fde), Running(4 + |f.bytes|, 4, Some(FirstEvent(o, f)), o.probeSize)))
  {
  }

  /** Opening an old log for raw scanning without checksums. */
  lemma OldOpenAtStart(L: Log, endPos: nat)
    requires WellFormed(L) && OldFde(L)
    ensures var cfg := ConfigFor(TruncateOptions(false, endPos), ParseFde(L.fde.data).value);
            && Open(Content(L), 0, TruncateOptions(false, endPos))
               == Ok((cfg, Running(Offset(L, 0), 4, Some(Raw(L.fde)), 0)))
            && Suits(cfg, L)
  {
    OldFirstIsReadBack(L);
    var first := First(Body(L.fde), L.fde.header, ParseFde(L.fde.data).value);
    OldOpenedOn(Content(L), TruncateOptions(false, endPos), first);
    assert Body(L.fde)[19..] == L.fde.data;
  }

  /** What truncation makes of an old log: checksums appear if the last byte happens to be the code of CRC-32. */
  lemma OldTruncatedShape(L: Log, endPos: nat, endTs: u32)
    requires WellFormed(L) && OldFde(L) && !TooNew(L.fde, endTs)
    ensures var crc := LastByte(L) == CHECKSUM_CRC32;
            Truncated(Content(L), false, endPos, endTs)
            == MAGIC + (Stored(L.fde, crc) + StoredAs(L, crc, 0, KeptUpTo(L, endPos, endTs, 0)))
  {
    var cfg := ConfigFor(TruncateOptions(false, endPos), ParseFde(L.fde.data).value);
    OldOpenAtStart(L, endPos);
    ShapeOf(L, false, endPos, endTs, cfg, LastByte(L));
  }

  lemma {:induction false} ChecksumsAddLength(L: Log, k: nat, m: nat)
    requires k <= m <= |L.rest|
    ensures |StoredAs(L, true, k, m)| == |StoredAs(L, false, k, m)| + 4 * (m - k)
    decreases m - k
  {
    if k < m {
      ChecksumsAddLength(L, k + 1, m);
      StoredIsLong(L.rest[k], true);
      StoredIsLong(L.rest[k], false);
    }
  }

  lemma OldPrefix(L: Log, m: nat)
    requires OldFde(L) && m <= |L.rest|
    ensures MAGIC + (Stored(L.fde, false) + StoredAs(L, false, 0, m)) == Prefix(L, m)
  {
    PrefixAndRest(L, 0, m);
    Regroup(MAGIC, Body(L.fde), StoredAs(L, false, 0, m));
    assert Stored(L.fde, false) == Body(L.fde) && MAGIC + Body(L.fde) + [] == MAGIC + Body(L.fde);
  }

  /** A truncated old log is a byte prefix of it if and only if its first event does not end in the code of CRC-32. */
  lemma OldTruncateIsPrefixIff(L: Log, endPos: nat, endTs: u32)
    requires WellFormed(L) && OldFde(L) && !TooNew(L.fde, endTs)
    ensures var m := KeptUpTo(L, endPos, endTs, 0);
            && Offset(L, m) <= |Content(L)|
            && (Truncated(Content(L), false, endPos, endTs) == Content(L)[..Offset(L, m)]
                <==> LastByte(L) != CHECKSUM_CRC32)
  {
    var m := KeptUpTo(L, endPos, endTs, 0);
    PrefixGrows(L, m, |L.rest|);
    OldTruncatedShape(L, endPos, endTs);
    OldPrefix(L, m);
    if LastByte(L) == CHECKSUM_CRC32 {
      ChecksumsAddLength(L, 0, m);
      StoredIsLong(L.fde, true);
      StoredIsLong(L.fde, false);
      assert |Truncated(Content(L), false, endPos, endTs)| == |Prefix(L, m)| + 4 + 4 * m;
    }
  }

  // ----- an example -----

  /** Data of a format description event of server 5.5.0, ending in the length of some event's fixed part. */
  function OldData(last: byte): seq<byte> {
    [4, 0] + ([53, 46, 53, 46, 48] + seq(45, _ => 0)) + [0, 0, 0, 0] + [19] + [last]
  }

  lemma OldVersion()
    ensures VersionProduct([53, 46, 53, 46, 48]) == Some(5 * 0x1_0000 + 5 * 0x100)
  {
    var s: seq<byte> := [53, 46, 53, 46, 48];
    assert IndexByte(s, 46) == 1;
    var t := s[2..];
    assert t == [53, 46, 48] && IndexByte(t, 46) == 1;
    var u := t[2..];
    assert u == [48] && IndexByte(u, 46) == 1 && u[..1] == [48] && u[1..] == [];
    assert s[..1] == [53] && t[..1] == [53];
    assert Atoi([53]) == Some(5) && LeadingDigits([48], 0) == 0;
  }

  lemma OldInParts(data: seq<byte>, version: seq<byte>, server: seq<byte>, product: nat)
    requires |data| >= 57 && data[2..52] == version
    requires IndexByte(version, 0) == |server| && version[..|server|] == server
    requires VersionProduct(server) == Some(product) && product < CHECKSUM_VERSION_PRODUCT
    ensures ParseFde(data) == Some(Fde(server, data[56], None))
  {
  }

  lemma OldDataInPlace(last: byte, server: seq<byte>, zeros: seq<byte>)
    requires server == [53, 46, 53, 46, 48] && zeros == seq(44, _ => 0)
    ensures var data := OldData(last);
            |data| == 58 && data[2..52] == server + [0] + zeros && data[56] == 19 && data[57] == last
  {
  }

  lemma OldDataParses(last: byte)
    ensures ParseFde(OldData(last)) == Some(Fde([53, 46, 53, 46, 48], 19, None))
  {
    var server: seq<byte>, zeros: seq<byte> := [53, 46, 53, 46, 48], seq(44, _ => 0);
    OldDataInPlace(last, server, zeros);
    IndexByteAt(server, zeros, 0);
    OldVersion();
    OldInParts(OldData(last), server + [0] + zeros, server, 5 * 0x1_0000 + 5 * 0x100);
  }

  /** There are old logs, ending their first event in any byte. */
  lemma OldLogExists(last: byte) returns (L: Log)
    ensures WellFormed(L) && OldFde(L) && LastByte(L) == last
  {
    OldDataParses(last);
    L := Log(19, false, RawEvent(Header(0, FORMAT_DESCRIPTION_EVENT, 0, 77, 81, 0, []), OldData(last)), [], []);
  }
}
