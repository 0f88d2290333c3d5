/**
 Opening a log (pkg/binlogtool/binlog/scan.go, NewLogEventScannerWithStartOffset): the magic
 number and the format description event are read, the start offset is checked and sought,
 and the scanner is set up with what the event declares. Version 4 only.
 */
module BinlogOpen {
  import opened Bytes
  import opened Wrappers
  import opened Crc32
  import opened BinlogFormat
  import opened BinlogScan
  import opened BinlogLog

  // ----- the format description event -----

  /** alg is None for servers before 5.6.1, which declare none. */
  datatype Fde = Fde(serverVersion: seq<byte>, headerLength: byte, alg: Option<byte>)

  predicate IsDigit(c: byte) { 48 <= c <= 57 }

  /** The value of a decimal string, None when it is empty or has a non-digit. */
  function Decimal(s: seq<byte>): Option<nat> {
    if s == [] || !IsDigit(s[|s| - 1]) then None
    else if |s| == 1 then Some(s[0] - 48)
    else
      match Decimal(s[..|s| - 1])
      case None => None
      case Some(n) => Some(n * 10 + (s[|s| - 1] - 48))
  }

  /** As strconv.Atoi, where a value past 255 does not matter. */
  function Atoi(s: seq<byte>): Option<int> {
    if s == [] then None
    else if s[0] == 45 then (match Decimal(s[1..]) case Some(n) => Some(-(n as int)) case None => None)
    else if s[0] == 43 then (match Decimal(s[1..]) case Some(n) => Some(n) case None => None)
    else match Decimal(s) case Some(n) => Some(n) case None => None
  }

  /** The value of the leading digits. */
  function LeadingDigits(s: seq<byte>, r: nat): nat {
    if s == [] || !IsDigit(s[0]) then r else LeadingDigits(s[1..], r * 10 + (s[0] - 48))
  }

  /** major.minor.patch as one number. */
  function VersionProduct(s: seq<byte>): Option<nat> {
    var i := IndexByte(s, 46);
    if i == |s| then None
    else
      var t := s[i + 1..];
      var j := IndexByte(t, 46);
      if j == |t| then None
      else
        var u := t[j + 1..];
        var patch := LeadingDigits(u[..IndexByte(u, 46)], 0);
        match (Atoi(s[..i]), Atoi(t[..j]))
        case (Some(major), Some(minor)) =>
          if major <= 0 || minor < 0 || major > 255 || minor > 255 || patch > 255 then None
          else Some(major * 0x1_0000 + minor * 0x100 + patch)
        case _ => None
  }

  const CHECKSUM_VERSION_PRODUCT := 5 * 0x1_0000 + 6 * 0x100 + 1

  /** Decodes the data of the event, checksum included. */
  function ParseFde(data: seq<byte>): Option<Fde> {
    if |data| < 57 then None
    else
      var version, rest := data[2..52], data[57..];
      var server := version[..IndexByte(version, 0)];
      match VersionProduct(server)
      case None => None
      case Some(p) =>
        if p < CHECKSUM_VERSION_PRODUCT then Some(Fde(server, data[56], None))
        else if |rest| < 5 then None
        else
          var alg := rest[|rest| - 5];
          if alg != CHECKSUM_OFF && alg != CHECKSUM_CRC32 then None
          else Some(Fde(server, data[56], Some(alg)))
  }

  // ----- opening -----

  datatype OpenErr =
    | InsideMagic | InsideFirst | TooShort | NotABinlog | UnsupportedVersion | BadFirstEvent | BadFirstChecksum
    | BadHeaderLength

  /** `crc` is used for logs that declare no algorithm; `wrap` is the decoded first event. */
  datatype Options<!B> = Options(
    crc: bool, validate: bool, endPos: nat, mode: ScanMode, probeSize: nat,
    interested: Header -> bool, decode: (bool, Header, seq<byte>) -> Option<B>, wrap: Fde -> B)

  /** The first event: its bytes, header and what it declares. */
  datatype First = First(bytes: seq<byte>, header: Header, fde: Fde)

  /** The first event in the bytes the log gives it. */
  function FirstOf(bytes: seq<byte>): (r: Result<First, OpenErr>)
    requires |bytes| >= 19
    ensures r.Ok? ==> r.value.bytes == bytes
  {
    var h := ParseFixed(bytes[..19]);
    if (4 + |bytes|) % 0x1_0000_0000 != h.nextPosition then Err(BadFirstEvent)
    else
      match ParseFde(bytes[19..])
      case None => Err(BadFirstEvent)
      case Some(fde) => Ok(First(bytes, h, fde))
  }

  function ReadFirst(content: seq<byte>): (r: Result<First, OpenErr>)
    ensures r.Ok? ==> |r.value.bytes| >= 19
  {
    if |content| < 17 then Err(TooShort)
    else if content[..4] != MAGIC then Err(NotABinlog)
    else
      var length := U32(content[13..17]);
      var left := (length + 0x1_0000_0000 - 13) % 0x1_0000_0000;
      if 17 + left > |content| then Err(TooShort)
      else if content[8] != FORMAT_DESCRIPTION_EVENT then Err(UnsupportedVersion)
      else if length < 19 then Err(BadFirstEvent)
      else FirstOf(content[4..4 + length])
  }

  function ConfigFor<B>(o: Options<B>, fde: Fde): Config<B> {
    var crc := match fde.alg case None => o.crc case Some(a) => a == CHECKSUM_CRC32;
    Config(fde.headerLength, crc, o.validate, o.endPos, o.mode, o.interested, o.decode)
  }

  /** The first event as it is handed out; in raw mode without checksum if one is declared. */
  function FirstEvent<B>(o: Options<B>, f: First): LogEvent<B>
    requires |f.bytes| >= 19
  {
    if o.mode != RawMode then Decoded(f.header, o.wrap(f.fde))
    else if f.fde.alg.Some? && |f.bytes| >= 23 then Raw(RawEvent(f.header, f.bytes[19..|f.bytes| - 4]))
    else Raw(RawEvent(f.header, f.bytes[19..]))
  }

  /** The last four bytes are the checksum of the others, taken over the 13 bytes read first and then the rest. */
  predicate FirstChecksumOk(s: seq<byte>)
    requires |s| >= 23
  {
    FromLittleEndian(s[|s| - 4..]) == Update(Update(0, s[..13]), s[13..|s| - 4]) as nat
  }

  function Open<B>(content: seq<byte>, startOffset: nat, o: Options<B>): Result<(Config<B>, State<B>), OpenErr> {
    if 0 < startOffset < 4 then Err(InsideMagic)
    else if 4 < startOffset < 73 then Err(InsideFirst)
    else
      match ReadFirst(content)
      case Err(e) => Err(e)
      case Ok(f) =>
        var end := f.header.nextPosition;
        var n := |f.bytes|;
        if startOffset > 4 && startOffset < end then Err(InsideFirst)
        else if o.validate && f.fde.alg == Some(CHECKSUM_CRC32) && n >= 23 && !FirstChecksumOk(f.bytes)
        then Err(BadFirstChecksum)
        else if f.fde.headerLength < 19 then Err(BadHeaderLength)
        else
          var pos := if startOffset > end then startOffset else 4 + n;
          if startOffset < end then Ok((ConfigFor(o, f.fde), Running(pos, 4, Some(FirstEvent(o, f)), o.probeSize)))
          else Ok((ConfigFor(o, f.fde), Running(pos, startOffset, None, o.probeSize)))
  }

  // ----- opening a well-formed log -----

  function AlgOf(L: Log): byte { if L.crc then CHECKSUM_CRC32 else CHECKSUM_OFF }

  /** The format description event is in order and declares what the log does. */
  predicate GoodFde(L: Log) {
    var h := L.fde.header;
    && h.typeCode == FORMAT_DESCRIPTION_EVENT && h.extra == []
    && |L.fdeFooter| == 4
    && h.eventLength == 19 + |L.fde.data| + 4
    && h.nextPosition == 4 + h.eventLength
    && (L.crc ==> L.fdeFooter == Footer(Body(L.fde)))
    && ParseFde(L.fde.data + L.fdeFooter).Some?
    && ParseFde(L.fde.data + L.fdeFooter).value.headerLength == L.headerLength
    && ParseFde(L.fde.data + L.fdeFooter).value.alg == Some(AlgOf(L))
  }

  /** The algorithm is the last byte of the event's data. */
  lemma AlgIsLastByte(L: Log)
    requires GoodFde(L)
    ensures |L.fde.data| > 0 && L.fde.data[|L.fde.data| - 1] == AlgOf(L)
  {
    var s := L.fde.data + L.fdeFooter;
    assert s[57..][|s| - 57 - 5] == s[|s| - 5];
  }

  lemma SameSlice(c: seq<byte>, p: nat, s: seq<byte>, i: nat, j: nat)
    requires Holds(c, p, s) && i <= j <= |s|
    ensures c[p + i..p + j] == s[i..j]
  {
    forall k | 0 <= k < j - i ensures c[p + i..p + j][k] == s[i..j][k] {
      assert c[p..p + |s|][i + k] == s[i + k];
    }
  }

  lemma FirstParsed(fixed: seq<byte>, rest: seq<byte>, h: Header, fde: Fde)
    requires |fixed| == 19 && ParseFixed(fixed) == h && h.nextPosition == 4 + 19 + |rest| && ParseFde(rest) == Some(fde)
    ensures FirstOf(fixed + rest) == Ok(First(fixed + rest, h, fde))
  {
    var s := fixed + rest;
    assert s[..19] == fixed && s[19..] == rest;
  }

  lemma FixedInPlace(c: seq<byte>, fixed: seq<byte>)
    requires |fixed| == 19 && Holds(c, 4, fixed)
    ensures U32(c[13..17]) == ParseFixed(fixed).eventLength && c[8] == ParseFixed(fixed).typeCode
  {
    SameSlice(c, 4, fixed, 9, 13);
    SameSlice(c, 4, fixed, 4, 5);
    assert c[8] == c[8..9][0] == fixed[4];
  }

  lemma FirstRead(c: seq<byte>, length: u32, s: seq<byte>, f: First)
    requires Holds(c, 0, MAGIC) && Holds(c, 4, s) && |s| == length >= 19
    requires U32(c[13..17]) == length && c[8] == FORMAT_DESCRIPTION_EVENT && FirstOf(s) == Ok(f)
    ensures ReadFirst(c) == Ok(f)
  {
    assert c[..4] == MAGIC;
    assert c[4..4 + length] == s;
    assert (length + 0x1_0000_0000 - 13) % 0x1_0000_0000 == length - 13;
  }

  lemma FirstReadBackOf(c: seq<byte>, fixed: seq<byte>, rest: seq<byte>, h: Header, fde: Fde)
    requires Holds(c, 0, MAGIC) && Holds(c, 4, fixed + rest)
    requires |fixed| == 19 && ParseFixed(fixed) == h && h.typeCode == FORMAT_DESCRIPTION_EVENT
    requires h.eventLength == 19 + |rest| && h.nextPosition == 4 + h.eventLength && ParseFde(rest) == Some(fde)
    ensures ReadFirst(c) == Ok(First(fixed + rest, h, fde))
  {
    HoldsParts(c, 4, fixed, rest);
    FixedInPlace(c, fixed);
    FirstParsed(fixed, rest, h, fde);
    FirstRead(c, h.eventLength, fixed + rest, First(fixed + rest, h, fde));
  }

  lemma HeldBehind(c: seq<byte>, n: nat, a: seq<byte>, b: seq<byte>, d: seq<byte>)
    requires n <= |c| && c[..n] == a + b + d
    ensures Holds(c, 0, a) && Holds(c, |a|, b + d)
  {
    assert a + b + d == a + (b + d);
    assert c[0..n] == c[..n];
    assert Holds(c, 0, a + (b + d));
    HoldsParts(c, 0, a, b + d);
  }

  lemma FirstIsHeld(L: Log)
    ensures Holds(Content(L), 0, MAGIC) && Holds(Content(L), 4, Body(L.fde) + L.fdeFooter)
  {
    PrefixGrows(L, 0, |L.rest|);
    HeldBehind(Content(L), Offset(L, 0), MAGIC, Body(L.fde), L.fdeFooter);
  }

  lemma PlainBody(ev: RawEvent, footer: seq<byte>)
    requires ev.header.extra == []
    ensures Body(ev) + footer == FixedBytes(ev.header) + (ev.data + footer)
  {
  }

  lemma FirstInPlace(c: seq<byte>, h: Header, rest: seq<byte>, fde: Fde)
    requires Holds(c, 0, MAGIC) && Holds(c, 4, FixedBytes(h) + rest) && ParseFde(rest) == Some(fde)
    requires h.extra == [] && h.typeCode == FORMAT_DESCRIPTION_EVENT
    requires h.eventLength == 19 + |rest| && h.nextPosition == 4 + h.eventLength
    ensures ReadFirst(c) == Ok(First(FixedBytes(h) + rest, h, fde))
  {
    HeaderRoundTrip(h);
    FirstReadBackOf(c, FixedBytes(h), rest, h, fde);
  }

  lemma FirstIsReadBack(L: Log)
    requires GoodFde(L)
    ensures ReadFirst(Content(L)) == Ok(FirstReadOf(L))
  {
    FirstIsHeld(L);
    PlainBody(L.fde, L.fdeFooter);
    FirstInPlace(Content(L), L.fde.header, L.fde.data + L.fdeFooter, FdeOf(L));
  }

  /** The first event read is in order and declares an algorithm. */
  predicate InOrder(f: First) {
    && |f.bytes| >= 81 && f.header.nextPosition == 4 + |f.bytes|
    && f.fde.headerLength >= 19 && f.fde.alg.Some?
    && (f.fde.alg == Some(CHECKSUM_CRC32) ==> FirstChecksumOk(f.bytes))
  }

  lemma OpenedOn<B>(c: seq<byte>, start: nat, o: Options<B>, f: First, first: LogEvent<B>, end: nat, cfg: Config<B>)
    requires ReadFirst(c) == Ok(f) && InOrder(f) && (start == 0 || start == 4)
    requires FirstEvent(o, f) == first && 4 + |f.bytes| == end && ConfigFor(o, f.fde) == cfg
    ensures Open(c, start, o) == Ok((cfg, Running(end, 4, Some(first), o.probeSize)))
  {
  }

  lemma OpenedLater<B>(c: seq<byte>, start: nat, o: Options<B>, f: First)
    requires ReadFirst(c) == Ok(f) && InOrder(f) && start >= 4 + |f.bytes|
    ensures Open(c, start, o) == Ok((ConfigFor(o, f.fde), Running(start, start, None, o.probeSize)))
  {
  }

  /** What the format description event of a good log declares. */
  function FdeOf(L: Log): Fde
    requires GoodFde(L)
  {
    ParseFde(L.fde.data + L.fdeFooter).value
  }

  /** The first event of a good log as it is read. */
  function FirstReadOf(L: Log): First
    requires GoodFde(L)
  {
    First(Body(L.fde) + L.fdeFooter, L.fde.header, FdeOf(L))
  }

  /** The first event of a good log as a scanner returns it. */
  function FirstDue<B>(L: Log, o: Options<B>): LogEvent<B>
    requires GoodFde(L)
  {
    if o.mode == RawMode then Raw(L.fde) else Decoded(L.fde.header, o.wrap(FdeOf(L)))
  }

  lemma FirstIsInOrder(L: Log)
    requires WellFormed(L) && GoodFde(L)
    ensures InOrder(FirstReadOf(L)) && 4 + |FirstReadOf(L).bytes| == Offset(L, 0)
  {
    if L.crc {
      FirstChecksumIsRight(L);
    }
  }

  lemma FirstIsDue<B>(L: Log, o: Options<B>)
    requires GoodFde(L)
    ensures FirstEvent(o, FirstReadOf(L)) == FirstDue(L, o)
  {
    var s := Body(L.fde) + L.fdeFooter;
    assert s[19..|s| - 4] == L.fde.data;
  }

  lemma ConfigSuits<B>(L: Log, o: Options<B>)
    requires WellFormed(L) && GoodFde(L)
    ensures Suits(ConfigFor(o, FdeOf(L)), L)
  {
  }

  /** Opening a well-formed log at its start: all of it is ahead, the first event included. */
  lemma OpenAtStart<B>(L: Log, start: nat, o: Options<B>)
    requires WellFormed(L) && GoodFde(L) && (start == 0 || start == 4)
    ensures Open(Content(L), start, o)
         == Ok((ConfigFor(o, FdeOf(L)), Running(Offset(L, 0), 4, Some(FirstDue(L, o)), o.probeSize)))
    ensures Suits(ConfigFor(o, FdeOf(L)), L)
  {
    FirstIsReadBack(L);
    FirstIsInOrder(L);
    FirstIsDue(L, o);
    OpenedOn(Content(L), start, o, FirstReadOf(L), FirstDue(L, o), Offset(L, 0), ConfigFor(o, FdeOf(L)));
    ConfigSuits(L, o);
  }

  /** Opening it at a boundary: the events from there on are ahead. */
  lemma OpenAtBoundary<B>(L: Log, start: nat, o: Options<B>)
    requires WellFormed(L) && GoodFde(L) && start >= Offset(L, 0)
    ensures Open(Content(L), start, o) == Ok((ConfigFor(o, FdeOf(L)), Running(start, start, None, o.probeSize)))
    ensures Suits(ConfigFor(o, FdeOf(L)), L)
  {
    FirstIsReadBack(L);
    FirstIsInOrder(L);
    OpenedLater(Content(L), start, o, FirstReadOf(L));
    ConfigSuits(L, o);
  }

  lemma OpenedInside<B>(c: seq<byte>, start: nat, o: Options<B>, f: First)
    requires ReadFirst(c) == Ok(f) && f.header.nextPosition == 4 + |f.bytes|
    requires 0 < start < 4 + |f.bytes| && start != 4
    ensures Open(c, start, o).Err?
  {
  }

  /** A well-formed log opens at 0, at 4 and anywhere from the end of its first event on, and nowhere else. */
  lemma OpensIff<B>(L: Log, start: nat, o: Options<B>)
    requires WellFormed(L) && GoodFde(L)
    ensures Open(Content(L), start, o).Ok? <==> start == 0 || start == 4 || start >= Offset(L, 0)
  {
    if start == 0 || start == 4 {
      OpenAtStart(L, start, o);
    } else if start >= Offset(L, 0) {
      OpenAtBoundary(L, start, o);
    } else {
      FirstIsReadBack(L);
      FirstIsInOrder(L);
      OpenedInside(Content(L), start, o, FirstReadOf(L));
    }
  }

  lemma FirstChecksumIsRight(L: Log)
    requires GoodFde(L) && L.crc
    ensures FirstChecksumOk(Body(L.fde) + L.fdeFooter)
  {
    FooterReadBack(Body(L.fde));
    ChecksumInPlace(Body(L.fde), L.fdeFooter);
  }

  lemma ChecksumInPlace(body: seq<byte>, f: seq<byte>)
    requires |body| >= 19 && |f| == 4 && FromLittleEndian(f) == Update(0, body) as nat
    ensures FirstChecksumOk(body + f)
  {
    var s := body + f;
    assert s[..13] == body[..13] && s[13..|s| - 4] == body[13..] && s[|s| - 4..] == f;
    assert body[..13] + body[13..] == body;
    UpdateConcat(0, body[..13], body[13..]);
  }

  // ----- an example -----

  /** Data of a format description event: version 4, server 5.7.0, 19-byte headers and a checksum algorithm. */
  function ExampleData(alg: byte): seq<byte> {
    [4, 0] + ([53, 46, 55, 46, 48] + seq(45, _ => 0)) + [0, 0, 0, 0] + [19] + [alg]
  }

  lemma ExampleVersion()
    ensures VersionProduct([53, 46, 55, 46, 48]) == Some(5 * 0x1_0000 + 7 * 0x100)
  {
    var s: seq<byte> := [53, 46, 55, 46, 48];
    assert IndexByte(s, 46) == 1;
    var t := s[2..];
    assert t == [55, 46, 48] && IndexByte(t, 46) == 1;
    var u := t[2..];
    assert u == [48] && IndexByte(u, 46) == 1 && u[..1] == [48] && u[1..] == [];
    assert s[..1] == [53] && t[..1] == [55];
    assert Atoi([53]) == Some(5) && Atoi([55]) == Some(7) && LeadingDigits([48], 0) == 0;
  }

  lemma ParsedInParts(data: seq<byte>, version: seq<byte>, server: seq<byte>, product: nat, alg: byte)
    requires |data| == 62 && data[2..52] == version && IndexByte(version, 0) == |server| &&
             version[..|server|] == server
    requires VersionProduct(server) == Some(product) && product >= CHECKSUM_VERSION_PRODUCT
    requires data[57] == alg && (alg == CHECKSUM_OFF || alg == CHECKSUM_CRC32)
    ensures ParseFde(data) == Some(Fde(server, data[56], Some(alg)))
  {
    assert data[57..][0] == alg;
  }

  lemma ExampleSlices(alg: byte, footer: seq<byte>, server: seq<byte>, zeros: seq<byte>)
    requires |footer| == 4 && server == [53, 46, 55, 46, 48] && zeros == seq(44, _ => 0)
    ensures var data := ExampleData(alg) + footer;
            |data| == 62 && data[2..52] == server + [0] + zeros && data[56] == 19 && data[57] == alg
  {
  }

  lemma ExampleParses(alg: byte, footer: seq<byte>)
    requires |footer| == 4 && (alg == CHECKSUM_OFF || alg == CHECKSUM_CRC32)
    ensures ParseFde(ExampleData(alg) + footer) == Some(Fde([53, 46, 55, 46, 48], 19, Some(alg)))
  {
    var data := ExampleData(alg) + footer;
    var server: seq<byte>, zeros: seq<byte> := [53, 46, 55, 46, 48], seq(44, _ => 0);
    IndexByteAt(server, zeros, 0);
    ExampleVersion();
    ExampleSlices(alg, footer, server, zeros);
    ParsedInParts(data, server + [0] + zeros, server, 5 * 0x1_0000 + 7 * 0x100, alg);
  }

  /** There are logs such as the theorems speak of, with and without checksums. */
  lemma GoodLogExists(crc: bool) returns (L: Log)
    ensures WellFormed(L) && GoodFde(L) && L.crc == crc
    ensures L.rest == [] && L.fde.header.timestamp == 0
  {
    var alg := if crc then CHECKSUM_CRC32 else CHECKSUM_OFF;
    var data := ExampleData(alg);
    var n: u32 := 19 + |data| + 4;
    var h := Header(0, FORMAT_DESCRIPTION_EVENT, 0, n, 4 + n, 0, []);
    var fde := RawEvent(h, data);
    var footer := Footer(Body(fde));
    ExampleParses(alg, footer);
    L := Log(19, crc, fde, footer, []);
  }
}
