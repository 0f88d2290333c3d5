/**
 Scanning with checksum validation (pkg/binlogtool/binlog/scan.go): on any bytes, an event that is
 returned is stored with the checksum of its bytes.
 */
module ValidatedScan {
  import opened Bytes
  import opened Wrappers
  import opened Crc32
  import opened BinlogFormat
  import opened BinlogProbe
  import opened BinlogScan
  import opened BinlogLog
  import opened BinlogOpen

  /** At p are the bytes of the header, of the data, and the checksum of both. */
  ghost predicate StoredWithChecksum(content: seq<byte>, p: nat, h: Header, data: seq<byte>) {
    Holds(content, p, (HeaderBytes(h) + data) + Footer(HeaderBytes(h) + data))
  }

  /** The event was read from such a place; a raw event has the data stored there. */
  ghost predicate ReadFrom<B>(content: seq<byte>, ev: LogEvent<B>, p: nat, data: seq<byte>) {
    StoredWithChecksum(content, p, HeaderOf(ev), data) && (ev.Raw? ==> ev.raw.data == data)
  }

  ghost predicate IsChecked<B>(content: seq<byte>, ev: LogEvent<B>) {
    exists p, data :: ReadFrom(content, ev, p, data)
  }

  lemma HoldsTogether(c: seq<byte>, p: nat, s: seq<byte>, t: seq<byte>)
    requires Holds(c, p, s) && Holds(c, p + |s|, t)
    ensures Holds(c, p, s + t)
  {
    assert c[p..p + |s + t|] == c[p..p + |s|] + c[p + |s|..p + |s| + |t|];
  }

  lemma ExtraInPlace(cfg: Config, content: seq<byte>, fixed: seq<byte>, p: nat, cur: nat, f: Found)
    requires |fixed| == 19 && Holds(content, p, fixed) && ReadExtra(cfg, content, fixed, p + 19, cur) == Ok(f)
    ensures Holds(content, p, HeaderBytes(f.header)) && f.pos == p + |HeaderBytes(f.header)|
  {
    FixedBytesRoundTrip(fixed);
    assert FixedBytes(f.header) == fixed;
    if f.header.extra == [] {
      assert HeaderBytes(f.header) == fixed;
    } else {
      HoldsTogether(content, p, fixed, f.header.extra);
    }
  }

  /** A header that is read, or found by a probe, is made of the bytes before the reader's new position. */
  lemma HeaderInPlace(cfg: Config, content: seq<byte>, pos: nat, cur: nat, probeSize: nat, f: Found) returns (p: nat)
    requires NextHeader(cfg, content, pos, cur, probeSize) == Ok(f)
    ensures Holds(content, p, HeaderBytes(f.header)) && f.pos == p + |HeaderBytes(f.header)|
  {
    if probeSize > 0 {
      var k := Probe(content, pos, cur, probeSize).value;
      ProbeFindsFirst(content, pos, cur, probeSize, k);
      p := pos + k;
      ExtraInPlace(cfg, content, Window(content, p), p, cur + k, f);
    } else {
      p := pos;
      ExtraInPlace(cfg, content, content[pos..pos + 19], p, cur, f);
    }
  }

  lemma {:induction false} FoundInPlace(cfg: Config, content: seq<byte>, pos: nat, cur: nat, probeSize: nat, f: Found)
    returns (p: nat)
    requires NextInterested(cfg, content, pos, cur, probeSize) == Ok(f)
    ensures Holds(content, p, HeaderBytes(f.header)) && f.pos == p + |HeaderBytes(f.header)|
    decreases Left(content, pos)
  {
    var round := ReadOne(cfg, content, pos, cur, probeSize);
    if round.Skipped? {
      p := FoundInPlace(cfg, content, round.pos, round.curOffset, 0, f);
    } else {
      p := HeaderInPlace(cfg, content, pos, cur, probeSize, f);
    }
  }

  lemma ChecksumIsFooter(hb: seq<byte>, data: seq<byte>, footer: seq<byte>)
    requires |footer| == 4 && FromLittleEndian(footer) == Update(Update(0, hb), data) as nat
    ensures footer == Footer(hb + data)
  {
    UpdateConcat(0, hb, data);
    BytesRoundTrip(footer);
  }

  lemma ChecksumPasses(cfg: Config, h: Header, s: seq<byte>, data: seq<byte>) returns (footer: seq<byte>)
    requires cfg.crc && cfg.validate && WithoutChecksum(cfg, h, s) == Ok(data)
    ensures s == data + footer && |footer| == 4
    ensures FromLittleEndian(footer) == Update(Update(0, HeaderBytes(h)), data) as nat
  {
    footer := s[|s| - 4..];
  }

  lemma DataInPlace(cfg: Config, content: seq<byte>, h: Header, q: nat, data: seq<byte>) returns (s: seq<byte>)
    requires cfg.crc && ReadData(cfg, content, h, q) == Ok(data)
    ensures Holds(content, q, s) && WithoutChecksum(cfg, h, s) == Ok(data)
  {
    s := ReadFull(content, q, RestLength(cfg, h)).value;
  }

  /** Data that pass validation are followed by their checksum. */
  lemma DataIsChecked(cfg: Config, content: seq<byte>, h: Header, q: nat, data: seq<byte>)
    requires cfg.crc && cfg.validate && ReadData(cfg, content, h, q) == Ok(data)
    ensures Holds(content, q, data + Footer(HeaderBytes(h) + data))
  {
    var s := DataInPlace(cfg, content, h, q, data);
    var footer := ChecksumPasses(cfg, h, s, data);
    ChecksumIsFooter(HeaderBytes(h), data, footer);
  }

  lemma CheckedTogether(content: seq<byte>, p: nat, h: Header, data: seq<byte>)
    requires Holds(content, p, HeaderBytes(h))
    requires Holds(content, p + |HeaderBytes(h)|, data + Footer(HeaderBytes(h) + data))
    ensures StoredWithChecksum(content, p, h, data)
  {
    var hb := HeaderBytes(h);
    HoldsTogether(content, p, hb, data + Footer(hb + data));
    Regroup(hb, data, Footer(hb + data));
  }

  lemma FinishedInParts<B>(cfg: Config<B>, content: seq<byte>, f: Found, ev: LogEvent<B>) returns (data: seq<byte>)
    requires cfg.mode != HeaderOnly && Finish(cfg, content, f) == Ok(ev)
    ensures ReadData(cfg, content, f.header, f.pos) == Ok(data)
    ensures HeaderOf(ev) == f.header && (ev.Raw? ==> ev.raw.data == data)
  {
    data := ReadData(cfg, content, f.header, f.pos).value;
  }

  lemma FinishedIsChecked<B>(cfg: Config<B>, content: seq<byte>, f: Found, p: nat, ev: LogEvent<B>)
    requires cfg.crc && cfg.validate && cfg.mode != HeaderOnly && Finish(cfg, content, f) == Ok(ev)
    requires Holds(content, p, HeaderBytes(f.header)) && f.pos == p + |HeaderBytes(f.header)|
    ensures IsChecked(content, ev)
  {
    var data := FinishedInParts(cfg, content, f, ev);
    DataIsChecked(cfg, content, f.header, f.pos, data);
    CheckedTogether(content, p, f.header, data);
    assert ReadFrom(content, ev, p, data);
  }

  lemma NextIsChecked<B>(cfg: Config<B>, content: seq<byte>, st: State<B>, st': State<B>, item: Item<B>)
    requires cfg.crc && cfg.validate && cfg.mode != HeaderOnly && st.Running? && st.first.None?
    requires Advance(cfg, content, st) == (st', Ok(item))
    ensures IsChecked(content, item.ev)
  {
    var f := NextInterested(cfg, content, st.pos, st.curOffset, st.probeSize).value;
    var p := FoundInPlace(cfg, content, st.pos, st.curOffset, st.probeSize, f);
    FinishedIsChecked(cfg, content, f, p, item.ev);
  }

  ghost predicate AllChecked<B>(content: seq<byte>, items: seq<Item<B>>) {
    forall i :: 0 <= i < |items| ==> IsChecked(content, items[i].ev)
  }

  lemma CheckedCons<B>(content: seq<byte>, item: Item<B>, rest: seq<Item<B>>)
    requires IsChecked(content, item.ev) && AllChecked(content, rest)
    ensures AllChecked(content, [item] + rest)
  {
  }

  lemma {:induction false} ScannedIsChecked<B>(cfg: Config<B>, content: seq<byte>, st: State<B>)
    requires cfg.crc && cfg.validate && cfg.mode != HeaderOnly && st.Running? && st.first.None?
    ensures AllChecked(content, ScanAll(cfg, content, st).0)
    decreases Left(content, st.pos)
  {
    var (st', r) := Advance(cfg, content, st);
    if r.Ok? {
      NextIsChecked(cfg, content, st, st', r.value);
      ScannedIsChecked(cfg, content, st');
      ScanStep(cfg, content, st, st', r.value);
      CheckedCons(content, r.value, ScanAll(cfg, content, st').0);
    }
  }

  // ----- the first event -----

  /** The first event read is in place, and made of its header and the rest. */
  lemma FirstInPlaceOf(content: seq<byte>, f: First)
    requires ReadFirst(content) == Ok(f)
    ensures Holds(content, 4, f.bytes) && |f.bytes| >= 76 && f.header == ParseFixed(f.bytes[..19])
  {
    var length := U32(content[13..17]);
    FirstHeaderOf(content[4..4 + length], f);
  }

  lemma FirstHeaderOf(bytes: seq<byte>, f: First)
    requires |bytes| >= 19 && FirstOf(bytes) == Ok(f)
    ensures f.bytes == bytes && |bytes| >= 76 && f.header == ParseFixed(bytes[..19])
  {
  }

  lemma FirstBytesAre(s: seq<byte>, h: Header)
    requires |s| >= 23 && h == ParseFixed(s[..19])
    ensures s[..|s| - 4] == HeaderBytes(h) + s[19..|s| - 4]
  {
    FixedBytesRoundTrip(s[..19]);
  }

  lemma FirstStored(s: seq<byte>, h: Header) returns (data: seq<byte>)
    requires |s| >= 23 && h == ParseFixed(s[..19]) && FirstChecksumOk(s)
    ensures data == s[19..|s| - 4] && s == (HeaderBytes(h) + data) + Footer(HeaderBytes(h) + data)
  {
    var n := |s|;
    data := s[19..n - 4];
    FirstBytesAre(s, h);
    ChecksumIsFooter(s[..13], s[13..n - 4], s[n - 4..]);
    assert s[..13] + s[13..n - 4] == s[..n - 4];
    assert s == s[..n - 4] + s[n - 4..];
  }

  lemma FirstParts<B>(o: Options<B>, f: First)
    requires f.fde.alg.Some? && |f.bytes| >= 23
    ensures var ev := FirstEvent(o, f);
            HeaderOf(ev) == f.header && (ev.Raw? ==> ev.raw.data == f.bytes[19..|f.bytes| - 4])
  {
  }

  /** Opening with validation checks the first event too. */
  lemma FirstIsChecked<B>(content: seq<byte>, o: Options<B>, f: First)
    requires ReadFirst(content) == Ok(f) && f.fde.alg.Some? && |f.bytes| >= 23 && FirstChecksumOk(f.bytes)
    ensures IsChecked(content, FirstEvent(o, f))
  {
    FirstInPlaceOf(content, f);
    var data := FirstStored(f.bytes, f.header);
    FirstParts(o, f);
    assert ReadFrom(content, FirstEvent(o, f), 4, data);
  }

  lemma OpenedWith<B>(content: seq<byte>, start: nat, o: Options<B>, f: First, cfg: Config<B>, st: State<B>)
    requires ReadFirst(content) == Ok(f) && Open(content, start, o) == Ok((cfg, st))
    requires o.validate && f.fde.alg == Some(CHECKSUM_CRC32) && |f.bytes| >= 23
    ensures cfg == ConfigFor(o, f.fde) && st.Running? && FirstChecksumOk(f.bytes)
    ensures st.first.None? || st.first == Some(FirstEvent(o, f))
  {
  }

  lemma AfterIsChecked<B>(cfg: Config<B>, content: seq<byte>, first: LogEvent<B>, end: nat, rest: (seq<Item<B>>, Err))
    requires IsChecked(content, first) && AllChecked(content, rest.0)
    ensures AllChecked(content, After(cfg, Some(first), end, rest).0)
  {
    CheckedCons(content, Item(end, first), rest.0);
  }

  /**
   Whatever the bytes of a file that declares CRC-32, scanning it with validation, in any mode that
   reads data, returns only events that are stored with the checksum of their header and data.
   */
  lemma ValidatedIsChecked<B>(content: seq<byte>, start: nat, o: Options<B>, f: First, cfg: Config<B>, st: State<B>)
    requires ReadFirst(content) == Ok(f) && Open(content, start, o) == Ok((cfg, st))
    requires o.validate && o.mode != HeaderOnly && f.fde.alg == Some(CHECKSUM_CRC32)
    ensures AllChecked(content, ScanAll(cfg, content, st).0)
  {
    FirstInPlaceOf(content, f);
    OpenedWith(content, start, o, f, cfg, st);
    if st.first.None? {
      ScannedIsChecked(cfg, content, st);
    } else {
      var first := st.first.value;
      var end := st.curOffset + HeaderOf(first).eventLength;
      FirstIsChecked(content, o, f);
      ScannedIsChecked(cfg, content, Running(st.pos, end, None, st.probeSize));
      FirstComesFirst(cfg, content, st.pos, st.curOffset, first, end, st.probeSize);
      AfterIsChecked(cfg, content, first, end, ScanAll(cfg, content, Running(st.pos, end, None, st.probeSize)));
    }
  }
}
