/**
 Version 4 binary log events as bytes (pkg/binlogtool/binlog/event/header.go,
 pkg/binlogtool/binlog/write.go): a header, data, and a checksum when the log has them.
 */
module BinlogFormat {
  import opened Bytes
  import opened Crc32

  const FORMAT_DESCRIPTION_EVENT: byte := 15
  const ROTATE_EVENT: byte := 4
  const MAGIC: seq<byte> := [0xfe, 0x62, 0x69, 0x6e]
  const CHECKSUM_OFF: byte := 0
  const CHECKSUM_CRC32: byte := 1

  datatype Header = Header(
    timestamp: u32, typeCode: byte, serverId: u32, eventLength: u32, nextPosition: u32, flags: u16,
    extra: seq<byte>)

  /** The 19 fixed bytes of a header. */
  function FixedBytes(h: Header): (s: seq<byte>)
    ensures |s| == 19
  {
    LittleEndian(h.timestamp, 4) + [h.typeCode] + LittleEndian(h.serverId, 4) + LittleEndian(h.eventLength, 4)
    + LittleEndian(h.nextPosition, 4) + LittleEndian(h.flags, 2)
  }

  function HeaderBytes(h: Header): (s: seq<byte>)
    ensures |s| == 19 + |h.extra|
  {
    FixedBytes(h) + h.extra
  }

  function U16(s: seq<byte>): u16
    requires |s| == 2
  {
    Widths();
    FromLittleEndian(s)
  }

  function U32(s: seq<byte>): u32
    requires |s| == 4
  {
    Widths();
    FromLittleEndian(s)
  }

  function ParseFixed(s: seq<byte>): Header
    requires |s| == 19
  {
    Header(U32(s[0..4]), s[4], U32(s[5..9]), U32(s[9..13]), U32(s[13..17]), U16(s[17..19]), [])
  }

  lemma HeaderRoundTrip(h: Header)
    ensures ParseFixed(FixedBytes(h)) == h.(extra := [])
  {
    Widths();
    NumberRoundTrip(h.timestamp, 4);
    NumberRoundTrip(h.serverId, 4);
    NumberRoundTrip(h.eventLength, 4);
    NumberRoundTrip(h.nextPosition, 4);
    NumberRoundTrip(h.flags, 2);
    FixedParts(LittleEndian(h.timestamp, 4), h.typeCode, LittleEndian(h.serverId, 4), LittleEndian(h.eventLength, 4),
               LittleEndian(h.nextPosition, 4), LittleEndian(h.flags, 2));
  }

  /** The six fields of 19 bytes. */
  lemma FixedParts(a: seq<byte>, t: byte, b: seq<byte>, c: seq<byte>, d: seq<byte>, e: seq<byte>)
    requires |a| == |b| == |c| == |d| == 4 && |e| == 2
    ensures var s := a + [t] + b + c + d + e;
            && |s| == 19 && s[0..4] == a && s[4] == t && s[5..9] == b
            && s[9..13] == c && s[13..17] == d && s[17..19] == e
  {
  }

  lemma FixedBytesRoundTrip(s: seq<byte>)
    requires |s| == 19
    ensures FixedBytes(ParseFixed(s)) == s
  {
    BytesRoundTrip(s[0..4]);
    BytesRoundTrip(s[5..9]);
    BytesRoundTrip(s[9..13]);
    BytesRoundTrip(s[13..17]);
    BytesRoundTrip(s[17..19]);
    assert s == s[0..4] + [s[4]] + s[5..9] + s[9..13] + s[13..17] + s[17..19];
  }

  /** An event as the raw scan mode returns it. */
  datatype RawEvent = RawEvent(header: Header, data: seq<byte>)

  function Body(ev: RawEvent): seq<byte> { HeaderBytes(ev.header) + ev.data }

  /** The event as stored; `crc` when the log carries checksums. */
  function Stored(ev: RawEvent, crc: bool): seq<byte> {
    Body(ev) + if crc then Footer(Body(ev)) else []
  }

  /** Length of the header of an event of a given type. */
  function HeaderLengthOf(typeCode: byte, headerLength: nat): nat {
    if typeCode == FORMAT_DESCRIPTION_EVENT || typeCode == ROTATE_EVENT then 19 else headerLength
  }
}
