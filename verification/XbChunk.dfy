/**
 Chunks of an xbstream archive (pkg/hpfs/filestream/xbstream_chunk.go). Every chunk starts with
 a magic number, flags, a type and a path; data chunks go on with lengths, a checksum nobody
 compares, the sparse map and the data.
 */
module XbChunk {
  import opened Bytes
  import opened Wrappers

  /** Skip so many bytes, then lay down so many bytes of data. */
  datatype SparseChunk = SparseChunk(skip: u32, len: u32)

  datatype Chunk =
    | Eof(path: Name)
    | Payload(path: Name, data: seq<byte>)
    | Sparse(path: Name, sparseMap: seq<SparseChunk>, data: seq<byte>)

  /** "XBSTCK01" */
  const ChunkMagic: seq<byte> := [88, 66, 83, 84, 67, 75, 48, 49]
  const PAYLOAD: byte := 80
  const SPARSE: byte := 83
  const EOF: byte := 69

  datatype ReadErr = Short | BadMagic

  // ----- what the reader makes of any bytes -----

  function Take(content: seq<byte>, pos: nat, n: nat): (r: Result<seq<byte>, ReadErr>)
    ensures r.Ok? ==> |r.value| == n && pos + n <= |content|
  {
    if pos + n <= |content| then Ok(content[pos..pos + n]) else Err(Short)
  }

  datatype Head = Head(typ: byte, path: Name)

  // What is read, and the position after it.
  datatype HeadRead = HeadRead(head: Head, next: nat)
  datatype SizeRead = SizeRead(size: nat, next: nat)
  datatype ChunkRead = ChunkRead(chunk: Chunk, next: nat)

  /** Flags are read and not used, since a type that is not known reads as end of file. */
  function HeadAt(content: seq<byte>, pos: nat): (r: Result<HeadRead, ReadErr>)
    ensures r.Ok? ==> pos + 14 <= r.value.next <= |content|
  {
    match Take(content, pos, 14)
    case Err(e) => Err(e)
    case Ok(h) =>
      if h[..8] != ChunkMagic then Err(BadMagic)
      else
        match Take(content, pos + 14, FromLittleEndian(h[10..14]))
        case Err(e) => Err(e)
        case Ok(path) => Ok(HeadRead(Head(h[9], path), pos + 14 + |path|))
  }

  function MapSizeAt(content: seq<byte>, typ: byte, pos: nat): (r: Result<SizeRead, ReadErr>)
    ensures r.Ok? ==> r.value.next >= pos
  {
    if typ != SPARSE then Ok(SizeRead(0, pos))
    else
      match Take(content, pos, 4)
      case Err(e) => Err(e)
      case Ok(s) => Ok(SizeRead(FromLittleEndian(s), pos + 4))
  }

  /** Length, offset and checksum; only the length is used. */
  function LengthAt(content: seq<byte>, pos: nat): (r: Result<nat, ReadErr>)
    ensures r.Ok? ==> pos + 20 <= |content|
  {
    match Take(content, pos, 16)
    case Err(e) => Err(e)
    case Ok(meta) =>
      match Take(content, pos + 16, 4)
      case Err(e) => Err(e)
      case Ok(_) => Ok(FromLittleEndian(meta[..8]))
  }

  function EntryAt(content: seq<byte>, pos: nat): Result<SparseChunk, ReadErr> {
    Widths();
    match Take(content, pos, 8)
    case Err(e) => Err(e)
    case Ok(s) => Ok(SparseChunk(FromLittleEndian(s[..4]), FromLittleEndian(s[4..])))
  }

  function MapAt(content: seq<byte>, pos: nat, n: nat): (r: Result<seq<SparseChunk>, ReadErr>)
    ensures r.Ok? ==> |r.value| == n
    decreases n
  {
    if n == 0 then Ok([])
    else
      match EntryAt(content, pos)
      case Err(e) => Err(e)
      case Ok(entry) => Onto([entry], MapAt(content, pos + 8, n - 1))
  }

  function Onto(entries: seq<SparseChunk>, r: Result<seq<SparseChunk>, ReadErr>): Result<seq<SparseChunk>, ReadErr> {
    match r
    case Err(e) => Err(e)
    case Ok(more) => Ok(entries + more)
  }

  function DataChunk(head: Head, m: seq<SparseChunk>, data: seq<byte>): Chunk {
    if head.typ == SPARSE then Sparse(head.path, m, data) else Payload(head.path, data)
  }

  /** Map and data of a data chunk, from the lengths on. */
  function BodyAt(content: seq<byte>, head: Head, n: nat, pos: nat): (r: Result<ChunkRead, ReadErr>)
    ensures r.Ok? ==> r.value.next >= pos
  {
    match LengthAt(content, pos)
    case Err(e) => Err(e)
    case Ok(length) =>
      match MapAt(content, pos + 20, n)
      case Err(e) => Err(e)
      case Ok(sparseMap) =>
        match Take(content, pos + 20 + 8 * n, length)
        case Err(e) => Err(e)
        case Ok(data) =>
          Ok(ChunkRead(DataChunk(head, sparseMap, data), pos + 20 + 8 * n + length))
  }

  function ChunkAt(content: seq<byte>, pos: nat): (r: Result<ChunkRead, ReadErr>)
    ensures r.Ok? ==> pos < r.value.next && pos < |content|
  {
    match HeadAt(content, pos)
    case Err(e) => Err(e)
    case Ok(HeadRead(head, p)) =>
      if head.typ != PAYLOAD && head.typ != SPARSE then Ok(ChunkRead(Eof(head.path), p))
      else
        match MapSizeAt(content, head.typ, p)
        case Err(e) => Err(e)
        case Ok(SizeRead(n, q)) => BodyAt(content, head, n, q)
  }

  /** All chunks up to the first that cannot be read. */
  function ChunksAt(content: seq<byte>, pos: nat): seq<Chunk>
    decreases if pos < |content| then |content| - pos else 0
  {
    match ChunkAt(content, pos)
    case Err(_) => []
    case Ok(ChunkRead(chunk, next)) => [chunk] + ChunksAt(content, next)
  }

  // ----- the reader -----

  class ChunkReader {
    const content: seq<byte>
    var pos: nat

    constructor (content: seq<byte>)
      ensures this.content == content && pos == 0
    {
      this.content, pos := content, 0;
    }

    /** Reads exactly n bytes, or all that is left and fails. */
    method ReadBytes(n: nat) returns (r: Result<seq<byte>, ReadErr>)
      modifies this
      ensures r == Take(content, old(pos), n)
      ensures r.Ok? ==> pos == old(pos) + n
    {
      if pos + n <= |content| {
        r := Ok(content[pos..pos + n]);
        pos := pos + n;
      } else {
        pos := |content|;
        r := Err(Short);
      }
    }

    method ReadHead() returns (r: Result<Head, ReadErr>, index: nat)
      modifies this
      ensures match HeadAt(content, old(pos))
              case Err(e) => r == Err(e)
              case Ok(HeadRead(head, next)) => r == Ok(head) && pos == next && index == next - old(pos)
    {
      index := 0;
      var h := ReadBytes(14);
      if h.Err? {
        return Err(h.error), index;
      }
      if h.value[..8] != ChunkMagic {
        return Err(BadMagic), index;
      }
      var typ := h.value[9];
      var path := ReadBytes(FromLittleEndian(h.value[10..14]));
      if path.Err? {
        return Err(path.error), index;
      }
      return Ok(Head(typ, path.value)), 14 + |path.value|;
    }

    method ReadMap(n: nat) returns (r: Result<seq<SparseChunk>, ReadErr>)
      modifies this
      ensures r == MapAt(content, old(pos), n)
      ensures r.Ok? ==> pos == old(pos) + 8 * n
    {
      ghost var goal := MapAt(content, pos, n);
      var entries: seq<SparseChunk> := [];
      assert goal.Ok? ==> [] + goal.value == goal.value;
      Widths();
      for i := 0 to n
        invariant pos == old(pos) + 8 * i && Onto(entries, MapAt(content, pos, n - i)) == goal
      {
        ghost var rest := MapAt(content, pos + 8, n - i - 1);
        var s := ReadBytes(8);
        if s.Err? {
          return Err(s.error);
        }
        var entry := SparseChunk(FromLittleEndian(s.value[..4]), FromLittleEndian(s.value[4..]));
        assert rest.Ok? ==> entries + ([entry] + rest.value) == (entries + [entry]) + rest.value;
        entries := entries + [entry];
      }
      assert entries + [] == entries;
      r := Ok(entries);
    }

    method ReadBody(head: Head, n: nat) returns (r: Result<Chunk, ReadErr>, length: nat)
      modifies this
      ensures match BodyAt(content, head, n, old(pos))
              case Err(e) => r == Err(e)
              case Ok(ChunkRead(chunk, next)) => r == Ok(chunk) && pos == next == old(pos) + 20 + 8 * n + length
    {
      length := 0;
      var meta := ReadBytes(16);
      if meta.Err? {
        return Err(meta.error), length;
      }
      var checksum := ReadBytes(4);
      if checksum.Err? {
        return Err(checksum.error), length;
      }
      length := FromLittleEndian(meta.value[..8]);
      var sparseMap := ReadMap(n);
      if sparseMap.Err? {
        return Err(sparseMap.error), length;
      }
      var data := ReadBytes(length);
      if data.Err? {
        return Err(data.error), length;
      }
      r := Ok(DataChunk(head, sparseMap.value, data.value));
    }

    /** Reads one chunk; the raw length it works out is what it took from the stream. */
    method Read() returns (r: Result<Chunk, ReadErr>, rawLength: nat)
      modifies this
      ensures match ChunkAt(content, old(pos))
              case Err(e) => r == Err(e)
              case Ok(ChunkRead(chunk, next)) => r == Ok(chunk) && pos == next && rawLength == next - old(pos)
    {
      rawLength := 0;
      var head, index := ReadHead();
      if head.Err? {
        return Err(head.error), rawLength;
      }
      if head.value.typ != PAYLOAD && head.value.typ != SPARSE {
        return Ok(Eof(head.value.path)), index;
      }
      var n: nat := 0;
      if head.value.typ == SPARSE {
        var size := ReadBytes(4);
        index := index + 4;
        if size.Err? {
          return Err(size.error), rawLength;
        }
        n := FromLittleEndian(size.value);
      }
      index := index + 16 + 4;
      var length;
      r, length := ReadBody(head.value, n);
      rawLength := index + length + n * 4 * 2;
    }
  }

  // ----- round trip -----

  function HeadBytes(flags: byte, typ: byte, path: Name): seq<byte> {
    ChunkMagic + [flags, typ] + LittleEndian(|path|, 4) + path
  }

  function EntryBytes(e: SparseChunk): seq<byte> { LittleEndian(e.skip, 4) + LittleEndian(e.len, 4) }

  function MapBytes(m: seq<SparseChunk>): seq<byte> {
    if m == [] then [] else EntryBytes(m[0]) + MapBytes(m[1..])
  }

  function BodyBytes(offset: u64, checksum: u32, m: seq<SparseChunk>, data: seq<byte>): seq<byte> {
    (LittleEndian(|data|, 8) + LittleEndian(offset, 8)) + (LittleEndian(checksum, 4) + (MapBytes(m) + data))
  }

  /** A chunk with the flags, offset and checksum an archiver gives it. */
  datatype Frame = Frame(chunk: Chunk, flags: byte, offset: u64, checksum: u32)

  function FrameBytes(f: Frame): seq<byte> {
    match f.chunk
    case Eof(path) => HeadBytes(f.flags, EOF, path)
    case Payload(path, data) => HeadBytes(f.flags, PAYLOAD, path) + BodyBytes(f.offset, f.checksum, [], data)
    case Sparse(path, m, data) =>
      HeadBytes(f.flags, SPARSE, path) + (LittleEndian(|m|, 4) + BodyBytes(f.offset, f.checksum, m, data))
  }

  predicate Encodable(c: Chunk) {
    && |c.path| < 0x1_0000_0000
    && (!c.Eof? ==> |c.data| < 0x1_0000_0000_0000_0000)
    && (c.Sparse? ==> |c.sparseMap| < 0x1_0000_0000)
  }

  lemma TakeHeld(c: seq<byte>, p: nat, s: seq<byte>)
    requires Holds(c, p, s)
    ensures Take(c, p, |s|) == Ok(s)
  {
  }

  lemma HeadReadBack(c: seq<byte>, p: nat, flags: byte, typ: byte, path: Name)
    requires |path| < 0x1_0000_0000 && Holds(c, p, HeadBytes(flags, typ, path))
    ensures HeadAt(c, p) == Ok(HeadRead(Head(typ, path), p + 14 + |path|))
  {
    var size := LittleEndian(|path|, 4);
    var fixed := ChunkMagic + [flags, typ] + size;
    HoldsParts(c, p, fixed, path);
    TakeHeld(c, p, fixed);
    TakeHeld(c, p + 14, path);
    assert fixed[..8] == ChunkMagic && fixed[9] == typ && fixed[10..14] == size;
    Widths();
    NumberRoundTrip(|path|, 4);
  }

  lemma EntryReadBack(c: seq<byte>, p: nat, e: SparseChunk)
    requires Holds(c, p, EntryBytes(e))
    ensures EntryAt(c, p) == Ok(e)
  {
    TakeHeld(c, p, EntryBytes(e));
    Widths();
    NumberRoundTrip(e.skip, 4);
    NumberRoundTrip(e.len, 4);
    assert EntryBytes(e)[..4] == LittleEndian(e.skip, 4) && EntryBytes(e)[4..] == LittleEndian(e.len, 4);
  }

  lemma {:induction false} MapLength(m: seq<SparseChunk>)
    ensures |MapBytes(m)| == 8 * |m|
  {
    if m != [] {
      MapLength(m[1..]);
    }
  }

  lemma {:induction false} MapReadBack(c: seq<byte>, p: nat, m: seq<SparseChunk>)
    requires Holds(c, p, MapBytes(m))
    ensures MapAt(c, p, |m|) == Ok(m)
    decreases |m|
  {
    if m != [] {
      HoldsParts(c, p, EntryBytes(m[0]), MapBytes(m[1..]));
      EntryReadBack(c, p, m[0]);
      MapReadBack(c, p + 8, m[1..]);
      assert [m[0]] + m[1..] == m;
    }
  }

  lemma LengthReadBack(c: seq<byte>, p: nat, n: u64, offset: u64, checksum: u32)
    requires Holds(c, p, LittleEndian(n, 8) + LittleEndian(offset, 8)) && Holds(c, p + 16, LittleEndian(checksum, 4))
    ensures LengthAt(c, p) == Ok(n)
  {
    var meta := LittleEndian(n, 8) + LittleEndian(offset, 8);
    TakeHeld(c, p, meta);
    TakeHeld(c, p + 16, LittleEndian(checksum, 4));
    assert meta[..8] == LittleEndian(n, 8);
    Widths();
    NumberRoundTrip(n, 8);
  }

  lemma BodyInParts(c: seq<byte>, head: Head, p: nat, m: seq<SparseChunk>, data: seq<byte>, q: nat)
    requires LengthAt(c, p) == Ok(|data|) && MapAt(c, p + 20, |m|) == Ok(m) && q == p + 20 + 8 * |m| &&
             Take(c, q, |data|) == Ok(data)
    ensures BodyAt(c, head, |m|, p)
         == Ok(ChunkRead(DataChunk(head, m, data), q + |data|))
  {
  }

  lemma BodyReadBack(c: seq<byte>, p: nat, head: Head, offset: u64, checksum: u32, m: seq<SparseChunk>, data: seq<byte>)
    requires |data| < 0x1_0000_0000_0000_0000 && Holds(c, p, BodyBytes(offset, checksum, m, data))
    ensures BodyAt(c, head, |m|, p)
         == Ok(ChunkRead(DataChunk(head, m, data), p + |BodyBytes(offset, checksum, m, data)|))
  {
    var meta, sum := LittleEndian(|data|, 8) + LittleEndian(offset, 8), LittleEndian(checksum, 4);
    var q := p + 20 + 8 * |m|;
    MapLength(m);
    HoldsParts(c, p, meta, sum + (MapBytes(m) + data));
    HoldsParts(c, p + 16, sum, MapBytes(m) + data);
    HoldsParts(c, p + 20, MapBytes(m), data);
    LengthReadBack(c, p, |data|, offset, checksum);
    MapReadBack(c, p + 20, m);
    TakeHeld(c, q, data);
    BodyInParts(c, head, p, m, data, q);
  }

  lemma MapSizeReadBack(c: seq<byte>, p: nat, n: u32)
    requires Holds(c, p, LittleEndian(n, 4))
    ensures MapSizeAt(c, SPARSE, p) == Ok(SizeRead(n, p + 4))
  {
    TakeHeld(c, p, LittleEndian(n, 4));
    Widths();
    NumberRoundTrip(n, 4);
  }

  lemma ChunkInParts(c: seq<byte>, p: nat, head: Head, q: nat, n: nat, r: nat, got: ChunkRead)
    requires HeadAt(c, p) == Ok(HeadRead(head, q)) && (head.typ == PAYLOAD || head.typ == SPARSE)
    requires MapSizeAt(c, head.typ, q) == Ok(SizeRead(n, r)) && BodyAt(c, head, n, r) == Ok(got)
    ensures ChunkAt(c, p) == Ok(got)
  {
  }

  lemma PayloadReadBack(c: seq<byte>, p: nat, f: Frame, path: Name, data: seq<byte>)
    requires f.chunk == Payload(path, data) && Encodable(f.chunk) && Holds(c, p, FrameBytes(f))
    ensures ChunkAt(c, p) == Ok(ChunkRead(f.chunk, p + |FrameBytes(f)|))
  {
    var head, body := HeadBytes(f.flags, PAYLOAD, path), BodyBytes(f.offset, f.checksum, [], data);
    var q := p + |head|;
    HoldsParts(c, p, head, body);
    HeadReadBack(c, p, f.flags, PAYLOAD, path);
    BodyReadBack(c, q, Head(PAYLOAD, path), f.offset, f.checksum, [], data);
    ChunkInParts(c, p, Head(PAYLOAD, path), q, 0, q, ChunkRead(f.chunk, q + |body|));
  }

  lemma ThreeParts(c: seq<byte>, p: nat, s: seq<byte>, t: seq<byte>, u: seq<byte>)
    requires Holds(c, p, s + (t + u))
    ensures Holds(c, p, s) && Holds(c, p + |s|, t) && Holds(c, p + |s| + |t|, u)
  {
    HoldsParts(c, p, s, t + u);
    HoldsParts(c, p + |s|, t, u);
  }

  lemma SparseInParts(c: seq<byte>, p: nat, q: nat, path: Name, m: seq<SparseChunk>, data: seq<byte>, end: nat)
    requires HeadAt(c, p) == Ok(HeadRead(Head(SPARSE, path), q)) && MapSizeAt(c, SPARSE, q) == Ok(SizeRead(|m|, q + 4))
    requires BodyAt(c, Head(SPARSE, path), |m|, q + 4) == Ok(ChunkRead(DataChunk(Head(SPARSE, path), m, data), end))
    ensures ChunkAt(c, p) == Ok(ChunkRead(Sparse(path, m, data), end))
  {
    ChunkInParts(c, p, Head(SPARSE, path), q, |m|, q + 4, ChunkRead(Sparse(path, m, data), end));
  }

  lemma SparseHeadReadBack(c: seq<byte>, p: nat, flags: byte, path: Name, n: u32, body: seq<byte>, q: nat)
    requires |path| < 0x1_0000_0000 && q == p + |HeadBytes(flags, SPARSE, path)|
    requires Holds(c, p, HeadBytes(flags, SPARSE, path) + (LittleEndian(n, 4) + body))
    ensures HeadAt(c, p) == Ok(HeadRead(Head(SPARSE, path), q)) && MapSizeAt(c, SPARSE, q) == Ok(SizeRead(n, q + 4))
    ensures Holds(c, q + 4, body)
  {
    ThreeParts(c, p, HeadBytes(flags, SPARSE, path), LittleEndian(n, 4), body);
    HeadReadBack(c, p, flags, SPARSE, path);
    MapSizeReadBack(c, q, n);
  }

  lemma SparseBodyReadBack(c: seq<byte>, p: nat, q: nat, path: Name, offset: u64, checksum: u32, m: seq<SparseChunk>,
                           data: seq<byte>)
    requires HeadAt(c, p) == Ok(HeadRead(Head(SPARSE, path), q)) && MapSizeAt(c, SPARSE, q) == Ok(SizeRead(|m|, q + 4))
    requires |data| < 0x1_0000_0000_0000_0000 && Holds(c, q + 4, BodyBytes(offset, checksum, m, data))
    ensures ChunkAt(c, p) == Ok(ChunkRead(Sparse(path, m, data), q + 4 + |BodyBytes(offset, checksum, m, data)|))
  {
    BodyReadBack(c, q + 4, Head(SPARSE, path), offset, checksum, m, data);
    SparseInParts(c, p, q, path, m, data, q + 4 + |BodyBytes(offset, checksum, m, data)|);
  }

  lemma SparseReadBack(c: seq<byte>, p: nat, f: Frame, path: Name, m: seq<SparseChunk>, data: seq<byte>)
    requires f.chunk == Sparse(path, m, data) && Encodable(f.chunk) && Holds(c, p, FrameBytes(f))
    ensures ChunkAt(c, p) == Ok(ChunkRead(f.chunk, p + |FrameBytes(f)|))
  {
    var body, q := BodyBytes(f.offset, f.checksum, m, data), p + |HeadBytes(f.flags, SPARSE, path)|;
    SparseHeadReadBack(c, p, f.flags, path, |m|, body, q);
    SparseBodyReadBack(c, p, q, path, f.offset, f.checksum, m, data);
  }

  /** A chunk in place is read back, and the reader is left right after it. */
  lemma ChunkReadBack(c: seq<byte>, p: nat, f: Frame)
    requires Encodable(f.chunk) && Holds(c, p, FrameBytes(f))
    ensures ChunkAt(c, p) == Ok(ChunkRead(f.chunk, p + |FrameBytes(f)|))
  {
    match f.chunk
    case Eof(path) => HeadReadBack(c, p, f.flags, EOF, path);
    case Payload(path, data) => PayloadReadBack(c, p, f, path, data);
    case Sparse(path, m, data) => SparseReadBack(c, p, f, path, m, data);
  }

  function ArchiveOf(fs: seq<Frame>): seq<byte> {
    if fs == [] then [] else FrameBytes(fs[0]) + ArchiveOf(fs[1..])
  }

  function ChunksOf(fs: seq<Frame>): seq<Chunk> {
    if fs == [] then [] else [fs[0].chunk] + ChunksOf(fs[1..])
  }

  lemma FirstReadBack(c: seq<byte>, p: nat, f: Frame, rest: seq<byte>) returns (q: nat)
    requires Encodable(f.chunk) && Holds(c, p, FrameBytes(f) + rest)
    ensures ChunkAt(c, p) == Ok(ChunkRead(f.chunk, q)) && Holds(c, q, rest) && q + |rest| == p + |FrameBytes(f) + rest|
  {
    HoldsParts(c, p, FrameBytes(f), rest);
    ChunkReadBack(c, p, f);
    q := p + |FrameBytes(f)|;
  }

  lemma ChunksFirst(c: seq<byte>, p: nat, chunk: Chunk, q: nat)
    requires ChunkAt(c, p) == Ok(ChunkRead(chunk, q))
    ensures ChunksAt(c, p) == [chunk] + ChunksAt(c, q)
  {
  }

  /** All chunks of an archive are read back, and nothing else. */
  lemma {:induction false} ArchiveReadBack(c: seq<byte>, p: nat, fs: seq<Frame>)
    requires forall f :: f in fs ==> Encodable(f.chunk)
    requires Holds(c, p, ArchiveOf(fs)) && |c| == p + |ArchiveOf(fs)|
    ensures ChunksAt(c, p) == ChunksOf(fs)
    decreases |fs|
  {
    if fs != [] {
      var q := FirstReadBack(c, p, fs[0], ArchiveOf(fs[1..]));
      ArchiveReadBack(c, q, fs[1..]);
      ChunksFirst(c, p, fs[0].chunk, q);
    }
  }
}
