/**
 Unpacking an xbstream archive (pkg/hpfs/filestream/local.go and the loop of
 writeXBStreamFiles in pkg/hpfs/filestream/server.go): the chunks of many files come
 interleaved; every file is written as its chunks come, skipping over holes.
 */
module XbStream {
  import opened Bytes
  import opened Wrappers
  import opened XbChunk

  function Zeros(n: nat): (s: seq<byte>)
    ensures |s| == n && forall i :: 0 <= i < n ==> s[i] == 0
  {
    seq(n, _ => 0)
  }

  // ----- the operating system's file -----

  /** A write at pos; bytes never written read as zero. */
  function Written(content: seq<byte>, pos: nat, data: seq<byte>): seq<byte> {
    var end := pos + |data|;
    if data == [] then content
    else if pos > |content| then content + Zeros(pos - |content|) + data
    else content[..pos] + data + if end <= |content| then content[end..] else []
  }

  /** Deallocates a range without changing the size. */
  function Punched(content: seq<byte>, off: nat, n: nat): (r: seq<byte>)
    ensures |r| == |content|
  {
    seq(|content|, i requires 0 <= i < |content| => if off <= i < off + n then 0 else content[i])
  }

  // ----- what a file should hold -----

  /** Data bytes used by the first k entries of a sparse map. */
  function Used(m: seq<SparseChunk>, k: nat): nat
    requires k <= |m|
  {
    if k == 0 then 0 else Used(m, k - 1) + m[k - 1].len
  }

  lemma {:induction false} UsedGrows(m: seq<SparseChunk>, j: nat, k: nat)
    requires j <= k <= |m|
    ensures Used(m, j) <= Used(m, k)
  {
    if j < k {
      UsedGrows(m, j, k - 1);
    }
  }

  /** The map asks for no more data than there is, counted in 32 bits; otherwise slicing panics. */
  predicate Fits(m: seq<SparseChunk>, data: seq<byte>) {
    Used(m, |m|) <= |data| && Used(m, |m|) < 0x1_0000_0000
  }

  /** Holes and data of the first k entries. */
  function Laid(m: seq<SparseChunk>, data: seq<byte>, k: nat): seq<byte>
    requires k <= |m| && Used(m, k) <= |data|
  {
    if k == 0 then []
    else Laid(m, data, k - 1) + (Zeros(m[k - 1].skip) + data[Used(m, k - 1)..Used(m, k)])
  }

  predicate ChunkFits(c: Chunk) { c.Sparse? ==> Fits(c.sparseMap, c.data) }

  predicate AllFit(cs: seq<Chunk>) { forall i :: 0 <= i < |cs| ==> ChunkFits(cs[i]) }

  function Expansion(c: Chunk): seq<byte>
    requires ChunkFits(c)
  {
    match c
    case Eof(_) => []
    case Payload(_, data) => data
    case Sparse(_, m, data) => Laid(m, data, |m|)
  }

  /** A file with its holes filled with zeros. */
  function Expanded(parts: seq<Chunk>): seq<byte>
    requires AllFit(parts)
  {
    if parts == [] then []
    else Expanded(parts[..|parts| - 1]) + Expansion(parts[|parts| - 1])
  }

  /** Size of the hole at the end of a file after k entries, when it was `hole` before them. */
  function MapHole(hole: nat, m: seq<SparseChunk>, k: nat): nat
    requires k <= |m|
  {
    if k == 0 then hole else if m[k - 1].len > 0 then 0 else MapHole(hole, m, k - 1) + m[k - 1].skip
  }

  function ChunkHole(hole: nat, c: Chunk): nat {
    match c
    case Eof(_) => hole
    case Payload(_, data) => if data == [] then hole else 0
    case Sparse(_, m, _) => MapHole(hole, m, |m|)
  }

  /** Size of the hole a file ends in. */
  function Hole(parts: seq<Chunk>): nat {
    if parts == [] then 0 else ChunkHole(Hole(parts[..|parts| - 1]), parts[|parts| - 1])
  }

  /** The skip a chunk ends in, remembered for closing the file. */
  function LastSkip(c: Chunk): nat {
    if !c.Sparse? || c.sparseMap == [] then 0
    else
      var last := c.sparseMap[|c.sparseMap| - 1];
      if last.len == 0 then last.skip else 0
  }

  function LastSeekOf(parts: seq<Chunk>): nat {
    if parts == [] then 0 else LastSkip(parts[|parts| - 1])
  }

  /** A file once closed: its last hole is kept only if the last chunk ended in a skip. */
  function Image(parts: seq<Chunk>): seq<byte>
    requires AllFit(parts)
  {
    HoleIsInside(parts);
    if LastSeekOf(parts) > 0 then Expanded(parts) else Expanded(parts)[..|Expanded(parts)| - Hole(parts)]
  }

  // ----- content that shows a file up to its last hole -----

  /** All but the last `hole` bytes of `whole` are there, the position is after them, and they are zero. */
  ghost predicate Shows(content: seq<byte>, pos: nat, whole: seq<byte>, hole: nat) {
    pos == |whole| && hole <= pos && content + Zeros(hole) == whole
  }

  /** Skipping and laying down data. */
  lemma EntryShows(content: seq<byte>, pos: nat, whole: seq<byte>, hole: nat, skip: nat, part: seq<byte>)
    requires Shows(content, pos, whole, hole)
    ensures Shows(Written(content, pos + skip, part), pos + skip + |part|, whole + (Zeros(skip) + part),
                  if part == [] then hole + skip else 0)
  {
    if part == [] {
      assert Zeros(skip) + part == Zeros(skip);
      assert content + Zeros(hole + skip) == (content + Zeros(hole)) + Zeros(skip);
    } else {
      assert Zeros(hole + skip) == Zeros(hole) + Zeros(skip);
      var w := Written(content, pos + skip, part);
      assert w == content + Zeros(hole + skip) + part;
      assert w + Zeros(0) == w;
      assert content + (Zeros(hole) + Zeros(skip)) + part == (content + Zeros(hole)) + (Zeros(skip) + part);
    }
  }

  /** Punching a hole where the file skipped changes nothing. */
  lemma PunchIsNeutral(content: seq<byte>, pos: nat, whole: seq<byte>, hole: nat, skip: nat, part: seq<byte>)
    requires Shows(content, pos, whole, hole)
    ensures var w := Written(content, pos + skip, part);
            Punched(w, pos, skip) == w
  {
    var w := Written(content, pos + skip, part);
    forall i | 0 <= i < |w| && pos <= i < pos + skip ensures w[i] == 0 {
      assert |content| + hole == pos;
    }
  }

  class File {
    const fallocate: bool
    var content: seq<byte>
    var pos: nat
    var lastSeek: nat

    constructor (fallocate: bool)
      ensures this.fallocate == fallocate && content == [] && pos == 0 && lastSeek == 0
    {
      this.fallocate := fallocate;
      content, pos, lastSeek := [], 0, 0;
    }

    /** The file after some parts, while it is open. */
    ghost predicate Holding(parts: seq<Chunk>)
      reads this
    {
      AllFit(parts) && Shows(content, pos, Expanded(parts), Hole(parts)) && lastSeek == LastSeekOf(parts)
    }

    method OsWrite(data: seq<byte>)
      modifies this`content, this`pos
      ensures content == Written(old(content), old(pos), data) && pos == old(pos) + |data|
    {
      if data != [] {
        if pos > |content| {
          content := content + Zeros(pos - |content|) + data;
        } else {
          content := content[..pos] + data + if pos + |data| <= |content| then content[pos + |data|..] else [];
        }
        pos := pos + |data|;
      }
    }

    method Write(buf: seq<byte>, ghost whole: seq<byte>, ghost hole: nat)
      requires Shows(content, pos, whole, hole)
      modifies this
      ensures Shows(content, pos, whole + buf, if buf == [] then hole else 0) && lastSeek == 0
    {
      EntryShows(content, pos, whole, hole, 0, buf);
      assert Zeros(0) + buf == buf;
      lastSeek := 0;
      OsWrite(buf);
    }

    /** One entry of a sparse map, with its part of the data. */
    method WriteEntry(skip: nat, part: seq<byte>, ghost whole: seq<byte>, ghost hole: nat)
      requires Shows(content, pos, whole, hole)
      modifies this`content, this`pos
      ensures Shows(content, pos, whole + (Zeros(skip) + part), if part == [] then hole + skip else 0)
    {
      EntryShows(content, pos, whole, hole, skip, part);
      PunchIsNeutral(content, pos, whole, hole, skip, part);
      var offset := pos;
      pos := pos + skip;
      if part != [] {
        OsWrite(part);
      }
      if fallocate && skip > 0 {
        content := Punched(content, offset, skip);
      }
    }

    /** False stands for the panic of a slice out of range. */
    method WriteSparse(m: seq<SparseChunk>, data: seq<byte>, ghost whole: seq<byte>, ghost hole: nat) returns (ok: bool)
      requires Shows(content, pos, whole, hole)
      modifies this
      ensures ok <==> Fits(m, data)
      ensures ok ==> Shows(content, pos, whole + Laid(m, data, |m|), MapHole(hole, m, |m|))
      ensures ok ==> lastSeek == if m != [] && m[|m| - 1].len == 0 then m[|m| - 1].skip else 0
    {
      var index: nat := 0;
      assert whole + [] == whole;
      for i := 0 to |m|
        invariant index == Used(m, i) <= |data| && index < 0x1_0000_0000
        invariant Shows(content, pos, whole + Laid(m, data, i), MapHole(hole, m, i))
      {
        UsedGrows(m, i + 1, |m|);
        if m[i].len > 0 && (index + m[i].len > |data| || index + m[i].len >= 0x1_0000_0000) {
          return false;
        }
        var part := data[index..index + m[i].len];
        WriteEntry(m[i].skip, part, whole + Laid(m, data, i), MapHole(hole, m, i));
        Regroup(whole, Laid(m, data, i), Zeros(m[i].skip) + part);
        index := index + m[i].len;
      }
      lastSeek := 0;
      if |m| > 0 {
        if m[|m| - 1].len == 0 {
          lastSeek := m[|m| - 1].skip;
        }
      }
      ok := true;
    }

    /** Writes a data chunk after the parts written so far. */
    method Put(c: Chunk, ghost parts: seq<Chunk>) returns (ok: bool)
      requires Holding(parts) && !c.Eof?
      modifies this
      ensures ok <==> ChunkFits(c)
      ensures ok ==> Holding(parts + [c])
    {
      assert (parts + [c])[..|parts|] == parts;
      ok := true;
      match c {
        case Payload(_, data) => Write(data, Expanded(parts), Hole(parts));
        case Sparse(_, m, data) => ok := WriteSparse(m, data, Expanded(parts), Hole(parts));
      }
    }

    /** A last skip is made real by writing its last byte. */
    method Close(ghost parts: seq<Chunk>)
      requires Holding(parts)
      modifies this
      ensures content == Image(parts)
    {
      ClosedIsImage(content, pos, parts);
      if lastSeek > 0 {
        pos := pos - 1;
        OsWrite([0]);
      }
      lastSeek := 0;
    }
  }

  lemma ClosedIsImage(content: seq<byte>, pos: nat, parts: seq<Chunk>)
    requires AllFit(parts) && Shows(content, pos, Expanded(parts), Hole(parts))
    ensures LastSeekOf(parts) > 0 ==> pos > 0
    ensures Image(parts) == if LastSeekOf(parts) > 0 then Written(content, pos - 1, [0]) else content
  {
    HoleIsInside(parts);
    CloseShows(content, pos, Expanded(parts), Hole(parts));
  }

  lemma CloseShows(content: seq<byte>, pos: nat, whole: seq<byte>, hole: nat)
    requires Shows(content, pos, whole, hole)
    ensures content == whole[..|whole| - hole]
    ensures hole > 0 ==> Written(content, pos - 1, [0]) == whole
  {
    if hole > 0 {
      assert Zeros(hole) == Zeros(hole - 1) + [0];
      assert pos - 1 == |content| ==> Zeros(hole - 1) == [];
    }
  }

  lemma {:induction false} MapHoleIsInside(hole: nat, m: seq<SparseChunk>, data: seq<byte>, k: nat)
    requires k <= |m| && Used(m, k) <= |data|
    ensures MapHole(hole, m, k) <= hole + |Laid(m, data, k)|
  {
    if k > 0 {
      MapHoleIsInside(hole, m, data, k - 1);
    }
  }

  /** The last hole is within the file, and there is one if the last chunk ended in a skip. */
  lemma {:induction false} HoleIsInside(parts: seq<Chunk>)
    requires AllFit(parts)
    ensures Hole(parts) <= |Expanded(parts)|
    ensures LastSeekOf(parts) > 0 ==> Hole(parts) > 0
  {
    if parts != [] {
      var init, c := parts[..|parts| - 1], parts[|parts| - 1];
      HoleIsInside(init);
      if c.Sparse? {
        MapHoleIsInside(Hole(init), c.sparseMap, c.data, |c.sparseMap|);
      }
    }
  }

  // ----- a closed file and its chunks -----

  /** A closed file is its chunks' expansion if and only if it has no last hole or its last chunk ended in a skip. */
  lemma ReassembledIff(parts: seq<Chunk>)
    requires AllFit(parts)
    ensures Image(parts) == Expanded(parts) <==> (Hole(parts) == 0 || LastSeekOf(parts) > 0)
  {
    HoleIsInside(parts);
    assert Hole(parts) == 0 ==> Image(parts) == Expanded(parts);
  }

  /** A hole followed by an empty payload is lost. */
  lemma HoleIsLost(path: Name)
    ensures var parts := [Sparse(path, [SparseChunk(3, 0)], []), Payload(path, [])];
            AllFit(parts) && Expanded(parts) == [0, 0, 0] && Image(parts) == []
  {
    var m := [SparseChunk(3, 0)];
    var parts := [Sparse(path, m, []), Payload(path, [])];
    assert parts[..1] == [parts[0]] && parts[..1][..0] == [];
    assert Used(m, 1) == 0 && Laid(m, [], 1) == [0, 0, 0] && MapHole(0, m, 1) == 3;
    assert Expanded(parts[..1]) == [0, 0, 0] && Hole(parts[..1]) == 3;
  }

  /** Data that is not empty, or a map whose last entry does something. */
  predicate DoesSomething(c: Chunk) {
    match c
    case Eof(_) => false
    case Payload(_, data) => data != []
    case Sparse(_, m, _) => m != [] && m[|m| - 1].skip + m[|m| - 1].len > 0
  }

  lemma DoingSomethingEndsWell(hole: nat, c: Chunk)
    requires DoesSomething(c)
    ensures ChunkHole(hole, c) == 0 || LastSkip(c) > 0
  {
  }

  /** It is enough that the last chunk does something. */
  lemma LastChunkDecides(parts: seq<Chunk>)
    requires AllFit(parts) && (parts == [] || DoesSomething(parts[|parts| - 1]))
    ensures Image(parts) == Expanded(parts)
  {
    if parts != [] {
      DoingSomethingEndsWell(Hole(parts[..|parts| - 1]), parts[|parts| - 1]);
    }
    ReassembledIff(parts);
  }

  // ----- many files -----

  datatype PathState = Absent | Open(parts: seq<Chunk>) | Closed(parts: seq<Chunk>)

  /** A file is created when a chunk of it comes and it is not open, and closed by end of file. */
  function NextState(st: PathState, c: Chunk): PathState {
    var parts := if st.Open? then st.parts else [];
    if c.Eof? then Closed(parts) else Open(parts + [c])
  }

  /** What has become of path p after the chunks cs; `resolve` joins and cleans paths. */
  function StateOf(resolve: Name -> Name, cs: seq<Chunk>, p: Name): PathState {
    if cs == [] then Absent
    else
      var init, c := cs[..|cs| - 1], cs[|cs| - 1];
      if resolve(c.path) == p then NextState(StateOf(resolve, init, p), c) else StateOf(resolve, init, p)
  }

  lemma StateAppends(resolve: Name -> Name, cs: seq<Chunk>, c: Chunk, p: Name)
    ensures StateOf(resolve, cs + [c], p)
         == if resolve(c.path) == p then NextState(StateOf(resolve, cs, p), c) else StateOf(resolve, cs, p)
  {
    assert (cs + [c])[..|cs|] == cs;
  }

  /** A path once everything is closed. */
  function Ended(st: PathState): PathState { if st.Open? then Closed(st.parts) else st }

  /** A file is what its state says. */
  ghost predicate FileIs(f: File, open: bool, st: PathState)
    reads f
  {
    match st
    case Absent => false
    case Open(parts) => open && f.Holding(parts)
    case Closed(parts) => !open && AllFit(parts) && f.content == Image(parts)
  }

  class Demultiplexer {
    const resolve: Name -> Name
    const fallocate: bool
    var path2File: map<Name, File>
    /** All files ever created, the last one of every path. */
    var disk: map<Name, File>

    constructor (resolve: Name -> Name, fallocate: bool)
      ensures this.resolve == resolve && this.fallocate == fallocate && path2File == disk == map[]
    {
      this.resolve, this.fallocate := resolve, fallocate;
      path2File, disk := map[], map[];
    }

    ghost predicate Separate()
      reads this
    {
      && (forall p :: p in path2File ==> p in disk && path2File[p] == disk[p])
      && (forall p, q :: p in disk && q in disk && p != q ==> disk[p] != disk[q])
    }

    /** Path p is as the chunks cs leave it. */
    ghost predicate PathIs(p: Name, st: PathState)
      reads this, disk.Values
    {
      if p in disk then FileIs(disk[p], p in path2File, st) else st == Absent
    }

    ghost predicate Valid(cs: seq<Chunk>)
      reads this, disk.Values
    {
      Separate() && forall p :: PathIs(p, StateOf(resolve, cs, p))
    }

    /** The open file of a path, created if need be. */
    method OpenFile(p: Name, ghost cs: seq<Chunk>) returns (file: File, ghost parts: seq<Chunk>)
      requires Valid(cs)
      modifies this`path2File, this`disk
      ensures Separate() && p in path2File && file == path2File[p] && file.Holding(parts)
      ensures parts == if StateOf(resolve, cs, p).Open? then StateOf(resolve, cs, p).parts else []
      ensures forall q :: q != p ==> PathIs(q, StateOf(resolve, cs, q))
      ensures fresh(disk.Values - old(disk.Values))
    {
      assert PathIs(p, StateOf(resolve, cs, p));
      if p !in path2File {
        file := new File(fallocate);
        path2File, disk, parts := path2File[p := file], disk[p := file], [];
        assert forall q :: q != p ==> PathIs(q, StateOf(resolve, cs, q));
      } else {
        file, parts := path2File[p], StateOf(resolve, cs, p).parts;
      }
    }

    /** Takes in one chunk of an open file. */
    method PutOrClose(p: Name, c: Chunk, ghost cs: seq<Chunk>, ghost parts: seq<Chunk>) returns (ok: bool)
      requires Separate() && p in path2File && path2File[p].Holding(parts)
      requires forall q :: q != p ==> PathIs(q, StateOf(resolve, cs, q))
      modifies this`path2File, path2File[p]
      ensures Separate() && (ok <==> ChunkFits(c))
      ensures ok ==> PathIs(p, if c.Eof? then Closed(parts) else Open(parts + [c]))
      ensures forall q :: q != p ==> PathIs(q, StateOf(resolve, cs, q))
    {
      if c.Eof? {
        path2File[p].Close(parts);
        path2File := path2File - {p};
        ok := true;
      } else {
        ok := path2File[p].Put(c, parts);
      }
      forall q | q != p ensures PathIs(q, StateOf(resolve, cs, q)) {
        assert old(PathIs(q, StateOf(resolve, cs, q)));
      }
    }

    /** Takes in one chunk; false when it makes the server panic. */
    method Apply(c: Chunk, ghost cs: seq<Chunk>) returns (ok: bool)
      requires Valid(cs)
      modifies this, disk.Values
      ensures ok <==> ChunkFits(c)
      ensures ok ==> Valid(cs + [c])
      ensures fresh(disk.Values - old(disk.Values))
    {
      var p := resolve(c.path);
      var file, parts := OpenFile(p, cs);
      ok := PutOrClose(p, c, cs, parts);
      if ok {
        forall q ensures PathIs(q, StateOf(resolve, cs + [c], q)) {
          StateAppends(resolve, cs, c, q);
        }
      }
    }

    /** Path p is as the chunks cs leave it, and closed if it is not open any more. */
    ghost predicate PathCloses(p: Name, cs: seq<Chunk>)
      reads this, disk.Values
    {
      PathIs(p, if p in path2File then StateOf(resolve, cs, p) else Ended(StateOf(resolve, cs, p)))
    }

    ghost predicate Closing(cs: seq<Chunk>)
      reads this, disk.Values
    {
      Separate() && forall p :: PathCloses(p, cs)
    }

    method CloseOne(p: Name, ghost cs: seq<Chunk>)
      requires Closing(cs) && p in path2File
      modifies this`path2File, path2File[p]
      ensures Closing(cs) && path2File == old(path2File) - {p}
    {
      assert PathCloses(p, cs);
      ghost var st := StateOf(resolve, cs, p);
      path2File[p].Close(st.parts);
      path2File := path2File - {p};
      assert PathIs(p, Closed(st.parts));
      forall q | q != p ensures PathCloses(q, cs) {
        assert old(PathCloses(q, cs));
      }
    }

    /** Closes what is still open when the stream ends, in whatever order the map is iterated in. */
    method CloseAll(ghost cs: seq<Chunk>)
      requires Valid(cs)
      modifies this`path2File, path2File.Values
      ensures Separate() && path2File == map[] && forall p :: PathIs(p, Ended(StateOf(resolve, cs, p)))
    {
      assert Closing(cs) by {
        forall p ensures PathCloses(p, cs) {
          assert PathIs(p, StateOf(resolve, cs, p));
        }
      }
      while path2File != map[]
        invariant Closing(cs) && path2File.Values <= old(path2File.Values)
        decreases |path2File|
      {
        var p :| p in path2File;
        CloseOne(p, cs);
      }
      forall p ensures PathIs(p, Ended(StateOf(resolve, cs, p))) {
        assert PathCloses(p, cs);
      }
    }

    /**
     A file of an unpacked archive, however its chunks were interleaved with others: end of file
     coming last or not at all, its content is the expansion of its chunks if and only if no
     hole is lost at its end.
     */
    lemma UnpackedFile(cs: seq<Chunk>, p: Name, data: seq<Chunk>)
      requires PathIs(p, Ended(StateOf(resolve, cs, p)))
      requires AllFit(data) && forall i :: 0 <= i < |data| ==> !data[i].Eof?
      requires (data != [] && ChunksFor(resolve, cs, p) == data) ||
               exists end: Chunk :: end.Eof? && ChunksFor(resolve, cs, p) == data + [end]
      ensures p in disk && (disk[p].content == Expanded(data) <==> Hole(data) == 0 || LastSeekOf(data) > 0)
      ensures data == [] || DoesSomething(data[|data| - 1]) ==> disk[p].content == Expanded(data)
    {
      if end: Chunk :| end.Eof? && ChunksFor(resolve, cs, p) == data + [end] {
        FileIsReassembled(resolve, cs, p, data, end);
      } else {
        OwnChunksDecide(resolve, cs, p);
        OpenUntilEof(resolve, data, p);
        ReassembledIff(data);
        if DoesSomething(data[|data| - 1]) {
          LastChunkDecides(data);
        }
      }
    }

    /** Unpacks an archive; false when a chunk makes the server panic. */
    method Unpack(reader: ChunkReader) returns (ok: bool)
      requires Valid([]) && reader.pos == 0
      modifies this, disk.Values, reader
      ensures ok <==> AllFit(ChunksAt(reader.content, 0))
      ensures ok ==> path2File == map[]
      ensures ok ==> forall p :: PathIs(p, Ended(StateOf(resolve, ChunksAt(reader.content, 0), p)))
    {
      ghost var cs: seq<Chunk>, all := [], ChunksAt(reader.content, 0);
      assert [] + all == all;
      while true
        invariant Valid(cs) && AllFit(cs) && cs + ChunksAt(reader.content, reader.pos) == all
        invariant fresh(disk.Values - old(disk.Values))
        decreases if reader.pos < |reader.content| then |reader.content| - reader.pos else 0
      {
        ghost var here := reader.pos;
        var chunk, rawLength := reader.Read();
        if chunk.Err? {
          break;
        }
        ChunksFirst(reader.content, here, chunk.value, reader.pos);
        assert all[|cs|] == chunk.value;
        assert (cs + [chunk.value]) + ChunksAt(reader.content, reader.pos) == all;
        ok := Apply(chunk.value, cs);
        if !ok {
          return;
        }
        cs := cs + [chunk.value];
      }
      assert cs == all;
      CloseAll(cs);
      ok := true;
    }
  }

  // ----- interleavings -----

  /** The chunks of path p, in order. */
  function ChunksFor(resolve: Name -> Name, cs: seq<Chunk>, p: Name): (r: seq<Chunk>)
    ensures forall i :: 0 <= i < |r| ==> resolve(r[i].path) == p
  {
    if cs == [] then []
    else
      var init, c := ChunksFor(resolve, cs[..|cs| - 1], p), cs[|cs| - 1];
      if resolve(c.path) == p then init + [c] else init
  }

  /** What becomes of a file depends on its own chunks only, however they are interleaved with others. */
  lemma {:induction false} OwnChunksDecide(resolve: Name -> Name, cs: seq<Chunk>, p: Name)
    ensures StateOf(resolve, cs, p) == StateOf(resolve, ChunksFor(resolve, cs, p), p)
  {
    if cs != [] {
      OwnChunksDecide(resolve, cs[..|cs| - 1], p);
      StateAppends(resolve, ChunksFor(resolve, cs[..|cs| - 1], p), cs[|cs| - 1], p);
    }
  }

  lemma {:induction false} OpenUntilEof(resolve: Name -> Name, data: seq<Chunk>, p: Name)
    requires forall i :: 0 <= i < |data| ==> resolve(data[i].path) == p && !data[i].Eof?
    ensures StateOf(resolve, data, p) == if data == [] then Absent else Open(data)
  {
    if data != [] {
      var init, c := data[..|data| - 1], data[|data| - 1];
      assert data == init + [c] && resolve(c.path) == p && !c.Eof?;
      OpenUntilEof(resolve, init, p);
      StateAppends(resolve, init, c, p);
    }
  }

  /**
   However the chunks of a file are interleaved with others: when end of file comes last, the
   closed file is the expansion of its chunks, if and only if no hole is lost at its end.
   */
  lemma FileIsReassembled(resolve: Name -> Name, cs: seq<Chunk>, p: Name, data: seq<Chunk>, end: Chunk)
    requires ChunksFor(resolve, cs, p) == data + [end] && end.Eof?
    requires AllFit(data) && forall i :: 0 <= i < |data| ==> !data[i].Eof?
    ensures StateOf(resolve, cs, p) == Closed(data)
    ensures Image(data) == Expanded(data) <==> (Hole(data) == 0 || LastSeekOf(data) > 0)
    ensures data == [] || DoesSomething(data[|data| - 1]) ==> Image(data) == Expanded(data)
  {
    var own := ChunksFor(resolve, cs, p);
    OwnChunksDecide(resolve, cs, p);
    forall i | 0 <= i < |data| ensures resolve(data[i].path) == p {
      assert own[i] == data[i];
    }
    assert own[|data|] == end;
    OpenUntilEof(resolve, data, p);
    StateAppends(resolve, data, end, p);
    ReassembledIff(data);
    if data == [] || DoesSomething(data[|data| - 1]) {
      LastChunkDecides(data);
    }
  }
}
