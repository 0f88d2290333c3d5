/**
 The buffered seekable reader (pkg/binlogtool/utils/bufio.go) refines a plain reader, a content
 and a position: whatever the sizes of the underlying reads, the next byte read is the content
 at the tracked offset.
 */
module SeekableReader {
  import opened Bytes
  import opened Wrappers
  import opened BinlogProbe
  import BinlogScan

  datatype Whence = SeekStart | SeekCurrent | SeekEnd

  /** Where a plain reader of n bytes at pos goes; None when that is before the start. */
  function PlainSeek(n: nat, pos: nat, offset: int, whence: Whence): Option<nat> {
    var target := match whence
      case SeekStart => offset
      case SeekCurrent => pos + offset
      case SeekEnd => n + offset;
    if target < 0 then None else Some(target)
  }

  /** A file. */
  class File {
    const content: seq<byte>
    var pos: nat

    constructor (content: seq<byte>)
      ensures this.content == content && pos == 0
    {
      this.content, pos := content, 0;
    }

    /** Reads some of the next n bytes, none only at the end. */
    method Read(n: nat) returns (p: seq<byte>)
      requires n > 0
      modifies this`pos
      ensures |p| <= n && pos == old(pos) + |p|
      ensures |p| == 0 <==> old(pos) >= |content|
      ensures |p| > 0 ==> pos <= |content| && p == content[old(pos)..pos]
    {
      if pos >= |content| {
        return [];
      }
      var k: nat :| 1 <= k <= n && pos + k <= |content|;
      p := content[pos..pos + k];
      pos := pos + k;
    }

    method Seek(offset: int, whence: Whence) returns (r: Option<nat>)
      modifies this`pos
      ensures r == PlainSeek(|content|, old(pos), offset, whence)
      ensures pos == if r.Some? then r.value else old(pos)
    {
      r := PlainSeek(|content|, pos, offset, whence);
      if r.Some? {
        pos := r.value;
      }
    }
  }

  class SeekableBufferReader {
    const rd: File
    const size: nat
    var buffered: seq<byte>
    var offset: nat

    /** The buffer holds the bytes between the tracked offset and the file's own position. */
    ghost predicate Valid()
      reads this, rd
    {
      && size > 0
      && rd.pos == offset + |buffered|
      && (buffered != [] ==> rd.pos <= |rd.content| && buffered == rd.content[offset..rd.pos])
    }

    constructor (rd: File, size: nat)
      requires size > 0 && rd.pos == 0
      ensures Valid() && this.rd == rd && this.size == size && offset == 0
    {
      this.rd, this.size, buffered, offset := rd, size, [], 0;
    }

    /** bufio.Reader.Read: from the buffer, else into p itself when p is large, else by filling the buffer. */
    method BufferedRead(n: nat) returns (p: seq<byte>, eof: bool)
      requires Valid()
      modifies this`buffered, rd
      ensures |p| <= n && rd.pos == old(offset) + |p| + |buffered|
      ensures buffered != [] ==> rd.pos <= |rd.content| && buffered == rd.content[old(offset) + |p|..rd.pos]
      ensures eof <==> n > 0 && old(offset) >= |rd.content|
      ensures n > 0 && !eof ==> p != []
      ensures p != [] ==> old(offset) + |p| <= |rd.content| && p == rd.content[old(offset)..old(offset) + |p|]
    {
      if n == 0 {
        return [], false;
      }
      if buffered == [] {
        if n >= size {
          p := rd.Read(n);
          return p, p == [];
        }
        buffered := rd.Read(size);
        if buffered == [] {
          return [], true;
        }
      }
      var k := if n < |buffered| then n else |buffered|;
      p, eof := buffered[..k], false;
      buffered := buffered[k..];
    }

    /** Reads some of the next n bytes of the content at the offset. */
    method Read(n: nat) returns (p: seq<byte>, eof: bool)
      requires Valid()
      modifies this, rd
      ensures Valid() && |p| <= n && offset == old(offset) + |p|
      ensures eof <==> n > 0 && old(offset) >= |rd.content|
      ensures n > 0 && !eof ==> p != []
      ensures p != [] ==> offset <= |rd.content| && p == rd.content[old(offset)..offset]
    {
      p, eof := BufferedRead(n);
      offset := offset + |p|;
    }

    /** Seeks as a plain reader at the offset would; a failed seek changes nothing. */
    method Seek(off: int, whence: Whence) returns (r: Option<nat>)
      requires Valid()
      modifies this, rd
      ensures Valid()
      ensures r == PlainSeek(|rd.content|, old(offset), off, whence)
      ensures offset == if r.Some? then r.value else old(offset)
    {
      if whence == SeekStart && off == offset {
        return Some(offset);
      }
      var to, from := off, whence;
      if whence == SeekCurrent {
        if off == 0 {
          return Some(offset);
        }
        if off > 0 && |buffered| >= off {
          buffered := buffered[off..];
          offset := offset + off;
          return Some(offset);
        }
        to, from := offset + off, SeekStart;
      }
      r := rd.Seek(to, from);
      if r.Some? {
        buffered := [];
        offset := r.value;
      }
    }

    /** SkipBytes on this reader: a relative seek. */
    method SkipBytes(n: nat)
      requires Valid()
      modifies this, rd
      ensures Valid() && offset == old(offset) + n
    {
      if n > 0 {
        var r := Seek(n, SeekCurrent);
      }
    }

    /** io.ReadFull on this reader is the scanner's plain read. */
    method ReadFull(n: nat) returns (r: Result<seq<byte>, Err>)
      requires Valid()
      modifies this, rd
      ensures Valid()
      ensures r == BinlogScan.ReadFull(rd.content, old(offset), n)
      ensures r.Ok? ==> offset == old(offset) + n
    {
      var p: seq<byte> := [];
      while |p| < n
        invariant Valid() && |p| <= n && offset == old(offset) + |p|
        invariant p != [] ==> offset <= |rd.content| && p == rd.content[old(offset)..offset]
        decreases n - |p|
      {
        var q, eof := Read(n - |p|);
        if eof {
          return Err(if p == [] then Eof else UnexpectedEof);
        }
        p := p + q;
      }
      r := Ok(p);
    }
  }
}
