/**
 The binary dump of two-phase-commit events (pkg/binlogtool/tx/binary.go): a magic number, the
 names of the log files, then one record per event. Compression is left aside.
 */
module TxBinary {
  import opened Bytes
  import opened Wrappers
  import opened TxEvents
  import opened Handlers
  import opened BinlogProbe
  import opened BinlogScan

  const DumpMagic: seq<byte> := [0xa9, 0x6f, 0x8b, 0xca]

  function TypeCode(t: EventType): byte {
    match t
    case Begin => 1
    case Prepare => 2
    case Commit => 3
    case Rollback => 4
  }

  // ----- the format -----

  function NameEntry(file: Name): seq<byte> { LittleEndian(|file|, 1) + file }

  function NameTable(files: seq<Name>): seq<byte> {
    if files == [] then [] else NameEntry(files[0]) + NameTable(files[1..])
  }

  function DumpHeader(files: seq<Name>): seq<byte> {
    DumpMagic + (LittleEndian(|files|, 1) + NameTable(files))
  }

  /** The id a file is written with: its last index, 0 for a file that was not declared. */
  function FileId(files: seq<Name>, file: Name): (i: nat)
    ensures file in files ==> i < |files| && files[i] == file
  {
    if files == [] then 0
    else if files[|files| - 1] == file then |files| - 1
    else FileId(files[..|files| - 1], file)
  }

  function Timestamp(ev: Event): seq<byte> {
    if ev.typ.Commit? then LittleEndian(ev.ts, 8) else []
  }

  function RecordWith(fileId: nat, ev: Event): seq<byte> {
    [TypeCode(ev.typ)] + LittleEndian(fileId, 1) + LittleEndian(ev.endPos, 8) + LittleEndian(ev.xid, 8) + Timestamp(ev)
  }

  function Record(files: seq<Name>, ev: Event): seq<byte> {
    RecordWith(FileId(files, ev.file), ev)
  }

  function Records(files: seq<Name>, evs: seq<Event>): seq<byte> {
    if evs == [] then [] else Record(files, evs[0]) + Records(files, evs[1..])
  }

  /** A dump; nothing at all, not even the header, without events. */
  function Dump(files: seq<Name>, evs: seq<Event>): seq<byte> {
    if evs == [] then [] else DumpHeader(files) + Records(files, evs)
  }

  predicate Declarable(files: seq<Name>) {
    |files| <= 255 && forall i :: 0 <= i < |files| ==> |files[i]| <= 255
  }

  // ----- the writer -----

  /** A map read as Go reads it: 0 for a missing key. */
  function Lookup(m: map<Name, nat>, file: Name): nat {
    if file in m then m[file] else 0
  }

  ghost predicate Indexed(m: map<Name, nat>, files: seq<Name>) {
    forall f :: Lookup(m, f) == FileId(files, f)
  }

  lemma {:induction false} NameTableAppends(files: seq<Name>, file: Name)
    ensures NameTable(files + [file]) == NameTable(files) + NameEntry(file)
  {
    if files == [] {
      assert (files + [file])[1..] == [];
      assert NameEntry(file) + [] == [] + NameEntry(file);
    } else {
      assert (files + [file])[1..] == files[1..] + [file];
      NameTableAppends(files[1..], file);
    }
  }

  lemma {:induction false} RecordsAppend(files: seq<Name>, evs: seq<Event>, ev: Event)
    ensures Records(files, evs + [ev]) == Records(files, evs) + Record(files, ev)
  {
    if evs == [] {
      assert (evs + [ev])[1..] == [];
      assert Record(files, ev) + [] == [] + Record(files, ev);
    } else {
      assert (evs + [ev])[1..] == evs[1..] + [ev];
      RecordsAppend(files, evs[1..], ev);
    }
  }

  lemma DumpAppends(files: seq<Name>, evs: seq<Event>, ev: Event)
    ensures Dump(files, evs + [ev])
         == (if evs == [] then DumpHeader(files) else Dump(files, evs)) + Record(files, ev)
  {
    RecordsAppend(files, evs, ev);
    assert DumpHeader(files) + (Records(files, evs) + Record(files, ev))
        == (DumpHeader(files) + Records(files, evs)) + Record(files, ev);
    if evs == [] {
      assert DumpHeader(files) + [] == DumpHeader(files);
    }
  }

  class BinaryTransactionEventWriter {
    const files: seq<Name>
    var out: seq<byte>
    var filesMap: map<Name, nat>
    var headerWrote: bool

    /** The output is the dump of evs. */
    ghost predicate Valid(evs: seq<Event>)
      reads this
    {
      out == Dump(files, evs) && (headerWrote <==> evs != []) && (headerWrote ==> Indexed(filesMap, files))
    }

    constructor (files: seq<Name>)
      ensures this.files == files && Valid([])
    {
      this.files, out, filesMap, headerWrote := files, [], map[], false;
    }

    method WriteHeader()
      modifies this`out, this`filesMap
      ensures out == old(out) + DumpHeader(files)
      ensures Indexed(filesMap, files)
    {
      filesMap := map[];
      var header := DumpMagic + LittleEndian(|files|, 1);
      for i := 0 to |files|
        invariant header == DumpMagic + LittleEndian(|files|, 1) + NameTable(files[..i])
        invariant Indexed(filesMap, files[..i]) && out == old(out)
      {
        filesMap := filesMap[files[i] := i];
        header := header + (LittleEndian(|files[i]|, 1) + files[i]);
        assert files[..i + 1] == files[..i] + [files[i]] && files[..i + 1][..i] == files[..i];
        NameTableAppends(files[..i], files[i]);
      }
      assert files[..|files|] == files;
      assert DumpMagic + LittleEndian(|files|, 1) + NameTable(files)
          == DumpMagic + (LittleEndian(|files|, 1) + NameTable(files));
      out := out + header;
    }

    method WriteRecord(fileId: nat, ev: Event)
      modifies this`out
      ensures out == old(out) + RecordWith(fileId, ev)
    {
      var record := [TypeCode(ev.typ)];
      record := record + LittleEndian(fileId, 1);
      record := record + LittleEndian(ev.endPos, 8);
      record := record + LittleEndian(ev.xid, 8);
      if ev.typ.Commit? {
        record := record + LittleEndian(ev.ts, 8);
      }
      out := out + record;
    }

    /** The header goes before the first record. */
    method EnsureHeader(ghost evs: seq<Event>)
      requires Valid(evs)
      modifies this
      ensures headerWrote && Indexed(filesMap, files)
      ensures out == if evs == [] then DumpHeader(files) else Dump(files, evs)
    {
      if !headerWrote {
        WriteHeader();
        headerWrote := true;
      }
    }

    /** Writes one more event. */
    method Write(ev: Event, ghost evs: seq<Event>)
      requires Valid(evs)
      modifies this
      ensures Valid(evs + [ev])
    {
      EnsureHeader(evs);
      var fileId := Lookup(filesMap, ev.file);
      assert fileId == FileId(files, ev.file);
      WriteRecord(fileId, ev);
      DumpAppends(files, evs, ev);
    }
  }

  // ----- what the parser makes of any bytes -----

  datatype DumpErr = Truncated(e: Err) | BadMagic | UnknownFile | IndexPanic | HandlerErr(text: Name)

  /** A parsed record; the type is the byte read. */
  datatype Dumped = Dumped(typ: byte, file: Name, endPos: u64, xid: u64, ts: u64)

  /** What the parser keeps between records. */
  datatype Fields = Fields(typ: byte, fileId: byte, endPos: u64, xid: u64)

  function U8(content: seq<byte>, pos: nat): Result<byte, Err> {
    if pos < |content| then Ok(content[pos]) else Err(Eof)
  }

  function NumberAt(content: seq<byte>, pos: nat): u64
    requires pos + 8 <= |content|
  {
    Widths();
    FromLittleEndian(content[pos..pos + 8])
  }

  function U64(content: seq<byte>, pos: nat): Result<u64, Err> {
    if pos + 8 <= |content| then Ok(NumberAt(content, pos))
    else Err(if pos < |content| then UnexpectedEof else Eof)
  }

  /** The fields of a record as far as they could be read, and the error that ended them. */
  function ReadFields(content: seq<byte>, pos: nat, f: Fields): (Fields, Option<Err>) {
    var n := |content|;
    if pos >= n then (f, Some(Eof))
    else if pos + 1 == n then (f.(typ := content[pos]), Some(Eof))
    else
      var g := f.(typ := content[pos], fileId := content[pos + 1]);
      if pos + 10 > n then (g, Some(if pos + 2 == n then Eof else UnexpectedEof))
      else
        var g' := g.(endPos := NumberAt(content, pos + 2));
        if pos + 18 > n then (g', Some(if pos + 10 == n then Eof else UnexpectedEof))
        else (g'.(xid := NumberAt(content, pos + 10)), None)
  }

  /** One turn of the parser's loop. */
  datatype Turn = Yield(ev: Dumped, pos: nat, f: Fields) | Done(err: Option<DumpErr>)

  /**
   Judges the fields read at pos. Only a clean end of the stream ends the parse; after any other
   read error it goes on with the fields as they are, at the end of the stream.
   */
  function Judge(content: seq<byte>, files: seq<Name>, pos: nat, f: Fields, err: Option<Err>): Turn {
    if err == Some(Eof) then Done(None)
    else if f.fileId > |files| then Done(Some(UnknownFile))
    else if f.fileId == |files| then Done(Some(IndexPanic))
    else
      var next := if err.None? then pos + 18 else |content|;
      if f.typ != TypeCode(Commit) then Yield(Dumped(f.typ, files[f.fileId], f.endPos, f.xid, 0), next, f)
      else
        match U64(content, next)
        case Err(e) => Done(Some(Truncated(e)))
        case Ok(ts) => Yield(Dumped(f.typ, files[f.fileId], f.endPos, f.xid, ts), next + 8, f)
  }

  /** A file id one past the table is the index that panics; beyond that it is reported. */
  lemma FileIdDecides(content: seq<byte>, files: seq<Name>, pos: nat, f: Fields, err: Option<Err>)
    requires err != Some(Eof)
    ensures Judge(content, files, pos, f, err) == Done(Some(UnknownFile)) <==> f.fileId > |files|
    ensures Judge(content, files, pos, f, err) == Done(Some(IndexPanic)) <==> f.fileId == |files|
    ensures Judge(content, files, pos, f, err).Yield? ==>
              f.fileId < |files| && Judge(content, files, pos, f, err).ev.file == files[f.fileId]
  {
  }

  function TakeRecord(content: seq<byte>, files: seq<Name>, pos: nat, f: Fields): (t: Turn)
    ensures t.Yield? ==> pos < |content| && pos < t.pos
  {
    var (g, err) := ReadFields(content, pos, f);
    Judge(content, files, pos, g, err)
  }

  function ParseRecords(content: seq<byte>, files: seq<Name>, pos: nat, f: Fields): (seq<Dumped>, Option<DumpErr>)
    decreases Left(content, pos)
  {
    match TakeRecord(content, files, pos, f)
    case Done(err) => ([], err)
    case Yield(ev, next, f') =>
      var (evs, err) := ParseRecords(content, files, next, f');
      ([ev] + evs, err)
  }

  /** A name, and the position after it. */
  datatype NameRead = NameRead(name: Name, next: nat)

  /** A name with its length before it. */
  function NameAt(content: seq<byte>, pos: nat): Result<NameRead, Err> {
    match U8(content, pos)
    case Err(e) => Err(e)
    case Ok(len) =>
      match ReadFull(content, pos + 1, len)
      case Err(e) => Err(e)
      case Ok(name) => Ok(NameRead(name, pos + 1 + len))
  }

  /** n file names from pos on, and the position after them. */
  function ParseNames(content: seq<byte>, pos: nat, n: nat): Result<(seq<Name>, nat), Err>
    decreases n
  {
    if n == 0 then Ok(([], pos))
    else
      match NameAt(content, pos)
      case Err(e) => Err(e)
      case Ok(NameRead(name, p)) => Prepend([name], ParseNames(content, p, n - 1))
  }

  function Prepend(names: seq<Name>, r: Result<(seq<Name>, nat), Err>): Result<(seq<Name>, nat), Err> {
    match r
    case Err(e) => Err(e)
    case Ok((more, pos)) => Ok((names + more, pos))
  }

  const NoFields := Fields(0, 0, 0, 0)

  function ParseDump(content: seq<byte>): (seq<Dumped>, Option<DumpErr>) {
    match ReadFull(content, 0, 4)
    case Err(e) => ([], Some(Truncated(e)))
    case Ok(magic) =>
      if magic != DumpMagic then ([], Some(BadMagic))
      else
        match U8(content, 4)
        case Err(e) => ([], Some(Truncated(e)))
        case Ok(n) =>
          match ParseNames(content, 5, n)
          case Err(e) => ([], Some(Truncated(e)))
          case Ok((files, pos)) => ParseRecords(content, files, pos, NoFields)
  }

  // ----- the parser -----

  /** Reads the four fields one by one, stopping at the first error. */
  method ReadFieldsInTurn(content: seq<byte>, pos: nat, f: Fields) returns (g: Fields, err: Option<Err>)
    ensures (g, err) == ReadFields(content, pos, f)
  {
    g := f;
    var typ := U8(content, pos);
    if typ.Err? {
      return g, Some(typ.error);
    }
    g := g.(typ := typ.value);
    var fileId := U8(content, pos + 1);
    if fileId.Err? {
      return g, Some(fileId.error);
    }
    g := g.(fileId := fileId.value);
    var endPos := U64(content, pos + 2);
    if endPos.Err? {
      return g, Some(endPos.error);
    }
    g := g.(endPos := endPos.value);
    var xid := U64(content, pos + 10);
    if xid.Err? {
      return g, Some(xid.error);
    }
    return g.(xid := xid.value), None;
  }

  lemma PrependTwice(names: seq<Name>, name: Name, r: Result<(seq<Name>, nat), Err>)
    ensures Prepend(names, Prepend([name], r)) == Prepend(names + [name], r)
  {
    if r.Ok? {
      assert names + ([name] + r.value.0) == (names + [name]) + r.value.0;
    }
  }

  method ReadFileIds(content: seq<byte>, pos: nat, n: nat) returns (r: Result<(seq<Name>, nat), Err>)
    ensures r == ParseNames(content, pos, n)
  {
    var files: seq<Name>, p: nat := [], pos;
    ghost var goal := ParseNames(content, pos, n);
    assert goal.Ok? ==> [] + goal.value.0 == goal.value.0;
    for i := 0 to n
      invariant Prepend(files, ParseNames(content, p, n - i)) == goal
    {
      var name := NameAt(content, p);
      if name.Err? {
        return Err(name.error);
      }
      PrependTwice(files, name.value.name, ParseNames(content, name.value.next, n - i - 1));
      files, p := files + [name.value.name], name.value.next;
    }
    assert files + [] == files;
    r := Ok((files, p));
  }

  method ReadRecords(content: seq<byte>, files: seq<Name>, start: nat, h: seq<Dumped> -> Verdict<Name>)
    returns (seen: seq<Dumped>, err: Option<DumpErr>)
    ensures var (evs, end) := ParseRecords(content, files, start, NoFields);
            var d := Deliver([], evs, h);
            seen == d.0 && err == Concluded(d.1, end, e => HandlerErr(e))
  {
    ghost var all := ParseRecords(content, files, start, NoFields);
    ghost var goal := Deliver([], all.0, h);
    seen := [];
    var pos: nat, f := start, NoFields;
    while true
      invariant Deliver(seen, ParseRecords(content, files, pos, f).0, h) == goal
      invariant ParseRecords(content, files, pos, f).1 == all.1
      decreases Left(content, pos)
    {
      var g, stop := ReadFieldsInTurn(content, pos, f);
      var t := Judge(content, files, pos, g, stop);
      match t {
        case Done(e) =>
          return seen, e;
        case Yield(ev, next, f') =>
          ghost var rest := ParseRecords(content, files, next, f').0;
          assert ([ev] + rest)[1..] == rest;
          seen := seen + [ev];
          var v := h(seen);
          match v {
            case Go => pos, f := next, f';
            case StopParse => return seen, None;
            case Abort(e) => return seen, Some(HandlerErr(e));
          }
      }
    }
  }

  /** Parses a dump into a handler. */
  method Parse(content: seq<byte>, h: seq<Dumped> -> Verdict<Name>) returns (seen: seq<Dumped>, err: Option<DumpErr>)
    ensures var (evs, end) := ParseDump(content);
            var d := Deliver([], evs, h);
            seen == d.0 && err == Concluded(d.1, end, e => HandlerErr(e))
  {
    var magic := ReadFull(content, 0, 4);
    if magic.Err? {
      return [], Some(Truncated(magic.error));
    }
    if magic.value != DumpMagic {
      return [], Some(BadMagic);
    }
    var n := U8(content, 4);
    if n.Err? {
      return [], Some(Truncated(n.error));
    }
    var names := ReadFileIds(content, 5, n.value);
    if names.Err? {
      return [], Some(Truncated(names.error));
    }
    seen, err := ReadRecords(content, names.value.0, names.value.1, h);
  }

  // ----- round trip -----

  /** What survives of an event: all but the rows, and the timestamp only of commits. */
  function AsDumped(ev: Event): Dumped {
    Dumped(TypeCode(ev.typ), ev.file, ev.endPos, ev.xid, if ev.typ.Commit? then ev.ts else 0)
  }

  function AllDumped(evs: seq<Event>): seq<Dumped> {
    if evs == [] then [] else [AsDumped(evs[0])] + AllDumped(evs[1..])
  }

  lemma U8Held(c: seq<byte>, p: nat, n: byte)
    requires Holds(c, p, LittleEndian(n, 1))
    ensures U8(c, p) == Ok(n)
  {
    assert LittleEndian(n, 1)[0] == n;
    assert c[p] == c[p..p + 1][0];
  }

  lemma U64Held(c: seq<byte>, p: nat, n: u64)
    requires Holds(c, p, LittleEndian(n, 8))
    ensures U64(c, p) == Ok(n)
  {
    Widths();
    NumberRoundTrip(n, 8);
  }

  lemma FieldsReadBack(c: seq<byte>, p: nat, g: Fields, f: Fields)
    requires U8(c, p) == Ok(g.typ) && U8(c, p + 1) == Ok(g.fileId)
    requires U64(c, p + 2) == Ok(g.endPos) && U64(c, p + 10) == Ok(g.xid)
    ensures ReadFields(c, p, f) == (g, None)
  {
  }

  lemma RecordFieldsHeld(c: seq<byte>, p: nat, id: byte, ev: Event)
    requires Holds(c, p, RecordWith(id, ev))
    ensures U8(c, p) == Ok(TypeCode(ev.typ)) && U8(c, p + 1) == Ok(id)
    ensures U64(c, p + 2) == Ok(ev.endPos) && U64(c, p + 10) == Ok(ev.xid)
    ensures ev.typ.Commit? ==> U64(c, p + 18) == Ok(ev.ts)
  {
    var a, b, d, x := [TypeCode(ev.typ)], LittleEndian(id, 1), LittleEndian(ev.endPos, 8), LittleEndian(ev.xid, 8);
    HoldsParts(c, p, a + b + d + x, Timestamp(ev));
    HoldsParts(c, p, a + b + d, x);
    HoldsParts(c, p, a + b, d);
    HoldsParts(c, p, a, b);
    assert c[p] == c[p..p + 1][0];
    U8Held(c, p + 1, id);
    U64Held(c, p + 2, ev.endPos);
    U64Held(c, p + 10, ev.xid);
    if ev.typ.Commit? {
      U64Held(c, p + 18, ev.ts);
    }
  }

  function RecordLength(ev: Event): nat { if ev.typ.Commit? then 26 else 18 }

  lemma RecordIsLong(files: seq<Name>, ev: Event)
    ensures |Record(files, ev)| == RecordLength(ev)
  {
  }

  /** A record in place is read back. */
  lemma RecordReadBack(c: seq<byte>, files: seq<Name>, p: nat, ev: Event, f: Fields) returns (g: Fields)
    requires Declarable(files) && ev.file in files && Holds(c, p, Record(files, ev))
    ensures TakeRecord(c, files, p, f) == Yield(AsDumped(ev), p + RecordLength(ev), g)
  {
    var id := FileId(files, ev.file);
    RecordFieldsHeld(c, p, id, ev);
    g := Fields(TypeCode(ev.typ), id, ev.endPos, ev.xid);
    FieldsReadBack(c, p, g, f);
  }

  lemma {:induction false} RecordsReadBack(c: seq<byte>, p: nat, files: seq<Name>, evs: seq<Event>, f: Fields)
    requires Declarable(files) && forall i :: 0 <= i < |evs| ==> evs[i].file in files
    requires Holds(c, p, Records(files, evs)) && |c| == p + |Records(files, evs)|
    ensures ParseRecords(c, files, p, f) == (AllDumped(evs), None)
    decreases |evs|
  {
    if evs != [] {
      var ev, more := evs[0], evs[1..];
      HoldsParts(c, p, Record(files, ev), Records(files, more));
      RecordIsLong(files, ev);
      var g := RecordReadBack(c, files, p, ev, f);
      RecordsReadBack(c, p + RecordLength(ev), files, more, g);
    }
  }

  lemma NameReadBack(c: seq<byte>, p: nat, file: Name)
    requires |file| <= 255 && Holds(c, p, NameEntry(file))
    ensures NameAt(c, p) == Ok(NameRead(file, p + |NameEntry(file)|))
  {
    HoldsParts(c, p, LittleEndian(|file|, 1), file);
    U8Held(c, p, |file|);
  }

  lemma {:induction false} NamesReadBack(c: seq<byte>, p: nat, files: seq<Name>)
    requires (forall i :: 0 <= i < |files| ==> |files[i]| <= 255) && Holds(c, p, NameTable(files))
    ensures ParseNames(c, p, |files|) == Ok((files, p + |NameTable(files)|))
    decreases |files|
  {
    if files != [] {
      HoldsParts(c, p, NameEntry(files[0]), NameTable(files[1..]));
      NameReadBack(c, p, files[0]);
      NamesReadBack(c, p + |NameEntry(files[0])|, files[1..]);
      assert [files[0]] + files[1..] == files;
    }
  }

  lemma HeaderPartsHeld(c: seq<byte>, files: seq<Name>)
    requires |files| <= 255 && Holds(c, 0, DumpHeader(files))
    ensures ReadFull(c, 0, 4) == Ok(DumpMagic) && U8(c, 4) == Ok(|files|) && Holds(c, 5, NameTable(files))
    ensures |DumpHeader(files)| == 5 + |NameTable(files)|
  {
    HoldsParts(c, 0, DumpMagic, LittleEndian(|files|, 1) + NameTable(files));
    HoldsParts(c, 4, LittleEndian(|files|, 1), NameTable(files));
    U8Held(c, 4, |files|);
  }

  lemma ParsedInParts(c: seq<byte>, files: seq<Name>, pos: nat)
    requires |files| <= 255 && ReadFull(c, 0, 4) == Ok(DumpMagic) && U8(c, 4) == Ok(|files|)
    requires ParseNames(c, 5, |files|) == Ok((files, pos))
    ensures ParseDump(c) == ParseRecords(c, files, pos, NoFields)
  {
  }

  lemma HeaderReadBack(c: seq<byte>, files: seq<Name>)
    requires Declarable(files) && Holds(c, 0, DumpHeader(files))
    ensures ParseDump(c) == ParseRecords(c, files, |DumpHeader(files)|, NoFields)
  {
    HeaderPartsHeld(c, files);
    NamesReadBack(c, 5, files);
    ParsedInParts(c, files, |DumpHeader(files)|);
  }

  lemma ReadBack(c: seq<byte>, header: seq<byte>, records: seq<byte>, files: seq<Name>, evs: seq<Event>)
    requires Declarable(files) && forall i :: 0 <= i < |evs| ==> evs[i].file in files
    requires header == DumpHeader(files) && records == Records(files, evs) && c == header + records
    ensures ParseDump(c) == (AllDumped(evs), None)
  {
    assert Holds(c, 0, header + records);
    HoldsParts(c, 0, header, records);
    HeaderReadBack(c, files);
    RecordsReadBack(c, |header|, files, evs, NoFields);
  }

  /** The event type a byte stands for. */
  function DecodeType(code: byte): Option<EventType> {
    if code == 1 then Some(Begin)
    else if code == 2 then Some(Prepare)
    else if code == 3 then Some(Commit)
    else if code == 4 then Some(Rollback)
    else None
  }

  /** The record gives back the type, place and transaction of the event, and the timestamp of a commit. */
  predicate GivesBack(d: Dumped, ev: Event) {
    && DecodeType(d.typ) == Some(ev.typ) && d.file == ev.file && d.endPos == ev.endPos && d.xid == ev.xid
    && d.ts == if ev.typ == Commit then ev.ts else 0
  }

  lemma {:induction false} DumpedGivesBack(evs: seq<Event>)
    ensures |AllDumped(evs)| == |evs| && forall i :: 0 <= i < |evs| ==> GivesBack(AllDumped(evs)[i], evs[i])
  {
    if evs != [] {
      DumpedGivesBack(evs[1..]);
      forall i | 0 <= i < |evs| ensures GivesBack(AllDumped(evs)[i], evs[i]) {
        if i > 0 {
          assert AllDumped(evs)[i] == AllDumped(evs[1..])[i - 1] && evs[i] == evs[1..][i - 1];
        }
      }
    }
  }

  /**
   Parsing a dump of any events over declared files gives one record per event, in order and without
   an error, and each gives its event back.
   */
  lemma DumpRoundTrip(files: seq<Name>, evs: seq<Event>)
    requires Declarable(files) && evs != [] && forall i :: 0 <= i < |evs| ==> evs[i].file in files
    ensures var (records, err) := ParseDump(Dump(files, evs));
            && err == None && |records| == |evs|
            && forall i :: 0 <= i < |evs| ==> GivesBack(records[i], evs[i])
  {
    ReadBack(Dump(files, evs), DumpHeader(files), Records(files, evs), files, evs);
    DumpedGivesBack(evs);
  }

  // ----- a dump that stops amid a record -----

  /** A dump that stops before a field of a record ends there, without an error. */
  lemma StopsBeforeField(content: seq<byte>, files: seq<Name>, pos: nat, f: Fields)
    requires pos <= |content| && |content| - pos in {0, 1, 2, 10}
    ensures ParseRecords(content, files, pos, f) == ([], None)
  {
  }

  lemma EndsAfterwards(content: seq<byte>, files: seq<Name>, f: Fields)
    ensures ParseRecords(content, files, |content|, f) == ([], None)
  {
  }

  /**
   One that stops within a number of a record gives one record too many, with the numbers that could
   not be read taken from the record before; only if its type is a commit is there an error.
   */
  lemma StopsWithinNumber(content: seq<byte>, files: seq<Name>, pos: nat, f: Fields)
    requires pos + 2 < |content| < pos + 18 && |content| != pos + 10 && content[pos + 1] < |files|
    ensures ParseRecords(content, files, pos, f)
         == if content[pos] == 3 then ([], Some(Truncated(Eof)))
            else ([Dumped(content[pos], files[content[pos + 1]],
                          if |content| < pos + 10 then f.endPos else NumberAt(content, pos + 2), f.xid, 0)], None)
  {
    var (g, err) := ReadFields(content, pos, f);
    assert err == Some(UnexpectedEof);
    var t := TakeRecord(content, files, pos, f);
    if t.Yield? {
      assert t.pos == |content| && [t.ev] + [] == [t.ev];
      EndsAfterwards(content, files, t.f);
    }
  }
}
