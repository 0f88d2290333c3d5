/**
 What the events parsed from a log mean (pkg/binlogtool/tx/parser.go): which log event each stands
 for, said by positions in the log. A log event that stands for two-phase-commit events ends a
 group; tables, timestamps, rows and the like are remembered within a group only.
 */
module TxMeaning {
  import opened Bytes
  import opened Wrappers
  import opened TxEvents
  import opened XidText
  import opened TxParser

  // ----- what was last said between log events g and k -----

  /** The schema and table last mapped to the id. */
  function TableAt(items: seq<Logged>, g: nat, k: nat, id: u64): Option<(Name, Name)>
    requires g <= k <= |items|
  {
    if g == k then None
    else
      match items[k - 1].item
      case TableMap(i, schema, table) => if i == id then Some((schema, table)) else TableAt(items, g, k - 1, id)
      case _ => TableAt(items, g, k - 1, id)
  }

  /** The last global commit number, or number of a commit sequence; 0 without one. */
  function TsAt(items: seq<Logged>, g: nat, k: nat): u64
    requires g <= k <= |items|
  {
    if g == k then 0
    else
      match items[k - 1].item
      case Gcn(n) => n
      case Sequence(isCommit, n) => if isCommit then n else TsAt(items, g, k - 1)
      case _ => TsAt(items, g, k - 1)
  }

  /** Where the last BEGIN is. */
  function BeginAt(items: seq<Logged>, g: nat, k: nat): EventOffset
    requires g <= k <= |items|
  {
    if g == k then EventOffset([], 0)
    else if items[k - 1].item == Query(Ascii("BEGIN")) then items[k - 1].at
    else BeginAt(items, g, k - 1)
  }

  /** The table last mapped to the id is one of those wanted. */
  predicate MappedTo(items: seq<Logged>, g: nat, k: nat, id: u64, wanted: (Name, Name) -> bool)
    requires g <= k <= |items|
  {
    TableAt(items, g, k, id).Some? && wanted(TableAt(items, g, k, id).value.0, TableAt(items, g, k, id).value.1)
  }

  predicate IsLog(schema: Name, table: Name) { table == Ascii("__drds_global_tx_log") }

  /** Schemas of change capture but not single ones, and tables of its heartbeat, by their names. */
  predicate IsHeartbeat(schema: Name, table: Name) {
    && StartsWith(schema, Ascii("__cdc__")) && StartsWith(table, Ascii("__cdc_heartbeat__"))
    && !EndsWith(schema, Ascii("__single"))
  }

  predicate StartsWith(s: Name, p: Name) { |p| <= |s| && forall i :: 0 <= i < |p| ==> s[i] == p[i] }

  predicate EndsWith(s: Name, p: Name) { |p| <= |s| && forall i :: 0 <= i < |p| ==> s[|s| - |p| + i] == p[i] }

  /** The transaction last written to the table of transaction logs; 0 without one. */
  function TxIdAt(items: seq<Logged>, g: nat, k: nat): u64
    requires g <= k <= |items|
  {
    if g == k then 0
    else
      match items[k - 1].item
      case WriteRows(id, firstNumber, _) =>
        if firstNumber.Some? && MappedTo(items, g, k - 1, id, IsLog) then firstNumber.value else TxIdAt(items, g, k - 1)
      case _ => TxIdAt(items, g, k - 1)
  }

  /** The table id and the rows of a rows event. */
  function RowsOf(item: LogItem): Option<(u64, HeartbeatRows)> {
    match item
    case WriteRows(id, _, rows) => Some((id, rows))
    case UpdateRows(id, rows) => Some((id, rows))
    case DeleteRows(id, rows) => Some((id, rows))
    case _ => None
  }

  /** The rows events on heartbeat tables, in order. */
  function RowsAt(items: seq<Logged>, g: nat, k: nat): seq<HeartbeatRows>
    requires g <= k <= |items|
  {
    if g == k then []
    else
      match RowsOf(items[k - 1].item)
      case None => RowsAt(items, g, k - 1)
      case Some((id, rows)) =>
        RowsAt(items, g, k - 1) + if MappedTo(items, g, k - 1, id, IsHeartbeat) then [rows] else []
  }

  // ----- groups -----

  /** Log event k stands for events: an XA statement, a prepare, or an XID_EVENT after a write to the log table. */
  ghost predicate Emits(items: seq<Logged>, k: nat)
    requires k < |items|
    decreases k, 1
  {
    match items[k].item
    case Query(text) => exists t, x: u64 :: Says(text, t, x)
    case XaPrepare(onePhase, gtrid) => !onePhase && exists x: u64 :: GtridSays(gtrid, x)
    case XidEvent => TxIdAt(items, GroupAt(items, k), k) != 0
    case _ => false
  }

  /** Where the group that log event k is in starts: after the last one before it that stands for events. */
  ghost function GroupAt(items: seq<Logged>, k: nat): (g: nat)
    requires k <= |items|
    ensures g <= k
    decreases k, 0
  {
    if k == 0 then 0 else if Emits(items, k - 1) then k else GroupAt(items, k - 1)
  }

  /** Why log event k cannot be parsed. */
  ghost predicate FailsWith(items: seq<Logged>, k: nat, e: ParseErr)
    requires k < |items|
  {
    var g := GroupAt(items, k);
    match items[k].item
    case WriteRows(id, firstNumber, _) =>
      if TableAt(items, g, k, id).None? then e == TableNotFound
      else firstNumber.None? && MappedTo(items, g, k, id, IsLog) && e == RowTooShort
    case UpdateRows(id, _) => TableAt(items, g, k, id).None? && e == TableNotFound
    case DeleteRows(id, _) => TableAt(items, g, k, id).None? && e == TableNotFound
    case Query(text) => HasKeyword(text) && (forall t, x: u64 :: !Says(text, t, x)) && e.BadXid?
    case XaPrepare(onePhase, gtrid) => !onePhase && (forall x: u64 :: !GtridSays(gtrid, x)) && e.BadXid?
    case _ => false
  }

  ghost predicate Fails(items: seq<Logged>, k: nat)
    requires k < |items|
  {
    exists e :: FailsWith(items, k, e)
  }

  /** Log event k stands for e, perhaps besides others. */
  ghost predicate StandsFor(items: seq<Logged>, k: nat, e: Event)
    requires k < |items|
  {
    var g := GroupAt(items, k);
    match items[k].item
    case Query(text) =>
      Says(text, e.typ, e.xid) && At(e) == items[k].at && e.ts == TsAt(items, g, k) && e.rows == []
    case XaPrepare(onePhase, gtrid) =>
      && !onePhase && e.typ == Prepare && GtridSays(gtrid, e.xid)
      && At(e) == items[k].at && e.ts == 0 && e.rows == RowsAt(items, g, k)
    case XidEvent =>
      && e.xid == TxIdAt(items, g, k) != 0 && e.ts == 0
      && match e.typ {
           case Begin => At(e) == BeginAt(items, g, k) && e.rows == []
           case Prepare => At(e) == items[k].at && e.rows == RowsAt(items, g, k)
           case Commit => At(e) == items[k].at && e.rows == []
           case Rollback => false
         }
    case _ => false
  }

  /** All that log event k stands for, in order: begin, prepare and commit for an XID_EVENT, else one event. */
  ghost predicate IsBlock(items: seq<Logged>, k: nat, b: seq<Event>)
    requires k < |items|
  {
    && (forall i :: 0 <= i < |b| ==> StandsFor(items, k, b[i]))
    && if !Emits(items, k) then b == []
       else if items[k].item.XidEvent? then |b| == 3 && b[0].typ == Begin && b[1].typ == Prepare && b[2].typ == Commit
       else |b| == 1
  }

  // ----- the parser's variables are what was last said -----

  ghost predicate Remembers(items: seq<Logged>, g: nat, k: nat, l: Local)
    requires g <= k <= |items|
  {
    && l.begin == BeginAt(items, g, k) && l.commitTs == TsAt(items, g, k) && l.xid == TxIdAt(items, g, k)
    && l.rows == RowsAt(items, g, k) && MapIs(items, g, k, l.tables)
  }

  ghost predicate MapIs(items: seq<Logged>, g: nat, k: nat, tables: map<u64, (Name, Name)>)
    requires g <= k <= |items|
  {
    forall id: u64 :: TableAt(items, g, k, id) == if id in tables then Some(tables[id]) else None
  }

  lemma {:induction false} TablesAgree(schema: Name, table: Name)
    ensures IsTransactionLogTable(table) <==> IsLog(schema, table)
    ensures IsHeartbeatTable(schema, table) <==> IsHeartbeat(schema, table)
  {
    StartsIff(schema, Ascii("__cdc__"));
    StartsIff(table, Ascii("__cdc_heartbeat__"));
    EndsIff(schema, Ascii("__single"));
  }

  lemma {:induction false} StartsIff(s: Name, p: Name)
    ensures p <= s <==> StartsWith(s, p)
  {
    if StartsWith(s, p) {
      assert s[..|p|] == p;
    }
  }

  lemma {:induction false} EndsIff(s: Name, p: Name)
    ensures HasSuffix(s, p) <==> EndsWith(s, p)
  {
    if HasSuffix(s, p) {
      forall i | 0 <= i < |p| ensures s[|s| - |p| + i] == p[i] {
        assert s[|s| - |p|..][i] == p[i];
      }
    }
  }

  /** What the parser does with log event k is what the log event means. */
  ghost predicate KeepsUp(items: seq<Logged>, k: nat, effect: Effect)
    requires k < |items|
  {
    match effect
    case Continue(l) => !Emits(items, k) && !Fails(items, k) && Remembers(items, GroupAt(items, k), k + 1, l)
    case Emit(evs) => Emits(items, k) && !Fails(items, k) && IsBlock(items, k, evs)
    case Fail(e) => !Emits(items, k) && FailsWith(items, k, e)
  }

  lemma {:induction false} BeginSaysNothing(text: Name)
    requires text == Ascii("BEGIN")
    ensures !HasKeyword(text)
  {
    assert text[0] == 66;
    Keywords();
  }

  lemma {:induction false} OnMap(items: seq<Logged>, k: nat, l: Local)
    requires k < |items| && Remembers(items, GroupAt(items, k), k, l) && items[k].item.TableMap?
    ensures KeepsUp(items, k, OnItem(l, items[k]))
  {
    var g := GroupAt(items, k);
    var l' := OnItem(l, items[k]).l;
    forall id: u64
      ensures TableAt(items, g, k + 1, id) == if id in l'.tables then Some(l'.tables[id]) else None
    {
      assert TableAt(items, g, k, id) == if id in l.tables then Some(l.tables[id]) else None;
    }
  }

  lemma {:induction false} OnNumber(items: seq<Logged>, k: nat, l: Local)
    requires k < |items| && Remembers(items, GroupAt(items, k), k, l)
    requires items[k].item.Gcn? || items[k].item.Sequence? || items[k].item.Other?
    ensures KeepsUp(items, k, OnItem(l, items[k]))
  {
    SameTables(items, GroupAt(items, k), k, l);
  }

  /** A log event that maps no table leaves the tables as they are. */
  lemma {:induction false} SameTables(items: seq<Logged>, g: nat, k: nat, l: Local)
    requires g <= k < |items| && MapIs(items, g, k, l.tables) && !items[k].item.TableMap?
    ensures MapIs(items, g, k + 1, l.tables)
  {
    forall id: u64 ensures TableAt(items, g, k + 1, id) == TableAt(items, g, k, id) {
    }
  }

  lemma {:induction false} MappedIff(items: seq<Logged>, g: nat, k: nat, l: Local, id: u64)
    requires g <= k <= |items| && MapIs(items, g, k, l.tables)
    ensures id in l.tables <==> TableAt(items, g, k, id).Some?
    ensures id in l.tables ==>
              && (IsTransactionLogTable(l.tables[id].1) <==> MappedTo(items, g, k, id, IsLog))
              && (IsHeartbeatTable(l.tables[id].0, l.tables[id].1) <==> MappedTo(items, g, k, id, IsHeartbeat))
  {
    assert TableAt(items, g, k, id) == if id in l.tables then Some(l.tables[id]) else None;
    if id in l.tables {
      TablesAgree(l.tables[id].0, l.tables[id].1);
    }
  }

  lemma {:induction false} OnRows(items: seq<Logged>, k: nat, l: Local)
    requires k < |items| && Remembers(items, GroupAt(items, k), k, l)
    requires items[k].item.UpdateRows? || items[k].item.DeleteRows?
    ensures KeepsUp(items, k, OnItem(l, items[k]))
  {
    MappedIff(items, GroupAt(items, k), k, l, items[k].item.id);
    SameTables(items, GroupAt(items, k), k, l);
    var effect := OnItem(l, items[k]);
    if effect.Fail? {
      assert FailsWith(items, k, effect.e);
    } else {
      assert RowsAt(items, GroupAt(items, k), k + 1) == effect.l.rows;
    }
  }

  lemma {:induction false} OnWrite(items: seq<Logged>, k: nat, l: Local)
    requires k < |items| && Remembers(items, GroupAt(items, k), k, l) && items[k].item.WriteRows?
    ensures KeepsUp(items, k, OnItem(l, items[k]))
  {
    MappedIff(items, GroupAt(items, k), k, l, items[k].item.id);
    SameTables(items, GroupAt(items, k), k, l);
    var effect := OnItem(l, items[k]);
    if effect.Fail? {
      assert FailsWith(items, k, effect.e);
    } else {
      assert RowsAt(items, GroupAt(items, k), k + 1) == effect.l.rows;
    }
  }

  lemma {:induction false} XidBlock(items: seq<Logged>, k: nat, l: Local)
    requires k < |items| && Remembers(items, GroupAt(items, k), k, l) && items[k].item.XidEvent? && l.xid != 0
    ensures OnItem(l, items[k]).Emit? && IsBlock(items, k, OnItem(l, items[k]).evs)
  {
  }

  lemma {:induction false} OnXid(items: seq<Logged>, k: nat, l: Local)
    requires k < |items| && Remembers(items, GroupAt(items, k), k, l) && items[k].item.XidEvent?
    ensures KeepsUp(items, k, OnItem(l, items[k]))
  {
    if l.xid == 0 {
      SameTables(items, GroupAt(items, k), k, l);
    } else {
      XidBlock(items, k, l);
    }
  }

  lemma {:induction false} OnPrepare(items: seq<Logged>, k: nat, l: Local)
    requires k < |items| && Remembers(items, GroupAt(items, k), k, l) && items[k].item.XaPrepare?
    ensures KeepsUp(items, k, OnItem(l, items[k]))
  {
    SameTables(items, GroupAt(items, k), k, l);
    var gtrid := items[k].item.gtrid;
    forall x: u64 ensures GtridSays(gtrid, x) <==> ParseXidFromGtrid(gtrid) == Ok(x) {
      GtridIff(gtrid, x);
    }
    var effect := OnItem(l, items[k]);
    if effect.Fail? {
      assert FailsWith(items, k, effect.e);
    }
  }

  lemma {:induction false} QueryIff(text: Name)
    ensures forall t, x: u64 :: Says(text, t, x) <==> ParseXidAndType(text) == Ok((x, t))
    ensures HasKeyword(text) <==> ParseXidAndType(text) != Err(NotXa)
  {
    forall t, x: u64 ensures Says(text, t, x) <==> ParseXidAndType(text) == Ok((x, t)) {
      StatementIff(text, t, x);
    }
    StatementIff(text, Commit, 0);
  }

  lemma {:induction false} OnBegin(items: seq<Logged>, k: nat, l: Local)
    requires k < |items| && Remembers(items, GroupAt(items, k), k, l) && items[k].item == Query(Ascii("BEGIN"))
    ensures KeepsUp(items, k, OnItem(l, items[k]))
  {
    SameTables(items, GroupAt(items, k), k, l);
    BeginSaysNothing(items[k].item.text);
    QueryIff(items[k].item.text);
  }

  lemma {:induction false} OnStatement(items: seq<Logged>, k: nat, l: Local, text: Name, t: EventType, x: u64)
    requires k < |items| && Remembers(items, GroupAt(items, k), k, l)
    requires items[k].item == Query(text) && ParseXidAndType(text) == Ok((x, t)) && text != Ascii("BEGIN")
    ensures KeepsUp(items, k, OnItem(l, items[k]))
  {
    StatementIff(text, t, x);
    var e := Event(t, x, items[k].at.file, items[k].at.offset, l.commitTs, []);
    assert StandsFor(items, k, e);
    assert OnItem(l, items[k]) == Emit([e]);
  }

  lemma {:induction false} OnNoStatement(items: seq<Logged>, k: nat, l: Local, text: Name)
    requires k < |items| && Remembers(items, GroupAt(items, k), k, l)
    requires items[k].item == Query(text) && ParseXidAndType(text) == Err(NotXa) && text != Ascii("BEGIN")
    ensures KeepsUp(items, k, OnItem(l, items[k]))
  {
    SameTables(items, GroupAt(items, k), k, l);
    QueryIff(text);
    assert OnItem(l, items[k]) == Continue(l);
  }

  lemma {:induction false} OnBadStatement(items: seq<Logged>, k: nat, l: Local, text: Name, e: TextErr)
    requires k < |items| && e != NotXa
    requires items[k].item == Query(text) && ParseXidAndType(text) == Err(e) && text != Ascii("BEGIN")
    ensures KeepsUp(items, k, OnItem(l, items[k]))
  {
    QueryIff(text);
    assert OnItem(l, items[k]) == Fail(BadXid(e));
  }

  lemma {:induction false} OnQuery(items: seq<Logged>, k: nat, l: Local)
    requires k < |items| && Remembers(items, GroupAt(items, k), k, l) && items[k].item.Query?
    ensures KeepsUp(items, k, OnItem(l, items[k]))
  {
    var text := items[k].item.text;
    if text == Ascii("BEGIN") {
      OnBegin(items, k, l);
    } else {
      match ParseXidAndType(text)
      case Ok((x, t)) => OnStatement(items, k, l, text, t, x);
      case Err(NotXa) => OnNoStatement(items, k, l, text);
      case Err(e) => OnBadStatement(items, k, l, text, e);
    }
  }

  lemma {:induction false} Step(items: seq<Logged>, k: nat, l: Local)
    requires k < |items| && Remembers(items, GroupAt(items, k), k, l)
    ensures KeepsUp(items, k, OnItem(l, items[k]))
  {
    match items[k].item
    case TableMap(_, _, _) => OnMap(items, k, l);
    case WriteRows(_, _, _) => OnWrite(items, k, l);
    case UpdateRows(_, _) => OnRows(items, k, l);
    case DeleteRows(_, _) => OnRows(items, k, l);
    case XidEvent => OnXid(items, k, l);
    case Query(_) => OnQuery(items, k, l);
    case XaPrepare(_, _) => OnPrepare(items, k, l);
    case _ => OnNumber(items, k, l);
  }

  // ----- the whole log -----

  function Flat(blocks: seq<seq<Event>>): seq<Event> {
    if blocks == [] then [] else blocks[0] + Flat(blocks[1..])
  }

  /** From log event k on, one block for each log event up to the end or the first that fails. */
  ghost predicate AreBlocks(items: seq<Logged>, k: nat, blocks: seq<seq<Event>>)
    decreases |blocks|
  {
    if blocks == [] then k <= |items|
    else
      && k < |items| && !Fails(items, k) && IsBlock(items, k, blocks[0])
      && AreBlocks(items, k + 1, blocks[1..])
  }

  lemma {:induction false} BlockAt(items: seq<Logged>, k: nat, blocks: seq<seq<Event>>, i: nat)
    requires AreBlocks(items, k, blocks) && i < |blocks|
    ensures k + i < |items| && !Fails(items, k + i) && IsBlock(items, k + i, blocks[i])
    decreases i
  {
    if i > 0 {
      BlockAt(items, k + 1, blocks[1..], i - 1);
    }
  }

  /** The parse stops before log event k: at the end of the log, or because log event k fails. */
  ghost predicate StopsAt(items: seq<Logged>, k: nat, end: Option<ParseErr>, err: Option<ParseErr>) {
    k <= |items| && if k == |items| then err == end else err.Some? && FailsWith(items, k, err.value)
  }

  lemma {:induction false} BlocksPrepend(items: seq<Logged>, k: nat, b: seq<Event>, blocks: seq<seq<Event>>)
    requires k < |items| && !Fails(items, k) && IsBlock(items, k, b) && AreBlocks(items, k + 1, blocks)
    ensures AreBlocks(items, k, [b] + blocks) && Flat([b] + blocks) == b + Flat(blocks)
  {
    assert ([b] + blocks)[1..] == blocks;
  }

  lemma {:induction false} FreshAt(items: seq<Logged>, g: nat, k: nat)
    requires g == k <= |items|
    ensures Remembers(items, g, k, Fresh)
  {
    assert MapIs(items, g, k, Fresh.tables);
  }

  lemma {:induction false} StartsAfresh(items: seq<Logged>, k: nat)
    requires k <= |items| && (k == 0 || Emits(items, k - 1))
    ensures Remembers(items, GroupAt(items, k), k, Fresh)
  {
    FreshAt(items, GroupAt(items, k), k);
  }

  lemma {:induction false} GoesOn(items: seq<Logged>, k: nat, l: Local)
    requires k < |items| && KeepsUp(items, k, Continue(l))
    ensures !Fails(items, k) && IsBlock(items, k, []) && Remembers(items, GroupAt(items, k + 1), k + 1, l)
  {
    assert GroupAt(items, k + 1) == GroupAt(items, k);
  }

  lemma {:induction false} GoesOnAfresh(items: seq<Logged>, k: nat, evs: seq<Event>)
    requires k < |items| && KeepsUp(items, k, Emit(evs))
    ensures !Fails(items, k) && IsBlock(items, k, evs) && Remembers(items, GroupAt(items, k + 1), k + 1, Fresh)
  {
    StartsAfresh(items, k + 1);
  }

  /** A log event that does not fail gives a block and leaves the parser with l'. */
  ghost predicate Gives(items: seq<Logged>, k: nat, l: Local, b: seq<Event>, l': Local)
    requires k < |items|
  {
    var effect := OnItem(l, items[k]);
    (effect == Continue(l') && b == []) || (effect == Emit(b) && l' == Fresh)
  }

  lemma {:induction false} FirstBlock(items: seq<Logged>, k: nat, l: Local) returns (b: seq<Event>, l': Local)
    requires k < |items| && Remembers(items, GroupAt(items, k), k, l) && !OnItem(l, items[k]).Fail?
    ensures Gives(items, k, l, b, l')
    ensures !Fails(items, k) && IsBlock(items, k, b) && Remembers(items, GroupAt(items, k + 1), k + 1, l')
  {
    Step(items, k, l);
    match OnItem(l, items[k])
    case Continue(l'') =>
      GoesOn(items, k, l'');
      b, l' := [], l'';
    case Emit(evs) =>
      GoesOnAfresh(items, k, evs);
      b, l' := evs, Fresh;
  }

  lemma {:induction false} ParsedStep(items: seq<Logged>, k: nat, l: Local, b: seq<Event>, l': Local,
                                      end: Option<ParseErr>)
    requires k < |items| && Gives(items, k, l, b, l')
    ensures Parsed(items, k, l, end).0 == b + Parsed(items, k + 1, l', end).0
    ensures Parsed(items, k, l, end).1 == Parsed(items, k + 1, l', end).1
  {
  }

  lemma {:induction false} ParseFails(items: seq<Logged>, k: nat, l: Local, end: Option<ParseErr>)
    requires k < |items| && Remembers(items, GroupAt(items, k), k, l) && OnItem(l, items[k]).Fail?
    ensures Parsed(items, k, l, end).0 == [] && StopsAt(items, k, end, Parsed(items, k, l, end).1)
  {
    Step(items, k, l);
  }

  lemma {:induction false} BlocksFrom(items: seq<Logged>, k: nat, l: Local, end: Option<ParseErr>)
    returns (blocks: seq<seq<Event>>, stop: nat, err: Option<ParseErr>)
    requires k <= |items| && Remembers(items, GroupAt(items, k), k, l)
    ensures AreBlocks(items, k, blocks) && stop == k + |blocks| && StopsAt(items, stop, end, err)
    ensures Parsed(items, k, l, end) == (Flat(blocks), err)
    decreases |items| - k
  {
    blocks, stop, err := [], k, Parsed(items, k, l, end).1;
    if k < |items| {
      if OnItem(l, items[k]).Fail? {
        ParseFails(items, k, l, end);
      } else {
        var b, l' := FirstBlock(items, k, l);
        var more;
        more, stop, err := BlocksFrom(items, k + 1, l', end);
        BlocksPrepend(items, k, b, more);
        ParsedStep(items, k, l, b, l', end);
        blocks := [b] + more;
      }
    }
  }

  /**
   What is parsed from any log: the events its log events stand for, in order, up to the end of the
   log or the first log event that fails, whose error ends the parse.
   */
  lemma {:induction false} ParsedMeans(items: seq<Logged>, end: Option<ParseErr>)
    returns (blocks: seq<seq<Event>>, stop: nat, err: Option<ParseErr>)
    ensures AreBlocks(items, 0, blocks) && stop == |blocks| && StopsAt(items, stop, end, err)
    ensures Parsed(items, 0, Fresh, end) == (Flat(blocks), err)
  {
    StartsAfresh(items, 0);
    blocks, stop, err := BlocksFrom(items, 0, Fresh, end);
  }

  /** A block has all that its log event stands for. */
  lemma {:induction false} BlockHasAll(items: seq<Logged>, k: nat, b: seq<Event>, e: Event)
    requires k < |items| && IsBlock(items, k, b)
    ensures e in b <==> StandsFor(items, k, e)
  {
    if StandsFor(items, k, e) {
      match items[k].item
      case Query(text) =>
        assert StandsFor(items, k, b[0]);
        StatementIff(text, e.typ, e.xid);
        StatementIff(text, b[0].typ, b[0].xid);
        assert e == b[0];
      case XaPrepare(_, gtrid) =>
        assert StandsFor(items, k, b[0]);
        GtridIff(gtrid, e.xid);
        GtridIff(gtrid, b[0].xid);
        assert e == b[0];
      case XidEvent =>
        var i := match e.typ case Begin => 0 case Prepare => 1 case _ => 2;
        assert StandsFor(items, k, b[i]);
        assert e == b[i];
      case _ =>
    }
  }

  lemma {:induction false} FlatHas(blocks: seq<seq<Event>>, e: Event)
    ensures e in Flat(blocks) <==> exists i :: 0 <= i < |blocks| && e in blocks[i]
  {
    if blocks != [] {
      FlatHas(blocks[1..], e);
      if i :| 0 < i < |blocks| && e in blocks[i] {
        assert e in blocks[1..][i - 1];
      }
      if i :| 0 <= i < |blocks[1..]| && e in blocks[1..][i] {
        assert e in blocks[i + 1];
      }
    }
  }

  /**
   An event is parsed if and only if some log event before the parse stops stands for it. So a
   commit, rollback or begin of x comes from a statement that says so or from an XID_EVENT after a
   write of x to the log table, and a prepare from a two-phase XA_PREPARE or such an XID_EVENT.
   */
  lemma {:induction false} ParsedIff(items: seq<Logged>, end: Option<ParseErr>, e: Event)
    returns (stop: nat, err: Option<ParseErr>)
    ensures err == Parsed(items, 0, Fresh, end).1 && StopsAt(items, stop, end, err)
    ensures forall k :: 0 <= k < stop ==> !Fails(items, k)
    ensures e in Parsed(items, 0, Fresh, end).0 <==> exists k :: 0 <= k < stop && StandsFor(items, k, e)
  {
    var blocks;
    blocks, stop, err := ParsedMeans(items, end);
    FlatHas(blocks, e);
    forall k | 0 <= k < stop ensures !Fails(items, k) && (e in blocks[k] <==> StandsFor(items, k, e)) {
      BlockAt(items, 0, blocks, k);
      BlockHasAll(items, k, blocks[k], e);
    }
  }

  // ----- on the log events a server writes -----

  /** A commit, rollback or start statement on x stands for that event of x, with the last number before it. */
  lemma {:induction false} StatementStandsFor(items: seq<Logged>, k: nat, t: EventType, x: u64, rest: Name, more: Name,
                                              e: Event)
    requires k < |items| && !t.Prepare? && items[k].item == Query(Statement(KeywordOf(t), x, rest, more))
    ensures StandsFor(items, k, e)
       <==> e == Event(t, x, items[k].at.file, items[k].at.offset, TsAt(items, GroupAt(items, k), k), [])
  {
    StatementRoundTrip(t, x, rest, more);
    StatementIff(Statement(KeywordOf(t), x, rest, more), e.typ, e.xid);
    StatementIff(Statement(KeywordOf(t), x, rest, more), t, x);
  }

  /** A two-phase XA_PREPARE of x stands for the prepare of x, with the heartbeat rows before it. */
  lemma {:induction false} PrepareStandsFor(items: seq<Logged>, k: nat, x: u64, rest: Name, e: Event)
    requires k < |items| && items[k].item == XaPrepare(false, GtridOf(x, rest))
    ensures StandsFor(items, k, e)
       <==> e == Event(Prepare, x, items[k].at.file, items[k].at.offset, 0, RowsAt(items, GroupAt(items, k), k))
  {
    GtridRoundTrip(x, rest);
    GtridIff(GtridOf(x, rest), e.xid);
    GtridIff(GtridOf(x, rest), x);
  }
}
