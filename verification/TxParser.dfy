/**
 Turning log events into two-phase-commit events (pkg/binlogtool/tx/parser.go). Event bodies
 are decoded records here; tables and XA statements are judged as the source does.
 */
module TxParser {
  import opened Bytes
  import opened Wrappers
  import opened TxEvents
  import opened XidText
  import opened Handlers

  /** The parts of a decoded log event the parser looks at. */
  datatype LogItem =
    | Gcn(gcn: u64)
    | Sequence(isCommit: bool, num: u64)
    | TableMap(id: u64, schema: Name, table: Name)
    | WriteRows(id: u64, firstNumber: Option<u64>, rows: HeartbeatRows)
    | UpdateRows(id: u64, rows: HeartbeatRows)
    | DeleteRows(id: u64, rows: HeartbeatRows)
    | XidEvent
    | Query(text: Name)
    | XaPrepare(onePhase: bool, gtrid: Name)
    | Other

  datatype Logged = Logged(at: EventOffset, item: LogItem)

  datatype ParseErr = TableNotFound | RowTooShort | BadXid(text: TextErr) | ScanErr(e: Name) | HandlerErr(e: Name)

  predicate IsTransactionLogTable(table: Name) { table == Ascii("__drds_global_tx_log") }

  predicate HasSuffix(s: Name, suffix: Name) {
    |suffix| <= |s| && s[|s| - |suffix|..] == suffix
  }

  predicate IsHeartbeatTable(schema: Name, table: Name) {
    Ascii("__cdc__") <= schema && !HasSuffix(schema, Ascii("__single")) && Ascii("__cdc_heartbeat__") <= table
  }

  /** The variables of one call of processOne. */
  datatype Local = Local(
    begin: EventOffset, commitTs: u64, xid: u64, tables: map<u64, (Name, Name)>, rows: seq<HeartbeatRows>)

  const Fresh := Local(EventOffset([], 0), 0, 0, map[], [])

  datatype Effect = Continue(l: Local) | Emit(evs: seq<Event>) | Fail(e: ParseErr)

  function AddRows(l: Local, id: u64, rows: HeartbeatRows): Effect {
    if id !in l.tables then Fail(TableNotFound)
    else if IsHeartbeatTable(l.tables[id].0, l.tables[id].1) then Continue(l.(rows := l.rows + [rows]))
    else Continue(l)
  }

  /** What processOne does with one log event. */
  function OnItem(l: Local, it: Logged): Effect {
    match it.item
    case Gcn(gcn) => Continue(l.(commitTs := gcn))
    case Sequence(isCommit, num) => Continue(if isCommit then l.(commitTs := num) else l)
    case TableMap(id, schema, table) => Continue(l.(tables := l.tables[id := (schema, table)]))
    case WriteRows(id, firstNumber, rows) =>
      if id !in l.tables then Fail(TableNotFound)
      else if IsTransactionLogTable(l.tables[id].1) then
        if firstNumber.None? then Fail(RowTooShort) else AddRows(l.(xid := firstNumber.value), id, rows)
      else AddRows(l, id, rows)
    case UpdateRows(id, rows) => AddRows(l, id, rows)
    case DeleteRows(id, rows) => AddRows(l, id, rows)
    case XidEvent =>
      if l.xid == 0 then Continue(l)
      else Emit([Event(Begin, l.xid, l.begin.file, l.begin.offset, 0, []),
                 Event(Prepare, l.xid, it.at.file, it.at.offset, 0, l.rows),
                 Event(Commit, l.xid, it.at.file, it.at.offset, 0, [])])
    case Query(text) =>
      if text == Ascii("BEGIN") then Continue(l.(begin := it.at))
      else
        (match ParseXidAndType(text)
         case Ok((xid, t)) => Emit([Event(t, xid, it.at.file, it.at.offset, l.commitTs, [])])
         case Err(NotXa) => Continue(l)
         case Err(e) => Fail(BadXid(e)))
    case XaPrepare(onePhase, gtrid) =>
      if onePhase then Continue(l)
      else
        (match ParseXidFromGtrid(gtrid)
         case Ok(xid) => Emit([Event(Prepare, xid, it.at.file, it.at.offset, 0, l.rows)])
         case Err(e) => Fail(BadXid(e)))
    case Other => Continue(l)
  }

  /** All events parsed from log event k on, and the error that ends them, if one does. */
  function Parsed(items: seq<Logged>, k: nat, l: Local, end: Option<ParseErr>): (seq<Event>, Option<ParseErr>)
    requires k <= |items|
    decreases |items| - k
  {
    if k == |items| then ([], end)
    else
      match OnItem(l, items[k])
      case Continue(l') => Parsed(items, k + 1, l', end)
      case Fail(e) => ([], Some(e))
      case Emit(evs) =>
        var (more, err) := Parsed(items, k + 1, Fresh, end);
        (evs + more, err)
  }

  // ----- order of the parsed events -----

  /** Log events come at strictly increasing places. */
  ghost predicate Increasing(rank: Name -> nat, items: seq<Logged>) {
    forall i, j :: 0 <= i < j < |items| ==> Before(rank, items[i].at, items[j].at)
  }

  /** e, unless it is a begin, is past the first k log events. */
  ghost predicate Past(rank: Name -> nat, items: seq<Logged>, k: nat, e: Event) {
    !e.typ.Begin? ==> forall i :: 0 <= i < k && i < |items| ==> Before(rank, items[i].at, At(e))
  }

  /** What one log event emits is ordered and is at its place. */
  lemma EmittedAtItem(rank: Name -> nat, l: Local, it: Logged)
    requires OnItem(l, it).Emit?
    ensures LogOrdered(rank, OnItem(l, it).evs)
    ensures forall e :: e in OnItem(l, it).evs && !e.typ.Begin? ==> At(e) == it.at
  {
  }

  lemma OrderedConcat(rank: Name -> nat, a: seq<Event>, b: seq<Event>, p: EventOffset)
    requires LogOrdered(rank, a) && LogOrdered(rank, b)
    requires forall e :: e in a && !e.typ.Begin? ==> At(e) == p
    requires forall e :: e in b && !e.typ.Begin? ==> Before(rank, p, At(e))
    ensures LogOrdered(rank, a + b)
  {
    var s := a + b;
    forall i, j | 0 <= i < j < |s| && !s[i].typ.Begin? && !s[j].typ.Begin?
      ensures Before(rank, At(s[i]), At(s[j])) || (j == i + 1 && OneXidEvent(rank, s[i], s[j]))
    {
      if j < |a| {
        assert s[i] == a[i] && s[j] == a[j];
      } else if i >= |a| {
        assert s[i] == b[i - |a|] && s[j] == b[j - |a|];
      } else {
        assert s[i] == a[i] && s[i] in a && s[j] == b[j - |a|] && s[j] in b;
      }
    }
  }

  lemma {:induction false} ParsedPast(rank: Name -> nat, items: seq<Logged>, k: nat, l: Local, end: Option<ParseErr>)
    requires k <= |items| && Increasing(rank, items)
    ensures LogOrdered(rank, Parsed(items, k, l, end).0)
    ensures forall e :: e in Parsed(items, k, l, end).0 ==> Past(rank, items, k, e)
    decreases |items| - k
  {
    if k < |items| {
      match OnItem(l, items[k])
      case Fail(_) =>
      case Continue(l') =>
        ParsedPast(rank, items, k + 1, l', end);
      case Emit(evs) =>
        var more := Parsed(items, k + 1, Fresh, end).0;
        ParsedPast(rank, items, k + 1, Fresh, end);
        EmittedAtItem(rank, l, items[k]);
        forall e | e in more && !e.typ.Begin? ensures Before(rank, items[k].at, At(e)) {
          assert Past(rank, items, k + 1, e);
        }
        OrderedConcat(rank, evs, more, items[k].at);
        forall e | e in evs + more ensures Past(rank, items, k, e) {
          if e in more { assert Past(rank, items, k + 1, e); }
        }
    }
  }

  /**
   Prepares, commits and rollbacks parsed from a log come at strictly increasing places, except
   for the prepare and commit of one XID_EVENT.
   */
  lemma ParsedIsLogOrdered(rank: Name -> nat, items: seq<Logged>, end: Option<ParseErr>)
    requires Increasing(rank, items)
    ensures LogOrdered(rank, Parsed(items, 0, Fresh, end).0)
  {
    ParsedPast(rank, items, 0, Fresh, end);
  }

  // ----- the parser -----

  datatype Ended = Next | Halt(verdict: Verdict<Name>) | Finished(err: Option<ParseErr>)

  class TransactionEventParser {
    const items: seq<Logged>
    const end: Option<ParseErr>
    const handler: seq<Event> -> Verdict<Name>
    var pos: nat
    var seen: seq<Event>

    constructor (items: seq<Logged>, end: Option<ParseErr>, handler: seq<Event> -> Verdict<Name>)
      ensures this.items == items && this.end == end && this.handler == handler
      ensures pos == 0 && seen == []
    {
      this.items, this.end, this.handler := items, end, handler;
      pos, seen := 0, [];
    }

    /** What is still to come, were the handler to accept it all. */
    ghost function Ahead(l: Local): (seq<Event>, Option<ParseErr>)
      reads this
      requires pos <= |items|
    {
      Parsed(items, pos, l, end)
    }

    method HandleAll(evs: seq<Event>) returns (v: Verdict<Name>)
      modifies this`seen
      ensures (seen, v) == Deliver(old(seen), evs, handler)
    {
      var rest := evs;
      while rest != []
        invariant Deliver(seen, rest, handler) == Deliver(old(seen), evs, handler)
        decreases |rest|
      {
        seen := seen + [rest[0]];
        v := handler(seen);
        if v != Go {
          return;
        }
        rest := rest[1..];
      }
      v := Go;
    }

    /** Reads log events until some are emitted, the log ends or it cannot go on. */
    method ProcessOne() returns (r: Ended)
      requires pos <= |items|
      modifies this
      ensures old(pos) <= pos <= |items|
      ensures r.Next? ==> old(pos) < pos
      ensures r.Next? ==>
                Deliver(seen, Ahead(Fresh).0, handler) == Deliver(old(seen), old(Ahead(Fresh)).0, handler)
                && Ahead(Fresh).1 == old(Ahead(Fresh)).1
      ensures r.Halt? ==> r.verdict != Go && (seen, r.verdict) == Deliver(old(seen), old(Ahead(Fresh)).0, handler)
      ensures r.Finished? ==>
              (seen, Go) == Deliver(old(seen), old(Ahead(Fresh)).0, handler) && r.err == old(Ahead(Fresh)).1
    {
      var l := Fresh;
      ghost var goal := Ahead(Fresh);
      while true
        invariant old(pos) <= pos <= |items| && seen == old(seen)
        invariant Ahead(l) == goal
        decreases |items| - pos
      {
        if pos == |items| {
          return Finished(end);
        }
        var effect := OnItem(l, items[pos]);
        pos := pos + 1;
        match effect {
          case Continue(l') => l := l';
          case Fail(e) => return Finished(Some(e));
          case Emit(evs) =>
            DeliverConcat(seen, evs, Parsed(items, pos, Fresh, end).0, handler);
            var v := HandleAll(evs);
            return if v == Go then Next else Halt(v);
        }
      }
    }

    /** Parses the whole log into the handler. */
    method Parse() returns (err: Option<ParseErr>)
      requires pos == 0 && seen == []
      modifies this
      ensures var all := Parsed(items, 0, Fresh, end);
              var d := Deliver([], all.0, handler);
              && seen == d.0
              && err == Concluded(d.1, all.1, e => HandlerErr(e))
    {
      ghost var all := Ahead(Fresh);
      while true
        invariant pos <= |items|
        invariant Deliver(seen, Ahead(Fresh).0, handler) == Deliver([], all.0, handler) && Ahead(Fresh).1 == all.1
        decreases |items| - pos
      {
        var r := ProcessOne();
        match r {
          case Next =>
          case Halt(v) => return if v.Abort? then Some(HandlerErr(v.e)) else None;
          case Finished(e) => return e;
        }
      }
    }
  }
}
