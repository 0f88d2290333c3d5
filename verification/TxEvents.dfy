/** Two-phase-commit events extracted from a binary log (pkg/binlogtool/tx/event.go). */
module TxEvents {
  import opened Bytes
  import opened Wrappers

  datatype EventType = Begin | Prepare | Commit | Rollback

  /** A place in a stream of binary log files. */
  datatype EventOffset = EventOffset(file: Name, offset: u64)

  /** A decoded row of the heartbeat table. */
  datatype HeartbeatRow = HeartbeatRow(id: u64, sname: Name)

  /** A rows event on the heartbeat table; `row` is None when its first row cannot be decoded. */
  datatype HeartbeatRows = HeartbeatRows(isWrite: bool, row: Option<HeartbeatRow>)

  datatype Event = Event(
    typ: EventType, xid: u64, file: Name, endPos: u64, ts: u64, rows: seq<HeartbeatRows>)

  function At(ev: Event): EventOffset {
    EventOffset(ev.file, ev.endPos)
  }

  /** All transactions with any event in a sequence of events. */
  function XidsIn(s: seq<Event>): set<u64> {
    set i | 0 <= i < |s| :: s[i].xid
  }

  /** Order of places in a stream whose files are numbered by rank. */
  ghost predicate Before(rank: Name -> nat, a: EventOffset, b: EventOffset) {
    rank(a.file) < rank(b.file) || (rank(a.file) == rank(b.file) && a.offset < b.offset)
  }

  ghost predicate SamePlace(rank: Name -> nat, a: EventOffset, b: EventOffset) {
    rank(a.file) == rank(b.file) && a.offset == b.offset
  }

  /** A prepare and the commit of the same transaction that one XID_EVENT stands for. */
  ghost predicate OneXidEvent(rank: Name -> nat, p: Event, c: Event) {
    p.typ.Prepare? && c.typ.Commit? && p.xid == c.xid && SamePlace(rank, At(p), At(c))
  }

  /**
   Prepares, commits and rollbacks are at strictly increasing places, except that a prepare
   and a commit right after it may come from one XID_EVENT. Begins may point back.
   */
  ghost predicate LogOrdered(rank: Name -> nat, es: seq<Event>) {
    forall i, j :: 0 <= i < j < |es| && !es[i].typ.Begin? && !es[j].typ.Begin? ==>
      Before(rank, At(es[i]), At(es[j])) || (j == i + 1 && OneXidEvent(rank, es[i], es[j]))
  }
}
