/**
 From files to a restored cluster: every stream's files are cut at the border of the consistent
 point and recovered with its transactions.
 */
module Restore {
  import opened Bytes
  import opened Wrappers
  import opened TxEvents
  import opened BinlogLog
  import opened TxParser
  import opened SeekConsistentPoint
  import opened Atomicity
  import opened StreamLog
  import opened TruncatedStream

  type Files = map<Name, seq<LogFile>>

  ghost predicate AllLogs(files: seq<LogFile>) {
    forall j :: 0 <= j < |files| ==> exists L, k :: IsLog(files[j], L, k)
  }

  /** The streams of the family are what is parsed from the files, logs in rank order read from boundaries. */
  ghost predicate OnDisk<B>(F: Family, files: Files, r: Reading<B>) {
    && files.Keys == F.logs.Keys
    && forall n :: n in files ==>
         F.logs[n] == StreamEvents(files[n], r) && InRankOrder(F.rank, NamesOf(files[n])) && AllLogs(files[n])
  }

  /** The files of a stream restored to p: those before p's, and p's truncated. */
  function RestoredTo(files: seq<LogFile>, crc: bool, p: EventOffset): seq<LogFile> {
    if files == [] then []
    else if files[0].name == p.file then [TruncatedFile(files[0], crc, p.offset)]
    else [files[0]] + RestoredTo(files[1..], crc, p)
  }

  lemma {:induction false} RestoredIsTruncated(rank: Name -> nat, files: seq<LogFile>, g: nat, crc: bool,
                                               p: EventOffset)
    requires g < |files| && files[g].name == p.file && InRankOrder(rank, NamesOf(files))
    ensures RestoredTo(files, crc, p) == TruncatedFiles(files, g, crc, p.offset)
    decreases g
  {
    if g == 0 {
      assert files[..0] == [];
    } else {
      assert NamesOf(files)[0] != NamesOf(files)[g];
      RestoredIsTruncated(rank, files[1..], g - 1, crc, p);
      assert files[..g] == [files[0]] + files[1..][..g - 1];
    }
  }

  /** The place of a parsed event is in one of the files, not before where it is read from. */
  lemma EventIsInLog<B>(files: seq<LogFile>, r: Reading<B>, i: nat) returns (g: nat, L: Log, k: nat)
    requires AllLogs(files) && Probes(r.options)
    requires i < |StreamEvents(files, r)| && !StreamEvents(files, r)[i].typ.Begin?
    ensures g < |files| && IsLog(files[g], L, k)
    ensures var p := At(StreamEvents(files, r)[i]); p.file == files[g].name && Offset(L, k) <= p.offset
  {
    var scans := Scans(files, r);
    var at := ParsedFromRest(Chained(scans).items, 0, Fresh, Chained(scans).err, i);
    var i';
    g, i' := ItemIsInScan(scans, at);
    L, k :| IsLog(files[g], L, k);
    LogStartsAt(files[g], L, k, r);
  }

  /** A restored stream is a prefix of the full one, and has an event exactly when the event is not past the border. */
  lemma RestoredStream<B>(F: Family, h: u64, cp: ConsistentPoint, files: Files, r: Reading<B>, crc: bool, n: Name)
    requires OnDisk(F, files, r) && Probes(r.options) && IsConsistentPoint(F.logs, h, cp) && n in F.logs
    ensures EventsUpTo(F.rank, StreamEvents(RestoredTo(files[n], crc, cp.borders[n]), r), F.logs[n], cp.borders[n])
  {
    var R := Recoverable(F.logs, h);
    CutIsPrepare(F.logs[n], h, R);
    var g, L, k := EventIsInLog(files[n], r, CutIndex(F.logs[n], h, R));
    RestoredIsTruncated(F.rank, files[n], g, crc, cp.borders[n]);
    TruncatedEvents(F.rank, files[n], g, L, k, crc, cp.borders[n], r);
  }

  /** Among the first k events of stream n is one of the type, transaction and branch. */
  ghost predicate Among(F: Family, n: Name, k: nat, t: EventType, x: u64, b: Branch)
    requires Aligned(F)
  {
    exists i :: Is(F, n, i, t, x) && F.branch[n][i] == b && i < k
  }

  /** The restored stream n has an event of the type, transaction and branch. */
  ghost predicate Restored<B>(
    F: Family, cp: ConsistentPoint, files: Files, r: Reading<B>, crc: bool, n: Name, t: EventType, x: u64, b: Branch)
    requires Fits(F, cp) && files.Keys == F.logs.Keys
  {
    n in F.logs && Among(F, n, |StreamEvents(RestoredTo(files[n], crc, cp.borders[n]), r)|, t, x, b)
  }

  lemma KeptIsAmong(F: Family, cp: ConsistentPoint, n: Name, pre: seq<Event>, t: EventType, x: u64, b: Branch)
    requires Fits(F, cp) && n in F.logs && EventsUpTo(F.rank, pre, F.logs[n], cp.borders[n]) && t != Begin
    ensures KeptOf(F, cp, n, t, x, b) <==> Among(F, n, |pre|, t, x, b)
  {
  }

  /** What the model of recovery takes as kept is what is parsed from the restored files. */
  lemma KeptIsRestored<B>(
    F: Family, h: u64, cp: ConsistentPoint, files: Files, r: Reading<B>, crc: bool, n: Name, t: EventType, x: u64,
    b: Branch)
    requires Aligned(F) && OnDisk(F, files, r) && Probes(r.options) && IsConsistentPoint(F.logs, h, cp) && t != Begin
    ensures KeptOf(F, cp, n, t, x, b) <==> Restored(F, cp, files, r, crc, n, t, x, b)
  {
    if n in F.logs {
      RestoredStream(F, h, cp, files, r, crc, n);
      KeptIsAmong(F, cp, n, StreamEvents(RestoredTo(files[n], crc, cp.borders[n]), r), t, x, b);
    }
  }

  /** Branch b of x is committed on node n: before its log, by the restored log, or, in doubt there, by recovery. */
  ghost predicate CommittedOnNode<B>(
    F: Family, cp: ConsistentPoint, files: Files, r: Reading<B>, crc: bool, n: Name, x: u64, b: Branch)
    requires Fits(F, cp) && files.Keys == F.logs.Keys
  {
    || Settled(F, n, x, b)
    || Restored(F, cp, files, r, crc, n, Commit, x, b)
    || (&& ((n in F.logs && (x, b) in F.base[n]) || Restored(F, cp, files, r, crc, n, Prepare, x, b))
        && !Restored(F, cp, files, r, crc, n, Rollback, x, b)
        && x in cp.txs)
  }

  lemma CommittedOnNodeIff<B>(
    F: Family, h: u64, cp: ConsistentPoint, files: Files, r: Reading<B>, crc: bool, n: Name, x: u64, b: Branch)
    requires Aligned(F) && OnDisk(F, files, r) && Probes(r.options) && IsConsistentPoint(F.logs, h, cp)
    ensures CommittedOnNode(F, cp, files, r, crc, n, x, b) <==> Committed(F, cp, n, x, b)
  {
    KeptIsRestored(F, h, cp, files, r, crc, n, Commit, x, b);
    KeptIsRestored(F, h, cp, files, r, crc, n, Prepare, x, b);
    KeptIsRestored(F, h, cp, files, r, crc, n, Rollback, x, b);
  }

  lemma OnDiskIsTwoPhase<B>(F: Family, files: Files, r: Reading<B>)
    requires OnDisk(F, files, r) && Timed(F) && SettledInTime(F) && OneFate(F) && PreparedOnce(F)
    ensures TwoPhase(F)
  {
    forall n | n in F.logs ensures LogOrdered(F.rank, F.logs[n]) {
      StreamIsLogOrdered(F.rank, files[n], r);
    }
  }

  /**
   End to end, from bytes: if the files of the nodes are CRC-32 logs and what is parsed from them is a run
   of two-phase commit without strays, then truncating every node's files at the border and
   recovering leaves each transaction committed on every branch if it is in the consistent
   point, and if it is not, on those only that were committed before the log of their node.
   */
  lemma RestoredClusterIsAtomic<B>(
    F: Family, h: u64, cp: ConsistentPoint, files: Files, r: Reading<B>, crc: bool, x: u64, n: Name, b: Branch)
    requires OnDisk(F, files, r) && Probes(r.options)
    requires Timed(F) && SettledInTime(F) && OneFate(F) && PreparedOnce(F)
    requires IsConsistentPoint(F.logs, h, cp) && StrayFree(F.logs, h)
    ensures x in cp.txs && Participant(F, n, x, b) ==> CommittedOnNode(F, cp, files, r, crc, n, x, b)
    ensures x !in cp.txs ==> (CommittedOnNode(F, cp, files, r, crc, n, x, b) <==> Settled(F, n, x, b))
  {
    OnDiskIsTwoPhase(F, files, r);
    RecoveryIsAtomic(F, h, cp, x);
    CommittedOnNodeIff(F, h, cp, files, r, crc, n, x, b);
  }
}
