/**
 The commands in sequence: seekcp (pkg/binlogtool/cmd/seekcp.go) writes the consistent point to a
 file, and recover (pkg/binlogtool/cmd/recover.go) reads it and decides what the restored node lists.
 */
module RecoveryRun {
  import opened Bytes
  import opened Wrappers
  import opened TxEvents
  import opened StageOne
  import opened BinlogProbe
  import opened SeekConsistentPoint
  import opened ConsistentPointFile
  import opened Atomicity
  import opened Recover
  import opened XaStatements
  import opened StreamLog
  import opened TruncatedStream
  import opened Restore

  datatype RunErr = BadFile(e: Err) | NotRecovered(r: RecoverErr)

  /** The file holds the consistent point, the borders in some order. */
  ghost predicate IsFileOf(cp: ConsistentPoint, file: seq<byte>) {
    exists order :: Visits(order, cp.borders) && file == Encoded(cp.txs, order, cp.borders)
  }

  /** The file holds the consistent point of the logs. */
  ghost predicate HoldsPoint(logs: Logs, h: u64, file: seq<byte>) {
    exists cp :: IsConsistentPoint(logs, h, cp) && IsFileOf(cp, file)
  }

  /** The seekcp command. */
  method SeekToFile(parsers: map<Name, Source>, h: u64) returns (r: Result<seq<byte>, Outcome>)
    ensures r.Ok? <==> Marked(LogsOf(parsers), h)
    ensures r.Ok? ==> HoldsPoint(LogsOf(parsers), h, r.value)
  {
    var cp := Perform(parsers, h);
    if cp.Err? {
      return Err(cp.error);
    }
    var file := Write(cp.value.txs, cp.value.borders);
    assert IsFileOf(cp.value, file);
    r := Ok(file);
  }

  /** The recover command on one node. */
  method RecoverFromFile(file: seq<byte>, list: seq<XaTrans>, accepts: Name -> bool)
    returns (sent: seq<Name>, err: Option<RunErr>)
    ensures RecoverableTxids(file).Err? ==> sent == [] && err == Some(BadFile(RecoverableTxids(file).error))
    ensures RecoverableTxids(file).Ok? ==> err.None? || err.value.NotRecovered?
    ensures err.None? ==> RecoverableTxids(file).Ok? && AllDecided(list, RecoverableTxids(file).value, sent)
    ensures forall i :: 0 <= i < |sent| - 1 ==> accepts(sent[i])
    ensures err.None? ==> forall i :: 0 <= i < |sent| ==> accepts(sent[i])
  {
    var txids := ReadRecoverableTxids(file);
    if txids.Err? {
      return [], Some(BadFile(txids.error));
    }
    var failure;
    sent, failure := Recover.Recover(list, txids.value, accepts);
    err := if failure.Some? then Some(NotRecovered(failure.value)) else None;
  }

  /** Whichever consistent point the file was written from, recover reads the transactions of cp. */
  lemma FileGivesTransactions(logs: Logs, h: u64, cp: ConsistentPoint, file: seq<byte>)
    requires HoldsPoint(logs, h, file) && IsConsistentPoint(logs, h, cp) && |cp.txs| < 0x1_0000_0000
    ensures RecoverableTxids(file) == Ok(TxidSet(cp))
  {
    var written :| IsConsistentPoint(logs, h, written) && IsFileOf(written, file);
    var order :| Visits(order, written.borders) && file == Encoded(written.txs, order, written.borders);
    AnswerIsUnique(logs, h, cp, written);
    assert |multiset(written.txs)| == |multiset(cp.txs)|;
    TransactionsReadBack(written.txs, order, written.borders);
    AllCountedIff(written.txs);
    assert SetOf(written.txs) == TxidSet(cp) by {
      assert forall x :: x in written.txs <==> x in Recoverable(logs, h) + {h};
    }
  }

  /** Branch b of x is committed on node n: before its log, by the restored log, or by a statement. */
  ghost predicate CommittedInTheEnd<B>(
    F: Family, cp: ConsistentPoint, files: Files, r: Reading<B>, crc: bool, n: Name, sent: seq<Name>,
    x: u64, b: Branch)
    requires Fits(F, cp) && files.Keys == F.logs.Keys
  {
    Settled(F, n, x, b) || Restored(F, cp, files, r, crc, n, Commit, x, b) || CommitReceived(sent, x, b)
  }

  /** The files are logs of a run of two-phase commit without strays, and cp is its consistent point. */
  ghost predicate IsRun<B>(F: Family, h: u64, cp: ConsistentPoint, files: Files, r: Reading<B>) {
    && OnDisk(F, files, r) && Probes(r.options)
    && Timed(F) && SettledInTime(F) && OneFate(F) && PreparedOnce(F)
    && IsConsistentPoint(F.logs, h, cp) && StrayFree(F.logs, h)
  }

  lemma RunInParts<B>(F: Family, h: u64, cp: ConsistentPoint, files: Files, r: Reading<B>)
    requires IsRun(F, h, cp, files, r)
    ensures TwoPhase(F) && Fits(F, cp) && files.Keys == F.logs.Keys && IsConsistentPoint(F.logs, h, cp)
  {
    OnDiskIsTwoPhase(F, files, r);
  }

  /** Restored to its border, node n lists exactly its in-doubt branches. */
  ghost predicate ListsRestored(F: Family, cp: ConsistentPoint, n: Name, list: seq<XaTrans>) {
    n in F.logs && Fits(F, cp) && ListsInDoubt(F, cp, n, list)
  }

  /** In the end node n has x committed if x is in the consistent point, and otherwise what was settled before. */
  ghost predicate AsThePointSays<B>(
    F: Family, cp: ConsistentPoint, files: Files, r: Reading<B>, crc: bool, n: Name, sent: seq<Name>,
    x: u64, b: Branch)
    requires Fits(F, cp) && files.Keys == F.logs.Keys
  {
    var committed := CommittedInTheEnd(F, cp, files, r, crc, n, sent, x, b);
    && (x in cp.txs && Participant(F, n, x, b) ==> committed)
    && (x !in cp.txs ==> (committed <==> Settled(F, n, x, b)))
  }

  lemma DecidedAgrees<B>(
    F: Family, h: u64, cp: ConsistentPoint, files: Files, r: Reading<B>, crc: bool, n: Name, list: seq<XaTrans>,
    sent: seq<Name>, x: u64, b: Branch)
    requires IsRun(F, h, cp, files, r) && ListsRestored(F, cp, n, list)
    requires AllDecided(list, TxidSet(cp), sent) && AllReadable(sent)
    requires files.Keys == F.logs.Keys
    ensures AsThePointSays(F, cp, files, r, crc, n, sent, x, b)
  {
    RunInParts(F, h, cp, files, r);
    RecoveredNodesAgree(F, h, cp, n, list, sent, x, b);
    KeptIsRestored(F, h, cp, files, r, crc, n, Commit, x, b);
  }

  ghost predicate NodeAgrees<B>(
    F: Family, cp: ConsistentPoint, files: Files, r: Reading<B>, crc: bool, n: Name, sent: seq<Name>) {
    && Fits(F, cp) && files.Keys == F.logs.Keys
    && forall x, b :: AsThePointSays(F, cp, files, r, crc, n, sent, x, b)
  }

  lemma AllDecidedAgrees<B>(
    F: Family, h: u64, cp: ConsistentPoint, files: Files, r: Reading<B>, crc: bool, n: Name, list: seq<XaTrans>,
    sent: seq<Name>)
    requires IsRun(F, h, cp, files, r) && ListsRestored(F, cp, n, list)
    requires AllDecided(list, TxidSet(cp), sent) && AllReadable(sent)
    ensures NodeAgrees(F, cp, files, r, crc, n, sent)
  {
    RunInParts(F, h, cp, files, r);
    forall x, b ensures AsThePointSays(F, cp, files, r, crc, n, sent, x, b) {
      DecidedAgrees(F, h, cp, files, r, crc, n, list, sent, x, b);
    }
  }

  /**
   seekcp over the streams, then, once the node's files are restored to the border and it lists what
   is in doubt, recover on that node from the file: if recover ends without an error, the node agrees.
   The consistent point is the same for all nodes, so the cluster does.
   */
  method SeekThenRecover<B>(
    parsers: map<Name, Source>, h: u64, list: seq<XaTrans>, accepts: Name -> bool,
    ghost F: Family, ghost cp: ConsistentPoint, ghost files: Files, ghost r: Reading<B>, ghost crc: bool, ghost n: Name)
    returns (file: seq<byte>, sent: seq<Name>, err: Option<RunErr>)
    requires F.logs == LogsOf(parsers) && IsRun(F, h, cp, files, r)
    requires |cp.txs| < 0x1_0000_0000 && ListsRestored(F, cp, n, list) && AcceptsReadable(accepts)
    ensures HoldsPoint(F.logs, h, file)
    ensures err.None? ==> NodeAgrees(F, cp, files, r, crc, n, sent)
    ensures err.Some? ==> err.value.NotRecovered?
  {
    var written := SeekToFile(parsers, h);
    file := written.value;
    FileGivesTransactions(F.logs, h, cp, file);
    sent, err := RecoverFromFile(file, list, accepts);
    if err.None? {
      AllDecidedAgrees(F, h, cp, files, r, crc, n, list, sent);
    }
  }
}
