/**
 The recover command (pkg/binlogtool/cmd/recover.go): every branch XA RECOVER lists is committed
 if its transaction is in the consistent point, and rolled back otherwise.
 */
module Recover {
  import opened Bytes
  import opened Wrappers
  import opened TxEvents
  import opened XidText
  import opened XaStatements
  import opened SeekConsistentPoint
  import opened Atomicity

  datatype RecoverErr = BadGtrid(text: TextErr) | Refused(statement: Name)

  function Decide(t: XaTrans, x: u64, txids: set<u64>): XaCommand {
    if x in txids then XaCommitOf(t) else XaRollbackOf(t)
  }

  /** The text decides t as its transaction's membership in txids says. */
  ghost predicate RightlyDecided(t: XaTrans, txids: set<u64>, text: Name) {
    var xid := ParseXidFromGtrid(t.gtrid);
    xid.Ok? && text == TextOf(if xid.value in txids then XaCommitOf(t) else XaRollbackOf(t))
  }

  /**
   Decides the prepared branches in order; `accepts` is the server's answer to the text of a statement.
   It stops at the first branch whose id cannot be read or whose statement is refused.
   */
  method Recover(list: seq<XaTrans>, txids: set<u64>, accepts: Name -> bool)
    returns (sent: seq<Name>, err: Option<RecoverErr>)
    ensures |sent| <= |list| && forall i :: 0 <= i < |sent| ==> RightlyDecided(list[i], txids, sent[i])
    ensures forall i :: 0 <= i < |sent| - 1 ==> accepts(sent[i])
    ensures err.None? <==> |sent| == |list| && forall i :: 0 <= i < |sent| ==> accepts(sent[i])
  {
    sent := [];
    for k := 0 to |list|
      invariant |sent| == k
      invariant forall i :: 0 <= i < k ==> RightlyDecided(list[i], txids, sent[i]) && accepts(sent[i])
    {
      var xid := ParseXidFromGtrid(list[k].gtrid);
      if xid.Err? {
        return sent, Some(BadGtrid(xid.error));
      }
      var text := TextOf(Decide(list[k], xid.value, txids));
      sent := sent + [text];
      if !accepts(text) {
        return sent, Some(Refused(text));
      }
    }
    err := None;
  }

  // ----- with the consistent point -----

  /** The list names exactly the in-doubt branches of node n. */
  ghost predicate ListsInDoubt(F: Family, cp: ConsistentPoint, n: Name, list: seq<XaTrans>)
    requires Fits(F, cp)
  {
    && (forall i :: 0 <= i < |list| ==> ParseXidFromGtrid(list[i].gtrid).Ok?)
    && (forall x, b :: InDoubt(F, cp, n, x, b) <==> exists i :: 0 <= i < |list| && Names(list[i], x, b))
  }

  ghost predicate Names(t: XaTrans, x: u64, b: Branch) {
    ParseXidFromGtrid(t.gtrid) == Ok(x) && t.bqual == b
  }

  /** The transactions of a consistent point, as the recover command holds them. */
  function TxidSet(cp: ConsistentPoint): set<u64> {
    set y | y in cp.txs
  }

  /** A server that accepts only statements it can read. */
  ghost predicate AcceptsReadable(accepts: Name -> bool) {
    forall text :: accepts(text) ==> ReadStatement(text).Some?
  }

  /** Among the texts is one the server reads as a commit of branch b of x. */
  ghost predicate CommitReceived(texts: seq<Name>, x: u64, b: Branch) {
    exists i :: 0 <= i < |texts| && ReadsAsCommit(texts[i], x, b)
  }

  ghost predicate ReadsAsCommit(text: Name, x: u64, b: Branch) {
    var s := ReadStatement(text);
    s.Some? && s.value.XaCommitOf? && Names(s.value.t, x, b)
  }

  /** Every branch listed was decided. */
  ghost predicate AllDecided(list: seq<XaTrans>, txids: set<u64>, sent: seq<Name>) {
    |sent| == |list| && forall i :: 0 <= i < |list| ==> RightlyDecided(list[i], txids, sent[i])
  }

  ghost predicate AllReadable(texts: seq<Name>) {
    forall i :: 0 <= i < |texts| ==> ReadStatement(texts[i]).Some?
  }

  /** A text sent reads as a commit of branch b of x exactly when the branch is that one and is to be committed. */
  lemma DecidedReads(t: XaTrans, txids: set<u64>, text: Name, x: u64, b: Branch)
    requires RightlyDecided(t, txids, text) && ReadStatement(text).Some?
    ensures ReadsAsCommit(text, x, b) <==> Names(t, x, b) && x in txids
  {
    TextReadBack(Decide(t, ParseXidFromGtrid(t.gtrid).value, txids));
  }

  /**
   When recovery of node n goes through, a branch is committed there, in the log or by a statement
   the server received, exactly as intended.
   */
  lemma IssuedCompletesTheCut(F: Family, cp: ConsistentPoint, n: Name, list: seq<XaTrans>, sent: seq<Name>,
                            x: u64, b: Branch)
    requires Fits(F, cp) && ListsInDoubt(F, cp, n, list)
    requires AllDecided(list, TxidSet(cp), sent) && AllReadable(sent)
    ensures Committed(F, cp, n, x, b)
       <==> Settled(F, n, x, b) || KeptOf(F, cp, n, Commit, x, b) || CommitReceived(sent, x, b)
  {
    forall i | 0 <= i < |list| ensures ReadsAsCommit(sent[i], x, b) <==> Names(list[i], x, b) && x in TxidSet(cp) {
      DecidedReads(list[i], TxidSet(cp), sent[i], x, b);
    }
    if InDoubt(F, cp, n, x, b) && x in cp.txs {
      var i :| 0 <= i < |list| && Names(list[i], x, b);
      assert ReadsAsCommit(sent[i], x, b);
    }
    if CommitReceived(sent, x, b) {
      var i :| 0 <= i < |sent| && ReadsAsCommit(sent[i], x, b);
      assert Names(list[i], x, b);
    }
  }

  /**
   From logs to recovered nodes: if the commands go through on a node, each transaction of the
   consistent point has all its branches there committed, before the log, in the kept log or by a
   statement, and every other transaction has only those committed before. The condition is the
   same for all nodes, so they agree.
   */
  lemma RecoveredNodesAgree(F: Family, h: u64, cp: ConsistentPoint, n: Name, list: seq<XaTrans>, sent: seq<Name>,
                            x: u64, b: Branch)
    requires TwoPhase(F) && IsConsistentPoint(F.logs, h, cp) && StrayFree(F.logs, h)
    requires n in F.logs && ListsInDoubt(F, cp, n, list)
    requires AllDecided(list, TxidSet(cp), sent) && AllReadable(sent)
    ensures var committed := Settled(F, n, x, b) || KeptOf(F, cp, n, Commit, x, b) || CommitReceived(sent, x, b);
            && (x in cp.txs && Participant(F, n, x, b) ==> committed)
            && (x !in cp.txs ==> (committed <==> Settled(F, n, x, b)))
  {
    RecoveryIsAtomic(F, h, cp, x);
    IssuedCompletesTheCut(F, cp, n, list, sent, x, b);
  }
}
