/**
 The point of a consistent point: cut every stream at its border, commit the in-doubt branches
 of recoverable transactions, roll the others back, and every transaction is committed on all
 of its branches or on none.

 The logs are those of a two-phase-commit system: some global order of events agrees with each
 stream, every prepare of a transaction precedes every commit of it, and a transaction that
 commits anywhere rolls back nowhere. The logs need not start together: a branch may have been
 prepared, committed or rolled back before the log of its node starts.
 */
module Atomicity {
  import opened Bytes
  import opened TxEvents
  import opened StageOne
  import opened StageTwo
  import opened StreamMarks
  import opened SeekConsistentPoint

  /** The branch qualifier of an XA transaction; events carry it, the 2PC event record drops it. */
  type Branch = Name

  /** Full logs of all streams, past what the algorithm reads. */
  datatype Family = Family(
    logs: Logs,
    branch: map<Name, seq<Branch>>,          // the branch each event is about
    base: map<Name, set<(u64, Branch)>>,     // branches prepared and undecided when the log starts
    settled: map<Name, set<(u64, Branch)>>,  // branches committed before the log starts
    undone: map<Name, set<(u64, Branch)>>,   // branches rolled back before the log starts
    time: map<Name, seq<int>>,               // the global order
    rank: Name -> nat)                       // numbering of the binary log files

  ghost predicate Aligned(F: Family) {
    && F.branch.Keys == F.base.Keys == F.settled.Keys == F.undone.Keys == F.time.Keys == F.logs.Keys
    && forall n :: n in F.logs ==> |F.branch[n]| == |F.time[n]| == |F.logs[n]|
  }

  /** Event i of stream n is of type t and belongs to transaction x. */
  ghost predicate Is(F: Family, n: Name, i: int, t: EventType, x: u64) {
    n in F.logs && 0 <= i < |F.logs[n]| && F.logs[n][i].typ == t && F.logs[n][i].xid == x
  }

  /** Branch b of x was committed on n before the log of n starts. */
  ghost predicate Settled(F: Family, n: Name, x: u64, b: Branch)
    requires Aligned(F)
  {
    n in F.logs && (x, b) in F.settled[n]
  }

  /** It was rolled back there before. */
  ghost predicate Undone(F: Family, n: Name, x: u64, b: Branch)
    requires Aligned(F)
  {
    n in F.logs && (x, b) in F.undone[n]
  }

  /** The global order agrees with each stream, and has every prepare before every commit. */
  ghost predicate Timed(F: Family) {
    && Aligned(F)
    && (forall n, i, j :: n in F.logs && 0 <= i < j < |F.logs[n]| ==> F.time[n][i] < F.time[n][j])
    && (forall n, i, n', j, x :: Is(F, n, i, Prepare, x) && Is(F, n', j, Commit, x) ==> F.time[n][i] < F.time[n'][j])
  }

  /** A commit before a log starts precedes all of that log, and every prepare of the transaction precedes it. */
  ghost predicate SettledInTime(F: Family)
    requires Aligned(F)
  {
    forall n', j, x, n, b, i ::
      Is(F, n', j, Prepare, x) && Settled(F, n, x, b) && 0 <= i < |F.logs[n]| ==> F.time[n'][j] < F.time[n][i]
  }

  /** No transaction both commits and rolls back, in the logs or before them. */
  ghost predicate OneFate(F: Family)
    requires Aligned(F)
  {
    && (forall n, i, n', j, x :: Is(F, n, i, Commit, x) && Is(F, n', j, Rollback, x) ==> false)
    && (forall n, i, n', b, x :: Is(F, n, i, Commit, x) && Undone(F, n', x, b) ==> false)
    && (forall n, b, n', j, x :: Settled(F, n, x, b) && Is(F, n', j, Rollback, x) ==> false)
    && (forall n, b, n', b', x :: Settled(F, n, x, b) && Undone(F, n', x, b') ==> false)
  }

  /** A branch is prepared once, and not decided before it is. */
  ghost predicate PreparedOnce(F: Family)
    requires Aligned(F)
  {
    && (forall n, i, j, x ::
          Is(F, n, i, Prepare, x) && Is(F, n, j, Prepare, x) && F.branch[n][i] == F.branch[n][j] ==> i == j)
    && (forall n, i, x: u64 :: Is(F, n, i, Prepare, x) ==> (x, F.branch[n][i]) !in F.base[n])
    && (forall n, i, x: u64 ::
          Is(F, n, i, Prepare, x) ==> !Settled(F, n, x, F.branch[n][i]) && !Undone(F, n, x, F.branch[n][i]))
    && (forall n, x: u64, b :: n in F.logs && (x, b) in F.base[n] ==> !Settled(F, n, x, b) && !Undone(F, n, x, b))
  }

  ghost predicate TwoPhase(F: Family) {
    && Timed(F)
    && SettledInTime(F)
    && OneFate(F)
    && PreparedOnce(F)
    && (forall n :: n in F.logs ==> LogOrdered(F.rank, F.logs[n]))
  }

  // ----- the state after cutting and recovering with a consistent point -----

  ghost predicate Fits(F: Family, cp: ConsistentPoint) {
    Aligned(F) && cp.borders.Keys == F.logs.Keys
  }

  /** Place a is not past place b. */
  ghost predicate UpTo(rank: Name -> nat, a: EventOffset, b: EventOffset) {
    Before(rank, a, b) || SamePlace(rank, a, b)
  }

  /** An event of the type, transaction and branch survives the cut of stream n. */
  ghost predicate KeptOf(F: Family, cp: ConsistentPoint, n: Name, t: EventType, x: u64, b: Branch)
    requires Fits(F, cp)
  {
    exists i :: Is(F, n, i, t, x) && F.branch[n][i] == b && UpTo(F.rank, At(F.logs[n][i]), cp.borders[n])
  }

  ghost predicate PreparedAfterCut(F: Family, cp: ConsistentPoint, n: Name, x: u64, b: Branch)
    requires Fits(F, cp)
  {
    (n in F.logs && (x, b) in F.base[n]) || KeptOf(F, cp, n, Prepare, x, b)
  }

  /** What XA RECOVER lists on the restored node n. */
  ghost predicate InDoubt(F: Family, cp: ConsistentPoint, n: Name, x: u64, b: Branch)
    requires Fits(F, cp)
  {
    PreparedAfterCut(F, cp, n, x, b) && !KeptOf(F, cp, n, Commit, x, b) && !KeptOf(F, cp, n, Rollback, x, b)
  }

  /** Branch b of x on node n is committed once recovery is over, or was before. */
  ghost predicate Committed(F: Family, cp: ConsistentPoint, n: Name, x: u64, b: Branch)
    requires Fits(F, cp)
  {
    Settled(F, n, x, b) || KeptOf(F, cp, n, Commit, x, b) || (InDoubt(F, cp, n, x, b) && x in cp.txs)
  }

  /** Transaction x has branch b on node n, prepared in the full log or before it starts. */
  ghost predicate Participant(F: Family, n: Name, x: u64, b: Branch)
    requires Aligned(F)
  {
    || Settled(F, n, x, b)
    || Undone(F, n, x, b)
    || (n in F.logs && ((x, b) in F.base[n] || exists i :: Is(F, n, i, Prepare, x) && F.branch[n][i] == b))
  }

  ghost predicate AllCommitted(F: Family, cp: ConsistentPoint, x: u64)
    requires Fits(F, cp)
  {
    forall n, b :: Participant(F, n, x, b) ==> Committed(F, cp, n, x, b)
  }

  ghost predicate NoneCommitted(F: Family, cp: ConsistentPoint, x: u64)
    requires Fits(F, cp)
  {
    forall n, b :: !Committed(F, cp, n, x, b)
  }

  /** The branches of x that are committed in the end are those that were before the logs start. */
  ghost predicate OnlySettled(F: Family, cp: ConsistentPoint, x: u64)
    requires Fits(F, cp)
  {
    forall n, b :: Committed(F, cp, n, x, b) <==> Settled(F, n, x, b)
  }

  ghost predicate AllOrNone(F: Family, cp: ConsistentPoint, x: u64)
    requires Fits(F, cp)
  {
    AllCommitted(F, cp, x) || NoneCommitted(F, cp, x)
  }

  // ----- where the cut is -----

  /** Position of the event a stream is cut at. */
  ghost function CutIndex(es: seq<Event>, h: u64, R: set<u64>): (e: nat)
    requires HasMarks(es, h)
    ensures var m := MarksOf(es, h); m.prepare <= e < m.commit
  {
    var m, b := MarksOf(es, h), LastPrepare(WindowOf(es, h), R);
    if b < 0 then m.prepare else Place(es, h, m.prepare + 1, m.commit, b)
  }

  /** The cut is a prepare of a transaction that will be committed. */
  lemma CutIsPrepare(es: seq<Event>, h: u64, R: set<u64>)
    requires HasMarks(es, h)
    ensures var e := CutIndex(es, h, R); At(es[e]) == CutOf(es, h, R) && RecoverablePrepare(es[e], R + {h})
  {
  }

  /** It is the last such prepare before C_h. */
  lemma PreparesUpToCut(es: seq<Event>, h: u64, R: set<u64>, j: nat)
    requires HasMarks(es, h) && j < MarksOf(es, h).commit && RecoverablePrepare(es[j], R + {h})
    ensures j <= CutIndex(es, h, R)
  {
    var m, w := MarksOf(es, h), WindowOf(es, h);
    if j > m.prepare {
      var k := |Others(es, h, m.prepare + 1, j)|;
      OthersAt(es, h, m.prepare + 1, m.commit, j);
      assert w[k] == es[j] && RecoverablePrepare(w[k], R);
      var b := LastPrepare(w, R);
      if j > CutIndex(es, h, R) {
        OthersInOrder(es, h, m.prepare + 1, CutIndex(es, h, R), j);
      }
    }
  }

  /**
   A set that holds what a stream commits before its last P_h, and is closed on its window, is
   causally closed there.
   */
  lemma StreamClosure(es: seq<Event>, h: u64, S: set<u64>, i: nat, j: nat)
    requires HasMarks(es, h)
    requires CommittedBefore(es, h, MarksOf(es, h).prepare) <= S && ClosedOn(S, WindowOf(es, h))
    requires i < j < MarksOf(es, h).commit && es[i].typ.Commit? && RecoverablePrepare(es[j], S + {h})
    ensures es[i].xid in S
  {
    var m := MarksOf(es, h);
    assert !IsCommitOf(es[i], h);
    if i > m.prepare {
      OthersAt(es, h, m.prepare + 1, m.commit, i);
      OthersAt(es, h, m.prepare + 1, m.commit, j);
      OthersInOrder(es, h, m.prepare + 1, i, j);
    }
  }

  /** S holds what any stream commits before its last P_h, and is closed on every window. */
  ghost predicate CausallyClosed(logs: Logs, h: u64, S: set<u64>)
    requires Marked(logs, h)
  {
    forall n :: n in logs ==>
      CommittedBefore(logs[n], h, MarksOf(logs[n], h).prepare) <= S && ClosedOn(S, WindowOf(logs[n], h))
  }

  lemma RecoverableIsCausallyClosed(logs: Logs, h: u64)
    requires Marked(logs, h)
    ensures CausallyClosed(logs, h, Recoverable(logs, h))
  {
    ClosureIsClosed(Seed(logs, h), Windows(logs, h));
    forall n | n in logs
      ensures CommittedBefore(logs[n], h, MarksOf(logs[n], h).prepare) <= Seed(logs, h)
    {
      assert SeedOf(logs[n], h) <= Seed(logs, h);
    }
  }

  /** A survivor of the cut is at or before it, or the commit sharing an XID_EVENT with it. */
  lemma KeptIsUpToCut(rank: Name -> nat, es: seq<Event>, h: u64, R: set<u64>, i: nat)
    requires LogOrdered(rank, es) && HasMarks(es, h) && i < |es| && !es[i].typ.Begin?
    ensures var e, kept := CutIndex(es, h, R), UpTo(rank, At(es[i]), CutOf(es, h, R));
            && (i <= e ==> kept)
            && (kept && i > e ==> i == e + 1 && es[i].typ.Commit? && es[i].xid == es[e].xid)
  {
    var e := CutIndex(es, h, R);
    CutIsPrepare(es, h, R);
    if i < e {
      assert Before(rank, At(es[i]), At(es[e])) || OneXidEvent(rank, es[i], es[e]);
    } else if e < i {
      assert Before(rank, At(es[e]), At(es[i])) || (i == e + 1 && OneXidEvent(rank, es[e], es[i]));
    }
  }

  /** Every commit that survives the cut, ties included, is of a transaction in R or the heartbeat. */
  lemma KeptCommitsAreRecoverable(rank: Name -> nat, es: seq<Event>, h: u64, R: set<u64>, i: nat)
    requires LogOrdered(rank, es) && HasMarks(es, h)
    requires CommittedBefore(es, h, MarksOf(es, h).prepare) <= R && ClosedOn(R, WindowOf(es, h))
    requires i < |es| && es[i].typ.Commit? && UpTo(rank, At(es[i]), CutOf(es, h, R))
    ensures es[i].xid in R + {h}
  {
    var e := CutIndex(es, h, R);
    KeptIsUpToCut(rank, es, h, R, i);
    CutIsPrepare(es, h, R);
    if i < e {
      StreamClosure(es, h, R, i, e);
    }
  }

  // ----- nothing recoverable is prepared too late -----

  /** x was decided before some P_h: one of its commits precedes it in the global order. */
  ghost predicate DecidedEarly(F: Family, h: u64, x: u64)
    requires Aligned(F)
  {
    exists n, i, n', k :: Is(F, n, i, Commit, x) && Is(F, n', k, Prepare, h) && F.time[n][i] < F.time[n'][k]
  }

  lemma EarlyBy(F: Family, h: u64, x: u64, n: Name, i: nat, n': Name, k: nat)
    requires Aligned(F) && Is(F, n, i, Commit, x) && Is(F, n', k, Prepare, h) && F.time[n][i] < F.time[n'][k]
    ensures DecidedEarly(F, h, x)
  {
  }

  /** What is earlier in the global order is earlier in its stream, and the other way round. */
  lemma TimeIsOrder(F: Family, n: Name, i: nat, j: nat)
    requires Timed(F) && n in F.logs && i < |F.logs[n]| && j < |F.logs[n]|
    ensures i < j <==> F.time[n][i] < F.time[n][j]
  {
  }

  lemma PreparesFirst(F: Family, x: u64, n: Name, i: nat, n': Name, j: nat)
    requires Timed(F) && Is(F, n, i, Prepare, x) && Is(F, n', j, Commit, x)
    ensures F.time[n][i] < F.time[n'][j]
  {
  }

  /** The chain step: what commits before a prepare of an early-decided transaction is decided early. */
  lemma EarlyPropagates(F: Family, h: u64, n: Name, i: nat, j: nat, x: u64, u: u64)
    requires Timed(F) && i < j && Is(F, n, i, Commit, x) && Is(F, n, j, Prepare, u) && DecidedEarly(F, h, u)
    ensures DecidedEarly(F, h, x)
  {
    var n1, i1, n2, k :| Is(F, n1, i1, Commit, u) && Is(F, n2, k, Prepare, h) && F.time[n1][i1] < F.time[n2][k];
    TimeIsOrder(F, n, i, j);
    PreparesFirst(F, u, n, j, n1, i1);
    EarlyBy(F, h, x, n, i, n2, k);
  }

  /** Where two events of a window are in the stream. */
  lemma WindowPlaces(es: seq<Event>, h: u64, i: nat, j: nat) returns (pi: nat, pj: nat)
    requires HasMarks(es, h) && i < j < |WindowOf(es, h)|
    ensures pi < pj < |es| && es[pi] == WindowOf(es, h)[i] && es[pj] == WindowOf(es, h)[j]
  {
    var m := MarksOf(es, h);
    pi, pj := Place(es, h, m.prepare + 1, m.commit, i), Place(es, h, m.prepare + 1, m.commit, j);
    PlacesInOrder(es, h, m.prepare + 1, m.commit, i, j);
  }

  lemma EarlyInWindow(F: Family, h: u64, n: Name, i: nat, j: nat)
    requires Timed(F) && Marked(F.logs, h) && n in F.logs
    requires i < j < |WindowOf(F.logs[n], h)|
    requires WindowOf(F.logs[n], h)[i].typ.Commit? && WindowOf(F.logs[n], h)[j].typ.Prepare?
    requires DecidedEarly(F, h, WindowOf(F.logs[n], h)[j].xid)
    ensures DecidedEarly(F, h, WindowOf(F.logs[n], h)[i].xid)
  {
    var pi, pj := WindowPlaces(F.logs[n], h, i, j);
    EarlyPropagates(F, h, n, pi, pj, F.logs[n][pi].xid, F.logs[n][pj].xid);
  }

  lemma EarlyBeforeHeartbeat(F: Family, h: u64, n: Name, x: u64)
    requires Timed(F) && Marked(F.logs, h) && n in F.logs
    requires x in CommittedBefore(F.logs[n], h, MarksOf(F.logs[n], h).prepare)
    ensures DecidedEarly(F, h, x)
  {
    var es, p := F.logs[n], MarksOf(F.logs[n], h).prepare;
    var i :| 0 <= i < p && es[i].typ.Commit? && es[i].xid != h && es[i].xid == x;
    TimeIsOrder(F, n, i, p);
    EarlyBy(F, h, x, n, i, n, p);
  }

  /** The early-decided members of a causally closed set are causally closed. */
  lemma EarlyIsCausallyClosed(F: Family, h: u64, S: set<u64>)
    requires Timed(F) && Marked(F.logs, h) && CausallyClosed(F.logs, h, S)
    ensures CausallyClosed(F.logs, h, set x | x in S && DecidedEarly(F, h, x))
  {
    var E := set x | x in S && DecidedEarly(F, h, x);
    forall n | n in F.logs
      ensures CommittedBefore(F.logs[n], h, MarksOf(F.logs[n], h).prepare) <= E && ClosedOn(E, WindowOf(F.logs[n], h))
    {
      forall x | x in CommittedBefore(F.logs[n], h, MarksOf(F.logs[n], h).prepare) ensures DecidedEarly(F, h, x) {
        EarlyBeforeHeartbeat(F, h, n, x);
      }
      var w := WindowOf(F.logs[n], h);
      forall i, j | 0 <= i < j < |w| && w[i].typ.Commit? && RecoverablePrepare(w[j], E) ensures w[i].xid in E {
        EarlyInWindow(F, h, n, i, j);
        assert RecoverablePrepare(w[j], S);
      }
    }
  }

  lemma EarlyPrecedes(F: Family, h: u64, x: u64, n: Name, j: nat, c: nat)
    requires Timed(F) && (x == h || DecidedEarly(F, h, x)) && Is(F, n, j, Prepare, x) && Is(F, n, c, Commit, h)
    ensures j < c
  {
    if x == h {
      PreparesFirst(F, h, n, j, n, c);
    } else {
      var n1, i1, n2, k :| Is(F, n1, i1, Commit, x) && Is(F, n2, k, Prepare, h) && F.time[n1][i1] < F.time[n2][k];
      PreparesFirst(F, x, n, j, n1, i1);
      PreparesFirst(F, h, n2, k, n, c);
    }
    TimeIsOrder(F, n, j, c);
  }

  /** An early-decided transaction, and the heartbeat, prepare on every stream before C_h there. */
  lemma EarlyPreparesBeforeCommit(F: Family, h: u64, x: u64, n: Name, j: nat)
    requires Timed(F) && Marked(F.logs, h) && (x == h || DecidedEarly(F, h, x)) && Is(F, n, j, Prepare, x)
    ensures j < MarksOf(F.logs[n], h).commit
  {
    EarlyPrecedes(F, h, x, n, j, MarksOf(F.logs[n], h).commit);
  }

  // ----- the transactions the algorithm is meant to find -----

  /** Transactions that commit before the last P_h of some stream. */
  ghost function IntendedSeed(logs: Logs, h: u64): set<u64>
    requires Marked(logs, h)
  {
    set n, x | n in logs && x in CommittedBefore(logs[n], h, MarksOf(logs[n], h).prepare) :: x
  }

  /** Their causal closure. */
  ghost function Intended(logs: Logs, h: u64): set<u64>
    requires Marked(logs, h)
  {
    Closure(IntendedSeed(logs, h), Windows(logs, h))
  }

  lemma IntendedIsCausallyClosed(logs: Logs, h: u64)
    requires Marked(logs, h)
    ensures CausallyClosed(logs, h, Intended(logs, h))
  {
    ClosureIsClosed(IntendedSeed(logs, h), Windows(logs, h));
    forall n | n in logs
      ensures CommittedBefore(logs[n], h, MarksOf(logs[n], h).prepare) <= IntendedSeed(logs, h)
    {
    }
  }

  /** Whatever is causally closed holds the intended transactions. */
  lemma IntendedIsBelow(logs: Logs, h: u64, S: set<u64>)
    requires Marked(logs, h) && CausallyClosed(logs, h, S)
    ensures Intended(logs, h) <= S
  {
    ClosureStaysBelow(IntendedSeed(logs, h), S, Windows(logs, h));
  }

  lemma IntendedIsRecoverable(logs: Logs, h: u64)
    requires Marked(logs, h)
    ensures Intended(logs, h) <= Recoverable(logs, h)
  {
    RecoverableIsCausallyClosed(logs, h);
    IntendedIsBelow(logs, h, Recoverable(logs, h));
  }

  /** Every intended transaction was decided before some P_h, by induction along its chain of commits. */
  lemma IntendedIsEarly(F: Family, h: u64, x: u64)
    requires Timed(F) && Marked(F.logs, h) && x in Intended(F.logs, h)
    ensures DecidedEarly(F, h, x)
  {
    var S := Intended(F.logs, h);
    IntendedIsCausallyClosed(F.logs, h);
    EarlyIsCausallyClosed(F, h, S);
    IntendedIsBelow(F.logs, h, set x | x in S && DecidedEarly(F, h, x));
  }

  lemma IntendedIsFoundAndEarly(F: Family, h: u64, x: u64)
    requires Timed(F) && Marked(F.logs, h) && x in Intended(F.logs, h) + {h}
    ensures x == h || (x in Recoverable(F.logs, h) && DecidedEarly(F, h, x))
  {
    IntendedIsRecoverable(F.logs, h);
    if x != h {
      IntendedIsEarly(F, h, x);
    }
  }

  // ----- the fate of a transaction -----

  /** In R, prepared in time and never rolled back before the cut: committed everywhere. */
  lemma AllCommittedWhen(F: Family, h: u64, R: set<u64>, cp: ConsistentPoint, x: u64)
    requires TwoPhase(F) && IsPointFor(F.logs, h, R, cp) && x in R + {h}
    requires forall n, b :: !Undone(F, n, x, b)
    requires forall n, j :: Is(F, n, j, Prepare, x) ==> j < MarksOf(F.logs[n], h).commit
    requires forall n, b :: Participant(F, n, x, b) ==> !KeptOf(F, cp, n, Rollback, x, b)
    ensures AllCommitted(F, cp, x)
  {
    forall n, b | Participant(F, n, x, b) ensures Committed(F, cp, n, x, b) {
      if !Settled(F, n, x, b) && (x, b) !in F.base[n] {
        var j :| Is(F, n, j, Prepare, x) && F.branch[n][j] == b;
        PreparesUpToCut(F.logs[n], h, R, j);
        KeptIsUpToCut(F.rank, F.logs[n], h, R, j);
        assert KeptOf(F, cp, n, Prepare, x, b);
      }
    }
  }

  /** Not in R: committed nowhere, but where it was before the log starts. */
  lemma OnlySettledOutside(F: Family, h: u64, R: set<u64>, cp: ConsistentPoint, x: u64)
    requires TwoPhase(F) && IsPointFor(F.logs, h, R, cp) && CausallyClosed(F.logs, h, R) && x !in R + {h}
    ensures OnlySettled(F, cp, x)
  {
    forall n, b ensures !KeptOf(F, cp, n, Commit, x, b) {
      if i :| Is(F, n, i, Commit, x) && F.branch[n][i] == b && UpTo(F.rank, At(F.logs[n][i]), cp.borders[n]) {
        KeptCommitsAreRecoverable(F.rank, F.logs[n], h, R, i);
      }
    }
  }

  /** Decided early, or the heartbeat: committed everywhere. */
  lemma EarlyIsAllCommitted(F: Family, h: u64, R: set<u64>, cp: ConsistentPoint, x: u64)
    requires TwoPhase(F) && IsPointFor(F.logs, h, R, cp)
    requires x == h || (x in R && DecidedEarly(F, h, x))
    ensures AllCommitted(F, cp, x)
  {
    forall n, b ensures !Undone(F, n, x, b) && !KeptOf(F, cp, n, Rollback, x, b) {
      if n in F.logs {
        assert Is(F, n, MarksOf(F.logs[n], h).commit, Commit, h);
      }
    }
    forall n, j | Is(F, n, j, Prepare, x) ensures j < MarksOf(F.logs[n], h).commit {
      EarlyPreparesBeforeCommit(F, h, x, n, j);
    }
    AllCommittedWhen(F, h, R, cp, x);
  }

  // ----- results -----

  /** No event between a stream's P_h's is of a transaction that never commits before a P_h. */
  ghost predicate StrayFree(logs: Logs, h: u64)
    requires Marked(logs, h)
  {
    forall n :: n in logs ==>
      TouchedIn(logs[n], h, MarksOf(logs[n], h).first, MarksOf(logs[n], h).prepare) <= IntendedSeed(logs, h)
  }

  /** Streams with a single P_h have no strays. */
  lemma SinglePrepareIsStrayFree(logs: Logs, h: u64)
    requires Marked(logs, h)
    requires forall n :: n in logs ==> MarksOf(logs[n], h).first == MarksOf(logs[n], h).prepare
    ensures StrayFree(logs, h)
  {
  }

  /** Stage one collects exactly the transactions that commit before a P_h if and only if there are no strays. */
  lemma SeedIsIntendedIff(logs: Logs, h: u64)
    requires Marked(logs, h)
    ensures Seed(logs, h) == IntendedSeed(logs, h) <==> StrayFree(logs, h)
  {
    assert IntendedSeed(logs, h) <= Seed(logs, h) by {
      forall n | n in logs
        ensures CommittedBefore(logs[n], h, MarksOf(logs[n], h).prepare) <= SeedOf(logs[n], h)
      {
      }
    }
    if StrayFree(logs, h) {
      forall n | n in logs ensures SeedOf(logs[n], h) <= IntendedSeed(logs, h) {
        var m := MarksOf(logs[n], h);
        assert CommittedBefore(logs[n], h, m.first) <= CommittedBefore(logs[n], h, m.prepare) <= IntendedSeed(logs, h);
      }
    }
    if Seed(logs, h) == IntendedSeed(logs, h) {
      forall n | n in logs
        ensures TouchedIn(logs[n], h, MarksOf(logs[n], h).first, MarksOf(logs[n], h).prepare) <= IntendedSeed(logs, h)
      {
        assert SeedOf(logs[n], h) <= Seed(logs, h);
      }
    }
  }

  lemma EarlyIsContained(F: Family, h: u64, R: set<u64>, cp: ConsistentPoint, x: u64, n: Name, j: nat)
    requires TwoPhase(F) && IsPointFor(F.logs, h, R, cp)
    requires x == h || (x in R && DecidedEarly(F, h, x))
    requires Is(F, n, j, Prepare, x)
    ensures j < MarksOf(F.logs[n], h).commit
    ensures UpTo(F.rank, At(F.logs[n][j]), cp.borders[n])
  {
    EarlyPreparesBeforeCommit(F, h, x, n, j);
    PreparesUpToCut(F.logs[n], h, R, j);
    KeptIsUpToCut(F.rank, F.logs[n], h, R, j);
  }

  /** Every prepare of an intended transaction precedes C_h on its stream and survives the cut. */
  lemma PreparesAreContained(F: Family, h: u64, cp: ConsistentPoint, x: u64, n: Name, j: nat)
    requires TwoPhase(F) && IsConsistentPoint(F.logs, h, cp)
    requires x in Intended(F.logs, h) + {h} && Is(F, n, j, Prepare, x)
    ensures j < MarksOf(F.logs[n], h).commit
    ensures UpTo(F.rank, At(F.logs[n][j]), cp.borders[n])
  {
    IntendedIsFoundAndEarly(F, h, x);
    EarlyIsContained(F, h, Recoverable(F.logs, h), cp, x, n, j);
  }

  /** Whatever the logs, an intended transaction is committed everywhere and one outside the answer nowhere in them. */
  lemma FateOfTheRest(F: Family, h: u64, cp: ConsistentPoint, x: u64)
    requires TwoPhase(F) && IsConsistentPoint(F.logs, h, cp)
    ensures x in Intended(F.logs, h) + {h} ==> AllCommitted(F, cp, x)
    ensures x !in cp.txs ==> OnlySettled(F, cp, x)
  {
    if x in Intended(F.logs, h) + {h} {
      IntendedIsFoundAndEarly(F, h, x);
      EarlyIsAllCommitted(F, h, Recoverable(F.logs, h), cp, x);
    }
    if x !in cp.txs {
      RecoverableIsCausallyClosed(F.logs, h);
      OnlySettledOutside(F, h, Recoverable(F.logs, h), cp, x);
    }
  }

  /**
   The main result. Without strays, cutting at the borders and recovering with the transactions
   of the consistent point commits every listed transaction on all of its branches, and no branch
   of any other transaction.
   */
  lemma RecoveryIsAtomic(F: Family, h: u64, cp: ConsistentPoint, x: u64)
    requires TwoPhase(F) && IsConsistentPoint(F.logs, h, cp) && StrayFree(F.logs, h)
    ensures if x in cp.txs then AllCommitted(F, cp, x) else OnlySettled(F, cp, x)
  {
    SeedIsIntendedIff(F.logs, h);
    FateOfTheRest(F, h, cp, x);
  }

  /** No branch of x was committed before its log starts, or all of them were. */
  ghost predicate StartsTogether(F: Family, x: u64)
    requires Aligned(F)
  {
    (forall n, b :: !Settled(F, n, x, b)) || (forall n, b :: Participant(F, n, x, b) ==> Settled(F, n, x, b))
  }

  lemma OnlySettledIsAtomicIff(F: Family, cp: ConsistentPoint, x: u64)
    requires Fits(F, cp) && OnlySettled(F, cp, x)
    ensures AllOrNone(F, cp, x) <==> StartsTogether(F, x)
  {
  }

  /** Without strays, a transaction is all-or-none iff it is recoverable or no log starts amid its commits. */
  lemma StrayFreeAtomicIff(F: Family, h: u64, cp: ConsistentPoint, x: u64)
    requires TwoPhase(F) && IsConsistentPoint(F.logs, h, cp) && StrayFree(F.logs, h)
    ensures AllOrNone(F, cp, x) <==> x in Recoverable(F.logs, h) + {h} || StartsTogether(F, x)
  {
    RecoveryIsAtomic(F, h, cp, x);
    if x !in cp.txs {
      OnlySettledIsAtomicIff(F, cp, x);
    }
  }

  // ----- exactly when a transaction is recovered atomically, in terms of the logs -----

  /** Some prepare of a recoverable transaction or the heartbeat lies at or after event i and before C_h. */
  ghost predicate Followed(es: seq<Event>, h: u64, R: set<u64>, i: int)
    requires HasMarks(es, h)
  {
    exists j :: 0 <= i <= j < MarksOf(es, h).commit && RecoverablePrepare(es[j], R + {h})
  }

  lemma FollowedIff(es: seq<Event>, h: u64, R: set<u64>, i: nat)
    requires HasMarks(es, h)
    ensures Followed(es, h, R, i) <==> i <= CutIndex(es, h, R)
  {
    CutIsPrepare(es, h, R);
    if Followed(es, h, R, i) {
      var j :| i <= j < MarksOf(es, h).commit && RecoverablePrepare(es[j], R + {h});
      PreparesUpToCut(es, h, R, j);
    }
  }

  /** Branch b of x on stream n is prepared before the log starts or before C_h. */
  ghost predicate PreparedInTime(F: Family, h: u64, n: Name, x: u64, b: Branch)
    requires Aligned(F) && Marked(F.logs, h)
  {
    && n in F.logs
    && ((x, b) in F.base[n]
        || exists j :: Is(F, n, j, Prepare, x) && F.branch[n][j] == b && j < MarksOf(F.logs[n], h).commit)
  }

  /** A rollback of the branch comes before some recoverable prepare that precedes C_h. */
  ghost predicate RolledBackInTime(F: Family, h: u64, R: set<u64>, n: Name, x: u64, b: Branch)
    requires Aligned(F) && Marked(F.logs, h)
  {
    exists i :: Is(F, n, i, Rollback, x) && F.branch[n][i] == b && Followed(F.logs[n], h, R, i)
  }

  /** A commit of the branch does, or it shares an XID_EVENT with such a prepare. */
  ghost predicate CommittedInTime(F: Family, h: u64, R: set<u64>, n: Name, x: u64, b: Branch)
    requires Aligned(F) && Marked(F.logs, h)
  {
    exists i :: Is(F, n, i, Commit, x) && F.branch[n][i] == b &&
      (Followed(F.logs[n], h, R, i) || SharesPrepare(F.rank, F.logs[n], h, i))
  }

  /** Event i stands for the same XID_EVENT as a prepare right before it, which precedes C_h. */
  ghost predicate SharesPrepare(rank: Name -> nat, es: seq<Event>, h: u64, i: int)
    requires HasMarks(es, h)
  {
    0 < i < |es| && i <= MarksOf(es, h).commit && OneXidEvent(rank, es[i - 1], es[i])
  }

  lemma KeptPrepareIff(F: Family, h: u64, R: set<u64>, cp: ConsistentPoint, n: Name, x: u64, b: Branch)
    requires TwoPhase(F) && IsPointFor(F.logs, h, R, cp) && x in R + {h}
    ensures PreparedAfterCut(F, cp, n, x, b) <==> PreparedInTime(F, h, n, x, b)
  {
    if KeptOf(F, cp, n, Prepare, x, b) {
      var i :| Is(F, n, i, Prepare, x) && F.branch[n][i] == b && UpTo(F.rank, At(F.logs[n][i]), cp.borders[n]);
      KeptIsUpToCut(F.rank, F.logs[n], h, R, i);
    }
    if j :| Is(F, n, j, Prepare, x) && F.branch[n][j] == b && j < MarksOf(F.logs[n], h).commit {
      PreparesUpToCut(F.logs[n], h, R, j);
      KeptIsUpToCut(F.rank, F.logs[n], h, R, j);
      assert KeptOf(F, cp, n, Prepare, x, b);
    }
  }

  lemma KeptRollbackIff(F: Family, h: u64, R: set<u64>, cp: ConsistentPoint, n: Name, x: u64, b: Branch)
    requires TwoPhase(F) && IsPointFor(F.logs, h, R, cp)
    ensures KeptOf(F, cp, n, Rollback, x, b) <==> RolledBackInTime(F, h, R, n, x, b)
  {
    if KeptOf(F, cp, n, Rollback, x, b) {
      var i :| Is(F, n, i, Rollback, x) && F.branch[n][i] == b && UpTo(F.rank, At(F.logs[n][i]), cp.borders[n]);
      KeptIsUpToCut(F.rank, F.logs[n], h, R, i);
      FollowedIff(F.logs[n], h, R, i);
    }
    if i :| Is(F, n, i, Rollback, x) && F.branch[n][i] == b && Followed(F.logs[n], h, R, i) {
      FollowedIff(F.logs[n], h, R, i);
      KeptIsUpToCut(F.rank, F.logs[n], h, R, i);
    }
  }

  lemma CommitIsKeptIff(rank: Name -> nat, es: seq<Event>, h: u64, R: set<u64>, i: nat)
    requires LogOrdered(rank, es) && HasMarks(es, h) && i < |es| && es[i].typ.Commit? && es[i].xid in R + {h}
    ensures UpTo(rank, At(es[i]), CutOf(es, h, R)) <==> Followed(es, h, R, i) || SharesPrepare(rank, es, h, i)
  {
    KeptIsUpToCut(rank, es, h, R, i);
    FollowedIff(es, h, R, i);
    CutIsPrepare(es, h, R);
    if SharesPrepare(rank, es, h, i) {
      PreparesUpToCut(es, h, R, i - 1);
    }
  }

  lemma CommitEventIsKeptIff(F: Family, h: u64, R: set<u64>, cp: ConsistentPoint, n: Name, x: u64, i: nat)
    requires TwoPhase(F) && IsPointFor(F.logs, h, R, cp) && x in R + {h} && Is(F, n, i, Commit, x)
    ensures UpTo(F.rank, At(F.logs[n][i]), cp.borders[n])
       <==> Followed(F.logs[n], h, R, i) || SharesPrepare(F.rank, F.logs[n], h, i)
  {
    CommitIsKeptIff(F.rank, F.logs[n], h, R, i);
  }

  lemma KeptCommitIff(F: Family, h: u64, R: set<u64>, cp: ConsistentPoint, n: Name, x: u64, b: Branch)
    requires TwoPhase(F) && IsPointFor(F.logs, h, R, cp) && x in R + {h}
    ensures KeptOf(F, cp, n, Commit, x, b) <==> CommittedInTime(F, h, R, n, x, b)
  {
    forall i | Is(F, n, i, Commit, x)
      ensures UpTo(F.rank, At(F.logs[n][i]), cp.borders[n])
         <==> Followed(F.logs[n], h, R, i) || SharesPrepare(F.rank, F.logs[n], h, i)
    {
      CommitEventIsKeptIff(F, h, R, cp, n, x, i);
    }
  }

  /** The branch commits in time, or is prepared and not rolled back in time. */
  ghost predicate IsIn(F: Family, h: u64, R: set<u64>, n: Name, x: u64, b: Branch)
    requires Aligned(F) && Marked(F.logs, h)
  {
    CommittedInTime(F, h, R, n, x, b) || (PreparedInTime(F, h, n, x, b) && !RolledBackInTime(F, h, R, n, x, b))
  }

  /** All prepares of x precede C_h, and no branch of it is rolled back in time, or was before the logs start. */
  ghost predicate WhollyIn(F: Family, h: u64, R: set<u64>, x: u64)
    requires Aligned(F) && Marked(F.logs, h)
  {
    && (forall n, j :: Is(F, n, j, Prepare, x) ==> j < MarksOf(F.logs[n], h).commit)
    && (forall n, b :: Participant(F, n, x, b) ==> !RolledBackInTime(F, h, R, n, x, b))
    && (forall n, b :: !Undone(F, n, x, b))
  }

  /** No branch of x commits in time or did before the logs, and those prepared in time are rolled back in time. */
  ghost predicate WhollyOut(F: Family, h: u64, R: set<u64>, x: u64)
    requires Aligned(F) && Marked(F.logs, h)
  {
    forall n, b :: !Settled(F, n, x, b) && !IsIn(F, h, R, n, x, b)
  }

  /** A recoverable transaction is committed everywhere if and only if it is wholly in. */
  lemma AllCommittedIff(F: Family, h: u64, R: set<u64>, cp: ConsistentPoint, x: u64)
    requires TwoPhase(F) && IsPointFor(F.logs, h, R, cp) && x in R
    ensures AllCommitted(F, cp, x) <==> WhollyIn(F, h, R, x)
  {
    forall n, b ensures KeptOf(F, cp, n, Rollback, x, b) <==> RolledBackInTime(F, h, R, n, x, b) {
      KeptRollbackIff(F, h, R, cp, n, x, b);
    }
    if WhollyIn(F, h, R, x) {
      AllCommittedWhen(F, h, R, cp, x);
    }
    if AllCommitted(F, cp, x) {
      forall n, j | Is(F, n, j, Prepare, x) ensures j < MarksOf(F.logs[n], h).commit {
        assert Participant(F, n, x, F.branch[n][j]);
        CommittedBranchPreparedInTime(F, h, R, cp, x, n, j);
      }
      forall n, b | Participant(F, n, x, b) ensures !RolledBackInTime(F, h, R, n, x, b) && !Undone(F, n, x, b) {
        CommittedIsNotRolledBack(F, cp, x, n, b);
      }
      forall n, b ensures !Undone(F, n, x, b) {
        assert Undone(F, n, x, b) ==> Participant(F, n, x, b);
      }
    }
  }

  lemma CommittedIsNotRolledBack(F: Family, cp: ConsistentPoint, x: u64, n: Name, b: Branch)
    requires Fits(F, cp) && OneFate(F) && PreparedOnce(F) && Committed(F, cp, n, x, b)
    ensures !KeptOf(F, cp, n, Rollback, x, b) && !Undone(F, n, x, b)
  {
  }

  lemma BranchCommittedIff(F: Family, h: u64, R: set<u64>, cp: ConsistentPoint, x: u64, n: Name, b: Branch)
    requires TwoPhase(F) && IsPointFor(F.logs, h, R, cp) && x in R
    ensures Committed(F, cp, n, x, b) <==> Settled(F, n, x, b) || IsIn(F, h, R, n, x, b)
  {
    KeptPrepareIff(F, h, R, cp, n, x, b);
    KeptRollbackIff(F, h, R, cp, n, x, b);
    KeptCommitIff(F, h, R, cp, n, x, b);
  }

  /** It is committed nowhere if and only if it is wholly out. */
  lemma NoneCommittedIff(F: Family, h: u64, R: set<u64>, cp: ConsistentPoint, x: u64)
    requires TwoPhase(F) && IsPointFor(F.logs, h, R, cp) && x in R
    ensures NoneCommitted(F, cp, x) <==> WhollyOut(F, h, R, x)
  {
    if NoneCommitted(F, cp, x) {
      NoneCommittedIsOut(F, h, R, cp, x);
    } else {
      SomeCommittedIsNotOut(F, h, R, cp, x);
    }
  }

  lemma NoneCommittedIsOut(F: Family, h: u64, R: set<u64>, cp: ConsistentPoint, x: u64)
    requires TwoPhase(F) && IsPointFor(F.logs, h, R, cp) && x in R && NoneCommitted(F, cp, x)
    ensures WhollyOut(F, h, R, x)
  {
    forall n, b ensures !Settled(F, n, x, b) && !IsIn(F, h, R, n, x, b) {
      BranchCommittedIff(F, h, R, cp, x, n, b);
    }
  }

  lemma SomeCommittedIsNotOut(F: Family, h: u64, R: set<u64>, cp: ConsistentPoint, x: u64)
    requires TwoPhase(F) && IsPointFor(F.logs, h, R, cp) && x in R && !NoneCommitted(F, cp, x)
    ensures !WhollyOut(F, h, R, x)
  {
    var n, b :| Committed(F, cp, n, x, b);
    BranchCommittedIff(F, h, R, cp, x, n, b);
  }

  /** If the branch of a prepare ends up committed, the prepare precedes C_h. */
  lemma CommittedBranchPreparedInTime(F: Family, h: u64, R: set<u64>, cp: ConsistentPoint, x: u64, n: Name, j: nat)
    requires TwoPhase(F) && IsPointFor(F.logs, h, R, cp)
    requires Is(F, n, j, Prepare, x) && Committed(F, cp, n, x, F.branch[n][j])
    ensures j < MarksOf(F.logs[n], h).commit
  {
    var b := F.branch[n][j];
    if KeptOf(F, cp, n, Commit, x, b) {
      var i :| Is(F, n, i, Commit, x) && F.branch[n][i] == b && UpTo(F.rank, At(F.logs[n][i]), cp.borders[n]);
      KeptIsUpToCut(F.rank, F.logs[n], h, R, i);
      assert F.time[n][j] < F.time[n][i];
      assert j < i;
    } else {
      var i :| Is(F, n, i, Prepare, x) && F.branch[n][i] == b && UpTo(F.rank, At(F.logs[n][i]), cp.borders[n]);
      KeptIsUpToCut(F.rank, F.logs[n], h, R, i);
      assert i == j;
    }
  }

  /** A transaction in the answer that the algorithm is not meant to find. */
  ghost predicate Stray(logs: Logs, h: u64, x: u64)
    requires Marked(logs, h)
  {
    x in Recoverable(logs, h) && x !in Intended(logs, h) && x != h
  }

  /**
   A stray is wholly in or wholly out, and no log starts amid the commits of a transaction that
   is not recoverable. Of the logs and what was before them alone.
   */
  ghost predicate Harmless(F: Family, h: u64, x: u64)
    requires Aligned(F) && Marked(F.logs, h)
  {
    var R := Recoverable(F.logs, h);
    && (Stray(F.logs, h, x) ==> WhollyIn(F, h, R, x) || WhollyOut(F, h, R, x))
    && (x !in R + {h} ==> StartsTogether(F, x))
  }

  /** Recovery is atomic for a transaction if and only if it is harmless. */
  lemma AtomicIff(F: Family, h: u64, cp: ConsistentPoint, x: u64)
    requires TwoPhase(F) && IsConsistentPoint(F.logs, h, cp)
    ensures AllOrNone(F, cp, x) <==> Harmless(F, h, x)
  {
    if Stray(F.logs, h, x) {
      AllCommittedIff(F, h, Recoverable(F.logs, h), cp, x);
      NoneCommittedIff(F, h, Recoverable(F.logs, h), cp, x);
    } else {
      FateOfTheRest(F, h, cp, x);
      if x !in cp.txs {
        OnlySettledIsAtomicIff(F, cp, x);
      }
    }
  }
}
