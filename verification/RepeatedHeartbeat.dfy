/**
 A heartbeat prepared twice on one stream. When P_h moves ahead, stage one takes every
 transaction with an event between the two prepares as recoverable, although the comment
 there speaks of commits only. A transaction merely prepared in between is then committed on
 one node while its other branch, prepared past the cut, is lost.
 */
module RepeatedHeartbeat {
  import opened Bytes
  import opened TxEvents
  import opened StageOne
  import opened StageTwo
  import opened StreamMarks
  import opened SeekConsistentPoint
  import opened Atomicity

  const H: u64 := 1
  const X: u64 := 2
  const A: Name := [1]
  const B: Name := [2]

  function Ev(t: EventType, x: u64, pos: u64): Event { Event(t, x, [], pos, 0, []) }

  const LogA := [Ev(Prepare, H, 10), Ev(Prepare, X, 20), Ev(Prepare, H, 30), Ev(Commit, H, 40)]
  const LogB := [Ev(Prepare, H, 10), Ev(Commit, H, 20), Ev(Prepare, X, 30)]

  ghost const Twice: Family := Family(
    map[A := LogA, B := LogB],
    map[A := [[1], [1], [2], [1]], B := [[1], [1], [1]]],
    map[A := {}, B := {}],
    map[A := {}, B := {}],
    map[A := {}, B := {}],
    map[A := [0, 1, 2, 10], B := [3, 11, 12]],
    _ => 0)

  /** All events of the two logs, one by one. */
  lemma EventsOfTwice(n: Name, i: int, t: EventType, x: u64)
    requires Is(Twice, n, i, t, x)
    ensures t == Prepare ==> (n, i, x) in {(A, 0, H), (A, 1, X), (A, 2, H), (B, 0, H), (B, 2, X)}
    ensures t == Commit ==> (n, i, x) in {(A, 3, H), (B, 1, H)}
    ensures t != Rollback && t != Begin
  {
    assert n == A || n == B;
    if n == A {
      assert i == 0 || i == 1 || i == 2 || i == 3;
    } else {
      assert i == 0 || i == 1 || i == 2;
    }
  }

  lemma TwiceIsTimed()
    ensures Timed(Twice)
  {
    assert forall n :: n in Twice.logs ==> n == A || n == B;
    forall n, i, n', j, x | Is(Twice, n, i, Prepare, x) && Is(Twice, n', j, Commit, x)
      ensures Twice.time[n][i] < Twice.time[n'][j]
    {
      EventsOfTwice(n, i, Prepare, x);
      EventsOfTwice(n', j, Commit, x);
    }
  }

  lemma TwiceIsPreparedOnce()
    ensures Aligned(Twice) && PreparedOnce(Twice)
  {
    TwiceIsTimed();
    forall n, i, j, x | Is(Twice, n, i, Prepare, x) && Is(Twice, n, j, Prepare, x) &&
        Twice.branch[n][i] == Twice.branch[n][j]
      ensures i == j
    {
      EventsOfTwice(n, i, Prepare, x);
      EventsOfTwice(n, j, Prepare, x);
    }
    forall n, i, x: u64 | Is(Twice, n, i, Prepare, x) ensures (x, Twice.branch[n][i]) !in Twice.base[n] {
      EventsOfTwice(n, i, Prepare, x);
    }
  }

  lemma TwiceIsTwoPhase()
    ensures TwoPhase(Twice)
  {
    TwiceIsTimed();
    TwiceIsPreparedOnce();
    forall n, i, n', j, x | Is(Twice, n, i, Commit, x) && Is(Twice, n', j, Rollback, x) ensures false {
      EventsOfTwice(n', j, Rollback, x);
    }
    assert LogOrdered(Twice.rank, LogA);
    assert LogOrdered(Twice.rank, LogB);
  }

  lemma TwiceIsMarked()
    ensures HasMarks(LogA, H) && HasMarks(LogB, H) && Marked(Twice.logs, H)
    ensures MarksOf(LogA, H) == Marks(0, 2, 3) && MarksOf(LogB, H) == Marks(0, 0, 1)
  {
    MarksExactly(LogA, H, Marks(0, 2, 3));
    MarksExactly(LogB, H, Marks(0, 0, 1));
  }

  lemma XIsRecoverable()
    requires Marked(Twice.logs, H)
    ensures X in Recoverable(Twice.logs, H)
  {
    TwiceIsMarked();
    assert LogA[1].xid == X;
    assert X in TouchedIn(LogA, H, 0, 2);
    assert A in Twice.logs && X in SeedOf(LogA, H);
    ClosureIsClosed(Seed(Twice.logs, H), Windows(Twice.logs, H));
  }

  lemma CutsOfTwice(R: set<u64>)
    ensures HasMarks(LogA, H) && HasMarks(LogB, H)
    ensures CutOf(LogA, H, R) == EventOffset([], 30) && CutOf(LogB, H, R) == EventOffset([], 10)
  {
    TwiceIsMarked();
  }

  lemma BordersOfTwice(R: set<u64>, cp: ConsistentPoint)
    requires IsPointFor(Twice.logs, H, R, cp) && X in R
    ensures cp.borders.Keys == Twice.logs.Keys && X in cp.txs
    ensures cp.borders[A] == EventOffset([], 30) && cp.borders[B] == EventOffset([], 10)
  {
    CutsOfTwice(R);
    assert A in Twice.logs && B in Twice.logs;
  }

  lemma SplitFate(cp: ConsistentPoint)
    requires Fits(Twice, cp) && X in cp.txs
    requires cp.borders[A] == EventOffset([], 30) && cp.borders[B] == EventOffset([], 10)
    ensures Participant(Twice, A, X, [1]) && Committed(Twice, cp, A, X, [1])
    ensures Participant(Twice, B, X, [1]) && !Committed(Twice, cp, B, X, [1])
  {
    assert Is(Twice, A, 1, Prepare, X) && Is(Twice, B, 2, Prepare, X);
    assert KeptOf(Twice, cp, A, Prepare, X, [1]);
    forall n, t, b | KeptOf(Twice, cp, n, t, X, b) ensures t == Prepare && n == A {
      var i :| Is(Twice, n, i, t, X) && Twice.branch[n][i] == b &&
          UpTo(Twice.rank, At(Twice.logs[n][i]), cp.borders[n]);
      EventsOfTwice(n, i, t, X);
    }
  }

  /** Valid two-phase-commit logs on which recovery is not atomic: X commits on A and not on B. */
  lemma RepeatedPrepareBreaksAtomicity(cp: ConsistentPoint)
    requires IsConsistentPoint(Twice.logs, H, cp)
    ensures TwoPhase(Twice) && !AllOrNone(Twice, cp, X)
  {
    TwiceIsTwoPhase();
    XIsRecoverable();
    assert Aligned(Twice);
    BordersOfTwice(Recoverable(Twice.logs, H), cp);
    SplitFate(cp);
  }

  /** And such logs do have a consistent point. */
  lemma AtomicityFails() returns (cp: ConsistentPoint)
    ensures TwoPhase(Twice) && IsConsistentPoint(Twice.logs, H, cp) && !AllOrNone(Twice, cp, X)
  {
    TwiceIsMarked();
    cp := PointExists(Twice.logs, H);
    RepeatedPrepareBreaksAtomicity(cp);
  }
}
