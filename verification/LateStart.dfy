/**
 A log that starts late. On A the transaction X is committed before the log starts; on B it is
 prepared before P_h and committed after C_h. Every stream has one P_h, and yet recovery rolls X
 back on B: nothing in the logs before C_h tells that it was committed.
 */
module LateStart {
  import opened Bytes
  import opened TxEvents
  import opened StageOne
  import opened StageTwo
  import opened StreamMarks
  import opened SeekConsistentPoint
  import opened Atomicity

  const H: u64 := 1
  const X: u64 := 2
  const A: Name := [1]
  const B: Name := [2]

  function Ev(t: EventType, x: u64, pos: u64): Event { Event(t, x, [], pos, 0, []) }

  const LogA := [Ev(Prepare, H, 10), Ev(Commit, H, 20)]
  const LogB := [Ev(Prepare, X, 10), Ev(Prepare, H, 20), Ev(Commit, H, 30), Ev(Commit, X, 40)]

  ghost const Late: Family := Family(
    map[A := LogA, B := LogB],
    map[A := [[1], [1]], B := [[1], [1], [1], [1]]],
    map[A := {}, B := {}],
    map[A := {(X, [1])}, B := {}],
    map[A := {}, B := {}],
    map[A := [2, 10], B := [0, 3, 11, 12]],
    _ => 0)

  /** All events of the two logs, one by one. */
  lemma EventsOfLate(n: Name, i: int, t: EventType, x: u64)
    requires Is(Late, n, i, t, x)
    ensures t == Prepare ==> (n, i, x) in {(A, 0, H), (B, 0, X), (B, 1, H)}
    ensures t == Commit ==> (n, i, x) in {(A, 1, H), (B, 2, H), (B, 3, X)}
    ensures t != Rollback && t != Begin
  {
    assert n == A || n == B;
    if n == A {
      assert i == 0 || i == 1;
    } else {
      assert i == 0 || i == 1 || i == 2 || i == 3;
    }
  }

  lemma LateIsTimed()
    ensures Timed(Late)
  {
    assert forall n :: n in Late.logs ==> n == A || n == B;
    forall n, i, n', j, x | Is(Late, n, i, Prepare, x) && Is(Late, n', j, Commit, x)
      ensures Late.time[n][i] < Late.time[n'][j]
    {
      EventsOfLate(n, i, Prepare, x);
      EventsOfLate(n', j, Commit, x);
    }
  }

  lemma LateIsSettledInTime()
    ensures Aligned(Late) && SettledInTime(Late)
  {
    LateIsTimed();
    forall n', j, x, n, b, i | Is(Late, n', j, Prepare, x) && Settled(Late, n, x, b) && 0 <= i < |Late.logs[n]|
      ensures Late.time[n'][j] < Late.time[n][i]
    {
      EventsOfLate(n', j, Prepare, x);
      assert n == A && x == X;
      assert i == 0 || i == 1;
    }
  }

  lemma LateIsPreparedOnce()
    ensures Aligned(Late) && PreparedOnce(Late) && OneFate(Late)
  {
    LateIsTimed();
    forall n, i, j, x
      | Is(Late, n, i, Prepare, x) && Is(Late, n, j, Prepare, x) && Late.branch[n][i] == Late.branch[n][j]
      ensures i == j
    {
      EventsOfLate(n, i, Prepare, x);
      EventsOfLate(n, j, Prepare, x);
    }
    forall n, i, x: u64 | Is(Late, n, i, Prepare, x)
      ensures (x, Late.branch[n][i]) !in Late.base[n]
      ensures !Settled(Late, n, x, Late.branch[n][i]) && !Undone(Late, n, x, Late.branch[n][i])
    {
      EventsOfLate(n, i, Prepare, x);
    }
    forall n, j, x | Is(Late, n, j, Rollback, x) ensures false {
      EventsOfLate(n, j, Rollback, x);
    }
  }

  lemma LateIsTwoPhase()
    ensures TwoPhase(Late)
  {
    LateIsTimed();
    LateIsSettledInTime();
    LateIsPreparedOnce();
    assert LogOrdered(Late.rank, LogA);
    assert LogOrdered(Late.rank, LogB);
  }

  lemma LateIsMarked()
    ensures HasMarks(LogA, H) && HasMarks(LogB, H) && Marked(Late.logs, H)
    ensures MarksOf(LogA, H) == Marks(0, 0, 1) && MarksOf(LogB, H) == Marks(1, 1, 2)
  {
    MarksExactly(LogA, H, Marks(0, 0, 1));
    MarksExactly(LogB, H, Marks(1, 1, 2));
  }

  lemma SeedIsEmpty()
    ensures Marked(Late.logs, H) && Seed(Late.logs, H) == {}
  {
    LateIsMarked();
    assert SeedOf(LogA, H) == {} && SeedOf(LogB, H) == {};
    forall n | n in Late.logs ensures SeedOf(Late.logs[n], H) == {} {
      assert n == A || n == B;
    }
  }

  lemma WindowsAreEmpty()
    ensures Marked(Late.logs, H) && forall w :: w in Windows(Late.logs, H) ==> w == []
  {
    LateIsMarked();
    assert WindowOf(LogA, H) == [] && WindowOf(LogB, H) == [];
    forall n | n in Late.logs ensures WindowOf(Late.logs[n], H) == [] {
      assert n == A || n == B;
    }
  }

  lemma EmptyClosure(ws: set<Window>)
    requires forall w :: w in ws ==> w == []
    ensures Closure({}, ws) == {}
  {
    ClosureIsLeast({}, ws);
    forall w | w in ws ensures ClosedOn({}, w) {
      assert w == [];
    }
  }

  /** Nothing but the heartbeat is recoverable. */
  lemma NothingIsRecoverable()
    ensures Marked(Late.logs, H) && Recoverable(Late.logs, H) == {}
  {
    SeedIsEmpty();
    WindowsAreEmpty();
    EmptyClosure(Windows(Late.logs, H));
  }

  lemma NoStrays()
    ensures Marked(Late.logs, H) && StrayFree(Late.logs, H)
  {
    LateIsMarked();
    SinglePrepareIsStrayFree(Late.logs, H);
  }

  lemma BordersOfLate(R: set<u64>, cp: ConsistentPoint)
    requires IsPointFor(Late.logs, H, R, cp) && R == {}
    ensures cp.borders.Keys == Late.logs.Keys && cp.borders[B] == EventOffset([], 20) && X !in cp.txs
  {
    LateIsMarked();
    assert B in Late.logs && WindowOf(LogB, H) == [];
  }

  lemma SplitFate(cp: ConsistentPoint)
    requires Fits(Late, cp) && X !in cp.txs && cp.borders[B] == EventOffset([], 20)
    ensures Participant(Late, A, X, [1]) && Committed(Late, cp, A, X, [1])
    ensures Participant(Late, B, X, [1]) && !Committed(Late, cp, B, X, [1])
  {
    assert Settled(Late, A, X, [1]);
    assert Is(Late, B, 0, Prepare, X);
    forall b | KeptOf(Late, cp, B, Commit, X, b) ensures false {
      var i :|
        Is(Late, B, i, Commit, X) && Late.branch[B][i] == b && UpTo(Late.rank, At(Late.logs[B][i]), cp.borders[B]);
      EventsOfLate(B, i, Commit, X);
    }
  }

  /** Valid logs without strays on which recovery is not atomic: X stays committed on A and is rolled back on B. */
  lemma LateStartBreaksAtomicity(cp: ConsistentPoint)
    requires IsConsistentPoint(Late.logs, H, cp)
    ensures TwoPhase(Late) && StrayFree(Late.logs, H) && !AllOrNone(Late, cp, X)
  {
    LateIsTwoPhase();
    NothingIsRecoverable();
    NoStrays();
    BordersOfLate(Recoverable(Late.logs, H), cp);
    SplitFate(cp);
  }

  /** And such logs do have a consistent point. */
  lemma AtomicityFails() returns (cp: ConsistentPoint)
    ensures TwoPhase(Late) && IsConsistentPoint(Late.logs, H, cp) && !AllOrNone(Late, cp, X)
  {
    LateIsMarked();
    cp := PointExists(Late.logs, H);
    LateStartBreaksAtomicity(cp);
  }
}
