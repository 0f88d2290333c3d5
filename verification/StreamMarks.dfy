/**
 What a worker of stage one collects, in terms of positions in its stream: the first and the
 last prepare of the heartbeat before its first commit, and that commit.
 */
module StreamMarks {
  import opened Bytes
  import opened Wrappers
  import opened TxEvents
  import opened StageOne

  // ----- positions -----

  /** Position of the heartbeat's first commit from k on, |es| without one. */
  function FirstCommit(h: u64, es: seq<Event>, k: nat): (c: nat)
    requires k <= |es|
    ensures k <= c <= |es|
    ensures c < |es| ==> IsCommitOf(es[c], h)
    ensures forall i :: k <= i < c ==> !IsCommitOf(es[i], h)
    decreases |es| - k
  {
    if k == |es| || IsCommitOf(es[k], h) then k else FirstCommit(h, es, k + 1)
  }

  /** Position of the heartbeat's first prepare below n, n without one. */
  function FirstPrepare(h: u64, es: seq<Event>, n: nat): (f: nat)
    requires n <= |es|
    ensures f <= n
    ensures f < n ==> IsPrepareOf(es[f], h)
    ensures forall i :: 0 <= i < f ==> !IsPrepareOf(es[i], h)
  {
    if n == 0 then 0
    else
      var f := FirstPrepare(h, es, n - 1);
      if f < n - 1 || IsPrepareOf(es[n - 1], h) then f else n
  }

  /** Position of the heartbeat's last prepare below n, -1 without one. */
  function FinalPrepare(h: u64, es: seq<Event>, n: nat): (p: int)
    requires n <= |es|
    ensures -1 <= p < n
    ensures p >= 0 ==> IsPrepareOf(es[p], h) && FirstPrepare(h, es, n) <= p
    ensures forall i :: p < i < n ==> !IsPrepareOf(es[i], h)
  {
    if n == 0 then -1
    else if IsPrepareOf(es[n - 1], h) then n - 1
    else FinalPrepare(h, es, n - 1)
  }

  /** The first and last P_h before C_h, and C_h. */
  datatype Marks = Marks(first: nat, prepare: nat, commit: nat)

  predicate HasMarks(es: seq<Event>, h: u64) {
    FirstCommit(h, es, 0) < |es| && FinalPrepare(h, es, FirstCommit(h, es, 0)) >= 0
  }

  function MarksOf(es: seq<Event>, h: u64): (m: Marks)
    requires HasMarks(es, h)
    ensures m.first <= m.prepare < m.commit < |es|
    ensures IsPrepareOf(es[m.first], h) && IsPrepareOf(es[m.prepare], h) && IsCommitOf(es[m.commit], h)
    ensures forall i :: 0 <= i < m.commit ==> !IsCommitOf(es[i], h)
    ensures forall i :: 0 <= i < m.first || m.prepare < i < m.commit ==> !IsPrepareOf(es[i], h)
  {
    var c := FirstCommit(h, es, 0);
    Marks(FirstPrepare(h, es, c), FinalPrepare(h, es, c), c)
  }

  /** Marks are what they are described to be, and nothing else is. */
  lemma MarksExactly(es: seq<Event>, h: u64, m: Marks)
    requires m.first <= m.prepare < m.commit < |es|
    requires IsPrepareOf(es[m.first], h) && IsPrepareOf(es[m.prepare], h) && IsCommitOf(es[m.commit], h)
    requires forall i :: 0 <= i < m.commit ==> !IsCommitOf(es[i], h)
    requires forall i :: 0 <= i < m.first || m.prepare < i < m.commit ==> !IsPrepareOf(es[i], h)
    ensures HasMarks(es, h) && MarksOf(es, h) == m
  {
    var c := FirstCommit(h, es, 0);
    assert c == m.commit;
    assert FinalPrepare(h, es, c) == m.prepare;
    assert FirstPrepare(h, es, c) == m.first;
  }

  // ----- what lies between -----

  /** The events of es[lo..hi] that are not the heartbeat's. */
  function Others(es: seq<Event>, h: u64, lo: nat, hi: nat): seq<Event>
    requires lo <= hi <= |es|
  {
    if lo == hi then []
    else if es[hi - 1].xid == h then Others(es, h, lo, hi - 1)
    else Others(es, h, lo, hi - 1) + [es[hi - 1]]
  }

  /** Where in es the k-th event of Others(es, h, lo, hi) is. */
  function Place(es: seq<Event>, h: u64, lo: nat, hi: nat, k: nat): (i: nat)
    requires lo <= hi <= |es| && k < |Others(es, h, lo, hi)|
    ensures lo <= i < hi && es[i].xid != h
    ensures es[i] == Others(es, h, lo, hi)[k] && |Others(es, h, lo, i)| == k
  {
    if k < |Others(es, h, lo, hi - 1)| then Place(es, h, lo, hi - 1, k) else hi - 1
  }

  lemma {:induction false} OthersGrow(es: seq<Event>, h: u64, lo: nat, i: nat, j: nat)
    requires lo <= i <= j <= |es|
    ensures |Others(es, h, lo, i)| <= |Others(es, h, lo, j)|
  {
    if i < j {
      OthersGrow(es, h, lo, i, j - 1);
    }
  }

  /** Event i, not the heartbeat's, is in Others at the number of those before it. */
  lemma {:induction false} OthersAt(es: seq<Event>, h: u64, lo: nat, hi: nat, i: nat)
    requires lo <= i < hi <= |es| && es[i].xid != h
    ensures |Others(es, h, lo, i)| < |Others(es, h, lo, hi)| && Others(es, h, lo, hi)[|Others(es, h, lo, i)|] == es[i]
    decreases hi
  {
    if i < hi - 1 {
      OthersAt(es, h, lo, hi - 1, i);
    }
  }

  /** The order of places and of positions among the others is the same. */
  lemma OthersInOrder(es: seq<Event>, h: u64, lo: nat, i: nat, j: nat)
    requires lo <= i < j <= |es| && es[i].xid != h
    ensures |Others(es, h, lo, i)| < |Others(es, h, lo, j)|
  {
    OthersGrow(es, h, lo, i + 1, j);
  }

  lemma PlacesInOrder(es: seq<Event>, h: u64, lo: nat, hi: nat, j: nat, k: nat)
    requires lo <= hi <= |es| && j < k < |Others(es, h, lo, hi)|
    ensures Place(es, h, lo, hi, j) < Place(es, h, lo, hi, k)
  {
    var pj, pk := Place(es, h, lo, hi, j), Place(es, h, lo, hi, k);
    if pk <= pj {
      OthersGrow(es, h, lo, pk, pj);
    }
  }

  /** Transactions other than the heartbeat with an event in es[lo..hi]. */
  function TouchedIn(es: seq<Event>, h: u64, lo: nat, hi: nat): set<u64>
    requires lo <= hi <= |es|
  {
    set i | lo <= i < hi && es[i].xid != h :: es[i].xid
  }

  /** Transactions other than the heartbeat that commit in es[..hi]. */
  function CommittedBefore(es: seq<Event>, h: u64, hi: nat): set<u64>
    requires hi <= |es|
  {
    set i | 0 <= i < hi && es[i].typ.Commit? && es[i].xid != h :: es[i].xid
  }

  lemma OthersTouched(es: seq<Event>, h: u64, lo: nat, hi: nat)
    requires lo <= hi <= |es|
    ensures XidsIn(Others(es, h, lo, hi)) == TouchedIn(es, h, lo, hi)
  {
    var o := Others(es, h, lo, hi);
    forall x | x in XidsIn(o) ensures x in TouchedIn(es, h, lo, hi) {
      var k :| 0 <= k < |o| && o[k].xid == x;
      var i := Place(es, h, lo, hi, k);
      assert es[i].xid == x;
    }
    forall x | x in TouchedIn(es, h, lo, hi) ensures x in XidsIn(o) {
      var i :| lo <= i < hi && es[i].xid != h && es[i].xid == x;
      OthersAt(es, h, lo, hi, i);
    }
  }

  /** The events between the last P_h and C_h. */
  function WindowOf(es: seq<Event>, h: u64): seq<Event>
    requires HasMarks(es, h)
  {
    var m := MarksOf(es, h);
    Others(es, h, m.prepare + 1, m.commit)
  }

  /** What stage one takes as recoverable: commits before the first P_h, and every event between P_h's. */
  function SeedOf(es: seq<Event>, h: u64): set<u64>
    requires HasMarks(es, h)
  {
    var m := MarksOf(es, h);
    CommittedBefore(es, h, m.first) + TouchedIn(es, h, m.first, m.prepare)
  }

  // ----- the worker's scan, as a fold over what it read -----

  function Folded(h: u64, es: seq<Event>, n: nat): Scan
    requires n <= |es|
  {
    if n == 0 then Fresh else Handle(h, Folded(h, es, n - 1), es[n - 1])
  }

  /** The state of a worker that has read n events and not met C_h. */
  function Shape(h: u64, es: seq<Event>, n: nat): Scan
    requires n <= |es|
  {
    var f, p := FirstPrepare(h, es, n), FinalPrepare(h, es, n);
    if p < 0 then Scan(CommittedBefore(es, h, n), [], None, None)
    else Scan(CommittedBefore(es, h, f) + TouchedIn(es, h, f, p), Others(es, h, p + 1, n), Some(At(es[p])), None)
  }

  lemma ShapeStep(h: u64, es: seq<Event>, n: nat)
    requires n < |es| && !IsCommitOf(es[n], h)
    ensures Handle(h, Shape(h, es, n), es[n]) == Shape(h, es, n + 1)
  {
    var f, p := FirstPrepare(h, es, n), FinalPrepare(h, es, n);
    if IsPrepareOf(es[n], h) {
      assert FinalPrepare(h, es, n + 1) == n;
      if p < 0 {
        assert f == n == FirstPrepare(h, es, n + 1);
        assert CommittedBefore(es, h, n) + TouchedIn(es, h, n, n) == CommittedBefore(es, h, n);
      } else {
        OthersTouched(es, h, p + 1, n);
        TouchedJoins(es, h, f, p, n);
        var A := CommittedBefore(es, h, f);
        assert (A + TouchedIn(es, h, f, p)) + TouchedIn(es, h, p + 1, n) == A + TouchedIn(es, h, f, n);
      }
    } else if p < 0 {
      CommittedGrows(es, h, n);
    }
  }

  lemma TouchedJoins(es: seq<Event>, h: u64, f: nat, p: nat, n: nat)
    requires f <= p < n <= |es| && es[p].xid == h
    ensures TouchedIn(es, h, f, p) + TouchedIn(es, h, p + 1, n) == TouchedIn(es, h, f, n)
  {
  }

  lemma CommittedGrows(es: seq<Event>, h: u64, n: nat)
    requires n < |es|
    ensures CommittedBefore(es, h, n + 1)
         == CommittedBefore(es, h, n) + if es[n].typ.Commit? && es[n].xid != h then {es[n].xid} else {}
  {
  }

  lemma FoldStep(h: u64, es: seq<Event>, n: nat)
    requires n < |es|
    ensures Folded(h, es, n + 1) == Handle(h, Folded(h, es, n), es[n])
  {
  }

  lemma {:induction false} FoldHasShape(h: u64, es: seq<Event>, n: nat)
    requires n <= |es| && forall i :: 0 <= i < n ==> !IsCommitOf(es[i], h)
    ensures Folded(h, es, n) == Shape(h, es, n)
  {
    if n > 0 {
      FoldHasShape(h, es, n - 1);
      FoldStep(h, es, n - 1);
      ShapeStep(h, es, n - 1);
    }
  }

  lemma {:induction false} ScanIsFold(h: u64, es: seq<Event>, k: nat)
    requires k <= |es|
    ensures var c := FirstCommit(h, es, k);
            ScanFrom(h, Folded(h, es, k), es, k) == Folded(h, es, if c < |es| then c + 1 else c)
    decreases |es| - k
  {
    if k < |es| && !IsCommitOf(es[k], h) {
      ScanIsFold(h, es, k + 1);
    }
  }

  /** A stream counts as complete exactly when it has marks, and then its scan is what the marks say. */
  lemma ScanByMarks(h: u64, src: Source)
    ensures Complete(ScanOf(h, src)) <==> HasMarks(src.events, h)
    ensures HasMarks(src.events, h) ==>
              var m := MarksOf(src.events, h);
              ScanOf(h, src) == Scan(SeedOf(src.events, h), WindowOf(src.events, h),
                                     Some(At(src.events[m.prepare])), Some(At(src.events[m.commit])))
  {
    var es := src.events;
    var c := FirstCommit(h, es, 0);
    ScanIsFold(h, es, 0);
    FoldHasShape(h, es, c);
  }
}
