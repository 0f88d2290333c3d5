/**
 Seeking a consistent point over named streams (pkg/binlogtool/algo/seek_consistent_point.go):
 the two stages put together, and what their answer is in terms of the logs alone.
 */
module SeekConsistentPoint {
  import opened Bytes
  import opened Wrappers
  import opened TxEvents
  import opened StageOne
  import opened StageTwo
  import opened StreamMarks

  type Logs = map<Name, seq<Event>>

  /** Every stream has P_h before its first C_h. */
  ghost predicate Marked(logs: Logs, h: u64) {
    forall n :: n in logs ==> HasMarks(logs[n], h)
  }

  ghost function Seed(logs: Logs, h: u64): set<u64>
    requires Marked(logs, h)
  {
    set n, x | n in logs && x in SeedOf(logs[n], h) :: x
  }

  ghost function Windows(logs: Logs, h: u64): set<Window>
    requires Marked(logs, h)
  {
    set n | n in logs :: WindowOf(logs[n], h)
  }

  /** The recoverable transactions, the heartbeat aside. */
  ghost function Recoverable(logs: Logs, h: u64): set<u64>
    requires Marked(logs, h)
  {
    Closure(Seed(logs, h), Windows(logs, h))
  }

  /** Where a stream is cut, given the recoverable transactions R. */
  function CutOf(es: seq<Event>, h: u64, R: set<u64>): EventOffset
    requires HasMarks(es, h)
  {
    BorderOffset(WindowOf(es, h), R, At(es[MarksOf(es, h).prepare]))
  }

  datatype ConsistentPoint = ConsistentPoint(txs: seq<u64>, borders: map<Name, EventOffset>)

  /** The transactions R and the heartbeat, and for every stream its cut by R. */
  ghost predicate IsPointFor(logs: Logs, h: u64, R: set<u64>, cp: ConsistentPoint) {
    && Marked(logs, h)
    && Distinct(cp.txs)
    && (forall x :: x in cp.txs <==> x in R + {h})
    && cp.borders.Keys == logs.Keys
    && (forall n :: n in logs ==> cp.borders[n] == CutOf(logs[n], h, R))
  }

  ghost predicate IsConsistentPoint(logs: Logs, h: u64, cp: ConsistentPoint) {
    Marked(logs, h) && IsPointFor(logs, h, Recoverable(logs, h), cp)
  }

  ghost function LogsOf(parsers: map<Name, Source>): Logs {
    map n | n in parsers :: parsers[n].events
  }

  predicate Distinct<T(==)>(s: seq<T>) {
    forall i, j :: 0 <= i < j < |s| ==> s[i] != s[j]
  }

  /** The keys of a map, in any order: numbers the streams, and lists the transactions. */
  method MapKeys<T(==)>(xs: set<T>) returns (keys: seq<T>)
    ensures Distinct(keys)
    ensures forall i :: 0 <= i < |keys| ==> keys[i] in xs
    ensures forall x :: x in xs ==> x in keys
  {
    keys := [];
    var left := xs;
    while left != {}
      invariant left <= xs && Distinct(keys)
      invariant forall i :: 0 <= i < |keys| ==> keys[i] in xs && keys[i] !in left
      invariant forall x :: x in xs && x !in left ==> x in keys
    {
      var x :| x in left;
      keys := keys + [x];
      left := left - {x};
    }
  }

  ghost predicate Enumerates(order: seq<Name>, parsers: map<Name, Source>, srcs: seq<Source>) {
    && (forall n :: n in parsers ==> n in order)
    && |srcs| == |order|
    && forall k :: 0 <= k < |order| ==> order[k] in parsers && srcs[k] == parsers[order[k]]
  }

  /** A stream with marks never fails, so stage one succeeds exactly on marked logs. */
  lemma CollectedIffMarked(parsers: map<Name, Source>, h: u64, order: seq<Name>, srcs: seq<Source>, r: Outcome)
    requires Enumerates(order, parsers, srcs) && Correct(srcs, h, r)
    ensures r.Collected? <==> Marked(LogsOf(parsers), h)
    ensures r.Collected? ==> r == Conclude(Sequential(srcs, h)) && |r.between| == |r.prepareAt| == |order|
  {
    var logs := LogsOf(parsers);
    if Marked(logs, h) {
      forall k | 0 <= k < |srcs| ensures !Fails(h, srcs[k]) && Complete(ScanOf(h, srcs[k])) {
        assert HasMarks(logs[order[k]], h);
        ScanByMarks(h, srcs[k]);
        var m := MarksOf(srcs[k].events, h);
        assert IsCommitOf(srcs[k].events[m.commit], h);
      }
    } else {
      var n :| n in logs && !HasMarks(logs[n], h);
      var k :| 0 <= k < |order| && order[k] == n;
      ScanByMarks(h, srcs[k]);
      assert !Complete(Sequential(srcs, h).workers[k].scan);
    }
  }

  /** What stage one collects of stream k. */
  lemma CollectedOfStream(parsers: map<Name, Source>, h: u64, order: seq<Name>, srcs: seq<Source>, k: nat)
    requires Enumerates(order, parsers, srcs) && Marked(LogsOf(parsers), h) && k < |order|
    ensures var es := LogsOf(parsers)[order[k]];
            && HasMarks(es, h)
            && Complete(ScanOf(h, srcs[k]))
            && ScanOf(h, srcs[k]).recoverable == SeedOf(es, h)
            && ScanOf(h, srcs[k]).between == WindowOf(es, h)
            && ScanOf(h, srcs[k]).prepareAt.value == At(es[MarksOf(es, h).prepare])
  {
    assert HasMarks(LogsOf(parsers)[order[k]], h);
    ScanByMarks(h, srcs[k]);
  }

  lemma CollectedSeed(parsers: map<Name, Source>, h: u64, order: seq<Name>, srcs: seq<Source>)
    requires Enumerates(order, parsers, srcs) && Marked(LogsOf(parsers), h)
    ensures Sequential(srcs, h).recoverable == Seed(LogsOf(parsers), h)
  {
    var logs, R := LogsOf(parsers), Sequential(srcs, h).recoverable;
    forall x ensures x in R <==> x in Seed(logs, h) {
      if x in R {
        var k :| 0 <= k < |srcs| && x in ScanOf(h, srcs[k]).recoverable;
        CollectedOfStream(parsers, h, order, srcs, k);
        assert order[k] in logs;
      }
      if x in Seed(logs, h) {
        var n :| n in logs && x in SeedOf(logs[n], h);
        var k :| 0 <= k < |order| && order[k] == n;
        CollectedOfStream(parsers, h, order, srcs, k);
      }
    }
  }

  lemma CollectedWindows(parsers: map<Name, Source>, h: u64, order: seq<Name>, srcs: seq<Source>)
    requires Enumerates(order, parsers, srcs) && Marked(LogsOf(parsers), h)
    ensures WindowSet(Sequential(srcs, h).between) == Windows(LogsOf(parsers), h)
  {
    var logs, wins := LogsOf(parsers), Sequential(srcs, h).between;
    forall k | 0 <= k < |order|
      ensures wins[k] == WindowOf(logs[order[k]], h) && wins[k] in Windows(logs, h)
    {
      CollectedOfStream(parsers, h, order, srcs, k);
      assert order[k] in logs;
    }
    forall n | n in logs ensures WindowOf(logs[n], h) in WindowSet(wins) {
      var k :| 0 <= k < |order| && order[k] == n;
      assert wins[k] in WindowSet(wins);
    }
  }

  /** Gives each stream its cut by name. */
  method NameBorders(order: seq<Name>, cuts: seq<EventOffset>) returns (borders: map<Name, EventOffset>)
    requires |order| == |cuts| && Distinct(order)
    ensures forall n :: n in borders <==> n in order
    ensures forall k :: 0 <= k < |order| ==> borders[order[k]] == cuts[k]
  {
    borders := map[];
    for k := 0 to |order|
      invariant forall n :: n in borders <==> n in order[..k]
      invariant forall j :: 0 <= j < k ==> order[j] in borders && borders[order[j]] == cuts[j]
    {
      borders := borders[order[k] := cuts[k]];
    }
    assert order[..|order|] == order;
  }

  /** The cut computed for stream k of a numbering is the cut of the stream it numbers. */
  lemma CutOfStream(parsers: map<Name, Source>, h: u64, order: seq<Name>, srcs: seq<Source>, r: Outcome, k: nat)
    requires Enumerates(order, parsers, srcs) && Marked(LogsOf(parsers), h) && k < |order|
    requires r.Collected? && r == Conclude(Sequential(srcs, h))
    ensures |r.between| == |r.prepareAt| == |order| && order[k] in LogsOf(parsers)
    ensures BorderOffset(r.between[k], Closure(r.recoverable, WindowSet(r.between)), r.prepareAt[k])
         == CutOf(LogsOf(parsers)[order[k]], h, Recoverable(LogsOf(parsers), h))
  {
    CollectedSeed(parsers, h, order, srcs);
    CollectedWindows(parsers, h, order, srcs);
    CollectedOfStream(parsers, h, order, srcs, k);
  }

  /** The two stages over one numbering of the streams. */
  method Stages(ghost parsers: map<Name, Source>, order: seq<Name>, srcs: seq<Source>, h: u64)
    returns (r: Result<(set<u64>, seq<EventOffset>), Outcome>)
    requires Enumerates(order, parsers, srcs)
    ensures r.Ok? <==> Marked(LogsOf(parsers), h)
    ensures r.Ok? ==>
              && r.value.0 == Recoverable(LogsOf(parsers), h) + {h}
              && |r.value.1| == |order|
              && forall k :: 0 <= k < |order| ==>
                   order[k] in LogsOf(parsers) &&
                       r.value.1[k] == CutOf(LogsOf(parsers)[order[k]], h, Recoverable(LogsOf(parsers), h))
  {
    var collected := StageOne.StageOne(srcs, h);
    CollectedIffMarked(parsers, h, order, srcs, collected);
    if !collected.Collected? {
      return Err(collected);
    }
    var txs, cuts := StageTwo.StageTwo(h, collected.recoverable, collected.prepareAt, collected.between);
    forall k | 0 <= k < |order|
      ensures order[k] in LogsOf(parsers) &&
              cuts[k] == CutOf(LogsOf(parsers)[order[k]], h, Recoverable(LogsOf(parsers), h))
    {
      CutOfStream(parsers, h, order, srcs, collected, k);
    }
    CollectedSeed(parsers, h, order, srcs);
    CollectedWindows(parsers, h, order, srcs);
    r := Ok((txs, cuts));
  }

  lemma NamedAnswer(logs: Logs, h: u64, R: set<u64>, order: seq<Name>, cuts: seq<EventOffset>, cp: ConsistentPoint)
    requires Marked(logs, h)
    requires Distinct(cp.txs) && (forall i :: 0 <= i < |cp.txs| ==> cp.txs[i] in R + {h}) &&
             forall x :: x in R + {h} ==> x in cp.txs
    requires |cuts| == |order| && (forall n :: n in cp.borders <==> n in order)
    requires forall n :: n in logs ==> n in order
    requires forall k :: 0 <= k < |order| ==>
               order[k] in logs && cuts[k] == CutOf(logs[order[k]], h, R) && cp.borders[order[k]] == cuts[k]
    ensures IsPointFor(logs, h, R, cp)
  {
    assert cp.borders.Keys == logs.Keys;
  }

  /**
   Both stages, for any numbering of the streams, any interleaving of the workers and any
   visiting order. It succeeds exactly when every stream was read through to its own C_h with
   a P_h before it, and its answer is then a function of the logs.
   */
  method Perform(parsers: map<Name, Source>, h: u64) returns (r: Result<ConsistentPoint, Outcome>)
    ensures r.Ok? <==> Marked(LogsOf(parsers), h)
    ensures r.Ok? ==> IsConsistentPoint(LogsOf(parsers), h, r.value)
  {
    var order := MapKeys(parsers.Keys);
    var srcs := seq(|order|, k requires 0 <= k < |order| => parsers[order[k]]);
    var answer := Stages(parsers, order, srcs, h);
    if answer.Err? {
      return Err(answer.error);
    }
    var borders := NameBorders(order, answer.value.1);
    var keys := MapKeys(answer.value.0);
    r := Ok(ConsistentPoint(keys, borders));
    NamedAnswer(LogsOf(parsers), h, Recoverable(LogsOf(parsers), h), order, answer.value.1, r.value);
  }

  lemma {:induction false} DistinctCounts(s: seq<u64>)
    requires Distinct(s)
    ensures forall x :: multiset(s)[x] == if x in s then 1 else 0
  {
    if s != [] {
      var init := s[..|s| - 1];
      assert s == init + [s[|s| - 1]];
      DistinctCounts(init);
    }
  }

  lemma SameElements(s: seq<u64>, t: seq<u64>, xs: set<u64>)
    requires Distinct(s) && Distinct(t)
    requires (forall x :: x in s <==> x in xs) && (forall x :: x in t <==> x in xs)
    ensures multiset(s) == multiset(t)
  {
    DistinctCounts(s);
    DistinctCounts(t);
  }

  lemma PointIsUnique(logs: Logs, h: u64, R: set<u64>, cp: ConsistentPoint, cp': ConsistentPoint)
    requires IsPointFor(logs, h, R, cp) && IsPointFor(logs, h, R, cp')
    ensures multiset(cp.txs) == multiset(cp'.txs) && cp.borders == cp'.borders
  {
    SameElements(cp.txs, cp'.txs, R + {h});
  }

  /** The answer is the same whatever the numbering, interleaving or visiting order was. */
  lemma AnswerIsUnique(logs: Logs, h: u64, cp: ConsistentPoint, cp': ConsistentPoint)
    requires IsConsistentPoint(logs, h, cp) && IsConsistentPoint(logs, h, cp')
    ensures multiset(cp.txs) == multiset(cp'.txs) && cp.borders == cp'.borders
  {
    PointIsUnique(logs, h, Recoverable(logs, h), cp, cp');
  }

  lemma {:induction false} Enumerated(S: set<u64>) returns (q: seq<u64>)
    ensures Distinct(q) && forall x :: x in q <==> x in S
  {
    q := [];
    if S != {} {
      var x :| x in S;
      var rest := Enumerated(S - {x});
      q := rest + [x];
    }
  }

  /** Streams that all have the heartbeat have a consistent point. */
  lemma PointExists(logs: Logs, h: u64) returns (cp: ConsistentPoint)
    requires Marked(logs, h)
    ensures IsConsistentPoint(logs, h, cp)
  {
    var R := Recoverable(logs, h);
    var txs := Enumerated(R + {h});
    cp := ConsistentPoint(txs, map n | n in logs :: CutOf(logs[n], h, R));
  }
}
