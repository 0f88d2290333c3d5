/**
 Stage one of seeking a consistent point (pkg/binlogtool/algo/seek_consistent_point.go):
 one worker per stream reads events until it meets the heartbeat's commit, then merges what
 it collected into shared state. A worker that sees another one fail stops early.
 */
module StageOne {
  import opened Bytes
  import opened Wrappers
  import opened TxEvents

  /** A parser: it hands out `events` in order, then ends, with an error if `failure` is one. */
  datatype Source = Source(events: seq<Event>, failure: Option<Name>)

  /** What a worker knows of its own stream. */
  datatype Scan = Scan(
    recoverable: set<u64>, between: seq<Event>,
    prepareAt: Option<EventOffset>, commitAt: Option<EventOffset>)

  const Fresh := Scan({}, [], None, None)

  predicate IsPrepareOf(ev: Event, x: u64) { ev.typ.Prepare? && ev.xid == x }

  predicate IsCommitOf(ev: Event, x: u64) { ev.typ.Commit? && ev.xid == x }

  /** The handler of one event; the heartbeat's commit also stops the parser. */
  function Handle(h: u64, l: Scan, ev: Event): Scan {
    if ev.xid == h then
      match ev.typ
      case Prepare =>
        if l.prepareAt.Some? then
          Scan(l.recoverable + XidsIn(l.between), [], Some(At(ev)), l.commitAt)
        else l.(prepareAt := Some(At(ev)))
      case Commit => l.(commitAt := Some(At(ev)))
      case _ => l
    else if l.prepareAt.None? then
      if ev.typ.Commit? then l.(recoverable := l.recoverable + {ev.xid}) else l
    else l.(between := l.between + [ev])
  }

  /** Reads a stream alone from event k on, up to and including the heartbeat's commit. */
  function ScanFrom(h: u64, l: Scan, es: seq<Event>, k: nat): Scan
    requires k <= |es|
    decreases |es| - k
  {
    if k == |es| then l
    else if IsCommitOf(es[k], h) then Handle(h, l, es[k])
    else ScanFrom(h, Handle(h, l, es[k]), es, k + 1)
  }

  function ScanOf(h: u64, src: Source): Scan { ScanFrom(h, Fresh, src.events, 0) }

  predicate MeetsCommit(h: u64, es: seq<Event>) {
    exists i :: 0 <= i < |es| && IsCommitOf(es[i], h)
  }

  /** Reading the stream alone ends in an error. */
  predicate Fails(h: u64, src: Source) {
    !MeetsCommit(h, src.events) && src.failure.Some?
  }

  // ----- the workers as a state machine -----

  datatype Phase = Parsing(pos: nat) | Parsed | Failed | Merged

  datatype Worker = Worker(phase: Phase, scan: Scan)

  datatype State = State(
    workers: seq<Worker>, errOccurred: nat, scanErrs: seq<Option<Name>>,
    recoverable: set<u64>, between: seq<seq<Event>>)

  function Init(n: nat): State {
    State(seq(n, _ => Worker(Parsing(0), Fresh)), 0, seq(n, _ => None), {}, seq(n, _ => []))
  }

  predicate Shaped(srcs: seq<Source>, g: State) {
    |g.workers| == |g.scanErrs| == |g.between| == |srcs|
  }

  predicate Finished(w: Worker) { w.phase.Failed? || w.phase.Merged? }

  predicate AllFinished(g: State) {
    forall i :: 0 <= i < |g.workers| ==> Finished(g.workers[i])
  }

  /** Worker i moves: it handles one event, ends its parse, or merges under the lock. */
  function Step(srcs: seq<Source>, h: u64, g: State, i: nat): State
    requires Shaped(srcs, g) && i < |srcs|
  {
    var w := g.workers[i];
    match w.phase
    case Parsing(pos) =>
      if pos < |srcs[i].events| then
        var ev := srcs[i].events[pos];
        if g.errOccurred > 0 then g.(workers := g.workers[i := w.(phase := Parsed)])
        else if IsCommitOf(ev, h) then g.(workers := g.workers[i := Worker(Parsed, Handle(h, w.scan, ev))])
        else g.(workers := g.workers[i := Worker(Parsing(pos + 1), Handle(h, w.scan, ev))])
      else if srcs[i].failure.Some? then
        g.(workers := g.workers[i := w.(phase := Failed)],
           errOccurred := g.errOccurred + 1,
           scanErrs := g.scanErrs[i := srcs[i].failure])
      else g.(workers := g.workers[i := w.(phase := Parsed)])
    case Parsed =>
      g.(workers := g.workers[i := w.(phase := Merged)],
         recoverable := g.recoverable + w.scan.recoverable,
         between := g.between[i := w.scan.between])
    case _ => g
  }

  function Run(srcs: seq<Source>, h: u64, g: State, schedule: seq<nat>): (g': State)
    requires Shaped(srcs, g) && forall k :: 0 <= k < |schedule| ==> schedule[k] < |srcs|
    ensures Shaped(srcs, g')
    decreases |schedule|
  {
    if schedule == [] then g
    else Run(srcs, h, Step(srcs, h, g, schedule[0]), schedule[1..])
  }

  // ----- what the caller of stage one sees -----

  datatype Outcome =
    | ScanFailed(errs: seq<Option<Name>>)
    | NotFound(noPrepare: set<nat>, noCommit: set<nat>)
    | Collected(recoverable: set<u64>, prepareAt: seq<EventOffset>, commitAt: seq<EventOffset>,
                between: seq<seq<Event>>)

  predicate Complete(l: Scan) { l.prepareAt.Some? && l.commitAt.Some? }

  /** The checks after all workers are done. */
  function Conclude(g: State): Outcome
    requires |g.between| == |g.workers|
  {
    var ws := g.workers;
    if g.errOccurred > 0 then ScanFailed(g.scanErrs)
    else if forall i :: 0 <= i < |ws| ==> Complete(ws[i].scan) then
      Collected(g.recoverable,
                seq(|ws|, i requires 0 <= i < |ws| && Complete(ws[i].scan) => ws[i].scan.prepareAt.value),
                seq(|ws|, i requires 0 <= i < |ws| && Complete(ws[i].scan) => ws[i].scan.commitAt.value),
                g.between)
    else
      NotFound(set i | 0 <= i < |ws| && ws[i].scan.prepareAt.None?,
               set i | 0 <= i < |ws| && ws[i].scan.prepareAt.Some? && ws[i].scan.commitAt.None?)
  }

  /** The state in which every stream has been read alone and merged. */
  function Sequential(srcs: seq<Source>, h: u64): State {
    State(
      seq(|srcs|, i requires 0 <= i < |srcs| => Worker(Merged, ScanOf(h, srcs[i]))),
      0,
      seq(|srcs|, _ => None),
      set i, x | 0 <= i < |srcs| && x in ScanOf(h, srcs[i]).recoverable :: x,
      seq(|srcs|, i requires 0 <= i < |srcs| => ScanOf(h, srcs[i]).between))
  }

  // ----- invariant -----

  ghost predicate WorkerInv(srcs: seq<Source>, h: u64, g: State, i: nat)
    requires Shaped(srcs, g) && i < |srcs|
  {
    var w, es := g.workers[i], srcs[i].events;
    match w.phase
    case Parsing(pos) =>
      && pos <= |es|
      && (forall k :: 0 <= k < pos ==> !IsCommitOf(es[k], h))
      && ScanFrom(h, w.scan, es, pos) == ScanOf(h, srcs[i])
    case Failed => g.errOccurred > 0 && Fails(h, srcs[i]) && g.scanErrs[i] == srcs[i].failure
    case _ => g.errOccurred == 0 ==> w.scan == ScanOf(h, srcs[i]) && !Fails(h, srcs[i])
  }

  ghost function MergedTxs(g: State): set<u64> {
    set i, x | 0 <= i < |g.workers| && g.workers[i].phase.Merged? && x in g.workers[i].scan.recoverable :: x
  }

  ghost predicate Inv(srcs: seq<Source>, h: u64, g: State) {
    && Shaped(srcs, g)
    && (forall i :: 0 <= i < |srcs| ==> WorkerInv(srcs, h, g, i))
    && (forall i :: 0 <= i < |srcs| ==> (g.scanErrs[i].Some? <==> g.workers[i].phase.Failed?))
    && (forall i :: 0 <= i < |srcs| && g.workers[i].phase.Merged? ==> g.between[i] == g.workers[i].scan.between)
    && g.recoverable == MergedTxs(g)
    && (g.errOccurred > 0 ==> exists i :: 0 <= i < |srcs| && g.workers[i].phase.Failed?)
  }

  lemma InitInv(srcs: seq<Source>, h: u64)
    ensures Inv(srcs, h, Init(|srcs|))
  {
  }

  /** Only worker i and the global fields change, and errors never go away. */
  lemma StepFrame(srcs: seq<Source>, h: u64, g: State, i: nat, k: nat)
    requires Shaped(srcs, g) && i < |srcs| && k < |srcs| && k != i && WorkerInv(srcs, h, g, k)
    ensures WorkerInv(srcs, h, Step(srcs, h, g, i), k)
  {
  }

  lemma StepOwn(srcs: seq<Source>, h: u64, g: State, i: nat)
    requires Shaped(srcs, g) && i < |srcs| && WorkerInv(srcs, h, g, i)
    ensures WorkerInv(srcs, h, Step(srcs, h, g, i), i)
  {
  }

  lemma StepInv(srcs: seq<Source>, h: u64, g: State, i: nat)
    requires Inv(srcs, h, g) && i < |srcs|
    ensures Inv(srcs, h, Step(srcs, h, g, i))
  {
    var g' := Step(srcs, h, g, i);
    StepOwn(srcs, h, g, i);
    forall k | 0 <= k < |srcs| && k != i ensures WorkerInv(srcs, h, g', k) {
      StepFrame(srcs, h, g, i, k);
    }
    assert g'.recoverable == MergedTxs(g') by {
      forall x ensures x in g'.recoverable <==> x in MergedTxs(g') {
        if x in g'.recoverable && x in g.recoverable {
          var k :| 0 <= k < |g.workers| && g.workers[k].phase.Merged? && x in g.workers[k].scan.recoverable;
          assert g'.workers[k] == g.workers[k];
        } else if x in g'.recoverable {
          assert g'.workers[i].phase.Merged?;
        }
      }
    }
    if g'.errOccurred > 0 && g.errOccurred > 0 {
      var k :| 0 <= k < |srcs| && g.workers[k].phase.Failed?;
      assert g'.workers[k].phase.Failed?;
    } else if g'.errOccurred > 0 {
      assert g'.workers[i].phase.Failed?;
    }
  }

  lemma {:induction false} RunInv(srcs: seq<Source>, h: u64, g: State, schedule: seq<nat>)
    requires Inv(srcs, h, g) && forall k :: 0 <= k < |schedule| ==> schedule[k] < |srcs|
    ensures Inv(srcs, h, Run(srcs, h, g, schedule))
    decreases |schedule|
  {
    if schedule != [] {
      StepInv(srcs, h, g, schedule[0]);
      RunInv(srcs, h, Step(srcs, h, g, schedule[0]), schedule[1..]);
    }
  }

  /** What any finished state concludes. */
  ghost predicate Correct(srcs: seq<Source>, h: u64, r: Outcome) {
    if exists i :: 0 <= i < |srcs| && Fails(h, srcs[i]) then
      && r.ScanFailed? && |r.errs| == |srcs|
      && (exists i :: 0 <= i < |srcs| && r.errs[i].Some?)
      && (forall i :: 0 <= i < |srcs| && r.errs[i].Some? ==> Fails(h, srcs[i]) && r.errs[i] == srcs[i].failure)
    else
      r == Conclude(Sequential(srcs, h))
  }

  lemma FinishedIsCorrect(srcs: seq<Source>, h: u64, g: State)
    requires Inv(srcs, h, g) && AllFinished(g)
    ensures Correct(srcs, h, Conclude(g))
  {
    if g.errOccurred > 0 {
      var i :| 0 <= i < |srcs| && g.workers[i].phase.Failed?;
      assert WorkerInv(srcs, h, g, i);
      forall k | 0 <= k < |srcs| && g.scanErrs[k].Some?
        ensures Fails(h, srcs[k]) && g.scanErrs[k] == srcs[k].failure
      {
        assert WorkerInv(srcs, h, g, k);
      }
    } else {
      forall i | 0 <= i < |srcs|
        ensures !Fails(h, srcs[i]) && g.workers[i] == Worker(Merged, ScanOf(h, srcs[i]))
        ensures g.scanErrs[i].None?
      {
        assert WorkerInv(srcs, h, g, i) && Finished(g.workers[i]);
      }
      var q := Sequential(srcs, h);
      assert g.workers == q.workers;
      assert g.scanErrs == q.scanErrs;
      assert g.between == q.between;
      assert g.recoverable == q.recoverable;
    }
  }

  /**
   Every interleaving of the workers that ends concludes the same: an error exactly when some
   stream fails on its own, and otherwise what reading the streams one after another gives.
   */
  lemma EveryScheduleIsCorrect(srcs: seq<Source>, h: u64, schedule: seq<nat>)
    requires forall k :: 0 <= k < |schedule| ==> schedule[k] < |srcs|
    requires AllFinished(Run(srcs, h, Init(|srcs|), schedule))
    ensures Correct(srcs, h, Conclude(Run(srcs, h, Init(|srcs|), schedule)))
  {
    InitInv(srcs, h);
    RunInv(srcs, h, Init(|srcs|), schedule);
    FinishedIsCorrect(srcs, h, Run(srcs, h, Init(|srcs|), schedule));
  }

  // ----- termination -----

  function Remaining(src: Source, w: Worker): nat {
    match w.phase
    case Parsing(pos) => if pos <= |src.events| then |src.events| - pos + 2 else 2
    case Parsed => 1
    case _ => 0
  }

  function Work(srcs: seq<Source>, ws: seq<Worker>): nat
    requires |srcs| == |ws|
  {
    if srcs == [] then 0 else Remaining(srcs[0], ws[0]) + Work(srcs[1..], ws[1..])
  }

  lemma {:induction false} WorkDrops(srcs: seq<Source>, ws: seq<Worker>, i: nat, w: Worker)
    requires |srcs| == |ws| && i < |srcs| && Remaining(srcs[i], w) < Remaining(srcs[i], ws[i])
    ensures Work(srcs, ws[i := w]) < Work(srcs, ws)
  {
    if i == 0 {
      assert ws[i := w][1..] == ws[1..];
    } else {
      assert ws[i := w][1..] == ws[1..][i - 1 := w];
      WorkDrops(srcs[1..], ws[1..], i - 1, w);
    }
  }

  /** The handler, moving the recorded transactions one by one when P_h moves ahead. */
  method OnEvent(h: u64, l: Scan, ev: Event) returns (l': Scan, stop: bool)
    ensures l' == Handle(h, l, ev)
    ensures stop <==> IsCommitOf(ev, h)
  {
    l', stop := l, false;
    if ev.xid == h {
      if ev.typ.Prepare? {
        if l.prepareAt.Some? {
          var txs := l.recoverable;
          for k := 0 to |l.between|
            invariant txs == l.recoverable + XidsIn(l.between[..k])
          {
            txs := txs + {l.between[k].xid};
            assert XidsIn(l.between[..k + 1]) == XidsIn(l.between[..k]) + {l.between[k].xid} by {
              assert forall j :: 0 <= j < k ==> l.between[..k + 1][j] == l.between[..k][j];
              assert l.between[..k + 1][k] == l.between[k];
            }
          }
          assert l.between[..|l.between|] == l.between;
          l' := l'.(recoverable := txs, between := []);
        }
        l' := l'.(prepareAt := Some(At(ev)));
      }
      if ev.typ.Commit? {
        l', stop := l'.(commitAt := Some(At(ev))), true;
      }
    } else if l.prepareAt.None? {
      if ev.typ.Commit? {
        l' := l'.(recoverable := l.recoverable + {ev.xid});
      }
    } else {
      l' := l'.(between := l.between + [ev]);
    }
  }

  /** One move of worker i. */
  method Move(srcs: seq<Source>, h: u64, g: State, i: nat) returns (next: State)
    requires Shaped(srcs, g) && i < |srcs|
    ensures next == Step(srcs, h, g, i)
  {
    var w := g.workers[i];
    match w.phase {
      case Parsing(pos) =>
        if pos < |srcs[i].events| {
          if g.errOccurred > 0 {
            return g.(workers := g.workers[i := w.(phase := Parsed)]);
          }
          var scan, stop := OnEvent(h, w.scan, srcs[i].events[pos]);
          return g.(workers := g.workers[i := Worker(if stop then Parsed else Parsing(pos + 1), scan)]);
        }
        if srcs[i].failure.Some? {
          return g.(workers := g.workers[i := w.(phase := Failed)],
                    errOccurred := g.errOccurred + 1,
                    scanErrs := g.scanErrs[i := srcs[i].failure]);
        }
        next := g.(workers := g.workers[i := w.(phase := Parsed)]);
      case Parsed =>
        next := g.(workers := g.workers[i := w.(phase := Merged)],
                   recoverable := g.recoverable + w.scan.recoverable,
                   between := g.between[i := w.scan.between]);
      case _ => next := g;
    }
  }

  /** Runs the workers, any unfinished one moving next, until all are done. */
  method StageOne(srcs: seq<Source>, h: u64) returns (r: Outcome)
    ensures Correct(srcs, h, r)
  {
    var g := Init(|srcs|);
    InitInv(srcs, h);
    while !AllFinished(g)
      invariant Inv(srcs, h, g)
      decreases Work(srcs, g.workers)
    {
      var i :| 0 <= i < |srcs| && !Finished(g.workers[i]);
      StepInv(srcs, h, g, i);
      assert WorkerInv(srcs, h, g, i);
      var next := Move(srcs, h, g, i);
      assert next.workers == g.workers[i := next.workers[i]];
      WorkDrops(srcs, g.workers, i, next.workers[i]);
      g := next;
    }
    FinishedIsCorrect(srcs, h, g);
    r := Conclude(g);
  }
}
