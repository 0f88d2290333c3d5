/**
 Stage two of seeking a consistent point (pkg/binlogtool/algo/seek_consistent_point.go).

 Each stream contributes a window: its events between the heartbeat's prepare and the
 heartbeat's commit. A seed of recoverable transactions grows until no window commits, at
 or before a recoverable prepare, a transaction that is not recoverable.
 */
module StageTwo {
  import opened Bytes
  import opened TxEvents

  type Window = seq<Event>

  predicate RecoverablePrepare(ev: Event, R: set<u64>) {
    ev.typ.Prepare? && ev.xid in R
  }

  /** Index of the last recoverable prepare of a window, -1 when there is none. */
  function LastPrepare(w: Window, R: set<u64>): (b: int)
    ensures -1 <= b < |w|
    ensures b >= 0 ==> RecoverablePrepare(w[b], R)
    ensures forall j :: b < j < |w| ==> !RecoverablePrepare(w[j], R)
  {
    if w == [] then -1
    else if RecoverablePrepare(w[|w| - 1], R) then |w| - 1
    else LastPrepare(w[..|w| - 1], R)
  }

  /** S is causally closed on w: what commits before a prepare of S is in S. */
  ghost predicate ClosedOn(S: set<u64>, w: Window) {
    forall i, j :: 0 <= i < j < |w| && w[i].typ.Commit? && RecoverablePrepare(w[j], S) ==> w[i].xid in S
  }

  ghost predicate Closed(S: set<u64>, ws: set<Window>) {
    forall w: Window :: w in ws ==> ClosedOn(S, w)
  }

  /** R is contained in every closed set above the seed. */
  ghost predicate BelowAllClosed(R: set<u64>, seed: set<u64>, ws: set<Window>) {
    forall S: set<u64> :: seed <= S && Closed(S, ws) ==> R <= S
  }

  /** R is the least closed set above the seed. */
  ghost predicate LeastClosed(R: set<u64>, seed: set<u64>, ws: set<Window>) {
    seed <= R && Closed(R, ws) && BelowAllClosed(R, seed, ws)
  }

  // ----- reference definition: iterate one causal step over all windows -----

  /** Transactions that commit before some prepare of R in some window. */
  ghost function Forced(R: set<u64>, ws: set<Window>): set<u64> {
    set w: Window, i | w in ws && 0 <= i < |w| && i < LastPrepare(w, R) && w[i].typ.Commit? :: w[i].xid
  }

  ghost function Universe(ws: set<Window>): set<u64> {
    set w: Window, i | w in ws && 0 <= i < |w| :: w[i].xid
  }

  ghost function Closure(R: set<u64>, ws: set<Window>): set<u64>
    decreases Universe(ws) - R
  {
    var F := Forced(R, ws);
    if F <= R then R
    else
      assert Universe(ws) - (R + F) < Universe(ws) - R by { GrowthShrinks(R, ws); }
      Closure(R + F, ws)
  }

  lemma GrowthShrinks(R: set<u64>, ws: set<Window>)
    requires !(Forced(R, ws) <= R)
    ensures Universe(ws) - (R + Forced(R, ws)) < Universe(ws) - R
  {
    var x :| x in Forced(R, ws) && x !in R;
    assert x in Universe(ws) - R;
    assert x !in Universe(ws) - (R + Forced(R, ws));
  }

  /** A commit at or before the last prepare of R is forced into every closed superset of R. */
  lemma ForcedIntoClosed(w: Window, i: nat, R: set<u64>, S: set<u64>)
    requires R <= S && ClosedOn(S, w)
    requires i <= LastPrepare(w, R) && w[i].typ.Commit?
    ensures w[i].xid in S
  {
    var b := LastPrepare(w, R);
    assert RecoverablePrepare(w[b], S);
  }

  lemma ClosedIfNothingForced(R: set<u64>, ws: set<Window>)
    requires Forced(R, ws) <= R
    ensures Closed(R, ws)
  {
    forall w: Window | w in ws ensures ClosedOn(R, w) {
      forall i, j | 0 <= i < j < |w| && w[i].typ.Commit? && RecoverablePrepare(w[j], R)
        ensures w[i].xid in R
      {
        assert j <= LastPrepare(w, R);
        assert w[i].xid in Forced(R, ws);
      }
    }
  }

  lemma {:induction false} ClosureStaysBelow(R: set<u64>, S: set<u64>, ws: set<Window>)
    requires R <= S && Closed(S, ws)
    ensures Closure(R, ws) <= S
    decreases Universe(ws) - R
  {
    var F := Forced(R, ws);
    if !(F <= R) {
      GrowthShrinks(R, ws);
      forall x | x in F ensures x in S {
        var w: Window, i :| w in ws && 0 <= i < |w| && i < LastPrepare(w, R) && w[i].typ.Commit? && w[i].xid == x;
        ForcedIntoClosed(w, i, R, S);
      }
      ClosureStaysBelow(R + F, S, ws);
    }
  }

  lemma {:induction false} ClosureIsClosed(R: set<u64>, ws: set<Window>)
    ensures R <= Closure(R, ws) && Closed(Closure(R, ws), ws)
    decreases Universe(ws) - R
  {
    if Forced(R, ws) <= R {
      ClosedIfNothingForced(R, ws);
    } else {
      GrowthShrinks(R, ws);
      ClosureIsClosed(R + Forced(R, ws), ws);
    }
  }

  /** Iterating causal steps reaches the least closed set. */
  lemma ClosureIsLeast(seed: set<u64>, ws: set<Window>)
    ensures LeastClosed(Closure(seed, ws), seed, ws)
  {
    ClosureIsClosed(seed, ws);
    forall S: set<u64> | seed <= S && Closed(S, ws) ensures Closure(seed, ws) <= S {
      ClosureStaysBelow(seed, S, ws);
    }
  }

  lemma LeastClosedUnique(R: set<u64>, R': set<u64>, seed: set<u64>, ws: set<Window>)
    requires LeastClosed(R, seed, ws) && LeastClosed(R', seed, ws)
    ensures R == R'
  {
    assert R <= R' && R' <= R;
  }

  // ----- the algorithm -----

  /** Last prepare of recoverable transactions in [l, r]; l - 1 when there is none. */
  method ScanEventBorder(l: nat, r: int, R: set<u64>, w: Window) returns (b: int)
    requires l <= r + 1 <= |w|
    ensures l - 1 <= b <= r
    ensures b >= l ==> RecoverablePrepare(w[b], R)
    ensures forall j :: b < j <= r ==> !RecoverablePrepare(w[j], R)
  {
    var i := r;
    while i >= l
      invariant l - 1 <= i <= r
      invariant forall j :: i < j <= r ==> !RecoverablePrepare(w[j], R)
    {
      if RecoverablePrepare(w[i], R) {
        return i;
      }
      i := i - 1;
    }
    return l - 1;
  }

  /** The indices below n, to be visited in any order. */
  function Indices(n: nat): (r: set<nat>)
    ensures forall i: nat :: i in r <==> i < n
  {
    if n == 0 then {} else Indices(n - 1) + {n - 1}
  }

  /** All commits of w before position n belong to R. */
  ghost predicate CommitsCovered(w: Window, n: int, R: set<u64>) {
    forall i :: 0 <= i < n && i < |w| && w[i].typ.Commit? ==> w[i].xid in R
  }

  ghost function WindowSet(wins: seq<Window>): set<Window> {
    set s | 0 <= s < |wins| :: wins[s]
  }

  /** Adds the commits of w[offset..border] to R, scanning backwards. */
  method CollectCommits(w: Window, offset: nat, border: int, R0: set<u64>) returns (R: set<u64>)
    requires border < |w|
    ensures R == R0 + set i | offset <= i <= border && w[i].typ.Commit? :: w[i].xid
  {
    R := R0;
    var i := border;
    while i >= offset
      invariant i <= border
      invariant R == R0 + set k | offset <= k <= border && i < k && w[k].typ.Commit? :: w[k].xid
    {
      if w[i].typ.Commit? && w[i].xid !in R {
        R := R + {w[i].xid};
      }
      i := i - 1;
    }
  }

  /** Collecting up to the border keeps the set below all closed sets. */
  lemma CollectKeepsBelow(w: Window, b: int, R0: set<u64>, R: set<u64>, R': set<u64>, seed: set<u64>, ws: set<Window>)
    requires w in ws && b == LastPrepare(w, R0) && R0 <= R && BelowAllClosed(R, seed, ws)
    requires forall x :: x in R' ==> x in R || exists i :: 0 <= i <= b && w[i].typ.Commit? && w[i].xid == x
    ensures BelowAllClosed(R', seed, ws)
  {
    forall S: set<u64> | seed <= S && Closed(S, ws) ensures R' <= S {
      assert ClosedOn(S, w);
      forall x | x in R' ensures x in S {
        if x !in R {
          var i :| 0 <= i <= b && w[i].typ.Commit? && w[i].xid == x;
          ForcedIntoClosed(w, i, R0, S);
        }
      }
    }
  }

  /** A border that is the last recoverable prepare, with all commits before it covered, closes the window. */
  lemma CoveredIsClosed(w: Window, R: set<u64>)
    requires CommitsCovered(w, LastPrepare(w, R), R)
    ensures ClosedOn(R, w)
  {
  }

  /** The invariant of the iteration at the head of each round. */
  ghost predicate RoundInvariant(wins: seq<Window>, seed: set<u64>, R: set<u64>, borders: array<int>,
                                 offsets: array<int>)
    reads borders, offsets
  {
    && borders != offsets && borders.Length == offsets.Length == |wins|
    && seed <= R
    && BelowAllClosed(R, seed, WindowSet(wins))
    && (forall s :: 0 <= s < |wins| ==> borders[s] == LastPrepare(wins[s], R))
    && (forall s :: 0 <= s < |wins| ==> 0 <= offsets[s] <= borders[s] + 1)
    && (forall s :: 0 <= s < |wins| ==> CommitsCovered(wins[s], offsets[s], R))
  }

  /** Where a stream is cut: at its last recoverable prepare, or at P_h without one. */
  function BorderOffset(w: Window, R: set<u64>, prepareAt: EventOffset): EventOffset {
    var b := LastPrepare(w, R);
    if b < 0 then prepareAt else At(w[b])
  }

  /** Borders of all streams, scanned from index 0. */
  method InitialBorders(wins: seq<Window>, R: set<u64>, borders: array<int>)
    requires borders.Length == |wins|
    modifies borders
    ensures forall s :: 0 <= s < |wins| ==> borders[s] == LastPrepare(wins[s], R)
  {
    var todo := Indices(|wins|);
    while todo != {}
      invariant todo <= Indices(|wins|)
      invariant forall s :: 0 <= s < |wins| && s !in todo ==> borders[s] == LastPrepare(wins[s], R)
    {
      var s :| s in todo;
      borders[s] := ScanEventBorder(0, |wins[s]| - 1, R, wins[s]);
      todo := todo - {s};
    }
  }

  /** One pass over all streams, in any order, adding what commits at or before the borders. */
  method CollectRound(wins: seq<Window>, ghost seed: set<u64>, R0: set<u64>, borders: array<int>, offsets: array<int>)
    returns (R: set<u64>, foundNewTxs: bool)
    requires RoundInvariant(wins, seed, R0, borders, offsets)
    ensures R0 <= R <= R0 + Universe(WindowSet(wins))
    ensures foundNewTxs <==> R != R0
    ensures BelowAllClosed(R, seed, WindowSet(wins))
    ensures forall s :: 0 <= s < |wins| ==> CommitsCovered(wins[s], borders[s] + 1, R)
  {
    R, foundNewTxs := R0, false;
    ghost var ws := WindowSet(wins);
    var todo := Indices(|wins|);
    while todo != {}
      invariant todo <= Indices(|wins|)
      invariant R0 <= R <= R0 + Universe(ws)
      invariant foundNewTxs <==> R != R0
      invariant BelowAllClosed(R, seed, ws)
      invariant forall s :: 0 <= s < |wins| && s !in todo ==> CommitsCovered(wins[s], borders[s] + 1, R)
    {
      var s :| s in todo;
      var w, b, o := wins[s], borders[s], offsets[s];
      assert w in ws;
      var R' := CollectCommits(w, o, b, R);
      CollectKeepsBelow(w, b, R0, R, R', seed, ws);
      assert R' <= R0 + Universe(ws) by {
        forall x | x in R' && x !in R ensures x in Universe(ws) {
          var i :| o <= i <= b && w[i].typ.Commit? && w[i].xid == x;
        }
      }
      assert CommitsCovered(w, b + 1, R') by {
        assert CommitsCovered(w, o, R0);
      }
      foundNewTxs := foundNewTxs || R' != R;
      R := R';
      todo := todo - {s};
    }
  }

  /** Moves the offsets past the borders and rescans the borders, in any order. */
  method Rescan(wins: seq<Window>, R: set<u64>, ghost R0: set<u64>, borders: array<int>, offsets: array<int>)
    returns (borderChanged: bool)
    requires borders != offsets && borders.Length == offsets.Length == |wins|
    requires R0 <= R
    requires forall s :: 0 <= s < |wins| ==> borders[s] == LastPrepare(wins[s], R0)
    modifies borders, offsets
    ensures forall s :: 0 <= s < |wins| ==> borders[s] == LastPrepare(wins[s], R)
    ensures forall s :: 0 <= s < |wins| ==> offsets[s] == old(borders[s]) + 1 <= borders[s] + 1
    ensures borderChanged <==> exists s :: 0 <= s < |wins| && borders[s] != offsets[s]
  {
    borderChanged := false;
    var todo := Indices(|wins|);
    while todo != {}
      invariant todo <= Indices(|wins|)
      invariant forall s :: s in todo ==> borders[s] == old(borders[s])
      invariant forall s :: 0 <= s < |wins| && s !in todo ==>
                  borders[s] == LastPrepare(wins[s], R) && offsets[s] == old(borders[s]) + 1 <= borders[s] + 1
      invariant borderChanged <==> exists s :: 0 <= s < |wins| && s !in todo && borders[s] != offsets[s]
    {
      var s :| s in todo;
      offsets[s] := borders[s] + 1;
      assert borders[s] >= 0 ==> RecoverablePrepare(wins[s][borders[s]], R);
      borders[s] := ScanEventBorder(offsets[s], |wins[s]| - 1, R, wins[s]);
      todo := todo - {s};
      if borders[s] != offsets[s] {
        borderChanged := true;
      }
    }
  }

  /** With borders at the last recoverable prepares and everything before them covered, R is the closure. */
  lemma CoveredIsClosure(wins: seq<Window>, seed: set<u64>, R: set<u64>)
    requires seed <= R && BelowAllClosed(R, seed, WindowSet(wins))
    requires forall s :: 0 <= s < |wins| ==> CommitsCovered(wins[s], LastPrepare(wins[s], R), R)
    ensures R == Closure(seed, WindowSet(wins))
  {
    var ws := WindowSet(wins);
    forall w | w in ws ensures ClosedOn(R, w) {
      var s :| 0 <= s < |wins| && wins[s] == w;
      CoveredIsClosed(w, R);
    }
    ClosureIsLeast(seed, ws);
    LeastClosedUnique(R, Closure(seed, ws), seed, ws);
  }

  /** One round; `done` on either exit: nothing new found, or every border moved by just one event. */
  method Round(wins: seq<Window>, ghost seed: set<u64>, R0: set<u64>, borders: array<int>, offsets: array<int>)
    returns (R: set<u64>, done: bool)
    requires RoundInvariant(wins, seed, R0, borders, offsets)
    modifies borders, offsets
    ensures RoundInvariant(wins, seed, R, borders, offsets)
    ensures done ==> forall s :: 0 <= s < |wins| ==> CommitsCovered(wins[s], borders[s], R)
    ensures !done ==> Universe(WindowSet(wins)) - R < Universe(WindowSet(wins)) - R0
  {
    var foundNewTxs;
    R, foundNewTxs := CollectRound(wins, seed, R0, borders, offsets);
    done := !foundNewTxs;
    if !done {
      assert Universe(WindowSet(wins)) - R < Universe(WindowSet(wins)) - R0 by {
        var x :| x in R && x !in R0;
        assert x in Universe(WindowSet(wins)) - R0;
      }
      var borderChanged := Rescan(wins, R, R0, borders, offsets);
      done := !borderChanged;
    }
  }

  /** The iteration: both exits leave the closure of the seed and its last prepares. */
  method GrowToFixpoint(seed: set<u64>, wins: seq<Window>, borders: array<int>) returns (R: set<u64>)
    requires borders.Length == |wins|
    modifies borders
    ensures R == Closure(seed, WindowSet(wins))
    ensures forall s :: 0 <= s < |wins| ==> borders[s] == LastPrepare(wins[s], R)
  {
    R := seed;
    InitialBorders(wins, R, borders);
    var offsets := new int[|wins|](_ => 0);
    var done := false;
    while !done
      invariant RoundInvariant(wins, seed, R, borders, offsets)
      invariant done ==> forall s :: 0 <= s < |wins| ==> CommitsCovered(wins[s], borders[s], R)
      decreases !done, Universe(WindowSet(wins)) - R
    {
      R, done := Round(wins, seed, R, borders, offsets);
    }
    CoveredIsClosure(wins, seed, R);
  }

  /**
   Grows the recoverable transactions to a fixpoint and cuts every stream.

   For every order in which streams are visited, and on both exits of the iteration, the
   result is the reference closure of the seed and the cuts are its last prepares.
   */
  method StageTwo(h: u64, seed: set<u64>, prepareAt: seq<EventOffset>, wins: seq<Window>)
    returns (txs: set<u64>, cuts: seq<EventOffset>)
    requires |prepareAt| == |wins|
    ensures txs == Closure(seed, WindowSet(wins)) + {h}
    ensures |cuts| == |wins|
    ensures forall s :: 0 <= s < |wins| ==>
              cuts[s] == BorderOffset(wins[s], Closure(seed, WindowSet(wins)), prepareAt[s])
  {
    var borders := new int[|wins|];
    var R := GrowToFixpoint(seed, wins, borders);
    cuts := [];
    for s := 0 to |wins|
      invariant |cuts| == s
      invariant forall k :: 0 <= k < s ==> cuts[k] == BorderOffset(wins[k], R, prepareAt[k])
    {
      cuts := cuts + [if borders[s] < 0 then prepareAt[s] else At(wins[s][borders[s]])];
    }
    txs := R + {h};
  }
}
