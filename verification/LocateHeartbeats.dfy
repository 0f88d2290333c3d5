/**
 Locating a heartbeat transaction in one stream (pkg/binlogtool/algo/locate_heartbeat.go): by
 the name it writes, by its exact commit timestamp, or as the nearest heartbeat to a timestamp,
 over all or over the larger ones.
 */
module LocateHeartbeats {
  import opened Bytes
  import opened Wrappers
  import opened TxEvents
  import opened StageOne
  import opened Handlers

  datatype Policy =
    | UniqueWrite(sname: Name)
    | ExactCommitTs(target: u64)
    | AroundCommitTs(target: u64)
    | LargerCommitTs(target: u64)

  predicate ByDistance(p: Policy) { p.AroundCommitTs? || p.LargerCommitTs? }

  datatype Found = Found(txid: u64, ts: u64, at: Option<EventOffset>, row: Option<HeartbeatRow>)

  const Nothing := Found(0, 0, None, None)

  datatype LocateErr = TargetNotFound | BadRow | ParseFailed(e: Name)

  function Dist(x: u64, y: u64): u64 { if x >= y then x - y else y - x }

  // ----- what is asked for -----

  /** A prepare that wrote to the heartbeat table. */
  predicate Announces(ev: Event) { ev.typ.Prepare? && ev.rows != [] }

  /** Transaction x announced itself as a heartbeat among the first n events. */
  ghost predicate Announced(es: seq<Event>, n: nat, x: u64)
    requires n <= |es|
  {
    exists j :: 0 <= j < n && Announces(es[j]) && es[j].xid == x
  }

  predicate BadPrepare(ev: Event) { Announces(ev) && ev.rows[0].row.None? }

  /** The first row of the last announcement of x among the first n events. */
  function LastRow(es: seq<Event>, n: nat, x: u64): Option<HeartbeatRow>
    requires n <= |es|
  {
    if n == 0 then None
    else if Announces(es[n - 1]) && es[n - 1].xid == x then es[n - 1].rows[0].row
    else LastRow(es, n - 1, x)
  }

  predicate WantedTs(p: Policy, ts: u64)
    requires ByDistance(p)
  {
    p.LargerCommitTs? ==> ts > p.target
  }

  /** Event i commits a heartbeat announced before it, closer to the target than 0 is. */
  ghost predicate Candidate(p: Policy, es: seq<Event>, i: int)
    requires ByDistance(p)
  {
    && 0 <= i < |es| && es[i].typ.Commit? && Announced(es, i, es[i].xid)
    && WantedTs(p, es[i].ts) && Dist(es[i].ts, p.target) < p.target
  }

  /** Event i is the first of the closest candidates among the first n events. */
  ghost predicate Nearest(p: Policy, es: seq<Event>, n: nat, i: int)
    requires ByDistance(p) && n <= |es|
  {
    && 0 <= i < n && Candidate(p, es, i)
    && forall k :: 0 <= k < n && Candidate(p, es, k) ==>
         && Dist(es[i].ts, p.target) <= Dist(es[k].ts, p.target)
         && (k < i ==> Dist(es[i].ts, p.target) < Dist(es[k].ts, p.target))
  }

  function FoundAt(es: seq<Event>, i: nat): Found
    requires i < |es|
  {
    Found(es[i].xid, es[i].ts, Some(At(es[i])), LastRow(es, i, es[i].xid))
  }

  /** What a locate makes of what it found: transaction 0 counts as nothing. */
  function Reported(f: Found): Result<Found, LocateErr> {
    if f.txid == 0 then Err(TargetNotFound) else Ok(f)
  }

  /** The outcome when no event was hit. */
  function Missed(src: Source): Result<Found, LocateErr> {
    match src.failure
    case Some(e) => Err(ParseFailed(e))
    case None => Err(TargetNotFound)
  }

  /** The first write to the heartbeat table that cannot be read or has the name. */
  function FirstWrite(sname: Name, rows: seq<HeartbeatRows>): Option<Option<HeartbeatRow>> {
    if rows == [] then None
    else if rows[0].isWrite && (rows[0].row.None? || rows[0].row.value.sname == sname) then Some(rows[0].row)
    else FirstWrite(sname, rows[1..])
  }

  /** Event ev decides an early-stopping locate. */
  predicate Hit(p: Policy, ev: Event) {
    match p
    case UniqueWrite(sname) => ev.typ.Prepare? && FirstWrite(sname, ev.rows).Some?
    case ExactCommitTs(target) => ev.typ.Commit? && ev.ts == target
    case _ => BadPrepare(ev)
  }

  function HitResult(p: Policy, ev: Event): Result<Found, LocateErr>
    requires Hit(p, ev)
  {
    match p
    case UniqueWrite(sname) =>
      (match FirstWrite(sname, ev.rows).value
       case None => Err(BadRow)
       case Some(row) => Reported(Found(ev.xid, 0, Some(At(ev)), Some(row))))
    case ExactCommitTs(_) => Reported(Found(ev.xid, ev.ts, Some(At(ev)), None))
    case _ => Err(BadRow)
  }

  ghost predicate FirstHit(p: Policy, es: seq<Event>, i: int) {
    0 <= i < |es| && Hit(p, es[i]) && forall k :: 0 <= k < i ==> !Hit(p, es[k])
  }

  /** r is the answer to a locate over a stream. */
  ghost predicate IsAnswer(p: Policy, src: Source, r: Result<Found, LocateErr>) {
    var es := src.events;
    if exists i :: FirstHit(p, es, i) then exists i :: FirstHit(p, es, i) && r == HitResult(p, es[i])
    else if src.failure.Some? || !ByDistance(p) then r == Missed(src)
    else if forall i :: !Candidate(p, es, i) then r == Err(TargetNotFound)
    else exists i :: Nearest(p, es, |es|, i) && r == Reported(FoundAt(es, i))
  }

  // ----- the search -----

  class LocateHeartbeat {
    const policy: Policy
    var found: Found
    var txSet: set<u64>
    var rowsMap: map<u64, HeartbeatRow>

    constructor (policy: Policy)
      ensures this.policy == policy && found == Nothing && txSet == {} && rowsMap == map[]
    {
      this.policy := policy;
      found, txSet, rowsMap := Nothing, {}, map[];
    }

    /** What is known after the first k events, none of which ended the search. */
    ghost predicate Tracks(es: seq<Event>, k: nat)
      reads this
      requires k <= |es|
    {
      if ByDistance(policy) then TracksRows(txSet, rowsMap, es, k) && TracksBest(policy, found, es, k)
      else found == Nothing
    }

    method OnUniqueWrite(ev: Event) returns (v: Verdict<LocateErr>)
      requires policy.UniqueWrite? && found == Nothing
      modifies this`found
      ensures v == Go ==> !Hit(policy, ev) && found == Nothing
      ensures v == StopParse ==> Hit(policy, ev) && Reported(found) == HitResult(policy, ev)
      ensures v.Abort? ==> Hit(policy, ev) && HitResult(policy, ev) == Err(v.e)
    {
      if ev.typ.Prepare? {
        ghost var goal := FirstWrite(policy.sname, ev.rows);
        assert ev.rows[0..] == ev.rows;
        for i := 0 to |ev.rows|
          invariant found == Nothing && FirstWrite(policy.sname, ev.rows[i..]) == goal
        {
          assert ev.rows[i..][0] == ev.rows[i] && ev.rows[i..][1..] == ev.rows[i + 1..];
          if ev.rows[i].isWrite {
            match ev.rows[i].row {
              case None => return Abort(BadRow);
              case Some(row) =>
                if row.sname == policy.sname {
                  found := found.(txid := ev.xid, row := Some(row), at := Some(At(ev)));
                  return StopParse;
                }
            }
          }
        }
      }
      v := Go;
    }

    method OnExactTs(ev: Event) returns (v: Verdict<LocateErr>)
      requires policy.ExactCommitTs? && found == Nothing
      modifies this`found
      ensures v == Go ==> !Hit(policy, ev) && found == Nothing
      ensures v == StopParse ==> Hit(policy, ev) && Reported(found) == HitResult(policy, ev)
      ensures !v.Abort?
    {
      if ev.typ.Commit? && ev.ts == policy.target {
        found := found.(txid := ev.xid, ts := ev.ts, at := Some(At(ev)));
        return StopParse;
      }
      v := Go;
    }

    method OnNearest(ev: Event, ghost es: seq<Event>, ghost k: nat) returns (v: Verdict<LocateErr>)
      requires ByDistance(policy) && k < |es| && ev == es[k] && Tracks(es, k)
      modifies this
      ensures v == Go ==> !BadPrepare(ev) && Tracks(es, k + 1)
      ensures v.Abort? ==> BadPrepare(ev) && v.e == BadRow
      ensures v != StopParse
    {
      v := Go;
      TracksBestNext(policy, found, es, k);
      TracksRowsNext(txSet, rowsMap, es, k);
      if Announces(ev) {
        txSet := txSet + {ev.xid};
        match ev.rows[0].row {
          case None => return Abort(BadRow);
          case Some(row) => rowsMap := rowsMap[ev.xid := row];
        }
      } else if ev.typ.Commit? {
        if ev.xid in txSet {
          if policy.LargerCommitTs? && ev.ts <= policy.target {
            return;
          }
          if Dist(found.ts, policy.target) > Dist(ev.ts, policy.target) {
            found := Found(ev.xid, ev.ts, Some(At(ev)), Lookup(rowsMap, ev.xid));
          }
        }
      }
    }

    method OnEvent(ev: Event, ghost es: seq<Event>, ghost k: nat) returns (v: Verdict<LocateErr>)
      requires k < |es| && ev == es[k] && Tracks(es, k)
      modifies this
      ensures v == Go ==> !Hit(policy, ev) && Tracks(es, k + 1)
      ensures v == StopParse ==> Hit(policy, ev) && Reported(found) == HitResult(policy, ev)
      ensures v.Abort? ==> Hit(policy, ev) && HitResult(policy, ev) == Err(v.e)
    {
      match policy {
        case UniqueWrite(_) => v := OnUniqueWrite(ev);
        case ExactCommitTs(_) => v := OnExactTs(ev);
        case _ => v := OnNearest(ev, es, k);
      }
    }

    /** Runs the parser into the handler and reports. */
    method Perform(src: Source) returns (r: Result<Found, LocateErr>)
      requires found == Nothing && txSet == {} && rowsMap == map[]
      modifies this
      ensures IsAnswer(policy, src, r)
    {
      var es := src.events;
      for k := 0 to |es|
        invariant Tracks(es, k) && forall j :: 0 <= j < k ==> !Hit(policy, es[j])
      {
        var v := OnEvent(es[k], es, k);
        match v {
          case Go =>
          case StopParse =>
            assert FirstHit(policy, es, k);
            return if found.txid == 0 then Err(TargetNotFound) else Ok(found);
          case Abort(e) =>
            assert FirstHit(policy, es, k);
            return Err(e);
        }
      }
      if src.failure.Some? {
        return Err(ParseFailed(src.failure.value));
      }
      r := if found.txid == 0 then Err(TargetNotFound) else Ok(found);
    }
  }

  function Lookup(m: map<u64, HeartbeatRow>, x: u64): Option<HeartbeatRow> {
    if x in m then Some(m[x]) else None
  }

  ghost predicate TracksRows(txSet: set<u64>, rowsMap: map<u64, HeartbeatRow>, es: seq<Event>, k: nat)
    requires k <= |es|
  {
    && (forall x :: x in txSet <==> Announced(es, k, x))
    && (forall x :: Lookup(rowsMap, x) == LastRow(es, k, x))
  }

  /** Nothing while there is no candidate, then the nearest. */
  ghost predicate TracksBest(p: Policy, f: Found, es: seq<Event>, k: nat)
    requires ByDistance(p) && k <= |es|
  {
    if forall i :: 0 <= i < k ==> !Candidate(p, es, i) then f == Nothing
    else exists i :: Nearest(p, es, k, i) && f == FoundAt(es, i)
  }

  lemma AnnouncedNext(es: seq<Event>, k: nat)
    requires k < |es|
    ensures forall x :: Announced(es, k + 1, x) <==> Announced(es, k, x) || (Announces(es[k]) && es[k].xid == x)
  {
    forall x | Announced(es, k, x) ensures Announced(es, k + 1, x) {
      var j :| 0 <= j < k && Announces(es[j]) && es[j].xid == x;
      assert 0 <= j < k + 1;
    }
  }

  lemma TracksRowsNext(txSet: set<u64>, rowsMap: map<u64, HeartbeatRow>, es: seq<Event>, k: nat)
    requires k < |es| && TracksRows(txSet, rowsMap, es, k)
    ensures !Announces(es[k]) ==> TracksRows(txSet, rowsMap, es, k + 1)
    ensures Announces(es[k]) && es[k].rows[0].row.Some? ==>
              TracksRows(txSet + {es[k].xid}, rowsMap[es[k].xid := es[k].rows[0].row.value], es, k + 1)
  {
    AnnouncedNext(es, k);
    if Announces(es[k]) && es[k].rows[0].row.Some? {
      var m := rowsMap[es[k].xid := es[k].rows[0].row.value];
      forall x ensures Lookup(m, x) == LastRow(es, k + 1, x) {
        assert x != es[k].xid ==> Lookup(m, x) == Lookup(rowsMap, x);
      }
    }
  }

  /** Event k takes over if and only if it is a heartbeat's commit, wanted and closer. */
  lemma TracksBestNext(p: Policy, f: Found, es: seq<Event>, k: nat)
    requires ByDistance(p) && k < |es| && TracksBest(p, f, es, k)
    ensures var ev := es[k];
            var closer := && ev.typ.Commit? && Announced(es, k, ev.xid) && WantedTs(p, ev.ts)
                          && Dist(f.ts, p.target) > Dist(ev.ts, p.target);
            TracksBest(p, if closer then FoundAt(es, k) else f, es, k + 1)
  {
    if exists i :: 0 <= i < k && Candidate(p, es, i) {
      var i :| Nearest(p, es, k, i) && f == FoundAt(es, i);
      NearestNext(p, es, k, i);
    } else if Candidate(p, es, k) {
      assert Nearest(p, es, k + 1, k);
    }
  }

  /** The nearest after one more event. */
  lemma NearestNext(p: Policy, es: seq<Event>, k: nat, i: nat)
    requires ByDistance(p) && k < |es| && Nearest(p, es, k, i)
    ensures var closer := Candidate(p, es, k) && Dist(es[i].ts, p.target) > Dist(es[k].ts, p.target);
            Nearest(p, es, k + 1, if closer then k else i)
  {
  }

  // ----- what the answer means -----

  lemma {:induction false} NearestExists(p: Policy, es: seq<Event>, n: nat)
    requires ByDistance(p) && n <= |es| && exists i :: 0 <= i < n && Candidate(p, es, i)
    ensures exists i :: Nearest(p, es, n, i)
  {
    if exists i :: 0 <= i < n - 1 && Candidate(p, es, i) {
      NearestExists(p, es, n - 1);
      var i :| Nearest(p, es, n - 1, i);
      NearestNext(p, es, n - 1, i);
    } else {
      assert Nearest(p, es, n, n - 1);
    }
  }

  /** The answer Perform gives is the only one. */
  lemma AnswerIsUnique(p: Policy, src: Source, r: Result<Found, LocateErr>, r': Result<Found, LocateErr>)
    requires IsAnswer(p, src, r) && IsAnswer(p, src, r')
    ensures r == r'
  {
    var es := src.events;
    if exists i :: FirstHit(p, es, i) {
      var i, i' :| FirstHit(p, es, i) && r == HitResult(p, es[i]) && FirstHit(p, es, i') && r' == HitResult(p, es[i']);
      assert i == i';
    } else if ByDistance(p) && src.failure.None? && exists i :: Candidate(p, es, i) {
      var i, i' :| Nearest(p, es, |es|, i) && r == Reported(FoundAt(es, i)) && Nearest(p, es, |es|, i') &&
          r' == Reported(FoundAt(es, i'));
      assert i == i';
    }
  }

  /**
   Being closer to the target than 0 is a bound on the timestamp; so no commit at 0, or at twice
   the target, is found.
   */
  lemma CandidateIff(p: Policy, es: seq<Event>, i: nat)
    requires ByDistance(p) && i < |es|
    ensures Candidate(p, es, i) <==>
              && es[i].typ.Commit? && Announced(es, i, es[i].xid)
              && (if p.LargerCommitTs? then p.target else 0) < es[i].ts < 2 * p.target
  {
  }

  lemma FoundByNearest(p: Policy, src: Source, r: Result<Found, LocateErr>)
    requires ByDistance(p) && IsAnswer(p, src, r)
    ensures r.Ok? <==>
              && src.failure.None?
              && (forall i :: 0 <= i < |src.events| ==> !BadPrepare(src.events[i]))
              && exists i :: Nearest(p, src.events, |src.events|, i) && src.events[i].xid != 0
    ensures r.Ok? ==> (if p.LargerCommitTs? then p.target else 0) < r.value.ts < 2 * p.target
  {
    var es := src.events;
    if exists i :: 0 <= i < |es| && BadPrepare(es[i]) {
      FirstBad(p, es, |es|);
    } else {
      assert forall i :: !FirstHit(p, es, i);
      forall i, j | Nearest(p, es, |es|, i) && Nearest(p, es, |es|, j) ensures i == j {
      }
    }
  }

  // ----- nearest, by timestamps alone -----

  /** Event i commits a transaction one of whose prepares before it wrote to the heartbeat table. */
  ghost predicate CommitsHeartbeat(es: seq<Event>, i: int) {
    0 <= i < |es| && es[i].typ == Commit
    && exists j :: 0 <= j < i && es[j].typ == Prepare && es[j].rows != [] && es[j].xid == es[i].xid
  }

  /** Event i commits a heartbeat between 0, or the target, and twice the target. */
  ghost predicate InRange(p: Policy, es: seq<Event>, i: int)
    requires ByDistance(p)
  {
    CommitsHeartbeat(es, i) && (if p.LargerCommitTs? then p.target else 0) < es[i].ts < 2 * p.target
  }

  /** a is no farther from the target than b is. */
  predicate NoFarther(a: int, b: int, target: int) {
    if b >= target then target - b <= a - target <= b - target else b - target <= a - target <= target - b
  }

  /** Event i is no farther from the target than any heartbeat in range, and closer than any before it. */
  ghost predicate Closest(p: Policy, es: seq<Event>, i: int)
    requires ByDistance(p)
  {
    && InRange(p, es, i)
    && forall k :: InRange(p, es, k) ==>
         NoFarther(es[i].ts, es[k].ts, p.target) && (NoFarther(es[k].ts, es[i].ts, p.target) ==> i <= k)
  }

  lemma CandidateIsInRange(p: Policy, es: seq<Event>, i: int)
    requires ByDistance(p)
    ensures Candidate(p, es, i) <==> InRange(p, es, i)
  {
    if 0 <= i < |es| {
      CandidateIff(p, es, i);
      if CommitsHeartbeat(es, i) {
        var j :| 0 <= j < i && es[j].typ == Prepare && es[j].rows != [] && es[j].xid == es[i].xid;
        assert Announces(es[j]);
      }
    }
  }

  lemma NearestIffClosest(p: Policy, es: seq<Event>, i: int)
    requires ByDistance(p)
    ensures Nearest(p, es, |es|, i) <==> Closest(p, es, i)
  {
    forall k ensures Candidate(p, es, k) <==> InRange(p, es, k) {
      CandidateIsInRange(p, es, k);
    }
  }

  /**
   The whole of a search by distance: it succeeds if and only if the stream is read to its end
   without an unreadable announcement and the closest heartbeat in range is not transaction 0, which
   counts as nothing. That one commits below twice the target (and, under the larger policy,
   above it); so a larger heartbeat from twice the target on is missed.
   */
  lemma FoundIff(p: Policy, src: Source, r: Result<Found, LocateErr>)
    requires ByDistance(p) && IsAnswer(p, src, r)
    ensures r.Ok? <==>
              && src.failure.None?
              && (forall i :: 0 <= i < |src.events| && src.events[i].typ == Prepare && src.events[i].rows != [] ==>
                    src.events[i].rows[0].row.Some?)
              && exists i :: Closest(p, src.events, i) && src.events[i].xid != 0
    ensures r.Ok? ==> (if p.LargerCommitTs? then p.target else 0) < r.value.ts < 2 * p.target
  {
    var es := src.events;
    FoundByNearest(p, src, r);
    assert forall i :: 0 <= i < |es| ==> (BadPrepare(es[i]) <==>
      es[i].typ == Prepare && es[i].rows != [] && es[i].rows[0].row.None?);
    forall i ensures Nearest(p, es, |es|, i) <==> Closest(p, es, i) {
      NearestIffClosest(p, es, i);
    }
  }

  /** Event j is the last prepare of x among the first n that wrote to the heartbeat table. */
  ghost predicate LastAnnouncement(es: seq<Event>, n: nat, x: u64, j: int)
    requires n <= |es|
  {
    && 0 <= j < n && es[j].typ == Prepare && es[j].rows != [] && es[j].xid == x
    && forall k :: j < k < n && es[k].typ == Prepare && es[k].xid == x ==> es[k].rows == []
  }

  lemma {:induction false} LastRowIsAnnounced(es: seq<Event>, n: nat, x: u64) returns (j: nat)
    requires n <= |es| && Announced(es, n, x)
    ensures LastAnnouncement(es, n, x, j) && LastRow(es, n, x) == es[j].rows[0].row
  {
    if Announces(es[n - 1]) && es[n - 1].xid == x {
      j := n - 1;
    } else {
      j := LastRowIsAnnounced(es, n - 1, x);
    }
  }

  /**
   What a search by distance returns: transaction, timestamp and place of the closest commit of a
   heartbeat in range, the earliest of them, with the first row of its last announcement.
   */
  lemma FoundIsClosest(p: Policy, src: Source, r: Result<Found, LocateErr>) returns (i: nat, j: nat)
    requires ByDistance(p) && IsAnswer(p, src, r) && r.Ok?
    ensures Closest(p, src.events, i) && LastAnnouncement(src.events, i, src.events[i].xid, j)
    ensures var ev := src.events[i];
            r.value == Found(ev.xid, ev.ts, Some(At(ev)), src.events[j].rows[0].row)
  {
    var es := src.events;
    i :| Nearest(p, es, |es|, i) && r == Reported(FoundAt(es, i));
    NearestIffClosest(p, es, i);
    j := LastRowIsAnnounced(es, i, es[i].xid);
  }

  // ----- the searches that stop early -----

  /** Row m of event i is a write to the heartbeat table, by a prepare, that is unreadable or has the name. */
  ghost predicate WriteDecides(sname: Name, es: seq<Event>, i: int, m: int) {
    && 0 <= i < |es| && es[i].typ == Prepare && 0 <= m < |es[i].rows| && es[i].rows[m].isWrite
    && (es[i].rows[m].row.Some? ==> es[i].rows[m].row.value.sname == sname)
  }

  /** No write before row m of event i does. */
  ghost predicate FirstDecides(sname: Name, es: seq<Event>, i: int, m: int) {
    && WriteDecides(sname, es, i, m)
    && forall i', m' :: WriteDecides(sname, es, i', m') ==> i < i' || (i == i' && m <= m')
  }

  lemma {:induction false} FirstWriteIs(sname: Name, rows: seq<HeartbeatRows>) returns (m: nat)
    ensures FirstWrite(sname, rows).None? ==>
              forall k :: 0 <= k < |rows| && rows[k].isWrite ==> rows[k].row.Some? && rows[k].row.value.sname != sname
    ensures FirstWrite(sname, rows).Some? ==>
              && m < |rows| && rows[m].isWrite && FirstWrite(sname, rows) == Some(rows[m].row)
              && (rows[m].row.Some? ==> rows[m].row.value.sname == sname)
              && forall k :: 0 <= k < m && rows[k].isWrite ==> rows[k].row.Some? && rows[k].row.value.sname != sname
  {
    m := 0;
    if rows != [] && !(rows[0].isWrite && (rows[0].row.None? || rows[0].row.value.sname == sname)) {
      var k := FirstWriteIs(sname, rows[1..]);
      m := k + 1;
    }
  }

  lemma HitIsFirst(sname: Name, es: seq<Event>, i: nat, m: nat)
    requires FirstDecides(sname, es, i, m)
    ensures FirstHit(UniqueWrite(sname), es, i) && FirstWrite(sname, es[i].rows) == Some(es[i].rows[m].row)
  {
    forall k | 0 <= k < |es| && Hit(UniqueWrite(sname), es[k]) ensures i <= k {
      var m' := FirstWriteIs(sname, es[k].rows);
      assert WriteDecides(sname, es, k, m');
    }
    var m' := FirstWriteIs(sname, es[i].rows);
    assert FirstWrite(sname, es[i].rows).Some? ==> WriteDecides(sname, es, i, m');
    assert m == m';
  }

  lemma FirstIsHit(sname: Name, es: seq<Event>, i: nat) returns (m: nat)
    requires FirstHit(UniqueWrite(sname), es, i)
    ensures FirstDecides(sname, es, i, m)
  {
    m := FirstWriteIs(sname, es[i].rows);
    forall i', m' | WriteDecides(sname, es, i', m') ensures i < i' || (i == i' && m <= m') {
      var k := FirstWriteIs(sname, es[i'].rows);
      assert Hit(UniqueWrite(sname), es[i']);
    }
  }

  /** What a search by name returns, by the first write that decides. */
  lemma WriteAnswer(sname: Name, src: Source, r: Result<Found, LocateErr>, i: nat, m: nat)
    requires IsAnswer(UniqueWrite(sname), src, r) && FirstDecides(sname, src.events, i, m)
    ensures var ev := src.events[i];
            r == if ev.rows[m].row.None? then Err(BadRow)
                 else if ev.xid == 0 then Err(TargetNotFound)
                 else Ok(Found(ev.xid, 0, Some(At(ev)), ev.rows[m].row))
  {
    HitIsFirst(sname, src.events, i, m);
    var i' :| FirstHit(UniqueWrite(sname), src.events, i') && r == HitResult(UniqueWrite(sname), src.events[i']);
    assert i == i';
  }

  /** It finds a transaction if and only if that write can be read and its transaction is not 0. */
  lemma WriteFoundIff(sname: Name, src: Source, r: Result<Found, LocateErr>)
    requires IsAnswer(UniqueWrite(sname), src, r)
    ensures r.Ok? <==> exists i, m :: FirstDecides(sname, src.events, i, m)
                                   && src.events[i].rows[m].row.Some? && src.events[i].xid != 0
  {
    if i, m :| FirstDecides(sname, src.events, i, m) {
      WriteAnswer(sname, src, r, i, m);
      assert forall i', m' :: FirstDecides(sname, src.events, i', m') ==> i' == i && m' == m;
    } else if i :| FirstHit(UniqueWrite(sname), src.events, i) {
      var m := FirstIsHit(sname, src.events, i);
      assert false;
    }
  }

  /** Event i is the first commit at the timestamp. */
  ghost predicate FirstAt(target: u64, es: seq<Event>, i: int) {
    && 0 <= i < |es| && es[i].typ == Commit && es[i].ts == target
    && forall k :: 0 <= k < i && es[k].typ == Commit ==> es[k].ts != target
  }

  /** A search by exact timestamp returns the first commit at it, unless its transaction is 0. */
  lemma ExactFoundIff(target: u64, src: Source, r: Result<Found, LocateErr>)
    requires IsAnswer(ExactCommitTs(target), src, r)
    ensures r.Ok? <==> exists i :: FirstAt(target, src.events, i) && src.events[i].xid != 0
    ensures forall i :: FirstAt(target, src.events, i) && src.events[i].xid != 0 ==>
              r == Ok(Found(src.events[i].xid, target, Some(At(src.events[i])), None))
  {
    var p, es := ExactCommitTs(target), src.events;
    forall i ensures FirstHit(p, es, i) <==> FirstAt(target, es, i) {
    }
  }

  /** If some announcement is unreadable, one is first. */
  lemma {:induction false} FirstBad(p: Policy, es: seq<Event>, n: nat)
    requires ByDistance(p) && n <= |es| && exists i :: 0 <= i < n && BadPrepare(es[i])
    ensures exists i :: FirstHit(p, es, i)
  {
    if exists i :: 0 <= i < n - 1 && BadPrepare(es[i]) {
      FirstBad(p, es, n - 1);
    } else {
      assert FirstHit(p, es, n - 1);
    }
  }

  /** A heartbeat announced by its prepare, and its commit at a timestamp. */
  function OneHeartbeat(x: u64, ts: u64): seq<Event> {
    [Event(Prepare, x, [], 1, 0, [HeartbeatRows(true, Some(HeartbeatRow(0, [])))]), Event(Commit, x, [], 2, ts, [])]
  }

  /** The only heartbeat after 5 commits at 10, and is not found. */
  lemma LargerIsMissed(r: Result<Found, LocateErr>)
    requires IsAnswer(LargerCommitTs(5), Source(OneHeartbeat(1, 10), None), r)
    ensures r == Err(TargetNotFound)
  {
    FoundIff(LargerCommitTs(5), Source(OneHeartbeat(1, 10), None), r);
  }

  /** The only heartbeat commits at 0, as those of an XID_EVENT do, and is not found around any target. */
  lemma ZeroIsMissed(target: u64, r: Result<Found, LocateErr>)
    requires IsAnswer(AroundCommitTs(target), Source(OneHeartbeat(1, 0), None), r)
    ensures r == Err(TargetNotFound)
  {
    FoundIff(AroundCommitTs(target), Source(OneHeartbeat(1, 0), None), r);
  }
}
