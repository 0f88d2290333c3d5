/**
 Scanners built on scanners (pkg/binlogtool/binlog/scanutils.go, multi_scan.go, and the use of
 them to show the events that precede an offset, pkg/binlogtool/cmd/show.go). A scanner is what
 it has left to return and the error it then returns forever.
 */
module ScanUtils {
  import opened Wrappers
  import opened TxEvents

  datatype ScanErr = Eof | Failure(code: nat)

  datatype Item<E> = Item(off: EventOffset, ev: E)

  class Scanner<E> {
    var left: seq<Item<E>>
    const end: ScanErr

    constructor (items: seq<Item<E>>, end: ScanErr)
      ensures left == items && this.end == end
    {
      left, this.end := items, end;
    }

    method Next() returns (r: Result<Item<E>, ScanErr>)
      modifies this
      ensures old(left) == [] ==> r == Err(end) && left == []
      ensures old(left) != [] ==> r == Ok(old(left)[0]) && left == old(left)[1..]
    {
      if left == [] {
        return Err(end);
      }
      r := Ok(left[0]);
      left := left[1..];
    }
  }

  // ----- filter -----

  function Filter<E>(items: seq<Item<E>>, p: Item<E> -> bool): seq<Item<E>> {
    if items == [] then []
    else if p(items[0]) then [items[0]] + Filter(items[1..], p)
    else Filter(items[1..], p)
  }

  /** What passes is exactly what satisfies the predicate. */
  lemma {:induction false} FilterHas<E>(items: seq<Item<E>>, p: Item<E> -> bool, x: Item<E>)
    ensures x in Filter(items, p) <==> x in items && p(x)
  {
    if items != [] {
      FilterHas(items[1..], p, x);
      assert items == [items[0]] + items[1..];
    }
  }

  /** It keeps its order and its number: filtering goes part by part. */
  lemma {:induction false} FilterConcat<E>(a: seq<Item<E>>, b: seq<Item<E>>, p: Item<E> -> bool)
    ensures Filter(a + b, p) == Filter(a, p) + Filter(b, p)
  {
    if a == [] {
      assert a + b == b;
    } else {
      assert (a + b)[0] == a[0] && (a + b)[1..] == a[1..] + b;
      FilterConcat(a[1..], b, p);
    }
  }

  /** So an event with others before and after it is returned between what they give, if and only if it passes. */
  lemma FilterAt<E>(a: seq<Item<E>>, x: Item<E>, b: seq<Item<E>>, p: Item<E> -> bool)
    ensures Filter(a + ([x] + b), p) == Filter(a, p) + ((if p(x) then [x] else []) + Filter(b, p))
  {
    FilterConcat(a, [x] + b, p);
    FilterConcat([x], b, p);
    assert [x][1..] == [];
  }

  /** Skips until all predicates hold. */
  method NextFiltered<E>(s: Scanner<E>, predicates: seq<Item<E> -> bool>) returns (r: Result<Item<E>, ScanErr>)
    modifies s
    ensures var all := (it: Item<E>) => forall i :: 0 <= i < |predicates| ==> predicates[i](it);
            var before := Filter(old(s.left), all);
            if before == [] then r == Err(s.end) && s.left == []
            else r == Ok(before[0]) && Filter(s.left, all) == before[1..]
  {
    ghost var all := (it: Item<E>) => forall i :: 0 <= i < |predicates| ==> predicates[i](it);
    while true
      invariant Filter(s.left, all) == Filter(old(s.left), all)
      decreases |s.left|
    {
      ghost var items := s.left;
      r := s.Next();
      if r.Err? {
        return;
      }
      var ok := true;
      for i := 0 to |predicates|
        invariant ok <==> forall k :: 0 <= k < i ==> predicates[k](r.value)
      {
        ok := ok && predicates[i](r.value);
      }
      assert ok <==> all(items[0]);
      if ok {
        assert ([items[0]] + Filter(items[1..], all))[1..] == Filter(items[1..], all);
        return;
      }
    }
  }

  // ----- stopping at a pivot -----

  /** The items before the first one that stops. */
  function Upto<E>(items: seq<Item<E>>, stop: Item<E> -> bool): (r: seq<Item<E>>)
    ensures |r| <= |items| && r == items[..|r|]
    ensures |r| < |items| ==> stop(items[|r|])
    ensures forall i :: 0 <= i < |r| ==> !stop(items[i])
  {
    if items == [] || stop(items[0]) then [] else [items[0]] + Upto(items[1..], stop)
  }

  /** Passes events on until one stops; that one is captured and ends the scan. */
  class PivotScanner<E> {
    const s: Scanner<E>
    const stop: Item<E> -> bool
    var pivot: Option<Item<E>>

    constructor (s: Scanner<E>, stop: Item<E> -> bool)
      ensures this.s == s && this.stop == stop && pivot == None
    {
      this.s, this.stop, pivot := s, stop, None;
    }

    method Next() returns (r: Result<Item<E>, ScanErr>)
      modifies this, s
      ensures old(s.left) == [] ==> r == Err(s.end) && s.left == [] && pivot == old(pivot)
      ensures old(s.left) != [] ==> s.left == old(s.left)[1..]
      ensures old(s.left) != [] && stop(old(s.left)[0]) ==> r == Err(Eof) && pivot == Some(old(s.left)[0])
      ensures old(s.left) != [] && !stop(old(s.left)[0]) ==> r == Ok(old(s.left)[0]) && pivot == old(pivot)
    {
      r := s.Next();
      if r.Ok? && stop(r.value) {
        pivot := Some(r.value);
        r := Err(Eof);
      }
    }
  }

  // ----- tail -----

  /** The last n items, all of them if there are fewer. */
  function Last<E>(n: nat, items: seq<E>): seq<E> {
    if |items| <= n then items else items[|items| - n..]
  }

  /** Position i of a ring of the given size that starts at pivot. */
  function RingIndex(pivot: nat, size: nat, i: nat): (k: nat)
    requires pivot < size && i < size
    ensures k < size
  {
    if pivot + i < size then pivot + i else pivot + i - size
  }

  lemma NextPivot(pivot: nat, size: nat)
    requires pivot < size
    ensures (pivot + 1) % size == if pivot + 1 == size then 0 else pivot + 1
  {
    if pivot + 1 < size {
      assert (pivot + 1) % size == pivot + 1;
    }
  }

  /** The n items of a ring from its pivot on. */
  function RingItems<E>(offs: seq<EventOffset>, evs: seq<E>, pivot: nat, n: nat): (r: seq<Item<E>>)
    requires |offs| == |evs| && pivot < |offs| && n <= |offs|
    ensures |r| == n
    ensures forall i :: 0 <= i < n ==> r[i] == Item(offs[RingIndex(pivot, |offs|, i)], evs[RingIndex(pivot, |offs|, i)])
  {
    seq(n, i requires 0 <= i < n => Item(offs[RingIndex(pivot, |offs|, i)], evs[RingIndex(pivot, |offs|, i)]))
  }

  /** Overwriting the oldest of a full ring slides its contents by one. */
  lemma FullRingSlides<E>(offs: seq<EventOffset>, evs: seq<E>, pivot: nat, it: Item<E>)
    requires |offs| == |evs| && pivot < |offs|
    ensures var n := |offs|;
            RingItems(offs[pivot := it.off], evs[pivot := it.ev], if pivot + 1 == n then 0 else pivot + 1, n)
            == RingItems(offs, evs, pivot, n)[1..] + [it]
  {
    var n := |offs|;
    var next := if pivot + 1 == n then 0 else pivot + 1;
    var offs', evs' := offs[pivot := it.off], evs[pivot := it.ev];
    forall i | 0 <= i < n
      ensures RingItems(offs', evs', next, n)[i] == (RingItems(offs, evs, pivot, n)[1..] + [it])[i]
    {
      if i < n - 1 {
        assert RingIndex(next, n, i) == RingIndex(pivot, n, i + 1) != pivot;
      } else {
        assert RingIndex(next, n, i) == pivot;
      }
    }
  }

  /** Filling a ring that starts at 0. */
  lemma RingFills<E>(offs: seq<EventOffset>, evs: seq<E>, n: nat, it: Item<E>)
    requires |offs| == |evs| && n < |offs|
    ensures RingItems(offs[n := it.off], evs[n := it.ev], 0, n + 1) == RingItems(offs, evs, 0, n) + [it]
  {
  }

  /** A ring that the items done have gone through: all of them while it fills, then the last ones. */
  ghost predicate RingHolds<E>(offs: seq<EventOffset>, evs: seq<E>, pivot: nat, limit: nat, done: seq<Item<E>>)
    requires |offs| == |evs| && pivot < |offs|
  {
    var n := |offs|;
    if |done| < n then limit == pivot == |done| && RingItems(offs, evs, 0, pivot) == done
    else limit == n && RingItems(offs, evs, pivot, n) == Last(n, done)
  }

  lemma RingHoldsNext<E>(offs: seq<EventOffset>, evs: seq<E>, pivot: nat, limit: nat, done: seq<Item<E>>, it: Item<E>)
    requires |offs| == |evs| && pivot < |offs| && RingHolds(offs, evs, pivot, limit, done)
    ensures var n := |offs|;
            RingHolds(offs[pivot := it.off], evs[pivot := it.ev], if pivot + 1 == n then 0 else pivot + 1,
                      if limit < n then limit + 1 else limit, done + [it])
  {
    LastGrows(|offs|, done, it);
    if |done| < |offs| {
      RingFills(offs, evs, pivot, it);
    } else {
      FullRingSlides(offs, evs, pivot, it);
    }
  }

  /** Taking the oldest item of a ring. */
  lemma RingPops<E>(offs: seq<EventOffset>, evs: seq<E>, pivot: nat, n: nat)
    requires |offs| == |evs| && pivot < |offs| && 0 < n <= |offs|
    ensures RingItems(offs, evs, pivot, n)[0] == Item(offs[pivot], evs[pivot])
    ensures RingItems(offs, evs, if pivot + 1 == |offs| then 0 else pivot + 1, n - 1)
         == RingItems(offs, evs, pivot, n)[1..]
  {
    var next := if pivot + 1 == |offs| then 0 else pivot + 1;
    forall i | 0 <= i < n - 1
      ensures RingItems(offs, evs, next, n - 1)[i] == RingItems(offs, evs, pivot, n)[1..][i]
    {
      assert RingIndex(next, |offs|, i) == RingIndex(pivot, |offs|, i + 1);
    }
  }

  lemma LastGrows<E>(n: nat, items: seq<E>, it: E)
    requires n > 0
    ensures Last(n, items + [it]) == if |items| < n then items + [it] else Last(n, items)[1..] + [it]
  {
  }

  lemma UptoAll<E>(items: seq<Item<E>>, done: seq<Item<E>>, left: seq<Item<E>>, stop: Item<E> -> bool)
    requires items == done + left && (forall i :: 0 <= i < |done| ==> !stop(done[i])) && (left == [] || stop(left[0]))
    ensures Upto(items, stop) == done
  {
    assert forall i :: 0 <= i < |done| ==> items[i] == done[i];
    assert left != [] ==> items[|done|] == left[0];
    assert |Upto(items, stop)| == |done|;
    assert items[..|done|] == done;
  }

  class TailScanner<E(0)> {
    const size: nat
    const offBuf: array<EventOffset>
    const evBuf: array<E>
    var bufPivot: nat
    var bufLimit: nat
    var lastErr: Option<ScanErr>
    const s: PivotScanner<E>

    ghost predicate Valid0()
      reads this
    {
      && offBuf.Length == evBuf.Length == size && offBuf as object != evBuf as object
      && (size > 0 ==> bufPivot < size)
      && bufLimit <= size
    }

    /** Before the scan nothing is buffered; after it the ring holds bufLimit items. */
    ghost predicate Valid()
      reads this
    {
      Valid0() && (lastErr.None? ==> bufLimit == bufPivot == 0)
    }

    /** What is still to be returned. */
    ghost function Pending(): seq<Item<E>>
      requires Valid()
      reads this, offBuf, evBuf, s, s.s
    {
      if size == 0 then []
      else if lastErr.None? then Last(size, Upto(s.s.left, s.stop))
      else RingItems(offBuf[..], evBuf[..], bufPivot, bufLimit)
    }

    /** The error returned after that. */
    ghost function End(): ScanErr
      reads this, s, s.s
    {
      if size == 0 then Eof
      else if lastErr.Some? then lastErr.value
      else if |Upto(s.s.left, s.stop)| < |s.s.left| then Eof
      else s.s.end
    }

    constructor (s: PivotScanner<E>, size: nat)
      ensures this.s == s && this.size == size && lastErr.None?
      ensures Valid() && fresh(offBuf) && fresh(evBuf)
    {
      this.s, this.size := s, size;
      offBuf := new EventOffset[size](_ => EventOffset([], 0));
      evBuf := new E[size];
      bufPivot, bufLimit, lastErr := 0, 0, None;
    }

    /** Puts an item at the pivot and moves the pivot on. */
    method Store(it: Item<E>)
      requires Valid0() && size > 0
      modifies this`bufPivot, offBuf, evBuf
      ensures offBuf[..] == old(offBuf[..])[old(bufPivot) := it.off] &&
              evBuf[..] == old(evBuf[..])[old(bufPivot) := it.ev]
      ensures bufPivot == if old(bufPivot) + 1 == size then 0 else old(bufPivot) + 1
    {
      NextPivot(bufPivot, size);
      offBuf[bufPivot] := it.off;
      evBuf[bufPivot] := it.ev;
      bufPivot := (bufPivot + 1) % size;
    }

    /** The ring after the items done have gone through it. */
    ghost predicate Holding(done: seq<Item<E>>)
      reads this, offBuf, evBuf
      requires Valid0() && size > 0
    {
      RingHolds(offBuf[..], evBuf[..], bufPivot, bufLimit, done)
    }

    method Keep(it: Item<E>, ghost done: seq<Item<E>>)
      requires Valid0() && size > 0 && Holding(done)
      modifies this`bufPivot, this`bufLimit, offBuf, evBuf
      ensures Valid0() && Holding(done + [it])
    {
      RingHoldsNext(offBuf[..], evBuf[..], bufPivot, bufLimit, done, it);
      if bufLimit < size {
        bufLimit := bufLimit + 1;
      }
      Store(it);
    }

    /** Reads until an error, keeping the last items in the ring. */
    method ReadToEnd() returns (err: ScanErr, ghost done: seq<Item<E>>)
      requires Valid() && size > 0 && lastErr.None?
      modifies this`bufPivot, this`bufLimit, offBuf, evBuf, s, s.s
      ensures Valid0() && Holding(done) && done == Upto(old(s.s.left), s.stop)
      ensures if |done| < |old(s.s.left)|
              then err == Eof && s.pivot == Some(old(s.s.left)[|done|]) && s.s.left == old(s.s.left)[|done| + 1..]
              else err == s.s.end && s.pivot == old(s.pivot) && s.s.left == []
    {
      done := [];
      while true
        invariant Valid0() && Holding(done) && s.pivot == old(s.pivot)
        invariant |done| <= |old(s.s.left)| && done == old(s.s.left)[..|done|] && s.s.left == old(s.s.left)[|done|..]
        invariant forall i :: 0 <= i < |done| ==> !s.stop(done[i])
        decreases |s.s.left|
      {
        var r := s.Next();
        if r.Err? {
          UptoAll(old(s.s.left), done, old(s.s.left)[|done|..], s.stop);
          return r.error, done;
        }
        Keep(r.value, done);
        done := done + [r.value];
      }
    }

    method Fill()
      requires Valid() && size > 0 && lastErr.None?
      modifies this`bufPivot, this`bufLimit, this`lastErr, offBuf, evBuf, s, s.s
      ensures Valid() && lastErr == Some(old(End()))
      ensures RingItems(offBuf[..], evBuf[..], bufPivot, bufLimit) == Last(size, Upto(old(s.s.left), s.stop))
      ensures var u := |Upto(old(s.s.left), s.stop)|;
              if u < |old(s.s.left)| then s.pivot == Some(old(s.s.left)[u]) && s.s.left == old(s.s.left)[u + 1..]
              else s.pivot == old(s.pivot) && s.s.left == []
    {
      var err, done := ReadToEnd();
      lastErr := Some(err);
      if bufLimit != size {
        bufPivot := 0;
      }
    }

    /** Takes the oldest item out of the ring. */
    method Pop() returns (r: Result<Item<E>, ScanErr>)
      requires Valid() && size > 0 && lastErr.Some?
      modifies this`bufPivot, this`bufLimit
      ensures Valid()
      ensures var was := old(RingItems(offBuf[..], evBuf[..], bufPivot, bufLimit));
              var now := RingItems(offBuf[..], evBuf[..], bufPivot, bufLimit);
              if was == [] then r == Err(lastErr.value) && now == [] else r == Ok(was[0]) && now == was[1..]
    {
      if bufLimit > 0 {
        RingPops(offBuf[..], evBuf[..], bufPivot, bufLimit);
        NextPivot(bufPivot, size);
        r := Ok(Item(offBuf[bufPivot], evBuf[bufPivot]));
        bufPivot := (bufPivot + 1) % size;
        bufLimit := bufLimit - 1;
      } else {
        r := Err(lastErr.value);
      }
    }

    /** The next of the last items; then the error the scan ended with, forever. */
    method Next() returns (r: Result<Item<E>, ScanErr>)
      requires Valid()
      modifies this`bufPivot, this`bufLimit, this`lastErr, offBuf, evBuf, s, s.s
      ensures Valid() && End() == old(End())
      ensures if old(Pending()) == [] then r == Err(End()) && Pending() == []
              else r == Ok(old(Pending())[0]) && Pending() == old(Pending())[1..]
      ensures size > 0 ==> lastErr.Some?
      ensures old(lastErr).Some? ==> s.pivot == old(s.pivot) && s.s.left == old(s.s.left)
      ensures old(lastErr).None? && size > 0 ==>
                var u := |Upto(old(s.s.left), s.stop)|;
                if u < |old(s.s.left)| then s.pivot == Some(old(s.s.left)[u]) && s.s.left == old(s.s.left)[u + 1..]
                else s.pivot == old(s.pivot) && s.s.left == []
    {
      if size == 0 {
        return Err(Eof);
      }
      if lastErr.None? {
        Fill();
      }
      r := Pop();
    }
  }

  // ----- events before an offset, the one there, and those after it -----

  /** Items as the chain returns them; None is the nil event a captured pivot is before it is captured. */
  function Returned<E>(items: seq<Item<E>>): (r: seq<Option<Item<E>>>)
    ensures |r| == |items| && forall i :: 0 <= i < |r| ==> r[i] == Some(items[i])
  {
    seq(|items|, i requires 0 <= i < |items| => Some(items[i]))
  }

  /** What the chain of tail, pivot and rest returns, and the error it ends with. */
  function Preceding<E>(n: nat, items: seq<Item<E>>, stop: Item<E> -> bool, end: ScanErr)
      : (seq<Option<Item<E>>>, ScanErr) {
    var u := Upto(items, stop);
    if |u| < |items| then (Returned(Last(n, u)) + ([Some(items[|u|])] + Returned(items[|u| + 1..])), end)
    else if end == Eof then (Returned(Last(n, u)) + [None], Eof)
    else (Returned(Last(n, u)), end)
  }

  /** A nil event, at which show fails, is returned if and only if no event stops and the log ends normally. */
  lemma NilEventIff<E>(n: nat, items: seq<Item<E>>, stop: Item<E> -> bool, end: ScanErr)
    ensures None in Preceding(n, items, stop, end).0
       <==> (end == Eof && forall i :: 0 <= i < |items| ==> !stop(items[i]))
  {
    var u := Upto(items, stop);
    var returned := Preceding(n, items, stop, end).0;
    if |u| == |items| && end == Eof {
      assert returned[|returned| - 1] == None;
    }
  }

  /** With nothing in the log, a nil event is all that is returned. */
  lemma NilEventOfEmptyLog<E>(n: nat, stop: Item<E> -> bool)
    ensures Preceding(n, [], stop, Eof) == ([None], Eof)
  {
    assert Returned<E>([]) + [None] == [None];
  }

  /** r is the first of what was ahead, and the rest is ahead now; the error, forever, if nothing was. */
  predicate Took<T(==)>(was: (seq<T>, ScanErr), now: (seq<T>, ScanErr), r: Result<T, ScanErr>) {
    now.1 == was.1 && if was.0 == [] then r == Err(was.1) && now.0 == [] else r == Ok(was.0[0]) && now.0 == was.0[1..]
  }

  /** Pending items, and what comes after them if they end normally. */
  function Chain<E>(pending: seq<Item<E>>, end: ScanErr, after: seq<Option<Item<E>>>, last: ScanErr)
      : (seq<Option<Item<E>>>, ScanErr) {
    if end == Eof then (Returned(pending) + after, last) else (Returned(pending), end)
  }

  lemma ChainPops<E>(pending: seq<Item<E>>, end: ScanErr, after: seq<Option<Item<E>>>, last: ScanErr)
    requires pending != []
    ensures Took(Chain(pending, end, after, last), Chain(pending[1..], end, after, last), Ok(Some(pending[0])))
  {
    assert (Returned(pending) + after)[1..] == Returned(pending[1..]) + after;
    assert Returned(pending)[1..] == Returned(pending[1..]);
  }

  lemma ChainEnds<E>(end: ScanErr, after: seq<Option<Item<E>>>, last: ScanErr)
    ensures Chain([], end, after, last) == if end == Eof then (after, last) else ([], end)
  {
    assert Returned<E>([]) + after == after;
  }

  /** The scanner `show` builds to print the n events before an offset and all from it on. */
  class PrecedeScanner<E(0)> {
    const tail: TailScanner<E>
    var curIdx: nat
    var pivotDue: bool

    ghost predicate Valid()
      reads this, tail, tail.s
    {
      && tail.Valid() && tail.size > 0 && (curIdx > 0 ==> tail.lastErr.Some?)
      && (tail.lastErr.None? ==> tail.s.pivot.None?)
      && (curIdx == 0 ==> pivotDue) && (curIdx > 1 ==> !pivotDue)
    }

    ghost function Repr(): set<object> {
      {this, tail, tail.offBuf, tail.evBuf, tail.s, tail.s.s}
    }

    /** What is still to be returned, and the error after it. */
    ghost function Ahead(): (seq<Option<Item<E>>>, ScanErr)
      reads this, tail, tail.offBuf, tail.evBuf, tail.s, tail.s.s
      requires Valid()
    {
      var s := tail.s.s;
      if curIdx == 0 then
        Chain(tail.Pending(), tail.End(), if tail.End() == Eof then AfterTail() else [], s.end)
      else if curIdx == 1 && pivotDue then ([tail.s.pivot] + Returned(s.left), s.end)
      else if curIdx <= 2 then (Returned(s.left), s.end)
      else ([], Eof)
    }

    constructor (s: Scanner<E>, stop: Item<E> -> bool, n: nat)
      requires n > 0
      ensures Valid() && fresh(Repr() - {s}) && tail.s.s == s
      ensures Ahead() == Preceding(n, s.left, stop, s.end)
    {
      var pivot := new PivotScanner(s, stop);
      tail := new TailScanner(pivot, n);
      curIdx, pivotDue := 0, true;
    }

    /** Pulling on the tail leaves what follows it as it was. */
    method PullTail() returns (t: Result<Item<E>, ScanErr>)
      requires Valid() && curIdx == 0
      modifies Repr() - {this}
      ensures Valid() && tail.lastErr.Some? && tail.End() == old(tail.End())
      ensures if old(tail.Pending()) == [] then t == Err(tail.End()) && tail.Pending() == []
              else t == Ok(old(tail.Pending())[0]) && tail.Pending() == old(tail.Pending())[1..]
      ensures tail.End() == Eof ==> AfterTail() == old(AfterTail())
    {
      t := tail.Next();
    }

    /** From the tail; None when the tail ended normally and the chain moves on. */
    method FromTail() returns (r: Option<Result<Option<Item<E>>, ScanErr>>)
      requires Valid() && curIdx == 0
      modifies Repr()
      ensures Valid()
      ensures r.Some? ==> Took(old(Ahead()), Ahead(), r.value)
      ensures r.None? ==> curIdx == 1 && Ahead() == old(Ahead())
    {
      ghost var pending, rest := tail.Pending(), if tail.End() == Eof then AfterTail() else [];
      var t := PullTail();
      if t.Ok? {
        ChainPops(pending, tail.End(), rest, tail.s.s.end);
        r := Some(Ok(Some(t.value)));
      } else if t.error != Eof {
        ChainEnds(tail.End(), rest, tail.s.s.end);
        r := Some(Err(t.error));
      } else {
        ChainEnds(tail.End(), rest, tail.s.s.end);
        curIdx := 1;
        r := None;
      }
    }

    /** What follows the tail once it has ended normally. */
    ghost function AfterTail(): seq<Option<Item<E>>>
      reads this, tail, tail.s, tail.s.s
    {
      var s := tail.s.s;
      var u := |Upto(s.left, tail.s.stop)|;
      if tail.lastErr.Some? then [tail.s.pivot] + Returned(s.left)
      else if u < |s.left| then [Some(s.left[u])] + Returned(s.left[u + 1..])
      else [None]
    }

    method FromRest() returns (r: Option<Result<Option<Item<E>>, ScanErr>>)
      requires Valid() && curIdx == 2
      modifies this`curIdx, tail.s.s
      ensures Valid()
      ensures r.Some? ==> Took(old(Ahead()), Ahead(), r.value)
      ensures r.None? ==> curIdx == 3 && Ahead() == old(Ahead())
    {
      var t := tail.s.s.Next();
      if t.Ok? {
        r := Some(Ok(Some(t.value)));
        assert Returned(tail.s.s.left) == Returned(old(tail.s.s.left))[1..];
      } else if t.error != Eof {
        r := Some(Err(t.error));
      } else {
        curIdx := 3;
        r := None;
      }
    }

    method Next() returns (r: Result<Option<Item<E>>, ScanErr>)
      requires Valid()
      modifies Repr()
      ensures Valid() && Took(old(Ahead()), Ahead(), r)
    {
      if curIdx == 0 {
        var t := FromTail();
        if t.Some? {
          return t.value;
        }
      }
      if curIdx == 1 {
        if pivotDue {
          pivotDue := false;
          return Ok(tail.s.pivot);
        }
        curIdx := 2;
      }
      if curIdx == 2 {
        var t := FromRest();
        if t.Some? {
          return t.value;
        }
      }
      r := Err(Eof);
    }
  }
}
