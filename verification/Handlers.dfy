/** Event handlers of the parsers (pkg/binlogtool/tx/parser.go, EventHandler and StopParse). */
module Handlers {
  import opened Wrappers

  /** What a handler says after an event: go on, stop quietly, or fail. */
  datatype Verdict<+X> = Go | StopParse | Abort(e: X)

  /** Hands events to a handler, which answers by all it has seen, until it does not say Go. */
  function Deliver<E, X>(seen: seq<E>, evs: seq<E>, h: seq<E> -> Verdict<X>): (seq<E>, Verdict<X>)
    decreases |evs|
  {
    if evs == [] then (seen, Go)
    else
      var now := seen + [evs[0]];
      if h(now).Go? then Deliver(now, evs[1..], h) else (now, h(now))
  }

  /** The error a parse ends with: its own if the handler took everything, none if it stopped, else the handler's. */
  function Concluded<X, R>(v: Verdict<X>, end: Option<R>, handlerErr: X -> R): Option<R> {
    match v
    case Go => end
    case StopParse => None
    case Abort(e) => Some(handlerErr(e))
  }

  lemma {:induction false} DeliverConcat<E, X>(seen: seq<E>, a: seq<E>, b: seq<E>, h: seq<E> -> Verdict<X>)
    ensures var d := Deliver(seen, a, h);
            Deliver(seen, a + b, h) == if d.1.Go? then Deliver(d.0, b, h) else d
    decreases |a|
  {
    if a == [] {
      assert a + b == b;
    } else {
      assert (a + b)[1..] == a[1..] + b && (a + b)[0] == a[0];
      DeliverConcat(seen + [a[0]], a[1..], b, h);
    }
  }
}
