/**
 * The frame-request throttle of src/nextgen.js, used by the hero tilt
 * (`heroTiltRAF`) and by the custom cursor (`cursorRAF`): a move handler
 * returns at once while a frame request is outstanding; otherwise it asks
 * for an animation frame whose callback closes over THIS event, does the
 * work with it and sets the request variable back to null.
 */
module Throttle {

  import opened Wrappers

  /** The coordinates a mouse event carries. */
  datatype PointerEvent = PointerEvent(clientX: int, clientY: int)

  /** What a throttled stream sees: a raw move event, or the rendering pulse
      that runs the outstanding frame callback. */
  datatype Pulse<E> = Move(event: E) | Frame

  /** One step of the throttle: from the outstanding request (None when the
      variable is null, otherwise the event its callback closes over) to the
      new one, and the event the work is done with, if any. */
  function Step<E>(pending: Option<E>, p: Pulse<E>): (Option<E>, Option<E>) {
    match p
    case Move(e) => (if pending.None? then Some(e) else pending, None)
    case Frame => (None, pending)
  }

  /** A run of pulses from a given request state: the final request state and
      the events the work was done with, in order. */
  function Run<E>(pending: Option<E>, ps: seq<Pulse<E>>): (Option<E>, seq<E>)
    decreases |ps|
  {
    if ps == [] then (pending, [])
    else
      var step := Step(pending, ps[0]);
      var rest := Run(step.0, ps[1..]);
      (rest.0, AsSeq(step.1) + rest.1)
  }

  function AsSeq<E>(o: Option<E>): seq<E> {
    if o.Some? then [o.value] else []
  }

  function Moves<E>(es: seq<E>): (ps: seq<Pulse<E>>)
    ensures |ps| == |es| && forall k :: 0 <= k < |es| ==> ps[k] == Move(es[k])
  {
    if es == [] then [] else [Move(es[0])] + Moves(es[1..])
  }

  function FrameCount<E>(ps: seq<Pulse<E>>): nat {
    if ps == [] then 0 else (if ps[0].Frame? then 1 else 0) + FrameCount(ps[1..])
  }

  function MoveCount<E>(ps: seq<Pulse<E>>): nat {
    if ps == [] then 0 else (if ps[0].Move? then 1 else 0) + MoveCount(ps[1..])
  }

  // ---------------------------------------------------------------------
  // The throttle as the source keeps it

  class FrameThrottle<E> {

    /** The outstanding frame request: None while the variable is null,
        otherwise the event the scheduled callback closed over. */
    var pending: Option<E>

    constructor ()
      ensures pending == None
    {
      pending := None;
    }

    /** The move handler: drops the event while a request is outstanding,
        otherwise requests a frame for this event. */
    method Request(e: E) returns (scheduled: bool)
      modifies this
      ensures scheduled <==> old(pending) == None
      ensures pending == if scheduled then Some(e) else old(pending)
      ensures (pending, None) == Step(old(pending), Move(e))
    {
      scheduled := pending.None?;
      if scheduled {
        pending := Some(e);
      }
    }

    /** The rendering pulse: runs the outstanding callback, which works with
        the event that scheduled it and sets the variable back to null. */
    method Fire() returns (applied: Option<E>)
      modifies this
      ensures applied == old(pending) && pending == None
      ensures (pending, applied) == Step(old(pending), Frame)
    {
      applied := pending;
      pending := None;
    }
  }

  // ---------------------------------------------------------------------
  // Properties of runs

  lemma {:induction false} MovesWhilePending<E>(x: E, es: seq<E>)
    ensures Run(Some(x), Moves(es)) == (Some(x), [])
    decreases |es|
  {
    var ps := Moves(es);
    if es != [] {
      assert ps[1..] == Moves(es[1..]);
      MovesWhilePending(x, es[1..]);
      var step := Step(Some(x), ps[0]);
      assert step == (Some(x), None);
      assert AsSeq(step.1) == [];
      assert Run(Some(x), ps) == (Run(step.0, ps[1..]).0, AsSeq(step.1) + Run(step.0, ps[1..]).1);
      assert Run(step.0, ps[1..]) == (Some(x), []);
      assert Run(Some(x), ps).1 == [];
      assert Run(Some(x), ps).0 == Some(x);
    }
  }

  /** Running two stretches of pulses one after the other. */
  lemma {:induction false} RunAppend<E>(pending: Option<E>, ps: seq<Pulse<E>>, qs: seq<Pulse<E>>)
    ensures Run(pending, ps + qs).0 == Run(Run(pending, ps).0, qs).0
    ensures Run(pending, ps + qs).1 == Run(pending, ps).1 + Run(Run(pending, ps).0, qs).1
    decreases |ps|
  {
    if ps == [] {
      assert ps + qs == qs;
    } else {
      assert (ps + qs)[0] == ps[0];
      assert (ps + qs)[1..] == ps[1..] + qs;
      var step := Step(pending, ps[0]);
      RunAppend(step.0, ps[1..], qs);
      var mid := Run(step.0, ps[1..]);
      assert Run(pending, ps).0 == mid.0;
      assert Run(pending, ps).1 == AsSeq(step.1) + mid.1;
      assert AsSeq(step.1) + (mid.1 + Run(mid.0, qs).1) == (AsSeq(step.1) + mid.1) + Run(mid.0, qs).1;
    }
  }

  /** A burst of moves within one pulse is handled exactly once, at the
      pulse, with the FIRST event of the burst (the callback closes over the
      event that scheduled it); a pulse with no move since the last one does
      no work at all. */
  lemma BurstThenFrame<E>(es: seq<E>)
    ensures Run(None, Moves(es) + [Frame]).0 == None
    ensures Run(None, Moves(es) + [Frame]).1 == if es == [] then [] else [es[0]]
  {
    var ps := Moves(es);
    var f: seq<Pulse<E>> := [Frame];
    RunAppend(None, ps, f);
    var mid := Run(None, ps);
    if es == [] {
      assert mid.0 == None && mid.1 == [];
    } else {
      assert ps[1..] == Moves(es[1..]);
      MovesWhilePending(es[0], es[1..]);
      assert mid.0 == Some(es[0]) && mid.1 == [];
    }
    assert f[1..] == [];
    assert Run(mid.0, f).0 == None;
    assert Run(mid.0, f).1 == AsSeq(mid.0);
  }

  /** At most one piece of work per pulse, and never more than the moves
      (plus a request already outstanding) that caused it. */
  lemma {:induction false} AppliedBounded<E>(pending: Option<E>, ps: seq<Pulse<E>>)
    ensures |Run(pending, ps).1| <= FrameCount(ps)
    ensures |Run(pending, ps).1| <= MoveCount(ps) + (if pending.Some? then 1 else 0)
    decreases |ps|
  {
    if ps != [] {
      AppliedBounded(Step(pending, ps[0]).0, ps[1..]);
    }
  }

  /** Only real events are ever worked with: each is the outstanding one or
      the event of some move in the run. */
  lemma {:induction false} AppliedAreMoves<E>(pending: Option<E>, ps: seq<Pulse<E>>)
    ensures forall a :: a in Run(pending, ps).1 ==> Some(a) == pending || Move(a) in ps
    decreases |ps|
  {
    if ps != [] {
      var next := Step(pending, ps[0]).0;
      AppliedAreMoves(next, ps[1..]);
      assert forall p :: p in ps[1..] ==> p in ps;
    }
  }
}
