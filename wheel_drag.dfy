/**
 * The drag-particle trail of the wheel (src/nextgen.js, init3DWheel):
 * mousedown on the wheel container starts a drag, mouseup anywhere on the
 * document ends it, and a mouse move over the container while dragging
 * emits a particle at the pointer only when at least 50 ms of `Date.now()`
 * have passed since the last particle. The particle's own animation and
 * removal are not modelled.
 */
module Wheel {

  import opened Wrappers

  /** The least gap between two particles, in milliseconds. */
  const ParticleInterval: int := 50

  /** `emitDragParticle(x, y)`. */
  datatype Particle = Particle(x: int, y: int)

  /** A particle and the `Date.now()` reading it was emitted at. */
  datatype Emission = Emission(time: int, particle: Particle)

  datatype DragState = DragState(dragging: bool, lastParticleTime: int)

  datatype WheelEvent =
    | ContainerDown                           // mousedown on the wheel container
    | DocumentUp                              // mouseup anywhere on the document
    | ContainerMove(now: int, x: int, y: int) // mousemove on the container, with Date.now()

  const Initial: DragState := DragState(false, 0)

  /** One event: the new state and the particle emitted, if any. */
  function Step(s: DragState, ev: WheelEvent): (r: (DragState, Option<Emission>))
    ensures r.1.Some? <==> ev.ContainerMove? && s.dragging && ev.now - s.lastParticleTime >= ParticleInterval
    ensures r.1.Some? ==> (r.1.value == Emission(ev.now, Particle(ev.x, ev.y))
                           && r.0 == DragState(s.dragging, ev.now))
    ensures r.1.None? ==> r.0.lastParticleTime == s.lastParticleTime
    ensures r.0.dragging == match ev
                            case ContainerDown => true
                            case DocumentUp => false
                            case ContainerMove(_, _, _) => s.dragging
  {
    match ev
    case ContainerDown => (s.(dragging := true), None)
    case DocumentUp => (s.(dragging := false), None)
    case ContainerMove(now, x, y) =>
      if !s.dragging then (s, None)
      else if now - s.lastParticleTime < ParticleInterval then (s, None)
      else (s.(lastParticleTime := now), Some(Emission(now, Particle(x, y))))
  }

  /** A run of events: the final state and the particles emitted, in order. */
  function Run(s: DragState, evs: seq<WheelEvent>): (DragState, seq<Emission>)
    decreases |evs|
  {
    if evs == [] then (s, [])
    else
      var step := Step(s, evs[0]);
      var rest := Run(step.0, evs[1..]);
      (rest.0, (if step.1.Some? then [step.1.value] else []) + rest.1)
  }

  // ---------------------------------------------------------------------
  // The limiter as the source keeps it

  class WheelDrag {

    var dragging: bool          // `isDraggingWheel`
    var lastParticleTime: int   // `lastParticleTime`

    function State(): DragState
      reads this
    {
      DragState(dragging, lastParticleTime)
    }

    constructor ()
      ensures State() == Initial
    {
      dragging := false;
      lastParticleTime := 0;
    }

    method OnContainerMouseDown()
      modifies this
      ensures dragging && lastParticleTime == old(lastParticleTime)
      ensures State() == Step(old(State()), ContainerDown).0
    {
      dragging := true;
    }

    method OnDocumentMouseUp()
      modifies this
      ensures !dragging && lastParticleTime == old(lastParticleTime)
      ensures State() == Step(old(State()), DocumentUp).0
    {
      dragging := false;
    }

    /** A move over the container at time `now` (`Date.now()`). */
    method OnContainerMouseMove(now: int, x: int, y: int) returns (particle: Option<Particle>)
      modifies this
      ensures particle.Some? <==> old(dragging) && now - old(lastParticleTime) >= ParticleInterval
      ensures particle.Some? ==> particle.value == Particle(x, y) && lastParticleTime == now
      ensures particle.None? ==> lastParticleTime == old(lastParticleTime)
      ensures dragging == old(dragging)
      ensures State() == Step(old(State()), ContainerMove(now, x, y)).0
    {
      if !dragging {
        return None;
      }
      if now - lastParticleTime < ParticleInterval {
        return None;
      }
      lastParticleTime := now;
      particle := Some(Particle(x, y));
    }
  }

  // ---------------------------------------------------------------------
  // Properties of runs

  function Times(em: seq<Emission>): (t: seq<int>)
    ensures |t| == |em| && forall i :: 0 <= i < |em| ==> t[i] == em[i].time
  {
    if em == [] then [] else [em[0].time] + Times(em[1..])
  }

  /** Each time at least `ParticleInterval` after the one before it, and the
      first at least that long after `from`. */
  predicate SpacedFrom(from: int, t: seq<int>) {
    && (t != [] ==> from + ParticleInterval <= t[0])
    && forall i :: 0 < i < |t| ==> t[i - 1] + ParticleInterval <= t[i]
  }

  /** Consecutive particles are at least 50 ms apart, and the first at least
      50 ms after the last one before the run, whatever the clock does: only
      an emission moves `lastParticleTime`. */
  lemma {:induction false} EmissionsSpaced(s: DragState, evs: seq<WheelEvent>)
    ensures SpacedFrom(s.lastParticleTime, Times(Run(s, evs).1))
    decreases |evs|
  {
    if evs != [] {
      var step := Step(s, evs[0]);
      EmissionsSpaced(step.0, evs[1..]);
      var rest := Run(step.0, evs[1..]).1;
      if step.1.Some? {
        var e := step.1.value;
        assert Run(s, evs).1 == [e] + rest;
        assert Times([e] + rest) == [e.time] + Times(rest);
        SpacedCons(s.lastParticleTime, e.time, Times(rest));
      } else {
        assert Run(s, evs).1 == rest;
      }
    }
  }

  /** A run ends with `lastParticleTime` at its last particle, or where it
      began when it emitted none. */
  lemma {:induction false} LastParticleTimeAfterRun(s: DragState, evs: seq<WheelEvent>)
    ensures Run(s, evs).0.lastParticleTime ==
            if |Run(s, evs).1| == 0 then s.lastParticleTime
            else Run(s, evs).1[|Run(s, evs).1| - 1].time
    decreases |evs|
  {
    if evs != [] {
      var step := Step(s, evs[0]);
      LastParticleTimeAfterRun(step.0, evs[1..]);
      var rest := Run(step.0, evs[1..]).1;
      if step.1.Some? {
        assert Run(s, evs).1 == [step.1.value] + rest;
      } else {
        assert Run(s, evs).1 == rest;
      }
    }
  }

  lemma SpacedCons(from: int, x: int, t: seq<int>)
    requires from + ParticleInterval <= x && SpacedFrom(x, t)
    ensures SpacedFrom(from, [x] + t)
  {
    var u := [x] + t;
    forall i | 0 < i < |u| ensures u[i - 1] + ParticleInterval <= u[i] {
      if i > 1 { assert u[i - 1] == t[i - 2] && u[i] == t[i - 1]; }
    }
  }

  /** A spaced sequence spans at least `ParticleInterval` per gap. */
  lemma {:induction false} SpacedSpan(from: int, t: seq<int>)
    requires SpacedFrom(from, t) && t != []
    ensures t[|t| - 1] - t[0] >= ParticleInterval * (|t| - 1)
    decreases |t|
  {
    if |t| > 1 {
      var init := t[..|t| - 1];
      assert SpacedFrom(from, init);
      SpacedSpan(from, init);
    }
  }

  /** A spaced sequence of times within a window of length `span` has at
      most `span / 50 + 1` entries. */
  lemma SpacedWithinWindow(from: int, t: seq<int>, start: int, span: nat)
    requires SpacedFrom(from, t)
    requires forall i :: 0 <= i < |t| ==> start <= t[i] <= start + span
    ensures |t| <= span / ParticleInterval + 1
  {
    if t != [] {
      SpacedSpan(from, t);
      assert ParticleInterval * (|t| - 1) <= span;
      DivBound(|t| - 1, span);
    }
  }

  lemma DivBound(n: nat, span: nat)
    requires ParticleInterval * n <= span
    ensures n <= span / ParticleInterval
  {
  }

  /** Every particle is emitted by a move of the run, at that move's time. */
  lemma {:induction false} EmissionsFromMoves(s: DragState, evs: seq<WheelEvent>)
    ensures forall e :: e in Run(s, evs).1 ==>
              ContainerMove(e.time, e.particle.x, e.particle.y) in evs
    decreases |evs|
  {
    if evs != [] {
      EmissionsFromMoves(Step(s, evs[0]).0, evs[1..]);
      assert forall ev :: ev in evs[1..] ==> ev in evs;
    }
  }

  /** However dense the moves, the particles emitted while every move's
      `Date.now()` lies within a window of `span` milliseconds number at most
      `span / 50 + 1`. */
  lemma EmissionsInWindow(s: DragState, evs: seq<WheelEvent>, start: int, span: nat)
    requires forall i :: 0 <= i < |evs| && evs[i].ContainerMove? ==>
               start <= evs[i].now <= start + span
    ensures |Run(s, evs).1| <= span / ParticleInterval + 1
  {
    var em := Run(s, evs).1;
    EmissionsSpaced(s, evs);
    EmissionsFromMoves(s, evs);
    var t := Times(em);
    forall i | 0 <= i < |t| ensures start <= t[i] <= start + span {
      assert em[i] in em;
      var j :| 0 <= j < |evs| && evs[j] == ContainerMove(em[i].time, em[i].particle.x, em[i].particle.y);
    }
    SpacedWithinWindow(s.lastParticleTime, t, start, span);
  }

  /** No particle is emitted while not dragging, whatever moves arrive, until
      the container sees a mousedown. */
  lemma {:induction false} NoDragNoParticles(s: DragState, evs: seq<WheelEvent>)
    requires !s.dragging && ContainerDown !in evs
    ensures Run(s, evs).1 == []
    ensures Run(s, evs).0 == s
    decreases |evs|
  {
    if evs != [] {
      assert evs[0] != ContainerDown;
      assert ContainerDown !in evs[1..];
      NoDragNoParticles(Step(s, evs[0]).0, evs[1..]);
    }
  }
}
