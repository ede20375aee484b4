/**
 * The 3D tilt of the hero content (src/nextgen.js, initHeroAnimations):
 * mouse moves over the hero go through a frame-request throttle, and the
 * frame callback re-targets the tilt at the event that scheduled it;
 * leaving the hero re-targets the tilt at level. The rotation arithmetic and
 * the animation itself are not modelled: a target records which event the
 * rotation was computed from.
 */
module Hero {

  import opened Wrappers
  import opened Throttle

  /** The last tilt the hero content was sent towards (last command wins). */
  datatype TiltTarget = Level | Toward(event: PointerEvent)

  class HeroTilt {

    /** `heroTiltRAF` and the event its callback closes over. */
    const frame: FrameThrottle<PointerEvent>

    var target: TiltTarget

    constructor ()
      ensures fresh(frame) && frame.pending == None && target == Level
    {
      frame := new FrameThrottle();
      target := Level;
    }

    /** `mousemove` on the hero. */
    method OnMouseMove(e: PointerEvent)
      modifies frame
      ensures frame.pending == if old(frame.pending) == None then Some(e) else old(frame.pending)
      ensures target == old(target)
    {
      var _ := frame.Request(e);
    }

    /** The frame callback: tilt towards the event that scheduled it, then
        clear the request. With no request outstanding nothing runs. */
    method OnFrame()
      modifies this, frame
      ensures frame.pending == None
      ensures target == if old(frame.pending).Some? then Toward(old(frame.pending).value) else old(target)
    {
      var applied := frame.Fire();
      if applied.Some? {
        target := Toward(applied.value);
      }
    }

    /** `mouseleave` on the hero: back to level. An outstanding frame request
        is NOT cancelled. */
    method OnMouseLeave()
      modifies this
      ensures target == Level
    {
      target := Level;
    }
  }

  /** The tilt is wired only when both elements exist and the window is wider
      than 768 pixels. */
  method InitHeroTilt(hasHeroContent: bool, hasHero: bool, innerWidth: int) returns (tilt: HeroTilt?)
    ensures tilt != null <==> hasHeroContent && hasHero && innerWidth > 768
    ensures tilt != null ==> fresh(tilt) && fresh(tilt.frame)
    ensures tilt != null ==> tilt.frame.pending == None && tilt.target == Level
  {
    if hasHeroContent && hasHero && innerWidth > 768 {
      tilt := new HeroTilt();
    } else {
      tilt := null;
    }
  }

  /** Leaving the hero while a frame request is outstanding does not stop the
      request: the next frame tilts the content again, towards the event that
      arrived before the leave. */
  method StaleFrameAfterLeave(e: PointerEvent, later: PointerEvent)
  {
    var tilt := new HeroTilt();
    tilt.OnMouseMove(e);
    tilt.OnMouseMove(later);
    tilt.OnMouseLeave();
    assert tilt.target == Level;
    tilt.OnFrame();
    assert tilt.target == Toward(e);
  }
}
