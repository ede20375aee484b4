/**
 * The custom cursor (src/nextgen.js, initCustomCursor): a follower element
 * positioned from document mouse moves through a frame-request throttle,
 * with two class-list flags: `hover` (mouseenter / mouseleave on the
 * interactive elements) and `clicking` (mousedown / mouseup on the document).
 */
module Cursor {

  import opened Wrappers
  import opened Throttle

  /** The classes of the cursor element that the model tracks. */
  datatype CursorClass = CustomCursor | Hover | Clicking

  /** The listeners that change the class list. */
  datatype ClassSignal = Enter | Leave | Down | Up

  /** The class a signal adds or removes. */
  function Flag(s: ClassSignal): CursorClass {
    if s == Enter || s == Leave then Hover else Clicking
  }

  /** Whether a signal adds its class (otherwise it removes it). */
  predicate Adds(s: ClassSignal) {
    s == Enter || s == Down
  }

  /** `classList.add` / `classList.remove` for one signal. */
  function Apply(classes: set<CursorClass>, s: ClassSignal): (r: set<CursorClass>)
    ensures Flag(s) in r <==> Adds(s)
    ensures forall k :: k != Flag(s) ==> (k in r <==> k in classes)
  {
    if Adds(s) then classes + {Flag(s)} else classes - {Flag(s)}
  }

  function ApplyAll(classes: set<CursorClass>, ss: seq<ClassSignal>): set<CursorClass>
    decreases |ss|
  {
    if ss == [] then classes else ApplyAll(Apply(classes, ss[0]), ss[1..])
  }

  /** The last signal in `ss` that concerns class `k`. */
  function LastFor(k: CursorClass, ss: seq<ClassSignal>): Option<ClassSignal>
    decreases |ss|
  {
    if ss == [] then None
    else if Flag(ss[|ss| - 1]) == k then Some(ss[|ss| - 1])
    else LastFor(k, ss[..|ss| - 1])
  }

  /** Set semantics: repeating a signal changes nothing more. */
  lemma ApplyIdempotent(classes: set<CursorClass>, s: ClassSignal)
    ensures Apply(Apply(classes, s), s) == Apply(classes, s)
  {
  }

  lemma {:induction false} ApplyAllSnoc(classes: set<CursorClass>, ss: seq<ClassSignal>, s: ClassSignal)
    ensures ApplyAll(classes, ss + [s]) == Apply(ApplyAll(classes, ss), s)
    decreases |ss|
  {
    if ss == [] {
      assert [] + [s] == [s];
      assert [s][1..] == [];
    } else {
      assert (ss + [s])[1..] == ss[1..] + [s];
      ApplyAllSnoc(Apply(classes, ss[0]), ss[1..], s);
    }
  }

  /** The two flags are independent, and each is decided by the last signal
      that concerns it: after any sequence of signals, a flag is set exactly
      when its last enter/leave (or down/up) was an enter (a down), and keeps
      its old value when there was none. The `custom-cursor` class is never
      removed. */
  lemma {:induction false} FlagFollowsLastSignal(classes: set<CursorClass>, ss: seq<ClassSignal>, k: CursorClass)
    ensures k in ApplyAll(classes, ss) <==>
            match LastFor(k, ss)
            case None => k in classes
            case Some(s) => Adds(s)
    decreases |ss|
  {
    if ss != [] {
      var init := ss[..|ss| - 1];
      var s := ss[|ss| - 1];
      assert ss == init + [s];
      ApplyAllSnoc(classes, init, s);
      FlagFollowsLastSignal(classes, init, k);
    }
  }

  /** `hover` is a flag, not a count: entering an interactive element nested
      in another and leaving the inner one clears it although the pointer is
      still over the outer one. */
  lemma NestedLeaveClearsHover()
    ensures ApplyAll({CustomCursor}, [Enter, Enter, Leave]) == {CustomCursor}
  {
    var ss := [Enter, Enter, Leave];
    assert ss == [Enter, Enter] + [Leave];
    ApplyAllSnoc({CustomCursor}, [Enter, Enter], Leave);
    assert [Enter, Enter] == [Enter] + [Enter];
    ApplyAllSnoc({CustomCursor}, [Enter], Enter);
  }

  class Follower {

    /** `cursorRAF` and the event its callback closes over. */
    const frame: FrameThrottle<PointerEvent>

    /** The class list of the cursor element. */
    var classes: set<CursorClass>

    /** The position last set on the cursor element (`gsap.set`), if any. */
    var position: Option<PointerEvent>

    constructor ()
      ensures fresh(frame) && frame.pending == None
      ensures classes == {CustomCursor} && position == None
    {
      frame := new FrameThrottle();
      classes := {CustomCursor};
      position := None;
    }

    /** `mousemove` on the document. */
    method OnMouseMove(e: PointerEvent)
      modifies frame
      ensures frame.pending == if old(frame.pending) == None then Some(e) else old(frame.pending)
      ensures classes == old(classes) && position == old(position)
    {
      var _ := frame.Request(e);
    }

    /** The frame callback: move the cursor to the event that scheduled it. */
    method OnFrame()
      modifies this, frame
      ensures frame.pending == None && classes == old(classes)
      ensures position == if old(frame.pending).Some? then old(frame.pending) else old(position)
    {
      var applied := frame.Fire();
      if applied.Some? {
        position := applied;
      }
    }

    /** `mouseenter` on an interactive element. */
    method OnEnter()
      modifies this
      ensures classes == Apply(old(classes), Enter) && position == old(position)
    {
      classes := classes + {Hover};
    }

    /** `mouseleave` on an interactive element. */
    method OnLeave()
      modifies this
      ensures classes == Apply(old(classes), Leave) && position == old(position)
    {
      classes := classes - {Hover};
    }

    /** `mousedown` on the document. */
    method OnMouseDown()
      modifies this
      ensures classes == Apply(old(classes), Down) && position == old(position)
    {
      classes := classes + {Clicking};
    }

    /** `mouseup` on the document. */
    method OnMouseUp()
      modifies this
      ensures classes == Apply(old(classes), Up) && position == old(position)
    {
      classes := classes - {Clicking};
    }
  }

  /** The cursor is created only when the window is wider than 768 pixels. */
  method InitCustomCursor(innerWidth: int) returns (cursor: Follower?)
    ensures cursor != null <==> innerWidth > 768
    ensures cursor != null ==> fresh(cursor) && fresh(cursor.frame)
    ensures cursor != null ==> cursor.frame.pending == None
    ensures cursor != null ==> cursor.classes == {CustomCursor} && cursor.position == None
  {
    if innerWidth <= 768 {
      cursor := null;
    } else {
      cursor := new Follower();
    }
  }
}
