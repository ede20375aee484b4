/**
 * Startup of src/nextgen.js: `init` (the reduced-motion exit, the guard on
 * the animation library and its scroll plugin, the optional smooth-scroll
 * bridge and the eight feature initializers in a fixed order) and
 * `waitForReadyAndInit` (run `init` at once when the page root already has
 * the `js-ready` class; otherwise race a class-attribute observer against a
 * 2-second timer). The timer is never cleared, so `init` can run twice.
 *
 * The reduced-motion preference is read once, when the script loads. Which
 * libraries are defined is read again by every run of `init` and by the
 * timer, so each event carries what it sees of them.
 */
module Startup {

  import opened Wrappers

  /** Which libraries are defined at the moment they are looked up. */
  datatype Libraries = Libraries(gsapDefined: bool, scrollTriggerDefined: bool, lenisDefined: bool)

  /** The observable steps `init` takes, in order. */
  datatype Call =
    | RegisterScrollTrigger   // gsap.registerPlugin(ScrollTrigger)
    | StartLenis              // the smooth-scroll instance and its ticker bridge
    | HeroAnimations | CustomCursor | ScrollTriggers | MagneticButtons
    | Sounds | Wheel3D | Glassmorphism | TextEffects

  /** The eight feature initializers, in the order `init` calls them. */
  const Features: seq<Call> :=
    [HeroAnimations, CustomCursor, ScrollTriggers, MagneticButtons,
     Sounds, Wheel3D, Glassmorphism, TextEffects]

  predicate IsFeature(c: Call) {
    !c.RegisterScrollTrigger? && !c.StartLenis?
  }

  /** `init` gets past its two early returns. */
  predicate MotionAllowed(reducedMotion: bool, libs: Libraries) {
    !reducedMotion && libs.gsapDefined && libs.scrollTriggerDefined
  }

  /** What one call of `init` does. */
  function Init(reducedMotion: bool, libs: Libraries): (calls: seq<Call>)
    ensures calls == [] <==> !MotionAllowed(reducedMotion, libs)
    ensures MotionAllowed(reducedMotion, libs) ==> calls[0] == RegisterScrollTrigger
    ensures MotionAllowed(reducedMotion, libs) ==>
              |calls| >= |Features| && calls[|calls| - |Features|..] == Features
    ensures StartLenis in calls <==> MotionAllowed(reducedMotion, libs) && libs.lenisDefined
  {
    if reducedMotion then []
    else if !(libs.gsapDefined && libs.scrollTriggerDefined) then []
    else [RegisterScrollTrigger] + (if libs.lenisDefined then [StartLenis] else []) + Features
  }

  /** Each feature initializer is called exactly once by `init` when motion
      is allowed, and none is called otherwise. */
  lemma InitCallsEachFeatureOnce(reducedMotion: bool, libs: Libraries, f: Call)
    requires IsFeature(f)
    ensures multiset(Init(reducedMotion, libs))[f] == if MotionAllowed(reducedMotion, libs) then 1 else 0
  {
    if MotionAllowed(reducedMotion, libs) {
      var lenis: seq<Call> := if libs.lenisDefined then [StartLenis] else [];
      assert Init(reducedMotion, libs) == [RegisterScrollTrigger] + lenis + Features;
      assert multiset(Init(reducedMotion, libs)) ==
             multiset([RegisterScrollTrigger]) + multiset(lenis) + multiset(Features);
      FeaturesOnce(f);
    }
  }

  lemma FeaturesOnce(f: Call)
    requires IsFeature(f)
    ensures multiset(Features)[f] == 1
  {
    var m := multiset{HeroAnimations, CustomCursor, ScrollTriggers, MagneticButtons,
                      Sounds, Wheel3D, Glassmorphism, TextEffects};
    assert multiset(Features) == m;
    match f
    case HeroAnimations =>
    case CustomCursor =>
    case ScrollTriggers =>
    case MagneticButtons =>
    case Sounds =>
    case Wheel3D =>
    case Glassmorphism =>
    case TextEffects =>
  }

  /** Everything a sequence of `init` runs did, given what each run saw. */
  function InitLog(reducedMotion: bool, runs: seq<Libraries>): seq<Call>
    decreases |runs|
  {
    if runs == [] then []
    else InitLog(reducedMotion, runs[..|runs| - 1]) + Init(reducedMotion, runs[|runs| - 1])
  }

  /** Runs of `init` that all stop at an early return call nothing. */
  lemma {:induction false} InitLogEarlyReturns(reducedMotion: bool, runs: seq<Libraries>)
    requires forall i :: 0 <= i < |runs| ==> !MotionAllowed(reducedMotion, runs[i])
    ensures InitLog(reducedMotion, runs) == []
    decreases |runs|
  {
    if runs != [] {
      InitLogEarlyReturns(reducedMotion, runs[..|runs| - 1]);
    }
  }

  // ---------------------------------------------------------------------
  // waitForReadyAndInit as an event system

  /** The observer is connected, the timer has not fired yet, what each run
      of `init` so far saw of the libraries, and everything those runs did,
      in order. */
  datatype GateState = GateState(observing: bool, timerArmed: bool, runs: seq<Libraries>, calls: seq<Call>)

  datatype GateEvent =
    | ClassMutation(jsReady: bool, libs: Libraries)  // a class change on the page root
    | Timeout(libs: Libraries)                       // the 2-second timer fires

  function AfterInit(reducedMotion: bool, libs: Libraries, s: GateState): GateState {
    s.(runs := s.runs + [libs], calls := s.calls + Init(reducedMotion, libs))
  }

  /** `waitForReadyAndInit`, called with `js-ready` present or not. */
  function Begin(reducedMotion: bool, libs: Libraries, jsReady: bool): (s: GateState)
    ensures jsReady ==> !s.observing && !s.timerArmed && s.runs == [libs]
                        && s.calls == Init(reducedMotion, libs)
    ensures !jsReady ==> s.observing && s.timerArmed && s.runs == [] && s.calls == []
  {
    if jsReady then AfterInit(reducedMotion, libs, GateState(false, false, [], []))
    else GateState(true, true, [], [])
  }

  /** The observer callback runs only while connected and acts only when the
      class is present: it disconnects and runs `init`, leaving the timer
      armed. The timer callback disconnects the observer and runs `init` when
      the animation library is defined at that moment. */
  function Step(reducedMotion: bool, s: GateState, ev: GateEvent): GateState {
    match ev
    case ClassMutation(ready, libs) =>
      if s.observing && ready then AfterInit(reducedMotion, libs, s.(observing := false)) else s
    case Timeout(libs) =>
      if !s.timerArmed then s
      else
        var u := s.(observing := false, timerArmed := false);
        if libs.gsapDefined then AfterInit(reducedMotion, libs, u) else u
  }

  function Run(reducedMotion: bool, s: GateState, evs: seq<GateEvent>): GateState
    decreases |evs|
  {
    if evs == [] then s else Run(reducedMotion, Step(reducedMotion, s, evs[0]), evs[1..])
  }

  class ReadinessGate {

    const reducedMotion: bool
    var observing: bool
    var timerArmed: bool
    var runs: seq<Libraries>
    var calls: seq<Call>

    function State(): GateState
      reads this
    {
      GateState(observing, timerArmed, runs, calls)
    }

    /** `waitForReadyAndInit`, with the preference read at load. */
    constructor (reducedMotion: bool, libs: Libraries, jsReady: bool)
      ensures this.reducedMotion == reducedMotion && State() == Begin(reducedMotion, libs, jsReady)
    {
      this.reducedMotion := reducedMotion;
      if jsReady {
        observing, timerArmed, runs, calls := false, false, [libs], Init(reducedMotion, libs);
      } else {
        observing, timerArmed, runs, calls := true, true, [], [];
      }
    }

    /** The mutation observer's callback. */
    method OnClassMutation(jsReady: bool, libs: Libraries)
      modifies this
      ensures State() == Step(reducedMotion, old(State()), ClassMutation(jsReady, libs))
    {
      if observing && jsReady {
        observing := false;
        CallInit(libs);
      }
    }

    /** The timer's callback. */
    method OnTimeout(libs: Libraries)
      modifies this
      ensures State() == Step(reducedMotion, old(State()), Timeout(libs))
    {
      if timerArmed {
        timerArmed := false;
        observing := false;
        if libs.gsapDefined {
          CallInit(libs);
        }
      }
    }

    /** A call of `init`. */
    method CallInit(libs: Libraries)
      modifies this
      ensures State() == AfterInit(reducedMotion, libs, old(State()))
    {
      runs := runs + [libs];
      calls := calls + Init(reducedMotion, libs);
    }
  }

  // ---------------------------------------------------------------------
  // Properties of runs

  lemma InitLogSnoc(reducedMotion: bool, runs: seq<Libraries>, libs: Libraries)
    ensures InitLog(reducedMotion, runs + [libs]) == InitLog(reducedMotion, runs) + Init(reducedMotion, libs)
  {
    assert (runs + [libs])[..|runs|] == runs;
  }

  /** The two callbacks that can still run `init`, plus the runs so far,
      never exceed two; and the log is what those runs did. */
  ghost predicate Consistent(reducedMotion: bool, s: GateState) {
    && |s.runs| + (if s.observing then 1 else 0) + (if s.timerArmed then 1 else 0) <= 2
    && (s.observing ==> s.timerArmed)
    && s.calls == InitLog(reducedMotion, s.runs)
  }

  lemma {:induction false} RunConsistent(reducedMotion: bool, s: GateState, evs: seq<GateEvent>)
    requires Consistent(reducedMotion, s)
    ensures Consistent(reducedMotion, Run(reducedMotion, s, evs))
    decreases |evs|
  {
    if evs != [] {
      StepConsistent(reducedMotion, s, evs[0]);
      RunConsistent(reducedMotion, Step(reducedMotion, s, evs[0]), evs[1..]);
    }
  }

  lemma StepConsistent(reducedMotion: bool, s: GateState, ev: GateEvent)
    requires Consistent(reducedMotion, s)
    ensures Consistent(reducedMotion, Step(reducedMotion, s, ev))
  {
    InitLogSnoc(reducedMotion, s.runs, ev.libs);
  }

  /** `init` runs at most twice, whatever the page does and whenever the
      libraries appear, and everything it did is what those runs did: with
      reduced motion no feature initializer ever runs. */
  lemma AtMostTwoRuns(reducedMotion: bool, libs: Libraries, jsReady: bool, evs: seq<GateEvent>)
    ensures |Run(reducedMotion, Begin(reducedMotion, libs, jsReady), evs).runs| <= 2
    ensures Run(reducedMotion, Begin(reducedMotion, libs, jsReady), evs).calls ==
            InitLog(reducedMotion, Run(reducedMotion, Begin(reducedMotion, libs, jsReady), evs).runs)
    ensures reducedMotion ==> Run(reducedMotion, Begin(reducedMotion, libs, jsReady), evs).calls == []
  {
    var s0 := Begin(reducedMotion, libs, jsReady);
    InitLogSnoc(reducedMotion, [], libs);
    assert [] + [libs] == [libs];
    RunConsistent(reducedMotion, s0, evs);
    if reducedMotion {
      InitLogEarlyReturns(reducedMotion, Run(reducedMotion, s0, evs).runs);
    }
  }

  /** Once nothing can call `init` any more, nothing changes. */
  lemma {:induction false} RunQuiet(reducedMotion: bool, s: GateState, evs: seq<GateEvent>)
    requires !s.observing && !s.timerArmed
    ensures Run(reducedMotion, s, evs) == s
    decreases |evs|
  {
    if evs != [] {
      RunQuiet(reducedMotion, Step(reducedMotion, s, evs[0]), evs[1..]);
    }
  }

  /** With `js-ready` already present, `init` runs once, at once, and no
      observer or timer is left to run it again. */
  lemma ReadyAtStart(reducedMotion: bool, libs: Libraries, evs: seq<GateEvent>)
    ensures Run(reducedMotion, Begin(reducedMotion, libs, true), evs) == Begin(reducedMotion, libs, true)
    ensures Begin(reducedMotion, libs, true).runs == [libs]
  {
    RunQuiet(reducedMotion, Begin(reducedMotion, libs, true), evs);
  }

  lemma {:induction false} RunAppend(reducedMotion: bool, s: GateState, xs: seq<GateEvent>, ys: seq<GateEvent>)
    ensures Run(reducedMotion, s, xs + ys) == Run(reducedMotion, Run(reducedMotion, s, xs), ys)
    decreases |xs|
  {
    if xs == [] {
      assert xs + ys == ys;
    } else {
      assert (xs + ys)[1..] == xs[1..] + ys;
      RunAppend(reducedMotion, Step(reducedMotion, s, xs[0]), xs[1..], ys);
    }
  }

  /** Class changes that leave `js-ready` absent. */
  predicate Idle(ev: GateEvent) {
    ev.ClassMutation? && !ev.jsReady
  }

  lemma {:induction false} RunIdle(reducedMotion: bool, s: GateState, evs: seq<GateEvent>)
    requires forall i :: 0 <= i < |evs| ==> Idle(evs[i])
    ensures Run(reducedMotion, s, evs) == s
    decreases |evs|
  {
    if evs != [] {
      RunIdle(reducedMotion, Step(reducedMotion, s, evs[0]), evs[1..]);
    }
  }

  /** What the libraries look like the first time the timer fires in `evs`. */
  function FirstTimeout(evs: seq<GateEvent>): Option<Libraries>
    decreases |evs|
  {
    if evs == [] then None
    else if evs[0].Timeout? then Some(evs[0].libs)
    else FirstTimeout(evs[1..])
  }

  /** The timer fires in `evs` and the animation library is defined then. */
  predicate TimerSeesGsap(evs: seq<GateEvent>) {
    FirstTimeout(evs).Some? && FirstTimeout(evs).value.gsapDefined
  }

  /** Once the observer is disconnected, class changes do nothing, and `init`
      runs once more exactly when the timer is still armed and the animation
      library is defined when it first fires. */
  lemma {:induction false} RunAfterDisconnect(reducedMotion: bool, s: GateState, evs: seq<GateEvent>)
    requires !s.observing
    ensures |Run(reducedMotion, s, evs).runs| ==
            |s.runs| + (if s.timerArmed && TimerSeesGsap(evs) then 1 else 0)
    decreases |evs|
  {
    if evs != [] {
      var t := Step(reducedMotion, s, evs[0]);
      if evs[0].ClassMutation? {
        assert t == s;
        RunAfterDisconnect(reducedMotion, s, evs[1..]);
      } else {
        assert FirstTimeout(evs) == Some(evs[0].libs);
        RunQuiet(reducedMotion, t, evs[1..]);
      }
    }
  }

  /** The observer wins the race: when `js-ready` appears before the timer
      fires, `init` runs on that mutation; the timer is still armed and runs
      `init` a second time when it fires, if the animation library is then
      defined. Later mutations do nothing. */
  lemma ObserverFirst(reducedMotion: bool, libs: Libraries, seen: Libraries,
                      pre: seq<GateEvent>, post: seq<GateEvent>)
    requires forall i :: 0 <= i < |pre| ==> Idle(pre[i])
    ensures Run(reducedMotion, Begin(reducedMotion, libs, false), pre + [ClassMutation(true, seen)]).runs
            == [seen]
    ensures |Run(reducedMotion, Begin(reducedMotion, libs, false), pre + [ClassMutation(true, seen)] + post).runs|
            == 1 + (if TimerSeesGsap(post) then 1 else 0)
  {
    var s0 := Begin(reducedMotion, libs, false);
    RunAppend(reducedMotion, s0, pre, [ClassMutation(true, seen)]);
    RunIdle(reducedMotion, s0, pre);
    var s1 := Step(reducedMotion, s0, ClassMutation(true, seen));
    assert Run(reducedMotion, s0, pre + [ClassMutation(true, seen)]) == s1;
    RunAppend(reducedMotion, s0, pre + [ClassMutation(true, seen)], post);
    RunAfterDisconnect(reducedMotion, s1, post);
  }

  /** The timer wins the race: when it fires before `js-ready` appears,
      `init` runs once then (if the animation library is defined at that
      moment) and never again, since the observer is disconnected. */
  lemma TimerFirst(reducedMotion: bool, libs: Libraries, seen: Libraries,
                   pre: seq<GateEvent>, post: seq<GateEvent>)
    requires forall i :: 0 <= i < |pre| ==> Idle(pre[i])
    ensures Run(reducedMotion, Begin(reducedMotion, libs, false), pre + [Timeout(seen)] + post).runs
            == if seen.gsapDefined then [seen] else []
  {
    var s0 := Begin(reducedMotion, libs, false);
    RunIdle(reducedMotion, s0, pre);
    RunAppend(reducedMotion, s0, pre, [Timeout(seen)]);
    var s1 := Step(reducedMotion, s0, Timeout(seen));
    assert Run(reducedMotion, s0, pre + [Timeout(seen)]) == s1;
    RunAppend(reducedMotion, s0, pre + [Timeout(seen)], post);
    RunQuiet(reducedMotion, s1, post);
  }

  /** The source as written runs `init` twice when `js-ready` appears before
      the timer fires and the animation library is defined then. */
  lemma DoubleInit(reducedMotion: bool, first: Libraries, second: Libraries)
    requires second.gsapDefined
    ensures Run(reducedMotion, Begin(reducedMotion, first, false),
                [ClassMutation(true, first), Timeout(second)]).runs == [first, second]
    ensures Run(reducedMotion, Begin(reducedMotion, first, false),
                [ClassMutation(true, first), Timeout(second)]).calls
            == Init(reducedMotion, first) + Init(reducedMotion, second)
  {
    var s0 := Begin(reducedMotion, first, false);
    var s1 := Step(reducedMotion, s0, ClassMutation(true, first));
    assert s1.runs == [first] && s1.calls == Init(reducedMotion, first) && s1.timerArmed by {
      assert [] + [first] == [first];
      assert [] + Init(reducedMotion, first) == Init(reducedMotion, first);
    }
    var s2 := Step(reducedMotion, s1, Timeout(second));
    assert s2 == AfterInit(reducedMotion, second, s1.(observing := false, timerArmed := false));
    assert [first] + [second] == [first, second];
    assert [ClassMutation(true, first), Timeout(second)][1..] == [Timeout(second)];
    assert [Timeout(second)][1..] == [];
    assert Run(reducedMotion, s1, [Timeout(second)]) == s2;
    assert Run(reducedMotion, s0, [ClassMutation(true, first), Timeout(second)]) == s2;
  }

  /** A run of `init` that returns early because the animation library is not
      loaded yet does not stop the timer's run: when the libraries have
      loaded by then, every feature initializer runs. */
  lemma LateLibraries(early: Libraries, late: Libraries)
    requires !early.gsapDefined && late.gsapDefined && late.scrollTriggerDefined
    ensures Run(false, Begin(false, early, false), [ClassMutation(true, early), Timeout(late)]).calls
            == Init(false, late)
    ensures multiset(Run(false, Begin(false, early, false),
                         [ClassMutation(true, early), Timeout(late)]).calls)[HeroAnimations] == 1
  {
    DoubleInit(false, early, late);
    assert Init(false, early) == [];
    assert [] + Init(false, late) == Init(false, late);
    InitCallsEachFeatureOnce(false, late, HeroAnimations);
  }

  // ---------------------------------------------------------------------
  // The evidently intended gate: the observer also clears the timer

  function StepCleared(reducedMotion: bool, s: GateState, ev: GateEvent): (t: GateState)
    ensures ev.ClassMutation? && s.observing && ev.jsReady ==>
              !t.timerArmed && !t.observing && t.runs == s.runs + [ev.libs]
    ensures !(ev.ClassMutation? && s.observing && ev.jsReady) ==> t == Step(reducedMotion, s, ev)
  {
    var t := Step(reducedMotion, s, ev);
    if ev.ClassMutation? && s.observing && ev.jsReady then t.(timerArmed := false) else t
  }

  function RunCleared(reducedMotion: bool, s: GateState, evs: seq<GateEvent>): GateState
    decreases |evs|
  {
    if evs == [] then s else RunCleared(reducedMotion, StepCleared(reducedMotion, s, evs[0]), evs[1..])
  }

  ghost predicate ConsistentCleared(reducedMotion: bool, s: GateState) {
    && |s.runs| + (if s.timerArmed then 1 else 0) <= 1
    && (s.observing ==> s.timerArmed)
    && s.calls == InitLog(reducedMotion, s.runs)
  }

  lemma {:induction false} RunClearedConsistent(reducedMotion: bool, s: GateState, evs: seq<GateEvent>)
    requires ConsistentCleared(reducedMotion, s)
    ensures ConsistentCleared(reducedMotion, RunCleared(reducedMotion, s, evs))
    decreases |evs|
  {
    if evs != [] {
      StepClearedConsistent(reducedMotion, s, evs[0]);
      RunClearedConsistent(reducedMotion, StepCleared(reducedMotion, s, evs[0]), evs[1..]);
    }
  }

  lemma StepClearedConsistent(reducedMotion: bool, s: GateState, ev: GateEvent)
    requires ConsistentCleared(reducedMotion, s)
    ensures ConsistentCleared(reducedMotion, StepCleared(reducedMotion, s, ev))
  {
    InitLogSnoc(reducedMotion, s.runs, ev.libs);
  }

  /** With the timer cleared when the observer fires, `init` runs at most
      once, whatever the order of the two callbacks and whenever the
      libraries appear. */
  lemma ClearedInitAtMostOnce(reducedMotion: bool, libs: Libraries, jsReady: bool, evs: seq<GateEvent>)
    ensures |RunCleared(reducedMotion, Begin(reducedMotion, libs, jsReady), evs).runs| <= 1
    ensures RunCleared(reducedMotion, Begin(reducedMotion, libs, jsReady), evs).calls ==
            InitLog(reducedMotion, RunCleared(reducedMotion, Begin(reducedMotion, libs, jsReady), evs).runs)
  {
    InitLogSnoc(reducedMotion, [], libs);
    assert [] + [libs] == [libs];
    RunClearedConsistent(reducedMotion, Begin(reducedMotion, libs, jsReady), evs);
  }
}
