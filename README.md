# Next-gen page animations: a Dafny model of their sequential logic

`src/nextgen.js` decorates a landing page with animations, a custom cursor,
sound cues and a dragged 3D wheel. Most of it hands work to GSAP, Lenis, the
DOM and Web Audio. This project models the small pieces of logic inside it
that decide *what happens*, and proves properties about them:

- **Title split** (`title_text.dfy`, `title_markup.dfy`). The hero title's
  text is trimmed, split on runs of white space and stripped of empty tokens.
  It is then rebuilt as markup: one word span per word, one letter span per
  UTF-16 code unit, word spans joined by one space, letters copied unescaped.
  Text is a sequence of UTF-16 code units. White space is the ECMAScript
  WhiteSpace and LineTerminator set, which both `trim()` and `\s` use. The
  markup is modelled as the string assigned to `innerHTML`. Its partner is a
  decoder, and the round trip is proved.
- **Frame-request throttle** (`frame_throttle.dfy`). A pending slot drops
  every pointer move while a frame callback is outstanding. The callback
  applies the event that *scheduled* it, then clears the slot. The hero tilt
  (`hero_tilt.dfy`) and the custom cursor (`custom_cursor.dfy`) each own one.
- **Cursor classes** (`custom_cursor.dfy`). `hover` follows enter/leave on
  interactive elements; `clicking` follows mouse down/up on the document.
- **Drag-particle limiter** (`wheel_drag.dfy`). The dragging flag is set by
  mousedown on the wheel container and cleared by mouseup anywhere. A
  particle is emitted only while dragging and only when at least 50 ms of
  `Date.now()` have passed since the last emission.
- **Audio context singleton** (`sound_effects.dfy`). The context is created
  on the first successful request and the same handle is reused afterwards.
- **Startup** (`startup.dfy`). `init` exits early under reduced motion or
  when either GSAP or ScrollTrigger is undefined; otherwise it registers the plugin,
  optionally starts Lenis and calls the eight feature initializers in order.
  `waitForReadyAndInit` runs `init` at once when `js-ready` is present, and
  otherwise races a class observer against a 2-second timer. The
  reduced-motion preference is read once at load; which libraries are
  defined is read again by each run of `init` and by the timer, so every
  event carries its own snapshot of them.

The drag limiter and the readiness gate are classes whose handlers are tied
by their `ensures` to a pure step function, and lemmas about runs of that
function over event sequences state the promised properties. The frame
throttle is a class with the same kind of step function; the hero tilt and
the cursor hold one and state its effect on their own fields directly. The
cursor's class list is tied to a set-update function. The audio context is a
class whose methods state the singleton directly.

Notes on the code:

- The frame callback closes over the event that scheduled it, so the first
  event of a burst is applied (`Throttle.BurstThenFrame`).
- The fallback timer is never cleared, so `init` can run twice (see
  Findings).
- "Rent Smarter Today" has 4 + 7 + 5 = 16 code units, so 16 letter spans
  (`TitleMarkup.RentSmarterToday`).
- Leaving the hero does not cancel an outstanding tilt frame. A frame that
  fires after the leave tilts the content again (`Hero.StaleFrameAfterLeave`).

All files are verified together, from this directory: `dafny verify *.dfy`.

## Model

| member | source | states |
|---|---|---|
| TitleText.SkipWhiteSpace | src/nextgen.js:69-70 | the result is the suffix of the text after its leading run of white space: everything dropped is white space, the result starts with a non-space, and a leading space makes it strictly shorter |
| TitleText.TrimEnd | src/nextgen.js:69 | the result is a prefix of the text, everything dropped is white space, and it ends in a non-space |
| TitleText.Trim | src/nextgen.js:69 | the trimmed text is empty or starts and ends with a non-space, and is no longer than the text |
| TitleText.TrimSlice | src/nextgen.js:69 | the trimmed text is the slice `s[i..j]` with only white space before `i` and after `j` |
| TitleText.DropEmpty | src/nextgen.js:70 | the filtered list holds no empty token, and holds every non-empty token as often as the input does |
| TitleText.DropEmptyAppend | src/nextgen.js:70 | filtering a concatenation is concatenating the filtered parts, so the tokens kept stay in input order |
| TitleText.SplitFromJoin | src/nextgen.js:70 | joining the fields of `split(/\s+/)` with single spaces gives the text with every run of white space collapsed to one space |
| TitleText.SplitFromFields | src/nextgen.js:70 | splitting text with no white space at either end yields only non-empty fields without white space |
| TitleText.WordsSpec | src/nextgen.js:69-70 | every word is non-empty and free of white space, and the words joined by single spaces are the trimmed text with each white-space run collapsed to one space (so order is kept) |
| TitleText.WordsEmpty | src/nextgen.js:69-70 | the title has no words exactly when its text is all white space (the empty text included) |
| TitleText.WordsOfJoin | src/nextgen.js:69-70 | for non-empty words without white space, the words of their single-space join are those same words |
| TitleMarkup.ParseLettersOfLetters | src/nextgen.js:74-76 | the letter spans of a word, followed by a closing tag, decode back to exactly that word's code units, in order |
| TitleMarkup.ParseWordSpanOfWordSpan | src/nextgen.js:77 | a word span decodes back to its word and leaves the text after it untouched |
| TitleMarkup.TitleHtmlRoundTrip | src/nextgen.js:73-78 | decoding the markup built from any list of words (word spans joined by one space) gives back exactly that list: one word span per word, in order |
| TitleMarkup.LettersLength | src/nextgen.js:74-76 | a word's letters markup has exactly one fixed-length letter span per code unit |
| TitleMarkup.LettersAt | src/nextgen.js:74-76 | the k-th letter span of a word's markup is the span for the word's k-th code unit, copied verbatim |
| TitleMarkup.RentSmarterToday | src/nextgen.js:69-78 | "Rent Smarter Today" has the words Rent, Smarter and Today, its markup decodes to those three words, and it has 16 letters |
| Throttle.FrameThrottle.constructor | src/nextgen.js:130 | a new throttle has no pending request |
| Throttle.FrameThrottle.Request | src/nextgen.js:131-133 | a frame is requested exactly when none is pending; the pending event is then the new one, otherwise it is unchanged |
| Throttle.FrameThrottle.Fire | src/nextgen.js:133-145 | the frame callback applies the event that scheduled it and clears the slot |
| Throttle.MovesWhilePending | src/nextgen.js:132 | while a request is pending, any number of moves changes nothing and applies nothing |
| Throttle.BurstThenFrame | src/nextgen.js:131-145 | a burst of moves followed by one frame applies only the burst's first event and leaves no request pending |
| Throttle.AppliedBounded | src/nextgen.js:130-145 | no more events are applied than frames fired, nor more than moves received plus the one pending at the start |
| Throttle.AppliedAreMoves | src/nextgen.js:131-145 | every applied event is one that was received (or was pending at the start) |
| Throttle.RunAppend | src/nextgen.js:131-145 | running two event sequences one after the other is running their concatenation |
| Hero.HeroTilt.constructor | src/nextgen.js:130 | a new hero tilt has no pending frame and a level target |
| Hero.HeroTilt.OnMouseMove | src/nextgen.js:131-133 | a move over the hero goes through the throttle and does not itself change the tilt target |
| Hero.HeroTilt.OnFrame | src/nextgen.js:133-145 | the frame re-targets the tilt at the event that scheduled it and clears the request |
| Hero.HeroTilt.OnMouseLeave | src/nextgen.js:148-155 | leaving the hero re-targets the tilt at level and leaves any pending frame in place |
| Hero.InitHeroTilt | src/nextgen.js:123-130 | the tilt is wired up exactly when the hero and its content exist and the window is wider than 768 pixels |
| Cursor.Apply | src/nextgen.js:332-338 | enter and down add `hover` and `clicking`, leave and up remove them; every other class is unchanged |
| Cursor.ApplyIdempotent | src/nextgen.js:332-338 | applying the same signal twice is applying it once |
| Cursor.ApplyAllSnoc | src/nextgen.js:332-338 | the classes after a sequence of signals are built one signal at a time, in order |
| Cursor.FlagFollowsLastSignal | src/nextgen.js:332-338 | after any sequence of signals, each flag is set exactly when the last signal for that flag is an add (or, with none, when it was set before); the other flag's signals do not affect it |
| Cursor.NestedLeaveClearsHover | src/nextgen.js:331-334 | entering two nested interactive elements and leaving the inner one clears `hover` |
| Cursor.Follower.constructor | src/nextgen.js:271-274 | a new cursor has only the `custom-cursor` class, no position and no pending frame |
| Cursor.Follower.OnMouseMove | src/nextgen.js:321-322 | a document move goes through the throttle and does not move the cursor or change its classes |
| Cursor.Follower.OnFrame | src/nextgen.js:323-326 | the frame moves the cursor to the event that scheduled it and clears the request |
| Cursor.Follower.OnEnter | src/nextgen.js:332 | entering an interactive element adds `hover` |
| Cursor.Follower.OnLeave | src/nextgen.js:333 | leaving an interactive element removes `hover` |
| Cursor.Follower.OnMouseDown | src/nextgen.js:337 | mouse down adds `clicking` |
| Cursor.Follower.OnMouseUp | src/nextgen.js:338 | mouse up removes `clicking` |
| Cursor.InitCustomCursor | src/nextgen.js:269 | the custom cursor exists exactly when the window is wider than 768 pixels |
| Wheel.Step | src/nextgen.js:184-195 | a particle is emitted exactly on a move while dragging at least 50 ms after the last one, at the move's time and position; rejected events keep the last emission time; down sets and up clears the flag |
| Wheel.WheelDrag.constructor | src/nextgen.js:181-182 | the limiter starts not dragging with last emission time 0 |
| Wheel.WheelDrag.OnContainerMouseDown | src/nextgen.js:184 | mousedown on the container sets the dragging flag |
| Wheel.WheelDrag.OnDocumentMouseUp | src/nextgen.js:185 | mouseup on the document clears the dragging flag |
| Wheel.WheelDrag.OnContainerMouseMove | src/nextgen.js:187-195 | a move emits a particle at its position exactly when dragging and at least 50 ms after the last emission, and records the time only then |
| Wheel.EmissionsSpaced | src/nextgen.js:190-192 | over any event sequence and any clock, consecutive emissions are at least 50 ms apart, and the first is at least 50 ms after the starting time |
| Wheel.LastParticleTimeAfterRun | src/nextgen.js:190-192 | after a run, the last emission time is the time of the last particle emitted, or unchanged when none was |
| Wheel.EmissionsFromMoves | src/nextgen.js:187-194 | every emission comes from a move event at the same time and position |
| Wheel.EmissionsInWindow | src/nextgen.js:190-192 | when all moves fall in a window of length T, at most T/50 + 1 particles are emitted |
| Wheel.NoDragNoParticles | src/nextgen.js:184-188 | with no mousedown on the container and dragging off, no particle is emitted and the state is unchanged |
| Sound.SoundEffects.constructor | src/nextgen.js:477 | no audio context exists at first |
| Sound.SoundEffects.CreateAudioContext | src/nextgen.js:479-484 | the first successful call stores a fresh context; every later call returns that same handle and creates none; a constructor failure leaves none stored |
| Sound.SoundEffects.PlayCue | src/nextgen.js:487-554 | a cue plays exactly when a context exists or can now be created; a failure is swallowed and keeps the stored context |
| Startup.Init | src/nextgen.js:12-55 | under reduced motion, or when either GSAP or ScrollTrigger is undefined, nothing is called; otherwise the plugin is registered first, Lenis is started exactly when defined, and the eight feature initializers end the call list in their fixed order |
| Startup.InitCallsEachFeatureOnce | src/nextgen.js:48-55 | each feature initializer is called exactly once per `init` that gets past its early returns, and never otherwise |
| Startup.InitLogEarlyReturns | src/nextgen.js:13-24 | runs of `init` that all stop at an early return call nothing |
| Startup.Begin | src/nextgen.js:624-643 | with `js-ready` present `init` runs once at once, with the libraries defined then, and no observer or timer exists; otherwise both are armed and nothing has run |
| Startup.ReadinessGate.constructor | src/nextgen.js:624-643 | the gate starts in the state `waitForReadyAndInit` leaves |
| Startup.ReadinessGate.OnClassMutation | src/nextgen.js:630-635 | the observer callback performs one step of the gate, with the libraries defined at that moment |
| Startup.ReadinessGate.OnTimeout | src/nextgen.js:639-642 | the timer callback performs one step of the gate, with the libraries defined at that moment |
| Startup.ReadinessGate.CallInit | src/nextgen.js:12-55 | one run of `init` records what it saw of the libraries and appends its calls to the log |
| Startup.StepConsistent | src/nextgen.js:630-642 | each callback keeps runs plus live callbacks at most two, and the log equal to what the runs did |
| Startup.RunConsistent | src/nextgen.js:624-644 | after any events, runs so far plus live callbacks never exceed two, and the call log is the concatenation of what each run of `init` did with the libraries it saw |
| Startup.AtMostTwoRuns | src/nextgen.js:624-644 | `init` runs at most twice whenever the libraries appear, the log is what those runs did, and under reduced motion no initializer ever runs |
| Startup.ReadyAtStart | src/nextgen.js:626-627 | with `js-ready` present, `init` runs once and no later event changes anything |
| Startup.RunIdle | src/nextgen.js:630-631 | class changes without `js-ready` leave the gate as it was |
| Startup.RunAfterDisconnect | src/nextgen.js:632-641 | after the observer disconnects, class changes do nothing, and `init` runs once more exactly when the timer is still armed and GSAP is defined when it first fires |
| Startup.ObserverFirst | src/nextgen.js:630-642 | when `js-ready` appears first, the observer runs `init` once, and the timer runs it a second time exactly when it fires and GSAP is defined then |
| Startup.TimerFirst | src/nextgen.js:639-642 | when the timer fires first, `init` runs once if GSAP is defined then, not at all otherwise, and never again |
| Startup.DoubleInit | src/nextgen.js:630-642 | `js-ready` appearing and then the timer firing with GSAP defined runs `init` twice, and the log holds both runs |
| Startup.LateLibraries | src/nextgen.js:630-642 | when the observer's `init` returns early because GSAP is not loaded yet and the libraries have loaded by the time the timer fires, the timer's `init` runs every feature initializer |
| Startup.StepCleared | src/nextgen.js:630-642 | the corrected observer also clears the timer; every other step is unchanged |
| Startup.StepClearedConsistent | src/nextgen.js:630-642 | each corrected callback keeps runs plus the armed timer at most one |
| Startup.ClearedInitAtMostOnce | src/nextgen.js:624-644 | with the timer cleared by the observer, `init` runs at most once, whatever the order of the callbacks and whenever the libraries appear |

## Left out

- GSAP tweens, staggers and ScrollTrigger configuration of the title, the
  progress bar, parallax and the CTA reveal: these are declarative calls into
  a library outside this model. A tilt target records which event the
  rotation was computed from, not the rotation.
- Lenis options, its easing formula and the ticker bridge: third-party code
  and floating-point math. `Startup.Init` records only that Lenis is started
  when defined.
- Tilt and magnetic-pull offsets, magnetic buttons, ripples, the
  glassmorphism and text effects: floating-point pixel math and styling.
  Their initializers appear only as calls in `Startup.Init`.
- The Web Audio graphs of the cues (oscillators, gains, frequencies,
  envelopes, timings), resuming a suspended context, and `navigator.vibrate`:
  foreign APIs with float-second scheduling.
- Which browser constructor is used (`AudioContext` or
  `webkitAudioContext`): a parameter `constructible` says whether
  construction succeeds.
- Sound.SoundEffects.CreateAudioContext: when the context constructor
  throws, `createAudioContext` lets the exception propagate; the model
  returns `null` instead. This agrees with the source at every call site
  only because each cue wraps the call in a try/catch that swallows it.
- DOM element creation, inline CSS, particle elements and random offsets,
  console messages, and the `.hero-title` existence check.
- `requestAnimationFrame`, `MutationObserver`, `setTimeout`,
  `DOMContentLoaded` and `Date.now()`: these become abstract events and
  parameters of the state machines. Pointer coordinates are integers.

## Findings

| source | as written | input that shows it | evidently intended | confidence | as-written member | corrected member |
|---|---|---|---|---|---|---|
| src/nextgen.js:630-642 | the observer disconnects and runs `init`, but never clears the 2-second fallback timer, which then runs `init` again | `js-ready` is added before 2 s with GSAP defined, then the timer fires | the fallback runs `init` only if `js-ready` never appeared, so `init` runs at most once | not executed | Startup.DoubleInit | Startup.ClearedInitAtMostOnce |
