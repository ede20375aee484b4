/**
 * The lazily created audio context of the sound effects (src/nextgen.js,
 * initSoundEffects): `createAudioContext` constructs a context on its first
 * successful call and returns that same handle on every later call. Every
 * cue (hover, click, success) first asks for the context inside a
 * try/catch, so a constructor that throws only silences that cue; the next
 * cue tries again. The oscillator and gain graphs of the cues are not
 * modelled.
 */
module Sound {

  /** A Web Audio context: only its identity matters here. */
  class AudioContext {
    constructor ()
    {
    }
  }

  /** The three cues the page plays. */
  datatype Cue = HoverCue | ClickCue | SuccessCue

  class SoundEffects {

    /** `audioCtx`: null until a context has been constructed. */
    var audioCtx: AudioContext?

    /** How many contexts have been constructed. */
    ghost var created: nat

    /** At most one context is ever constructed, and it is the stored one. */
    ghost predicate Valid()
      reads this
    {
      created == if audioCtx == null then 0 else 1
    }

    constructor ()
      ensures Valid() && audioCtx == null
    {
      audioCtx := null;
      created := 0;
    }

    /** `createAudioContext()`. `constructible` says whether
        `new (window.AudioContext || window.webkitAudioContext)()` succeeds
        now; when it throws, the result is null and nothing is stored. */
    method CreateAudioContext(constructible: bool) returns (ctx: AudioContext?)
      requires Valid()
      modifies this
      ensures Valid() && audioCtx == ctx
      ensures old(audioCtx) != null ==> ctx == old(audioCtx) && created == old(created)
      ensures old(audioCtx) == null && constructible ==> ctx != null && fresh(ctx)
      ensures old(audioCtx) == null && !constructible ==> ctx == null
    {
      if audioCtx == null {
        if constructible {
          audioCtx := new AudioContext();
          created := created + 1;
        }
      }
      ctx := audioCtx;
    }

    /** `playHoverSound`, `playClickSound`, `playSuccessSound`: the cue is
        scheduled on the shared context, or skipped silently when no context
        can be had. */
    method PlayCue(cue: Cue, constructible: bool) returns (played: bool)
      requires Valid()
      modifies this
      ensures Valid()
      ensures played <==> audioCtx != null
      ensures old(audioCtx) != null ==> audioCtx == old(audioCtx)
      ensures played <==> old(audioCtx) != null || constructible
    {
      var ctx := CreateAudioContext(constructible);
      played := ctx != null;
    }
  }

  /** Every cue after the first successful one shares the first one's context,
      and a failed attempt does not prevent a later one. */
  method CuesShareOneContext()
  {
    var sounds := new SoundEffects();
    var first := sounds.CreateAudioContext(false);
    assert first == null && sounds.created == 0;
    var second := sounds.CreateAudioContext(true);
    assert second != null && sounds.created == 1;
    var played := sounds.PlayCue(SuccessCue, false);
    assert played && sounds.audioCtx == second && sounds.created == 1;
  }
}
