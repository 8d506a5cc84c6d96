/** The narration hook: one audio element at a time, a generating flag and a
    playing flag, driven by generate, toggle and the element's own events.

    Speech synthesis and `audio.play()` are outside the model; each appears as
    an outcome parameter (`true` for success). `generateAndPlayNarration` has
    two `await`s, so it is split into the three steps that run between them;
    other events (a toggle, an audio event, another generate request) may run
    in between. `GenerateAndPlay` runs the three back to back. */
module Narration {

  /** An object URL made by `URL.createObjectURL`, numbered in creation order. */
  type Url = nat

  /** The `HTMLAudioElement` as far as the hook touches it. */
  class Audio {
    const url: Url
    var paused: bool
    /** `currentTime`. */
    var position: nat

    /** `new Audio(url)`: a paused element at the start of its media. */
    constructor (url: Url)
      ensures this.url == url && paused && position == 0
    {
      this.url := url;
      paused := true;
      position := 0;
    }
  }

  /** Which listener fired. Both do the same to the hook's state; the error
      listener also shows a toast. */
  datatype AudioEvent = Ended | Error

  class Narrator {
    var isGenerating: bool
    var isPlaying: bool
    /** `audioRef.current`. */
    var audio: Audio?
    /** Number of object URLs created so far; the next one gets this number. */
    var nextUrl: nat
    /** Object URLs created and not yet revoked. */
    var live: set<Url>

    /** The hook's invariant: playing implies there is an element, and every
        URL in use was handed out. */
    ghost predicate Valid()
      reads this
    {
      && (isPlaying ==> audio != null)
      && (audio != null ==> audio.url < nextUrl)
      && (forall u :: u in live ==> u < nextUrl)
    }

    constructor ()
      ensures Valid()
      ensures !isGenerating && !isPlaying && audio == null && nextUrl == 0 && live == {}
    {
      isGenerating := false;
      isPlaying := false;
      audio := null;
      nextUrl := 0;
      live := {};
    }

    /** `stopCurrentAudio`: with an element, pause it, rewind it to 0 and clear
        `isPlaying`; without one, change nothing. */
    method StopCurrentAudio()
      requires Valid()
      modifies this`isPlaying, audio
      ensures Valid()
      ensures audio == old(audio)
      ensures audio != null ==> audio.paused && audio.position == 0 && !isPlaying
      ensures audio == null ==> isPlaying == old(isPlaying)
    {
      if audio != null {
        audio.paused := true;
        audio.position := 0;
        isPlaying := false;
      }
    }

    /** `generateAndPlayNarration` up to its first `await`: nothing while a
        generation is in flight; otherwise stop the current element and set
        `isGenerating`. */
    method BeginNarration() returns (started: bool)
      requires Valid()
      modifies this`isGenerating, this`isPlaying, audio
      ensures Valid()
      ensures started <==> !old(isGenerating)
      ensures !started ==> isPlaying == old(isPlaying) && isGenerating
      ensures !started && audio != null ==> unchanged(audio)
      ensures started ==> isGenerating && !isPlaying
      ensures started && audio != null ==> audio.paused && audio.position == 0
      ensures audio == old(audio)
    {
      if isGenerating {
        return false;
      }
      StopCurrentAudio();
      isGenerating := true;
      started := true;
    }

    /** The synthesis request has settled. On success, create an object URL
        for the audio, a new element on it, and install that element; the
        listeners it gets are `HandleAudioEvent`. On failure, the `catch` and
        `finally` run: the old, already stopped element stays installed and
        `isGenerating` is cleared. */
    method NarrationSynthesized(ok: bool) returns (installed: Audio?)
      requires Valid() && isGenerating
      modifies this`audio, this`nextUrl, this`live, this`isGenerating
      ensures Valid()
      ensures ok ==> installed != null && fresh(installed) && audio == installed
      ensures ok ==> installed.url == old(nextUrl) && installed.paused && installed.position == 0
      ensures ok ==> live == old(live) + {installed.url} && nextUrl == old(nextUrl) + 1 && isGenerating
      ensures !ok ==> installed == null && audio == old(audio) && !isGenerating
      ensures !ok ==> live == old(live) && nextUrl == old(nextUrl)
    {
      if !ok {
        isGenerating := false;
        return null;
      }
      var url := nextUrl;
      nextUrl := nextUrl + 1;
      live := live + {url};
      installed := new Audio(url);
      audio := installed;
    }

    /** `await audio.play()` has settled, for the element installed by the
        previous step (nothing else assigns `audioRef` while `isGenerating`
        holds). On success the element plays and `isPlaying` is set; on failure
        the element stays installed and `isPlaying` is not touched. Either way
        `isGenerating` is cleared. */
    method PlaybackSettled(a: Audio, ok: bool)
      requires Valid() && isGenerating && a == audio
      modifies this`isPlaying, this`isGenerating, a
      ensures Valid()
      ensures ok ==> !a.paused && isPlaying
      ensures !ok ==> a.paused == old(a.paused) && isPlaying == old(isPlaying)
      ensures a.position == old(a.position) && !isGenerating
    {
      if ok {
        a.paused := false;
        isPlaying := true;
      }
      isGenerating := false;
    }

    /** `generateAndPlayNarration` run to completion with no other event in
        between. */
    method GenerateAndPlay(synthOk: bool, playOk: bool)
      requires Valid()
      modifies this, audio
      ensures Valid()
      ensures old(isGenerating) ==> unchanged(this) && (old(audio) != null ==> unchanged(old(audio)))
      ensures !old(isGenerating) ==> !isGenerating
      ensures !old(isGenerating) && old(audio) != null ==> old(audio).paused && old(audio).position == 0
      ensures !old(isGenerating) && synthOk ==>
        && audio != null && fresh(audio) && audio.url == old(nextUrl)
        && nextUrl == old(nextUrl) + 1 && audio.position == 0
        && live == old(live) + {audio.url}
        && (isPlaying <==> playOk) && (audio.paused <==> !playOk)
      ensures !old(isGenerating) && !synthOk ==>
        audio == old(audio) && !isPlaying && live == old(live) && nextUrl == old(nextUrl)
    {
      var started := BeginNarration();
      if !started {
        return;
      }
      var installed := NarrationSynthesized(synthOk);
      if installed != null {
        PlaybackSettled(installed, playOk);
      }
    }

    /** `togglePlayback`: nothing without an element; otherwise pause it when
        `isPlaying`, else call `play()` and set `isPlaying`. The `play()` call is
        not awaited, so `isPlaying` is set even when it fails (`playOk` false)
        and the element stays paused. */
    method TogglePlayback(playOk: bool)
      requires Valid()
      modifies this`isPlaying, audio
      ensures Valid()
      ensures audio == old(audio)
      ensures audio == null ==> isPlaying == old(isPlaying)
      ensures audio != null && old(isPlaying) ==> audio.paused && !isPlaying
      ensures audio != null && !old(isPlaying) ==> isPlaying && (audio.paused <==> old(audio.paused) && !playOk)
      ensures audio != null ==> audio.position == old(audio.position)
    {
      if audio == null {
        return;
      }
      if isPlaying {
        audio.paused := true;
        isPlaying := false;
      } else {
        if playOk {
          audio.paused := false;
        }
        isPlaying := true;
      }
    }

    /** The `ended` and `error` listeners of element `a` (which may no longer
        be the installed one): clear `isPlaying` and revoke `a`'s object URL. */
    method HandleAudioEvent(a: Audio, event: AudioEvent)
      requires Valid()
      modifies this`isPlaying, this`live
      ensures Valid()
      ensures !isPlaying && live == old(live) - {a.url}
    {
      isPlaying := false;
      live := live - {a.url};
    }
  }
}
