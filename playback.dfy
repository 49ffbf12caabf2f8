/**
 * The player's single playback slot as a state machine: Idle (nothing
 * loaded), Playing (loaded, not paused) and Paused. Each transition gives the
 * next state and the lines printed. `VideoPlayer` updates its fields
 * `current` and `paused` exactly as these functions say.
 */
module Playback {
  import opened Wrappers
  import opened Library
  import opened Messages

  datatype Session = Session(current: Option<Video>, paused: bool)

  datatype Transition = Transition(next: Session, out: seq<Message>)

  const Idle := Session(None, false)

  /**
   * The slot is consistent with the catalog and the flags: paused only with a
   * video loaded, and a loaded video is a catalog video that is not flagged.
   */
  ghost predicate SessionOk(c: Catalog, flags: map<VideoId, string>, s: Session) {
    ValidCatalog(c) &&
    (s.paused ==> s.current.Some?) &&
    (s.current.Some? ==> GetVideo(c, s.current.value.id) == s.current && s.current.value.id !in flags)
  }

  /** The "Stopping video" line printed before another video replaces the loaded one. */
  function StopNotice(s: Session): seq<Message> {
    if s.current.Some? then [Stopping(s.current.value.title)] else []
  }

  /**
   * `play_video`: an unknown id is refused first, a flagged id second; both
   * leave the slot as it was. Otherwise the video is loaded, not paused, and
   * a loaded video is reported stopped before the new one is reported playing.
   */
  function StartPlaying(c: Catalog, flags: map<VideoId, string>, s: Session, id: VideoId): (t: Transition)
    requires ValidCatalog(c)
    ensures GetVideo(c, id).None? ==> t == Transition(s, [Cannot(Play, VideoMissing)])
    ensures GetVideo(c, id).Some? && id in flags ==> t == Transition(s, [Cannot(Play, VideoFlagged(flags[id]))])
    ensures GetVideo(c, id).Some? && id !in flags ==>
      t.next == Session(GetVideo(c, id), false) &&
      t.out == StopNotice(s) + [Playing(GetVideo(c, id).value.title)]
  {
    match GetVideo(c, id)
    case None => Transition(s, [Cannot(Play, VideoMissing)])
    case Some(v) =>
      if id in flags then Transition(s, [Cannot(Play, VideoFlagged(flags[id]))])
      else if s.current.None? then Transition(Session(Some(v), false), [Playing(v.title)])
      else Transition(Session(Some(v), false), [Stopping(s.current.value.title), Playing(v.title)])
  }

  /** `stop_video`: a loaded video is unloaded; with none, the command is refused. */
  function StopPlayback(s: Session): (t: Transition)
    requires s.paused ==> s.current.Some?
    ensures t.next == Idle
    ensures t.out == (if s.current.Some? then [Stopping(s.current.value.title)] else [Cannot(Stop, NoVideoPlaying)])
  {
    if s.current.None? then Transition(s, [Cannot(Stop, NoVideoPlaying)])
    else Transition(Idle, [Stopping(s.current.value.title)])
  }

  /** `pause_video`: the loaded video stays loaded and ends up paused. */
  function PausePlayback(s: Session): (t: Transition)
    requires s.paused ==> s.current.Some?
    ensures t.next.current == s.current
    ensures t.next.paused <==> s.current.Some?
    ensures s.current.None? ==> t.out == [Cannot(Pause, NoVideoPlaying)]
    ensures s.current.Some? && s.paused ==> t.out == [AlreadyPaused(s.current.value.title)]
    ensures s.current.Some? && !s.paused ==> t.out == [Pausing(s.current.value.title)]
  {
    if s.current.None? then Transition(s, [Cannot(Pause, NoVideoPlaying)])
    else if s.paused then Transition(s, [AlreadyPaused(s.current.value.title)])
    else Transition(Session(s.current, true), [Pausing(s.current.value.title)])
  }

  /**
   * `continue_video`: the paused flag is tested first, so a paused slot
   * resumes; otherwise the refusal says whether anything is loaded.
   */
  function ContinuePlayback(s: Session): (t: Transition)
    requires s.paused ==> s.current.Some?
    ensures t.next.current == s.current
    ensures !t.next.paused
    ensures s.paused ==> t.out == [Continuing(s.current.value.title)]
    ensures !s.paused && s.current.None? ==> t.out == [Cannot(Continue, NoVideoPlaying)]
    ensures !s.paused && s.current.Some? ==> t.out == [Cannot(Continue, NotPaused)]
  {
    if s.paused then Transition(Session(s.current, false), [Continuing(s.current.value.title)])
    else if s.current.None? then Transition(s, [Cannot(Continue, NoVideoPlaying)])
    else Transition(s, [Cannot(Continue, NotPaused)])
  }

  // ---------------------------------------------------------------------
  // Properties of the state machine
  // ---------------------------------------------------------------------

  /** Every transition keeps the slot consistent with the catalog and the flags. */
  lemma TransitionsKeepSessionOk(c: Catalog, flags: map<VideoId, string>, s: Session, id: VideoId)
    requires SessionOk(c, flags, s)
    ensures SessionOk(c, flags, StartPlaying(c, flags, s, id).next)
    ensures SessionOk(c, flags, StopPlayback(s).next)
    ensures SessionOk(c, flags, PausePlayback(s).next)
    ensures SessionOk(c, flags, ContinuePlayback(s).next)
  {
  }

  /** A refused play leaves the slot exactly as it was. */
  lemma RefusedPlayChangesNothing(c: Catalog, flags: map<VideoId, string>, s: Session, id: VideoId)
    requires ValidCatalog(c)
    requires Refused(StartPlaying(c, flags, s, id).out)
    ensures StartPlaying(c, flags, s, id).next == s
  {
  }

  /** Pausing twice is pausing once, and the second pause only reports "already paused". */
  lemma PauseIdempotent(s: Session)
    requires s.paused ==> s.current.Some?
    ensures PausePlayback(PausePlayback(s).next).next == PausePlayback(s).next
    ensures s.current.Some? ==> PausePlayback(PausePlayback(s).next).out == [AlreadyPaused(s.current.value.title)]
  {
  }

  /** Pausing a playing video and continuing it returns to where it was. */
  lemma PauseThenContinue(s: Session)
    requires s.current.Some? && !s.paused
    ensures ContinuePlayback(PausePlayback(s).next).next == s
  {
  }
}
