/**
 * Everything the player prints, as values. Each command returns the lines it
 * would print, in order; `Text` renders a line with the player's exact wording.
 */
module Messages {
  import opened Wrappers
  import opened Strings
  import opened Library

  /** The command a "Cannot ..." line belongs to; the playlist name is the one the user typed. */
  datatype Action =
    | Play | Stop | Pause | Continue
    | Create | AddTo(playlist: string) | Show(playlist: string)
    | RemoveFrom(playlist: string) | Clear(playlist: string) | Delete(playlist: string)
    | Flag | Allow

  /** Why a command was refused. */
  datatype Problem =
    | NoVideoPlaying | NotPaused
    | VideoMissing | VideoFlagged(reason: string)
    | DuplicatePlaylist | PlaylistMissing
    | AlreadyAdded | NotInPlaylist
    | AlreadyFlagged | NotFlagged

  datatype Message =
    | Cannot(action: Action, problem: Problem)
    // playback
    | Playing(title: string) | Stopping(title: string) | NoVideosAvailable
    | Pausing(title: string) | AlreadyPaused(title: string) | Continuing(title: string)
    | NothingPlaying | NowPlaying(video: Video, paused: bool)
    // listings
    | AllVideosHeader | VideoLine(video: Video, flag: Option<string>)
    // playlists
    | PlaylistCreated(name: string) | Added(name: string, title: string)
    | NoPlaylists | PlaylistsHeader | PlaylistName(name: string)
    | ShowingPlaylist(name: string) | EmptyPlaylist
    | Removed(name: string, title: string) | Cleared(name: string) | Deleted(name: string)
    // search
    | ResultsHeader(query: string) | ResultLine(number: nat, video: Video) | SelectionPrompt
    | NoResults(query: string)
    // moderation
    | FlagAdded(title: string, reason: string) | FlagRemoved(title: string)

  /** The line starts with "Cannot ". */
  predicate StartsWithCannot(line: string) {
    |line| >= 7 && line[..7] == "Cannot "
  }

  /** Text appended to a refusal's prefix keeps the prefix. */
  lemma CannotPrefixKept(head: string, tail: string)
    requires StartsWithCannot(head)
    ensures StartsWithCannot(head + tail)
  {
    assert (head + tail)[..7] == head[..7];
  }

  /** Every refusal starts with "Cannot ". */
  function ActionText(a: Action): (r: string)
    ensures StartsWithCannot(r)
  {
    match a
    case Play => "Cannot play video: "
    case Stop => "Cannot stop video: "
    case Pause => "Cannot pause video: "
    case Continue => "Cannot continue video: "
    case Create => "Cannot create playlist: "
    case AddTo(p) => "Cannot add video to " + p + ": "
    case Show(p) => "Cannot show playlist " + p + ": "
    case RemoveFrom(p) => "Cannot remove video from " + p + ": "
    case Clear(p) => "Cannot clear playlist " + p + ": "
    case Delete(p) => "Cannot delete playlist " + p + ": "
    case Flag => "Cannot flag video: "
    case Allow => "Cannot remove flag from video: "
  }

  function ProblemText(p: Problem): string {
    match p
    case NoVideoPlaying => "No video is currently playing"
    case NotPaused => "Video is not paused"
    case VideoMissing => "Video does not exist"
    case VideoFlagged(r) => "Video is currently flagged (reason: " + r + ")"
    case DuplicatePlaylist => "A playlist with the same name already exists"
    case PlaylistMissing => "Playlist does not exist"
    case AlreadyAdded => "Video already added"
    case NotInPlaylist => "Video is not in playlist"
    case AlreadyFlagged => "Video is already flagged"
    case NotFlagged => "Video is not flagged"
  }

  function FlagSuffix(flag: Option<string>): string {
    match flag
    case None => ""
    case Some(r) => " - FLAGGED (reason: " + r + ")"
  }

  /** The printed line, with the program's exact wording; a refusal starts with "Cannot ". */
  function Text(m: Message): (r: string)
    ensures m.Cannot? ==> StartsWithCannot(r)
  {
    match m
    case Cannot(a, p) =>
      CannotPrefixKept(ActionText(a), ProblemText(p));
      ActionText(a) + ProblemText(p)
    case _ => NoticeText(m)
  }

  /** The wording of every line that is not a refusal. */
  function NoticeText(m: Message): string
    requires !m.Cannot?
  {
    match m
    case Playing(t) => "Playing video: " + t
    case Stopping(t) => "Stopping video: " + t
    case NoVideosAvailable => "No videos available"
    case Pausing(t) => "Pausing video: " + t
    case AlreadyPaused(t) => "Video already paused: " + t
    case Continuing(t) => "Continuing video: " + t
    case NothingPlaying => "No video is currently playing"
    case NowPlaying(v, paused) => "Currently playing: " + FormatVideo(v) + (if paused then " - PAUSED" else "")
    case AllVideosHeader => "Here's a list of all available videos:"
    case VideoLine(v, flag) => "  " + FormatVideo(v) + FlagSuffix(flag)
    case PlaylistCreated(n) => "Successfully created new playlist: " + n
    case Added(n, t) => "Added video to " + n + ": " + t
    case NoPlaylists => "No playlists exist yet"
    case PlaylistsHeader => "Showing all playlists:"
    case PlaylistName(n) => "  " + n
    case ShowingPlaylist(n) => "Showing playlist: " + n
    case EmptyPlaylist => "  No videos here yet"
    case Removed(n, t) => "Removed video from " + n + ": " + t
    case Cleared(n) => "Successfully removed all videos from " + n
    case Deleted(n) => "Deleted playlist: " + n
    case ResultsHeader(q) => "Here are the results for " + q + ":"
    case ResultLine(k, v) => "  " + Decimal(k) + ") " + FormatVideo(v)
    case SelectionPrompt =>
      "Would you like to play any of the above? If yes, specify the number of the video. \n"
      + "            If your answer is not a valid number, we will assume it's a no."
    case NoResults(q) => "No search results for " + q
    case FlagAdded(t, r) => "Successfully flagged video: " + t + " (reason: " + r + ")"
    case FlagRemoved(t) => "Successfully removed flag from video: " + t
  }

  /** Some line of `out` is a refusal ("Cannot ..."). */
  predicate Refused(out: seq<Message>) {
    exists i :: 0 <= i < |out| && out[i].Cannot?
  }
}
