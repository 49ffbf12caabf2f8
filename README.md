# Video player — a Dafny model

This project models the core of a small command-line video player. The player
keeps a read-only catalog of videos (title, id, tags), one playback slot (the
loaded video and whether it is paused), named playlists stored under the
lower-cased form of their name, and a registry of flagged videos with the reason
each was flagged. Every command checks its conditions in a fixed order,
reports the first failing one and then leaves all state unchanged. Otherwise it
updates the state and reports what it did.

The Dafny files follow the program's structure:

- `wrappers.dfy`: `Option`.
- `strings.dfy`: ASCII lower-casing, the string order used for sorting,
  `str.find`, `str(n)` / `int(s)` for the numbered search answers, and
  `str.rstrip()`.
- `sequences.dfy`: list comprehensions as `Filter`, `dict.pop` order as
  `Without`, and `list.sort(key=...)` as a stable insertion sort `SortBy`.
  `SortBy` is proved to be a permutation, sorted and stable.
- `library.dfy`: the `Video` record, the catalog as a map plus its order, and
  `get_tags` / `format_video`.
- `messages.dfy`: every printed line as a value. `Text` renders each value
  with the program's wording.
- `playlist.dfy`: the `Playlist` class. Its insertion-ordered dictionary is kept
  as a sequence of ids plus a map from id to video.
- `playback.dfy`: the playback slot as a state machine. Its transition
  functions specify the player's play, stop, pause and continue commands.
- `search.dfy`: what the two searches list, and which answer selects a result.
- `video_player.dfy`: the `VideoPlayer` class. Its fields are updated in place
  by one method per command. Each method returns the lines it prints.

The player's invariant `VideoPlayer.Valid` says four things:

- paused implies a video is loaded;
- the loaded video is a catalog video and is never flagged;
- only catalog videos are flagged;
- every playlist is stored under the lower-cased form of its display name, holds only catalog entries, and is a distinct object.

Every command that changes state requires and ensures it; the read-only commands change nothing.

## Model

| member | source | states |
|---|---|---|
| Strings.Lower | python/src/video_player.py:210 | `lower()` keeps the length and lower-cases each ASCII letter; the result has no upper-case letter |
| Strings.LowerIdempotent | python/src/video_player.py:210-213 | lower-casing a stored key again gives the key itself |
| Strings.LessEqReflexive | python/src/video_player.py:262 | the string order used by `sort()` is reflexive |
| Strings.LessEqTotal | python/src/video_player.py:262 | any two strings are comparable |
| Strings.LessEqAntisymmetric | python/src/video_player.py:262 | strings that are ordered both ways are equal |
| Strings.LessEqTransitive | python/src/video_player.py:262 | the order is transitive |
| Strings.FindFrom | python/src/video_player.py:374 | the first position at or after `i` where the pattern occurs, or -1 when there is none |
| Strings.Find | python/src/video_player.py:374 | `find` returns -1 exactly when the pattern occurs nowhere; otherwise it returns the first position where it occurs |
| Strings.Decimal | python/src/video_player.py:395 | `str(n)` is a non-empty string of digits with no leading zero |
| Strings.ParseDecimal | python/src/video_player.py:399 | `int(s)` of a digit string is zero exactly when every digit is '0' |
| Strings.ParseDecimalOfDecimal | python/src/video_player.py:395-399 | `int(str(n)) == n` |
| Strings.DecimalOfParseDecimal | python/src/video_player.py:395-399 | `str(int(s)) == s` for a non-empty digit string without a leading zero |
| Strings.DecimalInjective | python/src/video_player.py:395-397 | distinct numbers have distinct labels |
| Strings.RStrip | python/src/video_player.py:18 | `rstrip()` removes exactly the trailing whitespace, every character `str.isspace()` accepts (ASCII and Unicode spaces): the result is a prefix that ends in a non-space, and everything cut off is whitespace |
| Sequences.Filter | python/src/video_player.py:144 | a comprehension keeps only elements that pass the test, and every element that passes |
| Sequences.FilterStep | python/src/video_player.py:370-375 | one more loop iteration appends the element exactly when it passes |
| Sequences.FilterMembers | python/src/video_player.py:144 | an element is kept exactly when it is in the input and passes the test |
| Sequences.FilterDistinct | python/src/video_player.py:144 | a comprehension over a list without duplicates yields a list without duplicates |
| Sequences.FilterAgree | python/src/video_player.py:374 | two tests that agree on every element keep the same elements |
| Sequences.Without | python/src/video_playlist.py:36 | removing a key keeps only the other keys and keeps all of them |
| Sequences.WithoutAbsent | python/src/video_playlist.py:36 | removing an absent key changes nothing |
| Sequences.WithoutAppend | python/src/video_playlist.py:36 | removal distributes over concatenation |
| Sequences.WithoutAt | python/src/video_playlist.py:36 | removing a present key from a duplicate-free list removes exactly its position and keeps the order of the rest |
| Sequences.InsertBySorted | python/src/video_player.py:77 | inserting into a sorted list keeps it sorted |
| Sequences.InsertByWithKey | python/src/video_player.py:77 | an inserted element goes before the existing elements with an equal key |
| Sequences.SortBy | python/src/video_player.py:77 | `sort(key=...)` returns a permutation of its input: the same elements with the same multiplicities |
| Sequences.SortBySorted | python/src/video_player.py:77 | the sorted list is in ascending key order |
| Sequences.SortByStable | python/src/video_player.py:77 | the elements with any one key keep their relative order (stability) |
| Sequences.SortByMembers | python/src/video_player.py:77 | sorting neither adds nor drops an element |
| Sequences.InsertByDistinct | python/src/video_player.py:77 | inserting a new element into a list without duplicates keeps it without duplicates |
| Sequences.SortByDistinct | python/src/video_player.py:77 | sorting a list without duplicates yields a list without duplicates |
| Library.GetVideo | python/src/video_player.py:100 | a lookup succeeds exactly for catalog ids and returns the catalog's own entry for that id |
| Library.AllVideos | python/src/video_player.py:143 | all catalog videos, in catalog order, each the catalog's entry for its id, none twice |
| Library.GetTags | python/src/video_player.py:7-20 | no tags give the empty string; the result never ends in whitespace |
| Library.SpaceTerminatedIsJoin | python/src/video_player.py:15-16 | the `+=` loop builds the tags joined by spaces, followed by a space |
| Library.GetTagsIsJoin | python/src/video_player.py:13-18 | when the last tag is non-empty and does not end in whitespace, the tags are joined by single spaces |
| Library.FormatVideo | python/src/video_player.py:23-37 | `title (id) [tags]`, field by field |
| Messages.ActionText | python/src/video_player.py:225 | every refusal starts with "Cannot " |
| Messages.CannotPrefixKept | python/src/video_player.py:225 | the problem text appended to a refusal prefix keeps the "Cannot " start |
| Messages.Text | python/src/video_player.py:104-501 | the printed wording of each line, including the two-line prompt; a refusal's line starts with "Cannot " |
| VideoPlaylist.Playlist.constructor | python/src/video_playlist.py:7-9 | a new playlist has the given name and no entries |
| VideoPlaylist.Playlist.GetVideos | python/src/video_playlist.py:14-15 | the values, in the order of their keys |
| VideoPlaylist.Playlist.GetVideoIds | python/src/video_playlist.py:17-18 | the keys, each once, in the order of the values |
| VideoPlaylist.Playlist.CheckVideo | python/src/video_playlist.py:20-25 | true exactly when the id is a key, that is, when it is listed by `get_video_id` |
| VideoPlaylist.Playlist.AddVideo | python/src/video_playlist.py:27-33 | a present id returns False and changes nothing; a new id returns True and is appended with its video at the end; the keys stay distinct |
| VideoPlaylist.Playlist.RemoveVideo | python/src/video_playlist.py:35-36 | returns the entry or None; the other keys keep their order and the key is gone |
| VideoPlaylist.Playlist.ClearPlaylist | python/src/video_playlist.py:38-39 | no entries left; the name cannot change |
| VideoPlaylist.DistinctAppend | python/src/video_playlist.py:29-32 | appending an id that is not present keeps the ids distinct |
| VideoPlaylist.DistinctRemoveAt | python/src/video_playlist.py:36 | removing one position keeps the ids distinct |
| VideoPlaylist.RemoveAfterAdd | python/src/video_playlist.py:27-36 | appending a new id and removing it gives back the original ids in order |
| VideoPlaylist.AddThenRemove | python/src/video_playlist.py:27-36 | `add_video` then `remove_video` of a new id returns that video and restores the entries and their order |
| Playback.StartPlaying | python/src/video_player.py:100-121 | an unknown id is refused first and a flagged id second, both without change; otherwise the video is loaded unpaused, after a "Stopping" line for a video that was loaded |
| Playback.StopPlayback | python/src/video_player.py:129-135 | the slot ends idle; a loaded video is reported stopped, and with none the command is refused |
| Playback.PausePlayback | python/src/video_player.py:158-168 | the loaded video stays loaded and ends up paused; idle and already-paused slots are reported |
| Playback.ContinuePlayback | python/src/video_player.py:176-182 | a paused slot resumes; otherwise the refusal says whether anything is loaded |
| Playback.TransitionsKeepSessionOk | python/src/video_player.py:105-135 | every transition keeps "paused implies loaded" and "the loaded video is an unflagged catalog video" |
| Playback.RefusedPlayChangesNothing | python/src/video_player.py:102-107 | a refused play leaves the slot as it was |
| Playback.PauseIdempotent | python/src/video_player.py:158-168 | pausing twice gives the same state as pausing once, and the second pause reports "already paused" |
| Playback.PauseThenContinue | python/src/video_player.py:158-182 | pausing a playing video and continuing it returns to the playing state |
| Search.Eligible | python/src/video_player.py:144 | exactly the unflagged catalog videos, each once |
| Search.ResultsAre | python/src/video_player.py:364-378 | a video is listed exactly when it is in the catalog, is unflagged and matches; the list is sorted by title, holds the catalog's entries and lists each video once |
| Search.ResultsDistinct | python/src/video_player.py:364-378 | no video appears twice among a search's results |
| Search.TitleSearchIgnoresCase | python/src/video_player.py:372-374 | terms that are equal once lower-cased give the same results |
| Search.TagSearchIgnoresQueryCase | python/src/video_player.py:423 | tags that are equal once lower-cased give the same results |
| Search.TagSearchMissesUpperCaseTags | python/src/video_player.py:423 | stored tags are not lower-cased, so a video none of whose tags is lower-case is never found by tag |
| Search.TitleHit | python/src/video_player.py:372-374 | a title matches exactly when the lower-cased term occurs somewhere in the lower-cased title |
| Search.TagHit | python/src/video_player.py:423 | a video matches exactly when one of its stored tags equals the lower-cased query, so only a tag that is already lower-case can match |
| Search.Numbered | python/src/video_player.py:382-385 | result i is printed with number i + 1 |
| Search.Labels | python/src/video_player.py:395 | the accepted answers are `str(1)` .. `str(N)` |
| Search.SelectionIff | python/src/video_player.py:393-399 | an answer selects result k exactly when 1 <= k <= N and the answer is `str(k)` |
| Search.LabelValue | python/src/video_player.py:395-399 | every accepted answer is a digit string whose value is its number, between 1 and N |
| Search.Selection | python/src/video_player.py:393-399 | a selection k is between 1 and N and the answer is `str(k)`; an answer that is no `str(k)` selects nothing |
| Player.ReasonOf | python/src/video_player.py:86-87 | the flag reason exactly for flagged ids |
| Player.Annotated | python/src/video_player.py:82-89 | one line per video, in order, carrying its flag reason when it is flagged |
| Player.CatalogListingLines | python/src/video_player.py:60-89 | one video line per catalog entry; each line is a catalog video, with its reason exactly when it is flagged |
| Player.CatalogListingComplete | python/src/video_player.py:64-89 | every catalog video is listed, flagged ones included |
| Player.CatalogListingSorted | python/src/video_player.py:77-89 | the lines are in ascending title order |
| Player.NameLines | python/src/video_player.py:263-264 | one line per name, in order |
| Player.NameLinesMembers | python/src/video_player.py:262-264 | listing any reordering of the names gives one line per name, every name listed and nothing else |
| Player.SortedNameLines | python/src/video_player.py:262-264 | sorting the names then listing them gives one line per name, every name listed and nothing else |
| Player.SortedNameLinesAscending | python/src/video_player.py:262-264 | the listed names are in ascending order |
| Player.ListSorted | python/src/video_player.py:262-264 | the sort and printing loop list exactly the names, in ascending order |
| Player.VideoPlayer.OnlyPlaylistChanged | python/src/video_player.py:217-337 | changing one well-formed playlist in place keeps the player's invariant |
| Player.VideoPlayer.PlaylistAdded | python/src/video_player.py:210-213 | storing a new well-formed playlist object under a new key keeps the player's invariant |
| Player.VideoPlayer.LookupIgnoresCase | python/src/video_player.py:210-213 | a name typed in any casing finds the playlist stored under its lower-cased name, and no other playlist has that name |
| Player.VideoPlayer.constructor | python/src/video_player.py:43-53 | nothing loaded or paused, no playlists, no flags; the invariant holds |
| Player.VideoPlayer.PlayVideo | python/src/video_player.py:91-121 | slot and output are those of `StartPlaying`; playlists and flags unchanged; invariant kept |
| Player.VideoPlayer.StopVideo | python/src/video_player.py:124-135 | slot and output are those of `StopPlayback` |
| Player.VideoPlayer.PlayRandomVideo | python/src/video_player.py:137-152 | "No videos available" and no change exactly when every video is flagged; otherwise an unflagged catalog video is playing, unpaused |
| Player.VideoPlayer.PauseVideo | python/src/video_player.py:154-168 | slot and output are those of `PausePlayback` |
| Player.VideoPlayer.ContinueVideo | python/src/video_player.py:171-182 | slot and output are those of `ContinuePlayback` |
| Player.VideoPlayer.ShowPlaying | python/src/video_player.py:184-198 | "nothing playing", or the loaded video marked when paused |
| Player.VideoPlayer.CreatePlaylist | python/src/video_player.py:202-214 | a taken lower-cased name is refused without change; otherwise a new empty playlist keeping the typed casing is stored under the lower-cased name, and the other playlists are unchanged |
| Player.VideoPlayer.AddToPlaylist | python/src/video_player.py:217-245 | the checks run in this order: playlist exists, video exists, video not flagged, video not already added; the first failure is reported and changes nothing; otherwise only that playlist gains the id at its end |
| Player.RestoreEntry | python/src/video_player.py:240-245 | appending a new id under one key and then removing it gives back the same contents for every key |
| Player.VideoPlayer.AddThenRemoveRestores | python/src/video_player.py:217-323 | `add_to_playlist` then `remove_from_playlist` of a video that is not yet in the playlist reports both steps and restores every playlist's contents and order |
| Player.VideoPlayer.CollectNames | python/src/video_player.py:257-260 | the display names of all playlists, one per playlist |
| Player.VideoPlayer.ShowAllPlaylists | python/src/video_player.py:248-264 | "no playlists" when there are none; otherwise one line per playlist, each display name present, in ascending order |
| Player.VideoPlayer.ShowPlaylist | python/src/video_player.py:268-297 | a missing playlist is refused; an empty one says so; otherwise its videos in insertion order with flag reasons |
| Player.VideoPlayer.Annotate | python/src/video_player.py:289-297 | the listing loop yields `Annotated` |
| Player.VideoPlayer.ShowAllVideos | python/src/video_player.py:60-89 | the header, then the catalog lines, whose properties `CatalogListingLines`, `CatalogListingComplete` and `CatalogListingSorted` state |
| Player.VideoPlayer.RemoveFromPlaylist | python/src/video_player.py:300-323 | the checks run in this order: video exists, playlist exists, video in playlist; the first failure changes nothing; otherwise only that id leaves that playlist, and the others keep their order |
| Player.VideoPlayer.ClearPlaylist | python/src/video_player.py:326-337 | a missing playlist is refused; otherwise only that playlist is emptied |
| Player.VideoPlayer.DeletePlaylist | python/src/video_player.py:340-351 | a missing playlist is refused; otherwise exactly that key is removed |
| Search.MatchingVideos | python/src/video_player.py:364-378 | the loop and the sort yield `Results`, whose properties `ResultsAre` states |
| Player.SearchPlaysOnlySelected | python/src/video_player.py:393-404 | a search changes the playback slot only when the answer is `str(k)` for a result number k, and then result k is loaded, unpaused |
| Player.VideoPlayer.OfferResults | python/src/video_player.py:377-404 | "no results" when empty; otherwise the numbered listing, and result k is played when the answer selects k; any other answer changes nothing |
| Player.VideoPlayer.SearchVideos | python/src/video_player.py:354-404 | the outcome (`Offered`) of the title search's `Results` and the answer; playlists and flags unchanged; invariant kept |
| Player.VideoPlayer.SearchVideosTag | python/src/video_player.py:408-452 | the outcome (`Offered`) of the tag search's `Results` and the answer; playlists and flags unchanged; invariant kept |
| Player.VideoPlayer.FlagVideo | python/src/video_player.py:456-481 | an unknown or already flagged id is refused without change; otherwise the reason is recorded (default "Not supplied"), and playback stops only when that video is the loaded one |
| Player.VideoPlayer.AllowVideo | python/src/video_player.py:484-501 | an unknown or unflagged id is refused; otherwise exactly that flag is removed |

## Left out

- The video library and how it loads the catalog from a file are not part of this model. The catalog is a fixed map from id to video plus the catalog order (`Library.Catalog`).
- `print` and the console layout: each command returns its lines as `Messages.Message` values. `Messages.Text` gives their wording. `number_of_videos` only prints and is not modelled.
- `input()` in both searches becomes the `selection` parameter.
- `random.choice` in `play_random_video` becomes a `:|` choice among the eligible videos. Only the properties of the chosen video are proved, not how it is distributed.
- `str.lower()` follows Unicode in Python. Here only ASCII letters are lower-cased; other characters are kept as they are.
- `format_video` also accepts a `[title, id, tags]` list. The model uses the `Video` record only; `show_all_videos` sorts the records by title, which has the same effect.
- The playlist dictionary's insertion order is not modelled, because `show_all_playlists` sorts the names. The playlists are a Dafny `map`, so `CollectNames` visits the keys in an unspecified order.
- Player.VideoPlayer.FlagVideo: the program calls `stop_video` after recording the flag. The model applies the same `StopPlayback` transition inline, because the invariant does not hold between the two steps.

Two behaviours of the program that the model keeps as they are:

- `search_videos_tag` lower-cases only the query, never the stored tags, so a stored tag with a capital letter is never matched (`Search.TagSearchMissesUpperCaseTags`).
- A search answer selects result k only when it is exactly `str(k)`; answers such as "01" or " 2" select nothing (`Search.SelectionIff`).
