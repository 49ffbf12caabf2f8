/**
 * The video player: one object that owns the playback slot, the playlists
 * (keyed by lower-cased name) and the flags (video id to reason), consults
 * the read-only catalog, and answers every command with the lines it prints.
 * Each command checks its conditions in a fixed order; the first failing
 * check is reported and leaves every piece of state as it was.
 */
module Player {
  import opened Wrappers
  import opened Strings
  import opened Sequences
  import opened Library
  import opened Messages
  import opened VideoPlaylist
  import opened Playback
  import opened Search

  /** The flag reason `flag_video` records when none is given. */
  const DefaultReason := "Not supplied"

  function ReasonOf(flags: map<VideoId, string>, id: VideoId): (r: Option<string>)
    ensures r.Some? <==> id in flags
    ensures r.Some? ==> r.value == flags[id]
  {
    if id in flags then Some(flags[id]) else None
  }

  /** One line per video, with the flag reason appended to flagged ones. */
  function Annotated(vs: seq<Video>, flags: map<VideoId, string>): (r: seq<Message>)
    ensures |r| == |vs|
    ensures forall i :: 0 <= i < |vs| ==> r[i] == VideoLine(vs[i], ReasonOf(flags, vs[i].id))
  {
    seq(|vs|, i requires 0 <= i < |vs| => VideoLine(vs[i], ReasonOf(flags, vs[i].id)))
  }

  function Identity(s: string): string {
    s
  }

  /** The video lines `show_all_videos` prints after its header: every catalog video, sorted by title. */
  function CatalogLines(c: Catalog, flags: map<VideoId, string>): seq<Message>
    requires ValidCatalog(c)
  {
    Annotated(SortBy(AllVideos(c), TitleOf), flags)
  }

  /** One line per catalog entry; each is a catalog video, carrying its flag reason exactly when it is flagged. */
  lemma CatalogListingLines(c: Catalog, flags: map<VideoId, string>)
    requires ValidCatalog(c)
    ensures |CatalogLines(c, flags)| == |c.order|
    ensures forall i :: 0 <= i < |CatalogLines(c, flags)| ==>
      var line := CatalogLines(c, flags)[i];
      line.VideoLine? && line.video in AllVideos(c) && line.flag == ReasonOf(flags, line.video.id)
  {
    var sorted := SortBy(AllVideos(c), TitleOf);
    SortByMembers(AllVideos(c), TitleOf);
    forall i | 0 <= i < |sorted| ensures sorted[i] in AllVideos(c) {
      assert sorted[i] in sorted;
    }
  }

  /** Every catalog video is listed. */
  lemma CatalogListingComplete(c: Catalog, flags: map<VideoId, string>)
    requires ValidCatalog(c)
    ensures forall v :: v in AllVideos(c) ==> VideoLine(v, ReasonOf(flags, v.id)) in CatalogLines(c, flags)
  {
    var sorted := SortBy(AllVideos(c), TitleOf);
    var r := CatalogLines(c, flags);
    SortByMembers(AllVideos(c), TitleOf);
    forall v | v in AllVideos(c) ensures VideoLine(v, ReasonOf(flags, v.id)) in r {
      var i :| 0 <= i < |sorted| && sorted[i] == v;
      assert r[i] == VideoLine(v, ReasonOf(flags, v.id));
    }
  }

  /** The lines are in ascending title order. */
  lemma CatalogListingSorted(c: Catalog, flags: map<VideoId, string>)
    requires ValidCatalog(c)
    ensures forall i, j :: 0 <= i < j < |CatalogLines(c, flags)| ==>
      LessEq(CatalogLines(c, flags)[i].video.title, CatalogLines(c, flags)[j].video.title)
  {
    var sorted := SortBy(AllVideos(c), TitleOf);
    SortBySorted(AllVideos(c), TitleOf);
    forall i, j | 0 <= i < j < |sorted| ensures LessEq(TitleOf(sorted[i]), TitleOf(sorted[j])) {
    }
  }

  /** The lines "  name", one per name, in the given order. */
  function NameLines(names: seq<string>): (r: seq<Message>)
    ensures |r| == |names|
    ensures forall i :: 0 <= i < |names| ==> r[i] == PlaylistName(names[i])
  {
    if names == [] then [] else NameLines(names[..|names| - 1]) + [PlaylistName(names[|names| - 1])]
  }

  /** Listing a reordering of `names` lists each name, and only those. */
  lemma NameLinesMembers(sorted: seq<string>, names: seq<string>)
    requires |sorted| == |names|
    requires forall x :: x in sorted <==> x in names
    ensures var r := NameLines(sorted);
      |r| == |names| &&
      (forall i :: 0 <= i < |r| ==> r[i].PlaylistName? && r[i].name in names) &&
      (forall n :: n in names ==> PlaylistName(n) in r)
  {
    var r := NameLines(sorted);
    forall i | 0 <= i < |r| ensures r[i].name in names {
      assert sorted[i] in sorted;
    }
    forall n | n in names ensures PlaylistName(n) in r {
      var i :| 0 <= i < |sorted| && sorted[i] == n;
      assert r[i] == PlaylistName(n);
    }
  }

  /** Sorting the names and listing them lists each name, and only those. */
  lemma SortedNameLines(names: seq<string>)
    ensures var r := NameLines(SortBy(names, Identity));
      |r| == |names| &&
      (forall i :: 0 <= i < |r| ==> r[i].PlaylistName? && r[i].name in names) &&
      (forall n :: n in names ==> PlaylistName(n) in r)
  {
    SortByMembers(names, Identity);
    NameLinesMembers(SortBy(names, Identity), names);
  }

  /** Sorting the names and listing them lists them in ascending order. */
  lemma SortedNameLinesAscending(names: seq<string>)
    ensures var r := NameLines(SortBy(names, Identity));
      forall i, j :: 0 <= i < j < |r| ==> r[i].PlaylistName? && r[j].PlaylistName? && LessEq(r[i].name, r[j].name)
  {
    var sorted := SortBy(names, Identity);
    var r := NameLines(sorted);
    SortBySorted(names, Identity);
    forall i, j | 0 <= i < j < |r| ensures LessEq(r[i].name, r[j].name) {
      assert Identity(sorted[i]) == r[i].name && Identity(sorted[j]) == r[j].name;
    }
  }

  /**
   * The sort and the printing loop of `show_all_playlists`: each name once,
   * in ascending order.
   */
  method ListSorted(names: seq<string>) returns (lines: seq<Message>)
    ensures |lines| == |names|
    ensures forall i :: 0 <= i < |lines| ==> lines[i].PlaylistName? && lines[i].name in names
    ensures forall n :: n in names ==> PlaylistName(n) in lines
    ensures forall i, j :: 0 <= i < j < |lines| ==> lines[i].PlaylistName? && lines[j].PlaylistName? && LessEq(lines[i].name, lines[j].name)
  {
    var sorted := SortBy(names, Identity);
    lines := [];
    var j := 0;
    while j < |sorted|
      invariant 0 <= j <= |sorted|
      invariant lines == NameLines(sorted[..j])
    {
      assert sorted[..j + 1][..j] == sorted[..j];
      lines := lines + [PlaylistName(sorted[j])];
      j := j + 1;
    }
    assert sorted[..j] == sorted;
    SortedNameLines(names);
    SortedNameLinesAscending(names);
  }

  /** `lines` shows each name of `names`, only those, in ascending order. */
  ghost predicate ListsNames(lines: seq<Message>, names: set<string>) {
    (forall i :: 0 <= i < |lines| ==> lines[i].PlaylistName? && lines[i].name in names) &&
    (forall n :: n in names ==> PlaylistName(n) in lines) &&
    (forall i, j :: 0 <= i < j < |lines| ==> lines[i].PlaylistName? && lines[j].PlaylistName? && LessEq(lines[i].name, lines[j].name))
  }

  /** Appending a new id under one key and then removing it gives back the same contents. */
  lemma RestoreEntry(contents: map<string, seq<VideoId>>, key: string, id: VideoId)
    requires key in contents && id !in contents[key]
    ensures var added := contents[key := contents[key] + [id]];
      added[key := Without(added[key], id)] == contents
  {
    RemoveAfterAdd(contents[key], id);
  }

  /**
   * How a search ends, given its results and the answer typed: "no results"
   * when there are none; otherwise the numbered listing, followed by playing
   * result k when the answer selects k, and nothing else when it selects none.
   */
  predicate Offered(query: string, rs: seq<Video>, selection: string, before: Session, after: Session, out: seq<Message>) {
    if rs == [] then out == [NoResults(query)] && after == before
    else match Selection(selection, |rs|)
      case None => out == Listing(query, rs) && after == before
      case Some(k) =>
        1 <= k <= |rs| && after == Session(Some(rs[k - 1]), false) &&
        out == Listing(query, rs) + StopNotice(before) + [Playing(rs[k - 1].title)]
  }

  /** The search ending in which result k is selected and played. */
  lemma OfferedSelected(query: string, rs: seq<Video>, selection: string, before: Session, k: nat, played: seq<Message>)
    requires Selection(selection, |rs|) == Some(k) && 1 <= k <= |rs|
    requires played == StopNotice(before) + [Playing(rs[k - 1].title)]
    ensures Offered(query, rs, selection, before, Session(Some(rs[k - 1]), false), Listing(query, rs) + played)
  {
    assert Listing(query, rs) + played == Listing(query, rs) + StopNotice(before) + [Playing(rs[k - 1].title)];
  }

  /**
   * A search changes the playback slot only when the answer is `str(k)` for
   * a result number k, and then result k is the one loaded.
   */
  lemma SearchPlaysOnlySelected(query: string, rs: seq<Video>, selection: string, before: Session, after: Session, out: seq<Message>)
    requires Offered(query, rs, selection, before, after, out)
    requires after != before
    ensures exists k :: 1 <= k <= |rs| && selection == Decimal(k) && after == Session(Some(rs[k - 1]), false)
  {
    var k := Selection(selection, |rs|).value;
    SelectionIff(selection, |rs|, k);
  }

  class VideoPlayer {
    const catalog: Catalog
    var current: Option<Video>
    var paused: bool
    var playlists: map<string, Playlist>
    var flags: map<VideoId, string>

    /**
     * The player's invariant: the playback slot is consistent (paused only
     * with a video loaded, and the loaded video is never flagged); only
     * catalog videos are flagged; every playlist is stored under its
     * lower-cased display name, holds catalog videos only, and no two keys
     * share a playlist object.
     */
    ghost predicate Valid()
      reads this, playlists.Values
    {
      SessionOk(catalog, flags, Session(current, paused)) &&
      (forall id :: id in flags ==> id in catalog.videos) &&
      (forall k :: k in playlists ==> PlaylistOk(k, playlists[k])) &&
      (forall k, k' :: k in playlists && k' in playlists && k != k' ==> playlists[k] != playlists[k'])
    }

    ghost predicate PlaylistOk(key: string, p: Playlist)
      reads p
    {
      ValidCatalog(catalog) &&
      p.Valid() && Lower(p.name) == key &&
      forall id :: id in p.videos ==> GetVideo(catalog, id) == Some(p.videos[id])
    }

    /** The playback slot. */
    function Slot(): Session
      reads this
    {
      Session(current, paused)
    }

    /** The ids in each playlist, by key. */
    ghost function Contents(): map<string, seq<VideoId>>
      reads this, playlists.Values
    {
      map k | k in playlists :: playlists[k].ids
    }

    /** The display name of each playlist, by key. */
    function Names(): map<string, string>
      reads this
    {
      map k | k in playlists :: playlists[k].name
    }

    /**
     * The frame of the commands that change one playlist in place: when only
     * the playlist under `key` changed, and it is still well formed, the
     * invariant still holds.
     */
    twostate lemma OnlyPlaylistChanged(key: string)
      requires old(Valid()) && unchanged(this) && key in playlists
      requires forall k :: k in playlists && k != key ==> unchanged(playlists[k])
      requires PlaylistOk(key, playlists[key])
      ensures Valid()
    {
      forall k | k in playlists && k != key ensures PlaylistOk(k, playlists[k]) {
        assert old(PlaylistOk(k, playlists[k]));
      }
    }

    /** When only the playlist under `key` changed, the contents changed under that key only. */
    twostate lemma OnlyEntryChanged(key: string)
      requires unchanged(this) && key in playlists
      requires forall k :: k in playlists && k != key ==> unchanged(playlists[k])
      ensures Contents() == old(Contents())[key := playlists[key].ids]
    {
      ghost var before := old(Contents());
      ghost var after := Contents();
      forall k | k in before && k != key ensures after[k] == before[k] {
        ghost var q := playlists[k];
        assert q.ids == old(q.ids);
      }
    }

    /**
     * The frame of `create_playlist`: a new, well-formed playlist object
     * stored under a new key keeps the invariant.
     */
    twostate lemma PlaylistAdded(key: string)
      requires old(Valid()) && key !in old(playlists) && key in playlists
      requires current == old(current) && paused == old(paused) && flags == old(flags)
      requires playlists == old(playlists)[key := playlists[key]]
      requires forall k :: k in old(playlists) ==> old(playlists)[k] != playlists[key]
      requires forall k :: k in old(playlists) ==> unchanged(old(playlists)[k])
      requires PlaylistOk(key, playlists[key])
      ensures Valid()
    {
      forall k | k in playlists && k != key ensures PlaylistOk(k, playlists[k]) {
        assert old(PlaylistOk(k, playlists[k]));
      }
    }

    /** A playlist stored under a new key adds one entry to the names and to the contents. */
    twostate lemma EntryAdded(key: string)
      requires key !in old(playlists) && key in playlists
      requires playlists == old(playlists)[key := playlists[key]]
      requires forall k :: k in old(playlists) ==> unchanged(old(playlists)[k])
      ensures Names() == old(Names())[key := playlists[key].name]
      ensures Contents() == old(Contents())[key := playlists[key].ids]
    {
      assert Names() == old(Names())[key := playlists[key].name];
      ghost var before := old(Contents());
      ghost var after := Contents();
      assert after.Keys == before.Keys + {key};
      forall k | k in before ensures after[k] == before[k] {
        ghost var q := old(playlists)[k];
        assert q.ids == old(q.ids);
      }
    }

    /** Dropping the playlist under `key` drops its entry from the contents. */
    twostate lemma EntryDeleted(key: string)
      requires playlists == old(playlists) - {key}
      requires forall k :: k in playlists ==> unchanged(playlists[k])
      ensures Contents() == old(Contents()) - {key}
    {
      ghost var before := old(Contents());
      ghost var after := Contents();
      assert after.Keys == before.Keys - {key};
      forall k | k in after ensures after[k] == before[k] {
        ghost var q := playlists[k];
        assert q.ids == old(q.ids);
      }
    }

    /**
     * Every playlist is found under the lower-cased form of its display name,
     * so a lookup with any casing of that name finds it, and two playlists
     * never have names that are equal once lower-cased.
     */
    lemma LookupIgnoresCase(typed: string, k: string)
      requires Valid() && k in playlists
      requires Lower(typed) == Lower(playlists[k].name)
      ensures Lower(typed) == k
      ensures forall k' :: k' in playlists && k' != k ==> Lower(playlists[k'].name) != Lower(typed)
    {
      assert PlaylistOk(k, playlists[k]);
      forall k' | k' in playlists && k' != k ensures Lower(playlists[k'].name) != Lower(typed) {
        assert PlaylistOk(k', playlists[k']);
      }
    }

    constructor (c: Catalog)
      requires ValidCatalog(c)
      ensures Valid()
      ensures catalog == c && Slot() == Idle && playlists == map[] && flags == map[]
    {
      catalog := c;
      current := None;
      paused := false;
      playlists := map[];
      flags := map[];
    }

    // -------------------------------------------------------------------
    // Playback
    // -------------------------------------------------------------------

    /** `play_video`. */
    method PlayVideo(id: VideoId) returns (out: seq<Message>)
      requires Valid()
      modifies this
      ensures Valid()
      ensures playlists == old(playlists) && flags == old(flags)
      ensures Slot() == StartPlaying(catalog, flags, old(Slot()), id).next
      ensures out == StartPlaying(catalog, flags, old(Slot()), id).out
    {
      var req := GetVideo(catalog, id);
      if req.None? {
        out := [Cannot(Play, VideoMissing)];
      } else if id in flags {
        out := [Cannot(Play, VideoFlagged(flags[id]))];
      } else if current.None? {
        current := req;
        paused := false;
        out := [Playing(req.value.title)];
      } else {
        out := [Stopping(current.value.title)];
        current := req;
        paused := false;
        out := out + [Playing(req.value.title)];
      }
    }

    /** `stop_video`. */
    method StopVideo() returns (out: seq<Message>)
      requires Valid()
      modifies this
      ensures Valid()
      ensures playlists == old(playlists) && flags == old(flags)
      ensures Slot() == StopPlayback(old(Slot())).next
      ensures out == StopPlayback(old(Slot())).out
    {
      if current.None? {
        out := [Cannot(Stop, NoVideoPlaying)];
      } else {
        out := [Stopping(current.value.title)];
        current := None;
        paused := false;
      }
    }

    /**
     * `play_random_video`: the choice among the unflagged catalog videos is
     * left open; whichever is chosen is played, and "No videos available" is
     * reported exactly when there is none to choose.
     */
    method PlayRandomVideo() returns (out: seq<Message>)
      requires Valid()
      modifies this
      ensures Valid()
      ensures playlists == old(playlists) && flags == old(flags)
      ensures Eligible(catalog, flags) == [] ==> out == [NoVideosAvailable] && Slot() == old(Slot())
      ensures Eligible(catalog, flags) != [] ==>
        current.Some? && current.value in Eligible(catalog, flags) && !paused &&
        out == StopNotice(old(Slot())) + [Playing(current.value.title)]
    {
      var eligible := Eligible(catalog, flags);
      if |eligible| > 0 {
        assert eligible[0] in eligible;
        var v :| v in eligible;
        InCatalog(catalog, v);
        out := PlayVideo(v.id);
      } else {
        out := [NoVideosAvailable];
      }
    }

    /** `pause_video`. */
    method PauseVideo() returns (out: seq<Message>)
      requires Valid()
      modifies this
      ensures Valid()
      ensures playlists == old(playlists) && flags == old(flags)
      ensures Slot() == PausePlayback(old(Slot())).next
      ensures out == PausePlayback(old(Slot())).out
    {
      if current.None? {
        out := [Cannot(Pause, NoVideoPlaying)];
      } else if paused {
        out := [AlreadyPaused(current.value.title)];
      } else {
        out := [Pausing(current.value.title)];
        paused := true;
      }
    }

    /** `continue_video`. */
    method ContinueVideo() returns (out: seq<Message>)
      requires Valid()
      modifies this
      ensures Valid()
      ensures playlists == old(playlists) && flags == old(flags)
      ensures Slot() == ContinuePlayback(old(Slot())).next
      ensures out == ContinuePlayback(old(Slot())).out
    {
      if paused {
        out := [Continuing(current.value.title)];
        paused := false;
      } else if current.None? {
        out := [Cannot(Continue, NoVideoPlaying)];
      } else {
        out := [Cannot(Continue, NotPaused)];
      }
    }

    /** `show_playing`: the loaded video, marked when paused. */
    method ShowPlaying() returns (out: seq<Message>)
      requires Valid()
      ensures current.None? ==> out == [NothingPlaying]
      ensures current.Some? ==> out == [NowPlaying(current.value, paused)]
    {
      if current.None? {
        out := [NothingPlaying];
      } else {
        out := [NowPlaying(current.value, paused)];
      }
    }

    // -------------------------------------------------------------------
    // Playlists
    // -------------------------------------------------------------------

    /**
     * `create_playlist`: refused when the lower-cased name is taken;
     * otherwise an empty playlist keeping the typed casing is stored under
     * the lower-cased name.
     */
    method CreatePlaylist(name: string) returns (out: seq<Message>)
      requires Valid()
      modifies this
      ensures Valid()
      ensures Slot() == old(Slot()) && flags == old(flags)
      ensures Lower(name) in old(playlists) ==>
        out == [Cannot(Create, DuplicatePlaylist)] && playlists == old(playlists)
      ensures Lower(name) !in old(playlists) ==>
        out == [PlaylistCreated(name)] &&
        Lower(name) in playlists && fresh(playlists[Lower(name)]) &&
        playlists == old(playlists)[Lower(name) := playlists[Lower(name)]] &&
        Names() == old(Names())[Lower(name) := name] &&
        Contents() == old(Contents())[Lower(name) := []]
    {
      var key := Lower(name);
      if key in playlists {
        out := [Cannot(Create, DuplicatePlaylist)];
      } else {
        var p := new Playlist(name);
        assert PlaylistOk(key, p);
        playlists := playlists[key := p];
        out := [PlaylistCreated(name)];
        PlaylistAdded(key);
        EntryAdded(key);
      }
    }

    /**
     * `add_to_playlist`: checks, in this order, that the playlist exists,
     * that the video exists, that it is not flagged and that it is not
     * already in the playlist; the first failure is reported and nothing
     * changes. Otherwise the id is appended to that playlist only.
     */
    method AddToPlaylist(name: string, id: VideoId) returns (out: seq<Message>)
      requires Valid()
      modifies playlists.Values
      ensures Valid()
      ensures Slot() == old(Slot()) && flags == old(flags) && playlists == old(playlists)
      ensures
        var key := Lower(name);
        if key !in playlists then
          out == [Cannot(AddTo(name), PlaylistMissing)] && Contents() == old(Contents())
        else if GetVideo(catalog, id).None? then
          out == [Cannot(AddTo(name), VideoMissing)] && Contents() == old(Contents())
        else if id in flags then
          out == [Cannot(AddTo(name), VideoFlagged(flags[id]))] && Contents() == old(Contents())
        else if id in old(Contents())[key] then
          out == [Cannot(AddTo(name), AlreadyAdded)] && Contents() == old(Contents())
        else
          out == [Added(name, GetVideo(catalog, id).value.title)] &&
          Contents() == old(Contents())[key := old(Contents())[key] + [id]]
    {
      var key := Lower(name);
      var req := GetVideo(catalog, id);
      if key !in playlists {
        out := [Cannot(AddTo(name), PlaylistMissing)];
      } else if req.None? {
        out := [Cannot(AddTo(name), VideoMissing)];
      } else if id in flags {
        out := [Cannot(AddTo(name), VideoFlagged(flags[id]))];
      } else {
        var p := playlists[key];
        assert forall k :: k in playlists && k != key ==> playlists[k] != p;
        assert PlaylistOk(key, p);
        var added := p.AddVideo(id, req.value);
        if !added {
          out := [Cannot(AddTo(name), AlreadyAdded)];
        } else {
          out := [Added(name, req.value.title)];
        }
        OnlyPlaylistChanged(key);
        OnlyEntryChanged(key);
      }
    }

    /**
     * `show_all_playlists`: the display names of all playlists, each once,
     * in ascending order; a distinct line when there is none.
     */
    method ShowAllPlaylists() returns (out: seq<Message>)
      ensures playlists == map[] ==> out == [NoPlaylists]
      ensures playlists != map[] ==>
        |out| == |playlists| + 1 && out[0] == PlaylistsHeader && ListsNames(out[1..], Names().Values)
    {
      if |playlists| == 0 {
        out := [NoPlaylists];
        return;
      }
      var names := CollectNames();
      var lines := ListSorted(names);
      out := [PlaylistsHeader] + lines;
      assert out[1..] == lines;
    }

    /** The loop of `show_all_playlists` that gathers the display name of every playlist. */
    method CollectNames() returns (names: seq<string>)
      ensures |names| == |playlists|
      ensures forall n :: n in names <==> n in Names().Values
    {
      var keys := playlists.Keys;
      names := [];
      ghost var done: set<string> := {};
      while keys != {}
        invariant keys !! done && keys + done == playlists.Keys
        invariant |names| == |done|
        invariant forall n :: n in names <==> exists k :: k in done && n == playlists[k].name
        decreases keys
      {
        var k :| k in keys;
        names := names + [playlists[k].name];
        keys := keys - {k};
        done := done + {k};
      }
      assert done == playlists.Keys;
      forall n | n in names ensures n in Names().Values {
        var k :| k in done && n == playlists[k].name;
        assert k in Names() && Names()[k] == n;
      }
      forall n | n in Names().Values ensures n in names {
        var k :| k in Names() && Names()[k] == n;
        assert k in done;
      }
    }

    /**
     * Adding a video to a playlist and then removing it again restores every
     * playlist's contents and order.
     */
    method AddThenRemoveRestores(name: string, id: VideoId) returns (out: seq<Message>)
      requires Valid()
      requires Lower(name) in playlists && id !in Contents()[Lower(name)]
      requires GetVideo(catalog, id).Some? && id !in flags
      modifies playlists.Values
      ensures Valid()
      ensures Contents() == old(Contents())
      ensures out == [Added(name, GetVideo(catalog, id).value.title), Removed(name, GetVideo(catalog, id).value.title)]
    {
      var key := Lower(name);
      ghost var c0 := Contents();
      var added := AddToPlaylist(name, id);
      ghost var c1 := Contents();
      assert c1 == c0[key := c0[key] + [id]];
      assert id in c1[key];
      var removed := RemoveFromPlaylist(name, id);
      assert Contents() == c1[key := Without(c1[key], id)];
      RestoreEntry(c0, key, id);
      out := added + removed;
    }

    /**
     * `show_playlist`: the playlist's videos in the order they were added,
     * flagged ones annotated with their reason.
     */
    method ShowPlaylist(name: string) returns (out: seq<Message>)
      requires Valid()
      ensures Lower(name) !in playlists ==> out == [Cannot(Show(name), PlaylistMissing)]
      ensures Lower(name) in playlists && playlists[Lower(name)].ids == [] ==>
        out == [ShowingPlaylist(name), EmptyPlaylist]
      ensures Lower(name) in playlists && playlists[Lower(name)].ids != [] ==>
        out == [ShowingPlaylist(name)] + Annotated(playlists[Lower(name)].GetVideos(), flags)
    {
      var key := Lower(name);
      if key !in playlists {
        out := [Cannot(Show(name), PlaylistMissing)];
      } else {
        assert PlaylistOk(key, playlists[key]);
        var content := playlists[key].GetVideos();
        if |content| == 0 {
          out := [ShowingPlaylist(name), EmptyPlaylist];
        } else {
          var lines := Annotate(content);
          out := [ShowingPlaylist(name)] + lines;
        }
      }
    }

    /** The listing loop shared by `show_all_videos` and `show_playlist`. */
    method Annotate(vs: seq<Video>) returns (lines: seq<Message>)
      ensures lines == Annotated(vs, flags)
    {
      lines := [];
      var i := 0;
      while i < |vs|
        invariant 0 <= i <= |vs|
        invariant |lines| == i
        invariant forall j :: 0 <= j < i ==> lines[j] == VideoLine(vs[j], ReasonOf(flags, vs[j].id))
      {
        var line := VideoLine(vs[i], None);
        if vs[i].id in flags {
          line := VideoLine(vs[i], Some(flags[vs[i].id]));
        }
        lines := lines + [line];
        i := i + 1;
      }
    }

    /** `show_all_videos`: every catalog video, sorted by title, flagged ones annotated. */
    method ShowAllVideos() returns (out: seq<Message>)
      requires Valid()
      ensures out == [AllVideosHeader] + CatalogLines(catalog, flags)
    {
      var sorted := SortBy(AllVideos(catalog), TitleOf);
      var lines := Annotate(sorted);
      out := [AllVideosHeader] + lines;
    }

    /**
     * `remove_from_playlist`: checks, in this order, that the video exists,
     * that the playlist exists and that the video is in it; the first
     * failure is reported and nothing changes. Otherwise the id is removed
     * from that playlist, the others keeping their order.
     */
    method RemoveFromPlaylist(name: string, id: VideoId) returns (out: seq<Message>)
      requires Valid()
      modifies playlists.Values
      ensures Valid()
      ensures Slot() == old(Slot()) && flags == old(flags) && playlists == old(playlists)
      ensures
        var key := Lower(name);
        if GetVideo(catalog, id).None? then
          out == [Cannot(RemoveFrom(name), VideoMissing)] && Contents() == old(Contents())
        else if key !in playlists then
          out == [Cannot(RemoveFrom(name), PlaylistMissing)] && Contents() == old(Contents())
        else if id !in old(Contents())[key] then
          out == [Cannot(RemoveFrom(name), NotInPlaylist)] && Contents() == old(Contents())
        else
          out == [Removed(name, GetVideo(catalog, id).value.title)] &&
          Contents() == old(Contents())[key := Without(old(Contents())[key], id)]
    {
      var key := Lower(name);
      var req := GetVideo(catalog, id);
      if req.None? {
        out := [Cannot(RemoveFrom(name), VideoMissing)];
      } else if key !in playlists {
        out := [Cannot(RemoveFrom(name), PlaylistMissing)];
      } else {
        var p := playlists[key];
        assert forall k :: k in playlists && k != key ==> playlists[k] != p;
        assert PlaylistOk(key, p);
        ghost var ids := p.ids;
        var removed := p.RemoveVideo(id);
        if removed.None? {
          WithoutAbsent(ids, id);
          out := [Cannot(RemoveFrom(name), NotInPlaylist)];
        } else {
          out := [Removed(name, req.value.title)];
        }
        OnlyPlaylistChanged(key);
        OnlyEntryChanged(key);
      }
    }

    /** `clear_playlist`: the playlist is emptied and keeps its name. */
    method ClearPlaylist(name: string) returns (out: seq<Message>)
      requires Valid()
      modifies playlists.Values
      ensures Valid()
      ensures Slot() == old(Slot()) && flags == old(flags) && playlists == old(playlists)
      ensures Lower(name) !in playlists ==>
        out == [Cannot(Clear(name), PlaylistMissing)] && Contents() == old(Contents())
      ensures Lower(name) in playlists ==>
        out == [Cleared(name)] && Contents() == old(Contents())[Lower(name) := []]
    {
      var key := Lower(name);
      if key !in playlists {
        out := [Cannot(Clear(name), PlaylistMissing)];
      } else {
        var p := playlists[key];
        assert forall k :: k in playlists && k != key ==> playlists[k] != p;
        assert PlaylistOk(key, p);
        p.ClearPlaylist();
        out := [Cleared(name)];
        OnlyPlaylistChanged(key);
        OnlyEntryChanged(key);
      }
    }

    /** `delete_playlist`: the key is popped; a missing key is refused. */
    method DeletePlaylist(name: string) returns (out: seq<Message>)
      requires Valid()
      modifies this
      ensures Valid()
      ensures Slot() == old(Slot()) && flags == old(flags)
      ensures Lower(name) !in old(playlists) ==>
        out == [Cannot(Delete(name), PlaylistMissing)] && playlists == old(playlists)
      ensures Lower(name) in old(playlists) ==>
        out == [Deleted(name)] && playlists == old(playlists) - {Lower(name)} &&
        Contents() == old(Contents()) - {Lower(name)}
    {
      var key := Lower(name);
      if key !in playlists {
        out := [Cannot(Delete(name), PlaylistMissing)];
      } else {
        playlists := playlists - {key};
        out := [Deleted(name)];
        EntryDeleted(key);
      }
    }

    // -------------------------------------------------------------------
    // Search
    // -------------------------------------------------------------------

    /**
     * The tail shared by both searches: list the numbered results, read the
     * answer, and play result k when the answer is `str(k)` for some k in 1..N.
     */
    method OfferResults(query: string, rs: seq<Video>, selection: string) returns (out: seq<Message>)
      requires Valid()
      requires forall v :: v in rs ==> GetVideo(catalog, v.id) == Some(v) && v.id !in flags
      modifies this
      ensures Valid()
      ensures playlists == old(playlists) && flags == old(flags)
      ensures Offered(query, rs, selection, old(Slot()), Slot(), out)
    {
      if |rs| == 0 {
        out := [NoResults(query)];
        return;
      }
      ghost var before := Slot();
      var choice := Selection(selection, |rs|);
      if choice.None? {
        out := Listing(query, rs);
        return;
      }
      var k := choice.value;
      var v := rs[k - 1];
      assert v in rs;
      var played := PlayVideo(v.id);
      assert Slot() == Session(Some(v), false) && played == StopNotice(before) + [Playing(v.title)];
      out := Listing(query, rs) + played;
      OfferedSelected(query, rs, selection, before, k, played);
    }

    /** `search_videos`: unflagged videos whose lower-cased title contains the lower-cased term. */
    method SearchVideos(term: string, selection: string) returns (out: seq<Message>)
      requires Valid()
      modifies this
      ensures Valid()
      ensures playlists == old(playlists) && flags == old(flags)
      ensures Offered(term, Results(catalog, flags, TitleHit(term)), selection, old(Slot()), Slot(), out)
    {
      var rs := MatchingVideos(catalog, flags, TitleHit(term));
      assert forall v :: v in rs ==> GetVideo(catalog, v.id) == Some(v) && v.id !in flags by {
        ResultsAre(catalog, flags, TitleHit(term));
      }
      out := OfferResults(term, rs, selection);
    }

    /** `search_videos_tag`: unflagged videos carrying the lower-cased tag. */
    method SearchVideosTag(tag: string, selection: string) returns (out: seq<Message>)
      requires Valid()
      modifies this
      ensures Valid()
      ensures playlists == old(playlists) && flags == old(flags)
      ensures Offered(tag, Results(catalog, flags, TagHit(tag)), selection, old(Slot()), Slot(), out)
    {
      var rs := MatchingVideos(catalog, flags, TagHit(tag));
      assert forall v :: v in rs ==> GetVideo(catalog, v.id) == Some(v) && v.id !in flags by {
        ResultsAre(catalog, flags, TagHit(tag));
      }
      out := OfferResults(tag, rs, selection);
    }

    // -------------------------------------------------------------------
    // Moderation
    // -------------------------------------------------------------------

    /**
     * `flag_video`: an unknown or already flagged id is refused and nothing
     * changes. Otherwise the reason is recorded and, when the flagged video
     * is the loaded one, playback is stopped before the flag is reported.
     */
    method FlagVideo(id: VideoId, reason: string := DefaultReason) returns (out: seq<Message>)
      requires Valid()
      modifies this
      ensures Valid()
      ensures playlists == old(playlists)
      ensures
        if GetVideo(catalog, id).None? then
          out == [Cannot(Flag, VideoMissing)] && flags == old(flags) && Slot() == old(Slot())
        else if id in old(flags) then
          out == [Cannot(Flag, AlreadyFlagged)] && flags == old(flags) && Slot() == old(Slot())
        else
          var title := GetVideo(catalog, id).value.title;
          flags == old(flags)[id := reason] &&
          if old(current).Some? && old(current).value.id == id then
            Slot() == Idle && out == [Stopping(old(current).value.title), FlagAdded(title, reason)]
          else
            Slot() == old(Slot()) && out == [FlagAdded(title, reason)]
    {
      var req := GetVideo(catalog, id);
      if req.None? {
        out := [Cannot(Flag, VideoMissing)];
      } else if id in flags {
        out := [Cannot(Flag, AlreadyFlagged)];
      } else {
        flags := flags[id := reason];
        out := [];
        if current.Some? && current.value.id == id {
          var t := StopPlayback(Slot());
          current, paused := t.next.current, t.next.paused;
          out := t.out;
        }
        out := out + [FlagAdded(req.value.title, reason)];
      }
    }

    /** `allow_video`: an unknown or unflagged id is refused; otherwise exactly that flag is removed. */
    method AllowVideo(id: VideoId) returns (out: seq<Message>)
      requires Valid()
      modifies this
      ensures Valid()
      ensures playlists == old(playlists) && Slot() == old(Slot())
      ensures
        if GetVideo(catalog, id).None? then
          out == [Cannot(Allow, VideoMissing)] && flags == old(flags)
        else if id !in old(flags) then
          out == [Cannot(Allow, NotFlagged)] && flags == old(flags)
        else
          out == [FlagRemoved(GetVideo(catalog, id).value.title)] && flags == old(flags) - {id}
    {
      var req := GetVideo(catalog, id);
      if req.None? {
        out := [Cannot(Allow, VideoMissing)];
      } else if id !in flags {
        out := [Cannot(Allow, NotFlagged)];
      } else {
        flags := flags - {id};
        out := [FlagRemoved(req.value.title)];
      }
    }
  }
}
