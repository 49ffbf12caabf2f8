/**
 * Videos and the read-only catalog the player consults, with the two
 * formatting helpers `get_tags` and `format_video`.
 *
 * The catalog itself (`VideoLibrary`) is loaded from a file elsewhere; here it
 * is a fixed map from id to video together with the order in which
 * `get_all_videos()` lists them.
 */
module Library {
  import opened Wrappers
  import opened Strings
  import opened Sequences

  type VideoId = string

  datatype Video = Video(title: string, id: VideoId, tags: seq<string>)

  datatype Catalog = Catalog(videos: map<VideoId, Video>, order: seq<VideoId>)

  /** Every id is listed once, every listed id is known, and a video is stored under its own id. */
  ghost predicate ValidCatalog(c: Catalog) {
    Distinct(c.order) &&
    (forall id :: id in c.videos <==> id in c.order) &&
    (forall id :: id in c.videos ==> c.videos[id].id == id)
  }

  /** `get_video(video_id)`: the video, or None for an unknown id. */
  function GetVideo(c: Catalog, id: VideoId): (r: Option<Video>)
    requires ValidCatalog(c)
    ensures r.Some? <==> id in c.order
    ensures r.Some? ==> r.value.id == id && r.value == c.videos[id]
  {
    if id in c.videos then Some(c.videos[id]) else None
  }

  /** `get_all_videos()`: every video once, in catalog order. */
  function AllVideos(c: Catalog): (r: seq<Video>)
    requires ValidCatalog(c)
    ensures |r| == |c.order|
    ensures forall i :: 0 <= i < |r| ==> r[i].id == c.order[i] && GetVideo(c, r[i].id) == Some(r[i])
    ensures Distinct(r)
  {
    seq(|c.order|, i requires 0 <= i < |c.order| => c.videos[c.order[i]])
  }

  /** A listed video is the one `get_video` returns for its id. */
  lemma InCatalog(c: Catalog, v: Video)
    requires ValidCatalog(c) && v in AllVideos(c)
    ensures GetVideo(c, v.id) == Some(v)
  {
    var i :| 0 <= i < |AllVideos(c)| && AllVideos(c)[i] == v;
  }

  function TitleOf(v: Video): string {
    v.title
  }

  // ---------------------------------------------------------------------
  // get_tags: the loop `temp_str += tag + " "` followed by `rstrip()`.
  // ---------------------------------------------------------------------

  /** What the loop has accumulated after the tags `tags`: each tag followed by one space. */
  function SpaceTerminated(tags: seq<string>): string {
    if tags == [] then "" else SpaceTerminated(tags[..|tags| - 1]) + tags[|tags| - 1] + " "
  }

  /** `get_tags(tag_list)`. */
  function GetTags(tags: seq<string>): (r: string)
    ensures tags == [] ==> r == ""
    ensures r == [] || !IsSpace(r[|r| - 1])
  {
    if |tags| > 0 then RStrip(SpaceTerminated(tags)) else ""
  }

  /** The tags separated by single spaces: `" ".join(tags)`. */
  function Join(tags: seq<string>): string {
    if tags == [] then ""
    else if |tags| == 1 then tags[0]
    else Join(tags[..|tags| - 1]) + " " + tags[|tags| - 1]
  }

  lemma {:induction false} SpaceTerminatedIsJoin(tags: seq<string>)
    requires tags != []
    ensures SpaceTerminated(tags) == Join(tags) + " "
  {
    if |tags| > 1 {
      var init := tags[..|tags| - 1];
      SpaceTerminatedIsJoin(init);
    } else {
      assert tags[..0] == [];
    }
  }

  lemma JoinLast(tags: seq<string>)
    requires tags != [] && tags[|tags| - 1] != ""
    ensures var j := Join(tags); |j| > 0 && j[|j| - 1] == tags[|tags| - 1][|tags[|tags| - 1]| - 1]
  {
  }

  /**
   * `get_tags` is the tags joined by single spaces unless the last tag is
   * empty or ends in whitespace, which `rstrip()` would also remove.
   */
  lemma GetTagsIsJoin(tags: seq<string>)
    requires tags != [] ==> var last := tags[|tags| - 1]; last != "" && !IsSpace(last[|last| - 1])
    ensures GetTags(tags) == Join(tags)
  {
    if tags != [] {
      SpaceTerminatedIsJoin(tags);
      JoinLast(tags);
      var j := Join(tags);
      assert (j + " ")[..|j|] == j;
    }
  }

  /** `format_video(video)`: "title (id) [tags]". */
  function FormatVideo(v: Video): (r: string)
    ensures |r| == |v.title| + |v.id| + |GetTags(v.tags)| + 6
    ensures r[..|v.title|] == v.title
    ensures r[|v.title|..|v.title| + 2 + |v.id| + 2] == " (" + v.id + ") "
    ensures r[|v.title| + 2 + |v.id| + 2..] == "[" + GetTags(v.tags) + "]"
  {
    v.title + " (" + v.id + ") [" + GetTags(v.tags) + "]"
  }
}
