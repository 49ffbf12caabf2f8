/**
 * A named playlist: an insertion-ordered dictionary from video id to video.
 * The dictionary is kept as the sequence of its keys in insertion order
 * (`ids`) beside the key-to-value map (`videos`).
 */
module VideoPlaylist {
  import opened Wrappers
  import opened Sequences
  import opened Library

  class Playlist {
    /** The display name, exactly as the user typed it; it never changes. */
    const name: string
    var ids: seq<VideoId>
    var videos: map<VideoId, Video>

    /** Dictionary keys are unique, and the keys listed are exactly the keys mapped. */
    ghost predicate Valid()
      reads this
    {
      Distinct(ids) && forall id :: id in videos <==> id in ids
    }

    constructor (name: string)
      ensures Valid()
      ensures this.name == name && ids == [] && videos == map[]
    {
      this.name := name;
      ids := [];
      videos := map[];
    }

    /** `get_videos()`: the values, in the order of their keys. */
    function GetVideos(): (r: seq<Video>)
      reads this
      requires Valid()
      ensures |r| == |ids|
      ensures forall i :: 0 <= i < |ids| ==> r[i] == videos[ids[i]]
    {
      seq(|ids|, i requires 0 <= i < |ids| && ids[i] in videos reads this => videos[ids[i]])
    }

    /** `get_video_id()`: the keys, each once, in insertion order. */
    function GetVideoIds(): (r: seq<VideoId>)
      reads this
      requires Valid()
      ensures Distinct(r)
      ensures forall id :: id in r <==> id in videos
      ensures |r| == |GetVideos()| && forall i :: 0 <= i < |r| ==> GetVideos()[i] == videos[r[i]]
    {
      ids
    }

    /** `check_video(video_id)`: the id is one of the keys. */
    function CheckVideo(id: VideoId): (b: bool)
      reads this
      requires Valid()
      ensures b <==> id in videos
      ensures b <==> id in GetVideoIds()
    {
      id in GetVideoIds()
    }

    /** `add_video`: a known id leaves the playlist as it was; a new one is appended. */
    method AddVideo(id: VideoId, v: Video) returns (added: bool)
      requires Valid()
      modifies this
      ensures Valid()
      ensures added <==> id !in old(videos)
      ensures ids == (if added then old(ids) + [id] else old(ids))
      ensures videos == (if added then old(videos)[id := v] else old(videos))
    {
      if CheckVideo(id) {
        added := false;
      } else {
        DistinctAppend(ids, id);
        ids := ids + [id];
        videos := videos[id := v];
        added := true;
      }
    }

    /** `remove_video`: pop the entry, keeping the order of the others; None when absent. */
    method RemoveVideo(id: VideoId) returns (removed: Option<Video>)
      requires Valid()
      modifies this
      ensures Valid()
      ensures removed == (if id in old(videos) then Some(old(videos)[id]) else None)
      ensures ids == Without(old(ids), id)
      ensures videos == old(videos) - {id}
    {
      if id in videos {
        removed := Some(videos[id]);
        var i :| 0 <= i < |ids| && ids[i] == id;
        WithoutAt(ids, i);
        DistinctRemoveAt(ids, i);
        ids := Without(ids, id);
        videos := videos - {id};
      } else {
        removed := None;
        WithoutAbsent(ids, id);
      }
    }

    /** `clear_playlist`: no entries left; the name is untouched. */
    method ClearPlaylist()
      requires Valid()
      modifies this
      ensures Valid()
      ensures ids == [] && videos == map[]
    {
      ids := [];
      videos := map[];
    }
  }

  lemma DistinctAppend<T>(s: seq<T>, x: T)
    requires Distinct(s) && x !in s
    ensures Distinct(s + [x])
  {
  }

  lemma DistinctRemoveAt<T>(s: seq<T>, i: nat)
    requires Distinct(s) && i < |s|
    ensures Distinct(s[..i] + s[i + 1..])
  {
    var r := s[..i] + s[i + 1..];
    forall a, b | 0 <= a < b < |r| ensures r[a] != r[b] {
      var a' := if a < i then a else a + 1;
      var b' := if b < i then b else b + 1;
      assert r[a] == s[a'] && r[b] == s[b'];
    }
  }

  /**
   * Adding a new id and then removing it gives back the entries in their
   * original order.
   */
  lemma {:induction false} RemoveAfterAdd(ids: seq<VideoId>, id: VideoId)
    requires id !in ids
    ensures Without(ids + [id], id) == ids
  {
    WithoutAppend(ids, [id], id);
    WithoutAbsent(ids, id);
    WithoutSelf(id);
  }

  /** `add_video` followed by `remove_video` on a new id restores the playlist. */
  method AddThenRemove(p: Playlist, id: VideoId, v: Video) returns (removed: Option<Video>)
    requires p.Valid() && id !in p.videos
    modifies p
    ensures p.Valid()
    ensures removed == Some(v)
    ensures p.ids == old(p.ids) && p.videos == old(p.videos)
  {
    ghost var ids0, videos0 := p.ids, p.videos;
    var added := p.AddVideo(id, v);
    assert p.ids == ids0 + [id] && p.videos == videos0[id := v];
    removed := p.RemoveVideo(id);
    RemoveAfterAdd(ids0, id);
    assert videos0[id := v] - {id} == videos0;
  }
}
