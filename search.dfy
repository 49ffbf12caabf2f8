/**
 * What the two search commands compute before anything is played: the
 * unflagged catalog videos that match, sorted by title and numbered from 1,
 * and which numbered result (if any) a typed answer selects.
 */
module Search {
  import opened Wrappers
  import opened Strings
  import opened Sequences
  import opened Library
  import opened Messages

  /** The test of the list comprehension `video.video_id not in flags`. */
  function NotFlagged(flags: map<VideoId, string>): Video -> bool {
    (v: Video) => v.id !in flags
  }

  /**
   * `video.title.lower().find(search_term.lower()) > -1`: a title matches
   * exactly when the lower-cased term occurs somewhere in the lower-cased title.
   */
  function TitleHit(term: string): (hit: Video -> bool)
    ensures forall v :: hit(v) <==> exists j :: OccursAt(Lower(v.title), Lower(term), j)
  {
    (v: Video) => Find(Lower(v.title), Lower(term)) > -1
  }

  /**
   * `video_tag.lower() in video.tags`: only the query is lower-cased, so a
   * video matches only through a stored tag that is already lower-case.
   */
  function TagHit(tag: string): (hit: Video -> bool)
    ensures forall v :: hit(v) <==> exists i :: 0 <= i < |v.tags| && v.tags[i] == Lower(tag)
    ensures forall v :: hit(v) ==> exists i :: 0 <= i < |v.tags| && IsLowerCased(v.tags[i])
  {
    (v: Video) => Lower(tag) in v.tags
  }

  /** The catalog videos that are not flagged, each once. */
  function Eligible(c: Catalog, flags: map<VideoId, string>): (r: seq<Video>)
    requires ValidCatalog(c)
    ensures forall v :: v in r <==> v in AllVideos(c) && v.id !in flags
    ensures Distinct(r)
  {
    var all := AllVideos(c);
    var r := Filter(all, NotFlagged(flags));
    FilterMembers(all, NotFlagged(flags));
    FilterDistinct(all, NotFlagged(flags));
    r
  }

  /** The results a search lists: eligible videos passing `hit`, sorted by title. */
  function Results(c: Catalog, flags: map<VideoId, string>, hit: Video -> bool): seq<Video>
    requires ValidCatalog(c)
  {
    SortBy(Filter(Eligible(c, flags), hit), TitleOf)
  }

  /** The search loop: keep the eligible videos passing `hit`, then sort them by title. */
  method MatchingVideos(c: Catalog, flags: map<VideoId, string>, hit: Video -> bool) returns (rs: seq<Video>)
    requires ValidCatalog(c)
    ensures rs == Results(c, flags, hit)
  {
    var eligible := Eligible(c, flags);
    var found: seq<Video> := [];
    var i := 0;
    while i < |eligible|
      invariant 0 <= i <= |eligible|
      invariant found == Filter(eligible[..i], hit)
    {
      FilterStep(eligible, hit, i);
      if hit(eligible[i]) {
        found := found + [eligible[i]];
      }
      i := i + 1;
    }
    assert eligible[..i] == eligible;
    rs := SortBy(found, TitleOf);
  }

  /**
   * A video is listed exactly when it is in the catalog, is not flagged and
   * passes the test; the list is sorted by title, and each listed video is
   * the catalog's own entry for its id.
   */
  lemma ResultsAre(c: Catalog, flags: map<VideoId, string>, hit: Video -> bool)
    requires ValidCatalog(c)
    ensures forall v :: v in Results(c, flags, hit) <==> v in AllVideos(c) && v.id !in flags && hit(v)
    ensures SortedBy(Results(c, flags, hit), TitleOf)
    ensures forall v :: v in Results(c, flags, hit) ==> GetVideo(c, v.id) == Some(v)
    ensures Distinct(Results(c, flags, hit))
  {
    var eligible := Eligible(c, flags);
    var found := Filter(eligible, hit);
    var rs := Results(c, flags, hit);
    SortByMembers(found, TitleOf);
    FilterMembers(eligible, hit);
    SortBySorted(found, TitleOf);
    forall v | v in rs ensures GetVideo(c, v.id) == Some(v) {
      InCatalog(c, v);
    }
    assert Distinct(rs) by { ResultsDistinct(c, flags, hit); }
  }

  /** No video is listed twice in a search's results. */
  lemma ResultsDistinct(c: Catalog, flags: map<VideoId, string>, hit: Video -> bool)
    requires ValidCatalog(c)
    ensures Distinct(Results(c, flags, hit))
  {
    var found := Filter(Eligible(c, flags), hit);
    FilterDistinct(Eligible(c, flags), hit);
    SortByDistinct(found, TitleOf);
  }

  /** A title search does not depend on the case in which the term is typed. */
  lemma TitleSearchIgnoresCase(c: Catalog, flags: map<VideoId, string>, term: string, other: string)
    requires ValidCatalog(c)
    requires Lower(term) == Lower(other)
    ensures Results(c, flags, TitleHit(term)) == Results(c, flags, TitleHit(other))
  {
    FilterAgree(Eligible(c, flags), TitleHit(term), TitleHit(other));
  }

  /** A tag search does not depend on the case in which the tag is typed. */
  lemma TagSearchIgnoresQueryCase(c: Catalog, flags: map<VideoId, string>, tag: string, other: string)
    requires ValidCatalog(c)
    requires Lower(tag) == Lower(other)
    ensures Results(c, flags, TagHit(tag)) == Results(c, flags, TagHit(other))
  {
    FilterAgree(Eligible(c, flags), TagHit(tag), TagHit(other));
  }

  /**
   * The stored tags are compared as they are: a video none of whose tags is
   * already lower-case is found by no tag search at all.
   */
  lemma TagSearchMissesUpperCaseTags(c: Catalog, flags: map<VideoId, string>, v: Video, tag: string)
    requires ValidCatalog(c)
    requires forall i :: 0 <= i < |v.tags| ==> !IsLowerCased(v.tags[i])
    ensures v !in Results(c, flags, TagHit(tag))
  {
    ResultsAre(c, flags, TagHit(tag));
  }

  /** The numbered lines "  k) video" for k = 1..N. */
  function Numbered(rs: seq<Video>): (r: seq<Message>)
    ensures |r| == |rs|
    ensures forall i :: 0 <= i < |rs| ==> r[i] == ResultLine(i + 1, rs[i])
  {
    seq(|rs|, i requires 0 <= i < |rs| => ResultLine(i + 1, rs[i]))
  }

  /** What a search with results prints before the answer is read. */
  function Listing(query: string, rs: seq<Video>): seq<Message> {
    [ResultsHeader(query)] + Numbered(rs) + [SelectionPrompt]
  }

  /** `[str(ind) for ind in range(1, n + 1)]`: the answers that select a result. */
  function Labels(n: nat): (r: seq<string>)
    ensures |r| == n
    ensures forall i :: 0 <= i < n ==> r[i] == Decimal(i + 1)
  {
    seq(n, i requires 0 <= i < n => Decimal(i + 1))
  }

  /** A label is a digit string, and `int` of it is its number, between 1 and N. */
  lemma LabelValue(sel: string, n: nat)
    requires sel in Labels(n)
    ensures forall i :: 0 <= i < |sel| ==> IsDigit(sel[i])
    ensures 1 <= ParseDecimal(sel) <= n && Decimal(ParseDecimal(sel)) == sel
  {
    var i :| 0 <= i < n && Labels(n)[i] == sel;
    ParseDecimalOfDecimal(i + 1);
  }

  /**
   * `int(number)` when `str(number)` is one of the labels, and no selection
   * otherwise: a selection names one of the N results by its label, and an
   * answer that is no label selects nothing.
   */
  function Selection(sel: string, n: nat): (r: Option<nat>)
    ensures r.Some? ==> 1 <= r.value <= n && sel == Decimal(r.value)
    ensures r.None? ==> forall k :: 1 <= k <= n ==> sel != Decimal(k)
  {
    if sel in Labels(n) then
      LabelValue(sel, n);
      Some(ParseDecimal(sel))
    else
      assert forall k :: 1 <= k <= n ==> Labels(n)[k - 1] == Decimal(k);
      None
  }

  /** An answer selects result k exactly when it is `str(k)` for some k in 1..N; anything else selects nothing. */
  lemma SelectionIff(sel: string, n: nat, k: nat)
    ensures Selection(sel, n) == Some(k) <==> 1 <= k <= n && sel == Decimal(k)
  {
    if 1 <= k <= n && sel == Decimal(k) {
      assert Labels(n)[k - 1] == sel;
      ParseDecimalOfDecimal(k);
    }
  }
}
