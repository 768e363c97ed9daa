/**
  The catalog `youtube_links.json` as download.py reads it: categories in file order,
  each with its videos in order. Every field of a video record may be missing.
*/
module Catalog {
  import opened Wrappers

  /** One entry of a category's `videos` list; `None` is a missing key. */
  datatype Video = Video(
    url: Option<string>,
    title: Option<string>,
    safeTitle: Option<string>,
    resolution: Option<string>)

  datatype Category = Category(name: string, videos: seq<Video>)

  type Catalog = seq<Category>

  /** `video.get("safe_title", video.get("title", ""))`: the base name of the video's files. */
  function TitleOf(v: Video): (t: string)
    ensures v.safeTitle.Some? ==> t == v.safeTitle.value
    ensures v.safeTitle.None? ==> t == v.title.GetOr("")
  {
    match v.safeTitle
    case Some(t) => t
    case None => v.title.GetOr("")
  }

  /** The position of the first video of `vs` whose url is `url`. */
  function FindIn(vs: seq<Video>, url: string): (r: Option<nat>)
    ensures r.Some? ==> r.value < |vs| && vs[r.value].url == Some(url)
    ensures r.Some? ==> forall k :: 0 <= k < r.value ==> vs[k].url != Some(url)
    ensures r.None? ==> forall k :: 0 <= k < |vs| ==> vs[k].url != Some(url)
  {
    if vs == [] then None
    else if vs[0].url == Some(url) then Some(0)
    else match FindIn(vs[1..], url)
      case Some(k) => Some(k + 1)
      case None => None
  }

  /** No video of categories `0..i` carries `url`. */
  ghost predicate AbsentBefore(cat: Catalog, url: string, i: int)
    requires i <= |cat|
  {
    forall c, k :: 0 <= c < i && 0 <= k < |cat[c].videos| ==> cat[c].videos[k].url != Some(url)
  }

  /**
    The first match for `url`, searching categories in order and each category's
    videos in order: the category index and the video index.
  */
  function Locate(cat: Catalog, url: string): (r: Option<(nat, nat)>)
    ensures r.Some? ==> var (c, k) := r.value;
      && c < |cat| && k < |cat[c].videos| && cat[c].videos[k].url == Some(url)
      && AbsentBefore(cat, url, c)
      && forall j :: 0 <= j < k ==> cat[c].videos[j].url != Some(url)
    ensures r.None? ==> AbsentBefore(cat, url, |cat|)
  {
    if cat == [] then None
    else match FindIn(cat[0].videos, url)
      case Some(k) => Some((0, k))
      case None =>
        match Locate(cat[1..], url)
        case Some((c, k)) => Some((c + 1, k))
        case None => None
  }

  /**
    The lookup loop of `check_download_integrity` (download.py:222-237): walks the
    categories and their videos until a url matches, then stops.
  */
  method FindVideo(cat: Catalog, url: string) returns (found: bool, name: string, video: Video)
    ensures found <==> Locate(cat, url).Some?
    ensures found ==> var (c, k) := Locate(cat, url).value;
      name == cat[c].name && video == cat[c].videos[k]
  {
    found, name, video := false, "", Video(None, None, None, None);
    var c := 0;
    while c < |cat| && !found
      invariant 0 <= c <= |cat|
      invariant !found ==> AbsentBefore(cat, url, c)
      invariant found ==> 0 < c && Locate(cat, url).Some? && Locate(cat, url).value.0 == c - 1
      invariant found ==> var (i, k) := Locate(cat, url).value;
        name == cat[i].name && video == cat[i].videos[k]
    {
      var videos := cat[c].videos;
      var k := 0;
      while k < |videos| && !found
        invariant 0 <= k <= |videos|
        invariant !found ==> forall j :: 0 <= j < k ==> videos[j].url != Some(url)
        invariant found ==> 0 < k && videos[k - 1].url == Some(url)
        invariant found ==> forall j :: 0 <= j < k - 1 ==> videos[j].url != Some(url)
        invariant found ==> name == cat[c].name && video == videos[k - 1]
      {
        if videos[k].url == Some(url) {
          found, name, video := true, cat[c].name, videos[k];
        }
        k := k + 1;
      }
      if found {
        LocateFirst(cat, url, c, k - 1);
      }
      c := c + 1;
    }
  }

  /** A match with nothing earlier is the one `Locate` reports. */
  lemma {:induction false} LocateFirst(cat: Catalog, url: string, c: nat, k: nat)
    requires c < |cat| && k < |cat[c].videos| && cat[c].videos[k].url == Some(url)
    requires AbsentBefore(cat, url, c)
    requires forall j :: 0 <= j < k ==> cat[c].videos[j].url != Some(url)
    ensures Locate(cat, url) == Some((c, k))
    decreases c
  {
    if c == 0 {
      assert FindIn(cat[0].videos, url) == Some(k);
    } else {
      assert FindIn(cat[0].videos, url).None?;
      var rest := cat[1..];
      assert AbsentBefore(rest, url, c - 1) by {
        forall i, j | 0 <= i < c - 1 && 0 <= j < |rest[i].videos|
          ensures rest[i].videos[j].url != Some(url)
        {
          assert rest[i] == cat[i + 1];
        }
      }
      LocateFirst(rest, url, c - 1, k);
    }
  }
}
