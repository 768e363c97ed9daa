/**
  crawler01.py: builds the catalog `youtube_links.json` from a saved web page. The page
  is given as its `<h3>` headings in document order, each with the links of the list
  that follows it; the probe of each url is given as a function.
*/
module Crawler {
  import opened Wrappers
  import opened Text
  import opened Heights
  import opened Resolution
  import opened Catalog
  import opened Download

  /** The nine characters `sanitize_filename` removes: backslash, slash, star, question mark, colon, double quote, angle brackets, bar. */
  const Forbidden: set<char> := {'\\', '/', '*', '?', ':', '\"', '<', '>', '|'}

  /** The regular-expression substitution of crawler01.py:50: every forbidden character removed. */
  function RemoveForbidden(s: string): (r: string)
    ensures forall c :: c in r <==> c in s && c !in Forbidden
    ensures |r| <= |s|
  {
    if s == [] then []
    else
      var rest := RemoveForbidden(s[1..]);
      assert forall c :: c in s <==> c == s[0] || c in s[1..];
      (if s[0] in Forbidden then [] else [s[0]]) + rest
  }

  /**
    Removal keeps the order of what it keeps: removing from two strings joined is
    joining what is left of each.
  */
  lemma {:induction false} RemoveForbiddenKeepsOrder(a: string, b: string)
    ensures RemoveForbidden(a + b) == RemoveForbidden(a) + RemoveForbidden(b)
    decreases |a|
  {
    if a == [] {
      assert a + b == b;
    } else {
      var head: string := if a[0] in Forbidden then [] else [a[0]];
      assert (a + b)[0] == a[0];
      assert (a + b)[1..] == a[1..] + b;
      calc {
        RemoveForbidden(a + b);
        head + RemoveForbidden(a[1..] + b);
        { RemoveForbiddenKeepsOrder(a[1..], b); }
        head + (RemoveForbidden(a[1..]) + RemoveForbidden(b));
        (head + RemoveForbidden(a[1..])) + RemoveForbidden(b);
        RemoveForbidden(a) + RemoveForbidden(b);
      }
    }
  }

  /** Removal keeps a string that has nothing to remove. */
  lemma {:induction false} RemoveForbiddenKeepsClean(s: string)
    requires forall c :: c in s ==> c !in Forbidden
    ensures RemoveForbidden(s) == s
  {
    if s != [] {
      RemoveForbiddenKeepsClean(s[1..]);
    }
  }

  /** The name used when nothing of a title survives. */
  const Unnamed: string := "unnamed_video"

  /** `sanitize_filename(filename)`. */
  function Sanitize(name: string): string {
    var s := Strip(RemoveForbidden(name));
    if s == "" then Unnamed else s
  }

  /** A usable file base name: not empty, no forbidden character, no whitespace at either end. */
  predicate CleanName(s: string) {
    && s != []
    && (forall c :: c in s ==> c !in Forbidden)
    && !IsSpace(s[0]) && !IsSpace(s[|s| - 1])
  }

  /** The fallback name is itself clean. */
  lemma UnnamedIsClean()
    ensures CleanName(Unnamed)
  {
    forall k | 0 <= k < |Unnamed|
      ensures Unnamed[k] !in Forbidden
    {
    }
  }

  /**
    A sanitized name is clean, and is made of characters of the name unless it is the
    fallback.
  */
  lemma SanitizeIsClean(name: string)
    ensures CleanName(Sanitize(name))
    ensures Sanitize(name) != Unnamed ==> forall c :: c in Sanitize(name) ==> c in name
  {
    var t := RemoveForbidden(name);
    var s := Strip(t);
    if s == [] {
      UnnamedIsClean();
    } else {
      assert Sanitize(name) == s;
      forall c | c in s
        ensures c !in Forbidden && c in name
      {
        assert c in t;
      }
    }
  }

  /** Sanitizing a sanitized name changes nothing. */
  lemma SanitizeIdempotent(name: string)
    ensures Sanitize(Sanitize(name)) == Sanitize(name)
  {
    var r := Sanitize(name);
    SanitizeIsClean(name);
    RemoveForbiddenKeepsClean(r);
    StripTrimmed(r);
  }

  /** A non-empty name without forbidden characters or edge whitespace is kept as it is. */
  lemma SanitizeKeepsClean(name: string)
    requires CleanName(name)
    ensures Sanitize(name) == name
  {
    RemoveForbiddenKeepsClean(name);
    StripTrimmed(name);
  }

  /** A name made only of whitespace and forbidden characters becomes `unnamed_video`. */
  lemma SanitizeFallsBack(name: string)
    requires forall c :: c in name ==> IsSpace(c) || c in Forbidden
    ensures Sanitize(name) == Unnamed
  {
    var s := RemoveForbidden(name);
    assert forall c :: c in s ==> IsSpace(c);
  }

  /** What `get_video_info` answers when it has no height. */
  const Unknown: string := "unknown"

  /** `get_video_info(url)` for the probe of that url: the label of the largest truthy height. */
  function VideoInfo(p: Probe): (r: string)
    ensures p.ProbeFailed? || Truthy(p.formats) == [] ==> r == Unknown
    ensures p.Probed? && Truthy(p.formats) != [] ==>
      var m := Key(r);
      && r == Label(m)
      && m in Truthy(p.formats)
      && forall h :: h in Truthy(p.formats) ==> h <= m
  {
    match p
    case ProbeFailed => Unknown
    case Probed(fs) =>
      if Truthy(fs) == [] then Unknown
      else
        KeyOfLabel(Max(Truthy(fs)));
        Label(Max(Truthy(fs)))
  }

  /** `unknown` is never the label of a height, so a download never finds it on offer. */
  lemma UnknownIsNoLabel(fs: Formats)
    ensures Unknown !in Labels(fs)
  {
    forall h | h in Truthy(fs)
      ensures Label(h) != Unknown
    {
      assert Label(h)[|Label(h)| - 1] == 'p';
    }
  }

  /** An `<a>` element: its `href` attribute, if any, and its text. */
  datatype Link = Link(href: Option<string>, text: string)

  /** An `<h3>` heading with the links of the `<ul>` that follows it (none when there is none). */
  datatype Heading = Heading(text: string, links: seq<Link>)

  /** The heading text that marks a category (`'護理組 -'`). */
  const Marker: string := "\U{8B77}\U{7406}\U{7D44} -"

  /** The two categories the crawler collects, in output order. */
  const NursingKey: string := "\U{8B77}\U{7406}\U{5E38}\U{898F}\U{7D00}\U{9304}"
  const QualityKey: string := "\U{54C1}\U{8CEA}\U{76E3}\U{6E2C}\U{7D00}\U{9304}"

  /** The category a heading names, if its stripped text holds the marker (crawler01.py:75-78). */
  function CategoryName(text: string): (r: Option<string>)
    ensures r.Some? <==> Contains(Strip(text), Marker)
  {
    var t := Strip(text);
    if Contains(t, Marker) then Some(Strip(AfterLast(t, '-'))) else None
  }

  /** Text holding the marker holds a `-`. */
  lemma {:induction false} MarkerHasDash(s: string)
    requires Contains(s, Marker)
    ensures '-' in s
  {
    if Marker <= s {
      assert s[4] == '-';
    } else {
      MarkerHasDash(s[1..]);
    }
  }

  /** A category name is the stripped text after the last `-` of the stripped heading. */
  lemma CategoryNameIsTail(text: string)
    requires CategoryName(text).Some?
    ensures var t := Strip(text);
      exists k :: 0 <= k < |t| && t[k] == '-' && '-' !in t[k + 1..] && CategoryName(text).value == Strip(t[k + 1..])
  {
    var t := Strip(text);
    MarkerHasDash(t);
    var after := AfterLast(t, '-');
    var k := |t| - |after| - 1;
    assert t[k + 1..] == after;
  }

  /** A link that yields a record (crawler01.py:83-86). */
  predicate Accepts(l: Link) {
    l.href.Some? && Contains(l.href.value, "youtu.be") && l.href.value != "" && Strip(l.text) != ""
  }

  /** One `video_data` record. */
  datatype Record = Record(url: string, title: string, safeTitle: string, resolution: string, filename: string)

  /** The record built for a url and its stripped title (crawler01.py:87-95). */
  function MakeRecord(url: string, title: string, probe: string -> Probe): Record {
    var safe := Sanitize(title);
    var resolution := VideoInfo(probe(url));
    Record(url, title, safe, resolution, safe + "_" + resolution + ".mp4")
  }

  /**
    How a record is made from a url and a title. The crawl loops take it as a value, so
    that they depend only on which links yield a record and in what order.
  */
  type Builder = (string, string) -> Record

  /** The builder of a crawl whose probe is `probe`. */
  function BuilderOf(probe: string -> Probe): Builder {
    (url, title) => MakeRecord(url, title, probe)
  }

  /** The record of an accepted link. */
  function RecordOf(l: Link, build: Builder): Record
    requires l.href.Some?
  {
    build(l.href.value, Strip(l.text))
  }

  /** The records the links of one list yield, in document order. */
  function LinkRecords(links: seq<Link>, build: Builder): (rs: seq<Record>)
    ensures |rs| <= |links|
    decreases |links|
  {
    if links == [] then []
    else
      var l := links[|links| - 1];
      LinkRecords(links[..|links| - 1], build) + (if Accepts(l) then [RecordOf(l, build)] else [])
  }

  /** Taking one more link adds its record when it is accepted. */
  lemma LinkRecordsStep(links: seq<Link>, j: nat, build: Builder)
    requires j < |links|
    ensures LinkRecords(links[..j + 1], build) == LinkRecords(links[..j], build) +
      (if Accepts(links[j]) then [RecordOf(links[j], build)] else [])
  {
    assert links[..j + 1][..j] == links[..j];
  }

  /** Every record of a list is the record of one of its accepted links. */
  lemma {:induction false} LinkRecordsSound(links: seq<Link>, build: Builder, r: Record)
    requires r in LinkRecords(links, build)
    ensures exists l :: l in links && Accepts(l) && r == RecordOf(l, build)
    decreases |links|
  {
    var n := |links| - 1;
    var init, last := links[..n], links[n];
    if r in LinkRecords(init, build) {
      LinkRecordsSound(init, build, r);
      var l :| l in init && Accepts(l) && r == RecordOf(l, build);
      assert l in links;
    } else {
      assert Accepts(last) && r == RecordOf(last, build);
    }
  }

  /** Every accepted link of a list yields its record. */
  lemma {:induction false} LinkRecordsComplete(links: seq<Link>, build: Builder, l: Link)
    requires l in links && Accepts(l)
    ensures RecordOf(l, build) in LinkRecords(links, build)
    decreases |links|
  {
    var n := |links| - 1;
    var init := links[..n];
    var k :| 0 <= k < |links| && links[k] == l;
    if k < n {
      assert init[k] == l;
      LinkRecordsComplete(init, build, l);
    }
  }

  /** Records keep document order: the records of two runs of links are concatenated. */
  lemma {:induction false} LinkRecordsInOrder(a: seq<Link>, b: seq<Link>, build: Builder)
    ensures LinkRecords(a + b, build) == LinkRecords(a, build) + LinkRecords(b, build)
    decreases |b|
  {
    if b == [] {
      assert a + b == a;
    } else {
      var init := b[..|b| - 1];
      assert (a + b)[..|a + b| - 1] == a + init;
      LinkRecordsInOrder(a, init, build);
    }
  }

  /** A file name that ends in `.mp4` and holds no forbidden character. */
  predicate CleanFileName(f: string) {
    |f| >= 4 && f[|f| - 4..] == ".mp4" && forall c :: c in f ==> c !in Forbidden
  }

  /** `{safe}_{resolution}.mp4` is clean when its two variable parts are. */
  lemma FileNameClean(safe: string, resolution: string)
    requires forall c :: c in safe ==> c !in Forbidden
    requires forall c :: c in resolution ==> c !in Forbidden
    ensures CleanFileName(safe + "_" + resolution + ".mp4")
  {
    var f := safe + "_" + resolution + ".mp4";
    assert f[|f| - 4..] == ".mp4";
    forall c | c in f
      ensures c !in Forbidden
    {
      assert c in safe || c in "_" || c in resolution || c in ".mp4";
    }
  }

  /**
    Every record is well formed: its safe title is the sanitized title, and its file
    name `{safe_title}_{resolution}.mp4` ends in `.mp4` and has no forbidden character,
    so it is one path component.
  */
  lemma RecordWellFormed(url: string, title: string, probe: string -> Probe)
    ensures MakeRecord(url, title, probe).safeTitle == Sanitize(title)
    ensures CleanFileName(MakeRecord(url, title, probe).filename)
  {
    SanitizeIsClean(title);
    ResolutionIsClean(probe(url));
    FileNameClean(Sanitize(title), VideoInfo(probe(url)));
  }

  /** A resolution label holds no forbidden character. */
  lemma ResolutionIsClean(p: Probe)
    ensures forall c :: c in VideoInfo(p) ==> c !in Forbidden
  {
    if p.Probed? && Truthy(p.formats) != [] {
      LabelIsClean(Max(Truthy(p.formats)));
    }
  }

  /** A label `{h}p` is made of digits and `p`. */
  lemma LabelIsClean(h: nat)
    ensures forall c :: c in Label(h) ==> c !in Forbidden
  {
    var d := NatToString(h);
    assert forall c :: c in d ==> IsDigitChar(c);
    assert forall c :: c in Label(h) ==> c in d || c == 'p';
  }

  /** The records a category collects from the headings `hs`. */
  function Collected(hs: seq<Heading>, key: string, build: Builder): seq<Record>
    decreases |hs|
  {
    if hs == [] then []
    else
      var h := hs[|hs| - 1];
      Collected(hs[..|hs| - 1], key, build) +
        (if CategoryName(h.text) == Some(key) then LinkRecords(h.links, build) else [])
  }

  /** Taking one more heading adds its records when it names the category. */
  lemma CollectedStep(hs: seq<Heading>, i: nat, key: string, build: Builder)
    requires i < |hs|
    ensures Collected(hs[..i + 1], key, build) == Collected(hs[..i], key, build) +
      (if CategoryName(hs[i].text) == Some(key) then LinkRecords(hs[i].links, build) else [])
  {
    assert hs[..i + 1][..i] == hs[..i];
  }

  /** A category collects exactly the records of the headings that name it. */
  lemma {:induction false} CollectedFromOwnHeadings(hs: seq<Heading>, key: string, build: Builder, r: Record)
    ensures r in Collected(hs, key, build) <==>
      exists h :: h in hs && CategoryName(h.text) == Some(key) && r in LinkRecords(h.links, build)
    decreases |hs|
  {
    if hs != [] {
      var init := hs[..|hs| - 1];
      assert forall x :: x in hs <==> x in init || x == hs[|hs| - 1];
      CollectedFromOwnHeadings(init, key, build, r);
    }
  }

  /** A named list of records, one entry of `categorized_data`. */
  datatype Bucket = Bucket(name: string, records: seq<Record>)

  /**
    The body of the inner loop of `extract_youtube_links` for one link: its record is
    appended to the list of `name` when the link is accepted and `categorized_data`
    has that key.
  */
  method CollectLink(l: Link, name: string, build: Builder, data: map<string, seq<Record>>)
    returns (data': map<string, seq<Record>>)
    ensures data'.Keys == data.Keys
    ensures forall k :: k in data && k != name ==> data'[k] == data[k]
    ensures name in data ==> data'[name] == data[name] + (if Accepts(l) then [RecordOf(l, build)] else [])
  {
    data' := data;
    if l.href.Some? && Contains(l.href.value, "youtu.be") {
      var url := l.href.value;
      var title := Strip(l.text);
      if url != "" && title != "" {
        var record := build(url, title);
        if name in data {
          data' := data[name := data[name] + [record]];
        }
      }
    }
  }

  /**
    The inner loop of `extract_youtube_links` over the links of one list: the records
    are appended to the list of `name` when `categorized_data` has that key, and
    dropped otherwise.
  */
  method CollectLinks(links: seq<Link>, name: string, build: Builder, data: map<string, seq<Record>>)
    returns (data': map<string, seq<Record>>)
    ensures data'.Keys == data.Keys
    ensures forall k :: k in data && k != name ==> data'[k] == data[k]
    ensures name in data ==> data'[name] == data[name] + LinkRecords(links, build)
  {
    data' := data;
    var j := 0;
    while j < |links|
      invariant 0 <= j <= |links|
      invariant data'.Keys == data.Keys
      invariant forall k :: k in data && k != name ==> data'[k] == data[k]
      invariant name in data ==> data'[name] == data[name] + LinkRecords(links[..j], build)
    {
      LinkRecordsStep(links, j, build);
      data' := CollectLink(links[j], name, build, data');
      j := j + 1;
    }
    assert links[..j] == links;
  }

  /**
    `extract_youtube_links(html_file)`: `doc` is `None` when the file cannot be read,
    and then the result is empty; otherwise both categories, in their fixed order.
  */
  method ExtractLinks(doc: Option<seq<Heading>>, build: Builder) returns (buckets: seq<Bucket>)
    ensures doc.None? ==> buckets == []
    ensures doc.Some? ==> buckets == [
      Bucket(NursingKey, Collected(doc.value, NursingKey, build)),
      Bucket(QualityKey, Collected(doc.value, QualityKey, build))]
  {
    if doc.None? {
      return [];
    }
    var hs := doc.value;
    var data := map[NursingKey := [], QualityKey := []];
    var keys := data.Keys;
    var i := 0;
    while i < |hs|
      invariant 0 <= i <= |hs|
      invariant data.Keys == keys
      invariant forall k :: k in data ==> data[k] == Collected(hs[..i], k, build)
    {
      var name := CategoryName(hs[i].text);
      if name.Some? {
        data := CollectLinks(hs[i].links, name.value, build, data);
      }
      forall k | k in data
        ensures data[k] == Collected(hs[..i + 1], k, build)
      {
        CollectedStep(hs, i, k, build);
      }
      i := i + 1;
    }
    assert hs[..i] == hs;
    return [Bucket(NursingKey, data[NursingKey]), Bucket(QualityKey, data[QualityKey])];
  }

  /** One category of the output file, with its `total_videos`. */
  datatype Entry = Entry(name: string, totalVideos: nat, videos: seq<Record>)

  /** The output file: its `source` and its categories (`extraction_time` is not modelled). */
  datatype Output = Output(source: string, categories: seq<Entry>)

  /** The page the crawler reads. */
  const HtmlFile: string := "reference/r1.html"

  /**
    The part of `main` after extraction (crawler01.py:131-147): nothing is written when
    no bucket holds a record; otherwise every bucket becomes an entry with its count.
  */
  method Publish(buckets: seq<Bucket>) returns (out: Option<Output>)
    ensures out.None? <==> forall k :: 0 <= k < |buckets| ==> buckets[k].records == []
    ensures out.Some? ==> out.value.source == HtmlFile && |out.value.categories| == |buckets|
    ensures out.Some? ==> forall k :: 0 <= k < |buckets| ==>
      out.value.categories[k] == Entry(buckets[k].name, |buckets[k].records|, buckets[k].records)
  {
    if forall k :: 0 <= k < |buckets| ==> buckets[k].records == [] {
      return None;
    }
    var entries: seq<Entry> := [];
    var k := 0;
    while k < |buckets|
      invariant 0 <= k <= |buckets|
      invariant |entries| == k
      invariant forall i :: 0 <= i < k ==> entries[i] == Entry(buckets[i].name, |buckets[i].records|, buckets[i].records)
    {
      var b := buckets[k];
      entries := entries + [Entry(b.name, |b.records|, b.records)];
      k := k + 1;
    }
    return Some(Output(HtmlFile, entries));
  }

  /**
    `main()` of crawler01.py: `doc` is `None` when the page is missing or unreadable.
    Returns what is saved to `youtube_links.json`, or `None` when nothing is saved.
  */
  method CrawlMain(doc: Option<seq<Heading>>, probe: string -> Probe) returns (out: Option<Output>)
    ensures doc.None? ==> out.None?
    ensures doc.Some? ==>
      var n := Collected(doc.value, NursingKey, BuilderOf(probe));
      var q := Collected(doc.value, QualityKey, BuilderOf(probe));
      && (out.None? <==> n == [] && q == [])
      && (out.Some? ==> out.value == Output(HtmlFile, [Entry(NursingKey, |n|, n), Entry(QualityKey, |q|, q)]))
  {
    if doc.None? {
      return None;
    }
    var build := BuilderOf(probe);
    var buckets := ExtractLinks(doc, build);
    ghost var n := Collected(doc.value, NursingKey, build);
    ghost var q := Collected(doc.value, QualityKey, build);
    assert buckets[0].records == n && buckets[1].records == q;
    out := Publish(buckets);
    if out.None? {
      assert buckets[0].records == [] && buckets[1].records == [];
    } else {
      var es := out.value.categories;
      assert es == [es[0], es[1]];
    }
  }

  /** The catalog entry download.py reads back for a record. */
  function ToVideo(r: Record): Video {
    Video(Some(r.url), Some(r.title), Some(r.safeTitle), Some(r.resolution))
  }

  /**
    A record always passes the entry guards of `download_video`; the base name the
    downloader and the audit use for it is its safe title, which has no `/`, so the
    audit's fragment globs stay inside the category folder.
  */
  lemma RecordPassesGuards(url: string, title: string, probe: string -> Probe)
    requires url != ""
    ensures HasFields(ToVideo(MakeRecord(url, title, probe)))
    ensures TitleOf(ToVideo(MakeRecord(url, title, probe))) == MakeRecord(url, title, probe).safeTitle
    ensures '/' !in TitleOf(ToVideo(MakeRecord(url, title, probe)))
  {
    SanitizeIsClean(title);
  }

  /** Every record a category collects is the record of an accepted link under a heading naming it. */
  lemma {:induction false} CollectedFromAcceptedLinks(hs: seq<Heading>, key: string, build: Builder, r: Record)
    requires r in Collected(hs, key, build)
    ensures exists h, l :: h in hs && CategoryName(h.text) == Some(key) && l in h.links && Accepts(l) && r == RecordOf(l, build)
  {
    CollectedFromOwnHeadings(hs, key, build, r);
    var h :| h in hs && CategoryName(h.text) == Some(key) && r in LinkRecords(h.links, build);
    LinkRecordsSound(h.links, build, r);
  }

  /**
    Every record of a crawled category has a `youtu.be` url and a stripped, non-empty
    title, is well formed, and passes the entry guards of `download_video`.
  */
  lemma CrawledRecord(hs: seq<Heading>, key: string, probe: string -> Probe, r: Record)
    requires r in Collected(hs, key, BuilderOf(probe))
    ensures Contains(r.url, "youtu.be") && r.title != "" && r.title == Strip(r.title)
    ensures r.safeTitle == Sanitize(r.title) && CleanFileName(r.filename)
    ensures HasFields(ToVideo(r)) && '/' !in TitleOf(ToVideo(r))
  {
    var build := BuilderOf(probe);
    CollectedFromAcceptedLinks(hs, key, build, r);
    var h, l :| h in hs && CategoryName(h.text) == Some(key) && l in h.links && Accepts(l) && r == RecordOf(l, build);
    var url, title := l.href.value, Strip(l.text);
    assert r == MakeRecord(url, title, probe);
    StripIdempotent(l.text);
    RecordWellFormed(url, title, probe);
    RecordPassesGuards(url, title, probe);
  }

  /**
    When the probe at download time answers as it did at crawl time, the crawled label
    is on offer and is the one downloaded, unless there is no height at all; with a
    different answer, an `unknown` label falls back to the highest height.
  */
  lemma CrawledLabelHonoured(p: Probe, fs: Formats)
    requires Truthy(fs) != []
    ensures p == Probed(fs) ==>
      Choose(fs, Preferred(Some(VideoInfo(p)), false), false) == Some(Highest(fs))
    ensures VideoInfo(p) == Unknown ==>
      Choose(fs, Preferred(Some(VideoInfo(p)), false), false) == Some(Highest(fs))
  {
    UnknownIsNoLabel(fs);
    LowerFixes(Unknown);
    if p == Probed(fs) {
      var l := Highest(fs);
      var m := Max(Truthy(fs));
      assert forall k :: 0 <= k < |NatToString(m)| ==> IsDigitChar(NatToString(m)[k]);
      LowerFixes(l);
      HighestSortsFirst(fs);
    }
  }
}
