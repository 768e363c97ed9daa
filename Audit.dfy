/**
  `check_download_integrity` (download.py:204-270): every url of the ledger is looked up
  in the catalog; a url with no entry, or with an empty title, is dropped from the
  ledger; a url whose `{title}.mp4` is missing or under 1 MiB has its partial-download
  files deleted, is dropped, and is counted as repaired. The urls are handled one after
  the other, each against the tree as the earlier deletions left it.
*/
module Audit {
  import opened Wrappers
  import opened Files
  import opened Catalog
  import opened Ledger

  /** An artifact smaller than this is incomplete (`1024 * 1024` bytes). */
  const MinSize: nat := 1024 * 1024

  /** `name` matches the glob `prefix*suffix`, where `*` is any run of characters. */
  predicate StarMatch(name: string, prefix: string, suffix: string) {
    |prefix| + |suffix| <= |name| && prefix <= name && name[|name| - |suffix|..] == suffix
  }

  /** `name` matches one of `{title}.*part`, `{title}.webp`, `{title}.*.m4a`, `{title}.f*.mp4`. */
  predicate IsDebrisName(name: string, title: string) {
    || StarMatch(name, title + ".", "part")
    || name == title + ".webp"
    || StarMatch(name, title + ".", ".m4a")
    || StarMatch(name, title + ".f", ".mp4")
  }

  /** The files of directory `dir` that the four globs of download.py:246-249 list. */
  function Debris(t: Tree, dir: string, title: string): (d: set<string>)
    ensures d <= t.Keys
  {
    set p | p in t && Parent(p) == dir && IsDebrisName(Name(p), title)
  }

  /** The final artifact of a video of category `dir` titled `title`. */
  function Artifact(dir: string, title: string): string {
    Join(dir, title + ".mp4")
  }

  /** The (category name, title) the catalog gives a url: its first entry, when that entry has a title. */
  function Target(cat: Catalog, url: string): Option<(string, string)> {
    match Locate(cat, url)
    case None => None
    case Some((c, k)) =>
      var title := TitleOf(cat[c].videos[k]);
      if title == "" then None else Some((cat[c].name, title))
  }

  /** What the audit decides for one ledger url against the current tree. */
  datatype Verdict =
    | Intact                                // the artifact is there and large enough
    | Unmatched                             // no catalog entry, or an entry without title
    | Incomplete(dir: string, title: string) // the artifact is missing or short

  function Judge(cat: Catalog, t: Tree, url: string): (v: Verdict)
    ensures v.Unmatched? <==> Target(cat, url).None?
    ensures v.Incomplete? ==> Target(cat, url) == Some((v.dir, v.title))
  {
    match Target(cat, url)
    case None => Unmatched
    case Some((dir, title)) =>
      var a := Artifact(dir, title);
      if a !in t || t[a] < MinSize then Incomplete(dir, title) else Intact
  }

  /** The audit's running state: urls marked for removal, the tree, the repair count. */
  datatype Pass = Pass(removed: seq<string>, tree: Tree, fixed: nat)

  /** The body of the loop at download.py:222-262 for one url. */
  function Step(s: Pass, cat: Catalog, url: string): Pass {
    match Judge(cat, s.tree, url)
    case Intact => s
    case Unmatched => s.(removed := s.removed + [url])
    case Incomplete(dir, title) =>
      Pass(s.removed + [url], s.tree - Debris(s.tree, dir, title), s.fixed + 1)
  }

  /** The loop over the ledger urls, in ledger order. */
  function Scan(cat: Catalog, t: Tree, urls: seq<string>): Pass
    decreases |urls|
  {
    if urls == [] then Pass([], t, 0)
    else Step(Scan(cat, t, urls[..|urls| - 1]), cat, urls[|urls| - 1])
  }

  /** `[url for url in urls if url not in removed]`. */
  function Survivors(urls: seq<string>, removed: seq<string>): (r: seq<string>)
    ensures forall u :: u in r <==> u in urls && u !in removed
    ensures |r| <= |urls|
  {
    if urls == [] then []
    else
      var rest := Survivors(urls[1..], removed);
      assert forall u :: u in urls <==> u == urls[0] || u in urls[1..];
      if urls[0] in removed then rest else [urls[0]] + rest
  }

  /** The survivors keep their relative order: filtering commutes with concatenation. */
  lemma {:induction false} SurvivorsKeepOrder(a: seq<string>, b: seq<string>, removed: seq<string>)
    ensures Survivors(a + b, removed) == Survivors(a, removed) + Survivors(b, removed)
    decreases |a|
  {
    if a != [] {
      assert (a + b)[0] == a[0];
      assert (a + b)[1..] == a[1..] + b;
      SurvivorsKeepOrder(a[1..], b, removed);
      var x, y := Survivors(a[1..], removed), Survivors(b, removed);
      assert [a[0]] + (x + y) == ([a[0]] + x) + y;
    } else {
      assert a + b == b;
    }
  }

  /** Filtering out nothing keeps the list as it is. */
  lemma {:induction false} SurvivorsOfNothing(urls: seq<string>)
    ensures Survivors(urls, []) == urls
    decreases |urls|
  {
    if urls != [] {
      SurvivorsOfNothing(urls[1..]);
    }
  }

  /** Every file of `a` is a file of `b`, with the same size. */
  ghost predicate SubTree(a: Tree, b: Tree) {
    forall p :: p in a ==> p in b && a[p] == b[p]
  }

  /** The audit only deletes: every later tree is a part of every earlier one. */
  lemma {:induction false} ScanShrinks(cat: Catalog, t: Tree, urls: seq<string>, i: nat)
    requires i <= |urls|
    ensures SubTree(Scan(cat, t, urls).tree, Scan(cat, t, urls[..i]).tree)
    decreases |urls|
  {
    if i < |urls| {
      var init := urls[..|urls| - 1];
      assert init[..i] == urls[..i];
      ScanShrinks(cat, t, init, i);
    } else {
      assert urls[..i] == urls;
    }
  }

  /** Scanning one more url is one more `Step`. */
  lemma ScanSnoc(cat: Catalog, t: Tree, done: seq<string>, url: string)
    ensures Scan(cat, t, done + [url]) == Step(Scan(cat, t, done), cat, url)
  {
    assert (done + [url])[..|done|] == done;
  }

  /** The url at position `i` of the ledger was judged not intact when its turn came. */
  ghost predicate FlaggedAt(cat: Catalog, t: Tree, urls: seq<string>, u: string, i: int) {
    0 <= i < |urls| && urls[i] == u && Judge(cat, Scan(cat, t, urls[..i]).tree, u) != Intact
  }

  /** One more url is marked for removal exactly when it is judged not intact. */
  lemma ScanStepRemoved(cat: Catalog, t: Tree, urls: seq<string>, u: string)
    requires urls != []
    ensures var n := |urls| - 1;
      var p := Scan(cat, t, urls[..n]);
      u in Scan(cat, t, urls).removed <==> u in p.removed || (u == urls[n] && Judge(cat, p.tree, u) != Intact)
  {
  }

  /**
    A url is marked for removal exactly when one of its occurrences in the ledger was
    judged not intact against the tree as the earlier urls left it.
  */
  lemma {:induction false} RemovedExactly(cat: Catalog, t: Tree, urls: seq<string>, u: string)
    ensures u in Scan(cat, t, urls).removed <==> exists i :: FlaggedAt(cat, t, urls, u, i)
    decreases |urls|
  {
    if urls != [] {
      var n := |urls| - 1;
      var init := urls[..n];
      RemovedExactly(cat, t, init, u);
      var p := Scan(cat, t, init);
      ScanStepRemoved(cat, t, urls, u);
      if u in Scan(cat, t, urls).removed {
        if u in p.removed {
          var i :| FlaggedAt(cat, t, init, u, i);
          assert init[..i] == urls[..i];
          assert FlaggedAt(cat, t, urls, u, i);
        } else {
          assert urls[..n] == init;
          assert FlaggedAt(cat, t, urls, u, n);
        }
      }
      if exists i :: FlaggedAt(cat, t, urls, u, i) {
        var i :| FlaggedAt(cat, t, urls, u, i);
        if i < n {
          assert init[..i] == urls[..i];
          assert FlaggedAt(cat, t, init, u, i);
        } else {
          assert urls[..i] == init;
        }
      }
    }
  }

  /**
    At the turn of the url at position `i`, that url was judged incomplete and `p` was
    one of its partial-download files.
  */
  ghost predicate DeletedAt(cat: Catalog, t: Tree, urls: seq<string>, p: string, i: int) {
    && 0 <= i < |urls|
    && var s := Scan(cat, t, urls[..i]);
      var v := Judge(cat, s.tree, urls[i]);
      v.Incomplete? && p in Debris(s.tree, v.dir, v.title)
  }

  /** A file removed at some turn was in the tree before the audit and is gone after it. */
  lemma DeletedSound(cat: Catalog, t: Tree, urls: seq<string>, p: string, i: int)
    requires DeletedAt(cat, t, urls, p, i)
    ensures p in t && p !in Scan(cat, t, urls).tree
  {
    var pre := urls[..i];
    ScanShrinks(cat, t, pre, 0);
    assert pre[..0] == [];
    assert urls[..i + 1][..i] == pre;
    ScanShrinks(cat, t, urls, i + 1);
  }

  /** A file of the tree that is gone after the audit was removed at some turn. */
  lemma {:induction false} DeletedComplete(cat: Catalog, t: Tree, urls: seq<string>, p: string)
    requires p in t && p !in Scan(cat, t, urls).tree
    ensures exists i :: DeletedAt(cat, t, urls, p, i)
    decreases |urls|
  {
    var n := |urls| - 1;
    var init := urls[..n];
    var s := Scan(cat, t, init);
    if p !in s.tree {
      DeletedComplete(cat, t, init, p);
      var i :| DeletedAt(cat, t, init, p, i);
      assert init[..i] == urls[..i];
      assert DeletedAt(cat, t, urls, p, i);
    } else {
      assert DeletedAt(cat, t, urls, p, n);
    }
  }

  /**
    The audit deletes exactly the partial-download files of the urls it judges
    incomplete, each against the tree as the earlier urls left it, and nothing else.
  */
  lemma DeletedExactly(cat: Catalog, t: Tree, urls: seq<string>, p: string)
    ensures p in t && p !in Scan(cat, t, urls).tree <==> exists i :: DeletedAt(cat, t, urls, p, i)
  {
    if p in t && p !in Scan(cat, t, urls).tree {
      DeletedComplete(cat, t, urls, p);
    }
    if exists i :: DeletedAt(cat, t, urls, p, i) {
      var i :| DeletedAt(cat, t, urls, p, i);
      DeletedSound(cat, t, urls, p, i);
    }
  }

  /** A url the catalog does not know, or knows without a title, is always dropped. */
  lemma RemovesUnknown(cat: Catalog, t: Tree, urls: seq<string>, u: string)
    requires u in urls && Target(cat, u).None?
    ensures u !in Survivors(urls, Scan(cat, t, urls).removed)
  {
    var i :| 0 <= i < |urls| && urls[i] == u;
    RemovedExactly(cat, t, urls, u);
  }

  /** A url whose artifact is missing or short before the audit is always dropped. */
  lemma RemovesIncomplete(cat: Catalog, t: Tree, urls: seq<string>, u: string, dir: string, title: string)
    requires u in urls && Target(cat, u) == Some((dir, title))
    requires Artifact(dir, title) !in t || t[Artifact(dir, title)] < MinSize
    ensures u !in Survivors(urls, Scan(cat, t, urls).removed)
  {
    var i :| 0 <= i < |urls| && urls[i] == u;
    ScanShrinks(cat, t, urls[..i], 0);
    assert urls[..i][..0] == [];
    RemovedExactly(cat, t, urls, u);
  }

  /** A known url whose artifact is complete after the audit was kept by it. */
  lemma KeepsComplete(cat: Catalog, t: Tree, urls: seq<string>, u: string, dir: string, title: string)
    requires u in urls && Target(cat, u) == Some((dir, title))
    requires var f := Scan(cat, t, urls).tree;
      Artifact(dir, title) in f && f[Artifact(dir, title)] >= MinSize
    ensures u in Survivors(urls, Scan(cat, t, urls).removed)
  {
    RemovedExactly(cat, t, urls, u);
    forall i | 0 <= i < |urls| && urls[i] == u
      ensures !FlaggedAt(cat, t, urls, u, i)
    {
      ScanShrinks(cat, t, urls, i);
    }
  }

  /** Number of urls the catalog does not match (or matches without a title). */
  function CountUnmatched(cat: Catalog, urls: seq<string>): nat
    decreases |urls|
  {
    if urls == [] then 0
    else CountUnmatched(cat, urls[..|urls| - 1]) + (if Target(cat, urls[|urls| - 1]).None? then 1 else 0)
  }

  /**
    The repair count counts the removals for a missing or short artifact and nothing
    else: every other removal is a catalog miss.
  */
  lemma {:induction false} FixedCountsRepairsOnly(cat: Catalog, t: Tree, urls: seq<string>)
    ensures |Scan(cat, t, urls).removed| == Scan(cat, t, urls).fixed + CountUnmatched(cat, urls)
    ensures Scan(cat, t, urls).fixed <= |urls|
    decreases |urls|
  {
    if urls != [] {
      FixedCountsRepairsOnly(cat, t, urls[..|urls| - 1]);
    }
  }

  /** Files are deleted only for urls counted as repaired. */
  lemma {:induction false} NoRepairNoDeletion(cat: Catalog, t: Tree, urls: seq<string>)
    requires Scan(cat, t, urls).fixed == 0
    ensures Scan(cat, t, urls).tree == t
    decreases |urls|
  {
    if urls != [] {
      NoRepairNoDeletion(cat, t, urls[..|urls| - 1]);
    }
  }

  /** When every ledger url is intact against the tree, the audit changes nothing. */
  lemma {:induction false} AllIntactChangesNothing(cat: Catalog, t: Tree, urls: seq<string>)
    requires forall u :: u in urls ==> Judge(cat, t, u) == Intact
    ensures Scan(cat, t, urls) == Pass([], t, 0)
    decreases |urls|
  {
    if urls != [] {
      AllIntactChangesNothing(cat, t, urls[..|urls| - 1]);
      assert urls[|urls| - 1] in urls;
    }
  }

  /** The four globs never match the artifact they are cleaning up after. */
  lemma DebrisSparesArtifact(t: Tree, dir: string, title: string)
    requires '/' !in title
    ensures Artifact(dir, title) !in Debris(t, dir, title)
  {
    var a := Artifact(dir, title);
    var n := title + ".mp4";
    assert '/' !in n;
    JoinSplits(dir, n);
    assert n[|n| - 4..] == ".mp4";
    assert !IsDebrisName(n, title);
  }

  /** The ledger file the audit leaves: rewritten without the dropped urls, when there are some. */
  function AuditedFile(cat: Catalog, t: Tree, f: LedgerFile): (r: LedgerFile)
    ensures Read(r) == Survivors(Read(f), Scan(cat, t, Read(f)).removed)
    ensures Scan(cat, t, Read(f)).removed == [] ==> r == f
    ensures Scan(cat, t, Read(f)).removed != [] ==> r.Saved? && r.entries.Some?
  {
    var s := Scan(cat, t, Read(f));
    if s.removed == [] then SurvivorsOfNothing(Read(f)); f else Saved(Some(Survivors(Read(f), s.removed)))
  }

  /**
    The body of the loop at download.py:228-262 for one url: looks the url up, and
    when its artifact is missing or short deletes its partial-download files. Says
    whether the url is to be dropped and whether it counts as repaired.
  */
  method AuditUrl(cat: Catalog, url: string, dir: DownloadDir) returns (mark: bool, repair: bool)
    modifies dir
    ensures var v := Judge(cat, old(dir.files), url);
      && mark == (v != Intact)
      && repair == v.Incomplete?
      && dir.files == (if v.Incomplete? then old(dir.files) - Debris(old(dir.files), v.dir, v.title) else old(dir.files))
  {
    var found, name, video := FindVideo(cat, url);
    var title := TitleOf(video);
    if !found || title == "" {
      return true, false;
    }
    var expected := Artifact(name, title);
    if expected !in dir.files || dir.files[expected] < MinSize {
      dir.Delete(Debris(dir.files, name, title));
      return true, true;
    }
    return false, false;
  }

  /**
    `check_download_integrity()`: returns the repair count; deletes partial downloads;
    rewrites the ledger without the dropped urls, and only when there are some.
    `catalog` is `None` when `youtube_links.json` does not load or is empty.
  */
  method CheckIntegrity(catalog: Option<Catalog>, ledger: LedgerStore, dir: DownloadDir) returns (fixed: nat)
    modifies ledger, dir
    ensures catalog.None? ==>
      fixed == 0 && ledger.file == old(ledger.file) && dir.files == old(dir.files)
    ensures catalog.Some? ==> var s := Scan(catalog.value, old(dir.files), old(ledger.Urls()));
      && fixed == s.fixed
      && dir.files == s.tree
      && ledger.file == AuditedFile(catalog.value, old(dir.files), old(ledger.file))
  {
    if catalog.None? {
      return 0;
    }
    var cat := catalog.value;
    var urls := ledger.Urls();
    ghost var start := dir.files;
    ghost var done: seq<string> := [];
    ghost var pass := Pass([], start, 0);
    var toRemove: seq<string> := [];
    fixed := 0;
    var i := 0;
    while i < |urls|
      invariant 0 <= i <= |urls|
      invariant done == urls[..i]
      invariant pass == Scan(cat, start, done)
      invariant pass == Pass(toRemove, dir.files, fixed)
      invariant ledger.file == old(ledger.file)
    {
      var mark, repair := AuditUrl(cat, urls[i], dir);
      if mark {
        toRemove := toRemove + [urls[i]];
      }
      if repair {
        fixed := fixed + 1;
      }
      ScanSnoc(cat, start, done, urls[i]);
      pass := Step(pass, cat, urls[i]);
      done := done + [urls[i]];
      i := i + 1;
    }
    assert urls[..i] == urls;
    if toRemove != [] {
      ledger.Save(Survivors(urls, toRemove));
    }
  }
}
