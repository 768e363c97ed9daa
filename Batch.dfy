/**
  `main` of download.py (download.py:273-345): sweep the tree, audit the ledger, then
  walk every category and every video in catalog order, skipping the urls of the ledger
  snapshot taken once before the walk, downloading the rest with a pause between two
  videos of a category, and sweep again. The pause is modelled by counting it.
*/
module Batch {
  import opened Wrappers
  import opened Catalog
  import opened Ledger
  import opened Files
  import opened Download
  import opened Audit

  /** One turn of the inner loop: the video, and whether more videos of its category follow. */
  datatype Slot = Slot(video: Video, more: bool)

  /** The turns of one category, `enumerate(videos)` with `index < len(videos) - 1`. */
  function Slots(vs: seq<Video>): (r: seq<Slot>)
    ensures |r| == |vs|
    ensures forall k :: 0 <= k < |vs| ==> r[k] == Slot(vs[k], k < |vs| - 1)
  {
    seq(|vs|, k requires 0 <= k < |vs| => Slot(vs[k], k < |vs| - 1))
  }

  /** All turns of the walk, category after category. */
  function AllSlots(cat: Catalog): seq<Slot>
    decreases |cat|
  {
    if cat == [] then [] else AllSlots(cat[..|cat| - 1]) + Slots(cat[|cat| - 1].videos)
  }

  /** `len(videos)` summed over the categories. */
  function TotalVideos(cat: Catalog): nat
    decreases |cat|
  {
    if cat == [] then 0 else TotalVideos(cat[..|cat| - 1]) + |cat[|cat| - 1].videos|
  }

  /** The walk makes one turn per video of the catalog. */
  lemma {:induction false} OneTurnPerVideo(cat: Catalog)
    ensures |AllSlots(cat)| == TotalVideos(cat)
    decreases |cat|
  {
    if cat != [] {
      OneTurnPerVideo(cat[..|cat| - 1]);
    }
  }

  /** `video.get("url") in downloaded_urls`: the snapshot already holds the url. */
  predicate Skipped(v: Video, snapshot: seq<string>) {
    v.url.Some? && v.url.value in snapshot
  }

  /** The network, as a fixed answer per url. */
  type World = string -> Remote

  /** The counters, the ledger list and the tree as the walk goes. */
  datatype Run = Run(success: nat, failure: nat, skip: nat, waits: nat, urls: seq<string>, files: Tree)

  /** One turn of the inner loop (download.py:316-336). */
  function Visit(r: Run, s: Slot, snapshot: seq<string>, force: bool, world: World): Run {
    if Skipped(s.video, snapshot) then r.(skip := r.skip + 1)
    else
      var remote := world(s.video.url.GetOr(""));
      var o := Attempt(s.video, snapshot, force, remote);
      Run(
        if o.Succeeded() then r.success + 1 else r.success,
        if o.Succeeded() then r.failure else r.failure + 1,
        r.skip,
        if s.more then r.waits + 1 else r.waits,
        if o.Completed? then Appended(r.urls, s.video.url.value) else r.urls,
        r.files + Written(o, remote))
  }

  /** The turns `ss` taken one after the other from `start`. */
  function Replay(start: Run, ss: seq<Slot>, snapshot: seq<string>, force: bool, world: World): Run
    decreases |ss|
  {
    if ss == [] then start
    else Visit(Replay(start, ss[..|ss| - 1], snapshot, force, world), ss[|ss| - 1], snapshot, force, world)
  }

  /** Turns whose video the snapshot already holds. */
  function CountSkipped(ss: seq<Slot>, snapshot: seq<string>): nat
    decreases |ss|
  {
    if ss == [] then 0
    else CountSkipped(ss[..|ss| - 1], snapshot) + (if Skipped(ss[|ss| - 1].video, snapshot) then 1 else 0)
  }

  /** The outcome of a turn that was not skipped. */
  function OutcomeOf(s: Slot, snapshot: seq<string>, force: bool, world: World): Outcome {
    Attempt(s.video, snapshot, force, world(s.video.url.GetOr("")))
  }

  /** A turn not skipped whose fetch completed. */
  predicate Commits(s: Slot, snapshot: seq<string>, force: bool, world: World) {
    !Skipped(s.video, snapshot) && OutcomeOf(s, snapshot, force, world).Completed?
  }

  /** The urls recorded by the turns, in walk order. */
  function Recorded(ss: seq<Slot>, snapshot: seq<string>, force: bool, world: World): seq<string>
    decreases |ss|
  {
    if ss == [] then []
    else
      var s := ss[|ss| - 1];
      Recorded(ss[..|ss| - 1], snapshot, force, world) +
        (if Commits(s, snapshot, force, world) then [s.video.url.value] else [])
  }

  /** Turns not skipped that are followed by a pause. */
  function CountPauses(ss: seq<Slot>, snapshot: seq<string>): nat
    decreases |ss|
  {
    if ss == [] then 0
    else
      var s := ss[|ss| - 1];
      CountPauses(ss[..|ss| - 1], snapshot) + (if !Skipped(s.video, snapshot) && s.more then 1 else 0)
  }

  /**
    Every turn is counted exactly once, as a skip, a success or a failure; skips are the
    turns whose url the snapshot holds; a pause follows every downloaded turn but the
    last of its category; and successes are exactly the completed fetches, because a
    turn that reaches `download_video` never takes its already-downloaded exit.
  */
  lemma {:induction false} ReplayCounts(start: Run, ss: seq<Slot>, snapshot: seq<string>, force: bool, world: World)
    ensures var r := Replay(start, ss, snapshot, force, world);
      && r.success + r.failure + r.skip == start.success + start.failure + start.skip + |ss|
      && r.skip == start.skip + CountSkipped(ss, snapshot)
      && r.waits == start.waits + CountPauses(ss, snapshot)
      && r.success == start.success + |Recorded(ss, snapshot, force, world)|
    decreases |ss|
  {
    if ss != [] {
      ReplayCounts(start, ss[..|ss| - 1], snapshot, force, world);
    }
  }

  /** The ledger list grows by the recorded urls, each added when absent, in walk order. */
  lemma {:induction false} ReplayLedger(start: Run, ss: seq<Slot>, snapshot: seq<string>, force: bool, world: World)
    ensures Replay(start, ss, snapshot, force, world).urls == AppendedAll(start.urls, Recorded(ss, snapshot, force, world))
    decreases |ss|
  {
    if ss != [] {
      var init := ss[..|ss| - 1];
      var s := ss[|ss| - 1];
      ReplayLedger(start, init, snapshot, force, world);
      var r0 := Replay(start, init, snapshot, force, world);
      var rec := Recorded(init, snapshot, force, world);
      assert Replay(start, ss, snapshot, force, world) == Visit(r0, s, snapshot, force, world);
      if Commits(s, snapshot, force, world) {
        assert Visit(r0, s, snapshot, force, world).urls == Appended(r0.urls, s.video.url.value);
        assert Recorded(ss, snapshot, force, world) == rec + [s.video.url.value];
        AppendedAllSnoc(start.urls, rec, s.video.url.value);
      } else {
        assert Visit(r0, s, snapshot, force, world).urls == r0.urls;
        assert Recorded(ss, snapshot, force, world) == rec + [];
        assert rec + [] == rec;
      }
    }
  }

  /** When the snapshot holds every url of the walk, nothing is fetched, recorded or awaited. */
  lemma {:induction false} AllKnownIsQuiet(start: Run, ss: seq<Slot>, snapshot: seq<string>, force: bool, world: World)
    requires forall k :: 0 <= k < |ss| ==> Skipped(ss[k].video, snapshot)
    ensures Replay(start, ss, snapshot, force, world) == start.(skip := start.skip + |ss|)
    decreases |ss|
  {
    if ss != [] {
      AllKnownIsQuiet(start, ss[..|ss| - 1], snapshot, force, world);
    }
  }

  /** What `main` logs at the end (download.py:344), with the number of pauses. */
  datatype Report = Report(total: nat, success: nat, failure: nat, skip: nat, waits: nat)

  /** The state the walk starts from: zero counters, the audited ledger and tree. */
  function Start(snapshot: seq<string>, t: Tree): Run {
    Run(0, 0, 0, 0, snapshot, t)
  }

  /** One turn of the inner loop of `main`, on the counters `r` (whose list and tree are the ledger's and the tree's). */
  method Turn(s: Slot, snapshot: seq<string>, force: bool, world: World, ledger: LedgerStore, dir: DownloadDir,
              success: nat, failure: nat, skip: nat, waits: nat)
    returns (success': nat, failure': nat, skip': nat, waits': nat)
    modifies ledger, dir
    ensures Run(success', failure', skip', waits', ledger.Urls(), dir.files)
      == Visit(Run(success, failure, skip, waits, old(ledger.Urls()), old(dir.files)), s, snapshot, force, world)
  {
    success', failure', skip', waits' := success, failure, skip, waits;
    var v := s.video;
    if v.url.Some? && v.url.value in snapshot {
      skip' := skip + 1;
    } else {
      var ok, _ := DownloadVideo(v, snapshot, force, world(v.url.GetOr("")), ledger, dir);
      if ok {
        success' := success + 1;
      } else {
        failure' := failure + 1;
      }
      if s.more {
        waits' := waits + 1;
      }
    }
  }

  /** Taking the turns `a` and then the turns `b` is taking the turns `a + b`. */
  lemma {:induction false} ReplayConcat(start: Run, a: seq<Slot>, b: seq<Slot>, snapshot: seq<string>, force: bool, world: World)
    ensures Replay(start, a + b, snapshot, force, world)
      == Replay(Replay(start, a, snapshot, force, world), b, snapshot, force, world)
    decreases |b|
  {
    if b == [] {
      assert a + b == a;
    } else {
      var init := b[..|b| - 1];
      assert (a + b)[..|a + b| - 1] == a + init;
      ReplayConcat(start, a, init, snapshot, force, world);
    }
  }

  /** The inner loop of download.py:316-336 over the videos of one category. */
  method WalkCategory(vs: seq<Video>, snapshot: seq<string>, force: bool, world: World,
                      ledger: LedgerStore, dir: DownloadDir,
                      success: nat, failure: nat, skip: nat, waits: nat)
    returns (success': nat, failure': nat, skip': nat, waits': nat)
    modifies ledger, dir
    ensures Run(success', failure', skip', waits', ledger.Urls(), dir.files)
      == Replay(Run(success, failure, skip, waits, old(ledger.Urls()), old(dir.files)), Slots(vs), snapshot, force, world)
  {
    ghost var start := Run(success, failure, skip, waits, ledger.Urls(), dir.files);
    success', failure', skip', waits' := success, failure, skip, waits;
    var j := 0;
    while j < |vs|
      invariant 0 <= j <= |vs|
      invariant Replay(start, Slots(vs)[..j], snapshot, force, world)
        == Run(success', failure', skip', waits', ledger.Urls(), dir.files)
    {
      success', failure', skip', waits' :=
        Turn(Slot(vs[j], j < |vs| - 1), snapshot, force, world, ledger, dir, success', failure', skip', waits');
      assert Slots(vs)[..j + 1][..j] == Slots(vs)[..j];
      j := j + 1;
    }
    assert Slots(vs)[..j] == Slots(vs);
  }

  /**
    The walk of download.py:293-336 over the categories and their videos, from the
    ledger as it stands; `force` is `--best-quality`, `world` the network.
  */
  method Walk(cat: Catalog, force: bool, world: World, ledger: LedgerStore, dir: DownloadDir)
    returns (report: Report)
    modifies ledger, dir
    ensures var snapshot := old(ledger.Urls());
      var r := Replay(Start(snapshot, old(dir.files)), AllSlots(cat), snapshot, force, world);
      && report == Report(TotalVideos(cat), r.success, r.failure, r.skip, r.waits)
      && ledger.Urls() == r.urls
      && dir.files == r.files
  {
    var snapshot := ledger.Urls();
    ghost var start := Start(snapshot, dir.files);
    var total, success, failure, skip, waits := 0, 0, 0, 0, 0;
    var c := 0;
    while c < |cat|
      invariant 0 <= c <= |cat|
      invariant total == TotalVideos(cat[..c])
      invariant Replay(start, AllSlots(cat[..c]), snapshot, force, world)
        == Run(success, failure, skip, waits, ledger.Urls(), dir.files)
    {
      var vs := cat[c].videos;
      total := total + |vs|;
      success, failure, skip, waits :=
        WalkCategory(vs, snapshot, force, world, ledger, dir, success, failure, skip, waits);
      assert cat[..c + 1][..c] == cat[..c];
      assert AllSlots(cat[..c + 1]) == AllSlots(cat[..c]) + Slots(vs);
      ReplayConcat(start, AllSlots(cat[..c]), Slots(vs), snapshot, force, world);
      c := c + 1;
    }
    assert cat[..c] == cat;
    return Report(total, success, failure, skip, waits);
  }

  /**
    `main()`: `catalog` is `None` when `youtube_links.json` does not load or is empty;
    `world` gives the probe and fetch of each url; `force` is `--best-quality`.
  */
  method RunMain(catalog: Option<Catalog>, force: bool, world: World, ledger: LedgerStore, dir: DownloadDir)
    returns (report: Option<Report>)
    modifies ledger, dir
    ensures catalog.None? ==>
      report.None? && ledger.file == old(ledger.file) && dir.files == Kept(old(dir.files), Keeps)
    ensures catalog.Some? ==>
      var cat := catalog.value;
      var swept := Kept(old(dir.files), Keeps);
      var snapshot := Read(AuditedFile(cat, swept, old(ledger.file)));
      var r := Replay(Start(snapshot, Scan(cat, swept, old(ledger.Urls())).tree), AllSlots(cat), snapshot, force, world);
      && report == Some(Report(TotalVideos(cat), r.success, r.failure, r.skip, r.waits))
      && ledger.Urls() == r.urls
      && dir.files == Kept(r.files, Keeps)
  {
    var cleaned := dir.Clean();
    var fixed := CheckIntegrity(catalog, ledger, dir);
    if catalog.None? {
      return None;
    }
    var done := Walk(catalog.value, force, world, ledger, dir);
    cleaned := dir.Clean();
    return Some(done);
  }

  /**
    The summary of a run: every video of the catalog is counted once; the skips are the
    videos the audited ledger held; successes are the completed fetches, and exactly
    their urls are added to the ledger; the walk itself deletes no file.
  */
  lemma RunSummary(cat: Catalog, snapshot: seq<string>, t: Tree, force: bool, world: World)
    ensures var r := Replay(Start(snapshot, t), AllSlots(cat), snapshot, force, world);
      var recorded := Recorded(AllSlots(cat), snapshot, force, world);
      && r.success + r.failure + r.skip == TotalVideos(cat)
      && r.skip == CountSkipped(AllSlots(cat), snapshot)
      && r.success == |recorded|
      && r.urls == AppendedAll(snapshot, recorded)
      && t.Keys <= r.files.Keys
  {
    OneTurnPerVideo(cat);
    ReplayCounts(Start(snapshot, t), AllSlots(cat), snapshot, force, world);
    ReplayLedger(Start(snapshot, t), AllSlots(cat), snapshot, force, world);
    ReplayOnlyAdds(Start(snapshot, t), AllSlots(cat), snapshot, force, world);
  }

  /** The walk deletes no file: downloads only add or overwrite; only the sweeps delete. */
  lemma {:induction false} ReplayOnlyAdds(start: Run, ss: seq<Slot>, snapshot: seq<string>, force: bool, world: World)
    ensures start.files.Keys <= Replay(start, ss, snapshot, force, world).files.Keys
    decreases |ss|
  {
    if ss != [] {
      ReplayOnlyAdds(start, ss[..|ss| - 1], snapshot, force, world);
    }
  }
}
