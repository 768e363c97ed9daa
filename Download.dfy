/**
  `download_video` (download.py:76-186): the guards on the catalog entry, the skip on
  the ledger snapshot, the probe, the resolution negotiation and the fetch, and the
  ledger update that records a finished fetch.
*/
module Download {
  import opened Wrappers
  import opened Text
  import opened Heights
  import opened Resolution
  import opened Catalog
  import opened Ledger
  import opened Files

  /**
    What the fetch `ydl.download([url])` does: whether it returns (rather than raising)
    and the files it leaves under the download tree either way.
  */
  datatype Fetch = Fetch(completes: bool, written: Tree)

  /** What the network answers for one url: the probe, then the fetch. */
  datatype Remote = Remote(probe: Probe, fetch: Fetch)

  /** How one call of `download_video` ends; `format` is the format handed to the fetch. */
  datatype Outcome =
    | MissingField          // no url or no title: returns False
    | AlreadyDownloaded     // url in the snapshot: returns True
    | ProbeError            // `extract_info` raised: returns False
    | FetchError(format: string)
    | Completed(format: string)
  {
    /** The value `download_video` returns. */
    predicate Succeeded() {
      AlreadyDownloaded? || Completed?
    }

    /** Whether the fetch was started. */
    predicate Fetched() {
      FetchError? || Completed?
    }
  }

  /** The entry has a truthy url and a truthy title (download.py:78-83). */
  predicate HasFields(v: Video) {
    v.url.Some? && v.url.value != "" && TitleOf(v) != ""
  }

  /** The course of `download_video(v, category_dir, snapshot)` against `remote`. */
  function Attempt(v: Video, snapshot: seq<string>, force: bool, remote: Remote): (o: Outcome)
    ensures o.Succeeded() ==> HasFields(v)
    ensures !HasFields(v) ==> o == MissingField
    ensures HasFields(v) && v.url.value in snapshot ==> o == AlreadyDownloaded
    ensures HasFields(v) && v.url.value !in snapshot && remote.probe.ProbeFailed? ==> o == ProbeError
    ensures o.Completed? <==>
      HasFields(v) && v.url.value !in snapshot && remote.probe.Probed? && remote.fetch.completes
  {
    if !HasFields(v) then MissingField
    else if v.url.value in snapshot then AlreadyDownloaded
    else match remote.probe
      case ProbeFailed => ProbeError
      case Probed(fs) =>
        var f := Format(fs, Preferred(v.resolution, force), force);
        if remote.fetch.completes then Completed(f) else FetchError(f)
  }

  /** The files the call leaves behind: those of the fetch, when it was started. */
  function Written(o: Outcome, remote: Remote): Tree {
    if o.Fetched() then remote.fetch.written else map[]
  }

  /** The entry guards and the snapshot are consulted before the network, and decide alone. */
  lemma GuardsPrecedeNetwork(v: Video, snapshot: seq<string>, force: bool, r1: Remote, r2: Remote)
    requires !HasFields(v) || v.url.value in snapshot
    ensures Attempt(v, snapshot, force, r1) == Attempt(v, snapshot, force, r2)
    ensures !Attempt(v, snapshot, force, r1).Fetched()
  {
  }

  /**
    A fetch is always asked for a format the probe supports: the exact height chosen
    among the truthy ones when there is one, the default format otherwise; with best
    quality forced, the largest height.
  */
  lemma FetchRequestsOfferedHeight(v: Video, snapshot: seq<string>, force: bool, remote: Remote)
    requires Attempt(v, snapshot, force, remote).Fetched()
    ensures remote.probe.Probed?
    ensures var fs := remote.probe.formats; var f := Attempt(v, snapshot, force, remote).format;
      && (Truthy(fs) == [] ==> f == DefaultFormat)
      && (Truthy(fs) != [] ==> exists h :: h in Truthy(fs) && f == ExactFormat(NatToString(h)))
      && (Truthy(fs) != [] && force ==> f == ExactFormat(NatToString(Max(Truthy(fs)))))
  {
    var fs := remote.probe.formats;
    var p := Preferred(v.resolution, force);
    if Truthy(fs) != [] {
      FormatPinsChosenHeight(fs, p, force);
      var h := Key(Choose(fs, p, force).value);
      assert h in Truthy(fs);
      if force {
        ForceRequestsMax(fs, v.resolution);
      }
    }
  }

  /** The loop of download.py:147-150: the labels of the truthy heights, in a set. */
  method AvailableLabels(fs: Formats) returns (available: set<string>)
    ensures available == Labels(fs)
    ensures available == {} <==> Truthy(fs) == []
  {
    available := {};
    var i := 0;
    while i < |fs|
      invariant 0 <= i <= |fs|
      invariant available == Labels(fs[..i])
    {
      if fs[i].Some? && fs[i].value > 0 {
        available := available + {Label(fs[i].value)};
      }
      LabelsExtend(fs[..i], fs[i]);
      assert fs[..i + 1] == fs[..i] + [fs[i]];
      i := i + 1;
    }
    assert fs[..i] == fs;
    LabelsEmpty(fs);
  }

  /**
    `download_video(video_info, category_dir, downloaded_urls)`: returns whether the
    video counts as downloaded, records a finished fetch in the ledger, and leaves the
    fetch's files in the tree. `requested` is the format handed to the fetch, if any.
  */
  method DownloadVideo(v: Video, snapshot: seq<string>, force: bool, remote: Remote,
                       ledger: LedgerStore, dir: DownloadDir)
    returns (ok: bool, requested: Option<string>)
    modifies ledger, dir
    ensures var o := Attempt(v, snapshot, force, remote);
      && ok == o.Succeeded()
      && requested == (if o.Fetched() then Some(o.format) else None)
      && dir.files == old(dir.files) + Written(o, remote)
      && (o.Completed? ==> ledger.Urls() == Appended(old(ledger.Urls()), v.url.value))
      && (!o.Completed? ==> ledger.file == old(ledger.file))
  {
    if v.url.None? || v.url.value == "" || TitleOf(v) == "" {
      return false, None;
    }
    var url := v.url.value;
    if url in snapshot {
      return true, None;
    }
    var preferred := Preferred(v.resolution, force);
    var format := DefaultFormat;
    if remote.probe.ProbeFailed? {
      return false, None;
    }
    var fs := remote.probe.formats;
    var available := AvailableLabels(fs);
    if available != {} {
      var target := Highest(fs);
      if preferred != "" && preferred in available && !force {
        target := preferred;
      }
      var value := RStrip(target, 'p');
      if IsDigits(value) {
        format := ExactFormat(value);
      }
    }
    assert format == Format(fs, preferred, force);
    dir.Write(remote.fetch.written);
    if !remote.fetch.completes {
      return false, Some(format);
    }
    ledger.Add(url);
    return true, Some(format);
  }
}
