/**
  Resolution negotiation in `download_video` (download.py:91-97, 147-172): the catalog's
  preferred label is honoured when the probe offers it and best-quality mode is off;
  otherwise the highest available label wins. The chosen label then pins the yt_dlp
  format string to that exact height.
*/
module Resolution {
  import opened Wrappers
  import opened Text
  import opened Heights

  /** The format string used when no height is pinned. */
  const DefaultFormat: string := "bestvideo[ext=mp4]+bestaudio[ext=m4a]/best[ext=mp4]/best"

  /** The format string that requests exactly the height written `v`. */
  function ExactFormat(v: string): string {
    "bestvideo[height=" + v + "][ext=mp4]+bestaudio[ext=m4a]/best[height=" + v + "][ext=mp4]/best"
  }

  /** `video_info.get("resolution", "").lower()`, blanked when best quality is forced. */
  function Preferred(resolution: Option<string>, force: bool): (p: string)
    ensures force ==> p == ""
    ensures !force ==> |p| == |resolution.GetOr("")|
    ensures !force ==> forall k :: 0 <= k < |p| ==> p[k] == LowerChar(resolution.GetOr("")[k])
  {
    if force then "" else Lower(resolution.GetOr(""))
  }

  /** The label to request, or `None` when the probe reports no truthy height. */
  function Choose(fs: Formats, preferred: string, force: bool): (r: Option<string>)
    ensures r.None? <==> Truthy(fs) == []
    ensures r.Some? ==> r.value in Labels(fs) && Key(r.value) <= Key(Highest(fs))
    ensures r.Some? && !force && preferred != "" && preferred in Labels(fs) ==> r.value == preferred
    ensures r.Some? && (force || preferred == "" || preferred !in Labels(fs)) ==> r.value == Highest(fs)
  {
    if Truthy(fs) == [] then None
    else
      HighestSortsFirst(fs);
      if preferred != "" && preferred in Labels(fs) && !force then Some(preferred)
      else Some(Highest(fs))
  }

  /** The `format` option handed to the download (download.py:102, 169-172). */
  function Format(fs: Formats, preferred: string, force: bool): string {
    match Choose(fs, preferred, force)
    case None => DefaultFormat
    case Some(l) =>
      var v := RStrip(l, 'p');
      if IsDigits(v) then ExactFormat(v) else DefaultFormat
  }

  /** Stripping the trailing `p` of a label gives back the decimal height. */
  lemma RStripLabel(h: nat)
    ensures RStrip(Label(h), 'p') == NatToString(h)
  {
    var s := NatToString(h);
    assert Label(h)[..|Label(h)| - 1] == s;
    assert RStrip(Label(h), 'p') == RStrip(s, 'p');
    assert IsDigitChar(s[|s| - 1]);
  }

  /**
    Whenever the probe reports a truthy height, the chosen label is the label of one of
    those heights, and the format requests exactly that height.
  */
  lemma FormatPinsChosenHeight(fs: Formats, preferred: string, force: bool)
    requires Truthy(fs) != []
    ensures Choose(fs, preferred, force).Some?
    ensures var h := Key(Choose(fs, preferred, force).value);
      && h in Truthy(fs)
      && Choose(fs, preferred, force).value == Label(h)
      && Format(fs, preferred, force) == ExactFormat(NatToString(h))
  {
    var l := Choose(fs, preferred, force).value;
    LabelsAreHeights(fs, l);
    RStripLabel(Key(l));
  }

  /** Without a truthy height nothing is pinned: the default format is kept. */
  lemma NoHeightKeepsDefault(fs: Formats, preferred: string, force: bool)
    requires Truthy(fs) == []
    ensures Format(fs, preferred, force) == DefaultFormat
  {
  }

  /** Forcing best quality always requests the largest height, whatever the catalog says. */
  lemma ForceRequestsMax(fs: Formats, resolution: Option<string>)
    requires Truthy(fs) != []
    ensures Choose(fs, Preferred(resolution, true), true) == Some(Highest(fs))
    ensures Format(fs, Preferred(resolution, true), true) == ExactFormat(NatToString(Max(Truthy(fs))))
  {
    RStripLabel(Max(Truthy(fs)));
  }

  /**
    A catalog label that names an available height (in any letter case) is honoured
    when best quality is not forced, and the format pins that height.
  */
  lemma PreferredHeightHonoured(fs: Formats, resolution: string, h: nat)
    requires h in Truthy(fs)
    requires Lower(resolution) == Label(h)
    ensures Choose(fs, Preferred(Some(resolution), false), false) == Some(Label(h))
    ensures Format(fs, Preferred(Some(resolution), false), false) == ExactFormat(NatToString(h))
  {
    assert Label(h) in Labels(fs);
    RStripLabel(h);
  }

  /** A preferred label that is not on offer falls back to the highest one. */
  lemma UnavailableFallsBack(fs: Formats, preferred: string, force: bool)
    requires Truthy(fs) != []
    requires preferred !in Labels(fs)
    ensures Choose(fs, preferred, force) == Some(Highest(fs))
    ensures Format(fs, preferred, force) == ExactFormat(NatToString(Max(Truthy(fs))))
  {
    RStripLabel(Max(Truthy(fs)));
  }
}
