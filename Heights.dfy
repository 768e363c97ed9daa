/**
  What a probe of one video reports, and the height labels both scripts derive from it.
  A probe lists the available formats; each has a height (`fmt.get("height")`) that may be
  absent (`None`) or zero, both of which Python treats as false and skips.
*/
module Heights {
  import opened Wrappers
  import opened Text

  /** The heights of the formats a probe lists, in the order it lists them. */
  type Formats = seq<Option<nat>>

  /** Result of `extract_info(url, download=False)`: it raised, or it listed formats. */
  datatype Probe = ProbeFailed | Probed(formats: Formats)

  /** The truthy heights, in probe order (`[f for f in formats if f.get('height')]`). */
  function Truthy(fs: Formats): (hs: seq<nat>)
    ensures forall h :: h in hs <==> h > 0 && Some(h) in fs
  {
    if fs == [] then []
    else
      var init := Truthy(fs[..|fs| - 1]);
      var last := fs[|fs| - 1];
      assert fs == fs[..|fs| - 1] + [last];
      if last.Some? && last.value > 0 then init + [last.value] else init
  }

  /** `max(...)` over a non-empty list of heights. */
  function Max(hs: seq<nat>): (m: nat)
    requires hs != []
    ensures m in hs
    ensures forall h :: h in hs ==> h <= m
  {
    if |hs| == 1 then hs[0]
    else
      var m := Max(hs[1..]);
      assert forall h :: h in hs ==> h == hs[0] || h in hs[1..];
      if hs[0] > m then hs[0] else m
  }

  /** The resolution label of a height: `f"{h}p"`. */
  function Label(h: nat): string {
    NatToString(h) + "p"
  }

  /** The set of labels of the truthy heights (`available_resolutions`). */
  function Labels(fs: Formats): set<string> {
    set h | h in Truthy(fs) :: Label(h)
  }

  /** The sort key `int(x[:-1])` of a label; 0 for strings that are not of label shape. */
  function Key(l: string): nat {
    if l != [] && forall k :: 0 <= k < |l| - 1 ==> IsDigitChar(l[k])
    then DigitsValue(l[..|l| - 1]) else 0
  }

  /** The label of the largest truthy height. */
  function Highest(fs: Formats): string
    requires Truthy(fs) != []
  {
    Label(Max(Truthy(fs)))
  }

  /** The sort key of a label recovers its height. */
  lemma KeyOfLabel(h: nat)
    ensures Key(Label(h)) == h
  {
    var l := Label(h);
    assert l[..|l| - 1] == NatToString(h);
    DigitsRoundTrip(h);
  }

  /** Distinct heights give distinct labels. */
  lemma LabelInjective(g: nat, h: nat)
    requires Label(g) == Label(h)
    ensures g == h
  {
    KeyOfLabel(g);
    KeyOfLabel(h);
  }

  /** Every label of the set belongs to a truthy height, and to exactly one. */
  lemma LabelsAreHeights(fs: Formats, l: string)
    ensures l in Labels(fs) <==> Key(l) in Truthy(fs) && l == Label(Key(l))
  {
    if l in Labels(fs) {
      var h :| h in Truthy(fs) && l == Label(h);
      KeyOfLabel(h);
    }
  }

  /**
    `sorted(labels, key=lambda x: int(x[:-1]), reverse=True)[0]` is `Highest`: it is in
    the set, its key is at least every other key, and no other label shares its key,
    so the order of equal keys never matters.
  */
  lemma HighestSortsFirst(fs: Formats)
    requires Truthy(fs) != []
    ensures Highest(fs) in Labels(fs)
    ensures forall l :: l in Labels(fs) ==> Key(l) <= Key(Highest(fs))
    ensures forall l :: l in Labels(fs) && Key(l) == Key(Highest(fs)) ==> l == Highest(fs)
  {
    var m := Max(Truthy(fs));
    KeyOfLabel(m);
    forall l | l in Labels(fs)
      ensures Key(l) <= Key(Highest(fs))
      ensures Key(l) == Key(Highest(fs)) ==> l == Highest(fs)
    {
      LabelsAreHeights(fs, l);
    }
  }

  /** The label set is empty exactly when no format has a truthy height. */
  lemma LabelsEmpty(fs: Formats)
    ensures Labels(fs) == {} <==> Truthy(fs) == []
  {
    if Truthy(fs) != [] {
      assert Label(Truthy(fs)[0]) in Labels(fs);
    }
  }

  /** Listing one more format adds its label when, and only when, its height is truthy. */
  lemma LabelsExtend(fs: Formats, x: Option<nat>)
    ensures Labels(fs + [x]) == Labels(fs) + (if x.Some? && x.value > 0 then {Label(x.value)} else {})
  {
    assert forall y :: y in fs + [x] <==> y in fs || y == x;
  }
}
