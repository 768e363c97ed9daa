/**
  The download ledger `downloaded.json` (download.py:54-68): an ordered list of urls
  whose videos have been fetched. It is read in full on every query and rewritten in
  full on every change.
*/
module Ledger {
  import opened Wrappers

  /**
    What the ledger file holds: no file, a file that does not load as a JSON object
    with content (unreadable, not a dict, or an empty dict), or an object whose
    `downloaded_urls` key may be absent.
  */
  datatype LedgerFile = Absent | Corrupt | Saved(entries: Option<seq<string>>)

  /** `get_downloaded_urls()`: the stored list, or `[]` whenever there is none. */
  function Read(f: LedgerFile): (urls: seq<string>)
    ensures urls != [] ==> f.Saved? && f.entries == Some(urls)
  {
    match f
    case Saved(Some(urls)) => urls
    case _ => []
  }

  /** The list after `add_downloaded_url(url)`: appended only when absent. */
  function Appended(urls: seq<string>, url: string): (r: seq<string>)
    ensures url in r
    ensures url in urls ==> r == urls
    ensures forall u :: u in r <==> u in urls || u == url
    ensures urls <= r && |r| <= |urls| + 1
  {
    if url in urls then urls else urls + [url]
  }

  /** No url occurs twice. */
  predicate NoDuplicates(urls: seq<string>) {
    forall i, j :: 0 <= i < j < |urls| ==> urls[i] != urls[j]
  }

  /** The list changes exactly when the url is new, and then only by the url at its end. */
  lemma AppendedChangesOnlyWhenNew(urls: seq<string>, url: string)
    ensures Appended(urls, url) == urls <==> url in urls
    ensures url !in urls ==> Appended(urls, url) == urls + [url]
  {
    var r := Appended(urls, url);
    if url !in urls {
      assert r != urls;
      assert |r| == |urls| + 1;
      var k :| 0 <= k < |r| && r[k] == url;
      assert k == |urls|;
      assert r == urls + [url];
    }
  }

  /** Adding the same url twice is adding it once. */
  lemma AppendedIdempotent(urls: seq<string>, url: string)
    ensures Appended(Appended(urls, url), url) == Appended(urls, url)
  {
  }

  /** Adding never introduces a duplicate. */
  lemma AppendedKeepsNoDuplicates(urls: seq<string>, url: string)
    requires NoDuplicates(urls)
    ensures NoDuplicates(Appended(urls, url))
  {
  }

  /** The list after adding each url of `adds` in turn. */
  function AppendedAll(urls: seq<string>, adds: seq<string>): (r: seq<string>)
    ensures urls <= r
    ensures forall u :: u in r <==> u in urls || u in adds
    decreases |adds|
  {
    if adds == [] then urls
    else
      var r := AppendedAll(Appended(urls, adds[0]), adds[1..]);
      assert forall u :: u in adds <==> u == adds[0] || u in adds[1..];
      r
  }

  /** Adding one more url at the end of the batch is one more `Appended`. */
  lemma {:induction false} AppendedAllSnoc(urls: seq<string>, adds: seq<string>, url: string)
    ensures AppendedAll(urls, adds + [url]) == Appended(AppendedAll(urls, adds), url)
    decreases |adds|
  {
    if adds == [] {
      assert adds + [url] == [url];
    } else {
      assert (adds + [url])[1..] == adds[1..] + [url];
      AppendedAllSnoc(Appended(urls, adds[0]), adds[1..], url);
    }
  }

  /** A duplicate-free list stays duplicate-free through any batch of adds. */
  lemma {:induction false} AppendedAllKeepsNoDuplicates(urls: seq<string>, adds: seq<string>)
    requires NoDuplicates(urls)
    ensures NoDuplicates(AppendedAll(urls, adds))
    decreases |adds|
  {
    if adds != [] {
      AppendedKeepsNoDuplicates(urls, adds[0]);
      AppendedAllKeepsNoDuplicates(Appended(urls, adds[0]), adds[1..]);
    }
  }

  /** The ledger file, which the script rereads before every use. */
  class LedgerStore {
    var file: LedgerFile

    constructor (f: LedgerFile)
      ensures file == f
    {
      file := f;
    }

    /** `get_downloaded_urls()`. */
    function Urls(): seq<string>
      reads this
    {
      Read(file)
    }

    /** `add_downloaded_url(url)`: rewrites the file only when the url is new. */
    method Add(url: string)
      modifies this
      ensures Urls() == Appended(old(Urls()), url)
      ensures url in old(Urls()) ==> file == old(file)
      ensures url !in old(Urls()) ==> file == Saved(Some(old(Urls()) + [url]))
    {
      var urls := Read(file);
      if url !in urls {
        urls := urls + [url];
        file := Saved(Some(urls));
      }
    }

    /** `save_json({"downloaded_urls": urls}, DOWNLOADED_FILE)`: a plain overwrite. */
    method Save(urls: seq<string>)
      modifies this
      ensures file == Saved(Some(urls)) && Urls() == urls
    {
      file := Saved(Some(urls));
    }
  }
}
