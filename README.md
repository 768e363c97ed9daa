# YouTube batch downloader — a verified model

The repository has two scripts.

- **crawler01.py** reads a saved web page (`reference/r1.html`). It finds every `<h3>`
  heading whose stripped text contains `護理組 -`; the category is the stripped text
  after the heading's last `-`. It collects the `youtu.be` links in the list that
  follows such a heading. Each link becomes a record: url, stripped title, sanitized
  title, highest available resolution, and the file name `{safe_title}_{resolution}.mp4`.
  The records go into two fixed categories, `護理常規紀錄` and `品質監測紀錄`, and the
  result is written to `youtube_links.json`, but only when some record was found.
- **download.py** reads that catalog and downloads every video into
  `downloads/<category>/<title>.mp4`. A run has four stages:
  1. It sweeps the download tree, deleting every file whose suffix is not `.mp4`,
     `.json` or `.txt`.
  2. It audits the ledger `downloaded.json`. A url is dropped when the catalog no longer
     knows it, or when its `.mp4` is missing or under 1 MiB. In the second case the
     video's partial-download files are also deleted.
  3. It walks the catalog:
     - it skips the urls of a ledger snapshot taken once before the walk;
     - it probes each other video for its available heights and picks the catalog's
       preferred height if it is on offer, else the highest one (always the highest
       with `--best-quality`);
     - it downloads exactly that height and records the url in the ledger once the
       download returns.
  4. It sweeps the tree again and reports total, success, failure and skip counts.

The model is split into Dafny modules that follow this structure:

| module | what it models |
|---|---|
| `Text` | the Python string operations the scripts use: `strip`, `lower`, `rstrip`, `split(c)[-1]`, `in`, `f"{n}"`, `int(s)` and `isdigit` |
| `Heights` | what a probe reports, and the label set of its truthy heights |
| `Resolution` | the choice of the height to download, and the resulting format string |
| `Ledger` | the ledger file, and a class for its read and append operations |
| `Catalog` | the catalog as download.py reads it, and the first-match lookup |
| `Files` | the download tree as a map from path to size, pathlib names and suffixes, and the `clean_directory` sweep, as a class |
| `Download` | `download_video` |
| `Audit` | `check_download_integrity` |
| `Batch` | `main` of download.py, with its counters |
| `Crawler` | crawler01.py |

Where the scripts change things step by step, the model is a method with loops. These
are the ledger and tree updates, the sweep, the audit loop, the batch walk, and the
crawler's collection loops. Each such method is proved against a specification
function, and the properties are proved about those functions as lemmas.

Some behaviour of the code worth knowing, which the model keeps:

- A ledger file that does not load reads as the empty list (download.py:54-60); the
  run goes on.
- A url the catalog does not know is only dropped from the ledger (download.py:239-242);
  no files are deleted for it.
- A video whose probe offers no height is still downloaded, with the default format
  (download.py:102, 152, 177).
- There is no retry loop around the probe or the download (download.py:140-186); the
  retry counts are options handed to yt_dlp.

The audit judges the ledger urls one after another, and each url's fragment globs run
against the tree as the earlier deletions left it. The glob `{title}.f*.mp4` can match
the final file of another video whose title extends this one (`a.f1.mp4` for a video
titled `a.f1`). The model keeps this behaviour: `Audit.Scan` is sequential, and
`Audit.DebrisSparesArtifact` proves only that a video's own artifact is never among
its globbed files.

## Model

| member | source | states |
|---|---|---|
| `Text.Strip` | crawler01.py:52 | the result is the slice of the input that starts after its leading whitespace, is followed only by whitespace, and has no whitespace at either end |
| `Text.Lead` | crawler01.py:52 | the count of leading whitespace: every character before it is whitespace and the one at it is not |
| `Text.StripTrimmed` | crawler01.py:52 | a string with no whitespace at either end is its own `strip()` |
| `Text.StripIdempotent` | crawler01.py:85 | stripping twice is stripping once |
| `Text.Lower` | download.py:91 | lower-casing keeps the length and lowers each character on its own |
| `Text.LowerFixes` | download.py:91 | lower-casing leaves a string without upper-case letters as it is |
| `Text.AfterLast` | crawler01.py:78 | the result is the suffix of the text after the last separator, or the whole text when the separator does not occur; it holds no separator |
| `Text.RStrip` | download.py:169 | the result is a prefix of the input with only that character removed from the end, and does not end in it |
| `Text.NatToString` | download.py:150 | the decimal rendering of a height is all digits with no leading zero |
| `Text.DigitsRoundTrip` | download.py:153 | `int()` of the rendering gives the height back |
| `Text.NatToStringInjective` | download.py:147-150 | two heights render alike only when they are equal |
| `Heights.Truthy` | download.py:148-149 | the kept heights are exactly the non-zero heights the probe lists |
| `Heights.Max` | crawler01.py:40 | the maximum is one of the heights and is at least every one of them |
| `Heights.KeyOfLabel` | download.py:153 | the sort key `int(x[:-1])` of a label `{h}p` is `h` |
| `Heights.LabelInjective` | download.py:147-150 | distinct heights give distinct labels |
| `Heights.LabelsAreHeights` | download.py:147-150 | a string is in the label set exactly when it is the label of a truthy height |
| `Heights.HighestSortsFirst` | download.py:153-155 | the first label of the descending sort is in the set, has the largest key, and no other label shares its key, so ties cannot reorder it |
| `Heights.LabelsEmpty` | download.py:152 | the label set is empty exactly when no format has a truthy height |
| `Heights.LabelsExtend` | download.py:148-150 | one more format adds its label exactly when its height is truthy |
| `Resolution.Choose` | download.py:152-166 | no label exactly when no truthy height; otherwise the chosen label is on offer, and it is the preferred one when that is non-empty, on offer and not forced, else the highest |
| `Resolution.RStripLabel` | download.py:169 | stripping `p` from a label gives back the decimal height |
| `Resolution.FormatPinsChosenHeight` | download.py:168-172 | with a truthy height, the format requests exactly the height of the chosen label, which is one of the offered heights |
| `Resolution.NoHeightKeepsDefault` | download.py:102 | without a truthy height the default format is kept |
| `Resolution.ForceRequestsMax` | download.py:95-97 | forced best quality always chooses and requests the largest height, whatever the catalog says |
| `Resolution.PreferredHeightHonoured` | download.py:161-163 | a catalog label naming an offered height, in any letter case, is chosen and requested when best quality is not forced |
| `Resolution.UnavailableFallsBack` | download.py:159-166 | a preferred label that is not on offer falls back to the highest one |
| `Ledger.Read` | download.py:54-60 | a non-empty reading comes from a saved file's `downloaded_urls` list; a missing, unreadable or keyless ledger reads as empty |
| `Ledger.Appended` | download.py:63-68 | a known url leaves the list unchanged; otherwise the url is added, nothing else is added or lost, and the old list is a prefix of the new one |
| `Ledger.AppendedChangesOnlyWhenNew` | download.py:66-67 | the list changes exactly when the url is new, and then by that url at its end |
| `Ledger.AppendedIdempotent` | download.py:63-68 | adding a url twice is adding it once |
| `Ledger.AppendedKeepsNoDuplicates` | download.py:66-67 | adding never introduces a duplicate |
| `Ledger.AppendedAll` | download.py:181 | after several adds, the old list is a prefix, and the urls are exactly the old ones and the added ones |
| `Ledger.AppendedAllSnoc` | download.py:181 | one more add at the end of a batch is one more single append |
| `Ledger.AppendedAllKeepsNoDuplicates` | download.py:63-68 | a duplicate-free ledger stays duplicate-free through any sequence of adds |
| `Ledger.LedgerStore.Add` | download.py:63-68 | the ledger becomes the old list with the url appended if it was absent; the file is left untouched when the url is known and rewritten with the extended list otherwise |
| `Ledger.LedgerStore.Save` | download.py:267 | the file is overwritten with exactly the given list |
| `Catalog.FindIn` | download.py:230-235 | the position found holds the url and no earlier video does; none found means no video holds it |
| `Catalog.Locate` | download.py:228-237 | the match is the first in category order and, within its category, in video order; none found means no category holds the url |
| `Catalog.LocateFirst` | download.py:228-237 | a match with no earlier match is the one the lookup reports |
| `Catalog.FindVideo` | download.py:222-237 | the nested search loop finds the url exactly when the lookup does, and returns that category's name and that video |
| `Files.JoinSplits` | download.py:245 | joining a folder and a name and then splitting gives the folder and name back |
| `Files.SuffixShape` | download.py:194 | a suffix is empty, or a dot and at least one more character that end the name, never start it, and hold no further dot |
| `Files.NameWithoutSuffix` | download.py:194 | a name with no dot after its first character has no suffix |
| `Files.Kept` | download.py:193-196 | the swept tree holds exactly the files not rejected, with their sizes unchanged, and all of them pass the test |
| `Files.SweepIdempotent` | download.py:189-201 | a second sweep deletes nothing and changes nothing |
| `Files.NoSuffixIsSwept` | download.py:194 | files with no suffix (`README`, `.json`) are deleted by the sweep |
| `Files.DownloadDir.SweepBy` | download.py:193-197 | the walk over the tree deletes exactly the files failing the test, in any order, and its count equals the number deleted |
| `Files.DownloadDir.Clean` | download.py:189-201 | deletes exactly the files whose lower-cased suffix is not `.mp4`, `.json` or `.txt`; leaves the others with their sizes; returns the number deleted |
| `Files.DownloadDir.Write` | download.py:177 | the fetch's files are added to the tree, overwriting files of the same path |
| `Files.DownloadDir.Delete` | download.py:256-258 | exactly the given paths are removed, and a missing path is no error |
| `Download.Attempt` | download.py:76-186 | a missing url or title fails; a url in the passed list succeeds without probing; a failed probe fails; the fetch completes exactly when the url and title are present, the url is not in the list, the probe succeeds and the download returns |
| `Download.GuardsPrecedeNetwork` | download.py:78-88 | a missing url or title, or a url already in the snapshot, decides the result whatever the network would answer, and nothing is fetched |
| `Download.FetchRequestsOfferedHeight` | download.py:140-177 | a started fetch requests an exact offered height when one exists, the largest when forced, and the default format when none exists |
| `Download.AvailableLabels` | download.py:147-152 | the loop collects exactly the label set, which is empty exactly when no height is truthy |
| `Download.DownloadVideo` | download.py:76-186 | returns the attempt's result and requested format; leaves the fetch's files in the tree when a fetch started; appends the url to the ledger only when the download completed; leaves the ledger file untouched otherwise |
| `Audit.Judge` | download.py:239-252 | a url is unmatched exactly when the catalog has no titled entry for it; an incomplete url names the folder and title of that entry |
| `Audit.Survivors` | download.py:266 | the kept urls are exactly those of the ledger that were not marked |
| `Audit.SurvivorsKeepOrder` | download.py:266 | the survivors keep their relative order: filtering distributes over concatenation |
| `Audit.SurvivorsOfNothing` | download.py:265-266 | filtering out nothing keeps the ledger as it is |
| `Audit.ScanShrinks` | download.py:256-258 | the audit only deletes: each later tree is part of each earlier one, with the same sizes |
| `Audit.ScanStepRemoved` | download.py:239-261 | one more url is marked exactly when it is judged unmatched or incomplete |
| `Audit.RemovedExactly` | download.py:222-262 | a url is marked exactly when, at one of its positions in the ledger, it was judged unmatched or incomplete against the tree as the earlier urls left it |
| `Audit.RemovesUnknown` | download.py:239-242 | a ledger url with no titled catalog entry never survives the audit |
| `Audit.RemovesIncomplete` | download.py:252-261 | a ledger url whose `.mp4` is missing or under 1 MiB before the audit never survives it |
| `Audit.KeepsComplete` | download.py:252 | a known ledger url whose `.mp4` is still complete after the audit survives it |
| `Audit.FixedCountsRepairsOnly` | download.py:239-262 | the number of removals is the repair count plus the catalog misses, so catalog misses are not counted as repairs |
| `Audit.NoRepairNoDeletion` | download.py:252-262 | with no repair, no file is deleted |
| `Audit.DeletedSound` | download.py:252-258 | a file deleted at the turn of a url judged incomplete was in the tree before the audit and is gone after it |
| `Audit.DeletedComplete` | download.py:252-258 | every file of the tree that is gone after the audit was a partial-download file of a url judged incomplete at its turn |
| `Audit.DeletedExactly` | download.py:244-262 | the audit deletes exactly the partial-download files of the urls it judges incomplete, each against the tree as the earlier urls left it, and nothing else |
| `Audit.AllIntactChangesNothing` | download.py:222-267 | when every ledger url is intact, nothing is marked, deleted or counted |
| `Audit.DebrisSparesArtifact` | download.py:245-249 | for a title without `/`, the four globs never match the video's own `.mp4` |
| `Audit.AuditedFile` | download.py:264-267 | the ledger after the audit reads as the survivors; the file is left exactly as it was when nothing was marked, and rewritten with a list otherwise |
| `Audit.AuditUrl` | download.py:228-262 | one url's turn: it is marked exactly when not intact, counted as repaired exactly when incomplete, and only then are its partial-download files deleted |
| `Audit.CheckIntegrity` | download.py:204-270 | with no catalog: returns 0 and changes nothing; otherwise returns the repair count, leaves the tree the sequential audit leaves, and rewrites the ledger without the marked urls, only when some were marked |
| `Batch.OneTurnPerVideo` | download.py:312-316 | the walk makes one turn per catalog video, so `total_videos` counts the turns |
| `Batch.ReplayCounts` | download.py:316-336 | each turn adds one to exactly one of skip, success or failure; skips are the turns whose url the snapshot holds; a pause follows each non-skipped turn that is not last in its category; successes are exactly the completed downloads |
| `Batch.ReplayLedger` | download.py:181 | the ledger after the walk is the snapshot with the completed urls added in walk order, each only when absent |
| `Batch.AllKnownIsQuiet` | download.py:319-323 | when the snapshot holds every url, every turn is a skip and nothing is fetched, recorded or awaited |
| `Batch.ReplayConcat` | download.py:304-316 | walking two runs of turns one after the other is walking their concatenation |
| `Batch.Turn` | download.py:316-336 | one iteration of the inner loop moves counters, ledger and tree exactly as the turn specification does |
| `Batch.WalkCategory` | download.py:316-336 | the inner loop over one category's videos moves counters, ledger and tree as its turns do |
| `Batch.Walk` | download.py:293-336 | the walk reports the sum of the category sizes and the counters of replaying every turn from the snapshot, and leaves that ledger and tree |
| `Batch.RunMain` | download.py:273-345 | sweep, audit, then (with a catalog) the walk from the audited ledger and tree, then a final sweep; without a catalog, only the sweep and nothing else |
| `Batch.RunSummary` | download.py:296-344 | skip + success + failure equals the total; skips are the snapshot's videos; successes are the recorded urls, which are exactly what the ledger gains; the walk deletes no file |
| `Batch.ReplayOnlyAdds` | download.py:316-336 | downloads only add or overwrite files: every file present before the walk is present after it |
| `Crawler.RemoveForbidden` | crawler01.py:50 | the result holds exactly the input's characters that are not among the nine forbidden ones, and is no longer than the input |
| `Crawler.RemoveForbiddenKeepsOrder` | crawler01.py:50 | removal keeps the order of the kept characters: removing from two joined strings joins what is left of each |
| `Crawler.RemoveForbiddenKeepsClean` | crawler01.py:50 | a string with no forbidden character is unchanged |
| `Crawler.UnnamedIsClean` | crawler01.py:55 | the fallback name `unnamed_video` is itself a clean name |
| `Crawler.SanitizeIsClean` | crawler01.py:47-56 | a sanitized name is non-empty, has no forbidden character and no whitespace at either end, and uses only the input's characters unless it is the fallback |
| `Crawler.SanitizeIdempotent` | crawler01.py:47-56 | sanitizing a sanitized name changes nothing |
| `Crawler.SanitizeKeepsClean` | crawler01.py:47-56 | a clean name is returned unchanged |
| `Crawler.SanitizeFallsBack` | crawler01.py:52-56 | a name of only whitespace and forbidden characters becomes `unnamed_video` |
| `Crawler.VideoInfo` | crawler01.py:24-45 | with a truthy height, the label of one of them that is at least every other one; with no height, or a failed probe, `unknown` |
| `Crawler.UnknownIsNoLabel` | crawler01.py:42 | `unknown` is never the label of a height, so it is never on offer at download time |
| `Crawler.CategoryName` | crawler01.py:75-78 | a category is derived exactly when the stripped heading text contains the marker `護理組 -` |
| `Crawler.MarkerHasDash` | crawler01.py:76-78 | a heading holding the marker holds a `-` |
| `Crawler.CategoryNameIsTail` | crawler01.py:78 | the category name is the stripped text after the last `-` of the stripped heading |
| `Crawler.LinkRecords` | crawler01.py:83-86 | a list yields at most one record per link |
| `Crawler.LinkRecordsStep` | crawler01.py:83-98 | one more link adds its record exactly when it is accepted |
| `Crawler.LinkRecordsSound` | crawler01.py:83-98 | every record is the record of an accepted link of the list |
| `Crawler.LinkRecordsComplete` | crawler01.py:83-98 | every accepted link of the list yields its record |
| `Crawler.LinkRecordsInOrder` | crawler01.py:83-98 | records keep document order: the records of two runs of links are concatenated |
| `Crawler.FileNameClean` | crawler01.py:95 | `{safe}_{resolution}.mp4` ends in `.mp4` and has no forbidden character when its parts have none |
| `Crawler.LabelIsClean` | crawler01.py:41 | a label `{h}p` holds no forbidden character |
| `Crawler.ResolutionIsClean` | crawler01.py:24-45 | a crawled resolution holds no forbidden character |
| `Crawler.RecordWellFormed` | crawler01.py:87-95 | the record's safe title is the sanitized title, and its file name is one clean `.mp4` path component |
| `Crawler.CollectedStep` | crawler01.py:74-98 | one more heading adds its records to a category exactly when it names that category |
| `Crawler.CollectedFromOwnHeadings` | crawler01.py:74-98 | a category holds a record exactly when a heading naming it yields that record; links under other headings are dropped |
| `Crawler.CollectedFromAcceptedLinks` | crawler01.py:74-98 | every collected record is the record of an accepted link under a heading naming its category |
| `Crawler.CollectLink` | crawler01.py:83-99 | one link appends its record to its category's list when it is accepted and the category is one of the two keys; all other lists stay as they were |
| `Crawler.CollectLinks` | crawler01.py:83-99 | the inner loop appends the list's records in order to its category, when that is a key, and changes nothing else |
| `Crawler.ExtractLinks` | crawler01.py:58-105 | an unreadable page gives nothing; otherwise exactly the two categories in fixed order, each with the records of the headings naming it |
| `Crawler.Publish` | crawler01.py:131-147 | nothing is written exactly when every category is empty; otherwise every category appears with `total_videos` equal to its number of videos |
| `Crawler.CrawlMain` | crawler01.py:118-151 | nothing is written when the page is missing or no link is found; otherwise both categories, with their records and counts |
| `Crawler.RecordPassesGuards` | crawler01.py:87-95 | a record read back by download.py passes its url and title guards, and the base name download.py derives for it is exactly its safe title, which has no `/` |
| `Crawler.CrawledRecord` | crawler01.py:83-95 | every crawled record has a `youtu.be` url, a stripped non-empty title, a sanitized safe title and a clean file name, and passes download.py's entry guards |
| `Crawler.CrawledLabelHonoured` | crawler01.py:37-45 | with the same probe answer at download time, the crawled label is the highest offered height and is the one downloaded; an `unknown` label falls back to the highest |

## Left out

- yt_dlp's `extract_info` and `download` are not modelled. The probe is an input
  value: a failure, or the formats' optional heights. The download is an input value:
  whether it returns, and the files it leaves. In the batch, the network is a fixed
  answer per url. The `ydl_opts` retry counts, user agent, sleep interval and cookie
  file are library configuration that the model does not use.
- BeautifulSoup is not modelled. The page is given as its `<h3>` headings in order,
  each with the `<a>` elements of the list that follows it. `find_next('ul')` can
  return a list after a later heading when a heading has none; the model does not
  capture that.
- `href=re.compile(r'youtu\.be')` is modelled as a substring test. The substitution
  regex at crawler01.py:50 is modelled as the removal of the nine characters.
- Debris: the four patterns of download.py:246-249 are matched with the title taken
  literally and only inside the category folder. pathlib treats `*`, `?`, `[` and `]`
  in a title as wildcards, and a `/` in a title as a step into a subfolder, so for such
  titles it can delete other files (another video's `ab.f1.mp4` for a title `a*`) or
  files in a subfolder (`x/y.1part` for a title `x/y`). A crawled record never has
  `*`, `?` or `/` in its safe title; such titles arise only from a catalog entry
  without `safe_title` whose raw `title` holds them (download.py:232).
- RemoveForbidden: its own contract states which characters remain; the order they
  keep is stated separately, by `Crawler.RemoveForbiddenKeepsOrder`.
- Path normalisation by pathlib (`.`, `..`, repeated `/`) is not modelled. Paths are
  strings relative to `downloads`, and directories are not separate entries.
- JSON loading is not modelled. The catalog is an `Option<Catalog>`, `None` when it
  fails to load or is empty. A ledger file is absent, corrupt, or saved with an
  optional list. Values of the wrong JSON type (a non-string url, a non-list
  `videos`) are not modelled.
- Write failures of `save_json`, `unlink` and `mkdir`, and the exceptions
  `clean_directory` swallows mid-walk, are not modelled. The file system operations
  always succeed.
- `Text.Lower`: only ASCII letters are lowered, and `Text.IsDigits` accepts only ASCII
  digits. Python's Unicode `lower()` and `isdigit()` do more. `Text.IsSpace` is
  Python's `isspace()` as a fixed set of code points.
- `random.uniform`, `random.choice` and `time.sleep` are not modelled; a pause is
  only counted (`Batch.Run.waits`). Logging, argparse and the command line
  (download.py:348-379), and the `KeyboardInterrupt` and top-level exception handlers
  are not modelled either. `Config.force_best_quality` is the parameter `force`.
- `get_url_hash` (download.py:71-73) is MD5 and unused, so it is not modelled.
- The `extraction_time` field of the crawler's output is not modelled, because it is
  the file's modification time.
- `Crawler.CrawlMain` treats a missing page and an unreadable page alike: neither
  writes anything, as in the code.
- The crawler calls `get_video_info` for a link before it checks the category key.
  Because the probe is a pure input, this has no effect on the model.
- `Crawler.CollectLinks` and `Crawler.ExtractLinks` take the record constructor as a
  parameter (`Crawler.Builder`). `Crawler.CrawlMain` passes the one the code uses,
  built from `sanitize_filename` and `get_video_info`.
