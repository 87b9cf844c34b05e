# Hebrew font downloader: a Dafny model of the download thread

The application asks the Google Fonts listing endpoint for its catalog. It keeps
the families whose `subsets` list contains `"hebrew"`. It then downloads the
regular style of each family into a folder the user chose, as `<family>.ttf`.
Families without a regular style and files already in the folder are skipped.
The work is done by one background thread. That thread reports with three
signals: a progress update (a 1-based position and a message), a completion
signal carrying the number of new files, and an error signal.

This project models one pass of that thread (`DownloadThread.run` in
`Versions/V3/program.py`) and proves what it guarantees:

- `catalog.dfy`, module `Catalog`: the catalog entries (`Font`) and the decoded
  listing (`Listing`). A listing is an `items` array, an object without that key,
  or a body that does not decode. `Unparsable` also covers a body that decodes to
  something other than an object (`.get` raises) and an `items` that is null
  (iterating it raises). Both end with the error signal carrying the exception
  text, as an undecodable body does. The module also holds the reply to the catalog
  request and the client-side Hebrew filter. `RegularUrl` gives the regular-style
  URL and `FileName` the target file name.
- `downloader.dfy`, module `Downloader`:
  - the signals (`Signal`, with a `Note` per progress message). `Text` renders
    the exact message strings, and distinct notes give distinct strings;
  - the network, seen as two functions: the catalog request and the font
    requests;
  - the loop as a specification (`Step` for one entry, `Walk` for the entries
    from a position on, `RunEffect` for a whole run);
  - the class `DownloadThread`, whose `Run` method performs the pass step by
    step on its `disk` (the folder) and `emitted` (the signals sent so far)
    fields, and is proved equal to `RunEffect`.
- `facts.dfy`, module `DownloaderFacts`: the guarantees. These cover one entry,
  the loop (the folder only grows, the counter equals the number of new files,
  signal order, idempotence against the same network) and a whole run, plus
  four concrete scenarios.

The folder is a map from file name to bytes. A network request is a function
from URL to a reply (status and body) or to a transport exception. A run is
deterministic given both.

A transport failure while fetching one font is not a per-font failure.
`requests.get` raising inside the loop (`Versions/V3/program.py:48`) is caught
by the outer `except Exception` (lines 58-59). That handler emits the error
signal, and the run ends without a completion signal. Files written earlier
stay. `Step` returns `Raised` in that case (`FetchOutcome`), and
`RunEffectFromWalk` states that a loop that raised ends the run with the error
signal carrying the exception text and no completion signal.

Running twice is idempotent only against the same network. The first run can
leave a family missing because its font request answered with a status other
than 200. If that request answers 200 on the second run, the second run
downloads the family (`ScenarioRetryAfterNotFound`). So `WalkIdempotent` and
`RunIdempotent` assume the same font replies on both runs.

## Model

| member | source | states |
|---|---|---|
| `Catalog.CatalogUrl` | Versions/V3/program.py:24 | the catalog request URL names the `hebrew` subset |
| `Catalog.Fonts` | Versions/V3/program.py:30 | a listing without `items` is read as the empty list |
| `Catalog.HebrewFonts` | Versions/V3/program.py:31 | an entry is kept iff it is in the catalog and its `subsets` list contains exactly `"hebrew"`; no more entries than the catalog has |
| `Catalog.HebrewFontsAppend` | Versions/V3/program.py:31 | filtering distributes over concatenation, so kept entries stay in catalog order |
| `Catalog.HebrewFontsSingle` | Versions/V3/program.py:31 | one entry is kept iff `"hebrew"` is an element of its subsets list (list membership, not substring) |
| `Catalog.RegularUrl` | Versions/V3/program.py:37-38 | the URL is empty iff the entry lists no regular style or lists it as ""; otherwise it is the listed one |
| `Catalog.FileName` | Versions/V3/program.py:42 | the file name is the family followed by a four-character extension |
| `Downloader.Text` | Versions/V3/program.py:39-55 | each progress message names its family right after the opening words for its kind (no regular style, already downloaded, downloading, downloaded, failed) |
| `Downloader.TextInjective` | Versions/V3/program.py:39-55 | two notes give the same message string iff they are equal, so facts about notes hold of the emitted strings |
| `Downloader.CatalogError` | Versions/V3/program.py:27 | the catalog error message ends with the reply's own text |
| `Downloader.Step` | Versions/V3/program.py:36-55 | one entry appends one or two progress signals, each with its 1-based position and its family, and adds at most one to the counter; the cases are pinned down by `SkipWithoutRegularStyle`, `SkipExistingFile` and `FetchOutcome` |
| `Downloader.Walk` | Versions/V3/program.py:35-56 | the loop from position i keeps or grows the signals and adds at most one to the counter per remaining entry; characterised by `WalkGrowth`, `WalkSignals` and `WalkIdempotent` |
| `Downloader.RunEffect` | Versions/V3/program.py:22-59 | every run emits at least one signal and the last is the completion or the error signal; characterised by `RunSignals`, `RunFiles` and `RunIdempotent` |
| `Downloader.WalkFromPrefix` | Versions/V3/program.py:35-56 | signals emitted before the loop do not change what the loop does and stay in front of its own |
| `Downloader.RunEffectFromWalk` | Versions/V3/program.py:30-59 | a run whose catalog decodes is the loop over the Hebrew entries followed by the completion signal, or by the error signal if the loop raised |
| `Downloader.DownloadThread.constructor` | Versions/V3/program.py:17-20 | a thread starts with its API key, the folder's contents and no signals |
| `Downloader.DownloadThread.Run` | Versions/V3/program.py:22-59 | after the pass the folder is the run's folder, and the run's signals are appended in order to those emitted before |
| `DownloaderFacts.SkipWithoutRegularStyle` | Versions/V3/program.py:37-40 | an entry without a regular URL gives one "no regular style" signal with its position, no write, no counter change, and a result independent of the network (no request) |
| `DownloaderFacts.SkipExistingFile` | Versions/V3/program.py:42-45 | an entry whose file exists gives one "already downloaded" signal, leaves the folder and counter unchanged, and makes no request |
| `DownloaderFacts.FetchOutcome` | Versions/V3/program.py:47-59 | a fetched entry signals "Downloading" first; on 200 exactly the body is written under its file name and the counter grows by one; on any other status a failure signal, no write and the loop goes on; on a transport exception the loop ends |
| `DownloaderFacts.WalkGrowth` | Versions/V3/program.py:42-52 | existing files keep their bytes; the counter grows by the number of new files, at most one per remaining entry; each new file holds a 200 body fetched for an entry of that family |
| `DownloaderFacts.WalkSignals` | Versions/V3/program.py:35-55 | the loop only appends progress signals; each names the kept entry at its position, positions never decrease, and a loop that finishes reports every position |
| `DownloaderFacts.WalkIdempotent` | Versions/V3/program.py:42-55 | a second loop over the folder the first left, with the same font replies, writes nothing, counts nothing and reports no download, and finishes whenever the first loop finished (a file missing after the first loop had no 200 reply, so it has none on the second either) |
| `DownloaderFacts.Kept` | Versions/V3/program.py:30-31 | the entries a run walks all declare the `hebrew` subset |
| `DownloaderFacts.RunCatalogFailure` | Versions/V3/program.py:24-28 | a failed catalog request or a status other than 200 yields exactly one error signal (with "Failed to fetch fonts: " and the reply text for a status) and no write |
| `DownloaderFacts.RunWithoutItems` | Versions/V3/program.py:30-33 | a listing without `items` completes with 0 and writes nothing |
| `DownloaderFacts.RunSignals` | Versions/V3/program.py:22-59 | every run ends with exactly one completion or error signal; all earlier signals are progress signals for kept entries in non-decreasing position order, within 1 to the number of kept entries; a completed run reports every kept entry |
| `DownloaderFacts.RunFiles` | Versions/V3/program.py:33-57 | no pre-existing file is changed or removed; the folder grows by at most the number of kept entries; the completion count equals the number of files added |
| `DownloaderFacts.RunIdempotent` | Versions/V3/program.py:22-59 | a second run over the folder the first left, with the same network, leaves it unchanged, reports no download and ends with completion 0 or an error; if the first run completed, the second completes with 0; the same network is needed, see `ScenarioRetryAfterNotFound` |
| `DownloaderFacts.ScenarioHebrewAndLatin` | Versions/V3/program.py:30-57 | a Hebrew family and a Latin-only one: only the Hebrew one is signalled and written, completion 1 |
| `DownloaderFacts.ScenarioNotFound` | Versions/V3/program.py:47-57 | a 404 is reported as a failure and the next family is still downloaded and counted |
| `DownloaderFacts.ScenarioRetryAfterNotFound` | Versions/V3/program.py:42-57 | a family that answered 404 on the first run and answers 200 on the second is downloaded by the second run, so idempotence needs the same font replies |
| `DownloaderFacts.ScenarioDuplicateFamily` | Versions/V3/program.py:42-53 | a family listed twice is written once, with the first body, and the second entry is skipped as already downloaded |

## Left out

- The Qt user interface: window, tabs, styling, dialogs, the progress bar and the terminal pane. It is presentation only.
- Settings persistence through `QSettings` (API key, folder, last run time). This is external key-value state.
- Thread scheduling and signal delivery. Signals are modelled as an append-only log on the thread object, in emission order.
- Real HTTP and JSON decoding. The catalog reply, already decoded, is a function of the request URL, and each font request is a function of its URL. The API key only enters the catalog URL.
- `os.path.join` and `os.path.exists`. The folder is a map keyed by file name, so the folder path is not modelled. A directory named like the font file, which `exists` would also report, is not modelled either.
- Entries that lack `family`, `subsets` or `files`. The `KeyError` these raise (caught by the outer handler, which emits the error signal) is not modelled, because every `Font` carries all three fields as the catalog format promises.
- Entries whose `subsets` is not a list. A string `subsets` makes the `"hebrew" in` test at `Versions/V3/program.py:31` a substring test, the one case where the filter is not list membership; a null `subsets` raises `TypeError`, caught at lines 58-59. `Font.subsets` is always a list of strings, so the model has neither case.
- Of the falsy `regular` values, only the empty string and a missing key are modelled; a JSON null is not.
- Exceptions raised while opening or writing a file. Transport exceptions on the catalog and font requests, and an undecodable catalog body, are modelled.
- `total_fonts` is computed by the source but never sent in a signal. In the model it appears only as the number of kept entries that bounds positions and the completion count.
- `Archived/V2/program.py` and `Archived/Old/V1/program.py`. Their download step is simulated UI progress with no file or network logic.
