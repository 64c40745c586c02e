# tma_featured — a verified model of the featured-module sync

`tma_featured.py` keeps a local directory in step with The Mod Archive's
"featured modules" RSS feed. It reads the feed, turns the first `count`
feed items into `FeaturedModule` records, stores them in a dictionary keyed
`"1"`, `"2"`, … in rank order (rank 1 is the most recently featured), and
then downloads them:

* with `-c N`, it visits the first `N` entries and downloads each one whose
  filename is not yet in the output directory;
* by default, it looks for the newest entry already in the directory. If
  that is rank 1, there is nothing to do and it exits with status 0. If it
  is rank k > 1, it downloads ranks 1 .. k-1. If no entry is owned, it
  downloads all 40.

This Dafny project models that logic and proves what the script promises:

* `wrappers.dfy` holds `Option` and `Result`.
* `pystr.dfy` holds Python's `str.strip()`, using Python's whitespace set, and
  `str(n)` for natural numbers, with its inverse.
* `filename.dfy` holds the regular-expression search
  `Filename:</b>(.*?)<br`. It tries start positions leftmost first, and its
  lazy group stops at the first `<br` without crossing a newline. Then the
  captured text is stripped.
* `entries.dfy` holds `FeaturedModule` construction and
  `create_entry_objects`. The dictionary is a key sequence in insertion
  order plus a map.
* `options.dfy` holds the option loop.
* `boundary.dfy` holds `find_recent_module`.
* `sync.dfy` holds `download_module`, the main loop and one whole run.
* `properties.dfy` holds the run-level guarantees. Among them: the default
  mode downloads exactly the new prefix, a second run downloads nothing,
  and a count above 40 is decided before the feed matters.

Each loop of the script is a `method` proved equal to a specification
function. The guarantees are lemmas about those functions.

The feed, the directory listing and the download are inputs or recorded
actions:

* `items` is the parsed feed: each item's summary and link.
* `owned` is the set of names `os.listdir` returned at start-up.
* Each `Fetch(filename, url)` action stands for one `wget.download` call.
* Each `Skip(filename)` stands for the "already exists" message.

Where the script and its written description differ, the model follows the
script:

* `-h` prints help and does not exit.
* The directory is created and listed, and the feed is fetched, before the
  options are examined.
* A zero or negative `-c` value is accepted and yields no entries.
* The owned set is never refreshed during a run.
* `create_entry_objects` reads the global `parsed.entries`, not its
  parameter. The two are the same object at the only call site, so the model
  passes the feed items directly.

## Model

| member | source | states |
|---|---|---|
| PyStr.StripTrims | tma_featured.py:52 | `.strip()` never lengthens its argument, and its result neither starts nor ends with a Python whitespace character |
| PyStr.StripMiddle | tma_featured.py:52 | `.strip()` removes exactly the surrounding whitespace: stripping `p + m + q` gives `m` when `p` and `q` are all whitespace and `m` is already trimmed |
| PyStr.TrimStartSuffix | tma_featured.py:52 | the left half of `.strip()` drops a whitespace-only prefix, keeps a suffix, and leaves it starting with a non-space (or empty) |
| PyStr.TrimEndPrefix | tma_featured.py:52 | the right half of `.strip()` drops a whitespace-only suffix, keeps a prefix, and leaves it ending with a non-space (or empty) |
| PyStr.Str | tma_featured.py:62 | `str(n)` of a natural number is a non-empty string of decimal digits |
| PyStr.StrRoundTrip | tma_featured.py:62 | reading back the decimal digits of `str(n)` gives `n` |
| PyStr.StrInjective | tma_featured.py:62 | distinct ranks get distinct dictionary keys `str(x + 1)` |
| FilenameExtraction.CloseFrom | tma_featured.py:52 | the lazy `(.*?)<br` ends at or after where the group starts, with the whole `<br` inside the summary |
| FilenameExtraction.CloseFromCorrect | tma_featured.py:52 | the lazy group ends at the first `<br` after its start, provided no newline comes first; it finds nothing exactly when no such `<br` exists |
| FilenameExtraction.SearchFrom | tma_featured.py:52 | a match found by the search lies inside the summary, and its group starts right after `Filename:</b>` |
| FilenameExtraction.SearchFromFinds | tma_featured.py:52 | a match the search returns really matches the pattern, and no start position further left matches |
| FilenameExtraction.SearchFromMisses | tma_featured.py:52 | the search finds nothing exactly when no start position from there on matches |
| FilenameExtraction.NoMatchWhenSkipped | tma_featured.py:52 | a start position the search moves past (no `Filename:</b>` there, or no closing `<br` before a newline) has no match |
| FilenameExtraction.ExtractFilenameCorrect | tma_featured.py:52 | the filename is missing iff the summary has no match anywhere. Otherwise it is the stripped text of the leftmost match, between `Filename:</b>` and the first following `<br`, on one line |
| FilenameExtraction.FirstMatchUnique | tma_featured.py:52 | the leftmost match is unique: the filename `re.search` picks is well defined |
| Entries.BuildEntries | tma_featured.py:58-63 | building `count` entries succeeds iff the feed has at least `count` items and each of the first `count` has a filename. On success there are max(count, 0) entries, and entry x comes from item x. A missing filename fails at the first bad item; a short feed fails at its end |
| Entries.StopsAtMalformed | tma_featured.py:61-62 | an item without a filename, within the first `count`, stops construction with an error naming that item |
| Entries.StopsAtEnd | tma_featured.py:61-62 | asking for more entries than the feed holds fails at index `len(parsed.entries)` |
| Entries.InsertNext | tma_featured.py:62 | inserting the next rank under key `str(len + 1)` keeps the dictionary well formed, and appends the module to the ranked list |
| Entries.CreateEntryObjects | tma_featured.py:58-63 | the loop builds a dictionary keyed "1".."count" in order, each key mapped and nothing else. Its entries in key order are exactly `BuildEntries`, and an error is exactly `BuildEntries`' error |
| Options.RejectsFirstTooLarge | tma_featured.py:32-37 | the option loop rejects the options iff some `-c` value exceeds 40, and the error names the first such value |
| Options.StopsAtTooLarge | tma_featured.py:36-37 | a `-c` value above 40 ends option processing, whatever follows it |
| Options.AcceptedCount | tma_featured.py:30-37 | on acceptance the count is at most 40. `count_option` holds iff some `-c` was given. Without one, the count is the default 40; with them, it is the last `-c` value |
| Options.ParseOptions | tma_featured.py:30-43 | the loop over the options computes exactly `ConfigOf`, whose properties are the three lemmas above |
| Boundary.FirstOwned | tma_featured.py:75-86 | the scan returns the first rank whose filename is owned, with no earlier rank owned; it returns nothing iff no rank is owned |
| Boundary.SearchOutcomes | tma_featured.py:73-86 | `find_recent_module` ends "up to date" iff rank 1 is owned, and returns None iff no rank is owned. Otherwise it returns the key `str(k + 1)` of the first owned rank k > 0, and no earlier rank is owned |
| Boundary.FindRecentModule | tma_featured.py:73-86 | the loop over the dictionary computes exactly the classified first-owned rank that `SearchOutcomes` describes |
| Sync.DownloadModule | tma_featured.py:65-71 | one entry is skipped iff its filename is owned; otherwise it is downloaded from the entry's own URL |
| Sync.StopIndex | tma_featured.py:98-100 | the main loop stops at the first key equal to `recent_key`, and at no earlier key; it runs to the end when there is no such key |
| Sync.EmptyKeyNeverStops | tma_featured.py:93-94 | with `-c` the key `""` equals no rank key, so the loop visits every entry |
| Sync.RankKeyStops | tma_featured.py:96-100 | the key of rank k + 1 stops the loop after exactly k entries |
| Sync.DownloadLoop | tma_featured.py:98-102 | the main loop issues one `download_module` decision per entry, in rank order, up to the entry whose key is `recent_key` |
| Sync.SyncEntries | tma_featured.py:92-102 | after the entries are built, the run does exactly `Plan`. With `-c` it visits every entry. Otherwise it stops as "nothing new", or visits the entries newer than the newest owned one |
| Sync.Run | tma_featured.py:30-102 | the script from the option loop on computes exactly `RunSpec`: a rejected count, a feed error, nothing new, or the download actions |
| Properties.UpToDateIffNewestOwned | tma_featured.py:79-81 | without `-c` the run ends with nothing to do iff the newest featured module is already owned |
| Properties.DefaultModeDownloadsNewPrefix | tma_featured.py:92-102 | without `-c`, the run downloads exactly the ranks before the newest owned one, in order. None of them is owned, none is skipped, and the next rank, if any, is owned |
| Properties.NothingOwnedDownloadsAll | tma_featured.py:96-102 | without `-c` and with nothing owned, every entry is downloaded, rank 1 first |
| Properties.CountModeAttemptsEveryEntry | tma_featured.py:93-102 | with `-c` every entry is visited in rank order. Owned ones are skipped; the others are downloaded from their URL |
| Properties.TooLargeCountDecidesBeforeFeed | tma_featured.py:30-37 | a `-c` value above 40 rejects the run whatever the feed and the directory hold |
| Properties.SecondRunFetchesNothing | tma_featured.py:65-102 | if every download of a run lands in the directory under its filename, a second run with the same options and feed downloads nothing |

## Left out

- Fetching and parsing the RSS feed (`feedparser.parse`) is an input: the model starts from the list of items, each with its summary and link.
- Creating and listing the output directory (`os.path.expanduser`, `os.mkdir`, `os.listdir`) is an input: `owned` is the listing.
- The download itself (`wget.download`) is recorded as a `Fetch` action. Network failures and the name under which wget saves the file are not modelled.
- Printed messages and the help text are not modelled. A `Skip` action stands for the "already exists" line.
- `getopt` tokenisation and its errors for unknown options or a missing argument are not modelled. Options arrive already split into `-c` values and help requests.
- `int(value)` failing on a non-numeric `-c` argument (a ValueError) is not modelled: a `-c` value arrives as an integer.
- The `title`, `date`, `month` and `page` fields of `FeaturedModule` are not used by the sync logic and are left out. So is the AttributeError a feed item without them would raise. Only `filename` and `download` are kept.
- The exit message for a count above 40 and the exit status 0 for "nothing to download" are modelled as outcomes (`Rejected`, `NothingNew`), not as process exits.
- Entries.BuildEntries: a summary without a match makes the script fail with a TypeError (subscripting None), and a short feed makes it fail with an IndexError. The model turns both into error values, not exceptions.
- Properties.SecondRunFetchesNothing: assumes each download is saved under the entry's filename. The script does not ensure this: wget names the file from the URL.
