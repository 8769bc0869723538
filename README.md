# JukeBox track catalog, modelled in Dafny

JukeBox is a desktop music player. The part with real logic, modelled here, is
its track catalog:

- `track_library.py` keeps a module-level dictionary of `LibraryItem` records keyed
  by Track ID. It fills the dictionary from `songs_list.csv` with a
  `csv.DictReader`. It answers lookups with `None` or `-1` for a missing key. It
  changes records field by field, and writes the whole dictionary back to the file.
- `library_item.py` is the record, with `rating` and `play_count` defaulting to 0.
- `youtube.py` appends downloaded tracks to the same file. It sanitises the file
  name, allocates the next Track ID (`get_next_track_id`), formats it with `02d`,
  derives the legacy `ID` column from the line count, and writes the header only
  into an empty file.

Modules:

- Options: the `Option` type that stands for Python's `None` results.
- Decimal: `str()` and `int()` of integers. Proved: `int(str(n)) == n` for every
  integer, and a leading zero does not change a digit string's value.
- SongsCsv: the file as an optional sequence of rows (`None` while it does not
  exist), held in the class `SongsFile`. The 7-column header. How `DictReader` maps
  a column name to a cell: the last header position with that name wins; a short
  row yields a missing cell; an unknown name raises `KeyError`.
- LibraryItem: the record as a datatype. In-place field updates become map
  updates of the dictionary.
- TrackLibrary: the dictionary as the class `Library`, holding the keys in
  insertion order (`order`, the order a Python dict iterates in) and the records
  (`items`). Every function of `track_library.py` is a method or a function of it.
  Each method is proved against a specification function:
  - `ReadFile`: what a load stores and whether it completed;
  - `Serialize`: the rows `write_to_csv` writes;
  - `Listing`: the text `list_all` returns.

  Lemmas about these functions give the properties of the load:
  - the keys are exactly the Track IDs of the non-empty rows;
  - keys are ordered by the first row with that Track ID;
  - each key holds the item of its last row;
  - a failed load keeps what the rows before the failure stored;
  - loading what was written gives the catalog back.
- YouTube: the sanitiser, Track-ID allocation and the row append of
  `youtube.py`, with the duplicate-id defect described under Findings.

Two behaviours of the code shape the model:

- A failed load returns an empty dictionary, but the module's dictionary keeps
  what it held by then. A missing file leaves it untouched, because the clear at
  `track_library.py:16` comes after the open at line 12. A row that raises leaves
  the rows before it stored, which is nothing when the first data row raises.
- The `ID` column written by `write_to_csv` is never read back: the load takes an
  item's track id from the `Track ID` column. `LoadAfterWrite` states exactly this.

## Model

| member | source | states |
|---|---|---|
| `Decimal.NatToDigits` | track_library.py:129 | the digits of a natural number: only digits, at least one, a single one exactly below 10, no leading zero above 0 |
| `Decimal.IntToString` | track_library.py:129 | str() of an int: at least one digit, no leading zero except for 0 itself, and '-' first exactly for a negative number |
| `Decimal.ParseInt` | track_library.py:25-26 | int() of a cell: the empty string fails; a digit string gives its value; a sign followed by digits gives that value, negated for '-'; any accepted text is digits, or a sign then digits |
| `Decimal.DigitsRoundTrip` | track_library.py:25-26 | reading back the digits of n gives n |
| `Decimal.ParseIntRoundTrip` | track_library.py:25-26 | int(str(n)) == n for every integer, so a written rating or play count reads back unchanged |
| `Decimal.LeadingZero` | youtube.py:81 | a leading zero keeps a digit string's value |
| `SongsCsv.LastIndexOf` | track_library.py:13 | DictReader's column position: absent exactly when the header lacks the name, otherwise the last position holding it |
| `SongsCsv.CellOf` | track_library.py:21-26 | row[column] is a KeyError exactly when the header lacks the column; it is None exactly when the row is shorter than the column's last header position; otherwise it is the row's cell at that position |
| `LibraryItem.NewItem` | library_item.py:3-10 | every argument is stored unchanged in its field, with no validation; rating and play count default to 0 |
| `TrackLibrary.PutValid` | track_library.py:29 | storing under a key keeps the key order duplicate-free and covering the keys, sets that key and leaves every other key's item alone |
| `TrackLibrary.Catalog.Put` | track_library.py:29 | library[key] = item: the key now maps to the item and every other key is kept; an existing key keeps the order, a new key extends it by one at the end |
| `TrackLibrary.ParseRowOutcome` | track_library.py:19-29 | an empty row is skipped; a non-empty row raises exactly when a text column is missing from the header or Rating or Plays is not an integer; otherwise its item has the row's Track ID, rating and play count |
| `TrackLibrary.ParseRow` | track_library.py:19-29 | DictReader skips exactly the empty rows; a parsed row's item is stored under its Track ID cell |
| `TrackLibrary.FirstBroken` | track_library.py:19-29 | the position of the first row that raises, or the number of rows |
| `TrackLibrary.FirstBrokenBefore` | track_library.py:19-29 | no row before that position raises |
| `TrackLibrary.FirstBrokenPrefix` | track_library.py:19-29 | cutting the rows at that position leaves none that raises |
| `TrackLibrary.ReadFile` | track_library.py:9-39 | an empty file loads nothing and completes; every load leaves a well-formed dictionary |
| `TrackLibrary.CollectValid` | track_library.py:16-29 | storing the items one after the other into an emptied dictionary gives a well-formed key order |
| `TrackLibrary.CollectKeys` | track_library.py:29 | the keys are exactly the Track IDs of the items stored |
| `TrackLibrary.CollectKeyed` | track_library.py:29 | every item is stored under its own Track ID |
| `TrackLibrary.CollectLastWins` | track_library.py:29 | for a repeated Track ID the dictionary holds the item of the last such row |
| `TrackLibrary.CollectFirstOccurrenceOrder` | track_library.py:29 | keys come in the order in which their Track IDs first occur |
| `TrackLibrary.RecordsIds` | track_library.py:19-29 | when no row raises, the stored Track IDs are the Track ID cells of the non-empty rows, in file order |
| `TrackLibrary.ReadFileOk` | track_library.py:19-39 | a load completes exactly when no data row raises |
| `TrackLibrary.FailedLoadKeepsPrefix` | track_library.py:16-39 | after a failed load the dictionary is what a complete load of the rows before the first raising row would give |
| `TrackLibrary.LoadedCatalog` | track_library.py:16-35 | a complete load keeps exactly the Track IDs of the non-empty rows, ordered by first occurrence, each with the item of its last row |
| `TrackLibrary.HeaderColumns` | track_library.py:125 | the written header names every column the load reads, at the writer's position |
| `TrackLibrary.HeaderDistinct` | track_library.py:125 | the written header names no column twice |
| `TrackLibrary.RowOf` | track_library.py:129 | one cell per header column, the dictionary key first |
| `TrackLibrary.Serialize` | track_library.py:120-129 | the header row first, then one row per key |
| `TrackLibrary.ParseRowOf` | track_library.py:129 | a written row reads back as its item, with the key as Track ID |
| `TrackLibrary.DataRowsReadBack` | track_library.py:128-129 | none of the written rows raises, and they read back as the items, each under its key, in order |
| `TrackLibrary.CollectRekeyed` | track_library.py:29 | storing the read-back items in key order rebuilds the same key order and items |
| `TrackLibrary.LoadAfterWrite` | track_library.py:120-129 | loading what write_to_csv wrote completes and gives back every key in order with name, artist, source, rating and play count; when every item's track id is its key it gives back the catalog itself |
| `TrackLibrary.Chunk` | track_library.py:46 | one track's display text starts with "Name: " and is at least 30 characters long |
| `TrackLibrary.Listing` | track_library.py:42-48 | the listing has at least one chunk's length per track |
| `TrackLibrary.ListingEmpty` | track_library.py:42-48 | the listing is the empty string exactly when the library is empty |
| `TrackLibrary.Library.constructor` | track_library.py:6 | the library starts empty and well-formed |
| `TrackLibrary.Library.LoadSongsFromCsv` | track_library.py:9-39 | a missing file changes nothing and returns empty; otherwise the dictionary becomes what ReadFile stores and the result is that dictionary when the load completed, empty otherwise; the invariant holds after |
| `TrackLibrary.Library.ListAll` | track_library.py:42-48 | the returned text is the chunk of every track in insertion order |
| `TrackLibrary.Library.GetName` | track_library.py:51-53 | None exactly for an absent key, the stored name otherwise |
| `TrackLibrary.Library.GetArtist` | track_library.py:56-58 | None exactly for an absent key, the stored artist otherwise |
| `TrackLibrary.Library.GetRating` | track_library.py:61-63 | -1 for an absent key, the stored rating otherwise |
| `TrackLibrary.Library.GetMusicSource` | track_library.py:66-68 | None exactly for an absent key, the stored source otherwise |
| `TrackLibrary.Library.GetPlayCount` | track_library.py:71-78 | -1 for an absent key, the stored play count otherwise |
| `TrackLibrary.Library.IncrementPlayCount` | track_library.py:81-88 | a present key's play count goes up by exactly one and nothing else changes; an absent key changes nothing; the file is not written |
| `TrackLibrary.Library.SetName` | track_library.py:91-95 | a present key gets the new name, nothing else changes and the file is rewritten from the catalog; an absent key changes neither |
| `TrackLibrary.Library.SetArtist` | track_library.py:98-102 | as SetName, on the artist |
| `TrackLibrary.Library.SetRating` | track_library.py:105-110 | as SetName, on the rating, any integer accepted |
| `TrackLibrary.Library.SetPlayCount` | track_library.py:113-117 | the catalog is unchanged; the file is rewritten exactly when the key is present |
| `TrackLibrary.Library.WriteToCsv` | track_library.py:120-129 | the file becomes the header followed by one row per key in insertion order |
| `TrackLibrary.Library.GetTrackById` | track_library.py:132-134 | None exactly for an absent key, the stored item otherwise |
| `TrackLibrary.Library.ListAllTracks` | track_library.py:137-139 | the returned dictionary is the library's own: same key order and same items, well-formed |
| `YouTube.KeepAlnum` | youtube.py:28 | only ASCII letters and digits remain, and the text gets no longer |
| `YouTube.KeepAlnumMembers` | youtube.py:28 | a character survives exactly when it is in the input and alphanumeric |
| `YouTube.KeepAlnumAppend` | youtube.py:28 | the filter distributes over concatenation, so it keeps the input order |
| `YouTube.KeepAlnumFixed` | youtube.py:28 | the filter leaves a text unchanged exactly when it is all alphanumeric |
| `YouTube.SanitizeFilename` | youtube.py:26-33 | the result is alphanumeric, at most 100 long, and a prefix of the filtered name: all of it up to 100 characters, its first 100 beyond |
| `YouTube.SanitizeFixedPoint` | youtube.py:26-33 | a name is unchanged exactly when it is already alphanumeric and at most 100 long |
| `YouTube.SanitizeIdempotent` | youtube.py:26-33 | sanitizing twice is sanitizing once |
| `YouTube.JoinPath` | youtube.py:42 | os.path.join of a folder and a name: the folder, then '/' exactly when the folder is non-empty and does not already end in '/', then the name |
| `YouTube.DownloadYoutubeAudio` | youtube.py:36-61 | an empty URL gives (None, "No video URL provided."); a path comes back exactly when there is a URL and the download did not fail, and ends with the sanitized title |
| `YouTube.Pad2` | youtube.py:81 | 02d of a non-negative number is at least two digits with that value, with no extra leading zero beyond the padding; a negative number is written as str() does |
| `YouTube.ParseAllSpec` | youtube.py:70 | the id list exists exactly when every counted field parses, and holds their values in order |
| `YouTube.MaxOrZero` | youtube.py:71 | max with default 0: 0 for no ids, otherwise an id that is at least every id |
| `YouTube.AfterHeader` | youtube.py:68-69 | the rows left once the first one is skipped: none for an empty file, otherwise the first row followed by them is the whole file |
| `YouTube.CountedFields` | youtube.py:70 | at most one counted field per row |
| `YouTube.ParseAll` | youtube.py:70 | a successful parse yields one id per counted field |
| `YouTube.CountedIds` | youtube.py:69-70 | at most one id per data row |
| `YouTube.NextTrackId` | youtube.py:64-71 | 1 for a missing file; a failure exactly when a counted field is not an integer |
| `YouTube.NextTrackIdBounds` | youtube.py:71 | the id is above every counted id and one more than one of them, or 1 when none is counted |
| `YouTube.CountedIdsAppend` | youtube.py:69-70 | an appended row changes the counted ids only when its first field starts with "0", by that field's value |
| `YouTube.Pad2Rescan` | youtube.py:70-81 | a formatted id passes the "0" filter exactly when it is 0 to 9, and then reads back as itself |
| `YouTube.AppendCounted` | youtube.py:70-71 | after a counted row with the newest id, the next id is one more |
| `YouTube.AllocationAdvances` | youtube.py:64-81 | while ids are single-digit, each allocation is the previous one plus one |
| `YouTube.AllocationRepeatsFromTen` | youtube.py:70-81 | from 10 on, writing the allocated id does not change the next allocation |
| `YouTube.ZeroFieldRaises` | youtube.py:70 | a first field of exactly "0" makes the allocation fail |
| `YouTube.DuplicateTrackIdExample` | youtube.py:70-81 | after a track "09" the file gets Track ID "10" twice in a row |
| `YouTube.NegativeTrackIdExample` | youtube.py:70-71 | a first field "0-5" makes the next id -4 |
| `YouTube.NextFreeTrackId` | youtube.py:64-71 | the intended allocation is at least 1 |
| `YouTube.NextFreeTrackIdIsFresh` | youtube.py:64-71 | the intended allocation, zero-padded, differs from the Track ID of every data row in the file |
| `YouTube.RowsBeforeAppend` | youtube.py:88-93 | opening for append gives exactly the header when the file was missing or empty, and an existing non-empty file's rows unchanged |
| `YouTube.SongRow` | youtube.py:96 | the appended row has one cell per header column, the zero-padded Track ID first, and the ID cell is digits for a non-negative id |
| `YouTube.CountLines` | youtube.py:84 | the line count is the number of rows, 0 for a missing file |
| `YouTube.AppendSong` | youtube.py:84-96 | exactly one row is appended after the unchanged earlier rows, after the header for an empty file; its ID is the line count minus one (0 up to one line), and its file path ends in ".mp3" |
| `YouTube.WriteToCsv` | youtube.py:74-96 | a row is written exactly when the allocation succeeds, with the zero-padded allocated id; otherwise the file is unchanged |
| `YouTube.WriteToCsvFreshId` | youtube.py:74-96 | with the intended allocation, the appended row's Track ID differs from that of every earlier data row |

## Left out

- The GUI screens, audio playback, the worker thread and the `YouTubeApp` class are not part of this model. They are presentation and concurrency.
- The YouTube search request and the yt_dlp download are network calls and foreign code. `DownloadYoutubeAudio` takes the download's outcome as a parameter.
- The random rating and the `print` logging are not modelled. Neither affects the catalog.
- csv quoting and escaping are not modelled. A written row is assumed to read back as the same fields, one line per row, which `CountLines` also relies on.
- ParseInt: accepts only an optional sign and ASCII digits. Python's `int()` also accepts surrounding whitespace, underscores between digits and non-ASCII digits.
- TrackLibrary.TextOf: reads a cell missing from a short row as the empty string. Python stores `None` as the field, which `list_all` would print as "None".
- A file that cannot be decoded as UTF-8 is not modelled. The file is already rows of strings.
- Records are values, so aliasing is not modelled. The dictionary and items that `list_all_tracks`, `get_track_by_id` and `load_songs_from_csv` return are shared objects in Python, and later changes show through them.
- SetPlayCount: the `plays` attribute it assigns is not modelled, because nothing in the program reads it.
- JoinPath: follows POSIX `os.path.join` for a relative name. Windows separators and drive letters are not modelled.
- `ListAll` is proved equal to `Listing`, and empty exactly for an empty library. No lemma splits the listing into its first chunk and the rest.
- Integers are unbounded, as Python's are.

## Findings

| source | as written | input that shows it | evidently intended | confidence | as-written member | corrected member |
|---|---|---|---|---|---|---|
| youtube.py:70 | only first fields starting with "0" are counted, and ids from 10 on are formatted without a leading zero, so they are never counted | a file whose last row has Track ID "09": the next download gets "10", and the one after it gets "10" again | every Track ID in the file counts, so each new id is unused | high, not executed | `YouTube.DuplicateTrackIdExample` | `YouTube.NextFreeTrackIdIsFresh` |
| youtube.py:70-71 | a counted field is handed to int() with its sign, so a negative id lowers the maximum | a data row with Track ID "0-5" and no other counted row: the next id is -4 | ids start at 1 | medium, not executed | `YouTube.NegativeTrackIdExample` | `YouTube.NextFreeTrackId` |

`WriteToCsv` keeps the allocation as written. `WriteToCsvFreshId` is the same append with the corrected allocation.
