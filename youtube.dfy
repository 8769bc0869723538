/**
 * The downloader's side of the catalog: the file name a downloaded track is
 * saved under, the Track ID it is given, and the row appended for it to
 * songs_list.csv.
 */
module YouTube {

  import opened Options
  import opened Decimal
  import opened SongsCsv

  // ---------------------------------------------------------------------
  // File names
  // ---------------------------------------------------------------------

  predicate IsAlnum(c: char) {
    'a' <= c <= 'z' || 'A' <= c <= 'Z' || '0' <= c <= '9'
  }

  predicate AllAlnum(s: string) {
    forall i :: 0 <= i < |s| ==> IsAlnum(s[i])
  }

  /** The substitution of every character outside [a-zA-Z0-9] by nothing. */
  function KeepAlnum(s: string): (r: string)
    ensures AllAlnum(r)
    ensures |r| <= |s|
  {
    if s == [] then []
    else (if IsAlnum(s[0]) then [s[0]] else []) + KeepAlnum(s[1..])
  }

  /** A character survives exactly when it is in the name and alphanumeric. */
  lemma {:induction false} KeepAlnumMembers(s: string)
    ensures forall c :: c in KeepAlnum(s) <==> c in s && IsAlnum(c)
  {
    if s != [] {
      KeepAlnumMembers(s[1..]);
      assert s == [s[0]] + s[1..];
    }
  }

  /** The filter works character by character: it distributes over concatenation. */
  lemma {:induction false} KeepAlnumAppend(a: string, b: string)
    ensures KeepAlnum(a + b) == KeepAlnum(a) + KeepAlnum(b)
  {
    if a != [] {
      var head := if IsAlnum(a[0]) then [a[0]] else [];
      assert (a + b)[0] == a[0] && (a + b)[1..] == a[1..] + b;
      KeepAlnumAppend(a[1..], b);
      calc {
        KeepAlnum(a + b);
        head + KeepAlnum(a[1..] + b);
        head + (KeepAlnum(a[1..]) + KeepAlnum(b));
        (head + KeepAlnum(a[1..])) + KeepAlnum(b);
        KeepAlnum(a) + KeepAlnum(b);
      }
    } else {
      assert a + b == b;
    }
  }

  /** The filter removes something exactly when there is something to remove. */
  lemma {:induction false} KeepAlnumFixed(s: string)
    ensures KeepAlnum(s) == s <==> AllAlnum(s)
  {
    if s != [] {
      KeepAlnumFixed(s[1..]);
      if !IsAlnum(s[0]) {
        assert |KeepAlnum(s)| < |s|;
      }
    }
  }

  /** sanitize_filename: the alphanumeric characters of the name, in order, cut to at most 100. */
  function SanitizeFilename(filename: string): (r: string)
    ensures AllAlnum(r)
    ensures |r| <= 100
    ensures r <= KeepAlnum(filename)
    ensures |KeepAlnum(filename)| <= 100 ==> r == KeepAlnum(filename)
    ensures |KeepAlnum(filename)| > 100 ==> |r| == 100
  {
    var kept := KeepAlnum(filename);
    if |kept| <= 100 then kept else kept[..100]
  }

  /** A name comes out unchanged exactly when it is already short and alphanumeric. */
  lemma SanitizeFixedPoint(filename: string)
    ensures SanitizeFilename(filename) == filename <==> AllAlnum(filename) && |filename| <= 100
  {
    KeepAlnumFixed(filename);
  }

  /** Sanitizing twice is sanitizing once. */
  lemma SanitizeIdempotent(filename: string)
    ensures SanitizeFilename(SanitizeFilename(filename)) == SanitizeFilename(filename)
  {
    SanitizeFixedPoint(SanitizeFilename(filename));
  }

  /** os.path.join of a folder and a relative name, with POSIX separators. */
  function JoinPath(folder: string, name: string): (p: string)
    ensures |name| <= |p| && p[|p| - |name|..] == name
    ensures |folder| <= |p| && p[..|folder|] == folder
    ensures var sep := folder != [] && folder[|folder| - 1] != '/';
            |p| == |folder| + |name| + (if sep then 1 else 0) && (sep ==> p[|folder|] == '/')
  {
    if folder == [] || folder[|folder| - 1] == '/' then folder + name
    else folder + "/" + name
  }

  /** The pair download_youtube_audio returns: the saved path (None on failure) and a message. */
  datatype DownloadResult = DownloadResult(path: Option<string>, message: string)

  /**
   * download_youtube_audio. The download itself is not modelled: failure is
   * the text of the exception it raised, or None when it completed.
   */
  function DownloadYoutubeAudio(videoUrl: string, videoTitle: string, downloadFolder: string,
                                failure: Option<string>): (r: DownloadResult)
    ensures videoUrl == [] ==> r == DownloadResult(None, "No video URL provided.")
    ensures r.path.Some? <==> videoUrl != [] && failure.None?
    ensures r.path.Some? ==>
              var name := SanitizeFilename(videoTitle);
              var p := r.path.value;
              |name| <= |p| && p[|p| - |name|..] == name && AllAlnum(name) && |name| <= 100
  {
    if videoUrl == [] then DownloadResult(None, "No video URL provided.")
    else
      var filename := JoinPath(downloadFolder, SanitizeFilename(videoTitle));
      match failure
      case None => DownloadResult(Some(filename), videoTitle + " downloaded successfully to " + downloadFolder + ".")
      case Some(error) => DownloadResult(None, "Failed to download " + videoTitle + ". Error: " + error)
  }

  // ---------------------------------------------------------------------
  // Track IDs
  // ---------------------------------------------------------------------

  /** f"{n:02d}": at least two digits, zero-padded; a negative number keeps its sign. */
  function Pad2(n: int): (s: string)
    ensures 0 <= n ==> 2 <= |s| && AllDigits(s) && DigitsValue(s) == n
    ensures 0 <= n ==> |s| == 2 || s[0] != '0'
    ensures n < 0 ==> s == IntToString(n)
  {
    if 0 <= n < 10 then
      var d := NatToDigits(n);
      DigitsRoundTrip(n);
      LeadingZero(d);
      "0" + d
    else
      DigitsRoundTrip(if n < 0 then 0 else n);
      IntToString(n)
  }

  /** The rows after the one next(reader, None) skips. */
  function AfterHeader(rows: seq<Row>): (r: seq<Row>)
    ensures rows == [] ==> r == []
    ensures rows != [] ==> [rows[0]] + r == rows
  {
    if rows == [] then [] else rows[1..]
  }

  /** The comprehension's filter: a non-empty row whose first field starts with "0". */
  predicate Counted(row: Row) {
    row != [] && row[0] != [] && row[0][0] == '0'
  }

  /** The text int() is applied to for every counted row, in file order. */
  function CountedFields(data: seq<Row>): (r: seq<string>)
    ensures |r| <= |data|
  {
    if data == [] then []
    else
      var last := data[|data| - 1];
      CountedFields(data[..|data| - 1]) + (if Counted(last) then [last[0][1..]] else [])
  }

  /** int() of every field; None when any of them raises ValueError. */
  function ParseAll(fields: seq<string>): (r: Option<seq<int>>)
    ensures r.Some? ==> |r.value| == |fields|
  {
    if fields == [] then Some([])
    else
      var init := ParseAll(fields[..|fields| - 1]);
      var last := ParseInt(fields[|fields| - 1]);
      if init.None? || last.None? then None else Some(init.value + [last.value])
  }

  /** The list is built exactly when no field raises, and holds int() of each field in order. */
  lemma {:induction false} ParseAllSpec(fields: seq<string>)
    ensures ParseAll(fields).Some? <==> forall i :: 0 <= i < |fields| ==> ParseInt(fields[i]).Some?
    ensures ParseAll(fields).Some? ==>
              forall i :: 0 <= i < |fields| ==> ParseInt(fields[i]) == Some(ParseAll(fields).value[i])
  {
    if fields != [] {
      var init := fields[..|fields| - 1];
      ParseAllSpec(init);
      assert forall i :: 0 <= i < |init| ==> init[i] == fields[i];
    }
  }

  /** max(ids, default=0). */
  function MaxOrZero(ids: seq<int>): (m: int)
    ensures ids == [] ==> m == 0
    ensures ids != [] ==> m in ids
    ensures forall x :: x in ids ==> x <= m
  {
    if ids == [] then 0
    else
      var rest := MaxOrZero(ids[..|ids| - 1]);
      var last := ids[|ids| - 1];
      assert ids == ids[..|ids| - 1] + [last];
      if |ids| == 1 || rest < last then last else rest
  }

  /** The ids get_next_track_id counts in a file, or None when one of them raises. */
  function CountedIds(rows: seq<Row>): (r: Option<seq<int>>)
    ensures r.Some? ==> |r.value| < |rows| || rows == []
  {
    ParseAll(CountedFields(AfterHeader(rows)))
  }

  /**
   * get_next_track_id: 1 for a file that does not exist; otherwise one more
   * than the largest counted id (1 when none is counted), or None when int()
   * raises on a counted field.
   */
  function NextTrackId(contents: Option<seq<Row>>): (r: Option<int>)
    ensures contents.None? ==> r == Some(1)
    ensures contents.Some? ==> (r.None? <==> CountedIds(contents.value).None?)
  {
    match contents
    case None => Some(1)
    case Some(rows) =>
      match CountedIds(rows)
      case None => None
      case Some(ids) => Some(MaxOrZero(ids) + 1)
  }

  /**
   * An allocated id is above every counted id, and is one more than one of
   * them; it is 1 when no id is counted.
   */
  lemma NextTrackIdBounds(rows: seq<Row>)
    requires NextTrackId(Some(rows)).Some?
    ensures var ids := CountedIds(rows).value;
            var r := NextTrackId(Some(rows)).value;
            (forall x :: x in ids ==> x < r) &&
            (ids == [] ==> r == 1) &&
            (ids != [] ==> r - 1 in ids)
  {
  }

  lemma CountedFieldsAppend(data: seq<Row>, row: Row)
    ensures CountedFields(data + [row]) == CountedFields(data) + (if Counted(row) then [row[0][1..]] else [])
  {
    assert (data + [row])[..|data|] == data;
  }

  /** A zero-padded id reads back through the filter exactly when it is a single digit. */
  lemma Pad2Rescan(n: int)
    ensures Counted([Pad2(n)]) <==> 0 <= n <= 9
    ensures 0 <= n <= 9 ==> ParseInt(Pad2(n)[1..]) == Some(n)
  {
    var s := Pad2(n);
    if 0 <= n <= 9 {
      assert s[1..] == NatToDigits(n);
      DigitsRoundTrip(n);
    } else if n >= 10 {
      assert s == NatToDigits(n);
    }
  }

  /** The row write_to_csv appends. */
  function SongRow(trackId: string, idNumber: int, songName: string, singer: string, filePath: string,
                   rating: int, plays: int): (r: Row)
    ensures |r| == |Header| && r[0] == trackId
    ensures 0 <= idNumber ==> AllDigits(r[1])
  {
    [trackId, IntToString(idNumber), songName, singer, filePath + ".mp3", IntToString(rating), IntToString(plays)]
  }

  /** The file once opened for appending: the header is written first when it was absent or empty. */
  function RowsBeforeAppend(contents: Option<seq<Row>>): (r: seq<Row>)
    ensures contents.None? || contents.value == [] ==> r == [Header]
    ensures contents.Some? && contents.value != [] ==> r == contents.value
  {
    if contents.None? || contents.value == [] then [Header] else contents.value
  }

  lemma AfterHeaderAppend(rows: seq<Row>, row: Row)
    requires rows != []
    ensures AfterHeader(rows + [row]) == AfterHeader(rows) + [row]
  {
  }

  lemma ParseAllAppend(fields: seq<string>, field: string)
    ensures ParseAll(fields + [field]) ==
            if ParseAll(fields).None? || ParseInt(field).None? then None
            else Some(ParseAll(fields).value + [ParseInt(field).value])
  {
    assert (fields + [field])[..|fields|] == fields;
  }

  lemma MaxOrZeroAppend(ids: seq<int>, x: int)
    ensures MaxOrZero(ids + [x]) == if ids == [] || MaxOrZero(ids) < x then x else MaxOrZero(ids)
  {
    assert (ids + [x])[..|ids|] == ids;
  }

  /** Appending a row changes the counted ids only through that row's first field. */
  lemma CountedIdsAppend(rows: seq<Row>, row: Row)
    requires rows != []
    ensures !Counted(row) ==> CountedIds(rows + [row]) == CountedIds(rows)
    ensures Counted(row) ==>
              (CountedIds(rows + [row]) ==
               if CountedIds(rows).None? || ParseInt(row[0][1..]).None? then None
               else Some(CountedIds(rows).value + [ParseInt(row[0][1..]).value]))
  {
    AfterHeaderAppend(rows, row);
    CountedFieldsAppend(AfterHeader(rows), row);
    var fields := CountedFields(AfterHeader(rows));
    if Counted(row) {
      ParseAllAppend(fields, row[0][1..]);
    } else {
      assert fields + [] == fields;
    }
  }

  /** The allocation depends on the file only through the ids it counts. */
  lemma SameCountedIds(rows: seq<Row>, rows': seq<Row>)
    requires CountedIds(rows) == CountedIds(rows')
    ensures NextTrackId(Some(rows)) == NextTrackId(Some(rows'))
  {
  }

  /** A counted row carrying the newest id moves the allocation on by one. */
  lemma AppendCounted(rows: seq<Row>, row: Row, n: int)
    requires rows != [] && NextTrackId(Some(rows)) == Some(n)
    requires Counted(row) && ParseInt(row[0][1..]) == Some(n)
    ensures NextTrackId(Some(rows + [row])) == Some(n + 1)
  {
    CountedIdsAppend(rows, row);
    MaxOrZeroAppend(CountedIds(rows).value, n);
  }

  /** While ids stay single-digit, each allocation is one more than the last. */
  lemma AllocationAdvances(rows: seq<Row>, row: Row, n: int)
    requires rows != [] && NextTrackId(Some(rows)) == Some(n) && 1 <= n <= 9
    requires row != [] && row[0] == Pad2(n)
    ensures NextTrackId(Some(rows + [row])) == Some(n + 1)
  {
    Pad2Rescan(n);
    AppendCounted(rows, row, n);
  }

  /**
   * From ten on, a written id is not counted again: the next allocation
   * hands out the same id once more.
   */
  lemma AllocationRepeatsFromTen(rows: seq<Row>, row: Row, n: int)
    requires rows != [] && NextTrackId(Some(rows)) == Some(n) && n >= 10
    requires row != [] && row[0] == Pad2(n)
    ensures NextTrackId(Some(rows + [row])) == Some(n)
  {
    Pad2Rescan(n);
    assert !Counted(row);
    CountedIdsAppend(rows, row);
    SameCountedIds(rows + [row], rows);
  }

  /** A first field of exactly "0" makes int("") raise, so no id is allocated. */
  lemma ZeroFieldRaises(rows: seq<Row>, row: Row)
    requires rows != [] && row != [] && row[0] == "0"
    ensures NextTrackId(Some(rows + [row])).None?
  {
    assert Counted(row) && row[0][1..] == [];
    CountedIdsAppend(rows, row);
  }

  /** A file holding only its header row counts no id. */
  lemma HeaderOnlyCountsNothing(header: Row)
    ensures CountedIds([header]) == Some([])
  {
    assert AfterHeader([header]) == [];
  }

  /** A file holding its header and one counted row allocates one more than that row's id. */
  lemma SingleCountedRow(header: Row, first: Row, v: int)
    requires Counted(first) && ParseInt(first[0][1..]) == Some(v)
    ensures NextTrackId(Some([header, first])) == Some(v + 1)
  {
    CountedIdsAppend([header], first);
    HeaderOnlyCountsNothing(header);
    MaxOrZeroAppend([], v);
    assert [header] + [first] == [header, first];
  }

  /** After a track "09" the next id is 10. */
  lemma NineGivesTen(rows: seq<Row>)
    requires rows == [Header, ["09", "0", "a", "b", "a.mp3", "3", "0"]]
    ensures NextTrackId(Some(rows)) == Some(10)
  {
    var first := rows[1];
    assert Counted(first) && first[0][1..] == "9";
    assert ParseInt("9") == Some(9) by {
      assert DigitsValue("9") == 9 by { assert "9"[..0] == []; }
    }
    SingleCountedRow(rows[0], first, 9);
    assert rows == [rows[0], first];
  }

  lemma TenPadded()
    ensures Pad2(10) == "10"
  {
    assert NatToDigits(10) == NatToDigits(1) + [DigitChar(0)];
  }

  /** A file whose last track is "09" gets "10" twice in a row. */
  lemma DuplicateTrackIdExample()
    ensures var rows := [Header, ["09", "0", "a", "b", "a.mp3", "3", "0"]];
            var row := SongRow(Pad2(10), 1, "c", "d", "c", 4, 0);
            NextTrackId(Some(rows)) == Some(10) &&
            NextTrackId(Some(rows + [row])) == Some(10) && row[0] == "10"
  {
    var rows := [Header, ["09", "0", "a", "b", "a.mp3", "3", "0"]];
    var row := SongRow(Pad2(10), 1, "c", "d", "c", 4, 0);
    NineGivesTen(rows);
    TenPadded();
    AllocationRepeatsFromTen(rows, row, 10);
  }

  /** A counted first field with a minus sign makes the next id negative. */
  lemma NegativeTrackIdExample()
    ensures NextTrackId(Some([Header, ["0-5"]])) == Some(-4)
  {
    var first := ["0-5"];
    assert Counted(first) && first[0][1..] == "-5";
    assert ParseInt("-5") == Some(-5) by {
      assert "-5"[1..] == "5";
      assert DigitsValue("5") == 5 by { assert "5"[..0] == []; }
    }
    SingleCountedRow(Header, first, -5);
  }

  // ---------------------------------------------------------------------
  // Fresh Track IDs
  // ---------------------------------------------------------------------

  /** The value of every data row's first field that is a non-empty string of digits. */
  function DigitIds(data: seq<Row>): (r: seq<nat>)
    ensures forall j :: 0 <= j < |data| && data[j] != [] && data[j][0] != [] && AllDigits(data[j][0]) ==>
              DigitsValue(data[j][0]) in r
  {
    if data == [] then []
    else
      var last := data[|data| - 1];
      var rest := DigitIds(data[..|data| - 1]);
      assert forall j :: 0 <= j < |data| - 1 ==> data[..|data| - 1][j] == data[j];
      rest + (if last != [] && last[0] != [] && AllDigits(last[0]) then [DigitsValue(last[0])] else [])
  }

  /**
   * The allocation get_next_track_id evidently intends: one more than the
   * largest Track ID of any width, reading every all-digit first field.
   */
  function NextFreeTrackId(contents: Option<seq<Row>>): (r: int)
    ensures 1 <= r
  {
    match contents
    case None => 1
    case Some(rows) => MaxOrZero(DigitIds(AfterHeader(rows))) + 1
  }

  /** The intended allocation never repeats the Track ID of a data row already in the file. */
  lemma NextFreeTrackIdIsFresh(contents: Option<seq<Row>>)
    ensures contents.Some? ==>
              forall j :: 1 <= j < |contents.value| && contents.value[j] != [] ==>
                contents.value[j][0] != Pad2(NextFreeTrackId(contents))
  {
    if contents.Some? {
      var rows := contents.value;
      var data := AfterHeader(rows);
      var r := NextFreeTrackId(contents);
      forall j | 1 <= j < |rows| && rows[j] != []
        ensures rows[j][0] != Pad2(r)
      {
        assert rows[j] == data[j - 1];
      }
    }
  }

  // ---------------------------------------------------------------------
  // Appending the row
  // ---------------------------------------------------------------------

  /** The count of lines in the file, one per row; 0 when it does not exist. */
  method CountLines(file: SongsFile) returns (count: nat)
    ensures count == if file.contents.None? then 0 else |file.contents.value|
  {
    count := 0;
    if file.contents.Some? {
      var rows := file.contents.value;
      var i := 0;
      while i < |rows|
        invariant 0 <= i <= |rows| && count == i
      {
        count := count + 1;
        i := i + 1;
      }
    }
  }

  /**
   * The part of write_to_csv after the id is chosen: the ID column is the line
   * count minus one (0 up to one line), and one row is appended, after the
   * header when the file was absent or empty.
   */
  method AppendSong(file: SongsFile, trackId: string, songName: string, singer: string, filePath: string,
                    rating: int, plays: int)
    modifies file
    ensures var before := RowsBeforeAppend(old(file.contents));
            file.contents == Some(before + [SongRow(trackId, |before| - 1, songName, singer, filePath, rating, plays)])
  {
    var rowCount := CountLines(file);
    var idNumber := if rowCount > 1 then rowCount - 1 else 0;
    var rows := RowsBeforeAppend(file.contents);
    file.contents := Some(rows + [SongRow(trackId, idNumber, songName, singer, filePath, rating, plays)]);
  }

  /**
   * write_to_csv of the downloader: the id is allocated by get_next_track_id
   * and zero-padded. When int() raises during allocation nothing is written
   * and the result is false.
   */
  method WriteToCsv(file: SongsFile, songName: string, singer: string, filePath: string, rating: int, plays: int)
    returns (written: bool)
    modifies file
    ensures written <==> NextTrackId(old(file.contents)).Some?
    ensures !written ==> file.contents == old(file.contents)
    ensures written ==>
              var before := RowsBeforeAppend(old(file.contents));
              var trackId := Pad2(NextTrackId(old(file.contents)).value);
              file.contents == Some(before + [SongRow(trackId, |before| - 1, songName, singer, filePath, rating, plays)])
  {
    var next := NextTrackId(file.contents);
    if next.None? {
      return false;
    }
    AppendSong(file, Pad2(next.value), songName, singer, filePath, rating, plays);
    written := true;
  }

  /** write_to_csv with the intended allocation: the new Track ID is new to the file. */
  method WriteToCsvFreshId(file: SongsFile, songName: string, singer: string, filePath: string, rating: int, plays: int)
    modifies file
    ensures var before := RowsBeforeAppend(old(file.contents));
            var trackId := Pad2(NextFreeTrackId(old(file.contents)));
            file.contents == Some(before + [SongRow(trackId, |before| - 1, songName, singer, filePath, rating, plays)])
    ensures forall j :: 1 <= j < |file.contents.value| - 1 && file.contents.value[j] != [] ==>
              file.contents.value[j][0] != file.contents.value[|file.contents.value| - 1][0]
  {
    NextFreeTrackIdIsFresh(file.contents);
    AppendSong(file, Pad2(NextFreeTrackId(file.contents)), songName, singer, filePath, rating, plays);
  }
}
