/**
 * The track catalog: the module-level dictionary of tracks keyed by Track ID,
 * loaded in full from songs_list.csv, queried, changed field by field and
 * written back in full.
 */
module TrackLibrary {

  import opened Options
  import opened Decimal
  import opened SongsCsv
  import opened LibraryItem

  predicate NoDuplicates(s: seq<string>) {
    forall i, j :: 0 <= i < j < |s| ==> s[i] != s[j]
  }

  /**
   * The contents of the dictionary: its keys in insertion order (the order
   * a Python dict iterates in) and the item stored under each key.
   */
  datatype Catalog = Catalog(order: seq<string>, items: map<string, Item>) {

    /** The order lists every key of the dictionary exactly once. */
    ghost predicate Valid() {
      NoDuplicates(order) && forall k :: k in order <==> k in items
    }

    /** library[key] = item: a new key goes last, an existing key keeps its place. */
    function Put(key: string, item: Item): (r: Catalog)
      ensures r.items == items[key := item]
      ensures key in items ==> r.order == order
      ensures key !in items ==> r.order == order + [key]
      ensures order <= r.order && |r.order| <= |order| + 1
    {
      if key in items then Catalog(order, items[key := item])
      else Catalog(order + [key], items[key := item])
    }
  }

  const Empty := Catalog([], map[])

  lemma PutValid(c: Catalog, key: string, item: Item)
    requires c.Valid()
    ensures c.Put(key, item).Valid()
    ensures c.Put(key, item).items[key] == item
    ensures forall k :: k in c.items && k != key ==> c.Put(key, item).items[k] == c.items[k]
  {
  }

  // ---------------------------------------------------------------------
  // Loading: one data row after another, as csv.DictReader yields them
  // ---------------------------------------------------------------------

  /** What one row of the file turns into. */
  datatype RowOutcome =
    | Blank               // an empty row, which DictReader skips
    | Broken              // a KeyError on a column, or int() failing on Rating or Plays
    | Parsed(item: Item)

  /** The text of a cell; a cell missing from a short row (Python None) is read as the empty string. */
  function TextOf(c: Cell): string {
    if c.Text? then c.text else ""
  }

  /** int() of a cell: None when the column is missing or the text is not an integer. */
  function IntOf(c: Cell): Option<int> {
    if c.Text? then ParseInt(c.text) else None
  }

  /** The Track ID a non-empty row is stored under. */
  function RowKey(header: Row, row: Row): string {
    TextOf(CellOf(header, row, "Track ID"))
  }

  /** The body of the loading loop for one row. */
  function ParseRow(header: Row, row: Row): (r: RowOutcome)
    ensures r.Blank? <==> row == []
    ensures r.Parsed? ==> r.item.trackId == RowKey(header, row)
  {
    if row == [] then Blank
    else
      var trackId := CellOf(header, row, "Track ID");
      var name := CellOf(header, row, "Name");
      var artist := CellOf(header, row, "Singer");
      var source := CellOf(header, row, "File Path");
      var rating := IntOf(CellOf(header, row, "Rating"));
      var playCount := IntOf(CellOf(header, row, "Plays"));
      if trackId.NoColumn? || name.NoColumn? || artist.NoColumn? || source.NoColumn?
         || rating.None? || playCount.None?
      then Broken
      else Parsed(NewItem(TextOf(trackId), TextOf(name), TextOf(artist), TextOf(source),
                          rating.value, playCount.value))
  }

  /**
   * A non-empty row breaks the load exactly when the header lacks one of the
   * text columns or the Rating or Plays cell is not an integer; otherwise its
   * item carries the row's Track ID.
   */
  lemma ParseRowOutcome(header: Row, row: Row)
    ensures ParseRow(header, row).Blank? <==> row == []
    ensures ParseRow(header, row).Broken? <==>
              row != [] &&
              ("Track ID" !in header || "Name" !in header || "Singer" !in header || "File Path" !in header ||
               IntOf(CellOf(header, row, "Rating")).None? || IntOf(CellOf(header, row, "Plays")).None?)
    ensures ParseRow(header, row).Parsed? ==>
              ParseRow(header, row).item.trackId == RowKey(header, row) &&
              ParseRow(header, row).item.name == TextOf(CellOf(header, row, "Name")) &&
              ParseRow(header, row).item.artist == TextOf(CellOf(header, row, "Singer")) &&
              ParseRow(header, row).item.source == TextOf(CellOf(header, row, "File Path")) &&
              Some(ParseRow(header, row).item.rating) == IntOf(CellOf(header, row, "Rating")) &&
              Some(ParseRow(header, row).item.playCount) == IntOf(CellOf(header, row, "Plays"))
  {
  }

  /** The position of the first row that breaks the load, or |rows| when none does. */
  function FirstBroken(header: Row, rows: seq<Row>): (n: nat)
    ensures n <= |rows|
    ensures n < |rows| ==> ParseRow(header, rows[n]).Broken?
  {
    if rows == [] || ParseRow(header, rows[0]).Broken? then 0
    else 1 + FirstBroken(header, rows[1..])
  }

  /** Cutting the rows just before the first broken one leaves none broken. */
  lemma {:induction false} FirstBrokenPrefix(header: Row, rows: seq<Row>)
    ensures FirstBroken(header, rows[..FirstBroken(header, rows)]) == FirstBroken(header, rows)
  {
    var n := FirstBroken(header, rows);
    if n > 0 {
      FirstBrokenPrefix(header, rows[1..]);
      assert rows[..n][1..] == rows[1..][..n - 1];
    }
  }

  /** No row before the first broken one breaks. */
  lemma {:induction false} FirstBrokenBefore(header: Row, rows: seq<Row>, m: nat)
    requires m < FirstBroken(header, rows)
    ensures !ParseRow(header, rows[m]).Broken?
  {
    if m > 0 {
      FirstBrokenBefore(header, rows[1..], m - 1);
    }
  }

  /** The items the rows produce, in file order, blank and broken rows left out. */
  function Records(header: Row, rows: seq<Row>): seq<Item> {
    if rows == [] then []
    else
      var last := ParseRow(header, rows[|rows| - 1]);
      Records(header, rows[..|rows| - 1]) + (if last.Parsed? then [last.item] else [])
  }

  /** The dictionary after storing each item under its Track ID, one after the other. */
  function Collect(recs: seq<Item>): Catalog {
    if recs == [] then Empty
    else
      var last := recs[|recs| - 1];
      Collect(recs[..|recs| - 1]).Put(last.trackId, last)
  }

  lemma {:induction false} CollectValid(recs: seq<Item>)
    ensures Collect(recs).Valid()
  {
    if recs != [] {
      var last := recs[|recs| - 1];
      CollectValid(recs[..|recs| - 1]);
      PutValid(Collect(recs[..|recs| - 1]), last.trackId, last);
    }
  }

  /** The outcome of a load: what the dictionary holds, and whether no exception was raised. */
  datatype LoadState = LoadState(catalog: Catalog, ok: bool)

  /**
   * Loading a whole file: the first row names the columns (an empty file has
   * none and yields nothing); the rows after it are stored up to the first one
   * that raises.
   */
  function ReadFile(rows: seq<Row>): (r: LoadState)
    ensures rows == [] ==> r.ok && r.catalog == Empty
    ensures r.catalog.Valid()
  {
    if rows == [] then LoadState(Empty, true)
    else
      var data := rows[1..];
      var n := FirstBroken(rows[0], data);
      CollectValid(Records(rows[0], data[..n]));
      LoadState(Collect(Records(rows[0], data[..n])), n == |data|)
  }

  lemma RecordsStep(header: Row, rows: seq<Row>, i: nat)
    requires i < |rows|
    ensures Records(header, rows[..i + 1]) ==
            Records(header, rows[..i]) + (if ParseRow(header, rows[i]).Parsed? then [ParseRow(header, rows[i]).item] else [])
  {
    assert rows[..i + 1][..i] == rows[..i];
  }

  lemma CollectStep(recs: seq<Item>, item: Item)
    ensures Collect(recs + [item]) == Collect(recs).Put(item.trackId, item)
  {
    assert (recs + [item])[..|recs|] == recs;
  }

  lemma FirstBrokenAt(header: Row, rows: seq<Row>, i: nat)
    requires i < |rows| && ParseRow(header, rows[i]).Broken?
    requires i <= FirstBroken(header, rows)
    ensures FirstBroken(header, rows) == i
  {
    if i < FirstBroken(header, rows) {
      FirstBrokenBefore(header, rows, i);
    }
  }

  // ---------------------------------------------------------------------
  // Writing and listing
  // ---------------------------------------------------------------------

  /** The row written for one dictionary entry; the second column is the item's own track id. */
  function RowOf(key: string, item: Item): (r: Row)
    ensures |r| == |Header| && r[0] == key
  {
    [key, item.trackId, item.name, item.artist, item.source, IntToString(item.rating), IntToString(item.playCount)]
  }

  /** The data rows of a catalog, in insertion order. */
  function DataRows(order: seq<string>, items: map<string, Item>): (r: seq<Row>)
    requires forall k :: k in order ==> k in items
    ensures |r| == |order|
  {
    if order == [] then []
    else DataRows(order[..|order| - 1], items) + [RowOf(order[|order| - 1], items[order[|order| - 1]])]
  }

  /** The whole file write_to_csv produces: the header, then one row per key in insertion order. */
  function Serialize(c: Catalog): (r: seq<Row>)
    requires c.Valid()
    ensures |r| == |c.order| + 1 && r[0] == Header
  {
    [Header] + DataRows(c.order, c.items)
  }

  /** The display text list_all writes for one track. */
  function Chunk(item: Item): (r: string)
    ensures 30 <= |r| && r[..6] == "Name: "
  {
    "Name: " + item.name + ", Singer: " + item.artist + ", Rating: " + IntToString(item.rating) + "\n \n"
  }

  /** The text list_all returns. */
  function Listing(order: seq<string>, items: map<string, Item>): (r: string)
    requires forall k :: k in order ==> k in items
    ensures 30 * |order| <= |r|
  {
    if order == [] then ""
    else Listing(order[..|order| - 1], items) + Chunk(items[order[|order| - 1]])
  }

  // ---------------------------------------------------------------------
  // What a load yields
  // ---------------------------------------------------------------------

  /** The Track IDs of a sequence of items, in order. */
  function Ids(recs: seq<Item>): seq<string> {
    if recs == [] then [] else Ids(recs[..|recs| - 1]) + [recs[|recs| - 1].trackId]
  }

  /** The Track ID cell of every non-empty row, in file order. */
  function TrackIdColumn(header: Row, rows: seq<Row>): seq<string> {
    if rows == [] then []
    else
      var last := rows[|rows| - 1];
      TrackIdColumn(header, rows[..|rows| - 1]) + (if last == [] then [] else [RowKey(header, last)])
  }

  /** The position where x first occurs in s. */
  function FirstIndex(s: seq<string>, x: string): (i: nat)
    requires x in s
    ensures i < |s| && s[i] == x
    ensures forall j :: 0 <= j < i ==> s[j] != x
  {
    if s[0] == x then 0 else 1 + FirstIndex(s[1..], x)
  }

  /** recs[i] is the last item carrying Track ID k. */
  ghost predicate IsLastWith(recs: seq<Item>, i: int, k: string) {
    0 <= i < |recs| && recs[i].trackId == k &&
    forall j :: i < j < |recs| ==> recs[j].trackId != k
  }

  /** Every key occurs in ids, and the keys come in the order of their first occurrence there. */
  ghost predicate OrderedByFirstOccurrence(order: seq<string>, ids: seq<string>) {
    (forall k :: k in order ==> k in ids) &&
    forall p, q :: 0 <= p < q < |order| ==>
      order[p] in ids && order[q] in ids && FirstIndex(ids, order[p]) < FirstIndex(ids, order[q])
  }

  /** The keys of the dictionary are exactly the Track IDs of the stored items. */
  lemma {:induction false} CollectKeys(recs: seq<Item>)
    ensures forall k :: k in Collect(recs).items <==> k in Ids(recs)
  {
    if recs != [] {
      CollectKeys(recs[..|recs| - 1]);
    }
  }

  /** Every item is stored under its own Track ID. */
  lemma {:induction false} CollectKeyed(recs: seq<Item>)
    ensures forall k :: k in Collect(recs).items ==> Collect(recs).items[k].trackId == k
  {
    if recs != [] {
      CollectKeyed(recs[..|recs| - 1]);
    }
  }

  /** For a repeated Track ID, the item kept is the one from the last row. */
  lemma {:induction false} CollectLastWins(recs: seq<Item>, k: string)
    requires k in Collect(recs).items
    ensures exists i :: IsLastWith(recs, i, k) && Collect(recs).items[k] == recs[i]
  {
    var n := |recs| - 1;
    var init := recs[..n];
    if recs[n].trackId == k {
      assert IsLastWith(recs, n, k);
    } else {
      assert Collect(recs).items[k] == Collect(init).items[k];
      CollectLastWins(init, k);
      var i :| IsLastWith(init, i, k) && Collect(init).items[k] == init[i];
      assert IsLastWith(recs, i, k);
    }
  }

  lemma FirstIndexExtend(s: seq<string>, y: string, x: string)
    requires x in s
    ensures x in s + [y] && FirstIndex(s + [y], x) == FirstIndex(s, x)
  {
    var i := FirstIndex(s, x);
    assert (s + [y])[i] == x;
  }

  /**
   * A repeated Track ID keeps the place of its first occurrence: the keys
   * come in the order in which their Track IDs first appear.
   */
  lemma {:induction false} CollectFirstOccurrenceOrder(recs: seq<Item>)
    ensures OrderedByFirstOccurrence(Collect(recs).order, Ids(recs))
  {
    if recs != [] {
      var n := |recs| - 1;
      var init := recs[..n];
      var key := recs[n].trackId;
      var prev := Collect(init);
      var c := Collect(recs);
      var ids := Ids(recs);
      CollectFirstOccurrenceOrder(init);
      CollectKeys(init);
      var before := Ids(init);
      assert ids == before + [key];
      if key in prev.items {
        assert c.order == prev.order;
      } else {
        assert c.order == prev.order + [key];
        assert key !in before;
        assert ids[|before|] == key;
        assert FirstIndex(ids, key) == |before|;
      }
      forall p, q | 0 <= p < q < |c.order|
        ensures FirstIndex(ids, c.order[p]) < FirstIndex(ids, c.order[q])
      {
        var x := prev.order[p];
        assert c.order[p] == x && x in before;
        FirstIndexExtend(before, key, x);
        if q < |prev.order| {
          var y := prev.order[q];
          assert c.order[q] == y && y in before;
          FirstIndexExtend(before, key, y);
          assert OrderedByFirstOccurrence(prev.order, before);
          assert FirstIndex(before, x) < FirstIndex(before, y);
        } else {
          assert c.order[q] == key;
        }
      }
    }
  }

  /** As long as no row breaks, the stored items carry the Track ID column of the non-empty rows. */
  lemma {:induction false} RecordsIds(header: Row, rows: seq<Row>)
    requires forall m :: 0 <= m < |rows| ==> !ParseRow(header, rows[m]).Broken?
    ensures Ids(Records(header, rows)) == TrackIdColumn(header, rows)
  {
    if rows != [] {
      var n := |rows| - 1;
      var init := rows[..n];
      assert forall m :: 0 <= m < |init| ==> init[m] == rows[m];
      RecordsIds(header, init);
      ParseRowOutcome(header, rows[n]);
      var last := ParseRow(header, rows[n]);
      var before := Records(header, init);
      if last.Parsed? {
        assert Records(header, rows) == before + [last.item];
        assert (before + [last.item])[..|before|] == before;
      } else {
        assert Records(header, rows) == before;
      }
    }
  }

  /** A load completes exactly when no data row breaks it. */
  lemma ReadFileOk(rows: seq<Row>)
    requires rows != []
    ensures ReadFile(rows).ok <==> forall m :: 1 <= m < |rows| ==> !ParseRow(rows[0], rows[m]).Broken?
  {
    var data := rows[1..];
    if !ReadFile(rows).ok {
      var n := FirstBroken(rows[0], data);
      assert rows[n + 1] == data[n];
    } else {
      forall m | 1 <= m < |rows|
        ensures !ParseRow(rows[0], rows[m]).Broken?
      {
        assert rows[m] == data[m - 1];
        FirstBrokenBefore(rows[0], data, m - 1);
      }
    }
  }

  /**
   * A failed load leaves the dictionary exactly as a completed load of the
   * file cut just before the first row that breaks.
   */
  lemma FailedLoadKeepsPrefix(rows: seq<Row>)
    requires rows != [] && !ReadFile(rows).ok
    ensures exists n :: 1 <= n < |rows| && ParseRow(rows[0], rows[n]).Broken? &&
                        ReadFile(rows[..n]) == LoadState(ReadFile(rows).catalog, true)
  {
    var header, data := rows[0], rows[1..];
    var b := FirstBroken(header, data);
    assert rows[..b + 1] == [header] + data[..b];
    FirstBrokenPrefix(header, data);
    ReadCompleteFile(header, data[..b]);
    assert data[..b][..b] == data[..b];
    assert rows[b + 1] == data[b];
  }

  /**
   * A completed load keeps exactly the Track IDs of the non-empty data rows,
   * each once, in the order of their first row, with the item of their last row.
   */
  lemma LoadedCatalog(rows: seq<Row>)
    requires rows != [] && ReadFile(rows).ok
    ensures var c := ReadFile(rows).catalog;
            var column := TrackIdColumn(rows[0], rows[1..]);
            (forall k :: k in c.items <==> k in column) &&
            OrderedByFirstOccurrence(c.order, column)
    ensures var c := ReadFile(rows).catalog;
            var recs := Records(rows[0], rows[1..]);
            forall k :: k in c.items ==> exists i :: IsLastWith(recs, i, k) && c.items[k] == recs[i]
  {
    var header, data := rows[0], rows[1..];
    var recs := Records(header, data);
    assert data[..|data|] == data;
    var c := ReadFile(rows).catalog;
    assert c == Collect(recs);
    ReadFileOk(rows);
    assert forall m :: 0 <= m < |data| ==> data[m] == rows[m + 1];
    RecordsIds(header, data);
    CollectKeys(recs);
    CollectFirstOccurrenceOrder(recs);
    forall k | k in c.items
      ensures exists i :: IsLastWith(recs, i, k) && c.items[k] == recs[i]
    {
      CollectLastWins(recs, k);
    }
  }

  // ---------------------------------------------------------------------
  // Load after write
  // ---------------------------------------------------------------------

  /** The header names each column once, so DictReader finds every column where the writer put it. */
  lemma HeaderColumns()
    ensures LastIndexOf(Header, "Track ID") == Some(0)
    ensures LastIndexOf(Header, "Name") == Some(2)
    ensures LastIndexOf(Header, "Singer") == Some(3)
    ensures LastIndexOf(Header, "File Path") == Some(4)
    ensures LastIndexOf(Header, "Rating") == Some(5)
    ensures LastIndexOf(Header, "Plays") == Some(6)
  {
    assert Header[0] == "Track ID" && Header[2] == "Name" && Header[3] == "Singer";
    assert Header[4] == "File Path" && Header[5] == "Rating" && Header[6] == "Plays";
  }

  /** No column name appears twice in the written header. */
  lemma HeaderDistinct()
    ensures NoDuplicates(Header)
  {
    forall i, j | 0 <= i < j < |Header|
      ensures Header[i] != Header[j]
    {
      assert Header[i][0] != Header[j][0] || |Header[i]| != |Header[j]|;
    }
  }

  /** A written row reads back as the item, stored under the key it was written for. */
  lemma ParseRowOf(key: string, item: Item)
    ensures ParseRow(Header, RowOf(key, item)) == Parsed(item.(trackId := key))
  {
    HeaderColumns();
    ParseIntRoundTrip(item.rating);
    ParseIntRoundTrip(item.playCount);
  }

  /** The items written for the keys in order, each carrying its key as Track ID. */
  function Rekeyed(order: seq<string>, items: map<string, Item>): seq<Item>
    requires forall k :: k in order ==> k in items
  {
    if order == [] then []
    else
      var key := order[|order| - 1];
      Rekeyed(order[..|order| - 1], items) + [items[key].(trackId := key)]
  }

  lemma {:induction false} DataRowsReadBack(order: seq<string>, items: map<string, Item>)
    requires forall k :: k in order ==> k in items
    ensures FirstBroken(Header, DataRows(order, items)) == |order|
    ensures Records(Header, DataRows(order, items)) == Rekeyed(order, items)
  {
    if order != [] {
      var n := |order| - 1;
      var init := order[..n];
      var rows := DataRows(order, items);
      var before := DataRows(init, items);
      DataRowsReadBack(init, items);
      ParseRowOf(order[n], items[order[n]]);
      assert rows == before + [RowOf(order[n], items[order[n]])];
      assert rows[..n] == before;
      forall m | 0 <= m < |rows|
        ensures !ParseRow(Header, rows[m]).Broken?
      {
        if m < n {
          assert rows[m] == before[m];
          FirstBrokenBefore(Header, before, m);
        }
      }
    }
  }

  lemma {:induction false} CollectRekeyed(order: seq<string>, items: map<string, Item>)
    requires NoDuplicates(order)
    requires forall k :: k in order ==> k in items
    ensures Collect(Rekeyed(order, items)) == Catalog(order, map k | k in order :: items[k].(trackId := k))
  {
    if order != [] {
      var n := |order| - 1;
      var init := order[..n];
      var key := order[n];
      var recs := Rekeyed(order, items);
      var before := Rekeyed(init, items);
      assert recs == before + [items[key].(trackId := key)];
      assert recs[..|before|] == before;
      CollectRekeyed(init, items);
      assert key !in init;
      assert init + [key] == order;
    }
  }

  /**
   * Round trip: loading what write_to_csv wrote gives back every key in the
   * same order, with each item's name, artist, source, rating and play count;
   * the item's track id becomes its key.
   */
  lemma LoadAfterWrite(c: Catalog)
    requires c.Valid()
    ensures ReadFile(Serialize(c)) == LoadState(Catalog(c.order, map k | k in c.items :: c.items[k].(trackId := k)), true)
    ensures (forall k :: k in c.items ==> c.items[k].trackId == k) ==> ReadFile(Serialize(c)) == LoadState(c, true)
  {
    ReadSerialized(c);
    CollectRekeyed(c.order, c.items);
    RekeyedMaps(c.order, c.items);
  }

  lemma ReadSerialized(c: Catalog)
    requires c.Valid()
    ensures ReadFile(Serialize(c)) == LoadState(Collect(Rekeyed(c.order, c.items)), true)
  {
    DataRowsReadBack(c.order, c.items);
    ReadCompleteFile(Header, DataRows(c.order, c.items));
  }

  lemma ReadCompleteFile(header: Row, data: seq<Row>)
    requires FirstBroken(header, data) == |data|
    ensures ReadFile([header] + data) == LoadState(Collect(Records(header, data)), true)
  {
    var rows := [header] + data;
    assert rows[0] == header && rows[1..] == data;
    assert data[..|data|] == data;
  }

  lemma RekeyedMaps(order: seq<string>, items: map<string, Item>)
    requires forall k :: k in order <==> k in items
    ensures (map k | k in order :: items[k].(trackId := k)) == (map k | k in items :: items[k].(trackId := k))
    ensures (forall k :: k in items ==> items[k].trackId == k) ==> (map k | k in items :: items[k].(trackId := k)) == items
  {
  }

  // ---------------------------------------------------------------------
  // Listing
  // ---------------------------------------------------------------------

  /** The listing is empty exactly when the library is. */
  lemma ListingEmpty(order: seq<string>, items: map<string, Item>)
    requires forall k :: k in order ==> k in items
    ensures Listing(order, items) == "" <==> order == []
  {
    if order != [] {
      var last := items[order[|order| - 1]];
      assert Chunk(last)[0] == 'N';
    }
  }

  // ---------------------------------------------------------------------
  // The store
  // ---------------------------------------------------------------------

  class Library {
    var order: seq<string>
    var items: map<string, Item>
    const file: SongsFile

    /** The catalog invariant, and every item stored under its own track id. */
    ghost predicate Valid()
      reads this
    {
      Catalog(order, items).Valid() && forall k :: k in items ==> items[k].trackId == k
    }

    /** The module starts with an empty dictionary; the file is whatever is on disk. */
    constructor (file: SongsFile)
      ensures Valid()
      ensures order == [] && items == map[] && this.file == file
    {
      order, items := [], map[];
      this.file := file;
    }

    /**
     * load_songs_from_csv. When the file cannot be opened nothing is cleared
     * and the result is empty. Otherwise the dictionary is cleared and refilled
     * row by row; a row that raises stops the load, leaving the rows before it
     * stored, and the result is then empty.
     */
    method LoadSongsFromCsv() returns (r: Catalog)
      requires Valid()
      modifies this
      ensures Valid()
      ensures file.contents.None? ==> order == old(order) && items == old(items) && r == Empty
      ensures file.contents.Some? ==>
        var s := ReadFile(file.contents.value);
        Catalog(order, items) == s.catalog && r == (if s.ok then s.catalog else Empty)
    {
      if file.contents.None? {
        return Empty;
      }
      var rows := file.contents.value;
      order, items := [], map[];
      if rows == [] {
        return Empty;
      }
      var header, data := rows[0], rows[1..];
      var i := 0;
      var ok := true;
      while i < |data| && ok
        invariant 0 <= i <= |data|
        invariant ok ==> i <= FirstBroken(header, data)
        invariant ok ==> Catalog(order, items) == Collect(Records(header, data[..i]))
        invariant !ok ==> 0 < i && FirstBroken(header, data) == i - 1
        invariant !ok ==> Catalog(order, items) == Collect(Records(header, data[..i - 1]))
        decreases |data| - i, ok
      {
        var outcome := ParseRow(header, data[i]);
        RecordsStep(header, data, i);
        match outcome {
          case Blank =>
            assert Records(header, data[..i]) + [] == Records(header, data[..i]);
          case Broken =>
            FirstBrokenAt(header, data, i);
            ok := false;
          case Parsed(item) =>
            CollectStep(Records(header, data[..i]), item);
            var c := Catalog(order, items).Put(item.trackId, item);
            order, items := c.order, c.items;
        }
        i := i + 1;
      }
      ghost var stored := Records(header, data[..FirstBroken(header, data)]);
      if ok {
        assert data[..i] == data;
      }
      assert Catalog(order, items) == Collect(stored);
      CollectValid(stored);
      CollectKeyed(stored);
      r := if ok then Catalog(order, items) else Empty;
    }

    /** list_all: the chunks of every track, in insertion order; "" for an empty library. */
    method ListAll() returns (s: string)
      requires Valid()
      ensures s == Listing(order, items)
    {
      s := "";
      var i := 0;
      while i < |order|
        invariant 0 <= i <= |order|
        invariant s == Listing(order[..i], items)
      {
        assert order[..i + 1][..i] == order[..i];
        s := s + Chunk(items[order[i]]);
        i := i + 1;
      }
      assert order[..i] == order;
    }

    /** get_name: None for an absent key. */
    function GetName(key: string): (r: Option<string>)
      reads this
      ensures r.Some? <==> key in items
      ensures r.Some? ==> r.value == items[key].name
    {
      if key in items then Some(items[key].name) else None
    }

    /** get_artist: None for an absent key. */
    function GetArtist(key: string): (r: Option<string>)
      reads this
      ensures r.Some? <==> key in items
      ensures r.Some? ==> r.value == items[key].artist
    {
      if key in items then Some(items[key].artist) else None
    }

    /** get_music_source: None for an absent key. */
    function GetMusicSource(key: string): (r: Option<string>)
      reads this
      ensures r.Some? <==> key in items
      ensures r.Some? ==> r.value == items[key].source
    {
      if key in items then Some(items[key].source) else None
    }

    /** get_rating: -1 for an absent key, the stored rating (whatever it is) otherwise. */
    function GetRating(key: string): (r: int)
      reads this
      ensures key !in items ==> r == -1
      ensures key in items ==> r == items[key].rating
    {
      if key in items then items[key].rating else -1
    }

    /** get_play_count: -1 for an absent key (the KeyError is caught). */
    function GetPlayCount(key: string): (r: int)
      reads this
      ensures key !in items ==> r == -1
      ensures key in items ==> r == items[key].playCount
    {
      if key in items then items[key].playCount else -1
    }

    /** get_track_by_id: dict.get, None for an absent key. */
    function GetTrackById(key: string): (r: Option<Item>)
      reads this
      ensures r.Some? <==> key in items
      ensures r.Some? ==> r.value == items[key]
    {
      if key in items then Some(items[key]) else None
    }

    /** list_all_tracks: the whole dictionary. */
    function ListAllTracks(): (r: Catalog)
      reads this
      requires Valid()
      ensures r.Valid()
      ensures r.order == order && r.items == items
    {
      Catalog(order, items)
    }

    /** increment_play_count: one more play for a present key, in memory only; nothing for an absent one. */
    method IncrementPlayCount(key: string)
      requires Valid()
      modifies this
      ensures Valid()
      ensures order == old(order)
      ensures key in old(items) ==> items == old(items)[key := old(items)[key].(playCount := old(items)[key].playCount + 1)]
      ensures key !in old(items) ==> items == old(items)
      ensures key in old(items) ==> GetPlayCount(key) == old(GetPlayCount(key)) + 1
    {
      if key in items {
        var item := items[key];
        items := items[key := item.(playCount := item.playCount + 1)];
      }
    }

    /** write_to_csv: the file is overwritten with the header and one row per track, in insertion order. */
    method WriteToCsv()
      requires Valid()
      modifies file
      ensures file.contents == Some(Serialize(Catalog(order, items)))
    {
      var rows := [Header];
      var i := 0;
      while i < |order|
        invariant 0 <= i <= |order|
        invariant rows == [Header] + DataRows(order[..i], items)
      {
        assert order[..i + 1][..i] == order[..i];
        rows := rows + [RowOf(order[i], items[order[i]])];
        i := i + 1;
      }
      assert order[..i] == order;
      file.contents := Some(rows);
    }

    /** set_name: a present track gets the new name and the file is rewritten; otherwise nothing happens. */
    method SetName(key: string, newName: string)
      requires Valid()
      modifies this, file
      ensures Valid() && order == old(order)
      ensures key in old(items) ==> items == old(items)[key := old(items)[key].(name := newName)]
      ensures key in old(items) ==> file.contents == Some(Serialize(Catalog(order, items)))
      ensures key !in old(items) ==> items == old(items) && file.contents == old(file.contents)
    {
      if key in items {
        items := items[key := items[key].(name := newName)];
        WriteToCsv();
      }
    }

    /** set_artist: like set_name, on the artist. */
    method SetArtist(key: string, newArtist: string)
      requires Valid()
      modifies this, file
      ensures Valid() && order == old(order)
      ensures key in old(items) ==> items == old(items)[key := old(items)[key].(artist := newArtist)]
      ensures key in old(items) ==> file.contents == Some(Serialize(Catalog(order, items)))
      ensures key !in old(items) ==> items == old(items) && file.contents == old(file.contents)
    {
      if key in items {
        items := items[key := items[key].(artist := newArtist)];
        WriteToCsv();
      }
    }

    /** set_rating: like set_name, on the rating, with no range check. */
    method SetRating(key: string, rating: int)
      requires Valid()
      modifies this, file
      ensures Valid() && order == old(order)
      ensures key in old(items) ==> items == old(items)[key := old(items)[key].(rating := rating)]
      ensures key in old(items) ==> file.contents == Some(Serialize(Catalog(order, items)))
      ensures key !in old(items) ==> items == old(items) && file.contents == old(file.contents)
    {
      if key in items {
        items := items[key := items[key].(rating := rating)];
        WriteToCsv();
      }
    }

    /**
     * set_play_count: it assigns an attribute the rest of the program never
     * reads, so the catalog is unchanged; a present key rewrites the file.
     */
    method SetPlayCount(key: string)
      requires Valid()
      modifies file
      ensures key in items ==> file.contents == Some(Serialize(Catalog(order, items)))
      ensures key !in items ==> file.contents == old(file.contents)
    {
      if key in items {
        WriteToCsv();
      }
    }
  }
}
