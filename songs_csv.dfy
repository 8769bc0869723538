/**
 * The backing file songs_list.csv, seen as rows of fields. The csv module's
 * quoting and escaping are abstracted away: a row written is the row read.
 */
module SongsCsv {

  import opened Options

  type Row = seq<string>

  /** The fixed header, in the column order both writers use. */
  const Header: Row := ["Track ID", "ID", "Name", "Singer", "File Path", "Rating", "Plays"]

  /** The file on disk: None while it does not exist. */
  class SongsFile {
    var contents: Option<seq<Row>>

    constructor (contents: Option<seq<Row>>)
      ensures this.contents == contents
    {
      this.contents := contents;
    }
  }

  /** What csv.DictReader gives for one column of one row. */
  datatype Cell =
    | NoColumn            // the header has no such column: indexing raises KeyError
    | Missing             // the row is shorter than the header: the reader fills in None
    | Text(text: string)

  /** The last position of column in the header: DictReader zips names to cells, so a later duplicate name wins. */
  function LastIndexOf(header: Row, column: string): (r: Option<nat>)
    ensures r.None? <==> column !in header
    ensures r.Some? ==> r.value < |header| && header[r.value] == column
    ensures r.Some? ==> forall j :: r.value < j < |header| ==> header[j] != column
  {
    if header == [] then None
    else if header[|header| - 1] == column then Some(|header| - 1)
    else LastIndexOf(header[..|header| - 1], column)
  }

  /** The cell a DictReader row maps column to. */
  function CellOf(header: Row, row: Row, column: string): (c: Cell)
    ensures c.NoColumn? <==> column !in header
    ensures c.Missing? <==> column in header && LastIndexOf(header, column).value >= |row|
    ensures c.Text? ==> LastIndexOf(header, column).Some? && LastIndexOf(header, column).value < |row| &&
                        c.text == row[LastIndexOf(header, column).value]
  {
    match LastIndexOf(header, column)
    case None => NoColumn
    case Some(i) => if i < |row| then Text(row[i]) else Missing
  }
}
