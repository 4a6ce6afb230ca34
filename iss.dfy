/** The shapes of the exchange's JSON responses: tables of rows addressed by column name. */
module Iss {
  import opened Wrappers

  /** One JSON cell of a response row. */
  datatype Json = JNull | JNum(x: real) | JStr(s: string)

  /** A response block: a list of column names and rows of cells in that column order. */
  datatype Table = Table(columns: seq<string>, data: seq<seq<Json>>)

  /** What a call into the response can raise. */
  datatype FetchError =
    | Transport            // the HTTP request or the JSON decoding failed
    | MissingColumn(name: string)  // `list.index` found no such column (ValueError)
    | RowTooShort          // a row has no cell at the column's index (IndexError)
    | NoRows               // the block has no row at all (IndexError on `data[0]`)
    | NotANumber           // `float(...)` of a cell that is not a number

  /** `i` is the position `list.index` reports for `name`: its first occurrence. */
  predicate IsFirstIndex(columns: seq<string>, name: string, i: nat) {
    i < |columns| && columns[i] == name && forall j :: 0 <= j < i ==> columns[j] != name
  }

  /** Python's `columns.index(name)`, with `None` where it would raise. */
  function IndexOf(columns: seq<string>, name: string): (r: Option<nat>)
    ensures r.None? <==> name !in columns
    ensures r.Some? ==> IsFirstIndex(columns, name, r.value)
  {
    if |columns| == 0 then None
    else if columns[0] == name then Some(0)
    else match IndexOf(columns[1..], name)
      case None => None
      case Some(i) => Some(i + 1)
  }

  lemma FirstIndexUnique(columns: seq<string>, name: string, i: nat, j: nat)
    requires IsFirstIndex(columns, name, i) && IsFirstIndex(columns, name, j)
    ensures i == j
  {
  }

  /** `row[idx]`, raising IndexError past the end of the row. */
  function CellAt(row: seq<Json>, idx: nat): (r: Result<Json, FetchError>)
    ensures r.Ok? <==> idx < |row|
    ensures r.Ok? ==> r.value == row[idx]
    ensures r.Err? ==> r.error == RowTooShort
  {
    if idx < |row| then Ok(row[idx]) else Err(RowTooShort)
  }
}
