/** `get_current_price`: the live price of one instrument, falling back to the previous close. */
module Quotes {
  import opened Wrappers
  import opened Iss

  /** The cell the named column holds in `row`, as `row[columns.index(name)]` reads it. */
  ghost predicate Holds(columns: seq<string>, row: seq<Json>, name: string, v: Json) {
    exists i: nat :: IsFirstIndex(columns, name, i) && i < |row| && row[i] == v
  }

  /** The named column gives no price: it is missing, or its cell is JSON `null`. */
  ghost predicate Unset(columns: seq<string>, row: seq<Json>, name: string) {
    name !in columns || Holds(columns, row, name, JNull)
  }

  /** `float(cell)`, with JSON `null` passed through as `None`. */
  function ToPrice(v: Json): (r: Result<Option<real>, FetchError>)
    ensures v.JNull? ==> r == Ok(None)
    ensures v.JNum? ==> r == Ok(Some(v.x))
    ensures v.JStr? ==> r == Err(NotANumber)
  {
    match v
    case JNull => Ok(None)
    case JNum(x) => Ok(Some(x))
    case JStr(_) => Err(NotANumber)
  }

  /** The cell of the column `idx` points at, or `null` when the column is missing. */
  function CellOrNull(row: seq<Json>, idx: Option<nat>): Result<Json, FetchError> {
    if idx.Some? then CellAt(row, idx.value) else Ok(JNull)
  }

  /**
   * `get_current_price` on the marketdata block of the response: LAST when that column exists
   * and is not null, otherwise PREVCLOSE under the same conditions, otherwise `None`.
   */
  function CurrentPrice(marketdata: Table): (r: Result<Option<real>, FetchError>)
    ensures |marketdata.data| == 0 ==> r == Err(NoRows)
  {
    if |marketdata.data| == 0 then Err(NoRows)
    else
      var cols := marketdata.columns;
      var values := marketdata.data[0];
      var idxLast := IndexOf(cols, "LAST");
      var idxPrevClose := IndexOf(cols, "PREVCLOSE");
      var lastPrice :- CellOrNull(values, idxLast);
      var price :- if lastPrice.JNull? then CellOrNull(values, idxPrevClose) else Ok(lastPrice);
      ToPrice(price)
  }

  lemma HoldsAt(columns: seq<string>, row: seq<Json>, name: string, v: Json)
    requires Holds(columns, row, name, v)
    ensures IndexOf(columns, name).Some?
    ensures IndexOf(columns, name).value < |row| && row[IndexOf(columns, name).value] == v
  {
    var i: nat :| IsFirstIndex(columns, name, i) && i < |row| && row[i] == v;
    FirstIndexUnique(columns, name, i, IndexOf(columns, name).value);
  }

  lemma UnsetAt(columns: seq<string>, row: seq<Json>, name: string)
    requires Unset(columns, row, name)
    ensures CellOrNull(row, IndexOf(columns, name)) == Ok(JNull)
  {
    if name in columns {
      HoldsAt(columns, row, name, JNull);
    }
  }

  /** LAST wins whenever it exists and is a number, whatever PREVCLOSE holds. */
  lemma LastWins(marketdata: Table, p: real)
    requires |marketdata.data| > 0
    requires Holds(marketdata.columns, marketdata.data[0], "LAST", JNum(p))
    ensures CurrentPrice(marketdata) == Ok(Some(p))
  {
    HoldsAt(marketdata.columns, marketdata.data[0], "LAST", JNum(p));
  }

  /** PREVCLOSE is used when LAST is missing or null. */
  lemma PrevCloseFallback(marketdata: Table, p: real)
    requires |marketdata.data| > 0
    requires Unset(marketdata.columns, marketdata.data[0], "LAST")
    requires Holds(marketdata.columns, marketdata.data[0], "PREVCLOSE", JNum(p))
    ensures CurrentPrice(marketdata) == Ok(Some(p))
  {
    UnsetAt(marketdata.columns, marketdata.data[0], "LAST");
    HoldsAt(marketdata.columns, marketdata.data[0], "PREVCLOSE", JNum(p));
  }

  /** Neither column gives a price: the result is `None`, which is not an error. */
  lemma NoPrice(marketdata: Table)
    requires |marketdata.data| > 0
    requires Unset(marketdata.columns, marketdata.data[0], "LAST")
    requires Unset(marketdata.columns, marketdata.data[0], "PREVCLOSE")
    ensures CurrentPrice(marketdata) == Ok(None)
  {
    UnsetAt(marketdata.columns, marketdata.data[0], "LAST");
    UnsetAt(marketdata.columns, marketdata.data[0], "PREVCLOSE");
  }

  /**
   * Conversely, a price comes from LAST, or from PREVCLOSE only when LAST gives none; and
   * `None` comes only from both columns giving none.
   */
  lemma PriceSource(marketdata: Table)
    ensures CurrentPrice(marketdata).Ok? && CurrentPrice(marketdata).value.Some? ==>
      var p := CurrentPrice(marketdata).value.value;
      var row := marketdata.data[0];
      || Holds(marketdata.columns, row, "LAST", JNum(p))
      || (Unset(marketdata.columns, row, "LAST") && Holds(marketdata.columns, row, "PREVCLOSE", JNum(p)))
    ensures CurrentPrice(marketdata) == Ok(None) ==>
      && Unset(marketdata.columns, marketdata.data[0], "LAST")
      && Unset(marketdata.columns, marketdata.data[0], "PREVCLOSE")
  {
    var r := CurrentPrice(marketdata);
    if r.Ok? {
      var cols, row := marketdata.columns, marketdata.data[0];
      var idxLast, idxPrevClose := IndexOf(cols, "LAST"), IndexOf(cols, "PREVCLOSE");
      if idxLast.Some? {
        assert IsFirstIndex(cols, "LAST", idxLast.value);
      }
      if idxPrevClose.Some? {
        assert IsFirstIndex(cols, "PREVCLOSE", idxPrevClose.value);
      }
    }
  }
}
