/** `get_top_securities`: the board's instruments with today's traded value, zipped row by row. */
module Listings {
  import opened Wrappers
  import opened Iss

  /** One instrument of the list: its SECID cell and its VALTODAY cell. */
  datatype Listing = Listing(secid: Json, volume: Json)

  /** Both columns exist and every row pair the zip reaches has a cell at those columns. */
  predicate Readable(securities: Table, marketdata: Table) {
    && "SECID" in securities.columns
    && "VALTODAY" in marketdata.columns
    && var secidIdx, volumeIdx := IndexOf(securities.columns, "SECID").value, IndexOf(marketdata.columns, "VALTODAY").value;
      forall i :: 0 <= i < Min(|securities.data|, |marketdata.data|) ==>
        secidIdx < |securities.data[i]| && volumeIdx < |marketdata.data[i]|
  }

  /** The zipped list when the response is readable: row `i` of each block gives entry `i`. */
  function Zipped(securities: Table, marketdata: Table): seq<Listing>
    requires Readable(securities, marketdata)
  {
    var secidIdx, volumeIdx := IndexOf(securities.columns, "SECID").value, IndexOf(marketdata.columns, "VALTODAY").value;
    seq(Min(|securities.data|, |marketdata.data|),
        i requires 0 <= i < Min(|securities.data|, |marketdata.data|) =>
          Listing(securities.data[i][secidIdx], marketdata.data[i][volumeIdx]))
  }

  /**
   * `get_top_securities` on the securities and marketdata blocks of the response. Column
   * positions are looked up by name; the two row lists are zipped, so the result stops at the
   * shorter one.
   */
  method TopSecurities(securities: Table, marketdata: Table) returns (r: Result<seq<Listing>, FetchError>)
    ensures "SECID" !in securities.columns ==> r == Err(MissingColumn("SECID"))
    ensures "SECID" in securities.columns && "VALTODAY" !in marketdata.columns ==>
      r == Err(MissingColumn("VALTODAY"))
    ensures ("SECID" in securities.columns && "VALTODAY" in marketdata.columns &&
             !Readable(securities, marketdata)) ==> r == Err(RowTooShort)
    ensures r.Ok? <==> Readable(securities, marketdata)
    ensures r.Ok? ==> r.value == Zipped(securities, marketdata)
    ensures r.Ok? ==>
      && |r.value| == Min(|securities.data|, |marketdata.data|)
      && forall i :: 0 <= i < |r.value| ==>
        r.value[i] == Listing(securities.data[i][IndexOf(securities.columns, "SECID").value],
                              marketdata.data[i][IndexOf(marketdata.columns, "VALTODAY").value])
  {
    var secidIdx := IndexOf(securities.columns, "SECID");
    if secidIdx.None? {
      return Err(MissingColumn("SECID"));
    }
    var volumeIdx := IndexOf(marketdata.columns, "VALTODAY");
    if volumeIdx.None? {
      return Err(MissingColumn("VALTODAY"));
    }
    var si, vi := secidIdx.value, volumeIdx.value;
    var result: seq<Listing> := [];
    var n := Min(|securities.data|, |marketdata.data|);
    for i := 0 to n
      invariant |result| == i
      invariant forall j :: 0 <= j < i ==> si < |securities.data[j]| && vi < |marketdata.data[j]|
      invariant forall j :: 0 <= j < i ==>
        result[j] == Listing(securities.data[j][si], marketdata.data[j][vi])
    {
      var secRow, marketRow := securities.data[i], marketdata.data[i];
      if si >= |secRow| || vi >= |marketRow| {
        return Err(RowTooShort);
      }
      result := result + [Listing(secRow[si], marketRow[vi])];
    }
    return Ok(result);
  }
}
