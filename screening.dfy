/**
 * The screening loop of `main`: for each listed instrument, its historical minimum and current
 * price are resolved, the relative distance from the minimum is classified into the "near" and
 * "moderate" buckets, and each bucket is sorted by that distance.
 */
module Screening {
  import opened Wrappers
  import opened Iss
  import opened Listings
  import History
  import Quotes

  /** Upper bound (inclusive) of the relative distance for the "near" bucket. */
  const NEAR_LIMIT: real := 0.15
  /** Upper bound (inclusive) of the relative distance for the "moderate" bucket. */
  const MODERATE_LIMIT: real := 1.0

  /**
   * What the exchange answers for one instrument: the rows of its history over the lookback
   * window (or the error a page request raised) and its marketdata block.
   */
  datatype Responses = Responses(history: Result<seq<History.Row>, FetchError>, marketdata: Result<Table, FetchError>)

  /** The exchange, as the answers it gives for each SECID. */
  type Api = Json -> Responses

  /** The tuple `(secid, diff, current_price, min_price, volume)` appended to a bucket. */
  datatype Record = Record(secid: Json, diff: real, current: real, minimum: real, volume: Json)

  datatype SkipReason =
    | FetchFailed     // a request or the reading of its response raised
    | NoCurrentPrice  // `current_price is None`
    | ZeroMinimum     // `min_price == 0`
    | NoMinimum       // the window had no price at all

  /** What happens to one instrument. */
  datatype Verdict = Skipped(reason: SkipReason) | Near(rec: Record) | Moderate(rec: Record) | Discarded(diff: real)

  /** The two result lists, `result` and `result_more`. */
  datatype Buckets = Buckets(near: seq<Record>, moderate: seq<Record>)

  /** Why the whole run stops: the top list could not be read, or it is empty. */
  datatype RunError = ListingFailed(error: FetchError) | NoListings

  /** `(current - min) / min`: how far above (or, when negative, below) its minimum a price is. */
  function RelativeDiff(current: real, minimum: real): real
    requires minimum != 0.0
  {
    (current - minimum) / minimum
  }

  /** The decision of lines 135-152 for one instrument with a resolved minimum and current price. */
  function Classify(entry: Listing, minimum: Option<real>, current: Option<real>): (v: Verdict)
    ensures current.None? ==> v == Skipped(NoCurrentPrice)
    ensures current.Some? && minimum == Some(0.0) ==> v == Skipped(ZeroMinimum)
    ensures current.Some? && minimum.None? ==> v == Skipped(NoMinimum)
    ensures current.Some? && minimum.Some? && minimum.value != 0.0 ==> !v.Skipped?
    ensures v.Near? || v.Moderate? ==>
      && current.Some? && minimum.Some? && minimum.value != 0.0
      && v.rec == Record(entry.secid, RelativeDiff(current.value, minimum.value), current.value, minimum.value, entry.volume)
    ensures v.Discarded? ==>
      current.Some? && minimum.Some? && minimum.value != 0.0 && v.diff == RelativeDiff(current.value, minimum.value)
    ensures v.Near? ==> v.rec.diff <= NEAR_LIMIT
    ensures v.Moderate? ==> NEAR_LIMIT < v.rec.diff <= MODERATE_LIMIT
    ensures v.Discarded? ==> v.diff > MODERATE_LIMIT
  {
    if current.None? then Skipped(NoCurrentPrice)
    else if minimum == Some(0.0) then Skipped(ZeroMinimum)
    else if minimum.None? then Skipped(NoMinimum)
    else
      var diff := RelativeDiff(current.value, minimum.value);
      var rec := Record(entry.secid, diff, current.value, minimum.value, entry.volume);
      if diff <= NEAR_LIMIT then Near(rec)
      else if diff <= MODERATE_LIMIT then Moderate(rec)
      else Discarded(diff)
  }

  /** The verdict on one listed instrument, from the exchange's answers for its SECID. */
  function Resolve(entry: Listing, api: Api): (v: Verdict)
    ensures api(entry.secid).history.Err? || api(entry.secid).marketdata.Err? ==> v == Skipped(FetchFailed)
    ensures v.Near? || v.Moderate? ==>
      && v.rec.secid == entry.secid && v.rec.volume == entry.volume
      && api(entry.secid).history.Ok? && api(entry.secid).marketdata.Ok?
      && History.LowestPrice(api(entry.secid).history.value, History.DEFAULT_BATCH) == Some(v.rec.minimum)
      && Quotes.CurrentPrice(api(entry.secid).marketdata.value) == Ok(Some(v.rec.current))
  {
    var responses := api(entry.secid);
    match responses.history
    case Err(_) => Skipped(FetchFailed)
    case Ok(rows) =>
      match responses.marketdata
      case Err(_) => Skipped(FetchFailed)
      case Ok(marketdata) =>
        match Quotes.CurrentPrice(marketdata)
        case Err(_) => Skipped(FetchFailed)
        case Ok(current) => Classify(entry, History.LowestPrice(rows, History.DEFAULT_BATCH), current)
  }

  /** The buckets after a verdict: a near or moderate record is appended to its bucket. */
  function Append(buckets: Buckets, v: Verdict): Buckets {
    match v
    case Near(rec) => Buckets(buckets.near + [rec], buckets.moderate)
    case Moderate(rec) => Buckets(buckets.near, buckets.moderate + [rec])
    case _ => buckets
  }

  /** The buckets in encounter order, before sorting. */
  function Collect(listing: seq<Listing>, api: Api): Buckets {
    if listing == [] then Buckets([], [])
    else Append(Collect(listing[..|listing| - 1], api), Resolve(listing[|listing| - 1], api))
  }

  // ---------------------------------------------------------------------------------------------
  // `list.sort(key=lambda x: x[1])`: a stable sort ascending by the relative distance.

  predicate Ascending(s: seq<Record>) {
    forall i, j :: 0 <= i < j < |s| ==> s[i].diff <= s[j].diff
  }

  /** The records of `s` whose distance is `k`, in their order in `s`. */
  function WithDiff(s: seq<Record>, k: real): seq<Record> {
    if s == [] then []
    else (if s[0].diff == k then [s[0]] else []) + WithDiff(s[1..], k)
  }

  /** `x` placed before the first record of `s` whose distance is not smaller. */
  function Insert(x: Record, s: seq<Record>): (r: seq<Record>)
    ensures |r| == |s| + 1
  {
    if s == [] || x.diff <= s[0].diff then [x] + s else [s[0]] + Insert(x, s[1..])
  }

  lemma {:induction false} InsertPermutes(x: Record, s: seq<Record>)
    ensures multiset(Insert(x, s)) == multiset(s) + multiset{x}
  {
    if s != [] && x.diff > s[0].diff {
      InsertPermutes(x, s[1..]);
      assert s == [s[0]] + s[1..];
    }
  }

  lemma {:induction false} InsertAscending(x: Record, s: seq<Record>)
    requires Ascending(s)
    ensures Ascending(Insert(x, s))
  {
    if s != [] && x.diff > s[0].diff {
      InsertAscending(x, s[1..]);
      InsertPermutes(x, s[1..]);
      var r := Insert(x, s[1..]);
      forall j | 0 <= j < |r|
        ensures s[0].diff <= r[j].diff
      {
        assert r[j] in multiset(r);
        assert r[j] == x || r[j] in multiset(s[1..]);
      }
    }
  }

  lemma WithDiffCons(r: Record, s: seq<Record>, k: real)
    ensures WithDiff([r] + s, k) == (if r.diff == k then [r] else []) + WithDiff(s, k)
  {
    assert ([r] + s)[1..] == s;
  }

  /** Insertion keeps the order among records of equal distance: `x` goes before its equals. */
  lemma {:induction false} InsertStable(x: Record, s: seq<Record>, k: real)
    ensures WithDiff(Insert(x, s), k) == WithDiff([x] + s, k)
  {
    if s != [] && x.diff > s[0].diff {
      var head, tail := s[0], s[1..];
      var t := Insert(x, tail);
      assert Insert(x, s) == [head] + t;
      assert s == [head] + tail;
      InsertStable(x, tail, k);
      WithDiffCons(head, t, k);
      WithDiffCons(x, tail, k);
      WithDiffCons(x, s, k);
      WithDiffCons(head, tail, k);
      if head.diff == k {
        assert WithDiff([head] + t, k) == [head] + WithDiff(tail, k);
        assert WithDiff([x] + s, k) == WithDiff(s, k);
      } else if x.diff == k {
        assert WithDiff([head] + t, k) == WithDiff(t, k);
        assert WithDiff([x] + s, k) == [x] + WithDiff(tail, k);
      } else {
        assert WithDiff([head] + t, k) == WithDiff(t, k);
        assert WithDiff([x] + s, k) == WithDiff(tail, k);
      }
    }
  }

  /** `list.sort` on a bucket, as insertion of each record into the sorted rest. */
  function SortByDiff(s: seq<Record>): (r: seq<Record>)
    ensures |r| == |s|
  {
    if s == [] then [] else Insert(s[0], SortByDiff(s[1..]))
  }

  /** The sorted bucket is ascending by distance. */
  lemma {:induction false} SortAscending(s: seq<Record>)
    ensures Ascending(SortByDiff(s))
  {
    if s != [] {
      SortAscending(s[1..]);
      InsertAscending(s[0], SortByDiff(s[1..]));
    }
  }

  /** The sorted bucket is a permutation of the unsorted one. */
  lemma {:induction false} SortPermutes(s: seq<Record>)
    ensures multiset(SortByDiff(s)) == multiset(s)
  {
    if s != [] {
      SortPermutes(s[1..]);
      InsertPermutes(s[0], SortByDiff(s[1..]));
      assert s == [s[0]] + s[1..];
    }
  }

  /** The sort is stable: records of equal distance keep their encounter order. */
  lemma {:induction false} SortStable(s: seq<Record>, k: real)
    ensures WithDiff(SortByDiff(s), k) == WithDiff(s, k)
  {
    if s != [] {
      SortStable(s[1..], k);
      InsertStable(s[0], SortByDiff(s[1..]), k);
      assert ([s[0]] + SortByDiff(s[1..]))[1..] == SortByDiff(s[1..]);
    }
  }

  /** The report: both buckets sorted by distance. */
  function Report(listing: seq<Listing>, api: Api): Buckets {
    var unsorted := Collect(listing, api);
    Buckets(SortByDiff(unsorted.near), SortByDiff(unsorted.moderate))
  }

  // ---------------------------------------------------------------------------------------------
  // What the buckets hold.

  /** A record is in the near bucket exactly when some listed instrument was classified near. */
  lemma {:induction false} NearMembers(listing: seq<Listing>, api: Api, rec: Record)
    ensures rec in Collect(listing, api).near <==>
      exists i :: 0 <= i < |listing| && Resolve(listing[i], api) == Near(rec)
    decreases |listing|
  {
    if listing != [] {
      var init, last := listing[..|listing| - 1], listing[|listing| - 1];
      NearMembers(init, api, rec);
      assert forall i :: 0 <= i < |init| ==> init[i] == listing[i];
      assert rec in Collect(listing, api).near <==>
        rec in Collect(init, api).near || Resolve(last, api) == Near(rec);
    }
  }

  /** A record is in the moderate bucket exactly when some instrument was classified moderate. */
  lemma {:induction false} ModerateMembers(listing: seq<Listing>, api: Api, rec: Record)
    ensures rec in Collect(listing, api).moderate <==>
      exists i :: 0 <= i < |listing| && Resolve(listing[i], api) == Moderate(rec)
    decreases |listing|
  {
    if listing != [] {
      var init, last := listing[..|listing| - 1], listing[|listing| - 1];
      ModerateMembers(init, api, rec);
      assert forall i :: 0 <= i < |init| ==> init[i] == listing[i];
      assert rec in Collect(listing, api).moderate <==>
        rec in Collect(init, api).moderate || Resolve(last, api) == Moderate(rec);
    }
  }

  /** Records, and their multiplicities, are unchanged by the sort. */
  lemma SortedMembers(s: seq<Record>, rec: Record)
    ensures rec in SortByDiff(s) <==> rec in s
  {
    SortPermutes(s);
    assert rec in SortByDiff(s) <==> rec in multiset(SortByDiff(s));
  }

  /**
   * Every record of the near bucket is at most 0.15 above its minimum, every record of the
   * moderate bucket is above 0.15 and at most 1.0, and so no record is in both buckets.
   */
  lemma ReportBounds(listing: seq<Listing>, api: Api)
    ensures forall rec :: rec in Report(listing, api).near ==> rec.diff <= NEAR_LIMIT
    ensures forall rec :: rec in Report(listing, api).moderate ==> NEAR_LIMIT < rec.diff <= MODERATE_LIMIT
    ensures forall a, b :: a in Report(listing, api).near && b in Report(listing, api).moderate ==> a != b
  {
    var unsorted := Collect(listing, api);
    forall rec | rec in Report(listing, api).near
      ensures rec.diff <= NEAR_LIMIT
    {
      SortedMembers(unsorted.near, rec);
      NearMembers(listing, api, rec);
    }
    forall rec | rec in Report(listing, api).moderate
      ensures NEAR_LIMIT < rec.diff <= MODERATE_LIMIT
    {
      SortedMembers(unsorted.moderate, rec);
      ModerateMembers(listing, api, rec);
    }
  }

  /**
   * Each bucket of the report is sorted ascending by distance, holds exactly the records of
   * the unsorted bucket, and keeps records of equal distance in encounter order.
   */
  lemma ReportOrder(listing: seq<Listing>, api: Api, k: real)
    ensures Ascending(Report(listing, api).near) && Ascending(Report(listing, api).moderate)
    ensures multiset(Report(listing, api).near) == multiset(Collect(listing, api).near)
    ensures multiset(Report(listing, api).moderate) == multiset(Collect(listing, api).moderate)
    ensures WithDiff(Report(listing, api).near, k) == WithDiff(Collect(listing, api).near, k)
    ensures WithDiff(Report(listing, api).moderate, k) == WithDiff(Collect(listing, api).moderate, k)
  {
    SortAscending(Collect(listing, api).near);
    SortAscending(Collect(listing, api).moderate);
    SortPermutes(Collect(listing, api).near);
    SortPermutes(Collect(listing, api).moderate);
    SortStable(Collect(listing, api).near, k);
    SortStable(Collect(listing, api).moderate, k);
  }

  /** Instruments are screened independently: the buckets of a concatenation are concatenated. */
  lemma {:induction false} CollectConcat(a: seq<Listing>, b: seq<Listing>, api: Api)
    ensures Collect(a + b, api).near == Collect(a, api).near + Collect(b, api).near
    ensures Collect(a + b, api).moderate == Collect(a, api).moderate + Collect(b, api).moderate
    decreases |b|
  {
    if b == [] {
      assert a + b == a;
    } else {
      var init, last := b[..|b| - 1], b[|b| - 1];
      CollectConcat(a, init, api);
      assert (a + b)[..|a + b| - 1] == a + init;
      assert (a + b)[|a + b| - 1] == last;
      assert Collect(a + b, api) == Append(Collect(a + init, api), Resolve(last, api));
      assert Collect(b, api) == Append(Collect(init, api), Resolve(last, api));
    }
  }

  /**
   * An instrument whose requests fail, or that is skipped or discarded for any other reason,
   * leaves the buckets as they would be without it: the instruments before and after it still
   * appear.
   */
  lemma DroppedInstrument(a: seq<Listing>, x: Listing, c: seq<Listing>, api: Api)
    requires Resolve(x, api).Skipped? || Resolve(x, api).Discarded?
    ensures Collect(a + [x] + c, api) == Collect(a + c, api)
    ensures Report(a + [x] + c, api) == Report(a + c, api)
  {
    CollectConcat(a + [x], c, api);
    CollectConcat(a, [x], api);
    CollectConcat(a, c, api);
    assert Collect([x], api) == Buckets([], []) by {
      assert [x][..0] == [];
    }
  }

  /** A failed history or marketdata request makes the instrument a skip. */
  lemma FailedRequestSkips(x: Listing, api: Api)
    requires api(x.secid).history.Err? || api(x.secid).marketdata.Err?
    ensures Resolve(x, api) == Skipped(FetchFailed)
  {
  }

  // ---------------------------------------------------------------------------------------------
  // Worked examples.

  /** The classification boundaries, for a minimum of 100. */
  lemma ClassifyBoundaries(entry: Listing)
    ensures Classify(entry, Some(100.0), Some(115.0)).Near?
    ensures Classify(entry, Some(100.0), Some(115.0001)).Moderate?
    ensures Classify(entry, Some(100.0), Some(200.0)).Moderate?
    ensures Classify(entry, Some(100.0), Some(200.0001)) == Discarded(1.000001)
    ensures Classify(entry, Some(100.0), Some(95.0)).Near?
    ensures Classify(entry, Some(0.0), Some(0.0)) == Skipped(ZeroMinimum)
  {
  }

  /** Distances 0.10, -0.05, 0.15 in encounter order come out as -0.05, 0.10, 0.15. */
  lemma SortExample(a: Record, b: Record, c: Record)
    requires a.diff == 0.10 && b.diff == -0.05 && c.diff == 0.15
    ensures SortByDiff([a, b, c]) == [b, a, c]
  {
    assert [a, b, c][1..] == [b, c] && [b, c][1..] == [c] && [c][1..] == [];
    assert SortByDiff([c]) == Insert(c, []) == [c];
    assert SortByDiff([b, c]) == Insert(b, [c]) == [b, c];
    assert Insert(a, [c]) == [a, c];
    assert SortByDiff([a, b, c]) == Insert(a, [b, c]) == [b] + Insert(a, [c]);
  }

  const MARKETDATA_COLUMNS: seq<string> := ["SECID", "LAST", "PREVCLOSE"]

  /** AAA: minimum 50, last price 55. BBB: minimum 0. */
  function ScenarioApi(secid: Json): Responses {
    if secid == JStr("AAA") then
      Responses(Ok([Some(50.0), None, Some(61.5)]),
                Ok(Table(MARKETDATA_COLUMNS, [[JStr("AAA"), JNum(55.0), JNum(54.0)]])))
    else
      Responses(Ok([Some(3.0), Some(0.0)]),
                Ok(Table(MARKETDATA_COLUMNS, [[JStr("BBB"), JNum(2.0), JNull]])))
  }

  lemma ScenarioAAA()
    ensures Resolve(Listing(JStr("AAA"), JNum(1000.0)), ScenarioApi)
         == Near(Record(JStr("AAA"), 0.1, 55.0, 50.0, JNum(1000.0)))
  {
    var rows: seq<History.Row> := [Some(50.0), None, Some(61.5)];
    assert rows[1..][1..][1..] == [];
    assert History.Present(rows) == [50.0, 61.5];
    assert [50.0, 61.5][1..][1..] == [];
    assert History.LowestPrice(rows, History.DEFAULT_BATCH) == Some(50.0);
    assert IsFirstIndex(MARKETDATA_COLUMNS, "LAST", 1);
    Quotes.LastWins(Table(MARKETDATA_COLUMNS, [[JStr("AAA"), JNum(55.0), JNum(54.0)]]), 55.0);
  }

  lemma ScenarioBBB()
    ensures Resolve(Listing(JStr("BBB"), JNum(500.0)), ScenarioApi) == Skipped(ZeroMinimum)
  {
    var rows: seq<History.Row> := [Some(3.0), Some(0.0)];
    assert rows[1..][1..] == [];
    assert History.Present(rows) == [3.0, 0.0];
    assert [3.0, 0.0][1..][1..] == [];
    assert History.LowestPrice(rows, History.DEFAULT_BATCH) == Some(0.0);
    assert IsFirstIndex(MARKETDATA_COLUMNS, "LAST", 1);
    Quotes.LastWins(Table(MARKETDATA_COLUMNS, [[JStr("BBB"), JNum(2.0), JNull]]), 2.0);
  }

  /** AAA is 0.10 above its minimum and lands in the near bucket; BBB is skipped entirely. */
  lemma Scenario()
    ensures Report([Listing(JStr("AAA"), JNum(1000.0)), Listing(JStr("BBB"), JNum(500.0))], ScenarioApi)
         == Buckets([Record(JStr("AAA"), 0.1, 55.0, 50.0, JNum(1000.0))], [])
  {
    var aaa, bbb := Listing(JStr("AAA"), JNum(1000.0)), Listing(JStr("BBB"), JNum(500.0));
    var rec := Record(JStr("AAA"), 0.1, 55.0, 50.0, JNum(1000.0));
    ScenarioAAA();
    ScenarioBBB();
    assert Collect([aaa], ScenarioApi) == Buckets([rec], []) by {
      assert [aaa][..0] == [];
    }
    assert Collect([aaa, bbb], ScenarioApi) == Buckets([rec], []) by {
      assert [aaa, bbb][..1] == [aaa];
    }
    assert SortByDiff([rec]) == [rec] by {
      assert [rec][1..] == [];
    }
  }

  // ---------------------------------------------------------------------------------------------
  // The loop of `main` and the run around it.

  /**
   * Lines 126-159 of `main`: resolve every listed instrument, append it to `result` or
   * `result_more` as its distance says, then sort both lists.
   */
  method Screen(securities: seq<Listing>, api: Api) returns (report: Buckets)
    ensures report == Report(securities, api)
    ensures Ascending(report.near) && Ascending(report.moderate)
  {
    var result: seq<Record> := [];
    var resultMore: seq<Record> := [];
    for i := 0 to |securities|
      invariant Buckets(result, resultMore) == Collect(securities[..i], api)
    {
      var entry := securities[i];
      var responses := api(entry.secid);
      var verdict: Verdict;
      if responses.history.Err? {
        verdict := Skipped(FetchFailed);
      } else {
        var minPrice, _ := History.MinPrice(responses.history.value, History.DEFAULT_BATCH);
        if responses.marketdata.Err? {
          verdict := Skipped(FetchFailed);
        } else {
          var currentPrice := Quotes.CurrentPrice(responses.marketdata.value);
          if currentPrice.Err? {
            verdict := Skipped(FetchFailed);
          } else {
            verdict := Classify(entry, minPrice, currentPrice.value);
          }
        }
      }
      assert verdict == Resolve(entry, api);
      assert securities[..i + 1][..i] == securities[..i];
      match verdict {
        case Near(rec) => result := result + [rec];
        case Moderate(rec) => resultMore := resultMore + [rec];
        case _ =>
      }
    }
    assert securities[..|securities|] == securities;
    result := SortByDiff(result);
    resultMore := SortByDiff(resultMore);
    report := Buckets(result, resultMore);
    ReportOrder(securities, api, 0.0);
  }

  /**
   * `main` from the top list on: read the list of the 100 most traded instruments, stop when it
   * cannot be read or is empty, and screen it otherwise.
   */
  method Run(securities: Table, marketdata: Table, api: Api) returns (r: Result<Buckets, RunError>)
    ensures !Readable(securities, marketdata) ==> r.Err? && r.error.ListingFailed?
    ensures Readable(securities, marketdata) && |Zipped(securities, marketdata)| == 0 ==> r == Err(NoListings)
    ensures Readable(securities, marketdata) && |Zipped(securities, marketdata)| > 0 ==>
      r == Ok(Report(Zipped(securities, marketdata), api))
  {
    var top := TopSecurities(securities, marketdata);
    if top.Err? {
      return Err(ListingFailed(top.error));
    }
    if |top.value| == 0 {
      return Err(NoListings);
    }
    var report := Screen(top.value, api);
    return Ok(report);
  }
}
