/**
 * The loop of `main` exactly as its exception handler is written: a request that raises is
 * reported, and the iteration goes on to the classification with whatever `min_price` and
 * `current_price` held before, while a `None` minimum reaches the subtraction.
 */
module Fallthrough {
  import opened Wrappers
  import opened Iss
  import opened Listings
  import History
  import Quotes
  import opened Screening

  /** How the loop dies: a local read before any assignment, or `None` in the subtraction. */
  datatype Crash = UnboundLocal | NoneOperand

  /** The loop's two price variables; `None` while a variable has never been assigned. */
  datatype Carried = Carried(minPrice: Option<Option<real>>, current: Option<Option<real>>)

  /** The variables after one iteration, and what the iteration did with the instrument. */
  datatype Step = Step(carried: Carried, verdict: Verdict)

  /** The buckets and the variables after a prefix of the list. */
  datatype State = State(buckets: Buckets, carried: Carried)

  /** Lines 141-152, on whatever the two variables hold once the try block is left. */
  function AfterTry(carried: Carried, entry: Listing): (r: Result<Step, Crash>)
    ensures carried.minPrice.None? ==> r == Err(UnboundLocal)
    ensures r.Ok? ==> r.value.carried == carried
  {
    match carried.minPrice
    case None => Err(UnboundLocal)
    case Some(minimum) =>
      if minimum == Some(0.0) then Ok(Step(carried, Skipped(ZeroMinimum)))
      else match carried.current
        case None => Err(UnboundLocal)
        case Some(current) =>
          if current.None? || minimum.None? then Err(NoneOperand)
          else Ok(Step(carried, Classify(entry, minimum, current)))
  }

  /**
   * One iteration of lines 128-152: the try block assigns `min_price`, then `current_price`,
   * and stops at the first request that raises, leaving the other variable as it was.
   */
  function StepAsWritten(carried: Carried, entry: Listing, api: Api): (r: Result<Step, Crash>)
    ensures api(entry.secid).history.Err? && r.Ok? ==> r.value.carried == carried
    ensures api(entry.secid).history.Err? && carried.minPrice.None? ==> r == Err(UnboundLocal)
    ensures api(entry.secid).history.Ok? && r.Ok? ==>
      r.value.carried.minPrice == Some(History.LowestPrice(api(entry.secid).history.value, History.DEFAULT_BATCH))
    ensures api(entry.secid).history.Ok? && api(entry.secid).marketdata.Err? && r.Ok? ==>
      r.value.carried.current == carried.current
  {
    var responses := api(entry.secid);
    if responses.history.Err? then AfterTry(carried, entry)
    else
      var withMin := Carried(Some(History.LowestPrice(responses.history.value, History.DEFAULT_BATCH)), carried.current);
      if responses.marketdata.Err? then AfterTry(withMin, entry)
      else
        match Quotes.CurrentPrice(responses.marketdata.value)
        case Err(_) => AfterTry(withMin, entry)
        case Ok(current) =>
          var withBoth := Carried(withMin.minPrice, Some(current));
          if current.None? then Ok(Step(withBoth, Skipped(NoCurrentPrice)))
          else AfterTry(withBoth, entry)
  }

  /** The loop as written over a prefix of the list, from two unassigned variables. */
  function CollectAsWritten(listing: seq<Listing>, api: Api): (r: Result<State, Crash>)
    ensures r.Ok? ==> |r.value.buckets.near| + |r.value.buckets.moderate| <= |listing|
    ensures r.Ok? && listing != [] ==> r.value.carried.minPrice.Some?
  {
    if listing == [] then Ok(State(Buckets([], []), Carried(None, None)))
    else
      var before :- CollectAsWritten(listing[..|listing| - 1], api);
      var step :- StepAsWritten(before.carried, listing[|listing| - 1], api);
      Ok(State(Append(before.buckets, step.verdict), step.carried))
  }

  /**
   * For an instrument whose requests all succeed and whose window has a price, the iteration
   * as written does what `Resolve` says, whatever the variables held before.
   */
  lemma StepAgrees(carried: Carried, entry: Listing, api: Api)
    requires Resolve(entry, api) != Skipped(FetchFailed) && Resolve(entry, api) != Skipped(NoMinimum)
    ensures StepAsWritten(carried, entry, api).Ok?
    ensures StepAsWritten(carried, entry, api).value.verdict == Resolve(entry, api)
  {
  }

  /**
   * On a list where no request fails and every window has a price, the loop as written never
   * crashes and fills the same buckets as the corrected loop.
   */
  lemma {:induction false} AgreesWithoutFailures(listing: seq<Listing>, api: Api)
    requires forall i :: 0 <= i < |listing| ==>
      Resolve(listing[i], api) != Skipped(FetchFailed) && Resolve(listing[i], api) != Skipped(NoMinimum)
    ensures CollectAsWritten(listing, api).Ok?
    ensures CollectAsWritten(listing, api).value.buckets == Collect(listing, api)
    decreases |listing|
  {
    if listing != [] {
      var init, last := listing[..|listing| - 1], listing[|listing| - 1];
      assert forall i :: 0 <= i < |init| ==> init[i] == listing[i];
      AgreesWithoutFailures(init, api);
      StepAgrees(CollectAsWritten(init, api).value.carried, last, api);
    }
  }

  /** One more instrument, when neither the prefix nor its iteration crashes. */
  lemma CollectSnoc(init: seq<Listing>, x: Listing, api: Api)
    requires CollectAsWritten(init, api).Ok?
    requires StepAsWritten(CollectAsWritten(init, api).value.carried, x, api).Ok?
    ensures var before := CollectAsWritten(init, api).value;
      var step := StepAsWritten(before.carried, x, api).value;
      CollectAsWritten(init + [x], api) == Ok(State(Append(before.buckets, step.verdict), step.carried))
  {
    assert (init + [x])[..|init|] == init;
  }

  // ---------------------------------------------------------------------------------------------
  // The discrepancies, on concrete answers.

  /**
   * AAA as in `ScenarioApi`; CCC's history request fails; DDD has no price in its window;
   * EEE's history has the close 100 but its marketdata request fails.
   */
  function FailingApi(secid: Json): Responses {
    if secid == JStr("CCC") then Responses(Err(Transport), Err(Transport))
    else if secid == JStr("EEE") then Responses(Ok([Some(100.0)]), Err(Transport))
    else if secid == JStr("DDD") then
      Responses(Ok([None]), Ok(Table(MARKETDATA_COLUMNS, [[JStr("DDD"), JNum(5.0), JNull]])))
    else ScenarioApi(secid)
  }

  lemma AAAStep()
    ensures StepAsWritten(Carried(None, None), Listing(JStr("AAA"), JNum(1000.0)), FailingApi)
         == Ok(Step(Carried(Some(Some(50.0)), Some(Some(55.0))),
                    Near(Record(JStr("AAA"), 0.1, 55.0, 50.0, JNum(1000.0)))))
  {
    var rows: seq<History.Row> := [Some(50.0), None, Some(61.5)];
    assert rows[1..][1..][1..] == [];
    assert History.Present(rows) == [50.0, 61.5];
    assert [50.0, 61.5][1..][1..] == [];
    assert History.LowestPrice(rows, History.DEFAULT_BATCH) == Some(50.0);
    assert IsFirstIndex(MARKETDATA_COLUMNS, "LAST", 1);
    Quotes.LastWins(Table(MARKETDATA_COLUMNS, [[JStr("AAA"), JNum(55.0), JNum(54.0)]]), 55.0);
  }

  lemma AAAPrefix()
    ensures CollectAsWritten([Listing(JStr("AAA"), JNum(1000.0))], FailingApi)
         == Ok(State(Buckets([Record(JStr("AAA"), 0.1, 55.0, 50.0, JNum(1000.0))], []),
                     Carried(Some(Some(50.0)), Some(Some(55.0)))))
  {
    var aaa := Listing(JStr("AAA"), JNum(1000.0));
    AAAStep();
    assert CollectAsWritten([], FailingApi) == Ok(State(Buckets([], []), Carried(None, None)));
    CollectSnoc([], aaa, FailingApi);
    assert [] + [aaa] == [aaa];
    assert [] + [Record(JStr("AAA"), 0.1, 55.0, 50.0, JNum(1000.0))] == [Record(JStr("AAA"), 0.1, 55.0, 50.0, JNum(1000.0))];
  }

  /**
   * A failed history request after a successful instrument: as written, CCC is filed in the near
   * bucket with AAA's distance and prices; the corrected loop skips it.
   */
  lemma StaleValues()
    ensures CollectAsWritten([Listing(JStr("AAA"), JNum(1000.0)), Listing(JStr("CCC"), JNum(10.0))], FailingApi)
         == Ok(State(Buckets([Record(JStr("AAA"), 0.1, 55.0, 50.0, JNum(1000.0)),
                              Record(JStr("CCC"), 0.1, 55.0, 50.0, JNum(10.0))], []),
                     Carried(Some(Some(50.0)), Some(Some(55.0)))))
    ensures Collect([Listing(JStr("AAA"), JNum(1000.0)), Listing(JStr("CCC"), JNum(10.0))], FailingApi).near
         == [Record(JStr("AAA"), 0.1, 55.0, 50.0, JNum(1000.0))]
  {
    var aaa, ccc := Listing(JStr("AAA"), JNum(1000.0)), Listing(JStr("CCC"), JNum(10.0));
    var carried := Carried(Some(Some(50.0)), Some(Some(55.0)));
    var recA := Record(JStr("AAA"), 0.1, 55.0, 50.0, JNum(1000.0));
    AAAPrefix();
    assert Classify(ccc, Some(50.0), Some(55.0)) == Near(Record(JStr("CCC"), 0.1, 55.0, 50.0, JNum(10.0)));
    assert StepAsWritten(carried, ccc, FailingApi) == Ok(Step(carried, Near(Record(JStr("CCC"), 0.1, 55.0, 50.0, JNum(10.0)))));
    CollectSnoc([aaa], ccc, FailingApi);
    assert [aaa] + [ccc] == [aaa, ccc];
    var recC := Record(JStr("CCC"), 0.1, 55.0, 50.0, JNum(10.0));
    assert Append(Buckets([recA], []), Near(recC)) == Buckets([recA, recC], []) by {
      assert [recA] + [recC] == [recA, recC];
    }
    assert Resolve(aaa, FailingApi) == Near(recA);
    FailedRequestSkips(ccc, FailingApi);
  }

  /** A failed history request on the first instrument: as written, `min_price` is read unassigned. */
  lemma FirstFailureCrashes()
    ensures CollectAsWritten([Listing(JStr("CCC"), JNum(10.0))], FailingApi) == Err(UnboundLocal)
    ensures Collect([Listing(JStr("CCC"), JNum(10.0))], FailingApi) == Buckets([], [])
  {
    assert [Listing(JStr("CCC"), JNum(10.0))][..0] == [];
  }

  /** A window without any price: as written, `current_price - None` raises; corrected, a skip. */
  lemma NoMinimumCrashes()
    ensures CollectAsWritten([Listing(JStr("DDD"), JNum(1.0))], FailingApi) == Err(NoneOperand)
    ensures Resolve(Listing(JStr("DDD"), JNum(1.0)), FailingApi) == Skipped(NoMinimum)
  {
    var rows: seq<History.Row> := [None];
    assert rows[1..] == [];
    assert History.LowestPrice(rows, History.DEFAULT_BATCH) == None;
    assert IsFirstIndex(MARKETDATA_COLUMNS, "LAST", 1);
    Quotes.LastWins(Table(MARKETDATA_COLUMNS, [[JStr("DDD"), JNum(5.0), JNull]]), 5.0);
    assert [Listing(JStr("DDD"), JNum(1.0))][..0] == [];
  }

  /**
   * A failed marketdata request after a successful instrument: as written, EEE is filed in
   * the near bucket with its own minimum 100 but AAA's current price 55, at distance -0.45;
   * the corrected loop skips it.
   */
  lemma StaleCurrentPrice()
    ensures CollectAsWritten([Listing(JStr("AAA"), JNum(1000.0)), Listing(JStr("EEE"), JNum(20.0))], FailingApi)
         == Ok(State(Buckets([Record(JStr("AAA"), 0.1, 55.0, 50.0, JNum(1000.0)),
                              Record(JStr("EEE"), -0.45, 55.0, 100.0, JNum(20.0))], []),
                     Carried(Some(Some(100.0)), Some(Some(55.0)))))
    ensures Resolve(Listing(JStr("EEE"), JNum(20.0)), FailingApi) == Skipped(FetchFailed)
  {
    var aaa, eee := Listing(JStr("AAA"), JNum(1000.0)), Listing(JStr("EEE"), JNum(20.0));
    var carried := Carried(Some(Some(100.0)), Some(Some(55.0)));
    var recA := Record(JStr("AAA"), 0.1, 55.0, 50.0, JNum(1000.0));
    var recE := Record(JStr("EEE"), -0.45, 55.0, 100.0, JNum(20.0));
    AAAPrefix();
    var rows: seq<History.Row> := [Some(100.0)];
    assert rows[1..] == [];
    assert History.LowestPrice(rows, History.DEFAULT_BATCH) == Some(100.0);
    assert Classify(eee, Some(100.0), Some(55.0)) == Near(recE);
    assert StepAsWritten(Carried(Some(Some(50.0)), Some(Some(55.0))), eee, FailingApi) == Ok(Step(carried, Near(recE)));
    CollectSnoc([aaa], eee, FailingApi);
    assert [aaa] + [eee] == [aaa, eee];
    assert Append(Buckets([recA], []), Near(recE)) == Buckets([recA, recE], []) by {
      assert [recA] + [recE] == [recA, recE];
    }
  }

  /**
   * A failed marketdata request on the first instrument: as written, `current_price` is read
   * unassigned at line 144, since its minimum is not zero.
   */
  lemma FirstMarketdataFailureCrashes()
    ensures CollectAsWritten([Listing(JStr("EEE"), JNum(20.0))], FailingApi) == Err(UnboundLocal)
    ensures Collect([Listing(JStr("EEE"), JNum(20.0))], FailingApi) == Buckets([], [])
  {
    var rows: seq<History.Row> := [Some(100.0)];
    assert rows[1..] == [];
    assert History.LowestPrice(rows, History.DEFAULT_BATCH) == Some(100.0);
    assert [Listing(JStr("EEE"), JNum(20.0))][..0] == [];
  }
}
