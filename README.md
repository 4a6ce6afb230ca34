# Near-minimum share screener, modelled in Dafny

`fetch_near_minimum.py` takes the most traded shares on the exchange's TQBR board and, for each one,
looks for the lowest daily close in its history and reads the current price. The intended
history window is the last four years, but the code sends something else as the start date; see
"## Left out". It then reports the shares
whose current price is at most 15 % above that minimum, and separately those at most 100 % above it,
each list sorted by that relative distance.

The model covers:

- `wrappers.dfy`: `Option` (Python's `None`) and `Result` (a value, or the exception a call raised).
- `iss.dfy`: the exchange's JSON response tables (column names plus rows of cells), `list.index` as
  `IndexOf`, and the errors reading a response can raise.
- `listings.dfy`: `get_top_securities`. It locates the SECID and VALTODAY columns by name and zips
  the two row lists. It is a method with a `for` loop.
- `history.dfy`: `get_min_price`. This is the paged `while True` loop: it caps the page size, asks for
  pages at offsets 0, b, 2b, … until a page is empty or short, collects the non-null CLOSE values and
  takes their minimum. The method is proved against the functions `Offsets` (the requests issued) and
  `LowestPrice` (the result). Lemmas show how many requests there are, that the pages cover the window
  exactly once, and what the minimum means.
- `quotes.dfy`: `get_current_price`. It returns LAST when that column is present and not null, falls
  back to PREVCLOSE, and returns `None` otherwise.
- `screening.dfy`: the screening loop of `main` (lines 120-159). It classifies each instrument into
  the near and moderate buckets and sorts both buckets stably by distance. `Run` adds the checks
  around the top list.
- `fallthrough.dfy`: the same loop with its exception handler as written. It is used only to show the
  discrepancies listed under "## Findings". Everything else uses the corrected loop in `screening.dfy`.

The exchange is the parameter `api: Api`. It is a function from a SECID to the answers for that
instrument: the history rows of the window, or the error a page request raised, and the marketdata
block. Prices are exact `real` numbers.

## Model

| member | source | states |
|---|---|---|
| History.CapBatch | fetch_near_minimum.py:40-41 | the page size never exceeds 100; a larger `count_batch` becomes 100, a smaller one is kept |
| History.MinPrice | fetch_near_minimum.py:49-76 | the loop issues exactly the requests `Offsets` describes, n / b + 1 of them for a window of n rows, and returns `LowestPrice` of the window |
| History.RequestCount | fetch_near_minimum.py:53-75 | with page size b >= 1, requests go to offsets 0, b, 2b, … and there are n / b + 1 of them |
| History.OffsetsShape | fetch_near_minimum.py:61-75 | the k-th request starts at from + k * b, and the last one starts at most at n and within b of it |
| History.PageSizes | fetch_near_minimum.py:70-75 | every page but the last is full; the last page is empty or short, which is where the loop stops |
| History.FullPages | fetch_near_minimum.py:73-75 | every request before the last returns a full page of b rows, so the loop moves on to the next offset |
| History.LastPage | fetch_near_minimum.py:70-74 | the last request returns an empty or short page, so the loop stops there |
| History.PagesCover | fetch_near_minimum.py:53-75 | the requested pages, concatenated, are exactly the window's rows, so each row is read once |
| History.PresentConcat | fetch_near_minimum.py:72 | collecting prices page by page equals collecting them from the concatenated pages |
| History.PresentMembers | fetch_near_minimum.py:72 | a price is collected exactly when some row carries it; null rows contribute nothing |
| History.PresentEmpty | fetch_near_minimum.py:72 | nothing is collected exactly when every row is null |
| History.MinOf | fetch_near_minimum.py:76 | `None` exactly for an empty list; otherwise a member of the list that is at most every element |
| History.LowestPriceIsMinimum | fetch_near_minimum.py:72-76 | the result is `None` exactly when no row has a price; otherwise it is a price of the window and at most every price there |
| Iss.IndexOf | fetch_near_minimum.py:24-25 | `None` exactly when the name is not a column; otherwise the first position holding the name |
| Listings.TopSecurities | fetch_near_minimum.py:24-35 | a missing SECID or VALTODAY column raises; a short row raises; otherwise the result has as many entries as the shorter of the two row lists, entry i pairing row i's SECID with row i's VALTODAY |
| Quotes.CurrentPrice | fetch_near_minimum.py:100-102 | a marketdata block without rows raises IndexError |
| Quotes.LastWins | fetch_near_minimum.py:105-108 | when LAST is present and a number, it is the price, whatever PREVCLOSE holds |
| Quotes.PrevCloseFallback | fetch_near_minimum.py:109-110 | when LAST is missing or null, PREVCLOSE's number is the price |
| Quotes.NoPrice | fetch_near_minimum.py:108-112 | when neither column gives a value, the result is `None` and not an error |
| Quotes.PriceSource | fetch_near_minimum.py:105-112 | conversely, a price comes from LAST, or from PREVCLOSE only when LAST gives none; `None` only when both give none |
| Screening.Classify | fetch_near_minimum.py:135-152 | no current price, a zero minimum or no minimum at all is a skip; otherwise the distance (current - min) / min decides: near when at most 0.15, moderate above 0.15 and at most 1, discarded above 1; the record carries secid, distance, both prices and volume |
| Screening.Resolve | fetch_near_minimum.py:130-140 | a failed history or marketdata request is a skip; a near or moderate record carries the instrument's SECID and volume, the window's lowest price as its minimum, and `get_current_price`'s value as its current price |
| Screening.SortByDiff | fetch_near_minimum.py:154 | sorting keeps the bucket's length; `SortAscending`, `SortPermutes` and `SortStable` give the order, the permutation and the stability |
| Screening.InsertPermutes | fetch_near_minimum.py:154 | inserting a record into a bucket adds exactly that record |
| Screening.InsertAscending | fetch_near_minimum.py:154 | inserting into an ascending bucket keeps it ascending |
| Screening.InsertStable | fetch_near_minimum.py:154 | insertion keeps the order of records that have the same distance |
| Screening.SortAscending | fetch_near_minimum.py:154 | the sorted bucket is ascending by distance |
| Screening.SortPermutes | fetch_near_minimum.py:154 | the sorted bucket is a permutation of the unsorted one |
| Screening.SortStable | fetch_near_minimum.py:154 | the sort is stable: records with the same distance keep their encounter order |
| Screening.SortedMembers | fetch_near_minimum.py:154 | sorting neither adds nor drops a record |
| Screening.NearMembers | fetch_near_minimum.py:145-147 | a record is in `result` exactly when some listed instrument was classified near with that record |
| Screening.ModerateMembers | fetch_near_minimum.py:148-150 | a record is in `result_more` exactly when some listed instrument was classified moderate with that record |
| Screening.ReportBounds | fetch_near_minimum.py:145-152 | every reported near record is at most 0.15 above its minimum; every moderate record is above 0.15 and at most 1; no record is in both lists |
| Screening.ReportOrder | fetch_near_minimum.py:154-159 | both reported lists are ascending by distance, are permutations of the unsorted lists, and keep equal distances in encounter order |
| Screening.CollectConcat | fetch_near_minimum.py:128-152 | instruments are screened independently: the buckets of two consecutive lists are the concatenation of their buckets |
| Screening.DroppedInstrument | fetch_near_minimum.py:128-152 | an instrument that is skipped or discarded leaves both buckets and the report as they would be without it |
| Screening.FailedRequestSkips | fetch_near_minimum.py:130-140 | a failed history or marketdata request makes the instrument a skip |
| Screening.ClassifyBoundaries | fetch_near_minimum.py:141-152 | with minimum 100: 115 and 95 are near, 115.0001 and 200 are moderate, 200.0001 is discarded at distance 1.000001; a zero minimum is a skip |
| Screening.SortExample | fetch_near_minimum.py:154 | distances 0.10, -0.05, 0.15 sort to -0.05, 0.10, 0.15 |
| Screening.ScenarioAAA | fetch_near_minimum.py:128-147 | a share with minimum 50 and LAST 55 is near at distance 0.1 |
| Screening.ScenarioBBB | fetch_near_minimum.py:141-143 | a share whose window holds a zero close is skipped |
| Screening.Scenario | fetch_near_minimum.py:126-159 | the two shares above give a near list holding only the first share and an empty moderate list |
| Screening.Screen | fetch_near_minimum.py:126-159 | the loop fills and sorts the buckets exactly as `Report` says, and both lists come out ascending by distance |
| Screening.Run | fetch_near_minimum.py:120-125 | an unreadable top list or an empty one stops the run with an error; otherwise the result is the report over the zipped list |
| Fallthrough.AfterTry | fetch_near_minimum.py:141-144 | reading an unassigned `min_price` raises; when the code gets past it, the variables are unchanged |
| Fallthrough.StepAsWritten | fetch_near_minimum.py:128-140 | a failed history request leaves both variables as the previous iteration set them, and raises UnboundLocalError when `min_price` was never set; a history that succeeds sets `min_price` to the window's lowest price; a failed marketdata request then leaves `current_price` as it was |
| Fallthrough.CollectAsWritten | fetch_near_minimum.py:126-152 | the loop as written adds at most one record per instrument, and after any instrument `min_price` is set |
| Fallthrough.StepAgrees | fetch_near_minimum.py:128-152 | when no request fails and the window has a price, an iteration as written gives the corrected verdict, whatever the variables held before |
| Fallthrough.AgreesWithoutFailures | fetch_near_minimum.py:126-152 | on such a list the loop as written never crashes and fills the same buckets as the corrected loop |
| Fallthrough.StaleValues | fetch_near_minimum.py:137-147 | a failed history request after an instrument that succeeded files the failed one with the previous instrument's distance and prices; the corrected loop leaves it out |
| Fallthrough.FirstFailureCrashes | fetch_near_minimum.py:137-141 | when the first instrument's history request fails, the loop as written reads an unassigned `min_price` and crashes; the corrected loop skips the instrument |
| Fallthrough.StaleCurrentPrice | fetch_near_minimum.py:133-147 | a failed marketdata request after an instrument that succeeded files the failed one with its own minimum 100 but the previous instrument's current price 55, at distance -0.45; the corrected loop skips it |
| Fallthrough.FirstMarketdataFailureCrashes | fetch_near_minimum.py:133-144 | when the first instrument's marketdata request fails and its minimum is not zero, the loop as written reads an unassigned `current_price` at line 144 and crashes; the corrected loop skips the instrument |
| Fallthrough.NoMinimumCrashes | fetch_near_minimum.py:76 | a window without any price makes the subtraction at line 144 raise; the corrected loop skips the instrument |

## Left out

- HTTP and JSON transport are not modelled: `fetch_json`, `requests.get`, `raise_for_status` and `urlencode`, and the URL and query parameters (lines 5-10, 14-22, 43-47, 54-67, 85-100). A failed request or an undecodable body is the error `Transport`.
- The dates (`start_date` and `end_date`, lines 115-118) are not modelled. `api` returns the rows of an instrument's history directly.
- The `print` output (lines 116-162) is not modelled, including the formatting of the two reports.
- The `limit_top = 100` and `limit` request parameters are not modelled. The exchange decides which rows the top list holds and in what order. Sorting by VALTODAY is the server's job.
- Screening.Resolve: a request that raises is modelled as a clean skip. The code as written falls through with stale or unassigned variables, as shown under "## Findings".
- Screening.Classify: a window with no price is modelled as the skip `NoMinimum`. The code as written raises TypeError at line 144, as shown under "## Findings".
- History.MinPrice: a page request that fails partway is modelled as the whole history failing (`Responses.history` is an `Err`). Pages are cut from one fixed window, so the model has no page count cap or repeated page. Line 49 overwrites the `start` date argument with 0, and line 55 then sends the page offset (0, 100, 200, …) as the `from` date, so `main`'s `start_date` never reaches the exchange and `from` changes from page to page. The model assumes the exchange returns one fixed list of rows for every page of an instrument, whatever `from` says, and cuts each page from that list by `start` and `limit`.
- History.Page: a non-positive `count_batch` is modelled as giving one empty page, so the result is `None`. The exchange's real answer to `limit <= 0` is not part of this model. In the code, `len(rows) < count_batch` is then never true, so line 75 asks for the same offset again and the loop never ends if the exchange returns any row. `main` always passes 100, so this cannot happen from `main`.
- Quotes.ToPrice: `float()` of a string cell is modelled as an error, even though Python would parse a numeric string.
- Screening.Classify: prices and distances are exact reals, not IEEE doubles. A distance that lands exactly on 0.15 or 1 after rounding may be bucketed differently by the program.
- Quotes.CurrentPrice: the code raises IndexError on a marketdata block without rows, and the model follows the code. The documented behaviour leaves that case open.
- `api` is deterministic: the same SECID always gets the same answers within a run.

## Findings

| source | as written | input that shows it | evidently intended | confidence | as-written member | corrected member |
|---|---|---|---|---|---|---|
| fetch_near_minimum.py:137-140 | after a failed history request, the handler prints and falls through to the classification with the previous iteration's `min_price` and `current_price` | AAA answers normally (min 50, LAST 55); CCC's history request fails: CCC is filed near at distance 0.1 with AAA's prices | skip the instrument (the `continue` that is commented out at line 140) | high, not executed | Fallthrough.StaleValues | Screening.DroppedInstrument |
| fetch_near_minimum.py:131-141 | when the first instrument's history request fails, line 141 reads `min_price` before any assignment | CCC first in the list, its history request failing: UnboundLocalError ends the run | skip the instrument | high, not executed | Fallthrough.FirstFailureCrashes | Screening.FailedRequestSkips |
| fetch_near_minimum.py:133-147 | after a failed marketdata request, the handler falls through with this instrument's `min_price` and the previous instrument's `current_price` | AAA answers normally; EEE's history has close 100 and its marketdata request fails: EEE is filed near at distance -0.45 with AAA's current price 55 | skip the instrument | high, not executed | Fallthrough.StaleCurrentPrice | Screening.FailedRequestSkips |
| fetch_near_minimum.py:141-144 | `get_min_price` returns `None` for a window without prices; only `== 0` is tested, so `current_price - None` raises outside the try | DDD with history `[null]` and LAST 5.0: TypeError ends the run | skip the instrument | medium, not executed | Fallthrough.NoMinimumCrashes | Screening.Classify |
