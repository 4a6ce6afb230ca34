/** The paged history query of `get_min_price`: the smallest CLOSE price over a date window. */
module History {
  import opened Wrappers

  /** The largest page the loop asks for; `count_batch` above it is cut down. */
  const MAX_BATCH: int := 100
  /** The `count_batch` the screener passes (the parameter's default). */
  const DEFAULT_BATCH: int := 100

  /** One history row's CLOSE cell; `None` for a session without trades. */
  type Row = Option<real>

  /** The page size the loop actually uses for a requested `count_batch`. */
  function CapBatch(countBatch: int): (batch: int)
    ensures batch <= MAX_BATCH
    ensures countBatch > MAX_BATCH ==> batch == MAX_BATCH
    ensures countBatch <= MAX_BATCH ==> batch == countBatch
  {
    if countBatch > MAX_BATCH then MAX_BATCH else countBatch
  }

  /**
   * The page the history endpoint returns for `start = offset, limit = limit` when the whole
   * window holds `rows`: the rows from `offset` on, at most `limit` of them. A limit that is
   * not positive is taken to give an empty page.
   */
  function Page(rows: seq<Row>, offset: nat, limit: int): seq<Row> {
    if limit <= 0 || offset >= |rows| then []
    else rows[offset .. Min(offset + limit, |rows|)]
  }

  /** The pages requested at `offsets`, in request order. */
  function PagesAt(rows: seq<Row>, offsets: seq<nat>, limit: int): (pages: seq<seq<Row>>)
    ensures |pages| == |offsets|
  {
    if offsets == [] then [] else [Page(rows, offsets[0], limit)] + PagesAt(rows, offsets[1..], limit)
  }

  /** The rows of several pages, one page after the other. */
  function Flatten(pages: seq<seq<Row>>): seq<Row> {
    if pages == [] then [] else pages[0] + Flatten(pages[1..])
  }

  /** The prices of the rows that have one, in order; an absent price contributes nothing. */
  function Present(rows: seq<Row>): seq<real> {
    if rows == [] then []
    else (if rows[0].Some? then [rows[0].value] else []) + Present(rows[1..])
  }

  /** Python's `min(lows) if lows else None`. */
  function MinOf(xs: seq<real>): (m: Option<real>)
    ensures m.None? <==> xs == []
    ensures m.Some? ==> m.value in xs
    ensures m.Some? ==> forall i :: 0 <= i < |xs| ==> m.value <= xs[i]
  {
    if xs == [] then None
    else
      var rest := MinOf(xs[1..]);
      if rest.None? || xs[0] <= rest.value then Some(xs[0]) else rest
  }

  /** What `get_min_price` returns when the date window holds `rows`. */
  function LowestPrice(rows: seq<Row>, countBatch: int): Option<real> {
    if CapBatch(countBatch) >= 1 then MinOf(Present(rows)) else None
  }

  lemma {:induction false} PresentConcat(a: seq<Row>, b: seq<Row>)
    ensures Present(a + b) == Present(a) + Present(b)
  {
    if a == [] {
      assert a + b == b;
    } else {
      assert (a + b)[0] == a[0];
      assert (a + b)[1..] == a[1..] + b;
      PresentConcat(a[1..], b);
    }
  }

  /** A price is collected exactly when some row carries it: absent rows never become a value. */
  lemma {:induction false} PresentMembers(rows: seq<Row>, x: real)
    ensures x in Present(rows) <==> Some(x) in rows
  {
    if rows != [] {
      PresentMembers(rows[1..], x);
      assert rows == [rows[0]] + rows[1..];
    }
  }

  lemma {:induction false} PresentEmpty(rows: seq<Row>)
    ensures Present(rows) == [] <==> forall i :: 0 <= i < |rows| ==> rows[i].None?
  {
    if rows != [] {
      PresentEmpty(rows[1..]);
      assert forall i :: 1 <= i < |rows| ==> rows[i] == rows[1..][i - 1];
    }
  }

  /**
   * `get_min_price` is `None` exactly when no row of the window has a price; otherwise it is a
   * price that occurs in the window and is at most every price there.
   */
  lemma LowestPriceIsMinimum(rows: seq<Row>, countBatch: int)
    requires countBatch >= 1
    ensures LowestPrice(rows, countBatch).None? <==> forall i :: 0 <= i < |rows| ==> rows[i].None?
    ensures LowestPrice(rows, countBatch).Some? ==>
      && Some(LowestPrice(rows, countBatch).value) in rows
      && forall i :: 0 <= i < |rows| && rows[i].Some? ==> LowestPrice(rows, countBatch).value <= rows[i].value
  {
    PresentEmpty(rows);
    var m := LowestPrice(rows, countBatch);
    if m.Some? {
      PresentMembers(rows, m.value);
      forall i | 0 <= i < |rows| && rows[i].Some?
        ensures m.value <= rows[i].value
      {
        PresentMembers(rows, rows[i].value);
      }
    }
  }

  lemma {:induction false} MulMonotonic(a: int, c: int, b: nat)
    requires a <= c
    ensures a * b <= c * b
    decreases c - a
  {
    if a < c {
      MulMonotonic(a, c - 1, b);
      assert c * b == (c - 1) * b + b;
    }
  }

  /** `q` is `n / b` when `q * b <= n < (q + 1) * b`. */
  lemma DivisionCount(n: nat, b: int, q: nat)
    requires b >= 1 && q * b <= n < (q + 1) * b
    ensures n / b == q
  {
    var d, r := n / b, n % b;
    assert n == d * b + r && 0 <= r < b;
    assert (d - q) * b == n - r - q * b;
    if d > q {
      MulMonotonic(1, d - q, b);
      assert false;
    } else if d < q {
      MulMonotonic(1, q - d, b);
      assert false;
    }
  }

  /**
   * The offsets `get_min_price` requests from `from` on, for a window of `n` rows and page size
   * `b`: a request at each offset, continuing while a full page of `b` rows fits.
   */
  function Offsets(n: nat, b: int, from: nat): seq<nat>
    decreases n - from
  {
    if b >= 1 && from + b <= n then [from] + Offsets(n, b, from + b) else [from]
  }

  lemma {:induction false} OffsetsShape(n: nat, b: int, from: nat)
    requires b >= 1 && from <= n
    ensures |Offsets(n, b, from)| >= 1
    ensures forall k :: 0 <= k < |Offsets(n, b, from)| ==> Offsets(n, b, from)[k] == from + k * b
    ensures from + (|Offsets(n, b, from)| - 1) * b <= n < from + |Offsets(n, b, from)| * b
    decreases n - from
  {
    var offs := Offsets(n, b, from);
    if from + b <= n {
      var rest := Offsets(n, b, from + b);
      OffsetsShape(n, b, from + b);
      assert offs == [from] + rest;
      forall k | 1 <= k < |offs|
        ensures offs[k] == from + k * b
      {
        assert offs[k] == rest[k - 1] == from + b + (k - 1) * b;
      }
      assert (|offs| - 1) * b == b + (|rest| - 1) * b;
      assert |offs| * b == b + |rest| * b;
    }
  }

  /**
   * On a window of `n` rows with page size `b >= 1`, requests go to offsets 0, b, 2b, ...,
   * and exactly n / b + 1 of them are issued.
   */
  lemma RequestCount(n: nat, b: int)
    requires b >= 1
    ensures |Offsets(n, b, 0)| == n / b + 1
    ensures forall k :: 0 <= k < |Offsets(n, b, 0)| ==> Offsets(n, b, 0)[k] == k * b
  {
    OffsetsShape(n, b, 0);
    DivisionCount(n, b, |Offsets(n, b, 0)| - 1);
  }

  /** A request inside the window gets `b` rows when that many remain, and the remainder otherwise. */
  lemma PageLength(rows: seq<Row>, offset: nat, b: int)
    requires b >= 1 && offset <= |rows|
    ensures |Page(rows, offset, b)| == if offset + b <= |rows| then b else |rows| - offset
  {
  }

  /** Every page but the last is full: the loop goes on after each of them. */
  lemma {:induction false} FullPages(rows: seq<Row>, b: int, from: nat)
    requires b >= 1 && from <= |rows|
    ensures var offs := Offsets(|rows|, b, from);
      forall k :: 0 <= k < |offs| - 1 ==> |Page(rows, offs[k], b)| == b
    decreases |rows| - from
  {
    var offs := Offsets(|rows|, b, from);
    if from + b <= |rows| {
      var rest := Offsets(|rows|, b, from + b);
      assert offs == [from] + rest;
      PageLength(rows, from, b);
      var next: nat := from + b;
      FullPages(rows, b, next);
      assert forall j :: 0 <= j < |Offsets(|rows|, b, next)| - 1 ==> |Page(rows, Offsets(|rows|, b, next)[j], b)| == b;
      forall k | 1 <= k < |offs| - 1
        ensures |Page(rows, offs[k], b)| == b
      {
        assert offs[k] == rest[k - 1];
        assert 0 <= k - 1 < |rest| - 1;
        assert |Page(rows, rest[k - 1], b)| == b;
      }
    }
  }

  /** The last page is empty or short: where the loop stops. */
  lemma {:induction false} LastPage(rows: seq<Row>, b: int, from: nat)
    requires b >= 1 && from <= |rows|
    ensures var offs := Offsets(|rows|, b, from);
      |offs| >= 1 && |Page(rows, offs[|offs| - 1], b)| < b
    decreases |rows| - from
  {
    var offs := Offsets(|rows|, b, from);
    if from + b <= |rows| {
      var rest := Offsets(|rows|, b, from + b);
      assert offs == [from] + rest;
      LastPage(rows, b, from + b);
      var last := rest[|rest| - 1];
      assert |Page(rows, last, b)| < b;
      assert |offs| == |rest| + 1;
      assert offs[|offs| - 1] == last;
    } else {
      assert offs == [from];
      PageLength(rows, from, b);
    }
  }

  /** Every page but the last is full, and the last is empty or short: where the loop stops. */
  lemma PageSizes(rows: seq<Row>, b: int, from: nat)
    requires b >= 1 && from <= |rows|
    ensures var offs := Offsets(|rows|, b, from);
      forall k :: 0 <= k < |offs| - 1 ==> |Page(rows, offs[k], b)| == b
    ensures var offs := Offsets(|rows|, b, from);
      |Page(rows, offs[|offs| - 1], b)| < b
  {
    FullPages(rows, b, from);
    LastPage(rows, b, from);
  }

  lemma PagesAtCons(rows: seq<Row>, offset: nat, offsets: seq<nat>, limit: int)
    ensures PagesAt(rows, [offset] + offsets, limit) == [Page(rows, offset, limit)] + PagesAt(rows, offsets, limit)
  {
    assert ([offset] + offsets)[1..] == offsets;
  }

  lemma FlattenCons(page: seq<Row>, pages: seq<seq<Row>>)
    ensures Flatten([page] + pages) == page + Flatten(pages)
  {
    assert ([page] + pages)[1..] == pages;
  }

  lemma PageSlice(rows: seq<Row>, offset: nat, b: int)
    requires b >= 1 && offset <= |rows|
    ensures offset + b <= |rows| ==> Page(rows, offset, b) == rows[offset..offset + b]
    ensures offset + b > |rows| ==> Page(rows, offset, b) == rows[offset..]
  {
  }

  /** The pages, one after the other, are exactly the window's rows: each row is fetched once. */
  lemma {:induction false} PagesCover(rows: seq<Row>, b: int, from: nat)
    requires b >= 1 && from <= |rows|
    ensures Flatten(PagesAt(rows, Offsets(|rows|, b, from), b)) == rows[from..]
    decreases |rows| - from
  {
    var page := Page(rows, from, b);
    PageSlice(rows, from, b);
    if from + b <= |rows| {
      var rest := Offsets(|rows|, b, from + b);
      var pages := PagesAt(rows, rest, b);
      calc {
        Flatten(PagesAt(rows, Offsets(|rows|, b, from), b));
        { assert Offsets(|rows|, b, from) == [from] + rest; }
        Flatten(PagesAt(rows, [from] + rest, b));
        { PagesAtCons(rows, from, rest, b); }
        Flatten([page] + pages);
        { FlattenCons(page, pages); }
        page + Flatten(pages);
        { PagesCover(rows, b, from + b); }
        rows[from..from + b] + rows[from + b..];
        { assert rows[from..] == rows[from..from + b] + rows[from + b..]; }
        rows[from..];
      }
    } else {
      assert Offsets(|rows|, b, from) == [from] + [];
      PagesAtCons(rows, from, [], b);
      FlattenCons(page, []);
      assert page + [] == page;
    }
  }

  /** How many requests the loop issues for a requested `count_batch`. */
  lemma RequestTally(n: nat, countBatch: int)
    ensures CapBatch(countBatch) >= 1 ==> |Offsets(n, CapBatch(countBatch), 0)| == n / CapBatch(countBatch) + 1
    ensures CapBatch(countBatch) < 1 ==> Offsets(n, CapBatch(countBatch), 0) == [0]
  {
    if CapBatch(countBatch) >= 1 {
      RequestCount(n, CapBatch(countBatch));
    }
  }

  /** What one request of the loop brings: where it stands in `Offsets`, and the rows it adds. */
  lemma PageStep(rows: seq<Row>, start: nat, batch: int)
    requires start <= |rows| && (batch >= 1 || start == 0)
    ensures var page := Page(rows, start, batch);
      |page| == 0 ==> Offsets(|rows|, batch, start) == [start] && (batch >= 1 ==> rows[..start] == rows)
    ensures var page := Page(rows, start, batch);
      |page| > 0 ==> Present(rows[..start]) + Present(page) == Present(rows[..start + |page|]) && start + |page| <= |rows|
    ensures var page := Page(rows, start, batch);
      0 < |page| < batch ==> Offsets(|rows|, batch, start) == [start] && rows[..start + |page|] == rows
    ensures var page := Page(rows, start, batch);
      batch >= 1 && |page| >= batch ==>
        && |page| == batch && start + batch <= |rows|
        && Offsets(|rows|, batch, start) == [start] + Offsets(|rows|, batch, start + batch)
  {
    var page := Page(rows, start, batch);
    if |page| > 0 {
      assert rows[..start] + page == rows[..start + |page|];
      PresentConcat(rows[..start], page);
    }
  }

  /**
   * `get_min_price`: requests pages of the window's history at offsets 0, b, 2b, ... until a
   * page comes back empty or short, collects the prices that are present, and returns the
   * smallest. `offsets` records the `start` of every request issued.
   */
  method MinPrice(rows: seq<Row>, countBatch: int) returns (low: Option<real>, offsets: seq<nat>)
    ensures offsets == Offsets(|rows|, CapBatch(countBatch), 0)
    ensures CapBatch(countBatch) >= 1 ==> |offsets| == |rows| / CapBatch(countBatch) + 1
    ensures CapBatch(countBatch) < 1 ==> offsets == [0]
    ensures low == LowestPrice(rows, countBatch)
  {
    var batch := CapBatch(countBatch);
    RequestTally(|rows|, countBatch);
    var lows: seq<real> := [];
    var start: nat := 0;
    offsets := [];
    while true
      invariant start <= |rows|
      invariant batch >= 1 || start == 0
      invariant offsets + Offsets(|rows|, batch, start) == Offsets(|rows|, batch, 0)
      invariant lows == Present(rows[..start])
      decreases |rows| - start
    {
      var page := Page(rows, start, batch);
      PageStep(rows, start, batch);
      if |page| == 0 {
        offsets := offsets + [start];
        low := MinOf(lows);
        return;
      }
      lows := lows + Present(page);
      if |page| < batch {
        offsets := offsets + [start];
        low := MinOf(lows);
        return;
      }
      assert (offsets + [start]) + Offsets(|rows|, batch, start + batch) == offsets + Offsets(|rows|, batch, start);
      offsets := offsets + [start];
      start := start + batch;
    }
  }
}
