/**
 Keyset pagination of a MySQL table: the full dump and the incremental stream.

 A generator is modelled by the list of tables its successive SELECTs see, so
 the table may change arbitrarily between two pages, and by where that list
 ends: a consumer that stops early is a short list.
 */
module MysqlStream {
  import opened Wrappers
  import opened Keyset

  /** The rows of a run of batches, in the order they were yielded. */
  function Flat(batches: seq<seq<Row>>): seq<Row>
  {
    if batches == [] then [] else batches[0] + Flat(batches[1..])
  }

  /** An empty page is no batch. */
  function Batch(page: seq<Row>): seq<seq<Row>>
  {
    if page == [] then [] else [page]
  }

  lemma FlatBatch(page: seq<Row>, rest: seq<seq<Row>>)
    ensures Flat(Batch(page) + rest) == page + Flat(rest)
  {
    if page == [] {
      assert Batch(page) + rest == rest && page + Flat(rest) == Flat(rest);
    }
  }

  function Yielded(batches: seq<seq<Row>>, page: seq<Row>): seq<seq<Row>>
  {
    if page == [] then batches else batches + [page]
  }

  lemma YieldMoves(whole: seq<seq<Row>>, batches: seq<seq<Row>>, page: seq<Row>, rest: seq<seq<Row>>)
    requires whole == batches + (Batch(page) + rest)
    ensures whole == Yielded(batches, page) + rest
  {
    if page == [] {
      assert Batch(page) + rest == rest;
    } else {
      assert batches + ([page] + rest) == (batches + [page]) + rest;
    }
  }

  lemma {:induction false} FlatSnoc(batches: seq<seq<Row>>, b: seq<Row>)
    ensures Flat(batches + [b]) == Flat(batches) + b
  {
    if batches == [] {
      assert batches + [b] == [b] + [];
    } else {
      FlatSnoc(batches[1..], b);
      assert batches + [b] == [batches[0]] + (batches[1..] + [b]);
    }
  }

  // ---------------------------------------------------------------- full dump

  predicate Past(last: Option<Key>, r: Row)
  {
    last.Some? ==> Less(last.value, r.key)
  }

  /** `WHERE (pk...) > (?...)`, absent on the first page of a fresh dump. */
  function WhereAfter(t: set<Row>, last: Option<Key>): set<Row>
  {
    set r | r in t && Past(last, r)
  }

  /** An empty `startAfter` array counts as none. */
  function StartCursor(startAfter: Option<Key>): Option<Key>
  {
    if startAfter.Some? && |startAfter.value| > 0 then startAfter else None
  }

  /** `lastValues` once `rows` have been yielded. */
  function CursorAfter(last: Option<Key>, rows: seq<Row>): Option<Key>
  {
    if rows == [] then last else Some(rows[|rows| - 1].key)
  }

  /**
   The source as the dump sees it: the rows its `i`-th SELECT returns for a given cursor and LIMIT.
   `ServesDump` ties the answers to the tables present at each SELECT, which writers may change at will.
   */
  type DumpQuery = (nat, Option<Key>, nat) -> seq<Row>

  ghost predicate ServesDump(query: DumpQuery, seen: nat -> set<Row>)
  {
    forall i: nat, last, n: nat {:trigger query(i, last, n)} ::
      KeysUnique(seen(i)) && IsPage(ByKey, WhereAfter(seen(i), last), n, query(i, last, n))
  }

  /** The rows a dump yields, the number of SELECTs issued by then, and whether it ended by itself. */
  datatype DumpRun = DumpRun(rows: seq<Row>, pages: nat, complete: bool)

  function Prepend(rows: seq<Row>, d: DumpRun): DumpRun
  {
    d.(rows := rows + d.rows)
  }

  /**
   The dump from its `i`-th SELECT on, abandoned by its consumer before SELECT number `budget`:
   the reference for `StreamTableData`.
   */
  function Dump(query: DumpQuery, i: nat, budget: nat, batchSize: nat, last: Option<Key>): (d: DumpRun)
    requires i <= budget
    ensures i <= d.pages <= budget
    decreases budget - i
  {
    if i == budget then DumpRun([], i, false)
    else
      var page := query(i, last, batchSize);
      if |page| != batchSize then DumpRun(page, i + 1, true)
      else Prepend(page, Dump(query, i + 1, budget, batchSize, CursorAfter(last, page)))
  }

  /** The batches that dump yields: its pages without an empty one. */
  function DumpBatches(query: DumpQuery, i: nat, budget: nat, batchSize: nat, last: Option<Key>)
    : seq<seq<Row>>
    requires i <= budget
    decreases budget - i
  {
    if i == budget then []
    else
      var page := query(i, last, batchSize);
      var rest := if |page| != batchSize then [] else
        DumpBatches(query, i + 1, budget, batchSize, CursorAfter(last, page));
      Batch(page) + rest
  }

  lemma {:induction false} DumpBatchesAreRows(query: DumpQuery, i: nat, budget: nat, batchSize: nat, last: Option<Key>)
    requires i <= budget
    ensures Flat(DumpBatches(query, i, budget, batchSize, last)) == Dump(query, i, budget, batchSize, last).rows
    ensures [] !in DumpBatches(query, i, budget, batchSize, last)
    decreases budget - i
  {
    if i < budget {
      var page := query(i, last, batchSize);
      if |page| == batchSize {
        FlatBatch(page, DumpBatches(query, i + 1, budget, batchSize, CursorAfter(last, page)));
        DumpBatchesAreRows(query, i + 1, budget, batchSize, CursorAfter(last, page));
      } else {
        FlatBatch(page, []);
        assert page + [] == page;
      }
    }
  }

  /** What is left of a dump at its `i`-th SELECT: the batches, and how it will end. */
  ghost predicate DumpLeaves(query: DumpQuery, i: nat, budget: nat, batchSize: nat, last: Option<Key>,
                             batches: seq<seq<Row>>, pages: nat, complete: bool)
    requires i <= budget
  {
    var d := Dump(query, i, budget, batchSize, last);
    batches == DumpBatches(query, i, budget, batchSize, last) && pages == d.pages && complete == d.complete
  }

  lemma DumpStep(query: DumpQuery, i: nat, budget: nat, batchSize: nat, last: Option<Key>, batches: seq<seq<Row>>,
                 pages: nat, complete: bool) returns (rest: seq<seq<Row>>)
    requires i < budget && DumpLeaves(query, i, budget, batchSize, last, batches, pages, complete)
    ensures var page := query(i, last, batchSize);
      && batches == Batch(page) + rest
      && (|page| != batchSize ==> rest == [] && pages == i + 1 && complete)
      && (|page| == batchSize ==>
            DumpLeaves(query, i + 1, budget, batchSize, CursorAfter(last, page), rest, pages, complete))
  {
    var page := query(i, last, batchSize);
    rest := if |page| != batchSize then [] else DumpBatches(query, i + 1, budget, batchSize, CursorAfter(last, page));
  }

  /** All that a dump is to yield, and how it will end. */
  lemma WholeDump(query: DumpQuery, i: nat, budget: nat, batchSize: nat, last: Option<Key>)
    returns (whole: seq<seq<Row>>, pages: nat, complete: bool)
    requires i <= budget
    ensures whole == DumpBatches(query, i, budget, batchSize, last) && [] !in whole
    ensures DumpRun(Flat(whole), pages, complete) == Dump(query, i, budget, batchSize, last)
    ensures DumpLeaves(query, i, budget, batchSize, last, whole, pages, complete)
  {
    whole := DumpBatches(query, i, budget, batchSize, last);
    pages, complete := Dump(query, i, budget, batchSize, last).pages, Dump(query, i, budget, batchSize, last).complete;
    DumpBatchesAreRows(query, i, budget, batchSize, last);
  }

  method StreamTableData(query: DumpQuery, budget: nat, batchSize: nat, startAfter: Option<Key>)
    returns (batches: seq<seq<Row>>, pages: nat, complete: bool)
    ensures batches == DumpBatches(query, 0, budget, batchSize, StartCursor(startAfter)) && [] !in batches
    ensures DumpRun(Flat(batches), pages, complete) == Dump(query, 0, budget, batchSize, StartCursor(startAfter))
  {
    var lastValues := if startAfter.Some? && |startAfter.value| > 0 then startAfter else None;
    batches, pages, complete := [], 0, false;
    ghost var whole, all, ends := WholeDump(query, pages, budget, batchSize, lastValues);
    ghost var rest := whole;
    while pages < budget && !complete
      invariant pages <= budget && whole == batches + rest
      invariant complete ==> rest == [] && all == pages && ends
      invariant !complete ==> DumpLeaves(query, pages, budget, batchSize, lastValues, rest, all, ends)
      decreases budget - pages
    {
      var batch := query(pages, lastValues, batchSize);
      ghost var next := DumpStep(query, pages, budget, batchSize, lastValues, rest, all, ends);
      YieldMoves(whole, batches, batch, next);
      rest := next;
      complete := |batch| != batchSize;
      pages := pages + 1;
      if |batch| > 0 {
        lastValues := Some(batch[|batch| - 1].key);
        batches := batches + [batch];
      }
    }
  }

  /** A page moves the cursor past its own rows and past no other. */
  lemma CursorAdvances(t: set<Row>, n: nat, last: Option<Key>, page: seq<Row>)
    requires KeysUnique(t) && IsPage(ByKey, WhereAfter(t, last), n, page)
    ensures var next := CursorAfter(last, page);
      && (forall r: Row | Past(next, r) :: Past(last, r) && forall p | p in page :: Before(ByKey, p, r))
      && (forall r | r in t && Past(last, r) && r !in page :: |page| == n && Past(next, r))
  {
    if page != [] {
      var m := page[|page| - 1];
      forall r: Row | Less(m.key, r.key)
        ensures Past(last, r) && forall p | p in page :: Before(ByKey, p, r)
      {
        assert m in WhereAfter(t, last);
        if last.Some? { LessTransitive(last.value, m.key, r.key); }
        forall p | p in page && p != m ensures Before(ByKey, p, r) {
          LastIsGreatest(ByKey, page, p);
          LessTransitive(p.key, m.key, r.key);
        }
      }
    }
  }

  /** No key is yielded twice, whatever writers do between pages: keys strictly increase. */
  lemma {:induction false} DumpKeysIncrease(query: DumpQuery, seen: nat -> set<Row>, i: nat, budget: nat,
                                            batchSize: nat, last: Option<Key>)
    requires i <= budget && ServesDump(query, seen)
    ensures var d := Dump(query, i, budget, batchSize, last);
      && IsSorted(ByKey, d.rows)
      && forall r | r in d.rows :: Past(last, r) && exists j :: i <= j < d.pages && r in seen(j)
    decreases budget - i
  {
    if i < budget {
      var page := query(i, last, batchSize);
      CursorAdvances(seen(i), batchSize, last, page);
      if |page| == batchSize {
        DumpKeysIncrease(query, seen, i + 1, budget, batchSize, CursorAfter(last, page));
        SortedConcat(ByKey, page, Dump(query, i + 1, budget, batchSize, CursorAfter(last, page)).rows);
      }
    }
  }

  ghost predicate HasRowOf(t: set<Row>, k: Key)
  {
    exists r :: r in t && r.key == k
  }

  /** A finished dump yields a row of every key that was in the table all along, changed or not. */
  lemma {:induction false} DumpYieldsKeys(query: DumpQuery, seen: nat -> set<Row>, i: nat, budget: nat, batchSize: nat,
                                          last: Option<Key>, k: Key) returns (r: Row)
    requires i <= budget && ServesDump(query, seen)
    requires Dump(query, i, budget, batchSize, last).complete
    requires last.Some? ==> Less(last.value, k)
    requires forall j | i <= j < Dump(query, i, budget, batchSize, last).pages :: HasRowOf(seen(j), k)
    ensures r.key == k && r in Dump(query, i, budget, batchSize, last).rows
    decreases budget - i
  {
    var page := query(i, last, batchSize);
    CursorAdvances(seen(i), batchSize, last, page);
    r :| r in seen(i) && r.key == k;
    if |page| == batchSize && r !in page {
      r := DumpYieldsKeys(query, seen, i + 1, budget, batchSize, CursorAfter(last, page), k);
    }
  }

  /** In particular every row that no writer touched while it ran. */
  lemma {:induction false} DumpYieldsUntouchedRows(query: DumpQuery, seen: nat -> set<Row>, i: nat, budget: nat,
                                                   batchSize: nat, last: Option<Key>, r: Row)
    requires i <= budget && ServesDump(query, seen)
    requires Dump(query, i, budget, batchSize, last).complete
    requires Past(last, r)
    requires forall j | i <= j < Dump(query, i, budget, batchSize, last).pages :: r in seen(j)
    ensures r in Dump(query, i, budget, batchSize, last).rows
    decreases budget - i
  {
    var page := query(i, last, batchSize);
    CursorAdvances(seen(i), batchSize, last, page);
    if |page| == batchSize && r !in page {
      DumpYieldsUntouchedRows(query, seen, i + 1, budget, batchSize, CursorAfter(last, page), r);
    }
  }

  lemma PastRow(t: set<Row>, last: Option<Key>, m: Row)
    requires Past(last, m)
    ensures WhereAfter(t, Some(m.key)) == Behind(ByKey, WhereAfter(t, last), m)
  {
    forall r: Row | Less(m.key, r.key) ensures Past(last, r) {
      if last.Some? { LessTransitive(last.value, m.key, r.key); }
    }
  }

  /** On a quiet table, the rows past the `n`-th of an ordering are what a cursor on that row leaves. */
  lemma OrderingAfter(t: set<Row>, last: Option<Key>, s: seq<Row>, n: nat)
    requires IsOrdering(ByKey, WhereAfter(t, last), s) && n <= |s|
    ensures IsOrdering(ByKey, WhereAfter(t, CursorAfter(last, s[..n])), s[n..])
  {
    if n > 0 {
      AnswerIsFrom(ByKey, WhereAfter(t, last), s, n - 1);
      PastRow(t, last, s[n - 1]);
      TailIsOrdering(ByKey, WhereAfter(t, last), s, n);
    }
  }

  /** The most rows `pages` pages can hold: `pages * batchSize`, see `CapacityIs`. */
  function Capacity(pages: nat, batchSize: nat): nat
  {
    if pages == 0 then 0 else batchSize + Capacity(pages - 1, batchSize)
  }

  lemma {:induction false} CapacityIs(pages: nat, batchSize: nat)
    ensures Capacity(pages, batchSize) == pages * batchSize
  {
    if pages > 0 {
      CapacityIs(pages - 1, batchSize);
      assert pages * batchSize == batchSize + (pages - 1) * batchSize;
    }
  }

  /** One page of a quiet table is the next piece of its ordering, and leaves the rest of it. */
  lemma QuietPage(query: DumpQuery, t: set<Row>, s: seq<Row>, i: nat, n: nat, last: Option<Key>)
    requires ServesDump(query, _ => t) && IsOrdering(ByKey, WhereAfter(t, last), s)
    ensures var page := query(i, last, n);
      if n <= |s| then page == s[..n] && IsOrdering(ByKey, WhereAfter(t, CursorAfter(last, page)), s[n..])
      else page == s
  {
    var seen := (_: nat) => t;
    var page := query(i, last, n);
    assert KeysUnique(seen(i)) && IsPage(ByKey, WhereAfter(seen(i), last), n, page);
    PageIsPrefix(ByKey, WhereAfter(t, last), n, page, s);
    OrderingAfter(t, last, s, |page|);
  }

  /** `d` has read `s` from its start: all of it if it ended by itself, which it did if its pages can hold more. */
  ghost predicate StartOf(d: DumpRun, s: seq<Row>, capacity: nat)
  {
    && |d.rows| <= |s| && d.rows == s[..|d.rows|]
    && (d.complete ==> |d.rows| == |s|)
    && (!d.complete ==> |d.rows| == capacity)
    && (d.complete <==> capacity > |s|)
  }

  /**
   A dump of a quiet table yields its rows in key order. It ends by itself exactly when the pages it may
   read can hold more rows than there are: never, with a batch size of 0.
   */
  lemma {:induction false} DumpOfQuietTable(query: DumpQuery, t: set<Row>, s: seq<Row>, i: nat, budget: nat,
                                            batchSize: nat, last: Option<Key>)
    requires i <= budget && ServesDump(query, _ => t)
    requires IsOrdering(ByKey, WhereAfter(t, last), s)
    ensures StartOf(Dump(query, i, budget, batchSize, last), s, Capacity(budget - i, batchSize))
    decreases budget - i
  {
    if i < budget {
      QuietPage(query, t, s, i, batchSize, last);
      if batchSize <= |s| {
        var next := CursorAfter(last, query(i, last, batchSize));
        DumpOfQuietTable(query, t, s[batchSize..], i + 1, budget, batchSize, next);
        PrependStart(Dump(query, i + 1, budget, batchSize, next), s, batchSize, Capacity(budget - i - 1, batchSize));
      }
    }
  }

  lemma PrependStart(d: DumpRun, s: seq<Row>, n: nat, capacity: nat)
    requires n <= |s| && StartOf(d, s[n..], capacity)
    ensures StartOf(Prepend(s[..n], d), s, n + capacity)
  {
    SliceOfRest(s, n, |d.rows|);
  }

  lemma SliceOfRest(s: seq<Row>, n: nat, m: nat)
    requires n + m <= |s|
    ensures s[..n] + s[n..][..m] == s[..n + m]
  {
  }

  /** Every dump from `last` yields rows of `s` from its start, and all of them when it finishes. */
  ghost predicate Yields(query: DumpQuery, last: Option<Key>, s: seq<Row>)
  {
    forall budget: nat, batchSize: nat {:trigger Dump(query, 0, budget, batchSize, last)} ::
      var d := Dump(query, 0, budget, batchSize, last); d.rows <= s && (d.complete ==> d.rows == s)
  }

  /** A dump resumed after `n` rows yields the others. */
  ghost predicate YieldsRest(query: DumpQuery, last: Option<Key>, s: seq<Row>, n: nat)
    requires n <= |s|
  {
    var next := CursorAfter(last, s[..n]);
    StartCursor(next) == next && Yields(query, next, s[n..])
  }

  lemma OrderingYields(query: DumpQuery, t: set<Row>, last: Option<Key>, s: seq<Row>)
    requires ServesDump(query, _ => t) && IsOrdering(ByKey, WhereAfter(t, last), s)
    ensures Yields(query, last, s)
  {
    forall budget: nat, batchSize: nat
      ensures var d := Dump(query, 0, budget, batchSize, last); d.rows <= s && (d.complete ==> d.rows == s)
    {
      DumpOfQuietTable(query, t, s, 0, budget, batchSize, last);
    }
  }

  lemma OrderingYieldsRest(query: DumpQuery, t: set<Row>, last: Option<Key>, s: seq<Row>, n: nat)
    requires ServesDump(query, _ => t) && IsOrdering(ByKey, WhereAfter(t, last), s) && n <= |s|
    requires last == StartCursor(last) && forall r | r in t :: r.key != []
    ensures YieldsRest(query, last, s, n)
  {
    OrderingAfter(t, last, s, n);
    OrderingYields(query, t, CursorAfter(last, s[..n]), s[n..]);
    if n > 0 {
      AnswerIsFrom(ByKey, WhereAfter(t, last), s, n - 1);
    }
  }

  lemma QuietYields(query: DumpQuery, t: set<Row>, last: Option<Key>) returns (s: seq<Row>)
    requires ServesDump(query, _ => t)
    requires last == StartCursor(last) && forall r | r in t :: r.key != []
    ensures Yields(query, last, s)
    ensures forall n | 0 <= n <= |s| :: YieldsRest(query, last, s, n)
  {
    var seen := (_: nat) => t;
    assert KeysUnique(seen(0)) by { var _ := query(0, None, 0); }
    s := OrderingExists(ByKey, WhereAfter(t, last));
    OrderingYields(query, t, last, s);
    forall n | 0 <= n <= |s| ensures YieldsRest(query, last, s, n) {
      OrderingYieldsRest(query, t, last, s, n);
    }
  }

  /**
   Resuming with `startAfter` set to the last key already dumped, with any batch size, completes an
   interrupted dump: together they are the uninterrupted dump.
   */
  lemma ResumeCompletesDump(query: DumpQuery, t: set<Row>, startAfter: Option<Key>, first: DumpRun, rest: DumpRun,
                            whole: DumpRun, budgets: (nat, nat, nat), batchSizes: (nat, nat, nat))
    requires ServesDump(query, _ => t)
    requires forall r | r in t :: r.key != []
    requires first == Dump(query, 0, budgets.0, batchSizes.0, StartCursor(startAfter))
    requires rest ==
             Dump(query, 0, budgets.1, batchSizes.1, StartCursor(CursorAfter(StartCursor(startAfter), first.rows)))
    requires whole == Dump(query, 0, budgets.2, batchSizes.2, StartCursor(startAfter))
    requires rest.complete && whole.complete
    ensures first.rows + rest.rows == whole.rows
  {
    var s := QuietYields(query, t, StartCursor(startAfter));
    var n := |first.rows|;
    assert first.rows == s[..n];
    assert YieldsRest(query, StartCursor(startAfter), s, n);
    assert rest.rows == s[n..];
  }

  // ------------------------------------------------------- incremental stream

  /** Where an incremental stream reads on: from the watermark, or past the last row of the last page. */
  datatype Cursor = Since(watermark: int) | AfterRow(row: Row)

  /** `WHERE ts >= ?` on the first page, then `WHERE ts > ? OR (ts = ? AND (pk...) > (?...))`. */
  predicate Matches(c: Cursor, r: Row)
  {
    match c
    case Since(w) => r.ts >= w
    case AfterRow(m) => r.ts > m.ts || (r.ts == m.ts && Less(m.key, r.key))
  }

  function WhereMatches(t: set<Row>, c: Cursor): set<Row>
  {
    set r | r in t && Matches(c, r)
  }

  /** The tie-breaking predicate is the ORDER BY order, so pages join without a gap. */
  lemma MatchesIsOrder(m: Row, r: Row)
    ensures Matches(AfterRow(m), r) <==> Before(ByTimestamp, m, r)
  {
    assert ([m.ts] + m.key)[1..] == m.key && ([r.ts] + r.key)[1..] == r.key;
  }

  function Advance(c: Cursor, page: seq<Row>): Cursor
  {
    if page == [] then c else AfterRow(page[|page| - 1])
  }

  /** How the server takes a query: served, out of sort memory (and is the retry served?), or another error. */
  datatype Answer = Served | OutOfSortMemory(retryServed: bool) | Failed

  datatype Reply = Rows(rows: seq<Row>, reducedBatchSize: Option<nat>) | Raised

  type IncrementalQuery = (nat, Cursor, nat) -> seq<Row>

  ghost predicate ServesIncremental(query: IncrementalQuery, seen: nat -> set<Row>)
  {
    forall i: nat, c, n: nat {:trigger query(i, c, n)} ::
      KeysUnique(seen(i)) && IsPage(ByTimestamp, WhereMatches(seen(i), c), n, query(i, c, n))
  }

  function SmallerLimit(batchSize: nat): nat
  {
    if batchSize / 10 < 100 then 100 else batchSize / 10
  }

  /** The retry asks for a tenth, rounded down, but for no fewer than 100 rows: a LIMIT below 100 grows to 100. */
  lemma SmallerLimitShrinks(batchSize: nat)
    ensures SmallerLimit(batchSize) < batchSize <==> batchSize > 100
    ensures batchSize < 1000 ==> SmallerLimit(batchSize) == 100
    ensures batchSize >= 1000 ==> 10 * SmallerLimit(batchSize) <= batchSize < 10 * SmallerLimit(batchSize) + 10
  {
  }

  function ExecuteWithSortMemoryRetry(query: IncrementalQuery, i: nat, c: Cursor, batchSize: nat, answer: Answer): Reply
  {
    match answer
    case Served => Rows(query(i, c, batchSize), None)
    case OutOfSortMemory(true) => Rows(query(i, c, SmallerLimit(batchSize)), Some(SmallerLimit(batchSize)))
    case _ => Raised
  }

  /** How a stream ended: with a short page, by an error, or abandoned by its consumer. */
  datatype Ending = ShortPage | Threw | Abandoned

  datatype Stream = Stream(rows: seq<Row>, ending: Ending)

  function Join(rows: seq<Row>, s: Stream): Stream
  {
    s.(rows := rows + s.rows)
  }

  /** The LIMIT in force after a reply: a reduced one stays for the rest of the stream. */
  function NextLimit(limit: nat, reply: Reply): nat
  {
    if reply.Rows? && reply.reducedBatchSize.Some? then reply.reducedBatchSize.value else limit
  }

  /** The incremental stream from its `i`-th page on: the reference for `StreamIncrementalData`. */
  function Incremental(query: IncrementalQuery, answers: nat -> Answer, i: nat, budget: nat, limit: nat,
                       c: Cursor): Stream
    requires i <= budget
    decreases budget - i
  {
    if i == budget then Stream([], Abandoned)
    else
      match ExecuteWithSortMemoryRetry(query, i, c, limit, answers(i))
      case Raised => Stream([], Threw)
      case Rows(page, _) =>
        var limit' := NextLimit(limit, ExecuteWithSortMemoryRetry(query, i, c, limit, answers(i)));
        if |page| != limit' then Stream(page, ShortPage)
        else Join(page, Incremental(query, answers, i + 1, budget, limit', Advance(c, page)))
  }

  /** The batches that stream yields. */
  function IncrementalBatches(query: IncrementalQuery, answers: nat -> Answer, i: nat, budget: nat, limit: nat,
                              c: Cursor)
    : seq<seq<Row>>
    requires i <= budget
    decreases budget - i
  {
    if i == budget then []
    else
      match ExecuteWithSortMemoryRetry(query, i, c, limit, answers(i))
      case Raised => []
      case Rows(page, _) =>
        var limit' := NextLimit(limit, ExecuteWithSortMemoryRetry(query, i, c, limit, answers(i)));
        var rest := if |page| != limit' then []
                    else IncrementalBatches(query, answers, i + 1, budget, limit', Advance(c, page));
        Batch(page) + rest
  }

  lemma {:induction false} IncrementalBatchesAreRows(query: IncrementalQuery, answers: nat -> Answer, i: nat,
                                                     budget: nat, limit: nat, c: Cursor)
    requires i <= budget
    ensures Flat(IncrementalBatches(query, answers, i, budget, limit, c))
         == Incremental(query, answers, i, budget, limit, c).rows
    ensures [] !in IncrementalBatches(query, answers, i, budget, limit, c)
    decreases budget - i
  {
    if i < budget {
      var reply := ExecuteWithSortMemoryRetry(query, i, c, limit, answers(i));
      if reply.Rows? {
        var page, limit' := reply.rows, NextLimit(limit, reply);
        if |page| == limit' {
          FlatBatch(page, IncrementalBatches(query, answers, i + 1, budget, limit', Advance(c, page)));
          IncrementalBatchesAreRows(query, answers, i + 1, budget, limit', Advance(c, page));
        } else {
          FlatBatch(page, []);
          assert page + [] == page;
        }
      }
    }
  }

  /** What is left of a stream at its `i`-th page: the batches, and how it will end. */
  ghost predicate StreamLeaves(query: IncrementalQuery, answers: nat -> Answer, i: nat, budget: nat, limit: nat,
                               c: Cursor, batches: seq<seq<Row>>, ending: Ending)
    requires i <= budget
  {
    && batches == IncrementalBatches(query, answers, i, budget, limit, c)
    && ending == Incremental(query, answers, i, budget, limit, c).ending
  }

  lemma StreamStep(query: IncrementalQuery, answers: nat -> Answer, i: nat, budget: nat, limit: nat, c: Cursor,
                   batches: seq<seq<Row>>, ending: Ending, reply: Reply) returns (rest: seq<seq<Row>>)
    requires i < budget && StreamLeaves(query, answers, i, budget, limit, c, batches, ending)
    requires reply == ExecuteWithSortMemoryRetry(query, i, c, limit, answers(i))
    ensures reply.Raised? ==> batches == rest == [] && ending == Threw
    ensures reply.Rows? ==> batches == Batch(reply.rows) + rest
    ensures reply.Rows? && |reply.rows| != NextLimit(limit, reply) ==> rest == [] && ending == ShortPage
    ensures reply.Rows? && |reply.rows| == NextLimit(limit, reply) ==>
              StreamLeaves(query, answers, i + 1, budget, NextLimit(limit, reply), Advance(c, reply.rows), rest, ending)
  {
    rest := if reply.Raised? || |reply.rows| != NextLimit(limit, reply) then []
            else IncrementalBatches(query, answers, i + 1, budget, NextLimit(limit, reply), Advance(c, reply.rows));
  }

  /** One query of the stream, with the limit and the cursor it leaves. */
  method NextPage(query: IncrementalQuery, answer: Answer, i: nat, limit: nat, c: Cursor)
    returns (result: Reply, effectiveBatchSize: nat, cursor: Cursor)
    ensures result == ExecuteWithSortMemoryRetry(query, i, c, limit, answer)
    ensures result.Rows? ==> effectiveBatchSize == NextLimit(limit, result) && cursor == Advance(c, result.rows)
  {
    effectiveBatchSize, cursor := limit, c;
    result := ExecuteWithSortMemoryRetry(query, i, c, limit, answer);
    if result.Rows? {
      if result.reducedBatchSize.Some? {
        effectiveBatchSize := result.reducedBatchSize.value;
      }
      if |result.rows| > 0 {
        cursor := AfterRow(result.rows[|result.rows| - 1]);
      }
    }
  }

  /** All that a stream is to yield, and how it will end. */
  lemma WholeStream(query: IncrementalQuery, answers: nat -> Answer, i: nat, budget: nat, limit: nat, c: Cursor)
    returns (whole: seq<seq<Row>>, end: Ending)
    requires i <= budget
    ensures whole == IncrementalBatches(query, answers, i, budget, limit, c) && [] !in whole
    ensures Stream(Flat(whole), end) == Incremental(query, answers, i, budget, limit, c)
    ensures StreamLeaves(query, answers, i, budget, limit, c, whole, end)
  {
    whole := IncrementalBatches(query, answers, i, budget, limit, c);
    end := Incremental(query, answers, i, budget, limit, c).ending;
    IncrementalBatchesAreRows(query, answers, i, budget, limit, c);
  }

  method StreamIncrementalData(query: IncrementalQuery, answers: nat -> Answer, budget: nat, watermark: int,
                               batchSize: nat)
    returns (batches: seq<seq<Row>>, ending: Ending)
    ensures batches == IncrementalBatches(query, answers, 0, budget, batchSize, Since(watermark)) && [] !in batches
    ensures Stream(Flat(batches), ending) == Incremental(query, answers, 0, budget, batchSize, Since(watermark))
  {
    var effectiveBatchSize, pages, cursor := batchSize, 0, Since(watermark);
    batches, ending := [], Abandoned;
    ghost var whole, end := WholeStream(query, answers, pages, budget, batchSize, cursor);
    ghost var rest := whole;
    while pages < budget && ending == Abandoned
      invariant pages <= budget && whole == batches + rest
      invariant ending != Abandoned ==> rest == [] && ending == end
      invariant ending == Abandoned ==>
                  StreamLeaves(query, answers, pages, budget, effectiveBatchSize, cursor, rest, end)
      decreases budget - pages
    {
      var result, limit, next := NextPage(query, answers(pages), pages, effectiveBatchSize, cursor);
      ghost var left := StreamStep(query, answers, pages, budget, effectiveBatchSize, cursor, rest, end, result);
      if result.Raised? {
        ending := Threw;
        break;
      }
      var batch := result.rows;
      YieldMoves(whole, batches, batch, left);
      rest, effectiveBatchSize, cursor, pages := left, limit, next, pages + 1;
      if |batch| != effectiveBatchSize {
        ending := ShortPage;
      }
      if |batch| > 0 {
        batches := batches + [batch];
      }
    }
  }

  /** A page moves the cursor past its own rows and past no other. */
  lemma IncrementalCursorAdvances(t: set<Row>, n: nat, c: Cursor, page: seq<Row>)
    requires KeysUnique(t) && IsPage(ByTimestamp, WhereMatches(t, c), n, page)
    ensures var next := Advance(c, page);
      && (forall r | Matches(next, r) :: Matches(c, r) && forall p | p in page :: Before(ByTimestamp, p, r))
      && (forall r | r in t && Matches(c, r) && r !in page :: |page| == n && Matches(next, r))
  {
    if page != [] {
      var m := page[|page| - 1];
      assert m in WhereMatches(t, c);
      forall r | Matches(AfterRow(m), r) ensures Matches(c, r) && forall p | p in page :: Before(ByTimestamp, p, r) {
        MatchesIsOrder(m, r);
        if c.AfterRow? {
          MatchesIsOrder(c.row, m);
          MatchesIsOrder(c.row, r);
          LessTransitive(Rank(ByTimestamp, c.row), Rank(ByTimestamp, m), Rank(ByTimestamp, r));
        }
        forall p | p in page && p != m ensures Before(ByTimestamp, p, r) {
          LastIsGreatest(ByTimestamp, page, p);
          LessTransitive(Rank(ByTimestamp, p), Rank(ByTimestamp, m), Rank(ByTimestamp, r));
        }
      }
      forall r | r in t && Matches(c, r) && r !in page ensures |page| == n && Matches(AfterRow(m), r) {
        assert r in WhereMatches(t, c);
        MatchesIsOrder(m, r);
      }
    } else {
      forall r | r in t && Matches(c, r) ensures |page| == n { assert r in WhereMatches(t, c); }
    }
  }

  /** Whatever writers and retries do, rows come in (timestamp, key) order and no row version comes twice. */
  lemma {:induction false} IncrementalIsOrdered(query: IncrementalQuery, seen: nat -> set<Row>, answers: nat -> Answer,
                                                i: nat, budget: nat, limit: nat, c: Cursor)
    requires i <= budget && ServesIncremental(query, seen)
    ensures var d := Incremental(query, answers, i, budget, limit, c);
      && IsSorted(ByTimestamp, d.rows)
      && forall r | r in d.rows :: Matches(c, r) && exists j :: i <= j < budget && r in seen(j)
    decreases budget - i
  {
    if i < budget {
      var reply := ExecuteWithSortMemoryRetry(query, i, c, limit, answers(i));
      if reply.Rows? {
        var limit' := NextLimit(limit, reply);
        IncrementalCursorAdvances(seen(i), limit', c, reply.rows);
        if |reply.rows| == limit' {
          var next := Advance(c, reply.rows);
          IncrementalIsOrdered(query, seen, answers, i + 1, budget, limit', next);
          SortedConcat(ByTimestamp, reply.rows, Incremental(query, answers, i + 1, budget, limit', next).rows);
        }
      }
    }
  }

  /** The rows that match after the row `m` are the matching ones that come after it. */
  lemma MatchesAfter(c: Cursor, m: Row, r: Row)
    requires Matches(c, m)
    ensures Matches(AfterRow(m), r) <==> Matches(c, r) && Before(ByTimestamp, m, r)
  {
    MatchesIsOrder(m, r);
    if c.AfterRow? && Before(ByTimestamp, m, r) {
      MatchesIsOrder(c.row, m);
      MatchesIsOrder(c.row, r);
      LessTransitive(Rank(ByTimestamp, c.row), Rank(ByTimestamp, m), Rank(ByTimestamp, r));
    }
  }

  lemma MatchingAfter(t: set<Row>, c: Cursor, m: Row)
    requires Matches(c, m)
    ensures WhereMatches(t, AfterRow(m)) == Behind(ByTimestamp, WhereMatches(t, c), m)
  {
    forall r ensures r in WhereMatches(t, AfterRow(m)) <==> r in Behind(ByTimestamp, WhereMatches(t, c), m) {
      MatchesAfter(c, m, r);
    }
  }

  lemma IncrementalOrderingAfter(t: set<Row>, c: Cursor, s: seq<Row>, n: nat)
    requires IsOrdering(ByTimestamp, WhereMatches(t, c), s) && n <= |s|
    ensures IsOrdering(ByTimestamp, WhereMatches(t, Advance(c, s[..n])), s[n..])
  {
    if n > 0 {
      AnswerIsFrom(ByTimestamp, WhereMatches(t, c), s, n - 1);
      MatchingAfter(t, c, s[n - 1]);
      TailIsOrdering(ByTimestamp, WhereMatches(t, c), s, n);
    }
  }

  /** One reply on a quiet table is the next piece of its ordering, whether or not the LIMIT was reduced. */
  lemma QuietReply(query: IncrementalQuery, t: set<Row>, s: seq<Row>, i: nat, limit: nat, c: Cursor, answer: Answer)
    requires ServesIncremental(query, _ => t) && IsOrdering(ByTimestamp, WhereMatches(t, c), s)
    ensures var reply := ExecuteWithSortMemoryRetry(query, i, c, limit, answer);
      reply.Rows? ==>
        var n := NextLimit(limit, reply);
        if n <= |s|
        then reply.rows == s[..n] && IsOrdering(ByTimestamp, WhereMatches(t, Advance(c, reply.rows)), s[n..])
        else reply.rows == s
  {
    var seen := (_: nat) => t;
    var reply := ExecuteWithSortMemoryRetry(query, i, c, limit, answer);
    if reply.Rows? {
      var n := NextLimit(limit, reply);
      assert KeysUnique(seen(i)) && IsPage(ByTimestamp, WhereMatches(seen(i), c), n, query(i, c, n));
      PageIsPrefix(ByTimestamp, WhereMatches(t, c), n, reply.rows, s);
      IncrementalOrderingAfter(t, c, s, |reply.rows|);
    }
  }

  /**
   On an unchanging table the stream yields the rows past its cursor, in order, each once, for every batch
   size and every pattern of retries.
   */
  lemma {:induction false} IncrementalOfQuietTable(query: IncrementalQuery, answers: nat -> Answer, t: set<Row>,
                                                   s: seq<Row>, i: nat, budget: nat, limit: nat, c: Cursor)
    requires i <= budget && ServesIncremental(query, _ => t)
    requires IsOrdering(ByTimestamp, WhereMatches(t, c), s)
    ensures var d := Incremental(query, answers, i, budget, limit, c);
      && |d.rows| <= |s| && d.rows == s[..|d.rows|]
      && (d.ending == ShortPage ==> |d.rows| == |s|)
    decreases budget - i
  {
    if i < budget {
      var reply := ExecuteWithSortMemoryRetry(query, i, c, limit, answers(i));
      if reply.Rows? {
        QuietReply(query, t, s, i, limit, c, answers(i));
        var n := NextLimit(limit, reply);
        if n <= |s| {
          var next := Advance(c, reply.rows);
          IncrementalOfQuietTable(query, answers, t, s[n..], i + 1, budget, n, next);
          SliceOfRest(s, n, |Incremental(query, answers, i + 1, budget, n, next).rows|);
        }
      }
    }
  }

  predicate QueryFails(a: Answer)
  {
    a == Failed || a == OutOfSortMemory(false)
  }

  /** A full page leaves strictly fewer unread rows. */
  lemma UnreadRowsShrink(query: IncrementalQuery, t: set<Row>, s: seq<Row>, i: nat, limit: nat, c: Cursor,
                         answer: Answer)
    returns (rest: seq<Row>)
    requires ServesIncremental(query, _ => t) && IsOrdering(ByTimestamp, WhereMatches(t, c), s)
    requires limit > 0 && !QueryFails(answer)
    ensures var reply := ExecuteWithSortMemoryRetry(query, i, c, limit, answer);
      && reply.Rows? && NextLimit(limit, reply) > 0
      && (|reply.rows| == NextLimit(limit, reply) ==>
            |rest| < |s| && IsOrdering(ByTimestamp, WhereMatches(t, Advance(c, reply.rows)), rest))
  {
    QuietReply(query, t, s, i, limit, c, answer);
    var n := NextLimit(limit, ExecuteWithSortMemoryRetry(query, i, c, limit, answer));
    rest := if n <= |s| then s[n..] else [];
  }

  /** Unless a query fails, the stream ends by itself within one page more than there are unread rows. */
  lemma {:induction false} IncrementalEndsByItself(query: IncrementalQuery, answers: nat -> Answer, t: set<Row>,
                                                   s: seq<Row>, i: nat, budget: nat, limit: nat, c: Cursor)
    requires ServesIncremental(query, _ => t)
    requires IsOrdering(ByTimestamp, WhereMatches(t, c), s)
    requires limit > 0 && i + |s| < budget
    requires forall j | i <= j < budget :: !QueryFails(answers(j))
    ensures Incremental(query, answers, i, budget, limit, c).ending == ShortPage
    decreases budget - i
  {
    var reply := ExecuteWithSortMemoryRetry(query, i, c, limit, answers(i));
    var rest := UnreadRowsShrink(query, t, s, i, limit, c, answers(i));
    var n := NextLimit(limit, reply);
    if |reply.rows| == n {
      IncrementalEndsByItself(query, answers, t, rest, i + 1, budget, n, Advance(c, reply.rows));
    }
  }
}
