/** One table's sync as the program runs it: drop and dump, or stream from the saved watermark, under a lock. */
module SyncService {
  import opened Wrappers
  import opened Keyset
  import opened MysqlStream
  import opened ProjectionView
  import opened Replication

  lemma {:induction false} AppendRowsConcat(log: Log, a: seq<Row>, b: seq<Row>, stamp: Stamp)
    ensures AppendRows(log, a + b, stamp) == AppendRows(AppendRows(log, a, stamp), b, stamp)
  {
    if b == [] {
      assert a + b == a;
    } else {
      var front := b[..|b| - 1];
      AppendRowsConcat(log, a, front, stamp);
      assert (a + b)[..|a + b| - 1] == a + front;
    }
  }

  /** The batches appended one after the other; batch number `k` is stamped `stamps(k)`. */
  function AppendBatches(log: Log, batches: seq<seq<Row>>, stamps: nat -> Stamp, k: nat): Log
    decreases |batches|
  {
    if batches == [] then log else AppendBatches(AppendRows(log, batches[0], stamps(k)), batches[1..], stamps, k + 1)
  }

  lemma {:induction false} FlatPrefix(batches: seq<seq<Row>>, i: nat)
    requires i < |batches|
    ensures Flat(batches[..i + 1]) == Flat(batches[..i]) + batches[i]
  {
    assert batches[..i + 1] == batches[..i] + [batches[i]];
    FlatSnoc(batches[..i], batches[i]);
  }

  /** The timestamp of the last row, or `None` for a table without rows. */
  function LastTimestamp(rows: seq<Row>): Option<int>
  {
    if rows == [] then None else Some(rows[|rows| - 1].ts)
  }

  /** The MySQL side of one sync: its pages, how queries are taken, and what the schema check finds. */
  datatype Source = Source(dump: DumpQuery, stream: IncrementalQuery, answers: nat -> Answer, budget: nat,
                           hasTimestamp: bool, schemaChanged: bool)

  datatype Outcome = Synced(full: bool, recordsProcessed: nat) | SyncFailed

  /** `source` did not change while `src` was read. */
  ghost predicate Quiet(src: Source, source: map<Key, Row>)
  {
    && (forall k | k in source :: source[k].key == k)
    && ServesDump(src.dump, _ => source.Values)
    && ServesIncremental(src.stream, _ => source.Values)
  }

  /** Each source row is in the view or at or above the watermark, and the view has no other key. */
  ghost predicate UpToWatermark(log: Log, watermark: Option<int>, source: map<Key, Row>)
  {
    && LastIsNewest(log)
    && (forall k | k in Replay(log) :: k in source)
    && (watermark.Some? ==> forall k | k in source ::
          source[k].ts >= watermark.value || (k in Replay(log) && Replay(log)[k] == source[k]))
  }

  /** No entry of the log competes with the rows, however they are stamped. */
  ghost predicate FreshFor(log: Log, rows: seq<Row>, stamps: nat -> Stamp)
  {
    forall e, r, k: nat {:trigger e in log, r in rows, stamps(k)} | e in log && r in rows && e.Key() == r.key ::
      Newer(stamps(k), e.stamp)
  }

  ghost predicate NewestStamps(log: Log, stamps: nat -> Stamp)
  {
    forall e, k: nat {:trigger e in log, stamps(k)} | e in log :: Newer(stamps(k), e.stamp)
  }

  lemma {:induction false} AppendRowsExtends(log: Log, page: seq<Row>, stamp: Stamp)
    ensures log <= AppendRows(log, page, stamp)
  {
    if page != [] {
      AppendRowsExtends(log, page[..|page| - 1], stamp);
    }
  }

  /** Appending keeps what the log holds. */
  lemma {:induction false} AppendExtends(log: Log, batches: seq<seq<Row>>, stamps: nat -> Stamp, k: nat)
    ensures log <= AppendBatches(log, batches, stamps, k)
    decreases |batches|
  {
    if batches != [] {
      AppendRowsExtends(log, batches[0], stamps(k));
      AppendExtends(AppendRows(log, batches[0], stamps(k)), batches[1..], stamps, k + 1);
    }
  }

  lemma {:induction false} AppendedKeys(log: Log, page: seq<Row>, stamp: Stamp, e: Entry)
    requires e in AppendRows(log, page, stamp)
    ensures e in log || exists r | r in page :: r.key == e.Key()
  {
    if page != [] {
      var front, last := page[..|page| - 1], page[|page| - 1];
      if e == Live(last, stamp) {
        assert last in page && last.key == e.Key();
      } else {
        AppendedKeys(log, front, stamp, e);
        assert forall r | r in front :: r in page;
      }
    }
  }

  lemma FreshForRest(log: Log, page: seq<Row>, rest: seq<Row>, stamps: nat -> Stamp, stamp: Stamp)
    requires FreshFor(log, page + rest, stamps) && DistinctKeys(page + rest)
    ensures FreshFor(log, page, stamps) && FreshFor(AppendRows(log, page, stamp), rest, stamps)
    ensures DistinctKeys(page) && DistinctKeys(rest)
  {
    var all := page + rest;
    forall e, r, k: nat | e in log && r in page && e.Key() == r.key ensures Newer(stamps(k), e.stamp) {
      assert r in all;
    }
    forall e, r, k: nat | e in AppendRows(log, page, stamp) && r in rest && e.Key() == r.key
      ensures Newer(stamps(k), e.stamp)
    {
      AppendedKeys(log, page, stamp, e);
      assert r in all;
      if q :| q in page && q.key == e.Key() {
        var i :| 0 <= i < |page| && page[i] == q;
        var j :| 0 <= j < |rest| && rest[j] == r;
        assert all[i].key == all[|page| + j].key;
      }
    }
    forall i, j | 0 <= i < j < |rest| ensures rest[i].key != rest[j].key {
      assert all[|page| + i].key != all[|page| + j].key;
    }
    forall i, j | 0 <= i < j < |page| ensures page[i].key != page[j].key {
      assert all[i].key != all[j].key;
    }
  }

  lemma FreshPage(log: Log, page: seq<Row>, stamps: nat -> Stamp, k: nat, r: Row)
    requires FreshFor(log, page, stamps) && r in page
    ensures NewestOfKey(log, Live(r, stamps(k)))
  {
    forall j | 0 <= j < |log| && log[j].Key() == r.key ensures Newer(stamps(k), log[j].stamp) {
      assert log[j] in log;
    }
  }

  lemma {:induction false} OverlayConcat(v: map<Key, Row>, a: seq<Row>, b: seq<Row>)
    ensures Overlay(Overlay(v, a), b) == Overlay(v, a + b)
  {
    if b == [] {
      assert a + b == a;
    } else {
      OverlayConcat(v, a, b[..|b| - 1]);
      assert (a + b)[..|a + b| - 1] == a + b[..|b| - 1];
    }
  }

  /** Batches of distinct keys go into the view row by row, however they are stamped. */
  lemma {:induction false} BatchesView(log: Log, batches: seq<seq<Row>>, stamps: nat -> Stamp, k: nat)
    requires LastIsNewest(log) && DistinctKeys(Flat(batches)) && FreshFor(log, Flat(batches), stamps)
    ensures LastIsNewest(AppendBatches(log, batches, stamps, k))
    ensures Replay(AppendBatches(log, batches, stamps, k)) == Overlay(Replay(log), Flat(batches))
    decreases |batches|
  {
    if batches != [] {
      var page, rest := batches[0], Flat(batches[1..]);
      FreshForRest(log, page, rest, stamps, stamps(k));
      forall r | r in page ensures NewestOfKey(log, Live(r, stamps(k))) {
        FreshPage(log, page, stamps, k, r);
      }
      AppendRowsNewest(log, page, stamps(k));
      BatchesView(AppendRows(log, page, stamps(k)), batches[1..], stamps, k + 1);
      OverlayConcat(Replay(log), page, rest);
    }
  }

  /** Appending an ordering of the rows `t` completes a view that was right about the rest of the source. */
  lemma AppendCompletes(log: Log, o: Order, t: set<Row>, batches: seq<seq<Row>>, stamps: nat -> Stamp,
                        source: map<Key, Row>)
    requires LastIsNewest(log) && NewestStamps(log, stamps)
    requires IsOrdering(o, t, Flat(batches)) && t <= source.Values && forall k | k in source :: source[k].key == k
    requires forall k | k in Replay(log) :: k in source
    requires forall k | k in source :: source[k] in t || (k in Replay(log) && Replay(log)[k] == source[k])
    ensures Replay(AppendBatches(log, batches, stamps, 0)) == source
  {
    var rows := Flat(batches);
    PageKeysDistinct(o, t, rows);
    BatchesView(log, batches, stamps, 0);
    OverlayPuts(Replay(log), rows);
    forall r | r in rows ensures r.key in source && source[r.key] == r {
      assert r in source.Values;
    }
    PutsCompletes(Replay(log), rows, Overlay(Replay(log), rows), source);
  }

  lemma PutsCompletes(v: map<Key, Row>, rows: seq<Row>, v': map<Key, Row>, source: map<Key, Row>)
    requires Puts(v, rows, v')
    requires forall r | r in rows :: r.key in source && source[r.key] == r
    requires forall k | k in v :: k in source
    requires forall k | k in source :: source[k].key == k && (source[k] in rows || (k in v && v[k] == source[k]))
    ensures v' == source
  {
    assert forall k | k in v' :: k in source;
  }

  function FullBatches(src: Source, batchSize: nat): seq<seq<Row>>
  {
    DumpBatches(src.dump, 0, src.budget, batchSize, None)
  }

  function SinceBatches(src: Source, watermark: int, batchSize: nat): seq<seq<Row>>
  {
    IncrementalBatches(src.stream, src.answers, 0, src.budget, batchSize, Since(watermark))
  }

  /** A finished dump of a quiet source leaves exactly its rows in the view. */
  lemma DumpShowsSource(src: Source, source: map<Key, Row>, batchSize: nat, stamps: nat -> Stamp)
    requires Quiet(src, source)
    requires Dump(src.dump, 0, src.budget, batchSize, None).complete
    ensures Replay(AppendBatches([], FullBatches(src, batchSize), stamps, 0)) == source
  {
    var t := WhereAfter(source.Values, None);
    var s := OrderingExists(ByKey, t);
    DumpOfQuietTable(src.dump, source.Values, s, 0, src.budget, batchSize, None);
    DumpBatchesAreRows(src.dump, 0, src.budget, batchSize, None);
    assert Flat(FullBatches(src, batchSize)) == s;
    AppendCompletes([], ByKey, t, FullBatches(src, batchSize), stamps, source);
  }

  /** A finished stream brings what was only at or above the watermark into the view. */
  lemma StreamShowsSource(src: Source, source: map<Key, Row>, log: Log, watermark: int, batchSize: nat,
                          stamps: nat -> Stamp)
    requires Quiet(src, source) && UpToWatermark(log, Some(watermark), source) && NewestStamps(log, stamps)
    requires Incremental(src.stream, src.answers, 0, src.budget, batchSize, Since(watermark)).ending == ShortPage
    ensures Replay(AppendBatches(log, SinceBatches(src, watermark, batchSize), stamps, 0)) == source
  {
    var t := WhereMatches(source.Values, Since(watermark));
    var s := OrderingExists(ByTimestamp, t);
    IncrementalOfQuietTable(src.stream, src.answers, source.Values, s, 0, src.budget, batchSize, Since(watermark));
    IncrementalBatchesAreRows(src.stream, src.answers, 0, src.budget, batchSize, Since(watermark));
    assert Flat(SinceBatches(src, watermark, batchSize)) == s;
    AppendCompletes(log, ByTimestamp, t, SinceBatches(src, watermark, batchSize), stamps, source);
  }

  class TableSync {
    var tablesExist: bool
    var log: Log
    var watermark: Option<int>
    var locked: bool
    /** The callers that have started a sync of the table and not ended it. */
    ghost var syncing: set<nat>

    /** The lock is held exactly while a sync is under way, and then there is one. */
    ghost predicate Valid()
      reads this
    {
      (locked <==> syncing != {}) && forall a, b | a in syncing && b in syncing :: a == b
    }

    constructor ()
      ensures Valid() && !tablesExist && log == [] && watermark == None && !locked
    {
      tablesExist, log, watermark, locked, syncing := false, [], None, false, {};
    }

    /** The log and watermark a dump leaves: a dump cut short has dropped the old log and saves no watermark. */
    twostate predicate Dumped(src: Source, batchSize: nat, stamps: nat -> Stamp, r: Outcome)
      reads this
    {
      var d := Dump(src.dump, 0, src.budget, batchSize, None);
      && tablesExist && log == AppendBatches([], FullBatches(src, batchSize), stamps, 0)
      && watermark == (if !d.complete then old(watermark) else if src.hasTimestamp then LastTimestamp(d.rows) else None)
      && r == if d.complete then Synced(true, |d.rows|) else SyncFailed
    }

    /** The log and watermark an incremental stream from watermark `w` leaves. */
    twostate predicate Streamed(src: Source, w: int, batchSize: nat, stamps: nat -> Stamp, r: Outcome)
      reads this
    {
      var d := Incremental(src.stream, src.answers, 0, src.budget, batchSize, Since(w));
      && tablesExist == old(tablesExist) && log == AppendBatches(old(log), SinceBatches(src, w, batchSize), stamps, 0)
      && watermark == (if d.ending == ShortPage && d.rows != [] then LastTimestamp(d.rows) else old(watermark))
      && r == if d.ending == ShortPage then Synced(false, |d.rows|) else SyncFailed
    }

    method PerformFullSync(src: Source, batchSize: nat, stamps: nat -> Stamp) returns (r: Outcome)
      modifies this`tablesExist, this`log, this`watermark
      ensures Dumped(src, batchSize, stamps, r)
    {
      log, tablesExist := [], true;
      var batches, pages, complete := StreamTableData(src.dump, src.budget, batchSize, None);
      var recordsProcessed, lastTimestamp := AppendAll(batches, stamps);
      if !complete {
        return SyncFailed;
      }
      watermark := if src.hasTimestamp then lastTimestamp else None;
      return Synced(true, recordsProcessed);
    }

    /** Append each batch to the log, keeping count and the timestamp of the last row. */
    method AppendAll(batches: seq<seq<Row>>, stamps: nat -> Stamp)
      returns (recordsProcessed: nat, lastTimestamp: Option<int>)
      requires [] !in batches
      modifies this`log
      ensures log == AppendBatches(old(log), batches, stamps, 0)
      ensures recordsProcessed == |Flat(batches)| && lastTimestamp == LastTimestamp(Flat(batches))
    {
      recordsProcessed, lastTimestamp := 0, None;
      var i := 0;
      while i < |batches|
        invariant i <= |batches|
        invariant AppendBatches(old(log), batches, stamps, 0) == AppendBatches(log, batches[i..], stamps, i)
        invariant recordsProcessed == |Flat(batches[..i])| && lastTimestamp == LastTimestamp(Flat(batches[..i]))
      {
        var batch := batches[i];
        assert batch in batches;
        FlatPrefix(batches, i);
        log := AppendRows(log, batch, stamps(i));
        recordsProcessed := recordsProcessed + |batch|;
        lastTimestamp := Some(batch[|batch| - 1].ts);
        i := i + 1;
      }
      assert batches[..i] == batches;
    }

    /** Whether a sync rebuilds the table: see the last two promises of `EndSync`. */
    predicate NeedsDump(src: Source)
      reads this
    {
      !src.hasTimestamp || !tablesExist || src.schemaChanged || watermark.None?
    }

    method PerformIncrementalSync(src: Source, batchSize: nat, stamps: nat -> Stamp) returns (r: Outcome)
      modifies this`tablesExist, this`log, this`watermark
      ensures old(NeedsDump(src)) ==> Dumped(src, batchSize, stamps, r)
      ensures !old(NeedsDump(src)) ==> Streamed(src, old(watermark.value), batchSize, stamps, r)
      ensures r.Synced? ==>
                (r.full <==> src.schemaChanged || !src.hasTimestamp || !old(tablesExist) || old(watermark).None?)
    {
      if !src.hasTimestamp || !tablesExist || src.schemaChanged || watermark.None? {
        r := PerformFullSync(src, batchSize, stamps);
        return;
      }
      var batches, ending := StreamIncrementalData(src.stream, src.answers, src.budget, watermark.value, batchSize);
      var recordsProcessed, lastTimestamp := AppendAll(batches, stamps);
      if ending != ShortPage {
        return SyncFailed;
      }
      if lastTimestamp.Some? {
        watermark := lastTimestamp;
      }
      return Synced(false, recordsProcessed);
    }

    /** `syncSingleTable` up to its first suspension: whoever finds the lock held is turned away. */
    method BeginSync(caller: nat) returns (acquired: bool)
      requires Valid() && caller !in syncing
      modifies this`locked, this`syncing
      ensures Valid() && acquired == (old(syncing) == {})
      ensures syncing == if acquired then {caller} else old(syncing)
    {
      if locked {
        return false;
      }
      locked := true;
      syncing := {caller};
      return true;
    }

    /**
     The rest of `syncSingleTable`, once its schema is read: it syncs and, however that ends, gives the lock back.
     Over a source that holds still, a sync that succeeds from a log that is right up to its watermark leaves the
     view equal to the source. It does so whatever the old log holds when the schema has changed, the table has no
     timestamp column, no log or no watermark; otherwise the old log stays, and new entries come after it.
     */
    method EndSync(caller: nat, src: Source, batchSize: nat, stamps: nat -> Stamp, ghost source: map<Key, Row>)
      returns (r: Outcome)
      requires Valid() && caller in syncing
      modifies this
      ensures Valid() && syncing == {}
      ensures old(NeedsDump(src)) ==> Dumped(src, batchSize, stamps, r)
      ensures !old(NeedsDump(src)) ==> Streamed(src, old(watermark.value), batchSize, stamps, r)
      ensures Quiet(src, source) && old(UpToWatermark(log, watermark, source) && NewestStamps(log, stamps)) &&
              r.Synced? ==>
                Replay(log) == source
      ensures Quiet(src, source) && r.Synced? &&
              (src.schemaChanged || !src.hasTimestamp || !old(tablesExist) || old(watermark).None?) ==>
                Replay(log) == source
      ensures r.Synced? ==>
                (r.full <==> src.schemaChanged || !src.hasTimestamp || !old(tablesExist) || old(watermark).None?)
      ensures !(src.schemaChanged || !src.hasTimestamp || !old(tablesExist) || old(watermark).None?) ==>
                old(log) <= log
    {
      if src.hasTimestamp {
        r := PerformIncrementalSync(src, batchSize, stamps);
      } else {
        r := PerformFullSync(src, batchSize, stamps);
      }
      locked := false;
      syncing := {};
      if !old(NeedsDump(src)) {
        AppendExtends(old(log), SinceBatches(src, old(watermark.value), batchSize), stamps, 0);
      }
      if Quiet(src, source) && r.Synced? && r.full {
        DumpShowsSource(src, source, batchSize, stamps);
      }
      if Quiet(src, source) && old(UpToWatermark(log, watermark, source) && NewestStamps(log, stamps)) && r.Synced? {
        if !r.full {
          StreamShowsSource(src, source, old(log), old(watermark.value), batchSize, stamps);
        }
      }
    }
  }
}
