/**
 Polling replication of one keyed table as a state machine: writers, the binlog tailer and one sync at a
 time interleave between every page read, append, tombstone and watermark save.
 */
module Replication {
  import opened Wrappers
  import opened Keyset
  import opened MysqlStream
  import opened ProjectionView

  /**
   What the table's sync is doing. A page is in flight between its SELECT and its INSERT into the log;
   `short` says that the last page read was the last one. `missed` keeps account of the source rows that the
   sync has passed and will not show: see `Missed`.
   */
  datatype Phase =
    | Idle
    | Dumping(last: Option<Row>, fetched: bool, page: seq<Row>, short: bool, missed: map<Key, Row>)
    | Streaming(cursor: Cursor, fetched: bool, page: seq<Row>, short: bool, missed: map<Key, Row>)

  /**
   `clock` is the largest timestamp given to a write so far; `pending` holds the keys of deletes that are
   in the binlog and not yet tombstoned: the tombstones may be written in any order, or lost.
   */
  datatype State = State(source: map<Key, Row>, clock: int, log: Log, watermark: Option<int>, pending: seq<Key>,
                         phase: Phase)

  datatype Event =
    | Write(row: Row)
    | Delete(key: Key)
    | WriteTombstone(i: nat, stamp: Stamp)
    | LoseTombstone(i: nat)
    | StartDump
    | StartStream
    | ReadPage(page: seq<Row>, limit: nat)
    | AppendPage(stamp: Stamp)
    | Finish
    | Abort

  function InFlight(s: State): seq<Row>
  {
    if s.phase.Idle? then [] else s.phase.page
  }

  function LastRow(last: Option<Row>, page: seq<Row>): Option<Row>
  {
    if page == [] then last else Some(page[|page| - 1])
  }

  function KeyOf(last: Option<Row>): Option<Key>
  {
    if last.Some? then Some(last.value.key) else None
  }

  function AppendRows(log: Log, page: seq<Row>, stamp: Stamp): Log
  {
    if page == [] then log else AppendRows(log, page[..|page| - 1], stamp) + [Live(page[|page| - 1], stamp)]
  }

  /** `p` without its `i`-th element. */
  function Removed<T>(p: seq<T>, i: nat): seq<T>
    requires i < |p|
  {
    p[..i] + p[i + 1..]
  }

  /** Which rows the next SELECT of the running sync may return, and in which order. */
  function Selectable(s: State): set<Row>
    requires !s.phase.Idle?
  {
    match s.phase
    case Dumping(last, _, _, _, _) => WhereAfter(s.source.Values, KeyOf(last))
    case Streaming(c, _, _, _, _) => WhereMatches(s.source.Values, c)
  }

  ghost predicate Enabled(s: State, e: Event)
  {
    match e
    case Write(row) => row.ts > s.clock
    case Delete(k) => k in s.source
    case WriteTombstone(i, stamp) => i < |s.pending| && NewestOfKey(s.log, Tombstone(s.pending[i], stamp))
    case LoseTombstone(i) => i < |s.pending|
    case StartDump => s.phase.Idle?
    case StartStream => s.phase.Idle? && s.watermark.Some?
    case ReadPage(page, limit) =>
      && !s.phase.Idle? && !s.phase.fetched && !s.phase.short
      && limit > 0
      && IsPage(if s.phase.Dumping? then ByKey else ByTimestamp, Selectable(s), limit, page)
    case AppendPage(stamp) =>
      && !s.phase.Idle? && s.phase.fetched
      && forall r | r in s.phase.page :: NewestOfKey(s.log, Live(r, stamp))
    case Finish => !s.phase.Idle? && !s.phase.fetched && s.phase.short
    case Abort => !s.phase.Idle?
  }

  /** A SELECT of the running sync is still to come to `r`. */
  predicate Coming(s: State, r: Row)
  {
    match s.phase
    case Idle => false
    case Dumping(last, _, page, short, _) => !short && Past(KeyOf(LastRow(last, page)), r)
    case Streaming(c, _, page, short, _) => !short && Matches(Advance(c, page), r)
  }

  predicate Shown(s: State, r: Row)
  {
    r.key in Replay(s.log) && Replay(s.log)[r.key] == r
  }

  /**
   What the running sync has passed and will not show: rows written behind its cursor, and rows read before the
   tombstone of an earlier row of their key was written, which will remove them, unless that tombstone gets in
   while they are in flight, or is lost; all as far as no later write or delete has superseded them.
   */
  function Missed(s: State, e: Event): map<Key, Row>
    requires !s.phase.Idle? && Enabled(s, e)
  {
    var m := s.phase.missed;
    match e
    case Write(row) => if Coming(s, row) then m - {row.key} else m[row.key := row]
    case Delete(k) => m - {k}
    case WriteTombstone(i, _) =>
      var k := s.pending[i];
      if k in m && m[k] in s.phase.page && k !in Removed(s.pending, i) then m - {k} else m
    case LoseTombstone(i) =>
      var k := s.pending[i];
      if k in m && (m[k] in s.phase.page || Shown(s, m[k])) && k !in Removed(s.pending, i) then m - {k} else m
    case ReadPage(page, _) => m + map k | k in s.source && k in s.pending && s.source[k] in page :: s.source[k]
    case _ => m
  }

  /** The sync's own phase, with the account of missed rows brought up to date. */
  function Noting(s: State, e: Event): Phase
    requires Enabled(s, e)
  {
    if s.phase.Idle? then s.phase else s.phase.(missed := Missed(s, e))
  }

  function Apply(s: State, e: Event): State
    requires Enabled(s, e)
  {
    match e
    case Write(row) => s.(source := s.source[row.key := row], clock := row.ts, phase := Noting(s, e))
    case Delete(k) => s.(source := s.source - {k}, pending := s.pending + [k], phase := Noting(s, e))
    case WriteTombstone(i, stamp) =>
      s.(log := s.log + [Tombstone(s.pending[i], stamp)], pending := Removed(s.pending, i), phase := Noting(s, e))
    case LoseTombstone(i) => s.(pending := Removed(s.pending, i), phase := Noting(s, e))
    case StartDump => s.(log := [], phase := Dumping(None, false, [], false, map[]))
    case StartStream => s.(phase := Streaming(Since(s.watermark.value), false, [], false, map[]))
    case ReadPage(page, limit) => s.(phase := Noting(s, e).(fetched := true, page := page, short := |page| != limit))
    case AppendPage(stamp) =>
      var phase := s.phase.(fetched := false, page := []);
      s.(log := AppendRows(s.log, s.phase.page, stamp),
         phase := if phase.Dumping? then phase.(last := LastRow(phase.last, s.phase.page))
                  else phase.(cursor := Advance(phase.cursor, s.phase.page)))
    case Finish => s.(phase := Idle, watermark := NewWatermark(s.phase))
    case Abort => s.(phase := Idle)
  }

  /** The timestamp of the last row a sync has read; an incremental sync that read none keeps the old one. */
  function NewWatermark(phase: Phase): Option<int>
    requires !phase.Idle?
  {
    match phase
    case Dumping(last, _, _, _, _) => if last.Some? then Some(last.value.ts) else None
    case Streaming(Since(w), _, _, _, _) => Some(w)
    case Streaming(AfterRow(m), _, _, _, _) => Some(m.ts)
  }

  // ------------------------------------------------------------ the invariant

  /** An incremental sync from this watermark reads `r`; without one, the next sync is a dump. */
  predicate Unread(watermark: Option<int>, r: Row)
  {
    watermark.Some? ==> r.ts >= watermark.value
  }

  /** `r` is in the view or about to be appended, and no tombstone is on its way to remove it. */
  ghost predicate Settled(s: State, r: Row)
  {
    r.key !in s.pending && (Shown(s, r) || r in InFlight(s))
  }

  /** No lost change: at rest, every source row is settled, or the next sync reads it. */
  ghost predicate Covered(s: State)
  {
    s.phase.Idle? ==> forall k | k in s.source :: Unread(s.watermark, s.source[k]) || Settled(s, s.source[k])
  }

  /** No resurrected row: what the source no longer has is on its way out. */
  ghost predicate DeletesPending(s: State)
  {
    forall k | k in Replay(s.log) && k !in s.source :: k in s.pending
  }

  /** What a reader of the view may rely on. */
  ghost predicate Safe(s: State)
  {
    Covered(s) && DeletesPending(s)
  }

  /** A row in flight is current, or the current one of its key is not shown yet. */
  ghost predicate PageFresh(s: State)
  {
    forall r | r in InFlight(s) && r.key in s.source :: s.source[r.key] == r || !Shown(s, s.source[r.key])
  }

  /** The cursor of a stream, and what it has read, is not below the saved watermark. */
  ghost predicate AboveWatermark(s: State)
  {
    s.phase.Streaming? ==>
      && s.watermark.Some?
      && (s.phase.cursor.Since? ==> s.phase.cursor.watermark == s.watermark.value)
      && (s.phase.cursor.AfterRow? ==> s.watermark.value <= s.phase.cursor.row.ts)
      && forall r | r in s.phase.page :: s.watermark.value <= r.ts
  }

  ghost predicate WellKeyed(s: State)
  {
    forall k | k in s.source :: s.source[k].key == k
  }

  ghost predicate Clocked(s: State)
  {
    && WellKeyed(s) && (forall k | k in s.source :: s.source[k].ts <= s.clock)
    && (s.watermark.Some? ==> s.watermark.value <= s.clock)
    && (forall k | k in Replay(s.log) :: Replay(s.log)[k].ts <= s.clock)
    && (forall r | r in InFlight(s) :: r.ts <= s.clock)
    && IsSorted(if s.phase.Dumping? then ByKey else ByTimestamp, InFlight(s))
    && DistinctKeys(InFlight(s))
    && AboveWatermark(s)
    && match s.phase
       case Idle => true
       case Dumping(last, fetched, page, _, _) =>
         && (last.Some? ==> last.value.ts <= s.clock) && (!fetched ==> page == [])
         && (forall r | r in page :: Past(KeyOf(last), r))
         && (forall k | k in Replay(s.log) :: !Past(KeyOf(last), Replay(s.log)[k]))
       case Streaming(c, fetched, page, _, missed) =>
         && (!fetched ==> page == []) && (c.AfterRow? ==> c.row.ts <= s.clock)
         && forall k | k in missed :: s.watermark.value <= missed[k].ts
  }

  /** The sync is where it was; only its account of missed rows may have changed. */
  ghost predicate SamePlace(p: Phase, q: Phase)
  {
    && (p.Idle? <==> q.Idle?) && (p.Dumping? <==> q.Dumping?)
    && (!p.Idle? ==> q == p.(missed := q.missed))
  }

  /** The running sync has passed the row of `k` and will not show it. */
  ghost predicate Overlooked(s: State, k: Key)
  {
    !s.phase.Idle? && k in s.source && !Coming(s, s.source[k]) && !Settled(s, s.source[k])
  }

  /** The account of missed rows is exact. */
  ghost predicate Accounted(s: State)
  {
    !s.phase.Idle? ==>
      && (forall k :: k in s.phase.missed <==> Overlooked(s, k))
      && forall k | k in s.phase.missed :: s.phase.missed[k] == s.source[k]
  }

  ghost predicate Inv(s: State)
  {
    Clocked(s) && LastIsNewest(s.log) && Safe(s) && PageFresh(s) && Accounted(s)
  }

  /**
   What the program leaves to its surroundings, exactly (`StepKeepsInvIff`, `TimelyIffSafe`):
   a page is appended only when each row in it is still in the source or has a tombstone on its way;
   a tombstone is lost only when no other is needed: its key is not shown, back in the source or deleted again;
   a sync finishes only when no row it missed is older than the last one it read;
   a dump fails only when no row it missed, or had still to append, is older than the saved watermark.
   */
  ghost predicate Timely(s: State, e: Event)
  {
    match e
    case AppendPage(_) => forall r | r in InFlight(s) :: r.key in s.source || r.key in s.pending
    case LoseTombstone(i) =>
      i < |s.pending| && s.pending[i] in Replay(s.log) ==>
        s.pending[i] in s.source || s.pending[i] in Removed(s.pending, i)
    case Finish => !s.phase.Idle? ==> forall k | k in s.phase.missed :: Unread(NewWatermark(s.phase), s.phase.missed[k])
    case Abort =>
      s.phase.Dumping? ==>
        && (forall k | k in s.phase.missed :: Unread(s.watermark, s.phase.missed[k]))
        && forall k | k in s.source && Past(KeyOf(s.phase.last), s.source[k]) :: Unread(s.watermark, s.source[k])
    case _ => true
  }

  // -------------------------------------------------------------- preservation

  lemma WriteKeepsAccount(s: State, row: Row)
    requires Inv(s) && row.ts > s.clock
    ensures Accounted(Apply(s, Write(row)))
  {
    var s' := Apply(s, Write(row));
    if !s.phase.Idle? {
      forall k ensures k in s'.phase.missed <==> Overlooked(s', k) {
        assert k in s.phase.missed <==> Overlooked(s, k);
      }
    }
  }

  lemma WriteKeepsInv(s: State, row: Row)
    requires Inv(s) && row.ts > s.clock
    ensures Inv(Apply(s, Write(row)))
  {
    WriteKeepsAccount(s, row);
  }

  lemma DeleteKeepsInv(s: State, k: Key)
    requires Inv(s) && k in s.source
    ensures Inv(Apply(s, Delete(k)))
  {
    var s' := Apply(s, Delete(k));
    if !s.phase.Idle? {
      forall q ensures q in s'.phase.missed <==> Overlooked(s', q) {
        assert q in s.phase.missed <==> Overlooked(s, q);
      }
    }
  }

  lemma OthersStay<T>(p: seq<T>, i: nat, x: T)
    requires i < |p| && x != p[i]
    ensures x in Removed(p, i) <==> x in p
  {
    assert p == p[..i] + ([p[i]] + p[i + 1..]);
  }

  lemma TombstoneView(log: Log, k: Key, stamp: Stamp)
    ensures Replay(log + [Tombstone(k, stamp)]) == Replay(log) - {k}
  {
    assert (log + [Tombstone(k, stamp)])[..|log|] == log;
  }

  lemma TombstoneShows(s: State, t: State, k: Key, r: Row)
    requires Replay(t.log) == Replay(s.log) - {k}
    ensures Shown(t, r) <==> r.key != k && Shown(s, r)
  {
  }

  /** A tombstone, written or lost, settles the row of its key if that is in flight or left shown; no other row. */
  lemma TombstoneSettles(s: State, t: State, i: nat, r: Row)
    requires i < |s.pending| && t.pending == Removed(s.pending, i) && InFlight(t) == InFlight(s)
    requires r.key != s.pending[i] ==> (Shown(t, r) <==> Shown(s, r))
    ensures Settled(t, r) <==>
            if r.key == s.pending[i] then (r in InFlight(s) || Shown(t, r)) && r.key !in t.pending else Settled(s, r)
  {
    if r.key != s.pending[i] {
      OthersStay(s.pending, i, r.key);
    }
  }

  lemma TombstoneKeepsAccount(s: State, i: nat, stamp: Stamp)
    requires Accounted(s) && WellKeyed(s) && Enabled(s, WriteTombstone(i, stamp))
    ensures Accounted(Apply(s, WriteTombstone(i, stamp)))
  {
    var s' := Apply(s, WriteTombstone(i, stamp));
    TombstoneView(s.log, s.pending[i], stamp);
    if !s.phase.Idle? {
      forall k ensures k in s'.phase.missed <==> Overlooked(s', k) {
        assert k in s.phase.missed <==> Overlooked(s, k);
        if k in s.source {
          TombstoneShows(s, s', s.pending[i], s.source[k]);
          TombstoneSettles(s, s', i, s.source[k]);
        }
      }
    }
  }

  lemma TombstoneKeepsSafe(s: State, t: State, i: nat)
    requires Safe(s) && WellKeyed(s) && i < |s.pending| && Replay(t.log) == Replay(s.log) - {s.pending[i]}
    requires t == s.(log := t.log, pending := Removed(s.pending, i), phase := t.phase) && SamePlace(s.phase, t.phase)
    ensures Safe(t)
  {
    forall k | k in s.source && Settled(s, s.source[k]) ensures Settled(t, s.source[k]) {
      TombstoneShows(s, t, s.pending[i], s.source[k]);
      TombstoneSettles(s, t, i, s.source[k]);
    }
    forall k | k in Replay(t.log) && k !in s.source ensures k in t.pending {
      OthersStay(s.pending, i, k);
    }
  }

  lemma TombstoneKeepsClock(s: State, t: State, i: nat)
    requires Clocked(s) && PageFresh(s) && i < |s.pending|
    requires Replay(t.log) == Replay(s.log) - {s.pending[i]} || t.log == s.log
    requires t == s.(log := t.log, pending := Removed(s.pending, i), phase := t.phase) && SamePlace(s.phase, t.phase)
    requires !s.phase.Idle? ==>
               forall k | k in t.phase.missed :: k in s.phase.missed && t.phase.missed[k] == s.phase.missed[k]
    ensures Clocked(t) && PageFresh(t)
  {
  }

  lemma TombstoneKeepsInv(s: State, i: nat, stamp: Stamp)
    requires Inv(s) && Enabled(s, WriteTombstone(i, stamp))
    ensures Inv(Apply(s, WriteTombstone(i, stamp)))
  {
    var t := Apply(s, WriteTombstone(i, stamp));
    TombstoneView(s.log, s.pending[i], stamp);
    TombstoneStaysNewest(s, i, stamp);
    TombstoneKeepsAccount(s, i, stamp);
    TombstoneKeepsClock(s, t, i);
    TombstoneKeepsSafe(s, t, i);
  }

  lemma TombstoneStaysNewest(s: State, i: nat, stamp: Stamp)
    requires LastIsNewest(s.log) && Enabled(s, WriteTombstone(i, stamp))
    ensures LastIsNewest(Apply(s, WriteTombstone(i, stamp)).log)
  {
    AppendStaysNewest(s.log, Tombstone(s.pending[i], stamp));
  }

  lemma LossKeepsAccount(s: State, i: nat)
    requires Accounted(s) && WellKeyed(s) && i < |s.pending|
    ensures Accounted(Apply(s, LoseTombstone(i)))
  {
    var s' := Apply(s, LoseTombstone(i));
    if !s.phase.Idle? {
      forall k ensures k in s'.phase.missed <==> Overlooked(s', k) {
        assert k in s.phase.missed <==> Overlooked(s, k);
        if k in s.source {
          TombstoneSettles(s, s', i, s.source[k]);
        }
      }
    }
  }

  lemma LossKeepsSafe(s: State, i: nat)
    requires Safe(s) && WellKeyed(s) && i < |s.pending| && Timely(s, LoseTombstone(i))
    ensures Safe(Apply(s, LoseTombstone(i)))
  {
    var t := Apply(s, LoseTombstone(i));
    forall k | k in s.source && Settled(s, s.source[k]) ensures Settled(t, s.source[k]) {
      TombstoneSettles(s, t, i, s.source[k]);
    }
    forall k | k in Replay(t.log) && k !in s.source ensures k in t.pending {
      if k != s.pending[i] {
        OthersStay(s.pending, i, k);
      }
    }
  }

  /** A tombstone that is lost leaves a deleted row in the view exactly when nothing else removes or replaces it. */
  lemma LossKeepsInvIff(s: State, i: nat)
    requires Inv(s) && Enabled(s, LoseTombstone(i))
    ensures Inv(Apply(s, LoseTombstone(i))) <==> Timely(s, LoseTombstone(i))
    ensures Safe(Apply(s, LoseTombstone(i))) ==> Timely(s, LoseTombstone(i))
  {
    LossKeepsAccount(s, i);
    TombstoneKeepsClock(s, Apply(s, LoseTombstone(i)), i);
    if Timely(s, LoseTombstone(i)) {
      LossKeepsSafe(s, i);
    }
  }

  lemma StartKeepsInv(s: State, e: Event)
    requires Inv(s) && Enabled(s, e) && (e.StartDump? || e.StartStream?)
    ensures Inv(Apply(s, e))
  {
  }

  lemma PageKeysDistinct(o: Order, t: set<Row>, page: seq<Row>)
    requires KeysUnique(t) && IsSorted(o, page) && forall r | r in page :: r in t
    ensures DistinctKeys(page)
  {
    forall i, j | 0 <= i < j < |page| ensures page[i].key != page[j].key {
      assert page[i] in page && page[j] in page && Before(o, page[i], page[j]);
      LessIrreflexive(Rank(o, page[i]));
    }
  }

  /** A SELECT comes to exactly the rows of its page, and leaves the others still to come. */
  lemma ReadPageMoves(s: State, page: seq<Row>, limit: nat, r: Row)
    requires Inv(s) && Enabled(s, ReadPage(page, limit)) && r in s.source.Values
    ensures Coming(Apply(s, ReadPage(page, limit)), r) <==> Coming(s, r) && r !in page
    ensures r in page ==> Coming(s, r)
  {
    if s.phase.Dumping? {
      CursorAdvances(s.source.Values, limit, KeyOf(s.phase.last), page);
      LessIrreflexive(r.key);
    } else {
      IncrementalCursorAdvances(s.source.Values, limit, s.phase.cursor, page);
      LessIrreflexive(Rank(ByTimestamp, r));
    }
  }

  lemma ReadPageKeepsAccount(s: State, page: seq<Row>, limit: nat)
    requires Inv(s) && Enabled(s, ReadPage(page, limit))
    ensures Accounted(Apply(s, ReadPage(page, limit)))
  {
    var s' := Apply(s, ReadPage(page, limit));
    forall k ensures k in s'.phase.missed <==> Overlooked(s', k)
             ensures k in s'.phase.missed ==> s'.phase.missed[k] == s'.source[k]
    {
      assert k in s.phase.missed <==> Overlooked(s, k);
      if k in s.source {
        ReadPageMoves(s, page, limit, s.source[k]);
      }
    }
  }

  lemma ReadPageKeepsClock(s: State, page: seq<Row>, limit: nat)
    requires Inv(s) && Enabled(s, ReadPage(page, limit))
    ensures Clocked(Apply(s, ReadPage(page, limit)))
  {
    PageKeysDistinct(if s.phase.Dumping? then ByKey else ByTimestamp, s.source.Values, page);
  }

  lemma ReadPageKeepsInv(s: State, page: seq<Row>, limit: nat)
    requires Inv(s) && Enabled(s, ReadPage(page, limit))
    ensures Inv(Apply(s, ReadPage(page, limit)))
  {
    ReadPageKeepsClock(s, page, limit);
    ReadPageKeepsAccount(s, page, limit);
  }

  ghost predicate DistinctKeys(page: seq<Row>)
  {
    forall i, j | 0 <= i < j < |page| :: page[i].key != page[j].key
  }

  lemma {:induction false} AppendRowsNewest(log: Log, page: seq<Row>, stamp: Stamp)
    requires LastIsNewest(log) && DistinctKeys(page)
    requires forall r | r in page :: NewestOfKey(log, Live(r, stamp))
    ensures LastIsNewest(AppendRows(log, page, stamp))
    ensures Replay(AppendRows(log, page, stamp)) == Overlay(Replay(log), page)
    ensures forall e | NewestOfKey(log, e) && (forall r | r in page :: r.key != e.Key()) ::
              NewestOfKey(AppendRows(log, page, stamp), e)
  {
    if page != [] {
      var front, r := page[..|page| - 1], page[|page| - 1];
      AppendRowsNewest(log, front, stamp);
      assert r in page && NewestOfKey(log, Live(r, stamp));
      AppendStaysNewest(AppendRows(log, front, stamp), Live(r, stamp));
    }
  }

  function Overlay(v: map<Key, Row>, page: seq<Row>): map<Key, Row>
  {
    if page == [] then v else Overlay(v, page[..|page| - 1])[page[|page| - 1].key := page[|page| - 1]]
  }

  /** `v'` is `v` with the rows of `page` put in, and nothing else changed. */
  ghost predicate Puts(v: map<Key, Row>, page: seq<Row>, v': map<Key, Row>)
  {
    && (forall r | r in page :: r.key in v' && v'[r.key] == r)
    && (forall k | k in v' :: (v'[k] in page && v'[k].key == k) || (k in v && v'[k] == v[k]))
    && (forall k | k in v :: k in v')
  }

  lemma {:induction false} OverlayPuts(v: map<Key, Row>, page: seq<Row>)
    requires DistinctKeys(page)
    ensures Puts(v, page, Overlay(v, page))
  {
    if page != [] {
      OverlayPuts(v, page[..|page| - 1]);
    }
  }

  lemma AppendPageView(s: State, stamp: Stamp)
    requires Inv(s) && Enabled(s, AppendPage(stamp))
    ensures LastIsNewest(Apply(s, AppendPage(stamp)).log)
    ensures Puts(Replay(s.log), s.phase.page, Replay(Apply(s, AppendPage(stamp)).log))
  {
    AppendRowsNewest(s.log, s.phase.page, stamp);
    OverlayPuts(Replay(s.log), s.phase.page);
  }

  /** Appending a page neither settles nor unsettles a source row. */
  lemma AppendSettles(s: State, stamp: Stamp, k: Key)
    requires Inv(s) && Enabled(s, AppendPage(stamp)) && k in s.source
    ensures Settled(Apply(s, AppendPage(stamp)), s.source[k]) <==> Settled(s, s.source[k])
  {
    AppendPageView(s, stamp);
  }

  lemma AppendPageKeepsAccount(s: State, stamp: Stamp)
    requires Inv(s) && Enabled(s, AppendPage(stamp))
    ensures Accounted(Apply(s, AppendPage(stamp)))
  {
    var s' := Apply(s, AppendPage(stamp));
    forall k ensures k in s'.phase.missed <==> Overlooked(s', k) {
      assert k in s.phase.missed <==> Overlooked(s, k);
      if k in s.source {
        AppendSettles(s, stamp, k);
      }
    }
  }

  lemma AppendPageKeepsClock(s: State, stamp: Stamp)
    requires Inv(s) && Enabled(s, AppendPage(stamp))
    ensures Clocked(Apply(s, AppendPage(stamp)))
  {
    AppendPageView(s, stamp);
    if s.phase.Dumping? {
      AppendStaysBehind(s.phase.last, s.phase.page, Replay(s.log), Replay(Apply(s, AppendPage(stamp)).log));
    }
  }

  /** What a dump has appended is not past its cursor. */
  lemma AppendStaysBehind(last: Option<Row>, page: seq<Row>, v: map<Key, Row>, v': map<Key, Row>)
    requires IsSorted(ByKey, page) && Puts(v, page, v') && forall r | r in page :: Past(KeyOf(last), r)
    requires forall k | k in v :: !Past(KeyOf(last), v[k])
    ensures forall k | k in v' :: !Past(KeyOf(LastRow(last, page)), v'[k])
  {
    if page != [] {
      var m := page[|page| - 1];
      assert m in page;
      forall k | k in v' ensures !Less(m.key, v'[k].key) {
        if v'[k] in page {
          if v'[k] == m {
            LessIrreflexive(m.key);
          } else {
            LastIsGreatest(ByKey, page, v'[k]);
            BeforeTotal(ByKey, v'[k], m);
          }
        } else if Less(m.key, v[k].key) {
          assert !Past(KeyOf(last), v[k]);
          LessTransitive(last.value.key, m.key, v[k].key);
        }
      }
    }
  }

  /** Appending a page resurrects a row exactly when its key is gone and so is its tombstone. */
  lemma AppendPageKeepsInvIff(s: State, stamp: Stamp)
    requires Inv(s) && Enabled(s, AppendPage(stamp))
    ensures Inv(Apply(s, AppendPage(stamp))) <==> Timely(s, AppendPage(stamp))
    ensures Safe(Apply(s, AppendPage(stamp))) ==> Timely(s, AppendPage(stamp))
  {
    var s' := Apply(s, AppendPage(stamp));
    AppendPageView(s, stamp);
    AppendPageKeepsClock(s, stamp);
    AppendPageKeepsAccount(s, stamp);
    if Timely(s, AppendPage(stamp)) {
      forall k | k in Replay(s'.log) && k !in s.source ensures k in s.pending {
        assert k in Replay(s.log) || Replay(s'.log)[k] in s.phase.page;
      }
    }
  }

  /** A sync saves a safe watermark exactly when no row it missed is older than the last row it read. */
  lemma FinishKeepsInvIff(s: State)
    requires Inv(s) && Enabled(s, Finish)
    ensures Inv(Apply(s, Finish)) <==> Timely(s, Finish)
    ensures Safe(Apply(s, Finish)) ==> Timely(s, Finish)
  {
    var s' := Apply(s, Finish);
    forall k | k in s.source
      ensures k !in s.phase.missed <==> Settled(s', s.source[k])
    {
      assert k in s.phase.missed <==> Overlooked(s, k);
    }
    forall k | k in s.phase.missed ensures k in s.source && s.phase.missed[k] == s.source[k] {
      assert Overlooked(s, k);
    }
  }

  /** A failed sync loses nothing exactly when it was no dump that leaves older rows to be read again. */
  lemma AbortKeepsInvIff(s: State)
    requires Inv(s) && Enabled(s, Abort)
    ensures Inv(Apply(s, Abort)) <==> Timely(s, Abort)
    ensures Safe(Apply(s, Abort)) ==> Timely(s, Abort)
  {
    var s' := Apply(s, Abort);
    if Timely(s, Abort) {
      forall k | k in s.source ensures Unread(s'.watermark, s.source[k]) || Settled(s', s.source[k]) {
        AbortCovers(s, k);
      }
    }
    if Safe(s') && s.phase.Dumping? {
      forall k | k in s.phase.missed ensures Unread(s.watermark, s.phase.missed[k]) {
        assert Overlooked(s, k);
      }
    }
  }

  lemma AbortCovers(s: State, k: Key)
    requires Inv(s) && Enabled(s, Abort) && Timely(s, Abort) && k in s.source
    ensures Unread(s.watermark, s.source[k]) || Settled(Apply(s, Abort), s.source[k])
  {
    var r := s.source[k];
    assert k in s.phase.missed <==> Overlooked(s, k);
    if s.phase.Dumping? && Coming(s, r) {
      PastLastRow(s.phase.last, s.phase.page, r);
    }
  }

  lemma PastLastRow(last: Option<Row>, page: seq<Row>, r: Row)
    requires Past(KeyOf(LastRow(last, page)), r) && forall q | q in page :: Past(KeyOf(last), q)
    ensures Past(KeyOf(last), r)
  {
    if page != [] && last.Some? {
      assert page[|page| - 1] in page;
      LessTransitive(last.value.key, page[|page| - 1].key, r.key);
    }
  }

  /** The promises are exact: whatever the step, it keeps the invariant if and only if it is timely. */
  lemma StepKeepsInvIff(s: State, e: Event)
    requires Inv(s) && Enabled(s, e)
    ensures Inv(Apply(s, e)) <==> Timely(s, e)
    ensures Safe(Apply(s, e)) <==> Timely(s, e)
  {
    match e
    case Write(row) => WriteKeepsInv(s, row);
    case Delete(k) => DeleteKeepsInv(s, k);
    case WriteTombstone(i, stamp) => TombstoneKeepsInv(s, i, stamp);
    case LoseTombstone(i) => LossKeepsInvIff(s, i);
    case StartDump => StartKeepsInv(s, e);
    case StartStream => StartKeepsInv(s, e);
    case ReadPage(page, limit) => ReadPageKeepsInv(s, page, limit);
    case AppendPage(stamp) => AppendPageKeepsInvIff(s, stamp);
    case Finish => FinishKeepsInvIff(s);
    case Abort => AbortKeepsInvIff(s);
  }

  // ---------------------------------------------------------------------- runs

  /** Before the first sync: any source, nothing replicated. */
  ghost predicate Initial(s: State)
  {
    && (forall k | k in s.source :: s.source[k].key == k && s.source[k].ts <= s.clock)
    && s.log == [] && s.watermark == None && s.pending == [] && s.phase == Idle
  }

  /** The events `es` lead from `s` to `t`; with `timely`, the surroundings keep their promises. */
  ghost predicate Leads(s: State, es: seq<Event>, t: State, timely: bool)
  {
    if es == [] then s == t
    else
      var e := es[|es| - 1];
      exists m :: Leads(s, es[..|es| - 1], m, timely) && Enabled(m, e) && (timely ==> Timely(m, e)) && t == Apply(m, e)
  }

  /** The events `es` lead from `s` to `t`, and every state they come to is safe. */
  ghost predicate LeadsSafely(s: State, es: seq<Event>, t: State)
  {
    if es == [] then s == t
    else
      var e := es[|es| - 1];
      exists m :: LeadsSafely(s, es[..|es| - 1], m) && Enabled(m, e) && t == Apply(m, e) && Safe(t)
  }

  lemma {:induction false} InvAlways(s: State, es: seq<Event>, t: State)
    requires Inv(s) && Leads(s, es, t, true)
    ensures Inv(t)
  {
    if es != [] {
      var e := es[|es| - 1];
      var m :| Leads(s, es[..|es| - 1], m, true) && Enabled(m, e) && Timely(m, e) && t == Apply(m, e);
      InvAlways(s, es[..|es| - 1], m);
      StepKeepsInvIff(m, e);
    }
  }

  /** The promises ask for nothing that is not needed: a run is timely exactly when it is safe all along. */
  lemma {:induction false} TimelyIffSafe(s: State, es: seq<Event>, t: State)
    requires Inv(s)
    ensures Leads(s, es, t, true) <==> LeadsSafely(s, es, t)
  {
    if es != [] {
      var front, e := es[..|es| - 1], es[|es| - 1];
      if Leads(s, es, t, true) {
        var m :| Leads(s, front, m, true) && Enabled(m, e) && Timely(m, e) && t == Apply(m, e);
        TimelyIffSafe(s, front, m);
        InvAlways(s, front, m);
        StepKeepsInvIff(m, e);
      }
      if LeadsSafely(s, es, t) {
        var m :| LeadsSafely(s, front, m) && Enabled(m, e) && t == Apply(m, e) && Safe(t);
        TimelyIffSafe(s, front, m);
        InvAlways(s, front, m);
        StepKeepsInvIff(m, e);
      }
    }
  }

  /**
   No lost change, over every timely run: each source row is in the view, or about to be, as it is now, with no
   tombstone on its way to remove it; or it is still to be read, at rest by the next sync, and during a sync by
   that one, unless it has missed it; and a row the source no longer has is gone from the view unless its
   tombstone is on its way.
   */
  lemma NoLostChange(s: State, es: seq<Event>, t: State, view: map<Key, Row>)
    requires Initial(s) && Leads(s, es, t, true) && IsView(t.log, view)
    ensures forall k | k in t.source ::
              || (k !in t.pending && ((k in view && view[k] == t.source[k]) || t.source[k] in InFlight(t)))
              || (if t.phase.Idle? then Unread(t.watermark, t.source[k])
                  else Coming(t, t.source[k]) || k in t.phase.missed)
    ensures forall k | k in view && k !in t.source :: k in t.pending
  {
    assert Inv(s);
    InvAlways(s, es, t);
    ViewIsReplay(t.log, view);
    if !t.phase.Idle? {
      forall k | k in t.source ensures Settled(t, t.source[k]) || Coming(t, t.source[k]) || k in t.phase.missed {
        assert k in t.phase.missed <==> Overlooked(t, k);
      }
    }
  }

  predicate AtMost(a: Option<int>, b: Option<int>)
  {
    a.Some? ==> b.Some? && a.value <= b.value
  }

  lemma UndumpedStep(s: State, e: Event)
    requires AboveWatermark(s) && !s.phase.Dumping? && Enabled(s, e) && e != StartDump
    ensures var t := Apply(s, e);
      AboveWatermark(t) && !t.phase.Dumping? && AtMost(s.watermark, t.watermark)
  {
    if e.ReadPage? {
      assert forall r | r in e.page :: r in Selectable(s);
    }
  }

  /** Over any run at all, only a dump can lower the saved watermark: streams, failures and writers never do. */
  lemma {:induction false} WatermarkNeverFalls(s: State, es: seq<Event>, t: State)
    requires AboveWatermark(s) && !s.phase.Dumping? && Leads(s, es, t, false) && StartDump !in es
    ensures AboveWatermark(t) && !t.phase.Dumping? && AtMost(s.watermark, t.watermark)
  {
    if es != [] {
      var e := es[|es| - 1];
      var m :| Leads(s, es[..|es| - 1], m, false) && Enabled(m, e) && t == Apply(m, e);
      WatermarkNeverFalls(s, es[..|es| - 1], m);
      UndumpedStep(m, e);
    }
  }

  // --------------------------------------------------------------- convergence

  /** Events of a sync that runs through while nobody writes. */
  predicate SyncStep(e: Event)
  {
    e.StartDump? || e.StartStream? || e.ReadPage? || e.AppendPage? || e.Finish?
  }

  /** The running sync, if any, has missed nothing. */
  predicate NothingMissed(s: State)
  {
    !s.phase.Idle? ==> s.phase.missed == map[]
  }

  predicate Starts(e: Event)
  {
    e.StartDump? || e.StartStream?
  }

  /** The sync that finishes last has missed nothing at `s`, or starts afterwards. */
  ghost predicate Fresh(s: State, es: seq<Event>)
  {
    NothingMissed(s) || exists e | e in es :: Starts(e)
  }

  lemma QuietStep(s: State, e: Event)
    requires s.pending == [] && SyncStep(e) && Enabled(s, e)
    ensures var t := Apply(s, e);
      && t.pending == [] && t.source == s.source && (Starts(e) || NothingMissed(s) ==> NothingMissed(t))
      && (!Starts(e) && !t.phase.Idle? ==> !s.phase.Idle? && t.phase.missed == s.phase.missed)
  {
    if e.ReadPage? {
      assert Missed(s, e) == s.phase.missed;
    }
  }

  /** While nobody writes and no delete is pending, what a sync has missed stays what it has missed. */
  lemma {:induction false} QuietRun(s: State, es: seq<Event>, t: State)
    requires Inv(s) && s.pending == [] && (forall e | e in es :: SyncStep(e)) && Leads(s, es, t, true)
    ensures Inv(t) && t.pending == [] && t.source == s.source && (Fresh(s, es) ==> NothingMissed(t))
    ensures !Fresh(s, es) && !t.phase.Idle? ==> !s.phase.Idle? && t.phase.missed == s.phase.missed
  {
    if es != [] {
      var front, e := es[..|es| - 1], es[|es| - 1];
      var m :| Leads(s, front, m, true) && Enabled(m, e) && Timely(m, e) && t == Apply(m, e);
      QuietRun(s, front, m);
      StepKeepsInvIff(m, e);
      QuietStep(m, e);
      FreshSnoc(s, es);
    }
  }

  lemma FreshSnoc(s: State, es: seq<Event>)
    requires es != []
    ensures Fresh(s, es) <==> Fresh(s, es[..|es| - 1]) || Starts(es[|es| - 1])
  {
    assert es == es[..|es| - 1] + [es[|es| - 1]];
  }

  /** A sync about to finish, every delete tombstoned, shows the source exactly when it has missed nothing. */
  lemma FinishShowsSourceIff(s: State)
    requires Inv(s) && s.pending == [] && Enabled(s, Finish)
    ensures Replay(s.log) == s.source <==> NothingMissed(s)
  {
    if NothingMissed(s) {
      forall k | k in s.source ensures k in Replay(s.log) && Replay(s.log)[k] == s.source[k] {
        assert k in s.phase.missed <==> Overlooked(s, k);
        assert s.source[k].key == k;
      }
    } else {
      var k :| k in s.phase.missed;
      assert Overlooked(s, k) && s.source[k].key == k;
    }
  }

  lemma QuietSync(m: State, es: seq<Event>, t: State)
    requires Inv(m) && m.pending == []
    requires (forall e | e in es :: SyncStep(e)) && es != [] && es[|es| - 1] == Finish && Leads(m, es, t, true)
    ensures t.source == m.source && LastIsNewest(t.log) && (Replay(t.log) == t.source <==> Fresh(m, es))
  {
    var b :| Leads(m, es[..|es| - 1], b, true) && Enabled(b, Finish) && Timely(b, Finish) && t == Apply(b, Finish);
    QuietRun(m, es[..|es| - 1], b);
    FinishShowsSourceIff(b);
    FreshSnoc(m, es);
  }

  /**
   Convergence: after any timely history, a sync that finishes with nobody writing from some point on, every delete
   tombstoned by then, leaves the view equal to the source exactly when it starts after that point, or had missed
   nothing by then.
   */
  lemma Converges(s: State, history: seq<Event>, m: State, es: seq<Event>, t: State, view: map<Key, Row>)
    requires Initial(s) && Leads(s, history, m, true) && m.pending == []
    requires (forall e | e in es :: SyncStep(e)) && es != [] && es[|es| - 1] == Finish && Leads(m, es, t, true)
    ensures t.source == m.source
    ensures Fresh(m, es) ==> (IsView(t.log, view) <==> view == t.source)
    ensures !Fresh(m, es) && IsView(t.log, view) ==> view != t.source
  {
    assert Inv(s);
    InvAlways(s, history, m);
    QuietSync(m, es, t);
    ViewIsReplay(t.log, view);
  }
}
