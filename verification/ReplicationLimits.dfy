/** Runs that break the promises of `Replication.Timely`, one each: a row is lost, or comes back, for good. */
module ReplicationLimits {
  import opened Wrappers
  import opened Keyset
  import opened MysqlStream
  import opened ProjectionView
  import opened Replication

  /** At rest, the view is wrong about the source row of `k` and no sync will read that row again. */
  ghost predicate Lost(s: State, k: Key)
  {
    s.phase.Idle? && s.pending == [] && k in s.source && !Shown(s, s.source[k]) && !Unread(s.watermark, s.source[k])
  }

  const A := Row([1], 1, 0)
  const B := Row([2], 2, 0)
  const A' := Row([1], 3, 1)
  const B' := Row([2], 4, 1)

  /** Two rows, nothing replicated yet. */
  function Start(): State
  {
    State(map[[1] := A, [2] := B], 2, [], None, [], Idle)
  }

  /** At rest, the view shows a row the source has deleted, and no tombstone is on its way. */
  ghost predicate Resurrected(s: State, k: Key)
  {
    s.phase.Idle? && s.pending == [] && k !in s.source && k in Replay(s.log)
  }

  /** `reach` holds of every state a run from `Start()` can lead to; `Leads` itself is the least such predicate. */
  ghost predicate Closed(reach: State -> bool)
  {
    reach(Start()) && forall m, e | reach(m) && Enabled(m, e) :: reach(Apply(m, e))
  }

  ghost predicate Reachable(t: State)
  {
    exists es :: Leads(Start(), es, t, false)
  }

  lemma ReachableIsClosed()
    ensures Closed(t => Reachable(t))
  {
    assert Leads(Start(), [], Start(), false);
    forall m, e | Reachable(m) && Enabled(m, e) ensures Reachable(Apply(m, e)) {
      var es :| Leads(Start(), es, m, false);
      var f := es + [e];
      assert f[..|f| - 1] == es && f[|f| - 1] == e;
      assert Leads(Start(), f, Apply(m, e), false) by { assert Leads(Start(), f[..|f| - 1], m, false); }
    }
  }

  lemma Then(reach: State -> bool, m: State, e: Event, t: State)
    requires Closed(reach) && reach(m) && Enabled(m, e) && t == Apply(m, e)
    ensures reach(t)
  {
  }

  lemma ShortOrder(r: Row, q: Row)
    requires |r.key| == |q.key| == 1 && r.key[0] < q.key[0] && r.ts < q.ts
    ensures Before(ByKey, r, q) && Before(ByTimestamp, r, q)
  {
  }

  lemma Appended(log: Log, r: Row, q: Row, stamp: Stamp)
    ensures AppendRows(log, [], stamp) == log
    ensures AppendRows(log, [r], stamp) == log + [Live(r, stamp)]
    ensures AppendRows(log, [r, q], stamp) == log + [Live(r, stamp), Live(q, stamp)]
  {
    assert [r][..0] == [] && [r, q][..1] == [r];
    assert AppendRows(log, [r], stamp) == log + [Live(r, stamp)];
  }

  /** The dump of both rows by one page. */
  lemma Dumped(reach: State -> bool) returns (t: State)
    requires Closed(reach)
    ensures reach(t) && t == Start().(log := [Live(A, Stamp(0, 0)), Live(B, Stamp(0, 0))], watermark := Some(2))
  {
    var s, page := Start(), [A, B];
    ShortOrder(A, B);
    var m1 := s.(phase := Dumping(None, false, [], false, map[]));
    Then(reach, s, StartDump, m1);
    assert Selectable(m1) == {A, B} by { assert s.source[[1]] == A && s.source[[2]] == B; }
    var m2 := s.(phase := Dumping(None, true, page, true, map[]));
    Then(reach, m1, ReadPage(page, 10), m2);
    Appended([], A, B, Stamp(0, 0));
    var m3 := s.(log := [Live(A, Stamp(0, 0)), Live(B, Stamp(0, 0))],
                phase := Dumping(Some(B), false, [], true, map[]));
    Then(reach, m2, AppendPage(Stamp(0, 0)), m3);
    t := m3.(phase := Idle, watermark := Some(2));
    Then(reach, m3, Finish, t);
  }

  /** A dump that fails after dropping the old log leaves the old watermark behind it. */
  lemma FailedRedumpLosesRow(reach: State -> bool) returns (t: State)
    requires Closed(reach)
    ensures reach(t) && Lost(t, [1])
  {
    var m := Dumped(reach);
    var m1 := m.(log := [], phase := Dumping(None, false, [], false, map[]));
    Then(reach, m, StartDump, m1);
    t := m1.(phase := Idle);
    Then(reach, m1, Abort, t);
  }

  /** A row changed behind the cursor of a dump is missed when the dump's last row is changed later still. */
  lemma BusyDumpLosesChange(reach: State -> bool) returns (t: State)
    requires Closed(reach)
    ensures reach(t) && Lost(t, [1])
  {
    var s := Start();
    ShortOrder(A, B);
    var m1 := s.(phase := Dumping(None, false, [], false, map[]));
    Then(reach, s, StartDump, m1);
    assert Selectable(m1) == {A, B} by { assert s.source[[1]] == A && s.source[[2]] == B; }
    var m2 := s.(phase := Dumping(None, true, [A], false, map[]));
    Then(reach, m1, ReadPage([A], 1), m2);
    Appended([], A, B, Stamp(0, 0));
    var m3 := s.(log := [Live(A, Stamp(0, 0))], phase := Dumping(Some(A), false, [], false, map[]));
    Then(reach, m2, AppendPage(Stamp(0, 0)), m3);
    assert Less([1], [2]) && !Less([1], [1]);
    var m4 := m3.(source := map[[1] := A', [2] := B], clock := 3,
                 phase := Dumping(Some(A), false, [], false, map[[1] := A']));
    Then(reach, m3, Write(A'), m4);
    t := BusyDumpGoesOn(reach, m4);
  }

  lemma BusyDumpGoesOn(reach: State -> bool, m: State) returns (t: State)
    requires Closed(reach) && reach(m)
    requires m == Start().(source := map[[1] := A', [2] := B], clock := 3, log := [Live(A, Stamp(0, 0))],
                           phase := Dumping(Some(A), false, [], false, map[[1] := A']))
    ensures reach(t) && Lost(t, [1])
  {
    assert Less([1], [2]);
    var m1 := m.(source := map[[1] := A', [2] := B'], clock := 4);
    Then(reach, m, Write(B'), m1);
    t := BusyDumpEnds(reach, m1);
  }

  lemma BusyDumpEnds(reach: State -> bool, m: State) returns (t: State)
    requires Closed(reach) && reach(m)
    requires m == Start().(source := map[[1] := A', [2] := B'], clock := 4, log := [Live(A, Stamp(0, 0))],
                           phase := Dumping(Some(A), false, [], false, map[[1] := A']))
    ensures reach(t) && Lost(t, [1])
  {
    assert Less([1], [2]) && !Less([1], [1]);
    assert Selectable(m) == {B'} by { assert m.source[[1]] == A' && m.source[[2]] == B'; }
    var m1 := m.(phase := Dumping(Some(A), true, [B'], true, map[[1] := A']));
    assert Missed(m, ReadPage([B'], 2)) == m.phase.missed;
    Then(reach, m, ReadPage([B'], 2), m1);
    Appended(m.log, B', B', Stamp(1, 0));
    var m2 := m.(log := m.log + [Live(B', Stamp(1, 0))],
                phase := Dumping(Some(B'), false, [], true, map[[1] := A']));
    Then(reach, m1, AppendPage(Stamp(1, 0)), m2);
    t := m2.(phase := Idle, watermark := Some(4));
    Then(reach, m2, Finish, t);
    assert t.log[..1] == m.log && m.log[..0] == [];
    assert Replay(m.log) == map[[1] := A];
    assert Replay(t.log)[[1]] == A;
  }

  /** A tombstone written after a page has read the re-inserted row removes that row. */
  lemma LateTombstoneLosesRow(reach: State -> bool) returns (t: State)
    requires Closed(reach)
    ensures reach(t) && Lost(t, [1])
  {
    var m := Dumped(reach);
    var m1 := m.(source := map[[2] := B], pending := [[1]]);
    Then(reach, m, Delete([1]), m1);
    var m2 := m1.(source := map[[1] := A', [2] := B], clock := 3);
    Then(reach, m1, Write(A'), m2);
    var m3 := m2.(source := map[[1] := A', [2] := B'], clock := 4);
    Then(reach, m2, Write(B'), m3);
    var m4 := m3.(phase := Streaming(Since(2), false, [], false, map[]));
    Then(reach, m3, StartStream, m4);
    var m5 := LateTombstoneReads(reach, m4);
    t := m5.(log := m5.log + [Tombstone([1], Stamp(2, 0))], pending := []);
    assert Removed(m5.pending, 0) == [];
    Then(reach, m5, WriteTombstone(0, Stamp(2, 0)), t);
    assert t.log[..|t.log| - 1] == m5.log;
  }

  lemma LateTombstoneReads(reach: State -> bool, m: State) returns (t: State)
    requires Closed(reach) && reach(m)
    requires m == State(map[[1] := A', [2] := B'], 4, [Live(A, Stamp(0, 0)), Live(B, Stamp(0, 0))], Some(2), [[1]],
                        Streaming(Since(2), false, [], false, map[]))
    ensures reach(t)
    ensures t == m.(log := m.log + [Live(A', Stamp(1, 0)), Live(B', Stamp(1, 0))], watermark := Some(4), phase := Idle)
  {
    ShortOrder(A', B');
    assert Selectable(m) == {A', B'} by { assert m.source[[1]] == A' && m.source[[2]] == B'; }
    var page := [A', B'];
    var m1 := m.(phase := Streaming(Since(2), true, page, true, map[[1] := A']));
    assert Missed(m, ReadPage(page, 10)) == map[[1] := A'];
    Then(reach, m, ReadPage(page, 10), m1);
    Appended(m.log, A', B', Stamp(1, 0));
    var m2 := m.(log := m.log + [Live(A', Stamp(1, 0)), Live(B', Stamp(1, 0))],
                phase := Streaming(AfterRow(B'), false, [], true, map[[1] := A']));
    Then(reach, m1, AppendPage(Stamp(1, 0)), m2);
    t := m2.(phase := Idle, watermark := Some(4));
    Then(reach, m2, Finish, t);
  }

  /** A tombstone written while a page that holds the deleted row is in flight is overtaken by that page. */
  lemma OvertakenTombstoneResurrectsRow(reach: State -> bool) returns (t: State)
    requires Closed(reach)
    ensures reach(t) && Resurrected(t, [2])
  {
    var m := Dumped(reach);
    var m1 := m.(phase := Streaming(Since(2), false, [], false, map[]));
    Then(reach, m, StartStream, m1);
    assert Selectable(m1) == {B} by { assert m.source[[1]] == A && m.source[[2]] == B; }
    var m2 := m1.(phase := Streaming(Since(2), true, [B], true, map[]));
    Then(reach, m1, ReadPage([B], 10), m2);
    var m3 := m2.(source := map[[1] := A], pending := [[2]]);
    Then(reach, m2, Delete([2]), m3);
    var m4 := m3.(log := m3.log + [Tombstone([2], Stamp(1, 0))], pending := []);
    assert Removed(m3.pending, 0) == [];
    Then(reach, m3, WriteTombstone(0, Stamp(1, 0)), m4);
    t := OvertakenPageLands(reach, m4);
  }

  lemma OvertakenPageLands(reach: State -> bool, m: State) returns (t: State)
    requires Closed(reach) && reach(m)
    requires m == State(map[[1] := A], 2, [Live(A, Stamp(0, 0)), Live(B, Stamp(0, 0)), Tombstone([2], Stamp(1, 0))],
                        Some(2), [], Streaming(Since(2), true, [B], true, map[]))
    ensures reach(t) && Resurrected(t, [2])
  {
    Appended(m.log, B, B, Stamp(2, 0));
    var m1 := m.(log := m.log + [Live(B, Stamp(2, 0))], phase := Streaming(AfterRow(B), false, [], true, map[]));
    Then(reach, m, AppendPage(Stamp(2, 0)), m1);
    t := m1.(phase := Idle);
    Then(reach, m1, Finish, t);
    assert t.log[..|t.log| - 1] == m.log;
  }

  /** A tombstone that is lost leaves the row it was for in the view. */
  lemma LostTombstoneResurrectsRow(reach: State -> bool) returns (t: State)
    requires Closed(reach)
    ensures reach(t) && Resurrected(t, [2])
  {
    var m := Dumped(reach);
    var m1 := m.(source := map[[1] := A], pending := [[2]]);
    Then(reach, m, Delete([2]), m1);
    t := m1.(pending := []);
    assert Removed(m1.pending, 0) == [];
    Then(reach, m1, LoseTombstone(0), t);
    assert t.log[..1] == [Live(A, Stamp(0, 0))];
  }

  // ------------------------------------------------------------------ for good

  /** No rebuild, and no write or delete of `k`. */
  predicate LeavesAlone(e: Event, k: Key)
  {
    !e.StartDump? && (e.Write? ==> e.row.key != k) && (e.Delete? ==> e.key != k)
  }

  /** The source row of `k` is neither shown nor ever read again. */
  ghost predicate Gone(s: State, k: Key, r: Row)
  {
    && !s.phase.Dumping? && AboveWatermark(s) && k in s.source && s.source[k] == r && r.key == k
    && !Shown(s, r) && !Unread(s.watermark, r)
  }

  /** The view shows `k`, which the source does not have, and nothing will remove it. */
  ghost predicate Haunts(s: State, k: Key)
  {
    && !s.phase.Dumping? && WellKeyed(s) && k !in s.source && k !in s.pending && k in Replay(s.log)
    && forall r | r in InFlight(s) :: r.key != k
  }

  /** Appending a page changes the view at its keys only, and there to its rows. */
  lemma {:induction false} AppendedView(log: Log, page: seq<Row>, stamp: Stamp, k: Key)
    ensures var v, v' := Replay(log), Replay(AppendRows(log, page, stamp));
      && (k in v ==> k in v')
      && (k in v' ==> (k in v && v'[k] == v[k]) || (v'[k] in page && v'[k].key == k))
  {
    if page != [] {
      AppendedView(log, page[..|page| - 1], stamp, k);
      var log' := AppendRows(log, page[..|page| - 1], stamp);
      assert (log' + [Live(page[|page| - 1], stamp)])[..|log'|] == log';
    }
  }

  lemma GoneStep(s: State, e: Event, k: Key, r: Row)
    requires Gone(s, k, r) && Enabled(s, e) && LeavesAlone(e, k)
    ensures Gone(Apply(s, e), k, r)
  {
    UndumpedStep(s, e);
    match e
    case AppendPage(stamp) => AppendedView(s.log, s.phase.page, stamp, k);
    case WriteTombstone(i, stamp) => TombstoneView(s.log, s.pending[i], stamp);
    case _ =>
  }

  lemma HauntsStep(s: State, e: Event, k: Key)
    requires Haunts(s, k) && Enabled(s, e) && LeavesAlone(e, k)
    ensures Haunts(Apply(s, e), k)
  {
    match e
    case AppendPage(stamp) => AppendedView(s.log, s.phase.page, stamp, k);
    case WriteTombstone(i, stamp) => TombstoneView(s.log, s.pending[i], stamp);
    case ReadPage(page, _) => assert forall r | r in page :: r in Selectable(s);
    case _ =>
  }

  /** Whatever comes, timely or not, a lost row stays lost until it is changed or the table is rebuilt. */
  lemma {:induction false} LostForGood(s: State, es: seq<Event>, t: State, k: Key)
    requires Lost(s, k) && s.source[k].key == k && Leads(s, es, t, false) && forall e | e in es :: LeavesAlone(e, k)
    ensures Gone(t, k, s.source[k])
  {
    if es != [] {
      var e := es[|es| - 1];
      var m :| Leads(s, es[..|es| - 1], m, false) && Enabled(m, e) && t == Apply(m, e);
      LostForGood(s, es[..|es| - 1], m, k);
      GoneStep(m, e, k, s.source[k]);
    }
  }

  /** And a resurrected row stays in the view until its key is written again or the table is rebuilt. */
  lemma {:induction false} ResurrectedForGood(s: State, es: seq<Event>, t: State, k: Key)
    requires Resurrected(s, k) && WellKeyed(s) && Leads(s, es, t, false) && forall e | e in es :: LeavesAlone(e, k)
    ensures Haunts(t, k)
  {
    if es != [] {
      var e := es[|es| - 1];
      var m :| Leads(s, es[..|es| - 1], m, false) && Enabled(m, e) && t == Apply(m, e);
      ResurrectedForGood(s, es[..|es| - 1], m, k);
      HauntsStep(m, e, k);
    }
  }

  /** Every promise is broken by some run from a two-row source that ends with a wrong view. */
  lemma PromisesAreNeeded()
    returns (failedRedump: State, busyDump: State, lateTombstone: State, overtaken: State, lostTombstone: State)
    ensures Reachable(failedRedump) && Lost(failedRedump, [1])
    ensures Reachable(busyDump) && Lost(busyDump, [1])
    ensures Reachable(lateTombstone) && Lost(lateTombstone, [1])
    ensures Reachable(overtaken) && Resurrected(overtaken, [2])
    ensures Reachable(lostTombstone) && Resurrected(lostTombstone, [2])
  {
    ReachableIsClosed();
    failedRedump := FailedRedumpLosesRow(t => Reachable(t));
    busyDump := BusyDumpLosesChange(t => Reachable(t));
    lateTombstone := LateTombstoneLosesRow(t => Reachable(t));
    overtaken := OvertakenTombstoneResurrectsRow(t => Reachable(t));
    lostTombstone := LostTombstoneResurrectsRow(t => Reachable(t));
  }
}
