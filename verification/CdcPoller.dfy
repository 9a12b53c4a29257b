/** The snapshot poller: each cycle compares row counts with the last committed ones, syncs, and counts what changed. */
module CdcPoller {
  import opened Wrappers

  datatype Snapshot = Snapshot(count: nat, token: Option<string>)

  datatype SyncResult = SyncResult(success: bool, records: nat)

  /**
   What a cycle meets outside: the tables listed on both sides, their snapshots, how a full and an incremental sync of
   each would end, whether everything could be read, and whether the checkpoint could be saved.
   */
  datatype Observation = Observation(
    readable: bool, tables: seq<string>, visible: set<string>, snapshot: string -> Snapshot,
    full: string -> bool, incremental: string -> SyncResult, saves: bool)

  /** `dropped` and `baseline` add up the rows that went with dropped tables, and those found before counting began. */
  datatype State = State(
    snapshots: map<string, Snapshot>, tracked: set<string>, inserts: nat, deletes: nat, updates: nat, events: nat,
    position: nat, dropped: nat, baseline: nat)

  /** A poller that has just been made. */
  predicate Starts(s: State)
  {
    s == State(map[], {}, 0, 0, 0, 0, 0, 0, 0)
  }

  function Elements(tables: seq<string>): set<string>
  {
    set t | t in tables
  }

  ghost predicate Distinct(tables: seq<string>)
  {
    forall i, j | 0 <= i < j < |tables| :: tables[i] != tables[j]
  }

  function Snapshots(o: Observation): map<string, Snapshot>
  {
    map t | t in o.tables :: o.snapshot(t)
  }

  predicate IsFirst(prev: map<string, Snapshot>)
  {
    prev == map[]
  }

  /** The sync a table gets in a cycle succeeds. */
  predicate Syncs(o: Observation, prev: map<string, Snapshot>, t: string)
  {
    if IsFirst(prev) then t in o.visible || o.full(t)
    else if t !in prev || prev[t].count > o.snapshot(t).count then o.full(t)
    else o.incremental(t).success
  }

  function Inserts(o: Observation, prev: map<string, Snapshot>, t: string): nat
  {
    var next := o.snapshot(t).count;
    if IsFirst(prev) then if t in o.visible then 0 else next
    else if t !in prev then next
    else if prev[t].count < next then next - prev[t].count else 0
  }

  function Deletes(o: Observation, prev: map<string, Snapshot>, t: string): nat
  {
    if t in prev && prev[t].count > o.snapshot(t).count then prev[t].count - o.snapshot(t).count else 0
  }

  predicate TokenMoved(before: Option<string>, after: Option<string>)
  {
    before.Some? && after.Some? && before != after
  }

  function Updates(o: Observation, prev: map<string, Snapshot>, t: string): nat
  {
    if t in prev && prev[t].count == o.snapshot(t).count && TokenMoved(prev[t].token, o.snapshot(t).token)
    then o.incremental(t).records else 0
  }

  datatype Counter = Inserted | Deleted | Updated

  function Counted(k: Counter, o: Observation, prev: map<string, Snapshot>, t: string): nat
  {
    match k
    case Inserted => Inserts(o, prev, t)
    case Deleted => Deletes(o, prev, t)
    case Updated => Updates(o, prev, t)
  }

  /** A counter's sum over the first `n` tables. */
  function Tally(k: Counter, o: Observation, prev: map<string, Snapshot>, n: nat): nat
    requires n <= |o.tables|
  {
    if n == 0 then 0 else Tally(k, o, prev, n - 1) + Counted(k, o, prev, o.tables[n - 1])
  }

  /** The cycle goes through to its commit. */
  predicate Commits(s: State, o: Observation)
  {
    o.readable && s.tracked <= o.visible && forall t | t in o.tables :: Syncs(o, s.snapshots, t)
  }

  /** The rows of `ts`. */
  ghost function Rows(ts: set<string>, m: map<string, Snapshot>): nat
    requires ts <= m.Keys
  {
    if ts == {} then 0
    else
      var t :| t in ts;
      m[t].count + Rows(ts - {t}, m)
  }

  ghost function Committed(s: State, o: Observation, inserts: nat, deletes: nat, updates: nat): State
  {
    var prev, next, ts := s.snapshots, Snapshots(o), Elements(o.tables);
    State(next, ts, s.inserts + inserts, s.deletes + deletes, s.updates + updates,
          s.events + inserts + deletes + updates, s.position + 1,
          s.dropped + Rows(prev.Keys - ts, prev),
          s.baseline + if IsFirst(prev) then Rows(ts * o.visible, next) else 0)
  }

  /** A cycle as a whole: everything is committed, or nothing is. */
  ghost function Cycle(s: State, o: Observation): State
  {
    var n := |o.tables|;
    if Commits(s, o)
    then
      Committed(s, o, Tally(Inserted, o, s.snapshots, n), Tally(Deleted, o, s.snapshots, n),
                Tally(Updated, o, s.snapshots, n))
    else s
  }

  ghost function Run(s: State, os: seq<Observation>): State
    decreases |os|
  {
    if os == [] then s else Run(Cycle(s, os[0]), os[1..])
  }

  // ------------------------------------------------------------------------ sums

  lemma {:induction false} RowsWithout(ts: set<string>, m: map<string, Snapshot>, x: string)
    requires ts <= m.Keys && x in ts
    ensures Rows(ts, m) == m[x].count + Rows(ts - {x}, m)
    decreases ts
  {
    var t :| t in ts && Rows(ts, m) == m[t].count + Rows(ts - {t}, m);
    if t != x {
      RowsWithout(ts - {t}, m, x);
      RowsWithout(ts - {x}, m, t);
      assert ts - {t} - {x} == ts - {x} - {t};
    }
  }

  lemma RowsWith(ts: set<string>, m: map<string, Snapshot>, x: string)
    requires ts <= m.Keys && x in m && x !in ts
    ensures Rows(ts + {x}, m) == Rows(ts, m) + m[x].count
  {
    RowsWithout(ts + {x}, m, x);
    assert ts + {x} - {x} == ts;
  }

  lemma {:induction false} RowsSplit(a: set<string>, b: set<string>, m: map<string, Snapshot>)
    requires a <= m.Keys && b <= m.Keys && a !! b
    ensures Rows(a + b, m) == Rows(a, m) + Rows(b, m)
    decreases b
  {
    if b == {} {
      assert a + b == a;
    } else {
      var x :| x in b;
      RowsSplit(a, b - {x}, m);
      RowsWith(a + (b - {x}), m, x);
      RowsWithout(b, m, x);
      assert a + (b - {x}) + {x} == a + b;
    }
  }

  lemma ElementsGrow(tables: seq<string>, n: nat)
    requires n < |tables| && Distinct(tables)
    ensures Elements(tables[..n + 1]) == Elements(tables[..n]) + {tables[n]} && tables[n] !in Elements(tables[..n])
  {
    assert tables[..n + 1] == tables[..n] + [tables[n]];
  }

  // ------------------------------------------------------- what a cycle's counts are

  lemma RowsOfCommon(ts: set<string>, m: map<string, Snapshot>, x: string)
    requires x !in ts
    ensures Rows((ts + {x}) * m.Keys, m) == Rows(ts * m.Keys, m) + if x in m then m[x].count else 0
  {
    if x in m {
      RowsWith(ts * m.Keys, m, x);
      assert (ts + {x}) * m.Keys == ts * m.Keys + {x};
    } else {
      assert (ts + {x}) * m.Keys == ts * m.Keys;
    }
  }

  lemma RowsOfVisible(ts: set<string>, visible: set<string>, m: map<string, Snapshot>, x: string)
    requires ts <= m.Keys && x in m && x !in ts
    ensures Rows((ts + {x}) * visible, m) == Rows(ts * visible, m) + if x in visible then m[x].count else 0
  {
    if x in visible {
      RowsWith(ts * visible, m, x);
      assert (ts + {x}) * visible == ts * visible + {x};
    } else {
      assert (ts + {x}) * visible == ts * visible;
    }
  }

  /** The tables a cycle has gone through after `n` of them. */
  ghost function Seen(o: Observation, n: nat): (ts: set<string>)
    requires n <= |o.tables|
    ensures ts <= Snapshots(o).Keys
  {
    Elements(o.tables[..n])
  }

  ghost function RowsNow(o: Observation, n: nat): nat
    requires n <= |o.tables|
  {
    Rows(Seen(o, n), Snapshots(o))
  }

  ghost function RowsBefore(o: Observation, prev: map<string, Snapshot>, n: nat): nat
    requires n <= |o.tables|
  {
    Rows(Seen(o, n) * prev.Keys, prev)
  }

  ghost function RowsVisible(o: Observation, n: nat): nat
    requires n <= |o.tables|
  {
    Rows(Seen(o, n) * o.visible, Snapshots(o))
  }

  lemma SeenGrows(o: Observation, prev: map<string, Snapshot>, n: nat)
    requires n < |o.tables| && Distinct(o.tables)
    ensures var t := o.tables[n];
      && RowsNow(o, n + 1) == RowsNow(o, n) + o.snapshot(t).count
      && RowsBefore(o, prev, n + 1) == RowsBefore(o, prev, n) + (if t in prev then prev[t].count else 0)
      && RowsVisible(o, n + 1) == RowsVisible(o, n) + (if t in o.visible then o.snapshot(t).count else 0)
  {
    var t, ts, next := o.tables[n], Seen(o, n), Snapshots(o);
    ElementsGrow(o.tables, n);
    RowsWith(ts, next, t);
    RowsOfCommon(ts, prev, t);
    RowsOfVisible(ts, o.visible, next, t);
  }

  /** A later cycle: what it counts is the rows now less the rows before, over the tables it was to compare. */
  lemma {:induction false} LaterBalance(o: Observation, prev: map<string, Snapshot>, n: nat)
    requires !IsFirst(prev) && Distinct(o.tables) && n <= |o.tables|
    ensures Tally(Inserted, o, prev, n) - Tally(Deleted, o, prev, n) == RowsNow(o, n) - RowsBefore(o, prev, n)
  {
    if n > 0 {
      LaterBalance(o, prev, n - 1);
      SeenGrows(o, prev, n - 1);
    }
  }

  /** The first cycle counts the rows of the tables that were not there yet. */
  lemma {:induction false} FirstBalance(o: Observation, prev: map<string, Snapshot>, n: nat)
    requires IsFirst(prev) && Distinct(o.tables) && n <= |o.tables|
    ensures Tally(Inserted, o, prev, n) == RowsNow(o, n) - RowsVisible(o, n)
  {
    if n > 0 {
      FirstBalance(o, prev, n - 1);
      SeenGrows(o, prev, n - 1);
    }
  }

  lemma {:induction false} FirstDeletesNothing(o: Observation, prev: map<string, Snapshot>, n: nat)
    requires IsFirst(prev) && n <= |o.tables|
    ensures Tally(Deleted, o, prev, n) == 0
  {
    if n > 0 {
      FirstDeletesNothing(o, prev, n - 1);
    }
  }

  // ------------------------------------------------------------------ main results

  /** The counters account for the rows of the last snapshots, and their sum for the events. */
  ghost predicate Conserved(s: State)
  {
    && s.inserts - s.deletes == Rows(s.snapshots.Keys, s.snapshots) + s.dropped - s.baseline
    && s.events == s.inserts + s.updates + s.deletes
  }

  lemma CycleConserves(s: State, o: Observation)
    requires Conserved(s) && Distinct(o.tables)
    ensures Conserved(Cycle(s, o))
  {
    if Commits(s, o) {
      var prev, next, ts, n := s.snapshots, Snapshots(o), Elements(o.tables), |o.tables|;
      assert o.tables[..n] == o.tables && next.Keys == ts;
      if IsFirst(prev) {
        FirstBalance(o, prev, n);
        FirstDeletesNothing(o, prev, n);
        assert prev.Keys - ts == {};
      } else {
        LaterBalance(o, prev, n);
        RowsSplit(ts * prev.Keys, prev.Keys - ts, prev);
        assert ts * prev.Keys + (prev.Keys - ts) == prev.Keys;
      }
    }
  }

  /** Whatever cycles fail or succeed in between, the counters never lose a row. */
  lemma {:induction false} ConservedAlways(s: State, os: seq<Observation>)
    requires Conserved(s) && forall o | o in os :: Distinct(o.tables)
    ensures Conserved(Run(s, os))
    decreases |os|
  {
    if os != [] {
      assert os[0] in os;
      CycleConserves(s, os[0]);
      ConservedAlways(Cycle(s, os[0]), os[1..]);
    }
  }

  lemma {:induction false} NoRowsIff(ts: set<string>, m: map<string, Snapshot>)
    requires ts <= m.Keys
    ensures Rows(ts, m) == 0 <==> forall t | t in ts :: m[t].count == 0
    decreases ts
  {
    if ts != {} {
      var t :| t in ts && Rows(ts, m) == m[t].count + Rows(ts - {t}, m);
      NoRowsIff(ts - {t}, m);
    }
  }

  /** No cycle that commits finds a table gone that had rows. */
  ghost predicate KeepsTables(s: State, os: seq<Observation>)
    decreases |os|
  {
    os == [] || (
      && (Commits(s, os[0]) ==> forall t | t in s.snapshots && t !in os[0].tables :: s.snapshots[t].count == 0)
      && KeepsTables(Cycle(s, os[0]), os[1..]))
  }

  lemma {:induction false} DroppedIff(s: State, os: seq<Observation>)
    ensures Run(s, os).dropped >= s.dropped
    ensures Run(s, os).dropped == s.dropped <==> KeepsTables(s, os)
    decreases |os|
  {
    if os != [] {
      DroppedIff(Cycle(s, os[0]), os[1..]);
      if Commits(s, os[0]) {
        NoRowsIff(s.snapshots.Keys - Elements(os[0].tables), s.snapshots);
      }
    }
  }

  lemma BalanceFrom(start: State, os: seq<Observation>)
    requires Conserved(start) && start.dropped == 0 && forall o | o in os :: Distinct(o.tables)
    ensures var s := Run(start, os);
      s.inserts - s.deletes == Rows(s.snapshots.Keys, s.snapshots) - s.baseline <==> KeepsTables(start, os)
  {
    ConservedAlways(start, os);
    DroppedIff(start, os);
    BalanceOf(Run(start, os));
  }

  /** Inserts less deletes are the rows now less the baseline exactly when no table with rows in it was dropped. */
  lemma BalanceIff(start: State, os: seq<Observation>)
    requires Starts(start) && forall o | o in os :: Distinct(o.tables)
    ensures var s := Run(start, os);
      s.inserts - s.deletes == Rows(s.snapshots.Keys, s.snapshots) - s.baseline <==> KeepsTables(start, os)
  {
    StartConserves(start);
    BalanceFrom(start, os);
  }

  lemma StartConserves(s: State)
    requires Starts(s)
    ensures Conserved(s) && s.dropped == 0
  {
  }

  lemma BalanceOf(s: State)
    requires Conserved(s)
    ensures s.inserts - s.deletes == Rows(s.snapshots.Keys, s.snapshots) - s.baseline <==> s.dropped == 0
  {
  }

  // --------------------------------------------- what is counted, on snapshots alone

  /** The table's rows are as many as before, and its token says nothing else. */
  predicate Unchanged(before: Snapshot, now: Snapshot)
  {
    before.count == now.count && (before.token == now.token || before.token.None? || now.token.None?)
  }

  /** As many rows as before, and another token. */
  predicate TokensDiffer(before: Snapshot, now: Snapshot)
  {
    before.count == now.count && before.token.Some? && now.token.Some? && before.token != now.token
  }

  /**
   What a later cycle counts of a table: all rows of a new one, what a grown one has more, what a shrunk one has fewer;
   of one with as many rows as before the records its sync read, if both tokens are known and differ.
   */
  lemma TableCounts(o: Observation, prev: map<string, Snapshot>, t: string)
    requires prev != map[]
    ensures var i, d, u, now := Inserts(o, prev, t), Deletes(o, prev, t), Updates(o, prev, t), o.snapshot(t);
      && (t !in prev ==> i == now.count && d == u == 0)
      && (t in prev ==> i - d == now.count - prev[t].count && (i == 0 || d == 0))
      && (t in prev && now.count != prev[t].count ==> u == 0)
      && (t in prev && Unchanged(prev[t], now) ==> i == d == u == 0)
      && (t in prev && TokensDiffer(prev[t], now) ==> u == o.incremental(t).records)
  {
  }

  /** The first cycle counts the rows of the tables it had to bring over, and nothing else. */
  lemma FirstCounts(o: Observation, t: string)
    ensures Inserts(o, map[], t) == if t in o.visible then 0 else o.snapshot(t).count
    ensures Deletes(o, map[], t) == Updates(o, map[], t) == 0
  {
  }

  /**
   A cycle fails as a whole when something cannot be read, a tracked table is not there, or a sync it needs fails: a
   full one of a table that is new or shrank, an incremental one otherwise, at first a full one of a table not there.
   */
  lemma SyncChosen(s: State, o: Observation, t: string)
    requires t in o.tables
    ensures !o.readable || (exists q | q in s.tracked :: q !in o.visible) ==> Cycle(s, o) == s
    ensures s.snapshots == map[] && t !in o.visible && !o.full(t) ==> Cycle(s, o) == s
    ensures s.snapshots != map[] && (t !in s.snapshots || s.snapshots[t].count > o.snapshot(t).count) && !o.full(t) ==>
              Cycle(s, o) == s
    ensures t in s.snapshots && s.snapshots[t].count <= o.snapshot(t).count && !o.incremental(t).success ==>
              Cycle(s, o) == s
  {
    assert !Syncs(o, s.snapshots, t) ==> !Commits(s, o);
  }

  /** A cycle commits when it can read everything and every sync it needs succeeds. */
  lemma CycleCommits(s: State, o: Observation)
    requires o.readable && s.tracked <= o.visible
    requires forall t | t in o.tables ::
               if s.snapshots == map[] then t in o.visible || o.full(t)
               else if t in s.snapshots && s.snapshots[t].count <= o.snapshot(t).count then o.incremental(t).success
               else o.full(t)
    ensures Cycle(s, o).position == s.position + 1 && Cycle(s, o).snapshots == map t | t in o.tables :: o.snapshot(t)
  {
  }

  lemma {:induction false} NothingTallied(k: Counter, o: Observation, prev: map<string, Snapshot>, n: nat)
    requires n <= |o.tables| && forall i | 0 <= i < n :: Counted(k, o, prev, o.tables[i]) == 0
    ensures Tally(k, o, prev, n) == 0
  {
    if n > 0 {
      NothingTallied(k, o, prev, n - 1);
    }
  }

  lemma {:induction false} OneTallied(k: Counter, o: Observation, prev: map<string, Snapshot>, n: nat, j: nat)
    requires j < n <= |o.tables| && forall i | 0 <= i < n && i != j :: Counted(k, o, prev, o.tables[i]) == 0
    ensures Tally(k, o, prev, n) == Counted(k, o, prev, o.tables[j])
  {
    if j == n - 1 {
      NothingTallied(k, o, prev, n - 1);
    } else {
      OneTallied(k, o, prev, n - 1, j);
    }
  }

  /** A later cycle in which every table keeps its rows and its token changes no counter. */
  lemma IdleCycle(s: State, o: Observation)
    requires s.snapshots != map[] && forall t | t in o.tables :: t in s.snapshots
    requires forall t | t in o.tables :: Unchanged(s.snapshots[t], o.snapshot(t))
    ensures var s' := Cycle(s, o);
      s'.inserts == s.inserts && s'.deletes == s.deletes && s'.updates == s.updates && s'.events == s.events
  {
    var prev, n := s.snapshots, |o.tables|;
    forall i | 0 <= i < n
      ensures Inserts(o, prev, o.tables[i]) == Deletes(o, prev, o.tables[i]) == Updates(o, prev, o.tables[i]) == 0
    {
      assert o.tables[i] in o.tables;
      TableCounts(o, prev, o.tables[i]);
    }
    NothingTallied(Inserted, o, prev, n);
    NothingTallied(Deleted, o, prev, n);
    NothingTallied(Updated, o, prev, n);
  }

  /** One in which a single table's token moved adds the records of its sync to the updates, and nothing else. */
  lemma UpdateCycle(s: State, o: Observation, j: nat)
    requires Commits(s, o) && s.snapshots != map[] && Distinct(o.tables) && j < |o.tables|
    requires forall t | t in o.tables :: t in s.snapshots
    requires forall t | t in o.tables && t != o.tables[j] :: Unchanged(s.snapshots[t], o.snapshot(t))
    requires TokensDiffer(s.snapshots[o.tables[j]], o.snapshot(o.tables[j]))
    ensures var s', records := Cycle(s, o), o.incremental(o.tables[j]).records;
      && s'.updates == s.updates + records && s'.events == s.events + records
      && s'.inserts == s.inserts && s'.deletes == s.deletes
  {
    var prev, n := s.snapshots, |o.tables|;
    forall i | 0 <= i < n
      ensures Inserts(o, prev, o.tables[i]) == Deletes(o, prev, o.tables[i]) == 0
      ensures i != j ==> Updates(o, prev, o.tables[i]) == 0
    {
      assert o.tables[i] in o.tables;
      TableCounts(o, prev, o.tables[i]);
    }
    TableCounts(o, prev, o.tables[j]);
    NothingTallied(Inserted, o, prev, n);
    NothingTallied(Deleted, o, prev, n);
    OneTallied(Updated, o, prev, n, j);
  }

  class Poller {
    var isRunning: bool
    var cycleInProgress: bool
    var tableSnapshots: map<string, Snapshot>
    var trackedTables: set<string>
    var insertsProcessed: nat
    var deletesProcessed: nat
    var updatesProcessed: nat
    var eventsProcessed: nat
    var errors: nat
    var position: nat
    ghost var dropped: nat
    ghost var baseline: nat

    ghost function Abs(): State
      reads this
    {
      State(tableSnapshots, trackedTables, insertsProcessed, deletesProcessed, updatesProcessed, eventsProcessed,
            position, dropped, baseline)
    }

    constructor ()
      ensures Starts(Abs()) && !isRunning && !cycleInProgress && errors == 0
    {
      isRunning, cycleInProgress, tableSnapshots, trackedTables := false, false, map[], {};
      insertsProcessed, deletesProcessed, updatesProcessed, eventsProcessed := 0, 0, 0, 0;
      errors, position, dropped, baseline := 0, 0, 0, 0;
    }

    /** What one table needs: a full sync, an incremental one or none, and what it adds to the counters. */
    static method SyncTable(o: Observation, previous: map<string, Snapshot>, t: string)
      returns (ok: bool, inserts: nat, deletes: nat, updates: nat)
      ensures ok == Syncs(o, previous, t)
      ensures ok ==> inserts == Inserts(o, previous, t) && deletes == Deletes(o, previous, t)
      ensures ok ==> updates == Updates(o, previous, t)
    {
      ok, inserts, deletes, updates := true, 0, 0, 0;
      var next := o.snapshot(t);
      if previous == map[] {
        if t !in o.visible {
          ok := o.full(t);
          inserts := next.count;
        }
        return;
      }
      if t !in previous {
        ok := o.full(t);
        inserts := next.count;
        return;
      }
      if previous[t].count > next.count {
        ok := o.full(t);
        deletes := previous[t].count - next.count;
        return;
      }
      var result := o.incremental(t);
      ok := result.success;
      var delta := next.count - previous[t].count;
      if delta > 0 {
        inserts := delta;
      } else if previous[t].token.Some? && next.token.Some? && previous[t].token != next.token && result.records > 0 {
        updates := result.records;
      }
    }

    /** The tables one after the other, until one fails. */
    static method SyncTables(o: Observation, previous: map<string, Snapshot>)
      returns (ok: bool, inserts: nat, deletes: nat, updates: nat)
      ensures ok == forall t | t in o.tables :: Syncs(o, previous, t)
      ensures ok ==> var n := |o.tables|;
        inserts == Tally(Inserted, o, previous, n) && deletes == Tally(Deleted, o, previous, n) &&
        updates == Tally(Updated, o, previous, n)
    {
      ok, inserts, deletes, updates := true, 0, 0, 0;
      for n := 0 to |o.tables|
        invariant ok && forall i | 0 <= i < n :: Syncs(o, previous, o.tables[i])
        invariant inserts == Tally(Inserted, o, previous, n)
        invariant deletes == Tally(Deleted, o, previous, n)
        invariant updates == Tally(Updated, o, previous, n)
      {
        var synced, ins, del, upd := SyncTable(o, previous, o.tables[n]);
        if !synced {
          assert !Syncs(o, previous, o.tables[n]);
          return false, 0, 0, 0;
        }
        inserts, deletes, updates := inserts + ins, deletes + del, updates + upd;
      }
    }

    method Commit(o: Observation, inserts: nat, deletes: nat, updates: nat)
      modifies this`tableSnapshots, this`trackedTables, this`insertsProcessed, this`deletesProcessed,
               this`updatesProcessed, this`eventsProcessed, this`position, this`dropped, this`baseline
      ensures Abs() == Committed(old(Abs()), o, inserts, deletes, updates)
    {
      dropped := dropped + Rows(tableSnapshots.Keys - Elements(o.tables), tableSnapshots);
      baseline := baseline + if IsFirst(tableSnapshots) then Rows(Elements(o.tables) * o.visible, Snapshots(o)) else 0;
      insertsProcessed := insertsProcessed + inserts;
      deletesProcessed := deletesProcessed + deletes;
      updatesProcessed := updatesProcessed + updates;
      eventsProcessed := eventsProcessed + inserts + deletes + updates;
      tableSnapshots := Snapshots(o);
      trackedTables := Elements(o.tables);
      position := position + 1;
    }

    /** A cycle commits as a whole or not at all; an error is counted unless it commits and its checkpoint is saved. */
    method RunCycle(o: Observation)
      modifies this
      ensures !old(isRunning) || old(cycleInProgress) ==>
                Abs() == old(Abs()) && errors == old(errors) && cycleInProgress == old(cycleInProgress)
      ensures old(isRunning) && !old(cycleInProgress) ==>
                Abs() == Cycle(old(Abs()), o) && !cycleInProgress &&
                errors == old(errors) + if Commits(old(Abs()), o) && o.saves then 0 else 1
      ensures isRunning == old(isRunning)
    {
      if !isRunning || cycleInProgress {
        return;
      }
      cycleInProgress := true;
      var ok := o.readable && trackedTables <= o.visible;
      if ok {
        var inserts, deletes, updates;
        ok, inserts, deletes, updates := SyncTables(o, tableSnapshots);
        if ok {
          Commit(o, inserts, deletes, updates);
        }
      }
      if !ok || !o.saves {
        errors := errors + 1;
      }
      cycleInProgress := false;
    }
  }
}
