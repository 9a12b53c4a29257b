/**
 The table sync, as its methods run it, takes steps of the replication state machine, and timely ones: what a full or an
 incremental sync leaves behind, while writers and the tailer go on from its start to its end, is what a run of
 `Replication` leads to that its safety theorems speak of.
 */
module SyncRefinement {
  import opened Wrappers
  import opened Keyset
  import opened MysqlStream
  import opened ProjectionView
  import opened Replication
  import opened SyncService

  // ------------------------------------------------------ what goes on meanwhile

  /**
   What others change: the table, their clock, the deletes in the binlog and the tombstones written. `now` is the newest
   stamp given so far, by them or by the sync.
   */
  datatype World = World(source: map<Key, Row>, clock: int, pending: seq<Key>, now: Stamp, tombstones: Log)

  /** A step of the others; a tombstone is lost only when its key is back or deleted again. */
  predicate MayStep(w: World, e: Event)
  {
    match e
    case Write(row) => row.ts > w.clock
    case Delete(k) => k in w.source
    case WriteTombstone(i, stamp) => i < |w.pending| && Newer(stamp, w.now)
    case LoseTombstone(i) =>
      i < |w.pending| && (w.pending[i] in w.source || w.pending[i] in Removed(w.pending, i))
    case _ => false
  }

  function StepWorld(w: World, e: Event): World
    requires e.WriteTombstone? || e.LoseTombstone? ==> e.i < |w.pending|
  {
    match e
    case Write(row) => w.(source := w.source[row.key := row], clock := row.ts)
    case Delete(k) => w.(source := w.source - {k}, pending := w.pending + [k])
    case WriteTombstone(i, stamp) =>
      w.(pending := Removed(w.pending, i), now := stamp, tombstones := w.tombstones + [Tombstone(w.pending[i], stamp)])
    case LoseTombstone(i) => w.(pending := Removed(w.pending, i))
    case _ => w
  }

  ghost predicate Passes(w: World, es: seq<Event>, w': World)
  {
    if es == [] then w == w'
    else
      var e := es[|es| - 1];
      exists m :: Passes(w, es[..|es| - 1], m) && MayStep(m, e) && w' == StepWorld(m, e)
  }

  /**
   The others during one sync: from `first` by `before` they lead to the first SELECT; `worlds(i)` is what SELECT `i`
   sees; by `during(i)` they lead to `mids(i)`, when the page is appended with the stamp `stamps(i)`; and by
   `between(i)` from there to the next SELECT or, after the last page, to the end of the sync.
   */
  datatype History = History(first: World, before: seq<Event>, worlds: nat -> World, during: nat -> seq<Event>,
                             mids: nat -> World, between: nat -> seq<Event>, stamps: nat -> Stamp)

  ghost predicate Shows(h: History, seen: nat -> set<Row>)
  {
    forall i: nat {:trigger seen(i)} :: seen(i) == h.worlds(i).source.Values
  }

  ghost predicate Begins(h: History)
  {
    Passes(h.first, h.before, h.worlds(0))
  }

  /**
   Page `i` is appended with a stamp newer than all before it, when each of its rows is still in the table or has a
   tombstone on its way.
   */
  ghost predicate PageGoes(h: History, i: nat, page: seq<Row>)
  {
    && Passes(h.worlds(i), h.during(i), h.mids(i))
    && Newer(h.stamps(i), h.mids(i).now)
    && (forall r | r in page :: r.key in h.mids(i).source || r.key in h.mids(i).pending)
    && Passes(Appended(h, i), h.between(i), h.worlds(i + 1))
  }

  function Appended(h: History, i: nat): World
  {
    h.mids(i).(now := h.stamps(i))
  }

  /** The tombstones written from `w` to `w'`. */
  function NewTombstones(w: World, w': World): Log
  {
    if |w.tombstones| <= |w'.tombstones| then w'.tombstones[|w.tombstones|..] else []
  }

  /** The log after page `i`, with the tombstones of the others where they came. */
  function LogAfter(h: History, i: nat, page: seq<Row>, log: Log): Log
  {
    AppendRows(log + NewTombstones(h.worlds(i), h.mids(i)), page, h.stamps(i))
      + NewTombstones(Appended(h, i), h.worlds(i + 1))
  }

  /** No SELECT comes to a row older than `low` of which an earlier version's tombstone is on its way. */
  ghost predicate Prompt(h: History, low: int)
  {
    forall i: nat, k {:trigger h.worlds(i).source[k]} |
      k in h.worlds(i).source && k in h.worlds(i).pending :: h.worlds(i).source[k].ts >= low
  }

  // ---------------------------------------------------------------------- runs

  lemma LeadsSnoc(s: State, es: seq<Event>, m: State, e: Event)
    requires Leads(s, es, m, true) && Enabled(m, e) && Timely(m, e)
    ensures Leads(s, es + [e], Apply(m, e), true)
  {
    var all := es + [e];
    assert all[..|all| - 1] == es && all[|all| - 1] == e;
  }

  lemma LeadsLast(s: State, es: seq<Event>, m: State)
    requires es != [] && Leads(s, es[..|es| - 1], m, true) && Enabled(m, es[|es| - 1]) && Timely(m, es[|es| - 1])
    ensures Leads(s, es, Apply(m, es[|es| - 1]), true)
  {
  }

  lemma LastStep(s: State, es: seq<Event>, t: State) returns (m: State)
    requires es != [] && Leads(s, es, t, true)
    ensures var e := es[|es| - 1];
      Leads(s, es[..|es| - 1], m, true) && Enabled(m, e) && Timely(m, e) && t == Apply(m, e)
  {
    var e := es[|es| - 1];
    m :| Leads(s, es[..|es| - 1], m, true) && Enabled(m, e) && Timely(m, e) && t == Apply(m, e);
  }

  lemma {:induction false} LeadsConcat(s: State, es: seq<Event>, m: State, fs: seq<Event>, t: State)
    requires Leads(s, es, m, true) && Leads(m, fs, t, true)
    ensures Leads(s, es + fs, t, true)
    decreases |fs|
  {
    if fs == [] {
      assert es + fs == es;
    } else {
      var n := LastStep(m, fs, t);
      var front := fs[..|fs| - 1];
      LeadsConcat(s, es, m, front, n);
      assert (es + fs)[..|es + fs| - 1] == es + front && (es + fs)[|es + fs| - 1] == fs[|fs| - 1];
      LeadsLast(s, es + fs, n);
    }
  }

  /** The state and the others agree, and no entry of the log is newer than `now`. */
  ghost predicate At(s: State, w: World)
  {
    && s.source == w.source && s.clock == w.clock && s.pending == w.pending
    && forall e | e in s.log :: !Newer(e.stamp, w.now)
  }

  /** The sync has missed no row older than `low`, and will miss none by a write. */
  ghost predicate Ripe(s: State, low: int)
  {
    !s.phase.Idle? ==>
      && (forall k | k in s.phase.missed :: s.phase.missed[k].ts >= low)
      && (s.phase.Dumping? || s.phase.short ==> low <= s.clock)
  }

  lemma OutsideStep(s: State, w: World, e: Event, low: int)
    requires Inv(s) && At(s, w) && MayStep(w, e)
    ensures Enabled(s, e) && Timely(s, e)
    ensures var t := Apply(s, e);
      && Inv(t) && At(t, StepWorld(w, e)) && SamePlace(s.phase, t.phase) && t.watermark == s.watermark
      && t.log == s.log + NewTombstones(w, StepWorld(w, e)) && (Ripe(s, low) ==> Ripe(t, low))
  {
    if e.WriteTombstone? {
      forall j | 0 <= j < |s.log| ensures Newer(e.stamp, s.log[j].stamp) {
        assert s.log[j] in s.log;
      }
      assert NewTombstones(w, StepWorld(w, e)) == [Tombstone(w.pending[e.i], e.stamp)];
    } else {
      assert NewTombstones(w, StepWorld(w, e)) == [] && s.log + [] == s.log;
    }
    StepKeepsInvIff(s, e);
    OutsideRipe(s, e, low);
  }

  lemma OutsideRipe(s: State, e: Event, low: int)
    requires Inv(s) && Enabled(s, e) && (e.Write? || e.Delete? || e.WriteTombstone? || e.LoseTombstone?)
    ensures Ripe(s, low) ==> Ripe(Apply(s, e), low)
  {
  }

  lemma SinceGrows(w: World, m: World, e: Event, log: Log)
    requires w.tombstones <= m.tombstones && (e.WriteTombstone? || e.LoseTombstone? ==> e.i < |m.pending|)
    ensures w.tombstones <= StepWorld(m, e).tombstones
    ensures log + NewTombstones(w, StepWorld(m, e)) == log + NewTombstones(w, m) + NewTombstones(m, StepWorld(m, e))
  {
    assert NewTombstones(w, StepWorld(m, e)) == NewTombstones(w, m) + NewTombstones(m, StepWorld(m, e));
  }

  lemma LastPass(w: World, es: seq<Event>, w': World) returns (m: World)
    requires es != [] && Passes(w, es, w')
    ensures Passes(w, es[..|es| - 1], m) && MayStep(m, es[|es| - 1]) && w' == StepWorld(m, es[|es| - 1])
  {
    m :| Passes(w, es[..|es| - 1], m) && MayStep(m, es[|es| - 1]) && w' == StepWorld(m, es[|es| - 1]);
  }

  /** What a part of a sync leaves as it is, or never makes worse. */
  ghost predicate Keeps(s: State, es: seq<Event>, t: State, w: World)
  {
    Inv(t) && Leads(s, es, t, true) && At(t, w) && t.watermark == s.watermark
  }

  /** What the others do is a timely run that leaves the sync in its place. */
  lemma {:induction false} PassesLead(s: State, w: World, es: seq<Event>, w': World, low: int) returns (t: State)
    requires Inv(s) && At(s, w) && Passes(w, es, w')
    ensures Keeps(s, es, t, w') && SamePlace(s.phase, t.phase) && (Ripe(s, low) ==> Ripe(t, low))
    ensures w.tombstones <= w'.tombstones && t.log == s.log + NewTombstones(w, w')
    decreases |es|
  {
    if es == [] {
      t := s;
      assert s.log + [] == s.log;
    } else {
      var e := es[|es| - 1];
      var m := LastPass(w, es, w');
      var n := PassesLead(s, w, es[..|es| - 1], m, low);
      OutsideStep(n, m, e, low);
      LeadsLast(s, es, n);
      t := Apply(n, e);
      SinceGrows(w, m, e, s.log);
    }
  }

  // --------------------------------------------------------------- one page

  /** A sync between two pages, having read `rows` since it was at `p`. */
  function Reached(p: Phase, rows: seq<Row>, short: bool): Phase
    requires !p.Idle?
  {
    match p
    case Dumping(last, _, _, _, missed) => Dumping(LastRow(last, rows), false, [], short, missed)
    case Streaming(c, _, _, _, missed) => Streaming(Advance(c, rows), false, [], short, missed)
  }

  predicate BetweenPages(p: Phase)
  {
    !p.Idle? && !p.fetched && !p.short && p.page == []
  }

  lemma {:induction false} AppendedStamps(log: Log, page: seq<Row>, stamp: Stamp, e: Entry)
    requires e in AppendRows(log, page, stamp)
    ensures e in log || e.stamp == stamp
  {
    if page != [] && e != Live(page[|page| - 1], stamp) {
      AppendedStamps(log, page[..|page| - 1], stamp, e);
    }
  }

  lemma AppendStep(s: State, w: World, stamp: Stamp)
    requires Inv(s) && At(s, w) && !s.phase.Idle? && s.phase.fetched && Newer(stamp, w.now)
    requires forall r | r in s.phase.page :: r.key in w.source || r.key in w.pending
    ensures Enabled(s, AppendPage(stamp)) && Timely(s, AppendPage(stamp))
    ensures var t := Apply(s, AppendPage(stamp));
      && Inv(t) && At(t, w.(now := stamp)) && t.watermark == s.watermark
      && t.log == AppendRows(s.log, s.phase.page, stamp)
      && SamePlace(Reached(s.phase, s.phase.page, s.phase.short), t.phase)
  {
    forall r | r in s.phase.page ensures NewestOfKey(s.log, Live(r, stamp)) {
      forall j | 0 <= j < |s.log| ensures Newer(stamp, s.log[j].stamp) {
        assert s.log[j] in s.log;
      }
    }
    forall e | e in AppendRows(s.log, s.phase.page, stamp) ensures !Newer(e.stamp, stamp) {
      AppendedStamps(s.log, s.phase.page, stamp, e);
    }
    StepKeepsInvIff(s, AppendPage(stamp));
  }

  /** A page that is read promptly adds no old row to those missed. */
  lemma ReadRipe(s: State, h: History, i: nat, page: seq<Row>, limit: nat, low: int)
    requires Inv(s) && At(s, h.worlds(i)) && Enabled(s, ReadPage(page, limit)) && Prompt(h, low)
    requires Ripe(s, low) && (|page| != limit ==> low <= s.clock)
    ensures Ripe(Apply(s, ReadPage(page, limit)), low)
  {
    var m := Apply(s, ReadPage(page, limit)).phase.missed;
    forall k | k in m ensures m[k].ts >= low {
      assert k in s.phase.missed || h.worlds(i).source[k].ts >= low;
    }
  }

  function RoundEvents(h: History, i: nat, page: seq<Row>, limit: nat): seq<Event>
  {
    [ReadPage(page, limit)] + h.during(i) + [AppendPage(h.stamps(i))] + h.between(i)
  }

  /** One page: read, the others, appended, and the others again. */
  lemma PageRound(s: State, h: History, i: nat, page: seq<Row>, limit: nat, low: int) returns (t: State)
    requires Inv(s) && At(s, h.worlds(i)) && BetweenPages(s.phase) && PageGoes(h, i, page)
    requires Enabled(s, ReadPage(page, limit))
    ensures Keeps(s, RoundEvents(h, i, page, limit), t, h.worlds(i + 1)) && t.log == LogAfter(h, i, page, s.log)
    ensures SamePlace(Reached(s.phase, page, |page| != limit), t.phase)
    ensures Prompt(h, low) && Ripe(s, low) && (|page| != limit ==> low <= s.clock) ==> Ripe(t, low)
  {
    var m := Apply(s, ReadPage(page, limit));
    assert Leads(s, [], s, true);
    LeadsSnoc(s, [], s, ReadPage(page, limit));
    assert [] + [ReadPage(page, limit)] == [ReadPage(page, limit)];
    StepKeepsInvIff(s, ReadPage(page, limit));
    var n := PassesLead(m, h.worlds(i), h.during(i), h.mids(i), low);
    LeadsConcat(s, [ReadPage(page, limit)], m, h.during(i), n);
    AppendStep(n, h.mids(i), h.stamps(i));
    LeadsSnoc(s, [ReadPage(page, limit)] + h.during(i), n, AppendPage(h.stamps(i)));
    var a := Apply(n, AppendPage(h.stamps(i)));
    t := PassesLead(a, Appended(h, i), h.between(i), h.worlds(i + 1), low);
    LeadsConcat(s, [ReadPage(page, limit)] + h.during(i) + [AppendPage(h.stamps(i))], a, h.between(i), t);
    if Prompt(h, low) && Ripe(s, low) && (|page| != limit ==> low <= s.clock) {
      ReadRipe(s, h, i, page, limit, low);
      assert Ripe(n, low) && Ripe(a, low);
    }
  }

  // ----------------------------------------------------------------- full sync

  /** The others go on at every page of the dump. */
  ghost predicate DumpGoes(h: History, query: DumpQuery, i: nat, budget: nat, batchSize: nat, last: Option<Key>)
    requires i <= budget
    decreases budget - i
  {
    i < budget ==>
      var page := query(i, last, batchSize);
      && PageGoes(h, i, page)
      && (|page| == batchSize ==> DumpGoes(h, query, i + 1, budget, batchSize, CursorAfter(last, page)))
  }

  /** The log after the dump: the pages in order, and the tombstones of the others where they came. */
  function DumpLog(h: History, query: DumpQuery, i: nat, budget: nat, batchSize: nat, last: Option<Key>, log: Log): Log
    requires i <= budget
    decreases budget - i
  {
    if i == budget then log
    else
      var page := query(i, last, batchSize);
      if |page| != batchSize then LogAfter(h, i, page, log)
      else DumpLog(h, query, i + 1, budget, batchSize, CursorAfter(last, page), LogAfter(h, i, page, log))
  }

  lemma ReachedTwice(p: Phase, page: seq<Row>, rest: seq<Row>, short: bool, m: Phase, t: Phase)
    requires !p.Idle? && SamePlace(Reached(p, page, false), m) && SamePlace(Reached(m, rest, short), t)
    ensures SamePlace(Reached(p, page + rest, short), t)
  {
  }

  /** The last row of the dump is no newer than its start, and no SELECT came to an older row with a late tombstone. */
  ghost predicate PromptDump(h: History, last: Option<int>, clock: int)
  {
    last.Some? ==> last.value <= clock && Prompt(h, last.value)
  }

  lemma {:induction false} DumpIsRun(s: State, h: History, seen: nat -> set<Row>, query: DumpQuery, i: nat, budget: nat,
                                     batchSize: nat, low: int) returns (es: seq<Event>, t: State)
    requires i <= budget && batchSize > 0 && Shows(h, seen) && ServesDump(query, seen)
    requires Inv(s) && At(s, h.worlds(i)) && BetweenPages(s.phase) && s.phase.Dumping?
    requires DumpGoes(h, query, i, budget, batchSize, KeyOf(s.phase.last))
    ensures var d := Dump(query, i, budget, batchSize, KeyOf(s.phase.last));
      && Inv(t) && Leads(s, es, t, true) && t.watermark == s.watermark
      && SamePlace(Reached(s.phase, d.rows, d.complete), t.phase)
      && t.log == DumpLog(h, query, i, budget, batchSize, KeyOf(s.phase.last), s.log)
    ensures Prompt(h, low) && Ripe(s, low) ==> Ripe(t, low)
    decreases budget - i
  {
    es, t := [], s;
    if i < budget {
      var last := KeyOf(s.phase.last);
      var page := query(i, last, batchSize);
      assert seen(i) == s.source.Values;
      var m := PageRound(s, h, i, page, batchSize, low);
      if |page| != batchSize {
        es, t := RoundEvents(h, i, page, batchSize), m;
      } else {
        var fs;
        fs, t := DumpIsRun(m, h, seen, query, i + 1, budget, batchSize, low);
        var d := Dump(query, i + 1, budget, batchSize, CursorAfter(last, page));
        LeadsConcat(s, RoundEvents(h, i, page, |page|), m, fs, t);
        es := RoundEvents(h, i, page, |page|) + fs;
        ReachedTwice(s.phase, page, d.rows, d.complete, m.phase, t.phase);
      }
    }
  }

  /** A sync from its start to its first SELECT. */
  lemma Beginning(s: State, h: History, e: Event, low: int) returns (t: State)
    requires Inv(s) && s.phase.Idle? && At(s, h.first) && Begins(h) && Enabled(s, e) && (e.StartDump? || e.StartStream?)
    ensures Keeps(s, [e] + h.before, t, h.worlds(0)) && SamePlace(Apply(s, e).phase, t.phase)
    ensures t.log == Apply(s, e).log + NewTombstones(h.first, h.worlds(0))
    ensures (e.StartDump? ==> low <= s.clock) ==> Ripe(t, low)
  {
    assert Leads(s, [], s, true);
    LeadsSnoc(s, [], s, e);
    assert [] + [e] == [e];
    StepKeepsInvIff(s, e);
    t := PassesLead(Apply(s, e), h.first, h.before, h.worlds(0), low);
    LeadsConcat(s, [e], Apply(s, e), h.before, t);
  }

  /** `es` is a timely run from `s` to `m`; there `end` ends the sync, keeping the invariant exactly if it is timely. */
  ghost predicate RunsToEnd(s: State, es: seq<Event>, m: State, end: Event, t: State)
  {
    && Leads(s, es, m, true) && Inv(m) && Enabled(m, end) && t == Apply(m, end)
    && (Inv(t) <==> Timely(m, end)) && (Timely(m, end) ==> Leads(s, es + [end], t, true))
  }

  lemma LastStepIff(s: State, es: seq<Event>, m: State, end: Event) returns (t: State)
    requires Leads(s, es, m, true) && Inv(m) && !m.phase.Idle? && !m.phase.fetched
    requires end == if m.phase.short then Finish else Abort
    ensures RunsToEnd(s, es, m, end, t) && t.phase == Idle && t.log == m.log
    ensures t.watermark == if m.phase.short then NewWatermark(m.phase) else m.watermark
  {
    t := Apply(m, end);
    StepKeepsInvIff(m, end);
    if Timely(m, end) {
      LeadsSnoc(s, es, m, end);
    }
  }

  /** A dump without rows, or with a last row no newer than its start and without late tombstones, may finish. */
  lemma DumpMayFinish(s: State, h: History, m: State, last: Option<int>, low: int)
    requires m.phase.Dumping? && NewWatermark(m.phase) == last && (last.Some? ==> low == last.value)
    requires Prompt(h, low) && low <= s.clock ==> Ripe(m, low)
    ensures PromptDump(h, last, s.clock) ==> Timely(m, Finish)
  {
  }

  /** A full sync up to its last step. */
  lemma DumpToEnd(s: State, h: History, seen: nat -> set<Row>, src: Source, batchSize: nat, low: int)
    returns (es: seq<Event>, m: State)
    requires Inv(s) && s.phase.Idle? && At(s, h.first) && Begins(h) && batchSize > 0
    requires Shows(h, seen) && ServesDump(src.dump, seen) && DumpGoes(h, src.dump, 0, src.budget, batchSize, None)
    ensures var d := Dump(src.dump, 0, src.budget, batchSize, None);
      && Inv(m) && Leads(s, es, m, true) && m.watermark == s.watermark
      && m.phase.Dumping? && m.phase == Dumping(LastRow(None, d.rows), false, [], d.complete, m.phase.missed)
      && m.log == DumpLog(h, src.dump, 0, src.budget, batchSize, None, NewTombstones(h.first, h.worlds(0)))
    ensures Prompt(h, low) && low <= s.clock ==> Ripe(m, low)
  {
    var begun := Beginning(s, h, StartDump, low);
    assert [] + NewTombstones(h.first, h.worlds(0)) == NewTombstones(h.first, h.worlds(0));
    var fs;
    fs, m := DumpIsRun(begun, h, seen, src.dump, 0, src.budget, batchSize, low);
    LeadsConcat(s, [StartDump] + h.before, begun, fs, m);
    es := [StartDump] + h.before + fs;
  }

  /**
   A full sync from any state of the invariant at rest, with writers and the tailer going on, is a timely run up to its
   end; finished when its dump ended by itself, aborted when it was cut short, it keeps the invariant exactly when that
   end is timely, and certainly when it finishes, its last row is no newer than its start, and no SELECT came to a row
   older than that one with a tombstone on its way.
   */
  lemma FullSyncIsRun(s: State, h: History, seen: nat -> set<Row>, src: Source, batchSize: nat)
    returns (es: seq<Event>, m: State, t: State)
    requires Inv(s) && s.phase.Idle? && At(s, h.first) && Begins(h) && batchSize > 0
    requires Shows(h, seen) && ServesDump(src.dump, seen) && DumpGoes(h, src.dump, 0, src.budget, batchSize, None)
    ensures var d := Dump(src.dump, 0, src.budget, batchSize, None);
      var end := if d.complete then Finish else Abort;
      && RunsToEnd(s, es, m, end, t) && t.phase == Idle
      && t.log == DumpLog(h, src.dump, 0, src.budget, batchSize, None, NewTombstones(h.first, h.worlds(0)))
      && t.watermark == (if d.complete then LastTimestamp(d.rows) else s.watermark)
      && (d.complete && PromptDump(h, LastTimestamp(d.rows), s.clock) ==> Timely(m, end))
  {
    var d := Dump(src.dump, 0, src.budget, batchSize, None);
    var last := LastTimestamp(d.rows);
    var low := if last.Some? then last.value else 0;
    es, m := DumpToEnd(s, h, seen, src, batchSize, low);
    t := LastStepIff(s, es, m, if d.complete then Finish else Abort);
    if d.complete {
      DumpMayFinish(s, h, m, last, low);
    }
  }

  /** Nobody writes tombstones. */
  ghost predicate Tombless(h: History)
  {
    forall i: nat {:trigger h.worlds(i)} {:trigger h.mids(i)} ::
      h.worlds(i).tombstones == h.mids(i).tombstones == h.first.tombstones
  }

  lemma TomblessLog(h: History, i: nat, page: seq<Row>, log: Log)
    requires Tombless(h)
    ensures LogAfter(h, i, page, log) == AppendRows(log, page, h.stamps(i))
  {
    assert NewTombstones(h.worlds(i), h.mids(i)) == [] && log + [] == log;
    var log' := AppendRows(log, page, h.stamps(i));
    assert NewTombstones(Appended(h, i), h.worlds(i + 1)) == [] && log' + [] == log';
  }

  /** Without tombstones that log is the one the method leaves. */
  lemma {:induction false} DumpLogIsAppended(h: History, query: DumpQuery, i: nat, budget: nat, batchSize: nat,
                                             last: Option<Key>, log: Log)
    requires i <= budget && batchSize > 0 && Tombless(h)
    ensures DumpLog(h, query, i, budget, batchSize, last, log)
         == AppendBatches(log, DumpBatches(query, i, budget, batchSize, last), h.stamps, i)
    decreases budget - i
  {
    if i < budget {
      var page := query(i, last, batchSize);
      TomblessLog(h, i, page, log);
      if |page| == batchSize {
        var log' := AppendRows(log, page, h.stamps(i));
        DumpLogIsAppended(h, query, i + 1, budget, batchSize, CursorAfter(last, page), log');
        BatchFirst(log, page, DumpBatches(query, i + 1, budget, batchSize, CursorAfter(last, page)), h.stamps, i);
      } else {
        BatchFirst(log, page, [], h.stamps, i);
      }
    }
  }

  lemma BatchFirst(log: Log, page: seq<Row>, rest: seq<seq<Row>>, stamps: nat -> Stamp, i: nat)
    requires page != [] || rest == []
    ensures AppendBatches(log, Batch(page) + rest, stamps, i)
         == AppendBatches(AppendRows(log, page, stamps(i)), rest, stamps, i + 1)
  {
    if page != [] {
      assert (Batch(page) + rest)[1..] == rest;
    }
  }

  // ---------------------------------------------------------- incremental sync

  /** The others go on at every page of the stream. */
  ghost predicate StreamGoes(h: History, query: IncrementalQuery, answers: nat -> Answer, i: nat, budget: nat,
                             limit: nat, c: Cursor)
    requires i <= budget
    decreases budget - i
  {
    i < budget ==>
      var reply := ExecuteWithSortMemoryRetry(query, i, c, limit, answers(i));
      reply.Rows? ==>
        && PageGoes(h, i, reply.rows)
        && (|reply.rows| == NextLimit(limit, reply) ==>
              StreamGoes(h, query, answers, i + 1, budget, NextLimit(limit, reply), Advance(c, reply.rows)))
  }

  function StreamLog(h: History, query: IncrementalQuery, answers: nat -> Answer, i: nat, budget: nat, limit: nat,
                     c: Cursor, log: Log): Log
    requires i <= budget
    decreases budget - i
  {
    if i == budget then log
    else
      match ExecuteWithSortMemoryRetry(query, i, c, limit, answers(i))
      case Raised => log
      case Rows(page, _) =>
        var limit' := NextLimit(limit, ExecuteWithSortMemoryRetry(query, i, c, limit, answers(i)));
        if |page| != limit' then LogAfter(h, i, page, log)
        else StreamLog(h, query, answers, i + 1, budget, limit', Advance(c, page), LogAfter(h, i, page, log))
  }

  /** What a stream would save as watermark is not ahead of the clock. */
  predicate Saves(p: Phase, low: int)
  {
    p.Streaming? && p.cursor.AfterRow? && p.cursor.row.ts == low
  }

  lemma {:induction false} StreamIsRun(s: State, h: History, seen: nat -> set<Row>, query: IncrementalQuery,
                                       answers: nat -> Answer, i: nat, budget: nat, limit: nat, low: int)
    returns (es: seq<Event>, t: State)
    requires i <= budget && limit > 0 && Shows(h, seen) && ServesIncremental(query, seen)
    requires Inv(s) && At(s, h.worlds(i)) && BetweenPages(s.phase) && s.phase.Streaming?
    requires StreamGoes(h, query, answers, i, budget, limit, s.phase.cursor)
    ensures var d := Incremental(query, answers, i, budget, limit, s.phase.cursor);
      && Inv(t) && Leads(s, es, t, true) && t.watermark == s.watermark
      && SamePlace(Reached(s.phase, d.rows, d.ending == ShortPage), t.phase)
      && t.log == StreamLog(h, query, answers, i, budget, limit, s.phase.cursor, s.log)
    ensures Prompt(h, low) && Ripe(s, low) && Saves(t.phase, low) ==> Ripe(t, low)
    decreases budget - i
  {
    es, t := [], s;
    if i < budget {
      var c := s.phase.cursor;
      var reply := ExecuteWithSortMemoryRetry(query, i, c, limit, answers(i));
      if reply.Rows? {
        var page, limit' := reply.rows, NextLimit(limit, reply);
        assert page == query(i, c, limit') && limit' > 0 && seen(i) == s.source.Values;
        var m := PageRound(s, h, i, page, limit', low);
        if |page| != limit' {
          es, t := RoundEvents(h, i, page, limit'), m;
          LastIsOld(s, page, limit');
        } else {
          var fs;
          fs, t := StreamIsRun(m, h, seen, query, answers, i + 1, budget, limit', low);
          var d := Incremental(query, answers, i + 1, budget, limit', Advance(c, page));
          LeadsConcat(s, RoundEvents(h, i, page, |page|), m, fs, t);
          es := RoundEvents(h, i, page, |page|) + fs;
          ReachedTwice(s.phase, page, d.rows, d.ending == ShortPage, m.phase, t.phase);
        }
      }
    }
  }

  lemma LastIsOld(s: State, page: seq<Row>, limit: nat)
    requires Inv(s) && s.phase.Streaming? && Enabled(s, ReadPage(page, limit))
    ensures var c := Advance(s.phase.cursor, page);
      c.AfterRow? ==> c.row.ts <= s.clock
  {
    if page != [] {
      assert page[|page| - 1] in page;
    }
  }

  /** No SELECT of the stream came to a row older than its last one with a late tombstone. */
  ghost predicate PromptStream(h: History, last: Option<int>)
  {
    last.Some? ==> Prompt(h, last.value)
  }

  /** A stream may fail, or finish when it has read nothing, or without late tombstones. */
  lemma StreamMayEnd(h: History, m: State, last: Option<int>, low: int, end: Event)
    requires Inv(m) && m.phase.Streaming? && (end == Abort || end == Finish)
    requires if last.Some? then low == last.value && Saves(m.phase, low) else m.phase.cursor.Since?
    requires Prompt(h, low) && Saves(m.phase, low) ==> Ripe(m, low)
    ensures end == Abort || PromptStream(h, last) ==> Timely(m, end)
  {
  }

  /** An incremental sync up to its last step. */
  lemma StreamToEnd(s: State, h: History, seen: nat -> set<Row>, src: Source, batchSize: nat, low: int)
    returns (es: seq<Event>, m: State)
    requires Inv(s) && s.phase.Idle? && s.watermark.Some? && At(s, h.first) && Begins(h) && batchSize > 0
    requires Shows(h, seen) && ServesIncremental(src.stream, seen)
    requires StreamGoes(h, src.stream, src.answers, 0, src.budget, batchSize, Since(s.watermark.value))
    ensures var c := Since(s.watermark.value);
      var d := Incremental(src.stream, src.answers, 0, src.budget, batchSize, c);
      && Inv(m) && Leads(s, es, m, true) && m.watermark == s.watermark
      && m.phase.Streaming?
      && m.phase == Streaming(Advance(c, d.rows), false, [], d.ending == ShortPage, m.phase.missed)
      && m.log == StreamLog(h, src.stream, src.answers, 0, src.budget, batchSize, c,
                            s.log + NewTombstones(h.first, h.worlds(0)))
    ensures Prompt(h, low) && Saves(m.phase, low) ==> Ripe(m, low)
  {
    var begun := Beginning(s, h, StartStream, low);
    var fs;
    fs, m := StreamIsRun(begun, h, seen, src.stream, src.answers, 0, src.budget, batchSize, low);
    LeadsConcat(s, [StartStream] + h.before, begun, fs, m);
    es := [StartStream] + h.before + fs;
  }

  /**
   An incremental sync from the saved watermark, with writers and the tailer going on, with shrinking limits and failing
   queries, is a timely run up to its end, whether or not it reads a row again that was changed meanwhile. It keeps the
   invariant exactly when that end is timely: certainly when it fails, or reads nothing, or when no SELECT came to a row
   older than the last one with a tombstone on its way.
   */
  lemma IncrementalSyncIsRun(s: State, h: History, seen: nat -> set<Row>, src: Source, batchSize: nat)
    returns (es: seq<Event>, m: State, t: State)
    requires Inv(s) && s.phase.Idle? && s.watermark.Some? && At(s, h.first) && Begins(h) && batchSize > 0
    requires Shows(h, seen) && ServesIncremental(src.stream, seen)
    requires StreamGoes(h, src.stream, src.answers, 0, src.budget, batchSize, Since(s.watermark.value))
    ensures var c := Since(s.watermark.value);
      var d := Incremental(src.stream, src.answers, 0, src.budget, batchSize, c);
      var end := if d.ending == ShortPage then Finish else Abort;
      && RunsToEnd(s, es, m, end, t) && t.phase == Idle
      && t.log == StreamLog(h, src.stream, src.answers, 0, src.budget, batchSize, c,
                            s.log + NewTombstones(h.first, h.worlds(0)))
      && t.watermark == (if d.ending == ShortPage && d.rows != [] then LastTimestamp(d.rows) else s.watermark)
      && (d.ending != ShortPage || PromptStream(h, LastTimestamp(d.rows)) ==> Timely(m, end))
  {
    var d := Incremental(src.stream, src.answers, 0, src.budget, batchSize, Since(s.watermark.value));
    var last := LastTimestamp(d.rows);
    var low := if last.Some? then last.value else 0;
    es, m := StreamToEnd(s, h, seen, src, batchSize, low);
    var end := if d.ending == ShortPage then Finish else Abort;
    t := LastStepIff(s, es, m, end);
    StreamMayEnd(h, m, last, low, end);
  }

  lemma {:induction false} StreamLogIsAppended(h: History, query: IncrementalQuery, answers: nat -> Answer, i: nat,
                                               budget: nat, limit: nat, c: Cursor, log: Log)
    requires i <= budget && limit > 0 && Tombless(h)
    ensures StreamLog(h, query, answers, i, budget, limit, c, log)
         == AppendBatches(log, IncrementalBatches(query, answers, i, budget, limit, c), h.stamps, i)
    decreases budget - i
  {
    if i < budget {
      var reply := ExecuteWithSortMemoryRetry(query, i, c, limit, answers(i));
      if reply.Rows? {
        var page, limit' := reply.rows, NextLimit(limit, reply);
        TomblessLog(h, i, page, log);
        if |page| == limit' {
          var log' := AppendRows(log, page, h.stamps(i));
          StreamLogIsAppended(h, query, answers, i + 1, budget, limit', Advance(c, page), log');
          var rest := IncrementalBatches(query, answers, i + 1, budget, limit', Advance(c, page));
          BatchFirst(log, page, rest, h.stamps, i);
        } else {
          BatchFirst(log, page, [], h.stamps, i);
        }
      }
    }
  }
}
