/**
 Debounced sync nudges as a state machine. A row event queues its table; a timer fires some time later and starts a
 flush, which syncs the queued tables one after the other until none is left. Events come at any moment between.
 */
module Nudges {

  /**
   `pending` in the order of insertion; `work` is what the flush in flight took, its first table being synced now;
   `started` lists every sync started so far.
   */
  datatype State = State(pending: seq<string>, timer: bool, inFlight: bool, work: seq<string>, started: seq<string>)

  datatype Event = Queue(table: string) | Fire | Settle | Stop

  const Init := State([], false, false, [], [])

  function Add(pending: seq<string>, table: string): seq<string>
  {
    if table in pending then pending else pending + [table]
  }

  /** The flush at the head of its loop, the tables it took last being done: it takes the pending ones, or ends. */
  function TakeBatch(s: State): State
  {
    if s.pending == [] then s.(inFlight := false, work := [])
    else s.(pending := [], work := s.pending, started := s.started + [s.pending[0]])
  }

  /** A timer can fire when armed; a sync can settle when one is under way. */
  predicate Enabled(s: State, e: Event)
  {
    match e
    case Queue(_) => true
    case Fire => s.timer
    case Settle => s.work != []
    case Stop => true
  }

  function Step(s: State, e: Event): State
    requires Enabled(s, e)
  {
    match e
    case Queue(table) =>
      s.(pending := Add(s.pending, table), timer := s.timer || !s.inFlight)
    case Fire =>
      if s.inFlight then s.(timer := false) else TakeBatch(s.(timer := false, inFlight := true))
    case Settle =>
      if |s.work| > 1 then s.(work := s.work[1..], started := s.started + [s.work[1]])
      else TakeBatch(s.(work := []))
    case Stop => s.(timer := false)
  }

  /** An armed timer and a flush exclude each other, and a flush always has a sync under way. */
  ghost predicate Sound(s: State)
  {
    && !(s.timer && s.inFlight)
    && (s.timer ==> s.pending != [])
    && (s.inFlight <==> s.work != [])
  }

  /** Nudges are waiting and nothing will come for them. */
  predicate Stranded(s: State)
  {
    s.pending != [] && !s.timer && !s.inFlight
  }

  ghost predicate IsRun(s: State, es: seq<Event>)
    decreases |es|
  {
    es == [] || (Enabled(s, es[0]) && IsRun(Step(s, es[0]), es[1..]))
  }

  function Run(s: State, es: seq<Event>): State
    requires IsRun(s, es)
    decreases |es|
  {
    if es == [] then s else Run(Step(s, es[0]), es[1..])
  }

  lemma StepKeepsSound(s: State, e: Event)
    requires Sound(s) && Enabled(s, e)
    ensures Sound(Step(s, e))
  {
  }

  /** Whatever happens in whatever order, flushes never overlap: the timer never fires into one. */
  lemma {:induction false} SoundAlways(s: State, es: seq<Event>)
    requires Sound(s) && IsRun(s, es)
    ensures Sound(Run(s, es))
    decreases |es|
  {
    if es != [] {
      StepKeepsSound(s, es[0]);
      SoundAlways(Step(s, es[0]), es[1..]);
    }
  }

  /** Only a stop strands nudges, exactly when the timer was still to fire; the next event queued rescues them. */
  lemma StrandedIff(s: State, e: Event)
    requires Sound(s) && Enabled(s, e)
    ensures Stranded(Step(s, e)) <==> (e.Stop? && s.timer) || (Stranded(s) && e.Stop?)
  {
  }

  predicate Stops(es: seq<Event>)
  {
    Stop in es
  }

  /** While not stopped, pending nudges have a timer or a flush coming for them. */
  lemma {:induction false} NeverStranded(s: State, es: seq<Event>)
    requires Sound(s) && !Stranded(s) && IsRun(s, es) && !Stops(es)
    ensures !Stranded(Run(s, es))
    decreases |es|
  {
    if es != [] {
      assert es[0] in es;
      StepKeepsSound(s, es[0]);
      StrandedIff(s, es[0]);
      NeverStranded(Step(s, es[0]), es[1..]);
    }
  }

  /** A table has had a sync started after the first `n`, or waits for one. */
  ghost predicate Owed(s: State, table: string, n: nat)
  {
    table in s.pending || (s.work != [] && table in s.work[1..]) || (n <= |s.started| && table in s.started[n..])
  }

  lemma StepKeepsOwed(s: State, e: Event, table: string, n: nat)
    requires Sound(s) && Enabled(s, e) && Owed(s, table, n) && n <= |s.started|
    ensures Owed(Step(s, e), table, n) && |Step(s, e).started| >= |s.started|
  {
    var s' := Step(s, e);
    if s'.started != s.started {
      var next := s'.started[|s.started|];
      assert s'.started[n..] == s.started[n..] + [next];
      if |s.work| > 1 && e.Settle? {
        assert s.work[1..] == [next] + s'.work[1..];
      } else {
        assert s.pending == [next] + s'.work[1..];
      }
    }
  }

  lemma {:induction false} OwedAlways(s: State, es: seq<Event>, table: string, n: nat)
    requires Sound(s) && IsRun(s, es) && Owed(s, table, n) && n <= |s.started|
    ensures Owed(Run(s, es), table, n)
    decreases |es|
  {
    if es != [] {
      StepKeepsSound(s, es[0]);
      StepKeepsOwed(s, es[0], table, n);
      OwedAlways(Step(s, es[0]), es[1..], table, n);
    }
  }

  /** No nudge is lost: once queued, a table has a sync that starts after the event, or is still waiting for one. */
  lemma NoLostNudge(s: State, table: string, es: seq<Event>)
    requires Sound(s) && IsRun(Step(s, Queue(table)), es)
    ensures Owed(Run(Step(s, Queue(table)), es), table, |s.started|)
  {
    StepKeepsSound(s, Queue(table));
    OwedAlways(Step(s, Queue(table)), es, table, |s.started|);
  }

  function IndexOf(tables: seq<string>, table: string): (i: nat)
    ensures i <= |tables| && (table in tables ==> i < |tables| && tables[i] == table)
  {
    if tables == [] || tables[0] == table then 0 else 1 + IndexOf(tables[1..], table)
  }

  /** How many times the timer must fire or a sync settle before the sync of a waiting table starts. */
  function Wait(s: State, table: string): nat
  {
    if s.work != [] && table in s.work[1..] then 1 + IndexOf(s.work[1..], table)
    else if s.inFlight then |s.work| + IndexOf(s.pending, table)
    else 1 + IndexOf(s.pending, table)
  }

  predicate Waits(s: State, table: string)
  {
    table in s.pending || (s.work != [] && table in s.work[1..])
  }

  predicate Advances(e: Event)
  {
    e.Fire? || e.Settle?
  }

  lemma {:induction false} IndexOfPrefix(a: seq<string>, b: seq<string>, table: string)
    requires table in a
    ensures IndexOf(a + b, table) == IndexOf(a, table)
  {
    if a[0] != table {
      assert (a + b)[1..] == a[1..] + b;
      IndexOfPrefix(a[1..], b, table);
    }
  }

  /** The wait grows with no event, and gets shorter whenever the timer fires or a sync settles. */
  lemma StepShortensWait(s: State, e: Event, table: string)
    requires Sound(s) && Enabled(s, e) && Waits(s, table)
    ensures Wait(s, table) > 0
    ensures !Advances(e) ==> Waits(Step(s, e), table) && Wait(Step(s, e), table) == Wait(s, table)
    ensures Advances(e) ==> table in Step(s, e).started[|s.started|..] ||
                            (Waits(Step(s, e), table) && Wait(Step(s, e), table) < Wait(s, table))
  {
    var s' := Step(s, e);
    match e {
      case Queue(t) =>
        if table in s.pending {
          IndexOfPrefix(s.pending, [t], table);
        }
      case Stop =>
      case Fire =>
        assert s.pending == [s.pending[0]] + s.pending[1..];
      case Settle =>
        if |s.work| > 1 {
          assert s.work[1..] == [s.work[1]] + s.work[2..];
        } else if s.pending != [] {
          assert s.pending == [s.pending[0]] + s.pending[1..];
        }
    }
  }

  function Progress(es: seq<Event>): nat
  {
    if es == [] then 0 else (if Advances(es[0]) then 1 else 0) + Progress(es[1..])
  }

  lemma {:induction false} StartedOnlyGrows(s: State, es: seq<Event>)
    requires Sound(s) && IsRun(s, es)
    ensures s.started <= Run(s, es).started
    decreases |es|
  {
    if es != [] {
      StepKeepsSound(s, es[0]);
      StartedOnlyGrows(Step(s, es[0]), es[1..]);
    }
  }

  /** ... and it waits no longer than the tables ahead of it need, whatever is queued meanwhile. */
  lemma {:induction false} WaitIsBounded(s: State, es: seq<Event>, table: string)
    requires Sound(s) && IsRun(s, es) && Waits(s, table) && Progress(es) >= Wait(s, table)
    ensures |s.started| <= |Run(s, es).started| && table in Run(s, es).started[|s.started|..]
    decreases |es|
  {
    StartedOnlyGrows(s, es);
    var s' := Step(s, es[0]);
    StepKeepsSound(s, es[0]);
    StepShortensWait(s, es[0], table);
    StartedOnlyGrows(s', es[1..]);
    if table in s'.started[|s.started|..] {
      assert forall i | |s.started| <= i < |s'.started| :: Run(s, es).started[i] == s'.started[i];
    } else {
      WaitIsBounded(s', es[1..], table);
      assert Run(s, es).started[|s.started|..]
          == Run(s, es).started[|s.started|..|s'.started|] + Run(s, es).started[|s'.started|..];
    }
  }

  /** Stopping between an event and its timer: until another event comes, nothing can happen any more. */
  lemma StopStrandsNudge(table: string, es: seq<Event>)
    requires var s := Step(Step(Init, Queue(table)), Stop); IsRun(s, es) && forall e | e in es :: !e.Queue?
    ensures var s := Step(Step(Init, Queue(table)), Stop); Run(s, es) == s && Stranded(s)
  {
    StrandedStays(Step(Step(Init, Queue(table)), Stop), es);
  }

  lemma {:induction false} StrandedStays(s: State, es: seq<Event>)
    requires Sound(s) && Stranded(s) && IsRun(s, es) && forall e | e in es :: !e.Queue?
    ensures Run(s, es) == s
    decreases |es|
  {
    if es != [] {
      assert es[0] in es && es[0] == Stop;
      StrandedStays(s, es[1..]);
    }
  }
}
