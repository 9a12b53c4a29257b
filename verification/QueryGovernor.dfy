/**
 The query governor: a semaphore with a bounded queue, two priority lanes and an anti-starvation counter.
 A waiter that has been released runs only when its continuation resumes, so `granted` is a state of its own.
 */
module QueryGovernor {
  import opened Wrappers

  datatype Priority = High | Normal

  datatype Entry = Entry(id: nat, priority: Priority)

  /** `enqueued` and `released` record the whole history of the queue, in order. */
  datatype State = State(running: set<nat>, granted: set<nat>, queue: seq<Entry>, finished: set<nat>, queryCounter: nat,
                         consecutiveHighPriority: nat, enqueued: seq<Entry>, released: seq<Entry>)

  datatype Limits = Limits(maxConcurrent: nat, maxQueue: nat, maxConsecutiveHighPriority: nat)

  datatype Event = Arrive(priority: Priority) | Resume(id: nat) | Finish(id: nat)

  /** The index of the first entry of priority `p`, or -1. */
  function FindIndex(queue: seq<Entry>, p: Priority): (i: int)
    ensures -1 <= i < |queue|
    ensures i >= 0 ==> queue[i].priority == p && forall j | 0 <= j < i :: queue[j].priority != p
    ensures i < 0 ==> forall j | 0 <= j < |queue| :: queue[j].priority != p
  {
    if queue == [] then -1
    else if queue[0].priority == p then 0
    else
      var i := FindIndex(queue[1..], p);
      if i < 0 then -1 else i + 1
  }

  /** Which entry goes next, and the new count of high-priority releases in a row. */
  function Pick(queue: seq<Entry>, consecutive: nat, limits: Limits): (r: (nat, nat))
    requires queue != []
    ensures r.0 < |queue|
  {
    var normal, high := FindIndex(queue, Normal), FindIndex(queue, High);
    if consecutive >= limits.maxConsecutiveHighPriority && normal >= 0 then (normal, 0)
    else if high >= 0 then (high, consecutive + 1)
    else (0, 0)
  }

  function Dequeue(s: State, limits: Limits): State
  {
    if s.queue == [] then s
    else
      var (i, consecutive) := Pick(s.queue, s.consecutiveHighPriority, limits);
      s.(queue := s.queue[..i] + s.queue[i + 1..], granted := s.granted + {s.queue[i].id},
         consecutiveHighPriority := consecutive, released := s.released + [s.queue[i]])
  }

  predicate Enabled(s: State, e: Event)
  {
    match e
    case Arrive(_) => true
    case Resume(id) => id in s.granted
    case Finish(id) => id in s.running
  }

  function Step(s: State, limits: Limits, e: Event): State
    requires Enabled(s, e)
  {
    match e
    case Arrive(p) =>
      var id := s.queryCounter + 1;
      var s := s.(queryCounter := id);
      if |s.running| >= limits.maxConcurrent && |s.queue| >= limits.maxQueue then s.(finished := s.finished + {id})
      else if |s.running| >= limits.maxConcurrent then
        s.(queue := s.queue + [Entry(id, p)], enqueued := s.enqueued + [Entry(id, p)])
      else s.(running := s.running + {id})
    case Resume(id) => s.(granted := s.granted - {id}, running := s.running + {id})
    case Finish(id) => Dequeue(Done(s, id), limits)
  }

  const Empty := State({}, {}, [], {}, 0, 0, [], [])

  // -------------------------------------------------------------- safety

  function Count(queue: seq<Entry>, id: nat): nat
  {
    if queue == [] then 0 else (if queue[0].id == id then 1 else 0) + Count(queue[1..], id)
  }

  lemma {:induction false} CountConcat(a: seq<Entry>, b: seq<Entry>, id: nat)
    ensures Count(a + b, id) == Count(a, id) + Count(b, id)
  {
    if a == [] {
      assert a + b == b;
    } else {
      CountConcat(a[1..], b, id);
      assert (a + b)[1..] == a[1..] + b;
    }
  }

  lemma CountRemove(queue: seq<Entry>, i: nat, id: nat)
    requires i < |queue|
    ensures Count(queue, id) == Count(queue[..i] + queue[i + 1..], id) + if queue[i].id == id then 1 else 0
  {
    CountConcat(queue[..i], queue[i + 1..], id);
    CountConcat(queue[..i], queue[i..], id);
    assert queue == queue[..i] + queue[i..] && queue[i..][1..] == queue[i + 1..];
  }

  /** In how many places a query is. */
  function Places(s: State, id: nat): nat
  {
    (if id in s.running then 1 else 0) + (if id in s.granted then 1 else 0) + Count(s.queue, id)
      + (if id in s.finished then 1 else 0)
  }

  /** Every query that ever arrived is in exactly one place, once, and no other query is anywhere. */
  ghost predicate Partitioned(s: State)
  {
    forall id: nat :: Places(s, id) == if 1 <= id <= s.queryCounter then 1 else 0
  }

  /** No lost wake-up: while anyone waits, every slot is taken or promised. And the queue never overflows. */
  ghost predicate Busy(s: State, limits: Limits)
  {
    && (s.queue != [] ==> |s.running| + |s.granted| >= limits.maxConcurrent)
    && |s.queue| <= limits.maxQueue
  }

  lemma DequeueKeepsPlaces(s: State, limits: Limits, id: nat)
    requires forall q: nat :: Places(s, q) <= 1
    ensures Places(Dequeue(s, limits), id) == Places(s, id)
    ensures s.queue != [] ==> |Dequeue(s, limits).granted| == |s.granted| + 1
  {
    if s.queue != [] {
      var (i, _) := Pick(s.queue, s.consecutiveHighPriority, limits);
      CountRemove(s.queue, i, id);
      CountRemove(s.queue, i, s.queue[i].id);
      assert Places(s, s.queue[i].id) <= 1;
    }
  }

  /** The state between a completion and the release of the next waiter. */
  function Done(s: State, id: nat): State
  {
    s.(running := s.running - {id}, finished := s.finished + {id})
  }

  lemma DoneKeepsPlaces(s: State, id: nat)
    requires Partitioned(s) && id in s.running
    ensures forall q: nat :: Places(Done(s, id), q) == Places(s, q) <= 1
  {
    assert Places(s, id) == 1;
    forall q: nat ensures Places(Done(s, id), q) == Places(s, q) <= 1 {
    }
  }

  lemma StepKeepsPartition(s: State, limits: Limits, e: Event)
    requires Partitioned(s) && Enabled(s, e)
    ensures Partitioned(Step(s, limits, e))
  {
    var s' := Step(s, limits, e);
    if e.Finish? {
      DoneKeepsPlaces(s, e.id);
    }
    forall id: nat ensures Places(s', id) == if 1 <= id <= s'.queryCounter then 1 else 0 {
      assert Places(s, id) == if 1 <= id <= s.queryCounter then 1 else 0;
      match e
      case Arrive(p) =>
        CountConcat(s.queue, [Entry(s.queryCounter + 1, p)], id);
      case Resume(q) =>
        assert Places(s', id) == Places(s, id);
      case Finish(q) =>
        DequeueKeepsPlaces(Done(s, q), limits, id);
    }
  }

  /** What a step does to the numbers: a resumption moves a slot, a completion passes one on to the next waiter. */
  lemma FinishCounts(s: State, limits: Limits, id: nat)
    requires Partitioned(s) && id in s.running
    ensures var t := Step(s, limits, Finish(id));
      && |t.running| == |s.running| - 1
      && |t.granted| == |s.granted| + (if s.queue == [] then 0 else 1)
      && |t.queue| == |s.queue| - (if s.queue == [] then 0 else 1)
  {
    DoneKeepsPlaces(s, id);
    DequeueKeepsPlaces(Done(s, id), limits, id);
  }

  lemma ResumeCounts(s: State, limits: Limits, id: nat)
    requires Partitioned(s) && id in s.granted
    ensures var t := Step(s, limits, Resume(id));
      |t.running| == |s.running| + 1 && |t.granted| == |s.granted| - 1 && t.queue == s.queue
  {
    assert Places(s, id) == 1;
  }

  lemma ArriveCounts(s: State, limits: Limits, p: Priority)
    requires Partitioned(s)
    ensures var t := Step(s, limits, Arrive(p));
      && t.granted == s.granted
      && |t.running| == |s.running| + (if |s.running| < limits.maxConcurrent then 1 else 0)
      && (t.queue == s.queue
          || (|s.running| >= limits.maxConcurrent && |s.queue| < limits.maxQueue && |t.queue| == |s.queue| + 1))
  {
    assert Places(s, s.queryCounter + 1) == 0;
  }

  lemma StepKeepsBusy(s: State, limits: Limits, e: Event)
    requires Partitioned(s) && Busy(s, limits) && Enabled(s, e)
    ensures Busy(Step(s, limits, e), limits)
  {
    match e
    case Arrive(p) => ArriveCounts(s, limits, p);
    case Resume(id) => ResumeCounts(s, limits, id);
    case Finish(id) => FinishCounts(s, limits, id);
  }

  // ---------------------------------------------------------------------- runs

  /** The events `es` lead from `s` to `t`. */
  ghost predicate Leads(s: State, limits: Limits, es: seq<Event>, t: State)
    decreases |es|
  {
    if es == [] then s == t else Enabled(s, es[0]) && Leads(Step(s, limits, es[0]), limits, es[1..], t)
  }

  /** Scheduling safety, over every interleaving of arrivals, resumptions and completions. */
  lemma {:induction false} SafeAlways(s: State, limits: Limits, es: seq<Event>, t: State)
    requires Partitioned(s) && Busy(s, limits) && Leads(s, limits, es, t)
    ensures Partitioned(t) && Busy(t, limits)
    decreases |es|
  {
    if es != [] {
      StepKeepsPartition(s, limits, es[0]);
      StepKeepsBusy(s, limits, es[0]);
      SafeAlways(Step(s, limits, es[0]), limits, es[1..], t);
    }
  }

  /** Where every run starts from is safe, so every run is. */
  lemma EmptyIsSafe(limits: Limits)
    ensures Partitioned(Empty) && Busy(Empty, limits)
  {
  }

  /** Slots taken or promised stay within the semaphore. */
  predicate WithinSemaphore(s: State, limits: Limits)
  {
    |s.running| + |s.granted| <= limits.maxConcurrent
  }

  /** No query is started directly into a slot already promised to a waiter that has not resumed yet. */
  predicate NoBarging(s: State, limits: Limits, e: Event)
  {
    e.Arrive? ==> |s.running| >= limits.maxConcurrent || |s.running| + |s.granted| < limits.maxConcurrent
  }

  /** Barging is the one way past the semaphore: a step stays within it exactly when it does not barge. */
  lemma SemaphoreHoldsIff(s: State, limits: Limits, e: Event)
    requires Partitioned(s) && WithinSemaphore(s, limits) && Enabled(s, e)
    ensures WithinSemaphore(Step(s, limits, e), limits) <==> NoBarging(s, limits, e)
  {
    match e
    case Arrive(p) => ArriveCounts(s, limits, p);
    case Resume(id) => ResumeCounts(s, limits, id);
    case Finish(id) => FinishCounts(s, limits, id);
  }

  /** When every waiter has resumed before the next arrival, nothing barges and `maxConcurrent` is never exceeded. */
  ghost predicate ResumesFirst(s: State, limits: Limits, es: seq<Event>)
    decreases |es|
  {
    es != [] ==>
      && Enabled(s, es[0])
      && (es[0].Arrive? ==> s.granted == {})
      && ResumesFirst(Step(s, limits, es[0]), limits, es[1..])
  }

  lemma {:induction false} SemaphoreHolds(s: State, limits: Limits, es: seq<Event>, t: State)
    requires Partitioned(s) && WithinSemaphore(s, limits) && ResumesFirst(s, limits, es) && Leads(s, limits, es, t)
    ensures |t.running| <= limits.maxConcurrent
    decreases |es|
  {
    if es != [] {
      SemaphoreHoldsIff(s, limits, es[0]);
      StepKeepsPartition(s, limits, es[0]);
      SemaphoreHolds(Step(s, limits, es[0]), limits, es[1..], t);
    }
  }

  /**
   `maxConcurrent` is not a bound on what runs: whenever every slot is taken and someone waits, a completion, an
   arrival and only then the resumption of the released waiter run one query too many.
   */
  lemma BargingExceedsSemaphore(s: State, limits: Limits, id: nat, p: Priority) returns (waiter: nat)
    requires Partitioned(s) && |s.running| == limits.maxConcurrent && s.granted == {} && s.queue != [] &&
             id in s.running
    ensures var barged := Step(Step(s, limits, Finish(id)), limits, Arrive(p));
      waiter in barged.granted && |Step(barged, limits, Resume(waiter)).running| == limits.maxConcurrent + 1
  {
    var released := Step(s, limits, Finish(id));
    StepKeepsPartition(s, limits, Finish(id));
    FinishCounts(s, limits, id);
    var barged := Step(released, limits, Arrive(p));
    StepKeepsPartition(released, limits, Arrive(p));
    ArriveCounts(released, limits, p);
    waiter :| waiter in released.granted;
    ResumeCounts(barged, limits, waiter);
  }

  // ------------------------------------------------------------------ fairness

  /** The entries of one priority, in order. */
  function Of(p: Priority, queue: seq<Entry>): seq<Entry>
  {
    if queue == [] then []
    else if queue[0].priority == p then [queue[0]] + Of(p, queue[1..])
    else Of(p, queue[1..])
  }

  lemma {:induction false} OfConcat(p: Priority, a: seq<Entry>, b: seq<Entry>)
    ensures Of(p, a + b) == Of(p, a) + Of(p, b)
  {
    if a == [] {
      assert a + b == b;
    } else {
      OfConcat(p, a[1..], b);
      assert (a + b)[1..] == a[1..] + b;
    }
  }

  lemma {:induction false} OfNone(p: Priority, queue: seq<Entry>)
    requires forall e | e in queue :: e.priority != p
    ensures Of(p, queue) == []
  {
    if queue != [] {
      OfNone(p, queue[1..]);
    }
  }

  /** Taking the first entry of its priority takes the head of that lane and leaves the other lane as it is. */
  lemma OfRemove(p: Priority, queue: seq<Entry>, i: nat)
    requires i < |queue| && forall j | 0 <= j < i :: queue[j].priority != queue[i].priority
    ensures Of(p, queue) == (if queue[i].priority == p then [queue[i]] else []) + Of(p, queue[..i] + queue[i + 1..])
  {
    assert queue == queue[..i] + ([queue[i]] + queue[i + 1..]);
    OfAround(p, queue[..i], queue[i], queue[i + 1..]);
  }

  lemma OfAround(p: Priority, a: seq<Entry>, e: Entry, b: seq<Entry>)
    requires forall j | 0 <= j < |a| :: a[j].priority != e.priority
    ensures Of(p, a + ([e] + b)) == (if e.priority == p then [e] else []) + Of(p, a + b)
  {
    OfConcat(p, a, [e] + b);
    OfConcat(p, a, b);
    assert ([e] + b)[1..] == b;
    if e.priority == p {
      OfNone(p, a);
    }
  }

  lemma DequeueTakesLaneHead(s: State, limits: Limits, p: Priority)
    requires s.queue != []
    ensures var t := Dequeue(s, limits); var e := t.released[|s.released|];
      && t.released == s.released + [e]
      && Of(p, s.queue) == (if e.priority == p then [e] else []) + Of(p, t.queue)
      && Of(p, t.released) == Of(p, s.released) + (if e.priority == p then [e] else [])
  {
    var (i, _) := Pick(s.queue, s.consecutiveHighPriority, limits);
    OfRemove(p, s.queue, i);
    OfConcat(p, s.released, [s.queue[i]]);
  }

  predicate Waits(p: Priority, queue: seq<Entry>)
  {
    exists e | e in queue :: e.priority == p
  }

  /** A normal query is released exactly when no high one waits, or when high ones have had all their turns in a row. */
  lemma NormalReleasedIff(s: State, limits: Limits)
    requires s.queue != []
    ensures var t := Dequeue(s, limits);
      && |t.released| == |s.released| + 1
      && (t.released[|s.released|].priority == Normal <==>
            !Waits(High, s.queue)
            || (s.consecutiveHighPriority >= limits.maxConsecutiveHighPriority && Waits(Normal, s.queue)))
  {
    var (i, _) := Pick(s.queue, s.consecutiveHighPriority, limits);
    assert s.queue[i] in s.queue;
    forall p ensures FindIndex(s.queue, p) >= 0 <==> Waits(p, s.queue) {
      if FindIndex(s.queue, p) >= 0 {
        assert s.queue[FindIndex(s.queue, p)] in s.queue;
      }
    }
  }

  /** How many high-priority entries come last in a row. */
  function TrailingHigh(released: seq<Entry>): nat
  {
    if released == [] || released[|released| - 1].priority == Normal then 0
    else 1 + TrailingHigh(released[..|released| - 1])
  }

  lemma DequeueCountsTurns(s: State, limits: Limits)
    requires s.consecutiveHighPriority == TrailingHigh(s.released)
    ensures var t := Dequeue(s, limits); t.consecutiveHighPriority == TrailingHigh(t.released)
  {
    if s.queue != [] {
      var t := Dequeue(s, limits);
      assert t.released[..|s.released|] == s.released;
    }
  }

  /** In every run the counter is the number of high-priority releases since the last normal one. */
  lemma {:induction false} CountsTurns(s: State, limits: Limits, es: seq<Event>, t: State)
    requires s.consecutiveHighPriority == TrailingHigh(s.released) && Leads(s, limits, es, t)
    ensures t.consecutiveHighPriority == TrailingHigh(t.released)
    decreases |es|
  {
    if es != [] {
      if es[0].Finish? {
        DequeueCountsTurns(Done(s, es[0].id), limits);
      }
      CountsTurns(Step(s, limits, es[0]), limits, es[1..], t);
    }
  }

  /**
   Which lane a completion serves, by the history of the run alone: the normal one exactly when no high query waits, or
   when a normal one does and the last `maxConsecutiveHighPriority` releases were all of high priority.
   */
  lemma TurnsByHistory(limits: Limits, es: seq<Event>, t: State, id: nat)
    requires Leads(Empty, limits, es, t) && Enabled(t, Finish(id)) && t.queue != []
    ensures var u := Step(t, limits, Finish(id));
      && |u.released| == |t.released| + 1
      && (u.released[|t.released|].priority == Normal <==>
            !Waits(High, t.queue)
            || (TrailingHigh(t.released) >= limits.maxConsecutiveHighPriority && Waits(Normal, t.queue)))
  {
    CountsTurns(Empty, limits, es, t);
    NormalReleasedIff(Done(t, id), limits);
  }

  /** A lane is first in, first out: what was released and what waits make up what was enqueued, in order. */
  ghost predicate LaneInOrder(p: Priority, s: State)
  {
    Of(p, s.released) + Of(p, s.queue) == Of(p, s.enqueued)
  }

  ghost predicate Fifo(s: State)
  {
    forall p :: LaneInOrder(p, s)
  }

  lemma EnqueueKeepsLane(s: State, x: Entry, p: Priority)
    requires LaneInOrder(p, s)
    ensures LaneInOrder(p, s.(queue := s.queue + [x], enqueued := s.enqueued + [x]))
  {
    OfConcat(p, s.queue, [x]);
    OfConcat(p, s.enqueued, [x]);
    assert Of(p, s.released) + (Of(p, s.queue) + Of(p, [x])) == (Of(p, s.released) + Of(p, s.queue)) + Of(p, [x]);
  }

  lemma DequeueKeepsLane(s: State, limits: Limits, p: Priority)
    requires LaneInOrder(p, s)
    ensures LaneInOrder(p, Dequeue(s, limits))
  {
    if s.queue != [] {
      DequeueTakesLaneHead(s, limits, p);
    }
  }

  lemma StepKeepsFifo(s: State, limits: Limits, e: Event)
    requires Fifo(s) && Enabled(s, e)
    ensures Fifo(Step(s, limits, e)) && s.enqueued <= Step(s, limits, e).enqueued
  {
    forall p ensures LaneInOrder(p, Step(s, limits, e)) {
      assert LaneInOrder(p, s);
      if e.Arrive? {
        EnqueueKeepsLane(s, Entry(s.queryCounter + 1, e.priority), p);
      } else if e.Finish? {
        DequeueKeepsLane(Done(s, e.id), limits, p);
      }
    }
  }

  lemma {:induction false} FifoAlways(s: State, limits: Limits, es: seq<Event>, t: State)
    requires Fifo(s) && Leads(s, limits, es, t)
    ensures Fifo(t) && s.enqueued <= t.enqueued
    decreases |es|
  {
    if es != [] {
      StepKeepsFifo(s, limits, es[0]);
      FifoAlways(Step(s, limits, es[0]), limits, es[1..], t);
    }
  }

  /** Completions after which `n` waiting normal queries have been released, from a count `c` of high ones in a row. */
  function Turns(n: nat, c: nat, limits: Limits): nat
  {
    if n == 0 then 0
    else if c < limits.maxConsecutiveHighPriority then
      limits.maxConsecutiveHighPriority - c + 1 + Turns(n - 1, 0, limits)
    else 1 + Turns(n - 1, 0, limits)
  }

  lemma {:induction false} TurnsBound(n: nat, c: nat, limits: Limits)
    ensures Turns(n, c, limits) <= n * (limits.maxConsecutiveHighPriority + 1)
  {
    if n > 0 {
      TurnsBound(n - 1, 0, limits);
      assert n * (limits.maxConsecutiveHighPriority + 1)
          == (n - 1) * (limits.maxConsecutiveHighPriority + 1) + (limits.maxConsecutiveHighPriority + 1);
    }
  }

  function Completions(es: seq<Event>): nat
  {
    if es == [] then 0 else (if es[0].Finish? then 1 else 0) + Completions(es[1..])
  }

  /** While a normal query waits, a release either serves the normal lane or uses up one of the high turns. */
  lemma ReleaseTurn(s: State, limits: Limits)
    requires Of(Normal, s.queue) != []
    ensures var t := Dequeue(s, limits);
      || (|Of(Normal, t.released)| == |Of(Normal, s.released)| + 1 && |Of(Normal, t.queue)| == |Of(Normal, s.queue)| - 1
          && t.consecutiveHighPriority == 0)
      || (|Of(Normal, t.released)| == |Of(Normal, s.released)| && |Of(Normal, t.queue)| == |Of(Normal, s.queue)|
          && s.consecutiveHighPriority < limits.maxConsecutiveHighPriority
          && t.consecutiveHighPriority == s.consecutiveHighPriority + 1)
  {
    if FindIndex(s.queue, Normal) < 0 {
      OfNone(Normal, s.queue);
    }
    DequeueTakesLaneHead(s, limits, Normal);
  }

  /** A completion brings the next `n` normal releases one turn nearer. */
  lemma FinishTurn(s: State, limits: Limits, id: nat, n: nat) returns (rest: nat)
    requires Enabled(s, Finish(id)) && n <= |Of(Normal, s.queue)|
    ensures var m := Step(s, limits, Finish(id));
      && n - rest <= |Of(Normal, m.released)| - |Of(Normal, s.released)|
      && rest <= |Of(Normal, m.queue)|
      && (n > 0 ==> Turns(rest, m.consecutiveHighPriority, limits) < Turns(n, s.consecutiveHighPriority, limits))
      && (n == 0 ==> rest == 0)
  {
    var done := Done(s, id);
    rest := n;
    if n > 0 {
      ReleaseTurn(done, limits);
      if |Of(Normal, Dequeue(done, limits).released)| > |Of(Normal, s.released)| {
        rest := n - 1;
      }
    } else if s.queue != [] {
      DequeueTakesLaneHead(done, limits, Normal);
    }
  }

  lemma {:induction false} NormalsReleased(s: State, limits: Limits, es: seq<Event>, t: State, n: nat)
    requires Leads(s, limits, es, t) && n <= |Of(Normal, s.queue)|
    requires Completions(es) >= Turns(n, s.consecutiveHighPriority, limits)
    ensures |Of(Normal, t.released)| >= |Of(Normal, s.released)| + n
    decreases |es|
  {
    if es != [] {
      var m, rest := Step(s, limits, es[0]), n;
      if es[0].Arrive? {
        OfConcat(Normal, s.queue, [Entry(s.queryCounter + 1, es[0].priority)]);
      } else if es[0].Finish? {
        rest := FinishTurn(s, limits, es[0].id, n);
      }
      NormalsReleased(m, limits, es[1..], t, rest);
    }
  }

  lemma OfPrefix(p: Priority, a: seq<Entry>, b: seq<Entry>)
    requires a <= b
    ensures Of(p, a) <= Of(p, b)
  {
    OfConcat(p, a, b[|a|..]);
    assert b == a + b[|a|..];
  }

  /**
   Bounded bypass: a waiting normal query with `p` normal ones ahead of it has been released after
   (p + 1) * (maxConsecutiveHighPriority + 1) completions, whatever arrives meanwhile.
   */
  lemma BoundedBypass(s: State, limits: Limits, es: seq<Event>, t: State, p: nat)
    requires Fifo(s) && Leads(s, limits, es, t) && p < |Of(Normal, s.queue)|
    requires Completions(es) >= (p + 1) * (limits.maxConsecutiveHighPriority + 1)
    ensures var i := |Of(Normal, s.released)| + p;
      i < |Of(Normal, t.released)| && Of(Normal, t.released)[i] == Of(Normal, s.queue)[p]
  {
    TurnsBound(p + 1, s.consecutiveHighPriority, limits);
    NormalsReleased(s, limits, es, t, p + 1);
    FifoAlways(s, limits, es, t);
    OfPrefix(Normal, s.enqueued, t.enqueued);
    LaneAt(s, t, p);
  }

  lemma LaneAt(s: State, t: State, p: nat)
    requires Fifo(s) && Fifo(t) && Of(Normal, s.enqueued) <= Of(Normal, t.enqueued)
    requires p < |Of(Normal, s.queue)| && |Of(Normal, t.released)| > |Of(Normal, s.released)| + p
    ensures Of(Normal, t.released)[|Of(Normal, s.released)| + p] == Of(Normal, s.queue)[p]
  {
    assert LaneInOrder(Normal, s) && LaneInOrder(Normal, t);
    var i := |Of(Normal, s.released)| + p;
    assert Of(Normal, s.enqueued)[i] == (Of(Normal, s.released) + Of(Normal, s.queue))[i];
    assert Of(Normal, t.enqueued)[i] == (Of(Normal, t.released) + Of(Normal, t.queue))[i];
  }

  // ------------------------------------------------------------- the governor

  datatype Admission = Rejected | Waiting | Started

  datatype Outcome = Executed | TimedOut | Threw

  /** `status` in the monitoring view: a released waiter still reads as queued. */
  datatype Status = Queued | Running

  function StatusOf(s: State, id: nat): Option<Status>
  {
    if id in s.running then Some(Running)
    else if id in s.granted || Count(s.queue, id) > 0 then Some(Queued)
    else None
  }

  function Shows(active: map<nat, Status>, id: nat): Option<Status>
  {
    if id in active then Some(active[id]) else None
  }

  /** The monitoring view lists exactly the queries that run or wait, with the right status. */
  ghost predicate Monitors(active: map<nat, Status>, s: State)
  {
    forall id: nat :: Shows(active, id) == StatusOf(s, id)
  }

  function Admit(s: State, limits: Limits): Admission
  {
    if |s.running| >= limits.maxConcurrent && |s.queue| >= limits.maxQueue then Rejected
    else if |s.running| >= limits.maxConcurrent then Waiting
    else Started
  }

  /** What an event does to the monitoring view. */
  function NextActive(active: map<nat, Status>, s: State, limits: Limits, e: Event): map<nat, Status>
  {
    match e
    case Arrive(_) =>
      (match Admit(s, limits)
       case Rejected => active
       case Waiting => active[s.queryCounter + 1 := Queued]
       case Started => active[s.queryCounter + 1 := Running])
    case Resume(id) => active[id := Running]
    case Finish(id) => active - {id}
  }

  lemma ArriveMonitored(active: map<nat, Status>, s: State, limits: Limits, p: Priority, id: nat)
    requires Partitioned(s) && Monitors(active, s)
    ensures Shows(NextActive(active, s, limits, Arrive(p)), id) == StatusOf(Step(s, limits, Arrive(p)), id)
  {
    assert Shows(active, id) == StatusOf(s, id);
    assert Places(s, s.queryCounter + 1) == 0;
    CountConcat(s.queue, [Entry(s.queryCounter + 1, p)], id);
  }

  lemma FinishMonitored(active: map<nat, Status>, s: State, limits: Limits, q: nat, id: nat)
    requires Partitioned(s) && Monitors(active, s) && q in s.running
    ensures Shows(active - {q}, id) == StatusOf(Step(s, limits, Finish(q)), id)
  {
    assert Shows(active, id) == StatusOf(s, id);
    assert Places(s, id) <= 1;
    DoneKeepsPlaces(s, q);
    assert StatusOf(Done(s, q), id) == Shows(active - {q}, id);
    DequeueKeepsPlaces(Done(s, q), limits, id);
  }

  lemma StepMonitored(active: map<nat, Status>, s: State, limits: Limits, e: Event, id: nat)
    requires Partitioned(s) && Monitors(active, s) && Enabled(s, e)
    ensures Shows(NextActive(active, s, limits, e), id) == StatusOf(Step(s, limits, e), id)
  {
    match e
    case Arrive(p) => ArriveMonitored(active, s, limits, p, id);
    case Resume(q) => assert Shows(active, id) == StatusOf(s, id) && Places(s, id) <= 1;
    case Finish(q) => FinishMonitored(active, s, limits, q, id);
  }

  /** All that a governor keeps over any run. */
  ghost predicate Sound(s: State, limits: Limits, active: map<nat, Status>)
  {
    Partitioned(s) && Busy(s, limits) && Fifo(s) && Monitors(active, s)
  }

  lemma StepKeepsSound(active: map<nat, Status>, s: State, limits: Limits, e: Event)
    requires Sound(s, limits, active) && Enabled(s, e)
    ensures Sound(Step(s, limits, e), limits, NextActive(active, s, limits, e))
  {
    StepKeepsPartition(s, limits, e);
    StepKeepsBusy(s, limits, e);
    StepKeepsFifo(s, limits, e);
    forall id: nat ensures Shows(NextActive(active, s, limits, e), id) == StatusOf(Step(s, limits, e), id) {
      StepMonitored(active, s, limits, e, id);
    }
  }

  class Governor {
    const limits: Limits
    var running: nat
    var queue: seq<Entry>
    var activeQueries: map<nat, Status>
    var consecutiveHighPriority: nat
    var queryCounter: nat
    var totalExecuted: nat
    var totalTimedOut: nat
    var totalRejected: nat
    ghost var runningIds: set<nat>
    ghost var granted: set<nat>
    ghost var finished: set<nat>
    ghost var enqueued: seq<Entry>
    ghost var released: seq<Entry>

    ghost function Abs(): State
      reads this
    {
      State(runningIds, granted, queue, finished, queryCounter, consecutiveHighPriority, enqueued, released)
    }

    /** The counter and the monitoring map tell the truth about which queries run and wait. */
    ghost predicate Valid()
      reads this
    {
      Sound(Abs(), limits, activeQueries) && running == |runningIds|
    }

    constructor (limits: Limits)
      ensures Valid() && this.limits == limits && Abs() == Empty
      ensures totalExecuted == totalTimedOut == totalRejected == 0
    {
      this.limits := limits;
      running, queue, activeQueries, consecutiveHighPriority, queryCounter := 0, [], map[], 0, 0;
      totalExecuted, totalTimedOut, totalRejected := 0, 0, 0;
      runningIds, granted, finished, enqueued, released := {}, {}, {}, [], [];
    }

    /** `execute` up to its first suspension: reject, wait, or start. */
    method Begin(priority: Priority) returns (id: nat, admission: Admission)
      requires Valid()
      modifies this
      ensures Valid() && Abs() == Step(old(Abs()), limits, Arrive(priority))
      ensures id == old(queryCounter) + 1 && admission == Admit(old(Abs()), limits)
      ensures admission == Started <==> old(running) < limits.maxConcurrent
      ensures admission == Rejected <==> old(running) >= limits.maxConcurrent && |old(queue)| >= limits.maxQueue
      ensures runningIds == old(runningIds) + (if admission == Started then {id} else {})
      ensures queue == old(queue) + (if admission == Waiting then [Entry(id, priority)] else [])
      ensures totalRejected == old(totalRejected) + (if admission == Rejected then 1 else 0)
      ensures totalExecuted == old(totalExecuted) && totalTimedOut == old(totalTimedOut)
    {
      if running >= limits.maxConcurrent && |queue| >= limits.maxQueue {
        totalRejected := totalRejected + 1;
      }
      id, admission := TakePlace(priority);
    }

    method TakePlace(priority: Priority) returns (id: nat, admission: Admission)
      requires Valid()
      modifies this`running, this`queue, this`activeQueries, this`queryCounter, this`runningIds, this`finished,
               this`enqueued
      ensures Valid() && Abs() == Step(old(Abs()), limits, Arrive(priority))
      ensures id == old(queryCounter) + 1 && admission == Admit(old(Abs()), limits)
    {
      StepKeepsSound(activeQueries, Abs(), limits, Arrive(priority));
      assert Places(Abs(), queryCounter + 1) == 0;
      queryCounter := queryCounter + 1;
      id := queryCounter;
      if running >= limits.maxConcurrent && |queue| >= limits.maxQueue {
        finished := finished + {id};
        return id, Rejected;
      }
      if running >= limits.maxConcurrent {
        queue := queue + [Entry(id, priority)];
        enqueued := enqueued + [Entry(id, priority)];
        activeQueries := activeQueries[id := Queued];
        return id, Waiting;
      }
      running := running + 1;
      runningIds := runningIds + {id};
      activeQueries := activeQueries[id := Running];
      return id, Started;
    }

    /** A released waiter's continuation runs: only now does it count as running. */
    method ResumeWaiter(id: nat)
      requires Valid() && id in granted
      modifies this
      ensures Valid() && Abs() == Step(old(Abs()), limits, Resume(id))
      ensures totalExecuted == old(totalExecuted) && totalTimedOut == old(totalTimedOut) &&
              totalRejected == old(totalRejected)
    {
      StepKeepsSound(activeQueries, Abs(), limits, Resume(id));
      assert Places(Abs(), id) == 1;
      running := running + 1;
      activeQueries := activeQueries[id := Running];
      granted, runningIds := granted - {id}, runningIds + {id};
    }

    /** The `finally` of `execute`, after success, a timeout or an error. */
    method Complete(id: nat, outcome: Outcome)
      requires Valid() && id in runningIds
      modifies this
      ensures Valid() && Abs() == Step(old(Abs()), limits, Finish(id))
      ensures totalExecuted == old(totalExecuted) + (if outcome == Executed then 1 else 0)
      ensures totalTimedOut == old(totalTimedOut) + (if outcome == TimedOut then 1 else 0)
      ensures totalRejected == old(totalRejected)
    {
      if outcome == Executed {
        totalExecuted := totalExecuted + 1;
      } else if outcome == TimedOut {
        totalTimedOut := totalTimedOut + 1;
      }
      Leave(id);
    }

    method Leave(id: nat)
      requires Valid() && id in runningIds
      modifies this`running, this`activeQueries, this`runningIds, this`finished,
               this`queue, this`consecutiveHighPriority, this`granted, this`released
      ensures Valid() && Abs() == Step(old(Abs()), limits, Finish(id))
    {
      StepKeepsSound(activeQueries, Abs(), limits, Finish(id));
      running := running - 1;
      activeQueries := activeQueries - {id};
      runningIds, finished := runningIds - {id}, finished + {id};
      assert Abs() == Done(old(Abs()), id);
      ReleaseNext();
      assert |runningIds| == |Done(old(Abs()), id).running|;
    }

    /** Release the next waiter, if any. */
    method ReleaseNext()
      modifies this`queue, this`consecutiveHighPriority, this`granted, this`released
      ensures Abs() == Dequeue(old(Abs()), limits)
    {
      if |queue| == 0 {
        return;
      }
      var idx := -1;
      if consecutiveHighPriority >= limits.maxConsecutiveHighPriority {
        idx := FindIndex(queue, Normal);
        if idx >= 0 {
          consecutiveHighPriority := 0;
        }
      }
      if idx < 0 {
        var highIdx := FindIndex(queue, High);
        if highIdx >= 0 {
          idx := highIdx;
          consecutiveHighPriority := consecutiveHighPriority + 1;
        } else {
          idx := 0;
          consecutiveHighPriority := 0;
        }
      }
      var entry := queue[idx];
      queue := queue[..idx] + queue[idx + 1..];
      granted, released := granted + {entry.id}, released + [entry];
    }
  }
}
