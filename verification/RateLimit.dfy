/** The weighted sliding window of the rate limiter, its cleanup, and what it admits over whole runs. */
module RateLimit {
  import opened Wrappers

  datatype Category = Auth | Read | Query | Write | Monitoring

  /** The key of a client also tells its tier. */
  datatype Client = Anonymous(ip: string) | Jwt(user: string) | ApiKey(id: string)

  datatype BucketKey = BucketKey(client: Client, category: Category)

  datatype Bucket = Bucket(currentCost: real, previousCost: real, windowStart: int)

  type Store = map<BucketKey, Bucket>

  datatype Mode = Shadow | Enforce

  datatype Config = Config(windowMs: Category -> int, maxRequests: Category -> int, multiplier: Client -> real)
  {
    ghost predicate Valid()
    {
      forall c :: windowMs(c) > 0
    }

    /** The configured maximum times the client's multiplier, rounded down, but at least 1. */
    function Limit(k: BucketKey): (limit: int)
      ensures limit >= 1
      ensures var scaled := maxRequests(k.category) as real * multiplier(k.client);
        if scaled < 1.0 then limit == 1 else limit as real <= scaled < (limit + 1) as real
    {
      var scaled := (maxRequests(k.category) as real * multiplier(k.client)).Floor;
      if scaled < 1 then 1 else scaled
    }

    function Window(k: BucketKey): int
    {
      windowMs(k.category)
    }
  }

  /** The limiter's answer before the mode decides whether it blocks. */
  datatype Verdict = Verdict(wouldLimit: bool, limit: int, used: real, remaining: int)

  datatype Result = Result(verdict: Verdict, limited: bool, shadow: bool)

  /** Shift the window forward to `now`: by one window, or afresh after two idle ones. */
  function Roll(b: Bucket, now: int, windowMs: int): Bucket
  {
    var elapsed := now - b.windowStart;
    if elapsed >= windowMs * 2 then Bucket(0.0, 0.0, now)
    else if elapsed >= windowMs then Bucket(0.0, b.currentCost, b.windowStart + windowMs)
    else b
  }

  function ElapsedFraction(b: Bucket, now: int, windowMs: int): (f: real)
    requires windowMs > 0
    ensures 0.0 <= f <= 1.0
  {
    var f := (now - b.windowStart) as real / windowMs as real;
    if f < 0.0 then 0.0 else if f > 1.0 then 1.0 else f
  }

  function EffectiveCost(b: Bucket, now: int, windowMs: int): real
    requires windowMs > 0
  {
    b.previousCost * (1.0 - ElapsedFraction(b, now, windowMs)) + b.currentCost
  }

  function BucketAt(store: Store, k: BucketKey, now: int): Bucket
  {
    if k in store then store[k] else Bucket(0.0, 0.0, now)
  }

  function Max(a: int, b: int): int
  {
    if a > b then a else b
  }

  function Judge(b: Bucket, now: int, windowMs: int, limit: int, cost: real): Verdict
    requires windowMs > 0
  {
    var effective := EffectiveCost(b, now, windowMs);
    var wouldLimit := effective + cost > limit as real;
    var used := if wouldLimit then effective else effective + cost;
    Verdict(wouldLimit, limit, used, Max(0, (limit as real - used).Floor))
  }

  /** The bucket after a request: rolled, and charged only if the request fits. */
  function Charge(b: Bucket, verdict: Verdict, cost: real): Bucket
  {
    if verdict.wouldLimit then b else b.(currentCost := b.currentCost + cost)
  }

  /** Stale enough for the cleanup timer to drop. */
  predicate Stale(b: Bucket, now: int, windowMs: int)
  {
    now - b.windowStart > windowMs * 2
  }

  class RateLimiter {
    const cfg: Config
    var store: Store

    constructor (cfg: Config)
      ensures this.cfg == cfg && store == map[]
    {
      this.cfg := cfg;
      store := map[];
    }

    /** Neither the verdict nor the stored bucket depends on the mode. */
    method CheckRateLimit(k: BucketKey, cost: real, now: int, mode: Mode) returns (r: Result)
      requires cfg.Valid()
      modifies this
      ensures Step(cfg, old(store), Check(k, cost, now)) == (store, Some(r.verdict))
      ensures r.limited == (mode == Enforce && r.verdict.wouldLimit)
      ensures r.shadow == (mode == Shadow && r.verdict.wouldLimit)
    {
      var windowMs, limit := cfg.windowMs(k.category), cfg.Limit(k);
      if k !in store {
        store := store[k := Bucket(0.0, 0.0, now)];
      }
      var bucket := store[k];
      var elapsed := now - bucket.windowStart;
      if elapsed >= windowMs * 2 {
        bucket := bucket.(previousCost := 0.0, currentCost := 0.0, windowStart := now);
      } else if elapsed >= windowMs {
        bucket := bucket.(previousCost := bucket.currentCost, currentCost := 0.0,
                          windowStart := bucket.windowStart + windowMs);
      }
      assert bucket == Roll(BucketAt(old(store), k, now), now, windowMs);
      var verdict := Judge(bucket, now, windowMs, limit, cost);
      if !verdict.wouldLimit {
        bucket := bucket.(currentCost := bucket.currentCost + cost);
      }
      store := store[k := bucket];
      assert store == old(store)[k := bucket];
      r := Result(verdict, mode == Enforce && verdict.wouldLimit, mode == Shadow && verdict.wouldLimit);
    }

    /** Drops exactly the buckets idle for more than two windows. */
    method Cleanup(now: int)
      requires cfg.Valid()
      modifies this
      ensures store == Step(cfg, old(store), CleanupAt(now)).0
      ensures forall k :: k in store <==>
                (k in old(store) && now - old(store)[k].windowStart <= 2 * cfg.windowMs(k.category))
      ensures forall k | k in store :: store[k] == old(store)[k]
    {
      var keys := store.Keys;
      while keys != {}
        invariant keys <= old(store).Keys
        invariant store ==
                  map k | k in old(store) && (k in keys || !Stale(old(store)[k], now, cfg.Window(k))) :: old(store)[k]
        decreases keys
      {
        var k :| k in keys;
        if Stale(store[k], now, cfg.windowMs(k.category)) {
          store := store - {k};
        }
        keys := keys - {k};
      }
    }
  }

  // ---------------------------------------------------------------------- runs

  datatype Event = Check(key: BucketKey, cost: real, now: int) | CleanupAt(now: int)

  function Step(cfg: Config, store: Store, e: Event): (Store, Option<Verdict>)
    requires cfg.Valid()
  {
    match e
    case Check(k, cost, now) =>
      var b := Roll(BucketAt(store, k, now), now, cfg.Window(k));
      var verdict := Judge(b, now, cfg.Window(k), cfg.Limit(k), cost);
      (store[k := Charge(b, verdict, cost)], Some(verdict))
    case CleanupAt(now) =>
      (map k | k in store && !Stale(store[k], now, cfg.Window(k)) :: store[k], None)
  }

  /** The clock never steps back, from `clock` on. */
  ghost predicate Monotone(es: seq<Event>, clock: int)
  {
    es == [] || (clock <= es[0].now && Monotone(es[1..], es[0].now))
  }

  /** The verdicts of a run, in order. */
  function Verdicts(cfg: Config, store: Store, es: seq<Event>): seq<Verdict>
    requires cfg.Valid()
    decreases |es|
  {
    if es == [] then []
    else
      var (store', v) := Step(cfg, store, es[0]);
      if v.Some? then [v.value] + Verdicts(cfg, store', es[1..]) else Verdicts(cfg, store', es[1..])
  }

  function ChecksOnly(es: seq<Event>): seq<Event>
  {
    if es == [] then []
    else if es[0].Check? then [es[0]] + ChecksOnly(es[1..])
    else ChecksOnly(es[1..])
  }

  /** `cleaned` is `full` without some buckets that are stale by `clock`. */
  ghost predicate Cleaned(cfg: Config, cleaned: Store, full: Store, clock: int)
  {
    && (forall k | k in cleaned :: k in full && cleaned[k] == full[k])
    && (forall k | k in full && k !in cleaned :: Stale(full[k], clock, cfg.Window(k)))
  }

  /** A stale bucket is rolled into the same fresh one that a dropped bucket is replaced with. */
  lemma RollForgetsStale(cfg: Config, cleaned: Store, full: Store, clock: int, k: BucketKey, now: int)
    requires cfg.Valid() && Cleaned(cfg, cleaned, full, clock) && clock <= now
    ensures Roll(BucketAt(cleaned, k, now), now, cfg.Window(k)) == Roll(BucketAt(full, k, now), now, cfg.Window(k))
  {
  }

  /** Cleanups inserted at any times change no verdict. */
  lemma {:induction false} CleanupIsUnobservable(cfg: Config, cleaned: Store, full: Store, es: seq<Event>, clock: int)
    requires cfg.Valid() && Cleaned(cfg, cleaned, full, clock) && Monotone(es, clock)
    ensures Verdicts(cfg, cleaned, es) == Verdicts(cfg, full, ChecksOnly(es))
    decreases |es|
  {
    if es != [] {
      var e := es[0];
      var cleaned' := Step(cfg, cleaned, e).0;
      match e
      case Check(k, cost, now) =>
        RollForgetsStale(cfg, cleaned, full, clock, k, now);
        CleanupIsUnobservable(cfg, cleaned', Step(cfg, full, e).0, es[1..], now);
        assert ChecksOnly(es)[0] == e && ChecksOnly(es)[1..] == ChecksOnly(es[1..]);
      case CleanupAt(now) =>
        CleanupIsUnobservable(cfg, cleaned', full, es[1..], now);
    }
  }

  // ------------------------------------------------------- what a run admits

  /** A request let through: when, at what cost, and the start of the window it was charged to. */
  datatype Admission = Admission(now: int, cost: real, window: int)

  /** The store after a run from nothing, and what the run admitted for one bucket. */
  datatype History = History(store: Store, admitted: seq<Admission>)

  function After(cfg: Config, k: BucketKey, es: seq<Event>): History
    requires cfg.Valid()
  {
    if es == [] then History(map[], [])
    else Extend(cfg, k, After(cfg, k, es[..|es| - 1]), es[|es| - 1])
  }

  function Extend(cfg: Config, k: BucketKey, h: History, e: Event): History
    requires cfg.Valid()
  {
    var (store, v) := Step(cfg, h.store, e);
    History(store, if e.Check? && e.key == k && !v.value.wouldLimit
                   then h.admitted + [Admission(e.now, e.cost, store[k].windowStart)] else h.admitted)
  }

  function CostIn(admitted: seq<Admission>, from: int, to: int): real
  {
    if admitted == [] then 0.0
    else
      var a := admitted[|admitted| - 1];
      CostIn(admitted[..|admitted| - 1], from, to) + if from <= a.now <= to then a.cost else 0.0
  }

  function CostOfWindow(admitted: seq<Admission>, window: int): real
  {
    if admitted == [] then 0.0
    else
      var a := admitted[|admitted| - 1];
      CostOfWindow(admitted[..|admitted| - 1], window) + if a.window == window then a.cost else 0.0
  }

  /** The requests of a run: times never step back and costs are not negative. */
  ghost predicate Ordered(es: seq<Event>)
  {
    && (forall i, j | 0 <= i < j < |es| :: es[i].now <= es[j].now)
    && (forall e | e in es && e.Check? :: e.cost >= 0.0)
  }

  /** Windows charged to are disjoint, each holds the times charged to it, and none is charged over the limit. */
  ghost predicate Bounded(admitted: seq<Admission>, windowMs: int, limit: int, clock: int)
  {
    && (forall a | a in admitted :: a.window <= a.now < a.window + windowMs && a.now <= clock && a.cost >= 0.0)
    && (forall a, b | a in admitted && b in admitted ::
          a.window == b.window || a.window + windowMs <= b.window || b.window + windowMs <= a.window)
    && (forall w :: CostOfWindow(admitted, w) <= limit as real)
  }

  /** The stored bucket continues the run's last window. */
  ghost predicate Tracks(b: Bucket, admitted: seq<Admission>, windowMs: int, clock: int)
  {
    && b.windowStart <= clock
    && b.currentCost >= 0.0 && b.previousCost >= 0.0
    && b.currentCost == CostOfWindow(admitted, b.windowStart)
    && b.previousCost == CostOfWindow(admitted, b.windowStart - windowMs)
    && (forall a | a in admitted :: a.window == b.windowStart || a.window + windowMs <= b.windowStart)
  }

  ghost predicate HistoryInv(cfg: Config, k: BucketKey, h: History, clock: int)
  {
    && Bounded(h.admitted, cfg.Window(k), cfg.Limit(k), clock)
    && (k in h.store ==> Tracks(h.store[k], h.admitted, cfg.Window(k), clock))
    && (k !in h.store ==> forall a | a in h.admitted :: a.window + 2 * cfg.Window(k) <= clock)
  }

  lemma {:induction false} EmptyWindow(admitted: seq<Admission>, w: int)
    requires forall a | a in admitted :: a.window != w
    ensures CostOfWindow(admitted, w) == 0.0
  {
    if admitted != [] {
      assert admitted[|admitted| - 1] in admitted;
      EmptyWindow(admitted[..|admitted| - 1], w);
    }
  }

  lemma RollTracks(b: Bucket, admitted: seq<Admission>, windowMs: int, clock: int, now: int)
    requires windowMs > 0 && Tracks(b, admitted, windowMs, clock) && clock <= now
    ensures Tracks(Roll(b, now, windowMs), admitted, windowMs, now)
    ensures now < Roll(b, now, windowMs).windowStart + windowMs
  {
    var w := Roll(b, now, windowMs).windowStart;
    if w != b.windowStart {
      EmptyWindow(admitted, w);
    }
    if now >= b.windowStart + 2 * windowMs {
      EmptyWindow(admitted, now - windowMs);
    }
  }

  lemma FreshTracks(admitted: seq<Admission>, windowMs: int, clock: int, now: int)
    requires windowMs > 0 && clock <= now && forall a | a in admitted :: a.window + 2 * windowMs <= clock
    ensures Tracks(Bucket(0.0, 0.0, now), admitted, windowMs, now)
  {
    EmptyWindow(admitted, now);
    EmptyWindow(admitted, now - windowMs);
  }

  lemma WeightNotNegative(p: real, f: real)
    requires p >= 0.0 && f <= 1.0
    ensures p * (1.0 - f) >= 0.0
  {
  }

  /** Every admission keeps the weighted cost within the limit, inside a window that `now` lies in. */
  lemma AdmissionWithinLimit(b: Bucket, now: int, windowMs: int, limit: int, cost: real)
    requires windowMs > 0 && b.previousCost >= 0.0
    requires !Judge(b, now, windowMs, limit, cost).wouldLimit
    ensures EffectiveCost(Charge(b, Judge(b, now, windowMs, limit, cost), cost), now, windowMs) <= limit as real
    ensures b.currentCost + cost <= limit as real
  {
    WeightNotNegative(b.previousCost, ElapsedFraction(b, now, windowMs));
  }

  /** `remaining` is exact: a next request at once, of any whole cost, is let through exactly when it costs no more. */
  lemma RemainingIsExact(b: Bucket, now: int, windowMs: int, limit: int, cost: real, next: int)
    requires windowMs > 0 && next >= 1
    ensures var v := Judge(b, now, windowMs, limit, cost);
      !Judge(Charge(b, v, cost), now, windowMs, limit, next as real).wouldLimit <==> next <= v.remaining
  {
    var v := Judge(b, now, windowMs, limit, cost);
    assert EffectiveCost(Charge(b, v, cost), now, windowMs) == v.used;
    FloorIsExact(limit as real - v.used, next);
  }

  lemma FloorIsExact(x: real, n: int)
    ensures n as real <= x <==> n <= x.Floor
  {
  }

  lemma CostOfWindowSnoc(admitted: seq<Admission>, a: Admission, w: int)
    ensures CostOfWindow(admitted + [a], w) == CostOfWindow(admitted, w) + if a.window == w then a.cost else 0.0
  {
    assert (admitted + [a])[..|admitted|] == admitted;
  }

  /** One request on the bucket it is charged to. */
  lemma ChargeKeepsBounded(b: Bucket, admitted: seq<Admission>, now: int, windowMs: int, limit: int, cost: real)
    requires windowMs > 0 && cost >= 0.0 && Bounded(admitted, windowMs, limit, now)
    requires Tracks(b, admitted, windowMs, now) && now < b.windowStart + windowMs
    requires b.currentCost + cost <= limit as real
    ensures var admitted' := admitted + [Admission(now, cost, b.windowStart)];
      && Bounded(admitted', windowMs, limit, now)
      && Tracks(b.(currentCost := b.currentCost + cost), admitted', windowMs, now)
  {
    var a := Admission(now, cost, b.windowStart);
    forall w ensures CostOfWindow(admitted + [a], w) <= limit as real {
      CostOfWindowSnoc(admitted, a, w);
    }
    CostOfWindowSnoc(admitted, a, b.windowStart);
    CostOfWindowSnoc(admitted, a, b.windowStart - windowMs);
  }

  /** The history after a request that found bucket `b`, admitted or not. */
  function Recorded(k: BucketKey, h: History, b: Bucket, cost: real, now: int, admit: bool): History
  {
    if admit then
      History(h.store[k := b.(currentCost := b.currentCost + cost)], h.admitted + [Admission(now, cost, b.windowStart)])
    else History(h.store[k := b], h.admitted)
  }

  lemma RecordedKeepsInv(cfg: Config, k: BucketKey, h: History, b: Bucket, clock: int, cost: real, now: int,
                         admit: bool)
    requires cfg.Valid() && HistoryInv(cfg, k, h, clock) && clock <= now && cost >= 0.0
    requires Tracks(b, h.admitted, cfg.Window(k), now) && now < b.windowStart + cfg.Window(k)
    requires admit ==> b.currentCost + cost <= cfg.Limit(k) as real
    ensures HistoryInv(cfg, k, Recorded(k, h, b, cost, now, admit), now)
  {
    if admit {
      ChargeKeepsBounded(b, h.admitted, now, cfg.Window(k), cfg.Limit(k), cost);
    }
  }

  /** The bucket a request finds continues the run's last window, and the request falls into that window. */
  lemma RolledTracks(cfg: Config, k: BucketKey, h: History, clock: int, now: int)
    requires cfg.Valid() && HistoryInv(cfg, k, h, clock) && clock <= now
    ensures var b := Roll(BucketAt(h.store, k, now), now, cfg.Window(k));
      Tracks(b, h.admitted, cfg.Window(k), now) && now < b.windowStart + cfg.Window(k)
  {
    if k in h.store {
      RollTracks(h.store[k], h.admitted, cfg.Window(k), clock, now);
    } else {
      FreshTracks(h.admitted, cfg.Window(k), clock, now);
    }
  }

  lemma ExtendRecords(cfg: Config, k: BucketKey, h: History, cost: real, now: int)
    requires cfg.Valid()
    ensures var b := Roll(BucketAt(h.store, k, now), now, cfg.Window(k));
      Extend(cfg, k, h, Check(k, cost, now))
      == Recorded(k, h, b, cost, now, !Judge(b, now, cfg.Window(k), cfg.Limit(k), cost).wouldLimit)
  {
  }

  lemma CheckKeepsInv(cfg: Config, k: BucketKey, h: History, clock: int, cost: real, now: int)
    requires cfg.Valid() && HistoryInv(cfg, k, h, clock) && clock <= now && cost >= 0.0
    ensures HistoryInv(cfg, k, Extend(cfg, k, h, Check(k, cost, now)), now)
  {
    RolledTracks(cfg, k, h, clock, now);
    var b := Roll(BucketAt(h.store, k, now), now, cfg.Window(k));
    var admit := !Judge(b, now, cfg.Window(k), cfg.Limit(k), cost).wouldLimit;
    if admit {
      AdmissionWithinLimit(b, now, cfg.Window(k), cfg.Limit(k), cost);
    }
    RecordedKeepsInv(cfg, k, h, b, clock, cost, now, admit);
    ExtendRecords(cfg, k, h, cost, now);
  }

  lemma {:induction false} HistoryInvAlways(cfg: Config, k: BucketKey, es: seq<Event>, clock: int)
    requires cfg.Valid() && Ordered(es) && forall e | e in es :: e.now <= clock
    ensures HistoryInv(cfg, k, After(cfg, k, es), clock)
  {
    if es == [] {
      forall w ensures CostOfWindow([], w) <= cfg.Limit(k) as real { }
    } else {
      var front, e := es[..|es| - 1], es[|es| - 1];
      assert e in es;
      forall d | d in front ensures d in es && d.now <= e.now {
        var i :| 0 <= i < |front| && front[i] == d;
        assert es[i] == d;
      }
      HistoryInvAlways(cfg, k, front, e.now);
      if e.Check? && e.key == k {
        CheckKeepsInv(cfg, k, After(cfg, k, front), e.now, e.cost, e.now);
      }
    }
  }

  lemma {:induction false} CostInTwoWindows(admitted: seq<Admission>, from: int, to: int, v: int, w: int)
    requires forall a | a in admitted :: a.cost >= 0.0
    requires forall a | a in admitted && from <= a.now <= to :: a.window == v || a.window == w
    ensures CostOfWindow(admitted, v) >= 0.0 && CostOfWindow(admitted, w) >= 0.0
    ensures CostIn(admitted, from, to) <= CostOfWindow(admitted, v) + CostOfWindow(admitted, w)
  {
    if admitted != [] {
      assert admitted[|admitted| - 1] in admitted;
      CostInTwoWindows(admitted[..|admitted| - 1], from, to, v, w);
    }
  }

  /** An interval no longer than a window meets at most two of the windows a run charges to. */
  lemma AtMostTwoWindows(admitted: seq<Admission>, windowMs: int, limit: int, clock: int, from: int)
    returns (v: int, w: int)
    requires windowMs > 0 && Bounded(admitted, windowMs, limit, clock)
    ensures forall a | a in admitted && from <= a.now <= from + windowMs :: a.window == v || a.window == w
  {
    v, w := 0, 0;
    if a :| a in admitted && from <= a.now <= from + windowMs {
      v, w := a.window, a.window;
      if b :| b in admitted && from <= b.now <= from + windowMs && b.window != v {
        w := b.window;
      }
    }
  }

  /**
   Over any run with a clock that never steps back, whatever cleanups it contains, the cost admitted for one
   bucket in any interval as long as its window is at most twice the limit.
   */
  lemma AdmittedAtMostTwiceLimit(cfg: Config, k: BucketKey, es: seq<Event>, from: int)
    requires cfg.Valid() && Ordered(es)
    ensures CostIn(After(cfg, k, es).admitted, from, from + cfg.Window(k)) <= 2.0 * cfg.Limit(k) as real
  {
    var clock := if es == [] then 0 else es[|es| - 1].now;
    HistoryInvAlways(cfg, k, es, clock);
    var admitted := After(cfg, k, es).admitted;
    var v, w := AtMostTwoWindows(admitted, cfg.Window(k), cfg.Limit(k), clock, from);
    CostInTwoWindows(admitted, from, from + cfg.Window(k), v, w);
  }

  lemma OrderedFront(es: seq<Event>, e: Event)
    requires Ordered(es + [e])
    ensures Ordered(es) && forall d | d in es :: d.now <= e.now
  {
    var all := es + [e];
    forall d | d in es ensures d.now <= e.now && d in all {
      var i :| 0 <= i < |es| && es[i] == d;
      assert all[i] == d && all[|es|] == e;
    }
    forall i, j | 0 <= i < j < |es| ensures es[i].now <= es[j].now {
      assert all[i] == es[i] && all[j] == es[j];
    }
  }

  /** The window a request is judged in: the stored one, the one right after it, or one of its own. */
  function WindowAt(store: Store, k: BucketKey, now: int, windowMs: int): int
  {
    if k !in store || now >= store[k].windowStart + 2 * windowMs then now
    else if now >= store[k].windowStart + windowMs then store[k].windowStart + windowMs
    else store[k].windowStart
  }

  /**
   All that was admitted in the window that starts at `w`, and what was admitted in the one before, weighted with the
   part of it that a window ending at `now` still covers.
   */
  function Weighted(admitted: seq<Admission>, w: int, now: int, windowMs: int): real
    requires windowMs > 0
  {
    CostOfWindow(admitted, w - windowMs) * (1.0 - (now - w) as real / windowMs as real) + CostOfWindow(admitted, w)
  }

  /**
   The weighted sliding window, on what a run has admitted: a request is over the limit exactly when its own cost and
   the weighted cost of its window and the one before are together more than the limit.
   */
  lemma VerdictIsWeighted(cfg: Config, k: BucketKey, es: seq<Event>, cost: real, now: int)
    requires cfg.Valid() && Ordered(es + [Check(k, cost, now)])
    ensures var h, windowMs := After(cfg, k, es), cfg.windowMs(k.category);
      var (store, v) := Step(cfg, h.store, Check(k, cost, now));
      var w := WindowAt(h.store, k, now, windowMs);
      && w <= now < w + windowMs && k in store && store[k].windowStart == w && v.Some?
      && v.value.limit == cfg.Limit(k)
      && (v.value.wouldLimit <==> Weighted(h.admitted, w, now, windowMs) + cost > cfg.Limit(k) as real)
      && v.value.used == Weighted(h.admitted, w, now, windowMs) + (if v.value.wouldLimit then 0.0 else cost)
  {
    OrderedFront(es, Check(k, cost, now));
    HistoryInvAlways(cfg, k, es, now);
    var h, windowMs := After(cfg, k, es), cfg.Window(k);
    RolledTracks(cfg, k, h, now, now);
    var b := Roll(BucketAt(h.store, k, now), now, windowMs);
    RollMoves(h.store, k, now, windowMs);
    EffectiveIsWeighted(b, h.admitted, now, windowMs);
    JudgeIs(b, now, windowMs, cfg.Limit(k), cost, Weighted(h.admitted, b.windowStart, now, windowMs));
  }

  lemma RollMoves(store: Store, k: BucketKey, now: int, windowMs: int)
    requires windowMs > 0
    ensures Roll(BucketAt(store, k, now), now, windowMs).windowStart == WindowAt(store, k, now, windowMs)
  {
  }

  lemma JudgeIs(b: Bucket, now: int, windowMs: int, limit: int, cost: real, weighted: real)
    requires windowMs > 0 && EffectiveCost(b, now, windowMs) == weighted
    ensures var v := Judge(b, now, windowMs, limit, cost);
      && v.limit == limit && (v.wouldLimit <==> weighted + cost > limit as real)
      && v.used == weighted + (if v.wouldLimit then 0.0 else cost)
  {
  }

  lemma EffectiveIsWeighted(b: Bucket, admitted: seq<Admission>, now: int, windowMs: int)
    requires windowMs > 0 && Tracks(b, admitted, windowMs, now) && now < b.windowStart + windowMs
    ensures EffectiveCost(b, now, windowMs) == Weighted(admitted, b.windowStart, now, windowMs)
  {
    FractionIs(b.windowStart, now, windowMs);
  }

  lemma FractionIs(w: int, now: int, windowMs: int)
    requires windowMs > 0 && w <= now < w + windowMs
    ensures 0.0 <= (now - w) as real / windowMs as real <= 1.0
  {
  }

  /** After any run, a request let through leaves the weighted cost within the limit, and `now` within the window. */
  lemma EveryAdmissionFits(cfg: Config, k: BucketKey, es: seq<Event>, cost: real, now: int)
    requires cfg.Valid() && Ordered(es + [Check(k, cost, now)])
    ensures var (store, v) := Step(cfg, After(cfg, k, es).store, Check(k, cost, now));
      && k in store
      && store[k].windowStart <= now < store[k].windowStart + cfg.Window(k)
      && (!v.value.wouldLimit ==> EffectiveCost(store[k], now, cfg.Window(k)) <= cfg.Limit(k) as real)
  {
    OrderedFront(es, Check(k, cost, now));
    HistoryInvAlways(cfg, k, es, now);
    var h := After(cfg, k, es);
    var windowMs := cfg.Window(k);
    RolledTracks(cfg, k, h, now, now);
    var b := Roll(BucketAt(h.store, k, now), now, windowMs);
    if !Judge(b, now, windowMs, cfg.Limit(k), cost).wouldLimit {
      AdmissionWithinLimit(b, now, windowMs, cfg.Limit(k), cost);
    }
  }
}
