/** Query concurrency slots: counted per client, tagged with the generation of the entry that counts them. */
module InFlightSlots {
  import opened Wrappers

  datatype Entry = Entry(count: nat, updatedAt: int, generation: nat)

  /** What a request holds after acquiring: where its slot is counted and whether it has given it back. */
  datatype Slot = Slot(key: string, generation: nat, released: bool)

  datatype Mode = Shadow | Enforce

  /** Unreleased slots of one generation of one key. */
  function Held(slots: seq<Slot>, key: string, generation: nat): nat
  {
    if slots == [] then 0
    else
      var s := slots[|slots| - 1];
      Held(slots[..|slots| - 1], key, generation)
        + if s.key == key && s.generation == generation && !s.released then 1 else 0
  }

  lemma {:induction false} HeldSnoc(slots: seq<Slot>, s: Slot, key: string, generation: nat)
    ensures Held(slots + [s], key, generation) ==
            Held(slots, key, generation) + if s.key == key && s.generation == generation && !s.released then 1 else 0
  {
    assert (slots + [s])[..|slots|] == slots;
  }

  /** Giving back slot `i` takes one from its own generation and none from another. */
  lemma {:induction false} HeldRelease(slots: seq<Slot>, i: nat, key: string, generation: nat)
    requires i < |slots| && !slots[i].released
    ensures Held(slots, key, generation) ==
            Held(slots[i := slots[i].(released := true)], key, generation)
              + if slots[i].key == key && slots[i].generation == generation then 1 else 0
  {
    var slots' := slots[i := slots[i].(released := true)];
    if i < |slots| - 1 {
      HeldRelease(slots[..|slots| - 1], i, key, generation);
      assert slots'[..|slots'| - 1] == slots[..|slots| - 1][i := slots[i].(released := true)];
    } else {
      assert slots'[..|slots'| - 1] == slots[..|slots| - 1];
    }
  }

  lemma {:induction false} HeldNone(slots: seq<Slot>, key: string, generation: nat)
    requires forall s | s in slots :: s.key != key || s.generation != generation
    ensures Held(slots, key, generation) == 0
  {
    if slots != [] {
      assert slots[|slots| - 1] in slots;
      HeldNone(slots[..|slots| - 1], key, generation);
    }
  }

  type Entries = map<string, Entry>

  /** Each entry counts exactly the unreleased slots of its generation, at least one; later generations are unused. */
  ghost predicate Counts(entries: Entries, slots: seq<Slot>, generationCounter: nat)
  {
    && (forall k | k in entries :: 0 < entries[k].count == Held(slots, k, entries[k].generation))
    && (forall k | k in entries :: entries[k].generation <= generationCounter)
    && (forall s | s in slots :: s.generation <= generationCounter)
  }

  /** A slot joins the cohort of its key, or opens a generation that no slot has. */
  lemma AcquireKeepsCounts(entries: Entries, slots: seq<Slot>, counter: nat, counter': nat, k: string, e: Entry)
    requires Counts(entries, slots, counter)
    requires
      || (k in entries && e.generation == entries[k].generation && e.count == entries[k].count + 1 &&
        counter' == counter)
      || (e.generation == counter' == counter + 1 && e.count == 1)
    ensures Counts(entries[k := e], slots + [Slot(k, e.generation, false)], counter')
  {
    var slot, entries' := Slot(k, e.generation, false), entries[k := e];
    forall q | q in entries' ensures Held(slots + [slot], q, entries'[q].generation) == entries'[q].count {
      HeldSnoc(slots, slot, q, entries'[q].generation);
      if q == k && e.count == 1 {
        HeldNone(slots, k, e.generation);
      }
    }
  }

  /** What giving back slot `i` makes of the entries. */
  function Given(entries: Entries, s: Slot, now: int): Entries
  {
    if s.released || s.key !in entries || entries[s.key].generation != s.generation then entries
    else if entries[s.key].count <= 1 then entries - {s.key}
    else entries[s.key := Entry(entries[s.key].count - 1, now, s.generation)]
  }

  lemma ReleaseKeepsCounts(entries: Entries, slots: seq<Slot>, counter: nat, i: nat, now: int)
    requires Counts(entries, slots, counter) && i < |slots|
    ensures Counts(Given(entries, slots[i], now), slots[i := slots[i].(released := true)], counter)
  {
    var s := slots[i];
    var slots' := slots[i := s.(released := true)];
    if s.released {
      assert slots' == slots;
    } else {
      forall q | q in entries ensures Held(slots, q, entries[q].generation)
          == Held(slots', q, entries[q].generation)
             + if s.key == q && s.generation == entries[q].generation then 1 else 0
      {
        HeldRelease(slots, i, q, entries[q].generation);
      }
    }
  }

  class SlotStore {
    const maxInFlight: string -> nat
    const staleEntryTtlMs: int
    var entries: Entries
    var generationCounter: nat
    /** Every slot handed out so far; a request keeps the index of its own. */
    var slots: seq<Slot>

    ghost predicate Valid()
      reads this
    {
      Counts(entries, slots, generationCounter)
    }

    ghost predicate WithinMaximum()
      reads this
    {
      forall k | k in entries :: entries[k].count <= maxInFlight(k)
    }

    constructor (maxInFlight: string -> nat, staleEntryTtlMs: int)
      ensures Valid() && WithinMaximum() && entries == map[] && slots == []
      ensures this.maxInFlight == maxInFlight && this.staleEntryTtlMs == staleEntryTtlMs
    {
      this.maxInFlight, this.staleEntryTtlMs := maxInFlight, staleEntryTtlMs;
      entries, generationCounter, slots := map[], 0, [];
    }

    predicate Fresh(k: string, now: int)
      reads this
    {
      k in entries && now - entries[k].updatedAt <= staleEntryTtlMs
    }

    /** The slots in flight that a new request of `k` sees. */
    function Current(k: string, now: int): nat
      reads this
    {
      if Fresh(k, now) then entries[k].count else 0
    }

    /** A request is turned away only by a full fresh cohort in enforce mode. Other keys are not touched. */
    method Acquire(k: string, now: int, mode: Mode)
      returns (limited: bool, shadow: bool, inFlight: nat, slot: Option<nat>)
      requires Valid()
      modifies this`entries, this`generationCounter, this`slots
      ensures Valid() && (mode == Enforce && old(WithinMaximum()) ==> WithinMaximum())
      ensures limited == (mode == Enforce && old(Current(k, now)) >= maxInFlight(k))
      ensures shadow == (mode == Shadow && old(Current(k, now)) >= maxInFlight(k))
      ensures limited ==> slot == None && slots == old(slots) && inFlight == old(Current(k, now))
      ensures !limited ==> slot == Some(|old(slots)|) && k in entries && inFlight == entries[k].count
      ensures !limited ==> slots == old(slots) + [Slot(k, entries[k].generation, false)]
      ensures if k in old(entries) && now <= old(entries)[k].updatedAt + staleEntryTtlMs then
                var e := old(entries)[k];
                && old(Current(k, now)) == e.count && generationCounter == old(generationCounter)
                && entries == (if limited then old(entries)
                               else old(entries)[k := Entry(e.count + 1, now, e.generation)])
              else
                && old(Current(k, now)) == 0
                && generationCounter == old(generationCounter) + (if limited then 0 else 1)
                && entries == (if limited then old(entries) - {k}
                               else old(entries)[k := Entry(1, now, generationCounter)])
    {
      var isFresh, current := Fresh(k, now), Current(k, now);
      ghost var before := entries;
      if k in entries && !isFresh {
        entries := entries - {k};
      }
      var wouldLimit := current >= maxInFlight(k);
      if wouldLimit && mode == Enforce {
        return true, false, current, None;
      }
      var generation;
      ghost var counter := generationCounter;
      if isFresh {
        generation := entries[k].generation;
      } else {
        generationCounter := generationCounter + 1;
        generation := generationCounter;
      }
      AcquireKeepsCounts(before, slots, counter, generationCounter, k, Entry(current + 1, now, generation));
      entries := entries[k := Entry(current + 1, now, generation)];
      assert entries == before[k := Entry(current + 1, now, generation)];
      limited, shadow, inFlight, slot := false, mode == Shadow && wouldLimit, current + 1, Some(|slots|);
      slots := slots + [Slot(k, generation, false)];
    }

    /**
     A slot is given back at most once, to the entry of its own generation only: when that entry has been
     evicted, whatever counts the key now stays as it is.
     */
    method Release(i: nat, now: int)
      requires Valid() && i < |slots|
      modifies this`entries, this`slots
      ensures Valid() && (old(WithinMaximum()) ==> WithinMaximum())
      ensures slots == old(slots)[i := old(slots[i]).(released := true)]
      ensures var s := old(slots[i]);
        if !s.released && s.key in old(entries) && old(entries)[s.key].generation == s.generation then
          var left := old(entries)[s.key].count - 1;
          && left >= 0
          && (left == 0 ==> entries == old(entries) - {s.key})
          && (left > 0 ==> entries == old(entries)[s.key := Entry(left, now, s.generation)])
        else entries == old(entries)
    {
      ReleaseKeepsCounts(entries, slots, generationCounter, i, now);
      var s := slots[i];
      if s.released {
        return;
      }
      slots := slots[i := s.(released := true)];
      if s.key !in entries || entries[s.key].generation != s.generation {
        return;
      }
      var next := entries[s.key].count - 1;
      if next <= 0 {
        entries := entries - {s.key};
      } else {
        entries := entries[s.key := Entry(next, now, s.generation)];
      }
    }

    /** The cleanup timer drops entries by age alone: no entry is ever empty. The slots stay with their requests. */
    method Cleanup(now: int)
      requires Valid()
      modifies this`entries
      ensures Valid() && (old(WithinMaximum()) ==> WithinMaximum())
      ensures entries ==
              map k | k in old(entries) && now - old(entries)[k].updatedAt <= staleEntryTtlMs :: old(entries)[k]
    {
      entries :=
        map k | k in entries && !(entries[k].count <= 0 || now - entries[k].updatedAt > staleEntryTtlMs) :: entries[k];
    }
  }
}
