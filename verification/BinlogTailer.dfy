/**
 The binlog tailer: delete events become tombstones, other row events become nudges; handlers overlap at their
 awaits.
 */
module BinlogTailer {
  import opened Nudges
  import opened Wrappers
  import K = DedupKeys

  datatype Value = Null | Text(text: string)

  /** A row of a delete event: the columns it carries. */
  type BinlogRow = map<string, Value>

  predicate HasColumn(row: BinlogRow, column: string)
  {
    column in row && row[column] != Null
  }

  predicate Complete(row: BinlogRow, key: seq<string>)
  {
    forall column | column in key :: HasColumn(row, column)
  }

  function KeyValues(row: BinlogRow, key: seq<string>): map<string, Value>
    requires Complete(row, key)
  {
    map column | column in key :: row[column]
  }

  /** The tombstones of a delete event: one for each row that carries its whole key, in order. */
  function Tombstones(rows: seq<BinlogRow>, key: seq<string>): seq<map<string, Value>>
  {
    if rows == [] then []
    else
      var rest := Tombstones(rows[..|rows| - 1], key);
      var row := rows[|rows| - 1];
      if Complete(row, key) then rest + [KeyValues(row, key)] else rest
  }

  /** What a row's tombstone carries: every key column, none of them null, with the row's own value. */
  lemma KeyValuesAre(row: BinlogRow, key: seq<string>, values: map<string, Value>)
    ensures Complete(row, key) && KeyValues(row, key) == values <==>
            && (forall column | column in key :: column in row && row[column] != Null)
            && (forall column :: column in values <==> column in key)
            && (forall column | column in values && column in row :: values[column] == row[column])
  {
    if Complete(row, key) && KeyValues(row, key) == values {
      assert forall column | column in key :: HasColumn(row, column);
    }
  }

  /** A key is tombstoned exactly when a deleted row carries it whole. */
  lemma {:induction false} TombstonedIff(rows: seq<BinlogRow>, key: seq<string>, values: map<string, Value>)
    ensures values in Tombstones(rows, key) <==>
            exists row | row in rows :: Complete(row, key) && KeyValues(row, key) == values
  {
    if rows != [] {
      var before, row := rows[..|rows| - 1], rows[|rows| - 1];
      TombstonedIff(before, key, values);
      assert rows == before + [row];
    }
  }

  class Tailer {
    var pendingNudges: seq<string>
    var nudgeTimer: bool
    var nudgeInFlight: bool
    /** What the flush in flight still has to sync, the table being synced first. */
    var batch: seq<string>
    ghost var started: seq<string>
    var nudgesTriggered: nat
    var dedupKeyCache: map<string, K.KeyColumns>
    /** The handlers of delete events that wait for introspection, and those that wait for an insert. */
    var lookups: map<nat, K.Lookup>
    var nextLookup: nat
    var inserting: map<nat, seq<map<string, Value>>>
    var nextInsert: nat
    var tombstonesWritten: nat
    /** What has been inserted, in order. */
    ghost var inserted: seq<map<string, Value>>

    ghost function Nudging(): State
      reads this
    {
      State(pendingNudges, nudgeTimer, nudgeInFlight, batch, started)
    }

    ghost function Keys(): K.State
      reads this
    {
      K.State(dedupKeyCache, lookups, nextLookup)
    }

    ghost predicate Valid()
      reads this
    {
      tombstonesWritten == |inserted| && forall id | id in inserting :: id < nextInsert && inserting[id] != []
    }

    constructor ()
      ensures Valid() && Nudging() == Init && Keys() == K.State(map[], map[], 0) && inserting == map[]
      ensures tombstonesWritten == nudgesTriggered == 0
    {
      pendingNudges, nudgeTimer, nudgeInFlight, batch, started := [], false, false, [], [];
      dedupKeyCache, lookups, nextLookup := map[], map[], 0;
      inserting, nextInsert, inserted := map[], 0, [];
      tombstonesWritten, nudgesTriggered := 0, 0;
    }

    /** A write or update event of `table`. */
    method QueueNudge(table: string)
      modifies this`pendingNudges, this`nudgeTimer
      ensures Nudging() == Step(old(Nudging()), Queue(table))
    {
      if table !in pendingNudges {
        pendingNudges := pendingNudges + [table];
      }
      if nudgeTimer || nudgeInFlight {
        return;
      }
      nudgeTimer := true;
    }

    /** The head of the flush's loop. */
    method TakePending()
      requires nudgeInFlight
      modifies this`pendingNudges, this`nudgeInFlight, this`batch, this`started
      ensures Nudging() == TakeBatch(old(Nudging()))
    {
      batch := pendingNudges;
      pendingNudges := [];
      if batch == [] {
        nudgeInFlight := false;
      } else {
        started := started + [batch[0]];
      }
    }

    /** The debounce timer fires: a flush starts, up to the first sync. */
    method OnNudgeTimer()
      requires nudgeTimer
      modifies this`pendingNudges, this`nudgeTimer, this`nudgeInFlight, this`batch, this`started
      ensures Nudging() == Step(old(Nudging()), Fire)
    {
      nudgeTimer := false;
      if nudgeInFlight {
        return;
      }
      nudgeInFlight := true;
      TakePending();
    }

    /** The sync of the first table of the batch settles: the flush goes on to the next sync, or ends. */
    method OnSyncSettled(succeeded: bool)
      requires Sound(Nudging()) && nudgeInFlight
      modifies this`pendingNudges, this`nudgeInFlight, this`batch, this`started, this`nudgesTriggered
      ensures Nudging() == Step(old(Nudging()), Settle)
      ensures nudgesTriggered == old(nudgesTriggered) + if succeeded then 1 else 0
    {
      if succeeded {
        nudgesTriggered := nudgesTriggered + 1;
      }
      batch := batch[1..];
      if batch == [] {
        TakePending();
      } else {
        started := started + [batch[0]];
      }
    }

    method StopNudging()
      modifies this`nudgeTimer
      ensures Nudging() == Step(old(Nudging()), Stop)
    {
      if nudgeTimer {
        nudgeTimer := false;
      }
    }

    /** A statement event: one that may change the schema empties the cache, but not the lookups in flight. */
    method OnQuery(isDdl: bool, ghost schema: K.Schema)
      modifies this`dedupKeyCache
      ensures Keys() == K.Step(old(Keys()), schema, K.Query(isDdl))
    {
      if isDdl {
        dedupKeyCache := map[];
      }
    }

    /** A delete event up to its first suspension: the cached key, or a lookup that its handler waits for. */
    method BeginDelete(table: string, rows: seq<BinlogRow>, ghost schema: K.Schema)
      returns (key: Option<K.KeyColumns>, lookup: Option<nat>)
      modifies this`lookups, this`nextLookup
      ensures rows == [] ==> Keys() == old(Keys()) && key == None && lookup == None
      ensures rows != [] ==>
                && Keys() == K.Step(old(Keys()), schema, K.Delete(table))
                && key == (if table in dedupKeyCache then Some(dedupKeyCache[table]) else None)
                && lookup == if table in dedupKeyCache then None else Some(old(nextLookup))
    {
      key, lookup := None, None;
      if rows == [] {
        return;
      }
      if table in dedupKeyCache {
        return Some(dedupKeyCache[table]), None;
      }
      lookup := Some(nextLookup);
      lookups := lookups[nextLookup := K.Lookup(table, K.AskPrimary)];
      nextLookup := nextLookup + 1;
    }

    /** MySQL answers a lookup: with the primary key, or, asked again when there is none, with a unique one. */
    method OnAnswer(id: nat, schema: K.Schema)
      requires K.Enabled(Keys(), K.Answer(id))
      modifies this`lookups
      ensures Keys() == K.Step(old(Keys()), schema, K.Answer(id))
    {
      var table := lookups[id].table;
      if lookups[id].stage == K.AskPrimary {
        var primary := schema.primary(table);
        lookups := lookups[id := K.Lookup(table, if |primary| > 0 then K.Answered(primary) else K.AskUnique)];
      } else {
        lookups := lookups[id := K.Lookup(table, K.Answered(schema.unique(table)))];
      }
    }

    /** MySQL fails to answer: the handler ends, and its event's tombstones are lost. */
    method OnLookupFailed(id: nat, ghost schema: K.Schema)
      requires K.Enabled(Keys(), K.Fail(id))
      modifies this`lookups
      ensures Keys() == K.Step(old(Keys()), schema, K.Fail(id))
    {
      lookups := lookups - {id};
    }

    /** The handler resumes with the answer and caches it, whatever has happened meanwhile. */
    method ResumeDelete(id: nat, ghost schema: K.Schema) returns (key: K.KeyColumns)
      requires K.Enabled(Keys(), K.Resume(id))
      modifies this`dedupKeyCache, this`lookups
      ensures Keys() == K.Step(old(Keys()), schema, K.Resume(id)) && key == old(lookups)[id].stage.key
    {
      var l := lookups[id];
      key := l.stage.key;
      dedupKeyCache := dedupKeyCache[l.table := key];
      lookups := lookups - {id};
    }

    /** A delete event once its key is known, up to its insert. */
    method WriteTombstones(rows: seq<BinlogRow>, key: K.KeyColumns) returns (insert: Option<nat>)
      requires Valid()
      modifies this`inserting, this`nextInsert
      ensures Valid()
      ensures var tombstones := if key == [] then [] else Tombstones(rows, key);
        && (tombstones == [] ==> insert == None && inserting == old(inserting))
        && (tombstones != [] ==>
              insert == Some(old(nextInsert)) && inserting == old(inserting)[old(nextInsert) := tombstones])
    {
      if key == [] {
        return None;
      }
      var tombstones := [];
      for i := 0 to |rows|
        modifies {}
        invariant tombstones == Tombstones(rows[..i], key)
      {
        var complete, values := CopyKey(rows[i], key);
        if complete {
          tombstones := tombstones + [values];
        }
        assert rows[..i + 1][..i] == rows[..i];
      }
      assert rows[..|rows|] == rows;
      if tombstones == [] {
        return None;
      }
      insert := Some(nextInsert);
      inserting := inserting[nextInsert := tombstones];
      nextInsert := nextInsert + 1;
    }

    /**
     The insert settles: its tombstones are written, all of them, or lost when it failed. Inserts may overtake each
     other.
     */
    method OnInserted(id: nat, succeeded: bool)
      requires Valid() && id in inserting
      modifies this`inserting, this`tombstonesWritten, this`inserted
      ensures Valid() && inserting == old(inserting) - {id}
      ensures inserted == old(inserted) + if succeeded then old(inserting)[id] else []
    {
      if succeeded {
        tombstonesWritten := tombstonesWritten + |inserting[id]|;
        inserted := inserted + inserting[id];
      } else {
        assert inserted + [] == inserted;
      }
      inserting := inserting - {id};
    }

    static method CopyKey(row: BinlogRow, key: seq<string>) returns (complete: bool, values: map<string, Value>)
      ensures complete <==> Complete(row, key)
      ensures complete ==> values == KeyValues(row, key)
    {
      complete, values := true, map[];
      for j := 0 to |key|
        invariant Complete(row, key[..j]) && values == KeyValues(row, key[..j])
      {
        assert key[j] in key && key[..j + 1] == key[..j] + [key[j]];
        if key[j] !in row || row[key[j]] == Null {
          return false, values;
        }
        values := values[key[j] := row[key[j]]];
      }
      assert key[..|key|] == key;
    }
  }
}
