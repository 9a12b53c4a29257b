/**
 The tailer's cache of key columns as a state machine. Handlers of events overlap: one that misses the cache suspends
 while MySQL is asked for the primary key and, when there is none, for a unique one, and caches the answer when it
 resumes.
 */
module DedupKeys {

  type KeyColumns = seq<string>

  /** What MySQL would answer now. */
  datatype Schema = Schema(primary: string -> KeyColumns, unique: string -> KeyColumns)

  function DedupKey(schema: Schema, table: string): KeyColumns
  {
    if schema.primary(table) != [] then schema.primary(table) else schema.unique(table)
  }

  /** How far a suspended lookup has come: what it waits for, or the answer it resumes with. */
  datatype Stage = AskPrimary | AskUnique | Answered(key: KeyColumns)

  datatype Lookup = Lookup(table: string, stage: Stage)

  datatype State = State(cache: map<string, KeyColumns>, lookups: map<nat, Lookup>, nextId: nat)

  /** A delete event; MySQL's next answer to a lookup, or its failure; the handler resuming; a statement event. */
  datatype Event = Delete(table: string) | Answer(id: nat) | Fail(id: nat) | Resume(id: nat) | Query(isDdl: bool)

  predicate Enabled(s: State, e: Event)
  {
    match e
    case Answer(id) => id in s.lookups && !s.lookups[id].stage.Answered?
    case Fail(id) => id in s.lookups && !s.lookups[id].stage.Answered?
    case Resume(id) => id in s.lookups && s.lookups[id].stage.Answered?
    case _ => true
  }

  /** MySQL's next answer to a lookup, given under `schema`. */
  function Told(l: Lookup, schema: Schema): Lookup
  {
    match l.stage
    case AskPrimary =>
      if schema.primary(l.table) != [] then l.(stage := Answered(schema.primary(l.table))) else l.(stage := AskUnique)
    case AskUnique => l.(stage := Answered(schema.unique(l.table)))
    case Answered(_) => l
  }

  function Step(s: State, schema: Schema, e: Event): State
    requires Enabled(s, e)
  {
    match e
    case Delete(table) =>
      if table in s.cache then s
      else s.(lookups := s.lookups[s.nextId := Lookup(table, AskPrimary)], nextId := s.nextId + 1)
    case Answer(id) => s.(lookups := s.lookups[id := Told(s.lookups[id], schema)])
    case Fail(id) => s.(lookups := s.lookups - {id})
    case Resume(id) =>
      s.(cache := s.cache[s.lookups[id].table := s.lookups[id].stage.key], lookups := s.lookups - {id})
    case Query(isDdl) => if isDdl then s.(cache := map[]) else s
  }

  ghost predicate IsRun(s: State, schema: Schema, es: seq<Event>)
    decreases |es|
  {
    es == [] || (Enabled(s, es[0]) && IsRun(Step(s, schema, es[0]), schema, es[1..]))
  }

  function Run(s: State, schema: Schema, es: seq<Event>): State
    requires IsRun(s, schema, es)
    decreases |es|
  {
    if es == [] then s else Run(Step(s, schema, es[0]), schema, es[1..])
  }

  /**
   A delete event of a table that is not cached, while the schema holds still: its handler caches the primary key where
   there is one, after one answer, and otherwise, after two, the unique one.
   */
  lemma LookupCachesKey(s: State, schema: Schema, table: string) returns (es: seq<Event>)
    requires table !in s.cache && s.nextId !in s.lookups
    ensures es == [Delete(table), Answer(s.nextId)] + (if schema.primary(table) == [] then [Answer(s.nextId)] else []) +
                  [Resume(s.nextId)]
    ensures IsRun(s, schema, es)
    ensures var key := if schema.primary(table) == [] then schema.unique(table) else schema.primary(table);
      Run(s, schema, es) == s.(cache := s.cache[table := key], nextId := s.nextId + 1)
  {
    var id := s.nextId;
    var asked := Step(s, schema, Delete(table));
    var told := Step(asked, schema, Answer(id));
    var last, rest := told, [Resume(id)];
    if schema.primary(table) == [] {
      last, rest := Step(told, schema, Answer(id)), [Answer(id), Resume(id)];
      assert rest[1..] == [Resume(id)];
    }
    ResumeCaches(last, schema, id);
    assert Run(told, schema, rest) == Step(last, schema, Resume(id));
    assert ([Answer(id)] + rest)[1..] == rest;
    assert Run(asked, schema, [Answer(id)] + rest) == Run(told, schema, rest);
    es := [Delete(table)] + ([Answer(id)] + rest);
    assert es[1..] == [Answer(id)] + rest;
    assert last.lookups - {id} == s.lookups;
  }

  lemma ResumeCaches(s: State, schema: Schema, id: nat)
    requires Enabled(s, Resume(id))
    ensures IsRun(s, schema, [Resume(id)]) && Run(s, schema, [Resume(id)]) == Step(s, schema, Resume(id))
  {
    var done := Step(s, schema, Resume(id));
    assert IsRun(done, schema, []) && Run(done, schema, []) == done && [Resume(id)][1..] == [];
  }

  /** Every cached key is the table's key under `schema`. */
  ghost predicate Current(s: State, schema: Schema)
  {
    forall table | table in s.cache :: s.cache[table] == DedupKey(schema, table)
  }

  /** A lookup will cache the right key: it has not been told anything that is no longer so. */
  predicate Right(l: Lookup, schema: Schema)
  {
    match l.stage
    case AskPrimary => true
    case AskUnique => schema.unique(l.table) == DedupKey(schema, l.table)
    case Answered(key) => key == DedupKey(schema, l.table)
  }

  ghost predicate AllRight(s: State, schema: Schema)
  {
    forall id | id in s.lookups :: Right(s.lookups[id], schema)
  }

  /** Whatever comes, as long as the schema stays as it is, no wrong key is ever cached. */
  ghost predicate StaysCurrent(s: State, schema: Schema)
  {
    forall es {:trigger IsRun(s, schema, es)} | IsRun(s, schema, es) :: Current(Run(s, schema, es), schema)
  }

  lemma StepKeepsCurrent(s: State, schema: Schema, e: Event)
    requires Current(s, schema) && AllRight(s, schema) && Enabled(s, e)
    ensures Current(Step(s, schema, e), schema) && AllRight(Step(s, schema, e), schema)
  {
  }

  lemma {:induction false} RunKeepsCurrent(s: State, schema: Schema, es: seq<Event>)
    requires Current(s, schema) && AllRight(s, schema) && IsRun(s, schema, es)
    ensures Current(Run(s, schema, es), schema)
    decreases |es|
  {
    if es != [] {
      StepKeepsCurrent(s, schema, es[0]);
      RunKeepsCurrent(Step(s, schema, es[0]), schema, es[1..]);
    }
  }

  /** A lookup told something wrong caches it when it resumes. */
  lemma WrongIsCached(s: State, schema: Schema, id: nat) returns (es: seq<Event>)
    requires id in s.lookups && !Right(s.lookups[id], schema)
    ensures IsRun(s, schema, es) && !Current(Run(s, schema, es), schema)
    decreases if s.lookups[id].stage.Answered? then 0 else 1
  {
    if s.lookups[id].stage.Answered? {
      es := [Resume(id)];
      var t := Step(s, schema, Resume(id));
      assert s.lookups[id].table in t.cache;
      assert IsRun(t, schema, es[1..]) && Run(s, schema, es) == Run(t, schema, es[1..]) == t;
    } else {
      var told := Step(s, schema, Answer(id));
      var rest := WrongIsCached(told, schema, id);
      es := [Answer(id)] + rest;
      assert es[1..] == rest;
    }
  }

  /** A current cache stays current exactly when no lookup in flight has been told what is no longer so. */
  lemma StaysCurrentIff(s: State, schema: Schema)
    requires Current(s, schema)
    ensures StaysCurrent(s, schema) <==> AllRight(s, schema)
  {
    if AllRight(s, schema) {
      forall es | IsRun(s, schema, es) ensures Current(Run(s, schema, es), schema) {
        RunKeepsCurrent(s, schema, es);
      }
    } else {
      var id :| id in s.lookups && !Right(s.lookups[id], schema);
      var es := WrongIsCached(s, schema, id);
    }
  }

  /**
   After a DDL event, which comes when MySQL has the new schema already, the cache is right and stays right,
   however many handlers overlap, exactly when no lookup was in flight with an answer of the old schema that
   the new one changes.
   */
  lemma CurrentAfterDdlIff(s: State, schema: Schema)
    ensures Current(Step(s, schema, Query(true)), schema)
    ensures StaysCurrent(Step(s, schema, Query(true)), schema) <==> AllRight(s, schema)
  {
    StaysCurrentIff(Step(s, schema, Query(true)), schema);
  }

  /** In particular when none was in flight at all. */
  lemma CurrentAfterQuietDdl(s: State, schema: Schema)
    requires s.lookups == map[]
    ensures StaysCurrent(Step(s, schema, Query(true)), schema)
  {
    CurrentAfterDdlIff(s, schema);
  }

  /**
   The run that caches a stale key: a delete misses and is told the old key, the DDL event comes, the delete
   resumes.
   */
  lemma StaleKeyRun(s: State, before: Schema, after: Schema, table: string)
    requires table !in s.cache && before.primary(table) != [] && before.primary(table) != DedupKey(after, table)
    ensures var told := Step(Step(s, before, Delete(table)), before, Answer(s.nextId));
      var t := Step(Step(told, after, Query(true)), after, Resume(s.nextId));
      table in t.cache && t.cache[table] == before.primary(table) && !Current(t, after)
  {
    var told := Step(Step(s, before, Delete(table)), before, Answer(s.nextId));
    assert told.lookups[s.nextId] == Lookup(table, Answered(before.primary(table)));
  }

  /** Every later delete then uses it, until the next DDL event. */
  lemma {:induction false} CachedStays(s: State, schema: Schema, es: seq<Event>, table: string)
    requires table in s.cache && IsRun(s, schema, es) && Query(true) !in es
    requires forall id | id in s.lookups :: s.lookups[id].table != table
    ensures var t := Run(s, schema, es);
      table in t.cache && t.cache[table] == s.cache[table]
    decreases |es|
  {
    if es != [] {
      assert es[0] in es;
      CachedStays(Step(s, schema, es[0]), schema, es[1..], table);
    }
  }
}
