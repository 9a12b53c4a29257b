/** Per-database API keys: the records, the index by hash that answers requests, and how the two stay together. */
module ApiKeyIndex {
  import opened Wrappers
  import opened Decimal

  datatype Key = Key(id: nat, hash: nat, enabled: bool, expiresAt: Option<int>)

  datatype Ref = Ref(database: string, keyId: nat)

  type Databases = map<string, seq<Key>>

  predicate Usable(k: Key, now: int)
  {
    k.enabled && (k.expiresAt.Some? ==> k.expiresAt.value > now)
  }

  /** What a scan of all records for a usable one with that hash finds. */
  ghost predicate Matches(dbs: Databases, hash: nat, now: int, d: string, k: Key)
  {
    d in dbs && k in dbs[d] && k.hash == hash && Usable(k, now)
  }

  /** The index of the first record with that id, or the number of records. */
  function Position(keys: seq<Key>, id: nat): (i: nat)
    ensures i <= |keys|
    ensures i < |keys| ==> keys[i].id == id
    ensures forall j | 0 <= j < i :: keys[j].id != id
  {
    if keys == [] || keys[0].id == id then 0 else 1 + Position(keys[1..], id)
  }

  function Without(keys: seq<Key>, id: nat): (rest: seq<Key>)
    ensures forall k :: k in rest <==> k in keys && k.id != id
    ensures DistinctIds(keys) ==> DistinctIds(rest)
  {
    if keys == [] then []
    else
      var rest := Without(keys[1..], id);
      if keys[0].id == id then rest else [keys[0]] + rest
  }

  predicate DistinctIds(keys: seq<Key>)
  {
    forall i, j | 0 <= i < j < |keys| :: keys[i].id != keys[j].id
  }

  function Lookup(dbs: Databases, index: map<nat, Ref>, hash: nat, now: int): Option<(string, Key)>
  {
    if hash !in index || index[hash].database !in dbs then None
    else
      var d := index[hash].database;
      var i := Position(dbs[d], index[hash].keyId);
      if i < |dbs[d]| && Usable(dbs[d][i], now) then Some((d, dbs[d][i])) else None
  }

  // ------------------------------------------------------------------- invariants

  /** Every key ever made, by its id: for which database, with which hash. Ids and hashes are never made twice. */
  type Minted = map<nat, (string, nat)>

  ghost predicate Unrepeated(minted: Minted)
  {
    forall i, j | i in minted && j in minted && minted[i].1 == minted[j].1 :: i == j
  }

  /** A database's records are keys made for it, each at most once. */
  ghost predicate Fits(minted: Minted, d: string, keys: seq<Key>)
  {
    DistinctIds(keys) && forall k | k in keys :: k.id in minted && minted[k.id] == (d, k.hash)
  }

  ghost predicate RecordsFit(minted: Minted, dbs: Databases)
  {
    forall d | d in dbs :: Fits(minted, d, dbs[d])
  }

  /** The index refers to keys that were made, under their own hashes, though perhaps not to ones that still exist. */
  ghost predicate IndexFits(minted: Minted, index: map<nat, Ref>)
  {
    forall h | h in index :: index[h].keyId in minted && minted[index[h].keyId] == (index[h].database, h)
  }

  /** The index has exactly the records there are. */
  ghost predicate Indexed(dbs: Databases, index: map<nat, Ref>)
  {
    && (forall d, k | d in dbs && k in dbs[d] :: k.hash in index)
    && (forall h | h in index :: Indexes(dbs, h, index[h]))
  }

  ghost predicate Indexes(dbs: Databases, hash: nat, ref: Ref)
  {
    ref.database in dbs && exists k | k in dbs[ref.database] :: k.hash == hash && k.id == ref.keyId
  }

  // ------------------------------------------------------------------ main results

  lemma PositionOf(keys: seq<Key>, k: Key)
    requires DistinctIds(keys) && k in keys
    ensures Position(keys, k.id) < |keys| && keys[Position(keys, k.id)] == k
  {
    var i :| 0 <= i < |keys| && keys[i] == k;
  }

  /** Stale or not, the index finds exactly the usable records with that hash that it knows of, and nothing else. */
  lemma LookupIff(minted: Minted, dbs: Databases, index: map<nat, Ref>, hash: nat, now: int, d: string, k: Key)
    requires Unrepeated(minted) && RecordsFit(minted, dbs) && IndexFits(minted, index)
    ensures Lookup(dbs, index, hash, now) == Some((d, k)) <==> hash in index && Matches(dbs, hash, now, d, k)
  {
    if hash in index && Matches(dbs, hash, now, d, k) {
      assert Fits(minted, d, dbs[d]);
      PositionOf(dbs[d], k);
    }
    if Lookup(dbs, index, hash, now) == Some((d, k)) {
      assert Fits(minted, d, dbs[d]) && k in dbs[d];
    }
  }

  /** With an index in step with the records, a lookup is a linear scan. */
  lemma LookupIsScan(minted: Minted, dbs: Databases, index: map<nat, Ref>, hash: nat, now: int, d: string, k: Key)
    requires Unrepeated(minted) && RecordsFit(minted, dbs) && IndexFits(minted, index) && Indexed(dbs, index)
    ensures Lookup(dbs, index, hash, now) == Some((d, k)) <==> Matches(dbs, hash, now, d, k)
  {
    LookupIff(minted, dbs, index, hash, now, d, k);
  }

  /** What a lookup answers is a key for that hash that is enabled and has not expired: a key expires at its time. */
  lemma LookupIsUsable(minted: Minted, dbs: Databases, index: map<nat, Ref>, hash: nat, now: int)
    requires RecordsFit(minted, dbs) && IndexFits(minted, index)
    ensures var found := Lookup(dbs, index, hash, now);
      found.Some? ==>
        var (d, k) := found.value;
        && d in dbs && k in dbs[d] && k.hash == hash
        && k.enabled && (k.expiresAt == None || now < k.expiresAt.value)
  {
    var found := Lookup(dbs, index, hash, now);
    if found.Some? {
      assert Fits(minted, found.value.0, dbs[found.value.0]);
    }
  }

  /**
   An edit decides on the key's later lookups: what it sets counts, what it does not set counts as before. A key that
   it disables is never found again, one that it enables is found until it expires.
   */
  lemma EditDecides(minted: Minted, dbs: Databases, index: map<nat, Ref>, d: string, i: nat, enabled: Option<bool>,
                    expiresAt: Option<Option<int>>, now: int)
    requires Unrepeated(minted) && RecordsFit(minted, dbs) && IndexFits(minted, index)
    requires d in dbs && i < |dbs[d]| && dbs[d][i].hash in index
    ensures var k := dbs[d][i];
      var k' := Edited(k, enabled, expiresAt);
      var found := Lookup(dbs[d := dbs[d][i := k']], index, k.hash, now);
      && (found == Some((d, k')) || found == None)
      && (found.Some? <==>
            && (enabled == Some(true) || (enabled == None && k.enabled))
            && (match expiresAt
                case Some(None) => true
                case Some(Some(time)) => now < time
                case None => k.expiresAt == None || now < k.expiresAt.value))
  {
    var k := dbs[d][i];
    var k' := Edited(k, enabled, expiresAt);
    var dbs' := dbs[d := dbs[d][i := k']];
    assert Fits(minted, d, dbs[d]) && k in dbs[d];
    assert k' == dbs'[d][i] && Fits(minted, d, dbs'[d]);
    LookupIff(minted, dbs', index, k.hash, now, d, k');
    PositionOf(dbs'[d], k');
  }

  /** A key whose save failed is there for a scan, but is not found. */
  lemma UnsavedKeyIsMissed(minted: Minted, dbs: Databases, index: map<nat, Ref>, d: string, id: nat, hash: nat,
                           now: int)
    requires IndexFits(minted, index) && d in dbs && forall i | i in minted :: minted[i].1 != hash
    ensures var k := Key(id, hash, true, None);
      var dbs' := dbs[d := dbs[d] + [k]];
      Matches(dbs', hash, now, d, k) && Lookup(dbs', index, hash, now) == None
  {
    var k := Key(id, hash, true, None);
    assert k in dbs[d] + [k];
  }

  lemma IndexedFits(minted: Minted, dbs: Databases, index: map<nat, Ref>)
    requires RecordsFit(minted, dbs) && Indexed(dbs, index)
    ensures IndexFits(minted, index)
  {
    forall h | h in index ensures index[h].keyId in minted && minted[index[h].keyId] == (index[h].database, h) {
      assert Indexes(dbs, h, index[h]);
      assert Fits(minted, index[h].database, dbs[index[h].database]);
    }
  }

  /** Making a key with a fresh id and hash leaves everything that was made before as it is. */
  lemma MintKeepsFit(minted: Minted, dbs: Databases, index: map<nat, Ref>, d: string, k: Key)
    requires Unrepeated(minted) && RecordsFit(minted, dbs) && IndexFits(minted, index) && d in dbs
    requires k.id !in minted && forall i | i in minted :: minted[i].1 != k.hash
    ensures var minted' := minted[k.id := (d, k.hash)];
      Unrepeated(minted') && RecordsFit(minted', dbs) && IndexFits(minted', index) && Fits(minted', d, dbs[d] + [k])
  {
    var minted' := minted[k.id := (d, k.hash)];
    forall q | q in dbs ensures Fits(minted', q, dbs[q]) {
      assert Fits(minted, q, dbs[q]);
    }
  }

  // ------------------------------------------------------------------- free names

  function Candidate(base: string, n: nat): string
  {
    if n == 0 then base else base + "_" + Print(n)
  }

  lemma CandidatesDiffer(base: string, m: nat, n: nat)
    requires m != n
    ensures Candidate(base, m) != Candidate(base, n)
  {
    if m > 0 && n > 0 && Candidate(base, m) == Candidate(base, n) {
      var p := |base + "_"|;
      assert Candidate(base, m)[p..] == Print(m) && Candidate(base, n)[p..] == Print(n);
      PrintInjective(m, n);
    } else if m == 0 {
      assert |Candidate(base, n)| > |base|;
    } else if n == 0 {
      assert |Candidate(base, m)| > |base|;
    }
  }

  ghost function Tried(base: string, n: nat): (tried: set<string>)
    ensures forall j | 0 <= j < n :: Candidate(base, j) in tried
  {
    if n == 0 then {} else Tried(base, n - 1) + {Candidate(base, n - 1)}
  }

  lemma {:induction false} TriedIs(base: string, n: nat, m: nat)
    requires n <= m
    ensures Candidate(base, m) !in Tried(base, n) && |Tried(base, n)| == n
    decreases n
  {
    if n > 0 {
      TriedIs(base, n - 1, m);
      TriedIs(base, n - 1, n - 1);
      CandidatesDiffer(base, n - 1, m);
    }
  }

  lemma SubsetIsSmaller(a: set<string>, b: set<string>)
    requires a <= b
    ensures |a| <= |b|
  {
    assert b == a + (b - a);
  }

  class DatabaseConfigManager {
    var databases: Databases
    var apiKeyIndex: map<nat, Ref>
    var lastUsageFlush: int
    ghost var minted: Minted

    ghost predicate Valid()
      reads this
    {
      Unrepeated(minted) && RecordsFit(minted, databases) && IndexFits(minted, apiKeyIndex)
    }

    /** The index is in step with the records, as after every successful save. */
    ghost predicate Current()
      reads this
    {
      Indexed(databases, apiKeyIndex)
    }

    constructor ()
      ensures Valid() && Current() && databases == map[] && minted == map[]
    {
      databases, apiKeyIndex, lastUsageFlush, minted := map[], map[], 0, map[];
    }

    /** The records of `d` entered into the index. */
    static method IndexRecords(index: map<nat, Ref>, d: string, keys: seq<Key>) returns (next: map<nat, Ref>)
      ensures next.Keys == index.Keys + set k | k in keys :: k.hash
      ensures forall h | h in next :: (h in index && next[h] == index[h]) ||
                                      (exists k | k in keys :: k.hash == h && next[h] == Ref(d, k.id))
    {
      next := index;
      for i := 0 to |keys|
        invariant next.Keys == index.Keys + set k | k in keys[..i] :: k.hash
        invariant forall h | h in next :: (h in index && next[h] == index[h]) ||
                                          (exists k | k in keys[..i] :: k.hash == h && next[h] == Ref(d, k.id))
      {
        next := next[keys[i].hash := Ref(d, keys[i].id)];
        assert keys[..i + 1] == keys[..i] + [keys[i]];
      }
      assert keys[..|keys|] == keys;
    }

    method RebuildApiKeyIndex()
      modifies this`apiKeyIndex
      ensures Current()
      ensures Unrepeated(minted) && RecordsFit(minted, databases) ==> Valid()
    {
      var next: map<nat, Ref> := map[];
      var todo := databases.Keys;
      while todo != {}
        invariant todo <= databases.Keys
        invariant forall d, k | d in databases && d !in todo && k in databases[d] :: k.hash in next
        invariant forall h | h in next :: Indexes(databases, h, next[h])
        decreases todo
      {
        var d :| d in todo;
        next := IndexRecords(next, d, databases[d]);
        todo := todo - {d};
      }
      apiKeyIndex := next;
      if RecordsFit(minted, databases) {
        IndexedFits(minted, databases, apiKeyIndex);
      }
    }

    /** Persisting first, then the index: a save that fails leaves the index as it was. */
    method SaveConfig(writes: bool) returns (saved: bool)
      modifies this`apiKeyIndex
      ensures old(Valid()) ==> Valid()
      ensures saved == writes
      ensures if saved then Current() else apiKeyIndex == old(apiKeyIndex)
    {
      if !writes {
        return false;
      }
      RebuildApiKeyIndex();
      return true;
    }

    /** `hashOf` is the digest of a secret; the usage flush may save on the way. */
    method LookupApiKey(secret: string, hashOf: string -> nat, now: int, writes: bool)
      returns (found: Option<(string, Key)>)
      requires Valid()
      modifies this`apiKeyIndex, this`lastUsageFlush
      ensures Valid() && (old(Current()) ==> Current())
      ensures found == if secret == "" then None else Lookup(databases, old(apiKeyIndex), hashOf(secret), now)
    {
      if secret == "" || hashOf(secret) !in apiKeyIndex {
        return None;
      }
      var ref := apiKeyIndex[hashOf(secret)];
      if ref.database !in databases {
        return None;
      }
      var keys := databases[ref.database];
      var i := Position(keys, ref.keyId);
      if i == |keys| || !keys[i].enabled {
        return None;
      }
      if keys[i].expiresAt.Some? && keys[i].expiresAt.value <= now {
        return None;
      }
      if now - lastUsageFlush > 60_000 {
        lastUsageFlush := now;
        var _ := SaveConfig(writes);
      }
      return Some((ref.database, keys[i]));
    }

    /** A database's records replaced in memory, then saved. */
    method Store(d: string, keys: seq<Key>, writes: bool) returns (saved: bool)
      modifies this`databases, this`apiKeyIndex
      ensures old(Valid()) ==> (Valid() <==> Fits(minted, d, keys))
      ensures databases == old(databases)[d := keys] && saved == writes
      ensures if saved then Current() else apiKeyIndex == old(apiKeyIndex)
    {
      databases := databases[d := keys];
      assert databases[d] == keys;
      saved := SaveConfig(writes);
      assert Valid() ==> Fits(minted, d, databases[d]);
    }

    /**
     `id` and `hash` are fresh random values. A key whose save failed is stored, but not found until a save
     succeeds.
     */
    method CreateApiKey(d: string, id: nat, hash: nat, expiresAt: Option<int>, writes: bool)
      returns (known: bool, saved: bool)
      requires Valid() && id !in minted && forall i | i in minted :: minted[i].1 != hash
      modifies this`databases, this`apiKeyIndex, this`minted
      ensures Valid() && known == (d in old(databases))
      ensures !known ==> databases == old(databases) && apiKeyIndex == old(apiKeyIndex)
      ensures known ==> databases == old(databases)[d := old(databases)[d] + [Key(id, hash, true, expiresAt)]]
      ensures known ==> saved == writes
      ensures known ==> if saved then Current() else apiKeyIndex == old(apiKeyIndex)
    {
      known, saved := d in databases, false;
      if known {
        MintKeepsFit(minted, databases, apiKeyIndex, d, Key(id, hash, true, expiresAt));
        minted := minted[id := (d, hash)];
        saved := Store(d, databases[d] + [Key(id, hash, true, expiresAt)], writes);
      }
    }

    method UpdateApiKey(d: string, keyId: nat, enabled: Option<bool>, expiresAt: Option<Option<int>>, writes: bool)
      returns (updated: Option<Key>, saved: bool)
      requires Valid()
      modifies this`databases, this`apiKeyIndex
      ensures Valid()
      ensures updated.Some? <==> d in old(databases) && exists k | k in old(databases)[d] :: k.id == keyId
      ensures updated.None? ==> databases == old(databases) && apiKeyIndex == old(apiKeyIndex)
      ensures updated.Some? ==>
                var keys := old(databases)[d];
                var i := Position(keys, keyId);
                && i < |keys| && updated.value == Edited(keys[i], enabled, expiresAt) && saved == writes
                && databases == old(databases)[d := keys[i := updated.value]]
      ensures updated.Some? ==> if saved then Current() else apiKeyIndex == old(apiKeyIndex)
    {
      updated, saved := None, false;
      if d !in databases {
        return;
      }
      var keys := databases[d];
      var i := Position(keys, keyId);
      if i == |keys| {
        return;
      }
      assert keys[i] in keys;
      var record := keys[i];
      if enabled.Some? {
        record := record.(enabled := enabled.value);
      }
      if expiresAt.Some? {
        record := record.(expiresAt := expiresAt.value);
      }
      assert Fits(minted, d, keys);
      saved := Store(d, keys[i := record], writes);
      updated := Some(record);
    }

    method DeleteApiKey(d: string, keyId: nat, writes: bool) returns (existed: bool, saved: bool)
      requires Valid()
      modifies this`databases, this`apiKeyIndex
      ensures Valid() && (existed <==> d in old(databases) && exists k | k in old(databases)[d] :: k.id == keyId)
      ensures !existed ==> databases == old(databases) && apiKeyIndex == old(apiKeyIndex)
      ensures existed ==> databases == old(databases)[d := Without(old(databases)[d], keyId)] && saved == writes
      ensures existed ==> if saved then Current() else apiKeyIndex == old(apiKeyIndex)
    {
      existed, saved := false, false;
      if d !in databases {
        return;
      }
      var keys := databases[d];
      var rest := Without(keys, keyId);
      WithoutShrinks(keys, keyId);
      if |rest| == |keys| {
        return;
      }
      assert Fits(minted, d, keys);
      existed := true;
      saved := Store(d, rest, writes);
    }

    /** The new configuration may bring records along: sound exactly if they were made for a database of that name. */
    method AddDatabase(base: string, keys: seq<Key>, writes: bool) returns (d: string, saved: bool)
      requires Valid()
      modifies this`databases, this`apiKeyIndex
      ensures Valid() <==> Fits(minted, d, keys)
      ensures d !in old(databases) && databases == old(databases)[d := keys] && saved == writes
      ensures if saved then Current() else apiKeyIndex == old(apiKeyIndex)
    {
      var n;
      d, n := GenerateId(base);
      saved := Store(d, keys, writes);
    }

    /** A patch or an update of `d` may also replace its records, by any: sound exactly if they were made for `d`. */
    method UpdateDatabase(d: string, keys: seq<Key>, writes: bool) returns (known: bool, saved: bool)
      requires Valid()
      modifies this`databases, this`apiKeyIndex
      ensures known == (d in old(databases))
      ensures Valid() <==> known ==> Fits(minted, d, keys)
      ensures !known ==> databases == old(databases) && apiKeyIndex == old(apiKeyIndex)
      ensures known ==> databases == old(databases)[d := keys] && saved == writes
      ensures known ==> if saved then Current() else apiKeyIndex == old(apiKeyIndex)
    {
      known, saved := d in databases, false;
      if known {
        saved := Store(d, keys, writes);
      }
    }

    method DeleteDatabase(d: string, writes: bool) returns (deleted: bool, saved: bool)
      requires Valid()
      modifies this`databases, this`apiKeyIndex
      ensures Valid() && deleted == (d in old(databases)) && databases == old(databases) - {d}
      ensures !deleted ==> apiKeyIndex == old(apiKeyIndex)
      ensures deleted ==> saved == writes && if saved then Current() else apiKeyIndex == old(apiKeyIndex)
    {
      deleted, saved := d in databases, false;
      databases := databases - {d};
      if deleted {
        saved := SaveConfig(writes);
      }
    }

    /** The first candidate not in use; there are at most as many in use as databases. */
    method GenerateId(base: string) returns (id: string, n: nat)
      ensures id == (if n == 0 then base else base + "_" + Print(n)) && id !in databases
      ensures forall j | 0 <= j < n :: Candidate(base, j) in databases
      ensures n <= |databases|
    {
      id, n := base, 0;
      while id in databases
        invariant id == Candidate(base, n) && Tried(base, n) <= databases.Keys
        decreases databases.Keys - Tried(base, n)
      {
        TriedIs(base, n, n);
        n := n + 1;
        id := base + "_" + Print(n);
      }
      TriedIs(base, n, n);
      SubsetIsSmaller(Tried(base, n), databases.Keys);
    }
  }

  function Edited(k: Key, enabled: Option<bool>, expiresAt: Option<Option<int>>): (k': Key)
    ensures k'.id == k.id && k'.hash == k.hash
    ensures enabled.Some? ==> k'.enabled == enabled.value
    ensures enabled.None? ==> k'.enabled == k.enabled
    ensures expiresAt.Some? ==> k'.expiresAt == expiresAt.value
    ensures expiresAt.None? ==> k'.expiresAt == k.expiresAt
  {
    var k' := if enabled.Some? then k.(enabled := enabled.value) else k;
    if expiresAt.Some? then k'.(expiresAt := expiresAt.value) else k'
  }

  lemma {:induction false} WithoutShrinks(keys: seq<Key>, id: nat)
    ensures |Without(keys, id)| <= |keys|
    ensures |Without(keys, id)| < |keys| <==> exists k | k in keys :: k.id == id
  {
    if keys != [] {
      WithoutShrinks(keys[1..], id);
      assert keys == [keys[0]] + keys[1..];
    }
  }
}
