/**
 The append-only `<table>__raw` log and the projection view over it: per key the newest entry by
 (_sync_timestamp, _sync_batch_id) wins, and only then deleted winners are dropped.
 */
module ProjectionView {
  import opened Keyset

  /** `_sync_timestamp` and `_sync_batch_id`. */
  datatype Stamp = Stamp(time: int, batch: int)

  datatype Entry = Live(row: Row, stamp: Stamp) | Tombstone(deleted: Key, stamp: Stamp)
  {
    function Key(): Key
    {
      if Live? then row.key else deleted
    }
  }

  type Log = seq<Entry>

  predicate Newer(a: Stamp, b: Stamp)
  {
    a.time > b.time || (a.time == b.time && a.batch > b.batch)
  }

  /** Entry `i` may get row_number() = 1 in its partition: SQL leaves the order of ties open. */
  ghost predicate Winner(log: Log, i: nat)
  {
    i < |log| && forall j | 0 <= j < |log| && log[j].Key() == log[i].Key() :: !Newer(log[j].stamp, log[i].stamp)
  }

  ghost predicate HasKey(log: Log, k: Key)
  {
    exists j :: 0 <= j < |log| && log[j].Key() == k
  }

  /** `i` is a winner that makes the view hold what `v` holds for its key. */
  ghost predicate Decides(log: Log, v: map<Key, Row>, i: nat)
  {
    && Winner(log, i)
    && (log[i].Live? ==> log[i].Key() in v && v[log[i].Key()] == log[i].row)
    && (log[i].Tombstone? ==> log[i].Key() !in v)
  }

  /** `v` is a result the view may return: every key with entries has a winner that decides it. */
  ghost predicate IsView(log: Log, v: map<Key, Row>)
  {
    && (forall k | HasKey(log, k) :: exists i: nat :: Decides(log, v, i) && log[i].Key() == k)
    && (forall k | k in v :: HasKey(log, k))
  }

  function ApplyEntry(v: map<Key, Row>, e: Entry): map<Key, Row>
  {
    match e
    case Live(row, _) => v[row.key := row]
    case Tombstone(k, _) => v - {k}
  }

  /** The meaning of the log: its entries applied in append order. */
  function Replay(log: Log): map<Key, Row>
  {
    if log == [] then map[] else ApplyEntry(Replay(log[..|log| - 1]), log[|log| - 1])
  }

  ghost predicate IsLast(log: Log, i: nat)
  {
    i < |log| && forall j | i < j < |log| :: log[j].Key() != log[i].Key()
  }

  /** The last entry of each key is strictly newer than the key's other entries. */
  ghost predicate LastIsNewest(log: Log)
  {
    forall i: nat, j: nat | IsLast(log, i) && j < i && log[j].Key() == log[i].Key() :: Newer(log[i].stamp, log[j].stamp)
  }

  lemma {:induction false} LastExists(log: Log, j: nat) returns (i: nat)
    requires j < |log|
    ensures j <= i && IsLast(log, i) && log[i].Key() == log[j].Key()
    decreases |log| - j
  {
    if n :| j < n < |log| && log[n].Key() == log[j].Key() {
      i := LastExists(log, n);
    } else {
      i := j;
    }
  }

  /** `v` says of the key of `e` what `e` says. */
  predicate Says(v: map<Key, Row>, e: Entry)
  {
    if e.Live? then e.Key() in v && v[e.Key()] == e.row else e.Key() !in v
  }

  /** Replaying leaves of each key what its last entry says. */
  lemma {:induction false} ReplayAt(log: Log, i: nat)
    requires IsLast(log, i)
    ensures Says(Replay(log), log[i])
  {
    if i < |log| - 1 {
      var front := log[..|log| - 1];
      assert front[i] == log[i] && log[|log| - 1].Key() != log[i].Key();
      ReplayAt(front, i);
    }
  }

  lemma {:induction false} ReplayHasKey(log: Log, k: Key)
    requires k in Replay(log)
    ensures HasKey(log, k)
  {
    var front := log[..|log| - 1];
    if k in Replay(front) {
      ReplayHasKey(front, k);
      var j :| 0 <= j < |front| && front[j].Key() == k;
      assert log[j].Key() == k;
    } else {
      assert log[|log| - 1].Key() == k;
    }
  }

  lemma ReplayIsLast(log: Log)
    ensures forall i: nat | IsLast(log, i) :: Says(Replay(log), log[i])
    ensures forall k | k in Replay(log) :: HasKey(log, k)
  {
    forall i: nat | IsLast(log, i) ensures Says(Replay(log), log[i]) {
      ReplayAt(log, i);
    }
    forall k | k in Replay(log) ensures HasKey(log, k) {
      ReplayHasKey(log, k);
    }
  }

  /** Some entry of a key is newest of its first `n` entries. */
  lemma {:induction false} NewestExists(log: Log, k: Key, n: nat) returns (w: nat)
    requires n <= |log| && exists j :: 0 <= j < n && log[j].Key() == k
    ensures w < n && log[w].Key() == k
    ensures forall j | 0 <= j < n && log[j].Key() == k :: !Newer(log[j].stamp, log[w].stamp)
  {
    if j :| 0 <= j < n - 1 && log[j].Key() == k {
      w := NewestExists(log, k, n - 1);
      if log[n - 1].Key() == k && Newer(log[n - 1].stamp, log[w].stamp) {
        w := n - 1;
      }
    } else {
      w := n - 1;
    }
  }

  lemma WinnersAreLast(log: Log)
    requires LastIsNewest(log)
    ensures forall i: nat | Winner(log, i) :: IsLast(log, i)
  {
    forall i: nat | Winner(log, i) ensures IsLast(log, i) {
      var l := LastExists(log, i);
    }
  }

  lemma LastsAreNewest(log: Log)
    requires forall i: nat | Winner(log, i) :: IsLast(log, i)
    ensures LastIsNewest(log)
  {
    forall i: nat, j: nat | IsLast(log, i) && j < i && log[j].Key() == log[i].Key()
      ensures Newer(log[i].stamp, log[j].stamp)
    {
      var w := NewestExists(log, log[i].Key(), |log|);
      assert Winner(log, w);
      assert !Winner(log, j);
    }
  }

  /** The window picks each key's last entry, whatever the order of ties, exactly when that entry is strictly newest. */
  lemma LastWins(log: Log)
    ensures (forall i: nat | Winner(log, i) :: IsLast(log, i)) <==> LastIsNewest(log)
  {
    if LastIsNewest(log) {
      WinnersAreLast(log);
    }
    if forall i: nat | Winner(log, i) :: IsLast(log, i) {
      LastsAreNewest(log);
    }
  }

  lemma LastDecides(log: Log, i: nat)
    requires LastIsNewest(log) && IsLast(log, i)
    ensures Decides(log, Replay(log), i)
  {
    ReplayIsLast(log);
  }

  lemma ViewIsUnique(log: Log, v: map<Key, Row>)
    requires LastIsNewest(log) && IsView(log, v)
    ensures v == Replay(log)
  {
    ReplayIsLast(log);
    WinnersAreLast(log);
    forall k | HasKey(log, k) ensures k in v <==> k in Replay(log) ensures k in v ==> v[k] == Replay(log)[k] {
      var i: nat :| Decides(log, v, i) && log[i].Key() == k;
      assert IsLast(log, i);
    }
  }

  /** The windowed view is the replay of the log when the last entry of each key is its newest. */
  lemma ViewIsReplay(log: Log, v: map<Key, Row>)
    requires LastIsNewest(log)
    ensures IsView(log, v) <==> v == Replay(log)
  {
    if IsView(log, v) {
      ViewIsUnique(log, v);
    }
    if v == Replay(log) {
      ReplayIsLast(log);
      forall k | HasKey(log, k) ensures exists i: nat :: Decides(log, v, i) && log[i].Key() == k {
        var j :| 0 <= j < |log| && log[j].Key() == k;
        var i := LastExists(log, j);
        LastDecides(log, i);
      }
    }
  }

  /** The order of stamps: by timestamp, and by batch id only between equal timestamps. */
  lemma StampOrder(a: Stamp, b: Stamp)
    ensures a.time > b.time ==> Newer(a, b) && !Newer(b, a)
    ensures a.time == b.time ==> (Newer(a, b) <==> a.batch > b.batch)
  {
  }

  /** Whatever the batch ids, the view shows of each key the entry with the latest timestamp, if that is its last. */
  lemma LatestTimeIsShown(log: Log, v: map<Key, Row>)
    requires forall i: nat, j: nat | IsLast(log, i) && j < i && log[j].Key() == log[i].Key() ::
               log[i].stamp.time > log[j].stamp.time
    ensures LastIsNewest(log) && (IsView(log, v) <==> v == Replay(log))
  {
    ViewIsReplay(log, v);
  }

  /** Of two entries of a key the later timestamp is shown, and between equal ones the larger batch id. */
  lemma LaterOfTwoIsShown(a: Row, b: Row, s: Stamp, t: Stamp, v: map<Key, Row>)
    requires a.key == b.key && a != b && IsView([Live(a, s), Live(b, t)], v)
    ensures a.key in v
    ensures s.time < t.time || (s.time == t.time && s.batch < t.batch) ==> v[a.key] == b
    ensures s.time > t.time || (s.time == t.time && s.batch > t.batch) ==> v[a.key] == a
  {
    var log := [Live(a, s), Live(b, t)];
    assert log[0].Key() == log[1].Key() == a.key && HasKey(log, a.key);
    var i: nat :| Decides(log, v, i) && log[i].Key() == a.key;
    assert !Newer(log[1 - i].stamp, log[i].stamp);
  }

  /** `e` is strictly newer than what the log holds for its key. */
  ghost predicate NewestOfKey(log: Log, e: Entry)
  {
    forall j | 0 <= j < |log| && log[j].Key() == e.Key() :: Newer(e.stamp, log[j].stamp)
  }

  lemma AppendStaysNewest(log: Log, e: Entry)
    requires LastIsNewest(log) && NewestOfKey(log, e)
    ensures LastIsNewest(log + [e])
    ensures Replay(log + [e]) == ApplyEntry(Replay(log), e)
  {
    var log' := log + [e];
    forall i: nat, j: nat | IsLast(log', i) && j < i && log'[j].Key() == log'[i].Key()
      ensures Newer(log'[i].stamp, log'[j].stamp)
    {
      if i < |log| { assert log'[|log|].Key() != log'[i].Key(); assert IsLast(log, i); }
    }
    assert log'[..|log|] == log;
  }

  /** Appending a newest entry changes the view at its own key and nowhere else. */
  lemma AppendNewest(log: Log, e: Entry, v: map<Key, Row>)
    requires LastIsNewest(log) && NewestOfKey(log, e)
    ensures IsView(log + [e], v) <==> v == ApplyEntry(Replay(log), e)
  {
    AppendStaysNewest(log, e);
    ViewIsReplay(log + [e], v);
  }

  /** Reading a row again that the view already shows leaves the view as it is. */
  lemma RereadIsUnobservable(log: Log, row: Row, stamp: Stamp, v: map<Key, Row>)
    requires LastIsNewest(log) && NewestOfKey(log, Live(row, stamp))
    requires row.key in Replay(log) && Replay(log)[row.key] == row
    ensures IsView(log + [Live(row, stamp)], v) <==> IsView(log, v)
  {
    assert Replay(log)[row.key := row] == Replay(log);
    ViewIsReplay(log, v);
    AppendNewest(log, Live(row, stamp), v);
  }

  /** The view the program must not build: it drops tombstones before the window. */
  function LiveOnly(log: Log): Log
  {
    if log == [] then []
    else if log[|log| - 1].Live? then LiveOnly(log[..|log| - 1]) + [log[|log| - 1]]
    else LiveOnly(log[..|log| - 1])
  }

  /** A key whose last entry is a tombstone after some live entry: a delete that has taken effect. */
  ghost predicate Deleted(log: Log, k: Key)
  {
    k !in Replay(log) && HasKey(LiveOnly(log), k)
  }

  /** Filtering first shows exactly the deleted keys on top of the right view. */
  lemma {:induction false} FilterFirstResurrects(log: Log, k: Key)
    ensures k in Replay(LiveOnly(log)) <==> k in Replay(log) || Deleted(log, k)
    ensures k in Replay(log) ==> k in Replay(LiveOnly(log)) && Replay(LiveOnly(log))[k] == Replay(log)[k]
  {
    if log != [] {
      var front, e := log[..|log| - 1], log[|log| - 1];
      FilterFirstResurrects(front, k);
      var live := LiveOnly(front);
      if e.Live? {
        assert (live + [e])[..|live|] == live;
        if e.Key() == k {
          assert (live + [e])[|live|].Key() == k;
        } else if HasKey(live, k) {
          var j :| 0 <= j < |live| && live[j].Key() == k;
          assert (live + [e])[j].Key() == k;
        }
      } else if e.Key() == k {
        ReplayIsLast(live);
        LiveKeysStay(front, k);
      }
    }
  }

  lemma {:induction false} LiveKeysStay(log: Log, k: Key)
    ensures HasKey(LiveOnly(log), k) ==> k in Replay(LiveOnly(log))
  {
    if log != [] {
      var front, e := log[..|log| - 1], log[|log| - 1];
      LiveKeysStay(front, k);
      var live := LiveOnly(front);
      if e.Live? {
        assert (live + [e])[..|live|] == live;
        if HasKey(live + [e], k) && e.Key() != k {
          var j :| 0 <= j < |live + [e]| && (live + [e])[j].Key() == k;
          assert live[j].Key() == k;
        }
      }
    }
  }

  /** A tombstone stamped by a clock that stepped back never takes effect. */
  lemma LateTombstoneIsLost(row: Row, time: int, batch: int, back: nat)
    requires back > 0
    ensures var log := [Live(row, Stamp(time, batch)), Tombstone(row.key, Stamp(time - back, batch))];
      && row.key !in Replay(log)
      && forall v | IsView(log, v) :: row.key in v
  {
    var log := [Live(row, Stamp(time, batch)), Tombstone(row.key, Stamp(time - back, batch))];
    assert log[..1] == [log[0]] && log[..1][..0] == [];
    assert forall i: nat | Winner(log, i) :: i == 0;
    forall v | IsView(log, v) ensures row.key in v {
      assert log[0].Key() == row.key;
      assert HasKey(log, row.key);
    }
  }
}
