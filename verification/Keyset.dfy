/** Source rows, the order of composite keys, and what one `SELECT ... ORDER BY ... LIMIT n` returns. */
module Keyset {
  import opened Wrappers

  /** The values of the primary-key columns, in index order. */
  type Key = seq<int>

  /** A source row: its key, its change timestamp, and everything else as one opaque value. */
  datatype Row = Row(key: Key, ts: int, data: int)

  /** The two ORDER BY clauses the program pages with. */
  datatype Order = ByKey | ByTimestamp

  /** SQL row-value comparison `(a0, a1, ...) < (b0, b1, ...)`. */
  predicate Less(a: Key, b: Key)
  {
    b != [] && (a == [] || a[0] < b[0] || (a[0] == b[0] && Less(a[1..], b[1..])))
  }

  lemma {:induction false} LessIrreflexive(a: Key)
    ensures !Less(a, a)
  {
    if a != [] {
      LessIrreflexive(a[1..]);
    }
  }

  lemma {:induction false} LessTransitive(a: Key, b: Key, c: Key)
    requires Less(a, b) && Less(b, c)
    ensures Less(a, c)
  {
    if a != [] && a[0] == b[0] == c[0] {
      LessTransitive(a[1..], b[1..], c[1..]);
    }
  }

  lemma {:induction false} LessTotal(a: Key, b: Key)
    ensures Less(a, b) || a == b || Less(b, a)
  {
    if a != [] && b != [] && a[0] == b[0] {
      LessTotal(a[1..], b[1..]);
      if a[1..] == b[1..] {
        assert a == [a[0]] + a[1..] && b == [b[0]] + b[1..];
      }
    }
  }

  /** A primary key identifies its row. */
  ghost predicate KeysUnique(t: set<Row>)
  {
    forall r, s | r in t && s in t && r.key == s.key :: r == s
  }

  function Rank(o: Order, r: Row): Key
  {
    match o
    case ByKey => r.key
    case ByTimestamp => [r.ts] + r.key
  }

  predicate Before(o: Order, r: Row, s: Row)
  {
    Less(Rank(o, r), Rank(o, s))
  }

  lemma BeforeTotal(o: Order, r: Row, s: Row)
    ensures Before(o, r, s) || Before(o, s, r) || r.key == s.key
    ensures !(Before(o, r, s) && Before(o, s, r))
  {
    LessTotal(Rank(o, r), Rank(o, s));
    if Rank(o, r) == Rank(o, s) && o == ByTimestamp {
      assert r.key == Rank(o, r)[1..] && s.key == Rank(o, s)[1..];
    }
    if Before(o, r, s) && Before(o, s, r) {
      LessTransitive(Rank(o, r), Rank(o, s), Rank(o, r));
      LessIrreflexive(Rank(o, r));
    }
  }

  ghost predicate IsSorted(o: Order, s: seq<Row>)
  {
    forall i, j {:trigger Before(o, s[i], s[j])} | 0 <= i < j < |s| :: Before(o, s[i], s[j])
  }

  lemma LastIsGreatest(o: Order, s: seq<Row>, q: Row)
    requires IsSorted(o, s) && q in s && q != s[|s| - 1]
    ensures Before(o, q, s[|s| - 1])
  {
    var i: nat :| i < |s| && s[i] == q;
    assert Before(o, s[i], s[|s| - 1]);
  }

  lemma SortedConcat(o: Order, a: seq<Row>, b: seq<Row>)
    requires IsSorted(o, a) && IsSorted(o, b)
    requires forall p, r | p in a && r in b :: Before(o, p, r)
    ensures IsSorted(o, a + b)
  {
    forall i, j | 0 <= i < j < |a + b| ensures Before(o, (a + b)[i], (a + b)[j]) {
      if i < |a| <= j {
        assert a[i] in a && b[j - |a|] in b;
      }
    }
  }

  /** `s` answers `SELECT * ... ORDER BY o` over the rows `t`: each row once, in order. */
  ghost predicate IsOrdering(o: Order, t: set<Row>, s: seq<Row>)
  {
    && IsSorted(o, s)
    && |s| == |t|
    && forall r :: r in s <==> r in t
  }

  /** Order and contents determine the answer. */
  lemma {:induction false} OrderingUnique(o: Order, s: seq<Row>, u: seq<Row>)
    requires IsSorted(o, s) && IsSorted(o, u)
    requires forall r :: r in s <==> r in u
    ensures s == u
  {
    if s != [] { assert s[0] in s; }
    if u != [] { assert u[0] in u; }
    if s != [] && u != [] {
      assert s[0] in u && u[0] in s;
      BeforeTotal(o, s[0], u[0]);
      forall r ensures r in s[1..] <==> r in u[1..] {
        assert r in s[1..] ==> r in s && Before(o, s[0], r);
        assert r in u[1..] ==> r in u && Before(o, u[0], r);
        BeforeTotal(o, r, r);
      }
      OrderingUnique(o, s[1..], u[1..]);
      assert s == [s[0]] + s[1..] && u == [u[0]] + u[1..];
    }
  }

  lemma LeastExists(o: Order, t: set<Row>) returns (m: Row)
    requires t != {} && KeysUnique(t)
    ensures m in t && forall r | r in t && r != m :: Before(o, m, r)
  {
    m :| m in t;
    if t != {m} {
      var n := LeastExists(o, t - {m});
      BeforeTotal(o, m, n);
      if Before(o, n, m) {
        m := n;
      } else {
        forall r | r in t - {m} && r != n ensures Before(o, m, r) {
          LessTransitive(Rank(o, m), Rank(o, n), Rank(o, r));
        }
      }
    }
  }

  lemma OrderingExists(o: Order, t: set<Row>) returns (s: seq<Row>)
    requires KeysUnique(t)
    ensures IsOrdering(o, t, s)
  {
    if t == {} {
      s := [];
    } else {
      var m := LeastExists(o, t);
      var rest := OrderingExists(o, t - {m});
      s := [m] + rest;
    }
  }

  /** The rows of `t` that come after `m`. */
  function Behind(o: Order, t: set<Row>, m: Row): set<Row>
  {
    set r | r in t && Before(o, m, r)
  }

  lemma AnswerIsFrom(o: Order, t: set<Row>, s: seq<Row>, i: nat)
    requires IsOrdering(o, t, s) && i < |s|
    ensures s[i] in t
  {
    assert s[i] in s;
  }

  lemma SortedAt(o: Order, s: seq<Row>, m: nat, i: nat)
    requires IsSorted(o, s) && m < |s| && i < |s|
    ensures Before(o, s[m], s[i]) <==> m < i
  {
    BeforeTotal(o, s[m], s[i]);
  }

  lemma TailIsAfter(o: Order, s: seq<Row>, n: nat, r: Row)
    requires IsSorted(o, s) && 0 < n <= |s|
    ensures r in s[n..] <==> r in s && Before(o, s[n - 1], r)
  {
    if r in s[n..] {
      TailIsLater(o, s, n, r);
    }
    if r in s && Before(o, s[n - 1], r) {
      AfterIsInTail(o, s, n, r);
    }
  }

  lemma TailIsLater(o: Order, s: seq<Row>, n: nat, r: Row)
    requires IsSorted(o, s) && 0 < n <= |s| && r in s[n..]
    ensures r in s && Before(o, s[n - 1], r)
  {
    var j: nat :| n <= j < |s| && s[j] == r;
    SortedAt(o, s, n - 1, j);
  }

  lemma AfterIsInTail(o: Order, s: seq<Row>, n: nat, r: Row)
    requires IsSorted(o, s) && 0 < n <= |s| && r in s && Before(o, s[n - 1], r)
    ensures r in s[n..]
  {
    var i: nat :| i < |s| && s[i] == r;
    SortedAt(o, s, n - 1, i);
    assert s[n..][i - n] == r;
  }

  lemma FrontIsRest(o: Order, t: set<Row>, front: seq<Row>, r: Row, q: Row)
    requires IsSorted(o, front + [r]) && forall p :: p in front + [r] <==> p in t
    ensures q in front <==> q in t - {r}
  {
    if i: nat :| i < |front| && front[i] == q {
      SortedAt(o, front + [r], i, |front|);
      SortedAt(o, front + [r], i, i);
    }
    assert q in front + [r] <==> q in front || q == r;
  }

  lemma {:induction false} DistinctCount(o: Order, t: set<Row>, s: seq<Row>)
    requires IsSorted(o, s) && forall r :: r in s <==> r in t
    ensures |s| == |t|
  {
    if s != [] {
      var front, r := s[..|s| - 1], s[|s| - 1];
      assert s == front + [r];
      forall q ensures q in front <==> q in t - {r} {
        FrontIsRest(o, t, front, r, q);
      }
      DistinctCount(o, t - {r}, front);
    }
  }

  /** The rows after the `n`-th of an answer answer the query for the rows behind that one. */
  lemma TailIsOrdering(o: Order, t: set<Row>, s: seq<Row>, n: nat)
    requires IsOrdering(o, t, s) && 0 < n <= |s|
    ensures IsOrdering(o, Behind(o, t, s[n - 1]), s[n..])
  {
    var rest := Behind(o, t, s[n - 1]);
    forall r ensures r in s[n..] <==> r in rest {
      TailIsAfter(o, s, n, r);
    }
    DistinctCount(o, rest, s[n..]);
  }

  /** `p` answers `SELECT * ... ORDER BY o LIMIT n`: a row left out comes after a page that is full. */
  ghost predicate IsPage(o: Order, t: set<Row>, n: nat, p: seq<Row>)
  {
    && |p| <= n
    && IsSorted(o, p)
    && (forall r | r in p :: r in t)
    && forall r | r in t && r !in p :: |p| == n && (p != [] ==> Before(o, p[|p| - 1], r))
  }

  /** The rows of a page come out of the ordering in one piece, from its start. */
  lemma PageIsPrefix(o: Order, t: set<Row>, n: nat, p: seq<Row>, s: seq<Row>)
    requires KeysUnique(t) && IsPage(o, t, n, p) && IsOrdering(o, t, s)
    ensures |p| == (if n <= |s| then n else |s|) && p == s[..|p|]
  {
    var rest := set r | r in t && r !in p;
    var u := OrderingExists(o, rest);
    forall q, r | q in p && r in u ensures Before(o, q, r) {
      var m := p[|p| - 1];
      assert r in rest;
      if q != m { LastIsGreatest(o, p, q); LessTransitive(Rank(o, q), Rank(o, m), Rank(o, r)); }
    }
    SortedConcat(o, p, u);
    OrderingUnique(o, p + u, s);
    if |p| < n {
      assert rest == {};
    }
  }
}
