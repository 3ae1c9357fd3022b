/**
 The final ordering of the classification list: descending by the key
 (points, goal difference, goals for), stable, as Python's `sorted` with
 `reverse=True` is.
 */
module Ranking {
  import opened Domain

  /** The sort key: points, then goal difference, then goals for. */
  function Key(r: Row): (int, int, int)
  {
    (r.points, r.goalDiff, r.goalsFor)
  }

  /** Lexicographic comparison of two keys, as on tuples. */
  predicate KeyAtLeast(x: (int, int, int), y: (int, int, int))
  {
    x.0 > y.0 || (x.0 == y.0 && (x.1 > y.1 || (x.1 == y.1 && x.2 >= y.2)))
  }

  /** `a` ranks at least as high as `b`. Any two rows are comparable, and
      each ranks at least as high as the other exactly when their keys tie. */
  function AtLeast(a: Row, b: Row): (ge: bool)
    ensures ge || KeyAtLeast(Key(b), Key(a))
    ensures ge && KeyAtLeast(Key(b), Key(a)) <==> Key(a) == Key(b)
  {
    KeyAtLeast(Key(a), Key(b))
  }

  /** Non-increasing in the key. */
  predicate Sorted(s: seq<Row>)
  {
    forall i, j :: 0 <= i < j < |s| ==> AtLeast(s[i], s[j])
  }

  /** The rows of `s` whose key is `k`, in their order in `s`. */
  function WithKey(s: seq<Row>, k: (int, int, int)): seq<Row>
  {
    if s == [] then []
    else WithKey(s[..|s| - 1], k) + (if Key(s[|s| - 1]) == k then [s[|s| - 1]] else [])
  }

  /** Insert `x` after every row of `t` that ranks at least as high, scanning
      from the back. */
  function Insert(t: seq<Row>, x: Row): (r: seq<Row>)
    ensures multiset(r) == multiset(t) + multiset{x}
  {
    if t == [] || AtLeast(t[|t| - 1], x) then t + [x]
    else
      assert t == t[..|t| - 1] + [t[|t| - 1]];
      Insert(t[..|t| - 1], x) + [t[|t| - 1]]
  }

  /** The stable descending sort of the classification list, by insertion. */
  function Ranked(s: seq<Row>): (r: seq<Row>)
    ensures multiset(r) == multiset(s)
  {
    if s == [] then []
    else
      assert s == s[..|s| - 1] + [s[|s| - 1]];
      Insert(Ranked(s[..|s| - 1]), s[|s| - 1])
  }

  lemma {:induction false} InsertSorted(t: seq<Row>, x: Row)
    requires Sorted(t)
    ensures Sorted(Insert(t, x))
  {
    if t == [] || AtLeast(t[|t| - 1], x) {
    } else {
      var p, l := t[..|t| - 1], t[|t| - 1];
      InsertSorted(p, x);
      var u := Insert(p, x);
      forall i | 0 <= i < |u| ensures AtLeast(u[i], l) {
        assert u[i] in multiset(u);
        if u[i] != x {
          assert u[i] in multiset(p);
          var j :| 0 <= j < |p| && p[j] == u[i];
          assert t[j] == p[j];
        }
      }
    }
  }

  lemma {:induction false} RankedSorted(s: seq<Row>)
    ensures Sorted(Ranked(s))
  {
    if s != [] {
      RankedSorted(s[..|s| - 1]);
      InsertSorted(Ranked(s[..|s| - 1]), s[|s| - 1]);
    }
  }

  lemma {:induction false} WithKeyAppend(a: seq<Row>, b: seq<Row>, k: (int, int, int))
    ensures WithKey(a + b, k) == WithKey(a, k) + WithKey(b, k)
  {
    if b == [] {
      assert a + b == a;
    } else {
      var b' := b[..|b| - 1];
      assert (a + b)[..|a + b| - 1] == a + b';
      WithKeyAppend(a, b', k);
    }
  }

  lemma WithKeySingle(x: Row, k: (int, int, int))
    ensures WithKey([x], k) == if Key(x) == k then [x] else []
  {
    assert [x][..0] == [];
  }

  lemma {:induction false} InsertWithKey(t: seq<Row>, x: Row, k: (int, int, int))
    ensures WithKey(Insert(t, x), k) == WithKey(t, k) + (if Key(x) == k then [x] else [])
  {
    WithKeySingle(x, k);
    if t == [] || AtLeast(t[|t| - 1], x) {
      WithKeyAppend(t, [x], k);
    } else {
      var p, l := t[..|t| - 1], t[|t| - 1];
      assert Key(l) != Key(x);
      InsertWithKey(p, x, k);
      WithKeyAppend(Insert(p, x), [l], k);
      WithKeySingle(l, k);
      assert WithKey(t, k) == WithKey(p, k) + WithKey([l], k);
    }
  }

  /** Rows with equal keys keep their relative order. */
  lemma {:induction false} RankedStable(s: seq<Row>, k: (int, int, int))
    ensures WithKey(Ranked(s), k) == WithKey(s, k)
  {
    if s != [] {
      RankedStable(s[..|s| - 1], k);
      InsertWithKey(Ranked(s[..|s| - 1]), s[|s| - 1], k);
    }
  }

  lemma {:induction false} WithKeyAll(s: seq<Row>, k: (int, int, int))
    requires forall i :: 0 <= i < |s| ==> Key(s[i]) == k
    ensures WithKey(s, k) == s
  {
    if s != [] {
      WithKeyAll(s[..|s| - 1], k);
    }
  }

  /** A list whose rows all tie is left in its order. */
  lemma RankedAllTied(s: seq<Row>, k: (int, int, int))
    requires forall i :: 0 <= i < |s| ==> Key(s[i]) == k
    ensures Ranked(s) == s
  {
    var r := Ranked(s);
    forall i | 0 <= i < |r| ensures Key(r[i]) == k {
      assert r[i] in multiset(s);
    }
    WithKeyAll(s, k);
    WithKeyAll(r, k);
    RankedStable(s, k);
  }

  lemma {:induction false} InsertSum(t: seq<Row>, x: Row, f: Field)
    ensures Sum(Insert(t, x), f) == Sum(t, f) + Get(x, f)
  {
    if t == [] || AtLeast(t[|t| - 1], x) {
      assert (t + [x])[..|t|] == t;
    } else {
      var p, l := t[..|t| - 1], t[|t| - 1];
      InsertSum(p, x, f);
      assert (Insert(p, x) + [l])[..|Insert(p, x)|] == Insert(p, x);
    }
  }

  /** Sorting leaves every column total as it was. */
  lemma {:induction false} RankedSum(s: seq<Row>, f: Field)
    ensures Sum(Ranked(s), f) == Sum(s, f)
  {
    if s != [] {
      RankedSum(s[..|s| - 1], f);
      InsertSum(Ranked(s[..|s| - 1]), s[|s| - 1], f);
    }
  }
}
