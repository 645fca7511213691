/** ORDER BY ... LIMIT n, as a property of its answer: the first rows of a strict total order, in order.
    Such an answer always exists and there is only one. */
module TopList {
  import opened Basics

  ghost predicate StrictTotal<T(!new)>(rows: set<T>, before: (T, T) -> bool) {
    && (forall a :: a in rows ==> !before(a, a))
    && (forall a, b :: a in rows && b in rows && a != b ==> before(a, b) || before(b, a))
    && (forall a, b, c :: a in rows && b in rows && c in rows && before(a, b) && before(b, c) ==> before(a, c))
  }

  predicate Sorted<T>(list: seq<T>, before: (T, T) -> bool) {
    forall i, j :: 0 <= i < j < |list| ==> before(list[i], list[j])
  }

  function Elements<T>(list: seq<T>): set<T> {
    set r | r in list
  }

  predicate IsTop<T>(rows: set<T>, before: (T, T) -> bool, limit: nat, list: seq<T>) {
    && Sorted(list, before)
    && Elements(list) <= rows
    && |list| <= limit
    && (|list| == limit || Elements(list) == rows)
    && forall r, p :: r in rows && r !in list && p in list ==> before(p, r)
  }

  lemma {:induction false} SortedSize<T(!new)>(list: seq<T>, rows: set<T>, before: (T, T) -> bool)
    requires StrictTotal(rows, before) && Elements(list) <= rows && Sorted(list, before)
    ensures |Elements(list)| == |list|
    decreases |list|
  {
    if list != [] {
      var n := |list| - 1;
      assert list == list[..n] + [list[n]];
      assert Elements(list) == Elements(list[..n]) + {list[n]};
      SortedSize(list[..n], rows, before);
      assert list[n] in rows && list[n] !in list[..n];
    }
  }

  lemma {:induction false} FirstExists<T(!new)>(rows: set<T>, before: (T, T) -> bool) returns (first: T)
    requires rows != {} && StrictTotal(rows, before)
    ensures first in rows && forall r :: r in rows && r != first ==> before(first, r)
    decreases rows
  {
    first :| first in rows;
    var others := rows - {first};
    assert rows == others + {first};
    if others != {} {
      var best := FirstExists(others, before);
      if before(best, first) {
        first := best;
      }
    }
  }

  lemma {:induction false} TopExists<T(!new)>(rows: set<T>, before: (T, T) -> bool, limit: nat)
    requires StrictTotal(rows, before)
    ensures exists list :: IsTop(rows, before, limit, list)
    decreases limit
  {
    if limit == 0 || rows == {} {
      var none: seq<T> := [];
      assert Elements(none) == {};
      assert IsTop(rows, before, limit, none);
    } else {
      var first := FirstExists(rows, before);
      var others := rows - {first};
      TopExists(others, before, limit - 1);
      var tail :| IsTop(others, before, limit - 1, tail);
      var list := [first] + tail;
      assert Elements(list) == {first} + Elements(tail);
      forall i, j | 0 <= i < j < |list| ensures before(list[i], list[j]) {
        assert list[j] == tail[j - 1] && tail[j - 1] in Elements(tail);
      }
      forall r, p | r in rows && r !in list && p in list ensures before(p, r) {
        assert p == first || p in tail;
      }
      assert IsTop(rows, before, limit, list);
    }
  }

  lemma TopsNested<T(!new)>(rows: set<T>, before: (T, T) -> bool, limit: nat, p: seq<T>, q: seq<T>)
    requires StrictTotal(rows, before) && IsTop(rows, before, limit, p) && IsTop(rows, before, limit, q)
    ensures Elements(p) <= Elements(q) || Elements(q) <= Elements(p)
  {
    if r, x :| r in Elements(p) && r !in Elements(q) && x in Elements(q) && x !in Elements(p) {
      assert false;
    }
  }

  lemma TopUnique<T(!new)>(rows: set<T>, before: (T, T) -> bool, limit: nat, p: seq<T>, q: seq<T>)
    requires StrictTotal(rows, before) && IsTop(rows, before, limit, p) && IsTop(rows, before, limit, q)
    ensures p == q
  {
    SortedSize(p, rows, before);
    SortedSize(q, rows, before);
    SubsetCardinality(Elements(p), rows);
    SubsetCardinality(Elements(q), rows);
    TopsNested(rows, before, limit, p, q);
    if Elements(p) <= Elements(q) {
      SubsetCardinality(Elements(p), Elements(q));
    } else {
      SubsetCardinality(Elements(q), Elements(p));
    }
    SortedUnique(p, q, rows, before);
  }

  lemma {:induction false} SortedUnique<T(!new)>(p: seq<T>, q: seq<T>, rows: set<T>, before: (T, T) -> bool)
    requires StrictTotal(rows, before) && Elements(p) <= rows
    requires Sorted(p, before) && Sorted(q, before) && Elements(p) == Elements(q)
    ensures p == q
    decreases |p|
  {
    SortedSize(p, rows, before);
    SortedSize(q, rows, before);
    if p != [] {
      assert p[0] in Elements(p) && p[0] in Elements(q);
      assert q[0] in Elements(q) && q[0] in Elements(p);
      var i :| 0 <= i < |q| && q[i] == p[0];
      var j :| 0 <= j < |p| && p[j] == q[0];
      assert p[0] == q[0];
      assert p == [p[0]] + p[1..] && q == [q[0]] + q[1..];
      TailElements(p, rows, before);
      TailElements(q, rows, before);
      SortedUnique(p[1..], q[1..], rows, before);
    }
  }

  lemma TailElements<T(!new)>(p: seq<T>, rows: set<T>, before: (T, T) -> bool)
    requires StrictTotal(rows, before) && Elements(p) <= rows && Sorted(p, before) && p != []
    ensures Elements(p[1..]) == Elements(p) - {p[0]} && Sorted(p[1..], before)
  {
    assert p[0] in rows;
    forall r | r in p[1..] ensures r in p && r != p[0] {
      var k :| 0 <= k < |p[1..]| && p[1..][k] == r;
      assert before(p[0], p[k + 1]);
    }
    forall r | r in Elements(p) - {p[0]} ensures r in p[1..] {
      var k :| 0 <= k < |p| && p[k] == r;
      assert p[1..][k - 1] == r;
    }
  }
}
