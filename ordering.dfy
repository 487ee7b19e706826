/** The two query shapes the actions hand to the database: a `where` filter and an
    `orderBy: { <key>: "desc" }` ordering. */
module Ordering {

  /** The rows of `s` that satisfy `p`, in table order. */
  function Filter<T(!new)>(s: seq<T>, p: T -> bool): (r: seq<T>)
    ensures |r| <= |s|
    ensures forall x :: x in r <==> x in s && p(x)
    ensures forall x :: multiset(r)[x] == if p(x) then multiset(s)[x] else 0
  {
    if s == [] then []
    else
      assert s == [s[0]] + s[1..];
      if p(s[0]) then [s[0]] + Filter(s[1..], p)
      else Filter(s[1..], p)
  }

  /** Newest (largest key) first. */
  ghost predicate SortedDesc<T>(s: seq<T>, key: T -> int) {
    forall i, j :: 0 <= i < j < |s| ==> key(s[i]) >= key(s[j])
  }

  /** A row whose key is at least that of the head of a sorted list can go in front of it. */
  lemma SortedCons<T>(h: T, t: seq<T>, key: T -> int)
    requires SortedDesc(t, key) && (t == [] || key(t[0]) <= key(h))
    ensures SortedDesc([h] + t, key)
  {
  }

  /** Places `x` in front of the first row whose key is not larger than its own,
      so that `x` comes before rows with an equal key. */
  function Insert<T>(x: T, s: seq<T>, key: T -> int): (r: seq<T>)
    ensures multiset(r) == multiset(s) + multiset{x}
    ensures |r| == |s| + 1 && (r[0] == x || (s != [] && r[0] == s[0]))
  {
    if s == [] then [x]
    else if key(s[0]) <= key(x) then [x] + s
    else
      assert s == [s[0]] + s[1..];
      [s[0]] + Insert(x, s[1..], key)
  }

  /** Inserting into a sorted list keeps it sorted. */
  lemma {:induction false} InsertKeepsSorted<T>(x: T, s: seq<T>, key: T -> int)
    requires SortedDesc(s, key)
    ensures SortedDesc(Insert(x, s, key), key)
  {
    if s == [] {
    } else if key(s[0]) <= key(x) {
      SortedCons(x, s, key);
    } else {
      var tail := s[1..];
      assert SortedDesc(tail, key);
      InsertKeepsSorted(x, tail, key);
      SortedCons(s[0], Insert(x, tail, key), key);
    }
  }

  /** `orderBy: { key: "desc" }`, taken as a stable sort: rows with equal keys
      keep their table order. */
  function SortDesc<T>(s: seq<T>, key: T -> int): (r: seq<T>)
    ensures SortedDesc(r, key)
    ensures multiset(r) == multiset(s)
  {
    if s == [] then []
    else
      assert s == [s[0]] + s[1..];
      var rest := SortDesc(s[1..], key);
      InsertKeepsSorted(s[0], rest, key);
      Insert(s[0], rest, key)
  }

  /** Inserting into a list whose keys are all at most `key(x)` puts `x` first. */
  lemma {:induction false} InsertAtFront<T(!new)>(x: T, s: seq<T>, key: T -> int)
    requires forall y :: y in s ==> key(y) <= key(x)
    ensures Insert(x, s, key) == [x] + s
  {
  }

  /** Filtering a list with a known head. */
  lemma FilterCons<T(!new)>(a: T, t: seq<T>, p: T -> bool)
    ensures Filter([a] + t, p) == if p(a) then [a] + Filter(t, p) else Filter(t, p)
  {
  }

  /** The case of `FilterInsert` where `x` goes in front. */
  lemma FilterInsertFront<T(!new)>(x: T, s: seq<T>, key: T -> int, p: T -> bool)
    requires SortedDesc(s, key) && s != [] && key(s[0]) <= key(x)
    ensures Filter(Insert(x, s, key), p) == if p(x) then Insert(x, Filter(s, p), key) else Filter(s, p)
  {
    assert Insert(x, s, key) == [x] + s;
    FilterCons(x, s, p);
    if p(x) {
      forall y | y in Filter(s, p) ensures key(y) <= key(x) {
        var i :| 0 <= i < |s| && s[i] == y;
        assert key(s[0]) >= key(s[i]);
      }
      InsertAtFront(x, Filter(s, p), key);
    }
  }

  /** `x` goes behind a head whose key is larger than its own. */
  lemma InsertBehind<T>(x: T, h: T, t: seq<T>, key: T -> int)
    requires key(h) > key(x)
    ensures Insert(x, [h] + t, key) == [h] + Insert(x, t, key)
  {
  }

  /** Filtering after an insertion is inserting after filtering. */
  lemma {:induction false} FilterInsert<T(!new)>(x: T, s: seq<T>, key: T -> int, p: T -> bool)
    requires SortedDesc(s, key)
    ensures Filter(Insert(x, s, key), p) == if p(x) then Insert(x, Filter(s, p), key) else Filter(s, p)
  {
    if s == [] {
    } else if key(s[0]) <= key(x) {
      FilterInsertFront(x, s, key, p);
    } else {
      var h, rest := s[0], s[1..];
      assert s == [h] + rest;
      FilterInsert(x, rest, key, p);
      InsertBehind(x, h, rest, key);
      FilterCons(h, Insert(x, rest, key), p);
      FilterCons(h, rest, p);
      if p(h) && p(x) {
        InsertBehind(x, h, Filter(rest, p), key);
      }
    }
  }

  /** The database filters and then orders; the result is the same as ordering
      the whole table and filtering that list, so a filtered query lists its rows
      in the order the unfiltered query does. */
  lemma {:induction false} FilterSortCommute<T(!new)>(s: seq<T>, key: T -> int, p: T -> bool)
    ensures SortDesc(Filter(s, p), key) == Filter(SortDesc(s, key), p)
  {
    if s != [] {
      FilterSortCommute(s[1..], key, p);
      FilterInsert(s[0], SortDesc(s[1..], key), key, p);
      if p(s[0]) {
        assert Filter(s, p) == [s[0]] + Filter(s[1..], p);
        assert ([s[0]] + Filter(s[1..], p))[1..] == Filter(s[1..], p);
      }
    }
  }

  /** A filter that keeps every row is the identity. */
  lemma {:induction false} FilterAll<T(!new)>(s: seq<T>, p: T -> bool)
    requires forall x :: p(x)
    ensures Filter(s, p) == s
  {
    if s != [] {
      FilterAll(s[1..], p);
    }
  }
}
