/** A stable insertion sort keyed by a real number. It stands for the library sorts the source
    calls: Python's `sorted` and JavaScript's `Array.prototype.sort` (stable since ES2019),
    and SQL `ORDER BY`, which leaves the order of ties open; there this sort picks input
    order. Descending orders are obtained by negating the key. */
module Sorting {
  import opened Common

  ghost predicate SortedBy<T>(s: seq<T>, key: T -> real)
  {
    forall i, j :: 0 <= i < j < |s| ==> key(s[i]) <= key(s[j])
  }

  /** Inserts x in front of the first element whose key is not smaller, so that an element
      inserted later (coming earlier in the input) stays ahead of equal keys. */
  function InsertBy<T>(x: T, s: seq<T>, key: T -> real): (r: seq<T>)
    ensures |r| == |s| + 1
    ensures multiset(r) == multiset(s) + multiset{x}
    ensures r[0] == x || (s != [] && r[0] == s[0])
  {
    if s == [] then [x]
    else if key(x) <= key(s[0]) then [x] + s
    else
      assert s == [s[0]] + s[1..];
      [s[0]] + InsertBy(x, s[1..], key)
  }

  lemma {:induction false} InsertBySorted<T>(x: T, s: seq<T>, key: T -> real)
    requires SortedBy(s, key)
    ensures SortedBy(InsertBy(x, s, key), key)
  {
    if s != [] && key(s[0]) < key(x) {
      var rest := InsertBy(x, s[1..], key);
      InsertBySorted(x, s[1..], key);
      forall y | y in multiset(rest) ensures key(s[0]) <= key(y) {
        if y != x {
          assert y in multiset(s[1..]);
          var k :| 0 <= k < |s[1..]| && s[1..][k] == y;
          assert s[k + 1] == y;
        }
      }
      SortedCons(s[0], rest, key);
    }
  }

  /** An element no larger than everything after it keeps a sorted sequence sorted. */
  lemma SortedCons<T>(x: T, rest: seq<T>, key: T -> real)
    requires SortedBy(rest, key)
    requires forall y | y in multiset(rest) :: key(x) <= key(y)
    ensures SortedBy([x] + rest, key)
  {
    var r := [x] + rest;
    forall i, j | 0 <= i < j < |r| ensures key(r[i]) <= key(r[j]) {
      assert r[j] == rest[j - 1];
      if i == 0 {
        assert rest[j - 1] in multiset(rest);
      } else {
        assert r[i] == rest[i - 1];
      }
    }
  }

  /** The input sorted by ascending key; elements with equal keys keep their input order. */
  function SortBy<T>(s: seq<T>, key: T -> real): (r: seq<T>)
    ensures |r| == |s|
    ensures multiset(r) == multiset(s)
  {
    if s == [] then []
    else
      assert s == [s[0]] + s[1..];
      InsertBy(s[0], SortBy(s[1..], key), key)
  }

  lemma {:induction false} SortBySorted<T>(s: seq<T>, key: T -> real)
    ensures SortedBy(SortBy(s, key), key)
  {
    if s != [] {
      SortBySorted(s[1..], key);
      InsertBySorted(s[0], SortBy(s[1..], key), key);
    }
  }

  /** Every element of the sorted sequence comes from the input. */
  lemma SortByElement<T>(s: seq<T>, key: T -> real, i: int)
    requires 0 <= i < |s|
    ensures SortBy(s, key)[i] in s
  {
    var r := SortBy(s, key);
    assert r[i] in multiset(r);
  }

  /** The position of the first element with the smallest key. */
  function FirstMinIndex<T>(s: seq<T>, key: T -> real): (k: nat)
    requires s != []
    ensures k < |s|
    ensures forall i :: 0 <= i < |s| ==> key(s[k]) <= key(s[i])
    ensures forall i :: 0 <= i < k ==> key(s[k]) < key(s[i])
  {
    if |s| == 1 then 0
    else
      var k := FirstMinIndex(s[1..], key);
      assert forall i :: 1 <= i < |s| ==> s[i] == s[1..][i - 1];
      if key(s[0]) <= key(s[1..][k]) then 0 else k + 1
  }

  /** The sort is stable: its first element is the earliest element with the smallest key. */
  lemma {:induction false} SortByFirst<T>(s: seq<T>, key: T -> real)
    requires s != []
    ensures SortBy(s, key)[0] == s[FirstMinIndex(s, key)]
  {
    if |s| > 1 {
      SortByFirst(s[1..], key);
      var rest := SortBy(s[1..], key);
      assert rest[0] == s[1..][FirstMinIndex(s[1..], key)];
    }
  }

  /** Sorting neither adds nor drops elements satisfying p: the number of them is unchanged. */
  lemma {:induction false} FilterInsertBy<T>(x: T, s: seq<T>, key: T -> real, p: T -> bool)
    ensures |Filter(InsertBy(x, s, key), p)| == |Filter(s, p)| + (if p(x) then 1 else 0)
  {
    assert Filter([x], p) == (if p(x) then [x] else []) by {
      assert [x][..0] == [];
    }
    if s == [] {
    } else if key(x) <= key(s[0]) {
      FilterAppend([x], s, p);
    } else {
      var rest := s[1..];
      assert s == [s[0]] + rest;
      assert Filter([s[0]], p) == (if p(s[0]) then [s[0]] else []) by {
        assert [s[0]][..0] == [];
      }
      FilterInsertBy(x, rest, key, p);
      FilterAppend([s[0]], InsertBy(x, rest, key), p);
      FilterAppend([s[0]], rest, p);
    }
  }

  lemma {:induction false} FilterSortBy<T>(s: seq<T>, key: T -> real, p: T -> bool)
    ensures |Filter(SortBy(s, key), p)| == |Filter(s, p)|
  {
    if s != [] {
      var rest := s[1..];
      assert s == [s[0]] + rest;
      FilterSortBy(rest, key, p);
      FilterInsertBy(s[0], SortBy(rest, key), key, p);
      FilterAppend([s[0]], rest, p);
      assert Filter([s[0]], p) == (if p(s[0]) then [s[0]] else []) by {
        assert [s[0]][..0] == [];
      }
    }
  }
}
