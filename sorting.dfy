/**
 * JavaScript's `Array.prototype.sort` with a numeric comparator
 * `(a, b) => key(a) - key(b)`. The engine's sort is stable, so it is modelled
 * as a stable insertion sort; a descending sort uses the negated key.
 */
module Sorting {
  import opened Seqs

  predicate SortedBy<T>(s: seq<T>, key: T -> int)
  {
    forall i, j :: 0 <= i < j < |s| ==> key(s[i]) <= key(s[j])
  }

  /** The last element of a sorted list has the greatest key. */
  lemma SortedLastGreatest<T>(s: seq<T>, key: T -> int)
    requires SortedBy(s, key) && s != []
    ensures forall j :: 0 <= j < |s| ==> key(s[j]) <= key(s[|s| - 1])
  {
    forall j | 0 <= j < |s| ensures key(s[j]) <= key(s[|s| - 1]) {
      if j < |s| - 1 {
        assert key(s[j]) <= key(s[|s| - 1]);
      }
    }
  }

  /** The elements of `s` whose key is `k`, in their order in `s`. */
  function WithKey<T>(s: seq<T>, key: T -> int, k: int): seq<T>
  {
    if s == [] then [] else (if key(s[0]) == k then [s[0]] else []) + WithKey(s[1..], key, k)
  }

  /** Places `x` after every element of `s` whose key is not greater than its own. */
  function Insert<T(==)>(x: T, s: seq<T>, key: T -> int): (r: seq<T>)
    ensures |r| == |s| + 1 && multiset(r) == multiset(s) + multiset{x}
  {
    if s == [] || key(x) < key(s[0]) then [x] + s
    else
      assert s == [s[0]] + s[1..];
      [s[0]] + Insert(x, s[1..], key)
  }

  function SortBy<T(==)>(s: seq<T>, key: T -> int): (r: seq<T>)
    ensures |r| == |s| && multiset(r) == multiset(s)
  {
    if s == [] then []
    else
      assert s == s[..|s| - 1] + [s[|s| - 1]];
      Insert(s[|s| - 1], SortBy(s[..|s| - 1], key), key)
  }

  lemma {:induction false} InsertSorted<T>(x: T, s: seq<T>, key: T -> int)
    requires SortedBy(s, key)
    ensures SortedBy(Insert(x, s, key), key)
  {
    if s != [] && key(x) >= key(s[0]) {
      InsertSorted(x, s[1..], key);
      var r := Insert(x, s[1..], key);
      assert multiset(r) == multiset(s[1..]) + multiset{x};
      forall j | 0 <= j < |r| ensures key(s[0]) <= key(r[j]) {
        assert r[j] in multiset(r);
        if r[j] != x {
          assert r[j] in multiset(s[1..]);
          var m :| 0 <= m < |s[1..]| && s[1..][m] == r[j];
          assert s[1..][m] == s[m + 1];
        }
      }
    }
  }

  /** The result is ordered by key. */
  lemma {:induction false} SortByIsSorted<T>(s: seq<T>, key: T -> int)
    ensures SortedBy(SortBy(s, key), key)
  {
    if s != [] {
      SortByIsSorted(s[..|s| - 1], key);
      InsertSorted(s[|s| - 1], SortBy(s[..|s| - 1], key), key);
    }
  }

  lemma {:induction false} WithKeyAbove<T>(s: seq<T>, key: T -> int, k: int)
    requires SortedBy(s, key) && s != [] && k < key(s[0])
    ensures WithKey(s, key, k) == []
  {
    if |s| > 1 {
      assert key(s[0]) <= key(s[1]);
      WithKeyAbove(s[1..], key, k);
    }
  }

  lemma {:induction false} WithKeyAppend<T>(a: seq<T>, b: seq<T>, key: T -> int, k: int)
    ensures WithKey(a + b, key, k) == WithKey(a, key, k) + WithKey(b, key, k)
  {
    if a == [] {
      assert a + b == b;
    } else {
      var h := if key(a[0]) == k then [a[0]] else [];
      assert (a + b)[0] == a[0];
      assert (a + b)[1..] == a[1..] + b;
      assert WithKey(a + b, key, k) == h + WithKey(a[1..] + b, key, k);
      assert WithKey(a, key, k) == h + WithKey(a[1..], key, k);
      WithKeyAppend(a[1..], b, key, k);
    }
  }

  lemma {:induction false} InsertWithKey<T>(x: T, s: seq<T>, key: T -> int, k: int)
    requires SortedBy(s, key)
    ensures WithKey(Insert(x, s, key), key, k)
         == WithKey(s, key, k) + (if key(x) == k then [x] else [])
  {
    var xs := if key(x) == k then [x] else [];
    if s == [] {
      assert WithKey([x], key, k) == xs + WithKey([x][1..], key, k);
    } else if key(x) < key(s[0]) {
      assert ([x] + s)[1..] == s;
      assert WithKey([x] + s, key, k) == xs + WithKey(s, key, k);
      if key(x) == k { WithKeyAbove(s, key, k); }
    } else {
      var s0 := if key(s[0]) == k then [s[0]] else [];
      var rest := Insert(x, s[1..], key);
      assert SortedBy(s[1..], key) by {
        forall i, j | 0 <= i < j < |s[1..]| ensures key(s[1..][i]) <= key(s[1..][j]) {
          assert s[1..][i] == s[i + 1] && s[1..][j] == s[j + 1];
        }
      }
      InsertWithKey(x, s[1..], key, k);
      assert ([s[0]] + rest)[1..] == rest;
      assert WithKey([s[0]] + rest, key, k) == s0 + WithKey(rest, key, k);
      assert WithKey(s, key, k) == s0 + WithKey(s[1..], key, k);
    }
  }

  lemma WithKeySnoc<T>(s: seq<T>, key: T -> int, k: int)
    requires s != []
    ensures WithKey(s, key, k)
         == WithKey(s[..|s| - 1], key, k) + (if key(s[|s| - 1]) == k then [s[|s| - 1]] else [])
  {
    var init, last := s[..|s| - 1], s[|s| - 1];
    WithKeyAppend(init, [last], key, k);
    assert WithKey([last], key, k) == (if key(last) == k then [last] else []) + WithKey([], key, k);
    assert init + [last] == s;
  }

  /** Stability: elements with equal keys keep their input order. */
  lemma {:induction false} SortByIsStable<T>(s: seq<T>, key: T -> int, k: int)
    ensures WithKey(SortBy(s, key), key, k) == WithKey(s, key, k)
  {
    if s != [] {
      var init, last := s[..|s| - 1], s[|s| - 1];
      var sorted := SortBy(init, key);
      assert SortBy(s, key) == Insert(last, sorted, key);
      SortByIsStable(init, key, k);
      SortByIsSorted(init, key);
      InsertWithKey(last, sorted, key, k);
      WithKeySnoc(s, key, k);
    }
  }

  /** `s[i]` has the least key in `s`, and no earlier element has that key. */
  ghost predicate EarliestMin<T>(s: seq<T>, key: T -> int, i: int)
  {
    0 <= i < |s|
    && (forall j :: 0 <= j < |s| ==> key(s[i]) <= key(s[j]))
    && (forall j :: 0 <= j < i ==> key(s[i]) < key(s[j]))
  }

  lemma InsertHead<T>(x: T, t: seq<T>, key: T -> int)
    requires t != []
    ensures Insert(x, t, key)[0] == if key(x) < key(t[0]) then x else t[0]
  {
  }

  lemma SortBySnoc<T>(s: seq<T>, key: T -> int)
    requires s != []
    ensures SortBy(s, key) == Insert(s[|s| - 1], SortBy(s[..|s| - 1], key), key)
  {
  }

  /** Extending `s` by `x` keeps the earliest least element, unless `x` has a smaller key. */
  lemma EarliestMinSnoc<T>(s: seq<T>, x: T, key: T -> int, i: int)
    requires EarliestMin(s, key, i)
    ensures key(x) < key(s[i]) ==> EarliestMin(s + [x], key, |s|)
    ensures key(x) >= key(s[i]) ==> EarliestMin(s + [x], key, i)
  {
    var t := s + [x];
    assert forall j :: 0 <= j < |s| ==> t[j] == s[j];
  }

  /** The first element after sorting is the earliest element with the least key. */
  lemma {:induction false} SortByHead<T>(s: seq<T>, key: T -> int)
    requires s != []
    ensures exists i :: EarliestMin(s, key, i) && SortBy(s, key)[0] == s[i]
  {
    var init, last := s[..|s| - 1], s[|s| - 1];
    assert s == init + [last];
    SortBySnoc(s, key);
    if init == [] {
      assert EarliestMin(s, key, 0);
    } else {
      SortByHead(init, key);
      var i :| EarliestMin(init, key, i) && SortBy(init, key)[0] == init[i];
      InsertHead(last, SortBy(init, key), key);
      EarliestMinSnoc(init, last, key, i);
      if key(last) < key(init[i]) {
        assert SortBy(s, key)[0] == s[|s| - 1];
      } else {
        assert SortBy(s, key)[0] == s[i];
      }
    }
  }

  /** Among the elements satisfying `p`, `s[j]` has the least key and is the earliest with it. */
  ghost predicate EarliestMinWhere<T>(s: seq<T>, p: T -> bool, key: T -> int, j: int)
  {
    0 <= j < |s| && p(s[j])
    && (forall m :: 0 <= m < |s| && p(s[m]) ==> key(s[j]) <= key(s[m]))
    && (forall m :: 0 <= m < j && p(s[m]) ==> key(s[j]) < key(s[m]))
  }

  lemma MinOverFilter<T>(s: seq<T>, p: T -> bool, key: T -> int, i: int, m: int)
    requires EarliestMin(Filter(s, p), key, i) && 0 <= m < |s| && p(s[m])
    ensures key(Filter(s, p)[i]) <= key(s[m])
  {
    FilterMembers(s, p, s[m]);
    var x :| 0 <= x < |Filter(s, p)| && Filter(s, p)[x] == s[m];
  }

  /** Dropping the head of `s` keeps the earliest least element of the filter, unless it was the head. */
  lemma FilterTailEarliest<T>(s: seq<T>, p: T -> bool, key: T -> int, i: int)
    requires EarliestMin(Filter(s, p), key, i)
    requires !(p(s[0]) && i == 0)
    ensures EarliestMin(Filter(s[1..], p), key, if p(s[0]) then i - 1 else i)
    ensures Filter(s, p)[i] == Filter(s[1..], p)[if p(s[0]) then i - 1 else i]
  {
    var c, c1 := Filter(s, p), Filter(s[1..], p);
    var d := if p(s[0]) then 1 else 0;
    var i1 := i - d;
    assert c == (if p(s[0]) then [s[0]] else []) + c1;
    assert c1[i1] == c[i];
    forall j | 0 <= j < |c1| ensures key(c1[i1]) <= key(c1[j]) {
      assert c1[j] == c[j + d];
    }
    forall j | 0 <= j < i1 ensures key(c1[i1]) < key(c1[j]) {
      assert c1[j] == c[j + d];
    }
  }

  lemma LiftEarliest<T>(s: seq<T>, p: T -> bool, key: T -> int, i: int, j: int)
    requires EarliestMin(Filter(s, p), key, i)
    requires !(p(s[0]) && i == 0)
    requires EarliestMinWhere(s[1..], p, key, j) && Filter(s, p)[i] == s[1..][j]
    ensures EarliestMinWhere(s, p, key, j + 1)
  {
    var c := Filter(s, p);
    forall m | 0 <= m < |s| && p(s[m]) ensures key(c[i]) <= key(s[m]) {
      MinOverFilter(s, p, key, i, m);
    }
    forall m | 0 <= m < j + 1 && p(s[m]) ensures key(s[j + 1]) < key(s[m]) {
      if m > 0 {
        assert s[m] == s[1..][m - 1];
      } else {
        assert c[0] == s[0];
      }
    }
  }

  /** The earliest least element of a filter is the earliest least qualifying element of the input. */
  lemma {:induction false} FilterEarliestMin<T>(s: seq<T>, p: T -> bool, key: T -> int, i: int)
    requires EarliestMin(Filter(s, p), key, i)
    ensures exists j :: EarliestMinWhere(s, p, key, j) && Filter(s, p)[i] == s[j]
  {
    if p(s[0]) && i == 0 {
      forall m | 0 <= m < |s| && p(s[m]) ensures key(s[0]) <= key(s[m]) {
        MinOverFilter(s, p, key, i, m);
      }
      assert EarliestMinWhere(s, p, key, 0);
    } else {
      var i1 := if p(s[0]) then i - 1 else i;
      FilterTailEarliest(s, p, key, i);
      FilterEarliestMin(s[1..], p, key, i1);
      var j :| EarliestMinWhere(s[1..], p, key, j) && Filter(s[1..], p)[i1] == s[1..][j];
      LiftEarliest(s, p, key, i, j);
    }
  }

  /** `EarliestMinWhere` over a mapped sequence, read back on the original elements. */
  lemma MapEarliestMinWhere<A, B>(xs: seq<A>, f: A -> B, p: B -> bool, key: B -> int, k: int)
    requires EarliestMinWhere(MapSeq(xs, f), p, key, k)
    ensures 0 <= k < |xs| && p(f(xs[k]))
    ensures forall j :: 0 <= j < |xs| && p(f(xs[j])) ==> key(f(xs[k])) <= key(f(xs[j]))
    ensures forall j :: 0 <= j < k && p(f(xs[j])) ==> key(f(xs[k])) < key(f(xs[j]))
  {
    var ys := MapSeq(xs, f);
    assert forall j :: 0 <= j < |xs| ==> ys[j] == f(xs[j]);
  }

  /** The first element of a sorted filter of a mapped sequence, read back on the original elements. */
  lemma SortedFilterMapHead<A, B>(xs: seq<A>, f: A -> B, p: B -> bool, key: B -> int)
    requires SortBy(Filter(MapSeq(xs, f), p), key) != []
    ensures exists k :: EarliestMinWhere(MapSeq(xs, f), p, key, k) && SortBy(Filter(MapSeq(xs, f), p), key)[0] == f(xs[k])
  {
    var ys := MapSeq(xs, f);
    var c := Filter(ys, p);
    SortByHead(c, key);
    var i :| EarliestMin(c, key, i) && SortBy(c, key)[0] == c[i];
    FilterEarliestMin(ys, p, key, i);
  }

  /** An element whose key is at least every other key is placed last. */
  lemma {:induction false} InsertLast<T>(x: T, s: seq<T>, key: T -> int)
    requires forall j :: 0 <= j < |s| ==> key(s[j]) <= key(x)
    ensures Insert(x, s, key) == s + [x]
  {
    if s != [] && key(x) >= key(s[0]) {
      InsertLast(x, s[1..], key);
      assert s == [s[0]] + s[1..];
    }
  }

  /** Sorting a sequence that is already ordered changes nothing. */
  lemma {:induction false} SortBySorted<T>(s: seq<T>, key: T -> int)
    requires SortedBy(s, key)
    ensures SortBy(s, key) == s
  {
    if s != [] {
      var init := s[..|s| - 1];
      SortBySorted(init, key);
      InsertLast(s[|s| - 1], init, key);
      assert init + [s[|s| - 1]] == s;
    }
  }
}
