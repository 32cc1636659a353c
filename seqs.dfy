/** Option type shared by every module. */
module Wrappers {
  datatype Option<T> = None | Some(value: T)
  {
    predicate IsSome() { this.Some? }
    function GetOr(default: T): T { if this.Some? then value else default }
  }
}

/** The array methods the source chains: `map`, `findIndex`, `find`, `filter`, `some`. */
module Seqs {
  import opened Wrappers

  /** `s.map(f)` */
  function MapSeq<A, B>(s: seq<A>, f: A -> B): (r: seq<B>)
    ensures |r| == |s| && forall k :: 0 <= k < |s| ==> r[k] == f(s[k])
  {
    seq(|s|, k requires 0 <= k < |s| => f(s[k]))
  }

  lemma MapSeqSnoc<A, B>(s: seq<A>, f: A -> B, i: nat)
    requires i < |s|
    ensures MapSeq(s[..i + 1], f) == MapSeq(s[..i], f) + [f(s[i])]
  {
    var l, r := MapSeq(s[..i + 1], f), MapSeq(s[..i], f) + [f(s[i])];
    forall k | 0 <= k < |l| ensures l[k] == r[k] {
      assert s[..i + 1][k] == s[k];
    }
  }

  lemma MapSeqAppend<A, B>(a: seq<A>, b: seq<A>, f: A -> B)
    ensures MapSeq(a + b, f) == MapSeq(a, f) + MapSeq(b, f)
  {
    var l, r := MapSeq(a + b, f), MapSeq(a, f) + MapSeq(b, f);
    forall k | 0 <= k < |l| ensures l[k] == r[k] {
      if k < |a| { assert (a + b)[k] == a[k]; } else { assert (a + b)[k] == b[k - |a|]; }
    }
  }

  /** A mapped sequence holds the images of the elements and nothing else. */
  lemma MapSeqMember<A, B>(s: seq<A>, f: A -> B, y: B)
    ensures y in MapSeq(s, f) <==> exists x :: x in s && f(x) == y
  {
    var r := MapSeq(s, f);
    if y in r {
      var k :| 0 <= k < |r| && r[k] == y;
      assert s[k] in s;
    }
    if exists x :: x in s && f(x) == y {
      var x :| x in s && f(x) == y;
      var k :| 0 <= k < |s| && s[k] == x;
      assert r[k] == y;
    }
  }

  /** `Math.min(...xs)` */
  function MinOf(xs: seq<int>): (r: int)
    requires |xs| > 0
    ensures r in xs && forall k :: 0 <= k < |xs| ==> r <= xs[k]
  {
    if |xs| == 1 then xs[0]
    else
      var m := MinOf(xs[1..]);
      if xs[0] <= m then xs[0] else m
  }

  /** `Math.max(...xs)` */
  function MaxOf(xs: seq<int>): (r: int)
    requires |xs| > 0
    ensures r in xs && forall k :: 0 <= k < |xs| ==> xs[k] <= r
  {
    if |xs| == 1 then xs[0]
    else
      var m := MaxOf(xs[1..]);
      if xs[0] >= m then xs[0] else m
  }

  /** Every option holds a value; then the values, in order. */
  function AllSome<T>(xs: seq<Option<T>>): (r: Option<seq<T>>)
    ensures r.Some? <==> forall k :: 0 <= k < |xs| ==> xs[k].Some?
    ensures r.Some? ==> |r.value| == |xs| && forall k :: 0 <= k < |xs| ==> r.value[k] == xs[k].value
  {
    if xs == [] then Some([])
    else if xs[0].None? then None
    else
      var rest := AllSome(xs[1..]);
      if rest.None? then None else Some([xs[0].value] + rest.value)
  }

  lemma AllSomeOf<T>(xs: seq<Option<T>>, ys: seq<T>)
    requires |xs| == |ys| && forall k :: 0 <= k < |xs| ==> xs[k] == Some(ys[k])
    ensures AllSome(xs) == Some(ys)
  {
    assert AllSome(xs).value == ys;
  }

  /** `[...new Set(xs)]`: the distinct elements in order of first occurrence. */
  function Unique<T(==)>(xs: seq<T>): seq<T>
  {
    if xs == [] then []
    else
      var d := Unique(xs[..|xs| - 1]);
      var x := xs[|xs| - 1];
      if x in d then d else d + [x]
  }

  lemma {:induction false} UniqueMembers<T>(xs: seq<T>, y: T)
    ensures y in Unique(xs) <==> y in xs
  {
    if xs != [] {
      var n := |xs| - 1;
      UniqueMembers(xs[..n], y);
      UniqueMembers(xs[..n], xs[n]);
      assert xs == xs[..n] + [xs[n]];
    }
  }

  /** The position of the first occurrence of `x`, or -1. */
  function FirstIndexOf<T(==)>(xs: seq<T>, x: T): (r: int)
    ensures -1 <= r < |xs|
    ensures r >= 0 ==> xs[r] == x
    ensures forall k :: 0 <= k < |xs| && (r == -1 || k < r) ==> xs[k] != x
  {
    FindIndex(xs, (y: T) => y == x)
  }

  /** `Unique` has no repetitions and keeps the order in which elements first occur. */
  lemma {:induction false} UniqueSpec<T>(xs: seq<T>)
    ensures Distinct(Unique(xs))
    ensures forall i, j :: 0 <= i < j < |Unique(xs)| ==> FirstIndexOf(xs, Unique(xs)[i]) < FirstIndexOf(xs, Unique(xs)[j])
  {
    if xs != [] {
      var n := |xs| - 1;
      var p := xs[..n];
      var x := xs[n];
      UniqueSpec(p);
      var d := Unique(p);
      forall y | y in d ensures y in p { UniqueMembers(p, y); }
      UniqueMembers(p, x);
      assert xs == p + [x];
      forall y | y in p ensures FirstIndexOf(xs, y) == FirstIndexOf(p, y) {
        FirstIndexPrefix(p, x, y);
      }
      if x !in d {
        var r := d + [x];
        assert x !in p;
        FirstIndexLast(p, x);
        forall i, j | 0 <= i < j < |r| ensures FirstIndexOf(xs, r[i]) < FirstIndexOf(xs, r[j]) {
          assert r[i] == d[i] && d[i] in p;
          if j < |d| {
            assert r[j] == d[j] && d[j] in p;
          }
        }
      }
    }
  }

  lemma FirstIndexPrefix<T>(p: seq<T>, x: T, y: T)
    requires y in p
    ensures FirstIndexOf(p + [x], y) == FirstIndexOf(p, y)
  {
    var q := p + [x];
    var a, b := FirstIndexOf(q, y), FirstIndexOf(p, y);
    assert forall k :: 0 <= k < |p| ==> q[k] == p[k];
    assert b >= 0;
  }

  lemma FirstIndexLast<T>(p: seq<T>, x: T)
    requires x !in p
    ensures FirstIndexOf(p + [x], x) == |p| && forall y :: y in p ==> FirstIndexOf(p + [x], y) < |p|
  {
    var q := p + [x];
    assert forall k :: 0 <= k < |p| ==> q[k] == p[k] && p[k] in p;
    assert q[|p|] == x;
    forall y | y in p ensures FirstIndexOf(q, y) < |p| {
      var k :| 0 <= k < |p| && p[k] == y;
      assert q[k] == y;
    }
  }

  /** `s.findIndex(p)`: the first index satisfying `p`, or -1. */
  function FindIndex<T>(s: seq<T>, p: T -> bool): (r: int)
    ensures -1 <= r < |s|
    ensures r >= 0 ==> p(s[r])
    ensures forall k :: 0 <= k < |s| && (r == -1 || k < r) ==> !p(s[k])
  {
    if s == [] then -1
    else if p(s[0]) then 0
    else var t := FindIndex(s[1..], p); if t == -1 then -1 else t + 1
  }

  /** `s` is `h + h` exactly when its two halves are equal and `h` is the first. */
  lemma DoubledIff<T>(s: seq<T>, h: seq<T>)
    ensures (|s| % 2 == 0 && s[..|s| / 2] == s[|s| / 2..] && h == s[..|s| / 2]) <==> s == h + h
  {
    if s == h + h {
      assert s[..|h|] == h && s[|h|..] == h;
    }
    if |s| % 2 == 0 && s[..|s| / 2] == s[|s| / 2..] && h == s[..|s| / 2] {
      assert s == s[..|s| / 2] + s[|s| / 2..];
    }
  }

  /** The first index passing `p` is the one `FindIndex` reports. */
  lemma FindIndexAt<T>(s: seq<T>, p: T -> bool, k: nat)
    requires k < |s| && p(s[k]) && forall j :: 0 <= j < k ==> !p(s[j])
    ensures FindIndex(s, p) == k
  {
  }

  /** The first match in a sequence grown by one: the old first match, else the new element if it matches. */
  lemma FindIndexSnoc<T>(s: seq<T>, p: T -> bool, n: nat)
    requires n < |s|
    ensures FindIndex(s[..n + 1], p) == (if FindIndex(s[..n], p) >= 0 then FindIndex(s[..n], p) else if p(s[n]) then n else -1)
  {
    var i, t := FindIndex(s[..n], p), s[..n + 1];
    assert forall k :: 0 <= k < n ==> t[k] == s[..n][k];
    if i >= 0 {
      FindIndexAt(t, p, i);
    } else if p(s[n]) {
      FindIndexAt(t, p, n);
    }
  }

  /** `s.find(p)` */
  function Find<T>(s: seq<T>, p: T -> bool): (r: Option<T>)
    ensures r.None? <==> forall k :: 0 <= k < |s| ==> !p(s[k])
    ensures r.Some? ==> exists k :: 0 <= k < |s| && s[k] == r.value && p(s[k])
                                  && forall j :: 0 <= j < k ==> !p(s[j])
  {
    var k := FindIndex(s, p);
    if k == -1 then None else Some(s[k])
  }

  /** `s.filter(p)` */
  function Filter<T>(s: seq<T>, p: T -> bool): (r: seq<T>)
    ensures |r| <= |s|
    ensures forall k :: 0 <= k < |r| ==> p(r[k]) && r[k] in s
  {
    if s == [] then [] else (if p(s[0]) then [s[0]] else []) + Filter(s[1..], p)
  }

  /** The values `f` yields along `s`, in order: a loop that pushes `f(x)` whenever there is one. */
  function Collect<A, B>(s: seq<A>, f: A -> Option<B>): seq<B>
  {
    if s == [] then []
    else
      var n := |s| - 1;
      Collect(s[..n], f) + (if f(s[n]).Some? then [f(s[n]).value] else [])
  }

  lemma CollectSnoc<A, B>(s: seq<A>, f: A -> Option<B>, i: nat)
    requires i < |s|
    ensures Collect(s[..i + 1], f) == Collect(s[..i], f) + (if f(s[i]).Some? then [f(s[i]).value] else [])
  {
    assert s[..i + 1][..i] == s[..i];
  }

  /** At most one value per element, each of them yielded by some element. */
  lemma {:induction false} CollectSpec<A, B>(s: seq<A>, f: A -> Option<B>)
    ensures |Collect(s, f)| <= |s|
    ensures forall k :: 0 <= k < |Collect(s, f)| ==> exists j :: 0 <= j < |s| && f(s[j]) == Some(Collect(s, f)[k])
  {
    if s != [] {
      var n := |s| - 1;
      CollectSpec(s[..n], f);
      var c := Collect(s, f);
      forall k | 0 <= k < |c| ensures exists j :: 0 <= j < |s| && f(s[j]) == Some(c[k]) {
        if k < |Collect(s[..n], f)| {
          var j :| 0 <= j < n && f(s[..n][j]) == Some(Collect(s[..n], f)[k]);
          assert s[..n][j] == s[j];
        } else {
          assert f(s[n]) == Some(c[k]);
        }
      }
    }
  }

  /** A value is collected exactly when some element yields it. */
  lemma {:induction false} CollectMembers<A, B>(s: seq<A>, f: A -> Option<B>, y: B)
    ensures y in Collect(s, f) <==> exists j :: 0 <= j < |s| && f(s[j]) == Some(y)
  {
    if s != [] {
      var n := |s| - 1;
      CollectMembers(s[..n], f, y);
      if exists j :: 0 <= j < |s| && f(s[j]) == Some(y) {
        var j :| 0 <= j < |s| && f(s[j]) == Some(y);
        if j < n {
          assert s[..n][j] == s[j];
        }
      }
      if y in Collect(s[..n], f) {
        var j :| 0 <= j < n && f(s[..n][j]) == Some(y);
        assert s[j] == s[..n][j];
      }
    }
  }

  /** `s.some(p)` */
  predicate Any<T>(s: seq<T>, p: T -> bool)
  {
    exists k :: 0 <= k < |s| && p(s[k])
  }

  lemma {:induction false} FilterMembers<T>(s: seq<T>, p: T -> bool, x: T)
    ensures x in Filter(s, p) <==> x in s && p(x)
  {
    if s != [] {
      FilterMembers(s[1..], p, x);
      assert x in s <==> x == s[0] || x in s[1..];
    }
  }

  /** Filters by predicates that agree on every element are the same. */
  lemma {:induction false} FilterSame<T>(s: seq<T>, p: T -> bool, q: T -> bool)
    requires forall k :: 0 <= k < |s| ==> p(s[k]) == q(s[k])
    ensures Filter(s, p) == Filter(s, q)
  {
    if s != [] {
      assert forall k :: 0 <= k < |s[1..]| ==> s[1..][k] == s[k + 1];
      FilterSame(s[1..], p, q);
    }
  }

  lemma {:induction false} FilterAppend<T>(a: seq<T>, b: seq<T>, p: T -> bool)
    ensures Filter(a + b, p) == Filter(a, p) + Filter(b, p)
  {
    if a == [] {
      assert a + b == b;
    } else {
      assert (a + b)[1..] == a[1..] + b;
      FilterAppend(a[1..], b, p);
    }
  }

  lemma FilterSnoc<T>(s: seq<T>, p: T -> bool, i: nat)
    requires i < |s|
    ensures Filter(s[..i + 1], p) == Filter(s[..i], p) + (if p(s[i]) then [s[i]] else [])
  {
    assert s[..i + 1] == s[..i] + [s[i]];
    FilterAppend(s[..i], [s[i]], p);
    assert Filter([s[i]], p) == (if p(s[i]) then [s[i]] else []) + Filter([], p);
  }

  /** `p`, `q` and `r` split every element of `s` into exactly one part. */
  predicate ThreeWay<T>(s: seq<T>, p: T -> bool, q: T -> bool, r: T -> bool)
  {
    forall k :: 0 <= k < |s| ==>
      (p(s[k]) && !q(s[k]) && !r(s[k])) || (!p(s[k]) && q(s[k]) && !r(s[k])) || (!p(s[k]) && !q(s[k]) && r(s[k]))
  }

  /** Three filters by mutually exclusive, exhaustive predicates split the multiset of `s`. */
  lemma {:induction false} FilterThreeWay<T>(s: seq<T>, p: T -> bool, q: T -> bool, r: T -> bool)
    requires ThreeWay(s, p, q, r)
    ensures multiset(Filter(s, p)) + multiset(Filter(s, q)) + multiset(Filter(s, r)) == multiset(s)
  {
    if s != [] {
      assert ThreeWay(s[1..], p, q, r) by {
        forall k | 0 <= k < |s[1..]| ensures s[1..][k] == s[k + 1] { }
      }
      FilterThreeWay(s[1..], p, q, r);
      assert s == [s[0]] + s[1..];
      assert multiset(s) == multiset{s[0]} + multiset(s[1..]);
    }
  }

  /** A filter by `p` and a filter by its negation split the multiset of `s`. */
  lemma {:induction false} FilterTwoWay<T>(s: seq<T>, p: T -> bool, q: T -> bool)
    requires forall k :: 0 <= k < |s| ==> (p(s[k]) <==> !q(s[k]))
    ensures multiset(Filter(s, p)) + multiset(Filter(s, q)) == multiset(s)
  {
    if s != [] {
      FilterTwoWay(s[1..], p, q);
      assert s == [s[0]] + s[1..];
      assert multiset(s) == multiset{s[0]} + multiset(s[1..]);
    }
  }

  /** `a` can be obtained from `b` by deleting elements. */
  ghost predicate Subsequence<T>(a: seq<T>, b: seq<T>)
    decreases |b|
  {
    a == [] || (b != [] && ((a[0] == b[0] && Subsequence(a[1..], b[1..])) || Subsequence(a, b[1..])))
  }

  lemma {:induction false} SubsequenceTrans<T>(a: seq<T>, b: seq<T>, c: seq<T>)
    requires Subsequence(a, b) && Subsequence(b, c)
    ensures Subsequence(a, c)
    decreases |c|
  {
    if a != [] {
      if b[0] == c[0] && Subsequence(b[1..], c[1..]) {
        if a[0] == b[0] && Subsequence(a[1..], b[1..]) {
          SubsequenceTrans(a[1..], b[1..], c[1..]);
        } else {
          SubsequenceTrans(a, b[1..], c[1..]);
        }
      } else {
        SubsequenceTrans(a, b, c[1..]);
      }
    }
  }

  lemma {:induction false} FilterSubsequence<T>(s: seq<T>, p: T -> bool)
    ensures Subsequence(Filter(s, p), s)
  {
    if s != [] {
      FilterSubsequence(s[1..], p);
      var a := Filter(s, p);
      if p(s[0]) {
        assert a == [s[0]] + Filter(s[1..], p);
        assert a[0] == s[0] && a[1..] == Filter(s[1..], p);
      } else {
        assert a == Filter(s[1..], p);
      }
    }
  }

  lemma {:induction false} FilterSubMultiset<T>(s: seq<T>, p: T -> bool)
    ensures multiset(Filter(s, p)) <= multiset(s)
  {
    if s != [] {
      FilterSubMultiset(s[1..], p);
      assert s == [s[0]] + s[1..];
      assert multiset(s) == multiset{s[0]} + multiset(s[1..]);
    }
  }

  ghost predicate Distinct<T>(s: seq<T>)
  {
    forall i, j :: 0 <= i < j < |s| ==> s[i] != s[j]
  }

  /** In a sequence without repetitions every element occurs once. */
  lemma {:induction false} DistinctCount<T>(s: seq<T>, x: T)
    requires Distinct(s)
    ensures multiset(s)[x] <= 1
  {
    if s != [] {
      assert Distinct(s[1..]) by {
        forall i, j | 0 <= i < j < |s[1..]| ensures s[1..][i] != s[1..][j] {
          assert s[1..][i] == s[i + 1] && s[1..][j] == s[j + 1];
        }
      }
      DistinctCount(s[1..], x);
      assert s == [s[0]] + s[1..];
      assert multiset(s) == multiset{s[0]} + multiset(s[1..]);
      assert forall j :: 0 <= j < |s[1..]| ==> s[1..][j] == s[j + 1] != s[0];
    }
  }

  /** The lists of `xss`, one after another. */
  /** The lists `f` gives for each element, one after another. */
  function FlatMap<A, B>(xs: seq<A>, f: A -> seq<B>): seq<B>
  {
    if xs == [] then [] else FlatMap(xs[..|xs| - 1], f) + f(xs[|xs| - 1])
  }

  lemma FlatMapSnoc<A, B>(xs: seq<A>, f: A -> seq<B>, i: nat)
    requires i < |xs|
    ensures FlatMap(xs[..i + 1], f) == FlatMap(xs[..i], f) + f(xs[i])
  {
    assert xs[..i + 1][..i] == xs[..i];
  }

  /** An element of the result is in the list of one of the elements, and conversely. */
  lemma {:induction false} FlatMapMembers<A, B>(xs: seq<A>, f: A -> seq<B>, y: B)
    ensures y in FlatMap(xs, f) <==> exists x :: x in xs && y in f(x)
  {
    if xs != [] {
      var n := |xs| - 1;
      FlatMapMembers(xs[..n], f, y);
      if y in f(xs[n]) {
        assert xs[n] in xs;
      }
      if exists x :: x in xs && y in f(x) {
        var x :| x in xs && y in f(x);
        if x != xs[n] {
          var j :| 0 <= j < |xs| && xs[j] == x;
          assert xs[..n][j] == x;
        }
      }
    }
  }
}
