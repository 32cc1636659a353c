/**
 * Store matching of the older single-file extractor (`extract.ts`): the
 * catalogue index, the search for every store named in a text (with a
 * second pass for a name whose first letters were cut off), and the tiered
 * match of one text against the catalogue.
 */
module LegacyMatch {
  import opened Wrappers
  import opened Strings
  import opened Seqs
  import opened Sorting
  import opened Types
  import opened TextUtils
  import opened LegacyText

  /** `StoreMatch`: a store, a confidence, and where its name starts in the no-space text. */
  datatype StoreMatch = StoreMatch(store: Store, confidence: real, startIndex: int)

  function StartOf(m: StoreMatch): int { m.startIndex }

  function NameKey(s: Store): string { NormalizeForMatch(s.name) }
  function NoSpaceKey(s: Store): string { NormalizeNoSpace(s.name) }

  // ---------------------------------------------------------------------
  // buildStoreIndex
  // ---------------------------------------------------------------------

  /** `Map.set` along `xs`: each key ends up with the last element that has it. */
  function KeyMap<T>(xs: seq<T>, key: T -> string): map<string, T>
  {
    if xs == [] then map[] else KeyMap(xs[..|xs| - 1], key)[key(xs[|xs| - 1]) := xs[|xs| - 1]]
  }

  /** `xs[i]` is the last element of `xs` with key `k`. */
  predicate LastWithKey<T>(xs: seq<T>, key: T -> string, k: string, i: int)
  {
    0 <= i < |xs| && key(xs[i]) == k && forall j :: i < j < |xs| ==> key(xs[j]) != k
  }

  /** Exactly the keys of `xs` are mapped, each to the last element that has it. */
  lemma {:induction false} KeyMapSpec<T>(xs: seq<T>, key: T -> string, k: string)
    ensures k in KeyMap(xs, key) <==> exists i :: 0 <= i < |xs| && key(xs[i]) == k
    ensures k in KeyMap(xs, key) ==> exists i :: LastWithKey(xs, key, k, i) && KeyMap(xs, key)[k] == xs[i]
  {
    if xs != [] {
      var n := |xs| - 1;
      KeyMapSpec(xs[..n], key, k);
      assert forall j :: 0 <= j < n ==> xs[..n][j] == xs[j];
      if key(xs[n]) == k {
        assert LastWithKey(xs, key, k, n);
      } else if k in KeyMap(xs[..n], key) {
        var i :| LastWithKey(xs[..n], key, k, i) && KeyMap(xs[..n], key)[k] == xs[..n][i];
        assert LastWithKey(xs, key, k, i);
      }
    }
  }

  datatype StoreIndex = StoreIndex(byNormalized: map<string, Store>, byNoSpace: map<string, Store>, stores: seq<Store>)

  /** `buildStoreIndex`, as a function of the catalogue. */
  function IndexStores(stores: seq<Store>): StoreIndex
  {
    StoreIndex(KeyMap(stores, NameKey), KeyMap(stores, NoSpaceKey), stores)
  }

  /** An index built from its own catalogue. */
  predicate Indexed(idx: StoreIndex)
  {
    idx == IndexStores(idx.stores)
  }

  /**
   * Every match key and every no-space key of the catalogue is indexed,
   * and a key several stores share goes to the last of them.
   */
  lemma IndexStoresSpec(stores: seq<Store>, k: string)
    ensures k in IndexStores(stores).byNormalized <==> exists i :: 0 <= i < |stores| && NameKey(stores[i]) == k
    ensures k in IndexStores(stores).byNormalized ==>
      exists i :: LastWithKey(stores, NameKey, k, i) && IndexStores(stores).byNormalized[k] == stores[i]
    ensures k in IndexStores(stores).byNoSpace <==> exists i :: 0 <= i < |stores| && NoSpaceKey(stores[i]) == k
    ensures k in IndexStores(stores).byNoSpace ==>
      exists i :: LastWithKey(stores, NoSpaceKey, k, i) && IndexStores(stores).byNoSpace[k] == stores[i]
  {
    KeyMapSpec(stores, NameKey, k);
    KeyMapSpec(stores, NoSpaceKey, k);
  }

  /** The loop of `buildStoreIndex`. */
  method BuildStoreIndex(stores: seq<Store>) returns (idx: StoreIndex)
    ensures idx == IndexStores(stores) && Indexed(idx)
  {
    var byNormalized: map<string, Store> := map[];
    var byNoSpace: map<string, Store> := map[];
    for i := 0 to |stores|
      invariant byNormalized == KeyMap(stores[..i], NameKey)
      invariant byNoSpace == KeyMap(stores[..i], NoSpaceKey)
    {
      assert stores[..i + 1][..i] == stores[..i];
      var store := stores[i];
      byNormalized := byNormalized[NameKey(store) := store];
      byNoSpace := byNoSpace[NoSpaceKey(store) := store];
    }
    assert stores[..|stores|] == stores;
    idx := StoreIndex(byNormalized, byNoSpace, stores);
  }

  // ---------------------------------------------------------------------
  // findStoresInText, first pass
  // ---------------------------------------------------------------------

  /**
   * The starts the scan records for `needle` from `from` on, read position
   * by position: an occurrence is recorded and the scan resumes after its
   * end; elsewhere it moves on by one.
   */
  function Occurrences(hay: string, needle: string, from: nat): seq<int>
    requires needle != []
    decreases |hay| - from
  {
    if from + |needle| > |hay| then []
    else if OccursAt(hay, needle, from) then [from] + Occurrences(hay, needle, from + |needle|)
    else Occurrences(hay, needle, from + 1)
  }

  /** The `indexOf` loop walks the same starts: the next one, `i`, is the first occurrence from `from` on. */
  lemma {:induction false} OccurrencesIndexOf(hay: string, needle: string, from: nat, i: int)
    requires needle != [] && i == IndexOfFrom(hay, needle, from)
    ensures i < 0 ==> Occurrences(hay, needle, from) == []
    ensures i >= 0 ==> Occurrences(hay, needle, from) == [i] + Occurrences(hay, needle, i + |needle|)
    decreases |hay| - from
  {
    if from + |needle| > |hay| {
      assert i == -1;
    } else if OccursAt(hay, needle, from) {
      assert i == from;
      assert Occurrences(hay, needle, from) == [from] + Occurrences(hay, needle, from + |needle|);
    } else {
      assert i == IndexOfFrom(hay, needle, from + 1);
      assert Occurrences(hay, needle, from) == Occurrences(hay, needle, from + 1);
      OccurrencesIndexOf(hay, needle, from + 1, i);
    }
  }

  /** Recorded starts are occurrences from `from` on, each starting after the previous one ends. */
  predicate ScanShaped(hay: string, needle: string, from: int, r: seq<int>)
  {
    (forall a :: 0 <= a < |r| ==> from <= r[a] && OccursAt(hay, needle, r[a]))
    && (forall a, b :: 0 <= a < b < |r| ==> r[a] + |needle| <= r[b])
  }

  lemma {:induction false} OccurrencesSound(hay: string, needle: string, from: nat)
    requires needle != []
    ensures ScanShaped(hay, needle, from, Occurrences(hay, needle, from))
    decreases |hay| - from
  {
    if from + |needle| <= |hay| {
      if OccursAt(hay, needle, from) {
        OccurrencesSound(hay, needle, from + |needle|);
      } else {
        OccurrencesSound(hay, needle, from + 1);
      }
    }
  }

  /** No occurrence is missed: each one is recorded or overlaps a recorded one. */
  lemma {:induction false} OccurrencesComplete(hay: string, needle: string, from: nat, k: int)
    requires needle != [] && from <= k && OccursAt(hay, needle, k)
    ensures exists a ::
      0 <= a < |Occurrences(hay, needle, from)|
      && Occurrences(hay, needle, from)[a] <= k < Occurrences(hay, needle, from)[a] + |needle|
    decreases |hay| - from
  {
    var r := Occurrences(hay, needle, from);
    if OccursAt(hay, needle, from) {
      if k < from + |needle| {
        assert r[0] == from;
      } else {
        OccurrencesComplete(hay, needle, from + |needle|, k);
        var rest := Occurrences(hay, needle, from + |needle|);
        var a :| 0 <= a < |rest| && rest[a] <= k < rest[a] + |needle|;
        assert r[a + 1] == rest[a];
      }
    } else {
      OccurrencesComplete(hay, needle, from + 1, k);
    }
  }

  /** One step of the `indexOf` loop, which has recorded `starts` so far. */
  lemma OccurrencesNext(hay: string, needle: string, from: nat, starts: seq<int>, i: int)
    requires needle != [] && i == IndexOfFrom(hay, needle, from)
    requires starts + Occurrences(hay, needle, from) == Occurrences(hay, needle, 0)
    ensures i < 0 ==> starts == Occurrences(hay, needle, 0)
    ensures i >= 0 ==> (starts + [i]) + Occurrences(hay, needle, i + |needle|) == Occurrences(hay, needle, 0)
  {
    OccurrencesIndexOf(hay, needle, from, i);
    if i >= 0 {
      var rest := Occurrences(hay, needle, i + |needle|);
      assert (starts + [i]) + rest == starts + ([i] + rest);
    }
  }

  /** The matches of one store: every recorded start of its non-empty no-space name, at 0.95. */
  function StoreHits(hay: string, store: Store): seq<StoreMatch>
  {
    var key := NoSpaceKey(store);
    if key == [] then [] else MapSeq(Occurrences(hay, key, 0), HitAt(store))
  }

  function HitAt(store: Store): int -> StoreMatch
  {
    (i: int) => StoreMatch(store, 0.95, i)
  }

  function HitsOf(hay: string): Store -> seq<StoreMatch>
  {
    (s: Store) => StoreHits(hay, s)
  }

  /** The first pass: each store's matches, store after store. */
  function FirstPass(hay: string, stores: seq<Store>): seq<StoreMatch>
  {
    FlatMap(stores, HitsOf(hay))
  }

  /** A first-pass match is a recorded occurrence of a catalogue store's name, and every such one is listed. */
  lemma FirstPassMembers(hay: string, stores: seq<Store>, m: StoreMatch)
    ensures m in FirstPass(hay, stores) <==>
      m.store in stores && NoSpaceKey(m.store) != [] && m.confidence == 0.95
      && m.startIndex in Occurrences(hay, NoSpaceKey(m.store), 0)
  {
    FlatMapMembers(stores, HitsOf(hay), m);
    if m in FirstPass(hay, stores) {
      var x :| x in stores && m in StoreHits(hay, x);
      MapSeqMember(Occurrences(hay, NoSpaceKey(x), 0), HitAt(x), m);
    }
    if m.store in stores && NoSpaceKey(m.store) != [] && m.confidence == 0.95
       && m.startIndex in Occurrences(hay, NoSpaceKey(m.store), 0) {
      MapSeqMember(Occurrences(hay, NoSpaceKey(m.store), 0), HitAt(m.store), m);
      assert m in HitsOf(hay)(m.store);
    }
  }

  // ---------------------------------------------------------------------
  // findStoresInText, second pass
  // ---------------------------------------------------------------------

  /** `key` is `tail` with one to three leading characters cut off. */
  predicate TruncatedTo(key: string, tail: string)
  {
    |key| > |tail| && |key| - |tail| <= 3 && key[|key| - |tail|..] == tail
  }

  /** The first store whose no-space name ends with `tail` after a cut of one to three characters, or -1. */
  function TruncatedIndex(stores: seq<Store>, tail: string): (k: int)
    ensures -1 <= k < |stores|
    ensures k >= 0 ==> TruncatedTo(NoSpaceKey(stores[k]), tail)
    ensures forall j :: 0 <= j < |stores| && (k == -1 || j < k) ==> !TruncatedTo(NoSpaceKey(stores[j]), tail)
  {
    FindIndex(stores, TruncatedOf(NoSpaceKey, tail))
  }

  function TruncatedOf(key: Store -> string, tail: string): Store -> bool
  {
    (s: Store) => TruncatedTo(key(s), tail)
  }

  /** How many characters were cut off. */
  function Cut(store: Store, tail: string): real
  {
    (|NoSpaceKey(store)| - |tail|) as real
  }

  /** A truncated-name match: `base` less 0.03 per cut character. */
  function TruncMatch(store: Store, tail: string, base: real, start: int): StoreMatch
  {
    StoreMatch(store, base - Cut(store, tail) * 0.03, start)
  }

  /** `s.slice(i)` */
  function SliceFrom(s: string, i: int): (r: string)
    ensures |r| <= |s| && r == s[|s| - |r|..]
  {
    if i >= |s| then []
    else if i >= 0 then s[i..]
    else if i + |s| >= 0 then s[i + |s|..]
    else s
  }

  /** The end of `m`'s store name in the no-space text. */
  function EndOf(m: StoreMatch): int
  {
    m.startIndex + |NoSpaceKey(m.store)|
  }

  /** The second pass over the sorted matches: at most one truncated store after the last match. */
  function WithSuffix(hay: string, stores: seq<Store>, sorted: seq<StoreMatch>): seq<StoreMatch>
  {
    if sorted == [] then []
    else
      var last := sorted[|sorted| - 1];
      var after := SliceFrom(hay, EndOf(last));
      if |after| < 5 then sorted
      else
        var k := TruncatedIndex(stores, after);
        if k < 0 then sorted
        else sorted + [TruncMatch(stores[k], after, 0.88, EndOf(last))]
  }

  /** `findStoresInText`, as a function of the text and the index. */
  function FindStoresInText(text: string, idx: StoreIndex): seq<StoreMatch>
  {
    FindStoresIn(NormalizeNoSpace(text), idx.stores)
  }

  /** Both passes and both sorts, on the no-space text. */
  function FindStoresIn(hay: string, stores: seq<Store>): seq<StoreMatch>
  {
    SortBy(WithSuffix(hay, stores, SortBy(FirstPass(hay, stores), StartOf)), StartOf)
  }

  /**
   * The suffix match `h` added after the sorted first-pass matches `sorted`:
   * it names the first store whose no-space name, cut by one to three
   * characters, is the (at least five-character) rest of the text after the
   * last match, starts where that match ends, and scores 0.88 less 0.03 per
   * cut character.
   */
  predicate SuffixMatch(hay: string, stores: seq<Store>, sorted: seq<StoreMatch>, h: StoreMatch)
  {
    sorted != []
    && var last := sorted[|sorted| - 1];
       var after := SliceFrom(hay, EndOf(last));
       |after| >= 5 && TruncatedIndex(stores, after) >= 0
       && h == TruncMatch(stores[TruncatedIndex(stores, after)], after, 0.88, EndOf(last))
  }

  lemma SuffixMatchFacts(hay: string, stores: seq<Store>, sorted: seq<StoreMatch>, h: StoreMatch)
    requires SuffixMatch(hay, stores, sorted, h)
    requires forall m :: m in sorted ==> m.store in stores && NoSpaceKey(m.store) != []
    requires SortedBy(sorted, StartOf)
    ensures h.store in stores && 0.79 <= h.confidence <= 0.85
    ensures forall j :: 0 <= j < |sorted| ==> sorted[j].startIndex < h.startIndex
  {
    var last := sorted[|sorted| - 1];
    assert last in sorted;
    var after := SliceFrom(hay, EndOf(last));
    var k := TruncatedIndex(stores, after);
    assert 1.0 <= Cut(stores[k], after) <= 3.0;
    var lastLen := |NoSpaceKey(last.store)|;
    assert lastLen > 0 && h.startIndex == last.startIndex + lastLen;
    SortedLastGreatest(sorted, StartOf);
    forall j | 0 <= j < |sorted| ensures sorted[j].startIndex < h.startIndex {
      assert StartOf(sorted[j]) <= StartOf(last);
    }
  }

  /**
   * `findStoresInText`: the first-pass matches in text order, possibly
   * followed by one suffix match; the final sort changes nothing. First-pass
   * matches are exactly the recorded occurrences of the stores' no-space
   * names (`FirstPassMembers`), and each no-space occurrence is recorded or
   * overlaps a recorded one of the same name (`OccurrencesComplete`).
   */
  lemma FindStoresInTextSpec(text: string, idx: StoreIndex)
    ensures var hay := NormalizeNoSpace(text);
      var sorted := SortBy(FirstPass(hay, idx.stores), StartOf);
      FindStoresInText(text, idx) == sorted
      || exists h :: SuffixMatch(hay, idx.stores, sorted, h) && FindStoresInText(text, idx) == sorted + [h]
    ensures SortedBy(FindStoresInText(text, idx), StartOf)
    ensures forall m :: m in FindStoresInText(text, idx) ==> m.store in idx.stores && 0.79 <= m.confidence <= 0.95
    ensures NormalizeNoSpace(text) == [] ==> FindStoresInText(text, idx) == []
  {
    var hay := NormalizeNoSpace(text);
    FindStoresInShape(hay, idx.stores);
    FindStoresInFacts(hay, idx.stores);
  }

  /** The first-pass matches in text order: catalogue stores with non-empty no-space names, at 0.95. */
  lemma SortedFirstPass(hay: string, stores: seq<Store>)
    ensures SortedBy(SortBy(FirstPass(hay, stores), StartOf), StartOf)
    ensures forall m :: m in SortBy(FirstPass(hay, stores), StartOf) ==>
      m.store in stores && NoSpaceKey(m.store) != [] && m.confidence == 0.95
  {
    var first := FirstPass(hay, stores);
    var sorted := SortBy(first, StartOf);
    SortByIsSorted(first, StartOf);
    forall m | m in sorted ensures m.store in stores && NoSpaceKey(m.store) != [] && m.confidence == 0.95 {
      assert m in multiset(sorted);
      FirstPassMembers(hay, stores, m);
    }
  }

  lemma FindStoresInShape(hay: string, stores: seq<Store>)
    ensures var sorted := SortBy(FirstPass(hay, stores), StartOf);
      FindStoresIn(hay, stores) == sorted
      || exists h :: SuffixMatch(hay, stores, sorted, h) && FindStoresIn(hay, stores) == sorted + [h]
  {
    var sorted := SortBy(FirstPass(hay, stores), StartOf);
    SortedFirstPass(hay, stores);
    var w := WithSuffix(hay, stores, sorted);
    if w == sorted {
      SortBySorted(sorted, StartOf);
    } else {
      var h := w[|w| - 1];
      assert w == sorted + [h];
      assert SuffixMatch(hay, stores, sorted, h);
      SuffixMatchFacts(hay, stores, sorted, h);
      SortedSnoc(sorted, h);
      SortBySorted(w, StartOf);
    }
  }

  lemma SortedSnoc(sorted: seq<StoreMatch>, h: StoreMatch)
    requires SortedBy(sorted, StartOf)
    requires forall j :: 0 <= j < |sorted| ==> sorted[j].startIndex < h.startIndex
    ensures SortedBy(sorted + [h], StartOf)
  {
    var w := sorted + [h];
    forall i, j | 0 <= i < j < |w| ensures StartOf(w[i]) <= StartOf(w[j]) {
      if j == |w| - 1 {
        assert w[i] == sorted[i];
      } else {
        assert w[i] == sorted[i] && w[j] == sorted[j];
      }
    }
  }

  lemma FindStoresInFacts(hay: string, stores: seq<Store>)
    ensures SortedBy(FindStoresIn(hay, stores), StartOf)
    ensures forall m :: m in FindStoresIn(hay, stores) ==> m.store in stores && 0.79 <= m.confidence <= 0.95
    ensures hay == [] ==> FindStoresIn(hay, stores) == []
  {
    var first := FirstPass(hay, stores);
    var sorted := SortBy(first, StartOf);
    SortedFirstPass(hay, stores);
    FindStoresInShape(hay, stores);
    var r := FindStoresIn(hay, stores);
    if r != sorted {
      var h :| SuffixMatch(hay, stores, sorted, h) && r == sorted + [h];
      SuffixMatchFacts(hay, stores, sorted, h);
      SortedSnoc(sorted, h);
      forall m | m in r ensures m.store in stores && 0.79 <= m.confidence <= 0.95 {
        if m != h {
          assert m in sorted;
        }
      }
    }
    if hay == [] {
      FindStoresInEmpty(stores);
    }
  }

  lemma FindStoresInEmpty(stores: seq<Store>)
    ensures FindStoresIn([], stores) == []
  {
    var first := FirstPass([], stores);
    if first != [] {
      FirstPassMembers([], stores, first[0]);
      assert false;
    }
    assert SortBy(first, StartOf) == [];
  }

  // --- the loops -------------------------------------------------------

  /** The `while (searchStart < textNorm.length)` loop for one store and its no-space name. */
  method StoreHitsScan(hay: string, store: Store, storeNorm: string) returns (hits: seq<StoreMatch>)
    requires storeNorm != []
    ensures hits == MapSeq(Occurrences(hay, storeNorm, 0), HitAt(store))
  {
    hits := [];
    ghost var starts: seq<int> := [];
    var searchStart := 0;
    while searchStart < |hay|
      invariant starts + Occurrences(hay, storeNorm, searchStart) == Occurrences(hay, storeNorm, 0)
      invariant hits == MapSeq(starts, HitAt(store))
      decreases |hay| - searchStart
    {
      var idx := IndexOfFrom(hay, storeNorm, searchStart);
      OccurrencesNext(hay, storeNorm, searchStart, starts, idx);
      if idx < 0 {
        break;
      }
      MapSeqAppend(starts, [idx], HitAt(store));
      starts := starts + [idx];
      hits := hits + [StoreMatch(store, 0.95, idx)];
      searchStart := idx + |storeNorm|;
    }
    assert starts == Occurrences(hay, storeNorm, 0);
  }

  /** The `for (const store of index.stores)` loop that stops at the first truncated name, over the store key `key`. */
  method TruncatedScan(stores: seq<Store>, key: Store -> string, tail: string) returns (k: int)
    ensures k == FindIndex(stores, TruncatedOf(key, tail))
  {
    for i := 0 to |stores|
      invariant forall j :: 0 <= j < i ==> !TruncatedOf(key, tail)(stores[j])
    {
      var storeNorm := key(stores[i]);
      if |storeNorm| > |tail| {
        var truncated := |storeNorm| - |tail|;
        if truncated <= 3 && storeNorm[|storeNorm| - |tail|..] == tail {
          FindIndexAt(stores, TruncatedOf(key, tail), i);
          return i;
        }
      }
    }
    k := -1;
  }

  /** The first-pass loop over the catalogue. */
  method FirstPassScan(textNorm: string, stores: seq<Store>) returns (results: seq<StoreMatch>)
    ensures results == FirstPass(textNorm, stores)
  {
    results := [];
    for i := 0 to |stores|
      invariant results == FirstPass(textNorm, stores[..i])
    {
      FlatMapSnoc(stores, HitsOf(textNorm), i);
      var store := stores[i];
      var storeNorm := NoSpaceKey(store);
      if storeNorm != [] {
        var hits := StoreHitsScan(textNorm, store, storeNorm);
        results := results + hits;
      }
    }
    assert stores[..|stores|] == stores;
  }

  /** The second pass, on the sorted first-pass matches. */
  method SecondPass(textNorm: string, stores: seq<Store>, sorted: seq<StoreMatch>) returns (results: seq<StoreMatch>)
    ensures results == WithSuffix(textNorm, stores, sorted)
  {
    results := sorted;
    if |results| > 0 {
      var lastMatch := results[|results| - 1];
      var afterLastStore := SliceFrom(textNorm, EndOf(lastMatch));
      if |afterLastStore| >= 5 {
        var k := TruncatedScan(stores, NoSpaceKey, afterLastStore);
        if k >= 0 {
          results := results + [TruncMatch(stores[k], afterLastStore, 0.88, EndOf(lastMatch))];
        }
      }
    }
  }

  /** `findStoresInText` */
  method FindStoresInTextScan(text: string, idx: StoreIndex) returns (results: seq<StoreMatch>)
    ensures results == FindStoresInText(text, idx)
  {
    var textNorm := NormalizeNoSpace(text);
    results := FirstPassScan(textNorm, idx.stores);
    results := SortBy(results, StartOf);
    results := SecondPass(textNorm, idx.stores, results);
    results := SortBy(results, StartOf);
  }

  // ---------------------------------------------------------------------
  // matchSingleStore
  // ---------------------------------------------------------------------

  datatype Scored = Scored(store: Store, score: real)

  /** The fuzzy loop's `best`: the first store with the greatest score. */
  function BestScored(stores: seq<Store>, score: Store -> real): Option<Scored>
  {
    if stores == [] then None
    else
      var best := BestScored(stores[..|stores| - 1], score);
      var last := stores[|stores| - 1];
      if best.None? || score(last) > best.value.score then Some(Scored(last, score(last))) else best
  }

  /** `stores[i]` has the greatest score, and every earlier store a smaller one. */
  predicate FirstMaximum(stores: seq<Store>, score: Store -> real, i: int)
  {
    0 <= i < |stores|
    && (forall j :: 0 <= j < |stores| ==> score(stores[j]) <= score(stores[i]))
    && (forall j :: 0 <= j < i ==> score(stores[j]) < score(stores[i]))
  }

  lemma {:induction false} BestScoredSpec(stores: seq<Store>, score: Store -> real)
    ensures BestScored(stores, score).None? <==> stores == []
    ensures stores != [] ==> exists i ::
      FirstMaximum(stores, score, i) && BestScored(stores, score) == Some(Scored(stores[i], score(stores[i])))
  {
    if stores != [] {
      var n := |stores| - 1;
      var init := stores[..n];
      BestScoredSpec(init, score);
      assert forall j :: 0 <= j < n ==> init[j] == stores[j];
      if init == [] {
        assert FirstMaximum(stores, score, 0);
      } else {
        var i :| FirstMaximum(init, score, i) && BestScored(init, score) == Some(Scored(init[i], score(init[i])));
        var top := score(init[i]);
        assert forall j :: 0 <= j < n ==> score(stores[j]) <= top by {
          forall j | 0 <= j < n ensures score(stores[j]) <= top {
            assert score(init[j]) <= top;
          }
        }
        if score(stores[n]) > top {
          assert FirstMaximum(stores, score, n);
        } else {
          assert forall j :: 0 <= j < i ==> score(stores[j]) < top by {
            forall j | 0 <= j < i ensures score(stores[j]) < top {
              assert score(init[j]) < top;
            }
          }
          assert FirstMaximum(stores, score, i);
        }
      }
    }
  }

  /** `similarity(trimmed, store.name)`: the older similarity is the modular no-space one. */
  function FuzzyScore(trimmed: string): Store -> real
  {
    (s: Store) => SimilarityNoSpace(trimmed, s.name)
  }

  function FuzzyTier(trimmed: string, stores: seq<Store>): Option<StoreMatch>
  {
    var best := BestScored(stores, FuzzyScore(trimmed));
    if best.Some? && best.value.score >= 0.75 then Some(StoreMatch(best.value.store, best.value.score, 0)) else None
  }

  /** The tiers of `matchSingleStore` on a trimmed, non-blank, not unemployed text. */
  function MatchTrimmed(trimmed: string, idx: StoreIndex): Option<StoreMatch>
  {
    var exact := MapTier(NormalizeForMatch(trimmed), NormalizeNoSpace(trimmed), idx);
    if exact.Some? then exact
    else
      var suffix := SuffixTier(idx.stores, NormalizeNoSpace(trimmed));
      if suffix.Some? then suffix else FuzzyTier(trimmed, idx.stores)
  }

  /** The two map lookups: the match key at confidence 1, then the no-space key at 0.98. */
  function MapTier(key: string, noSpace: string, idx: StoreIndex): Option<StoreMatch>
  {
    if key in idx.byNormalized then Some(StoreMatch(idx.byNormalized[key], 1.0, 0))
    else if noSpace in idx.byNoSpace then Some(StoreMatch(idx.byNoSpace[noSpace], 0.98, 0))
    else None
  }

  /** The first store whose no-space name is `noSpace` with one to three characters cut, at 0.9 less 0.03 per cut character. */
  function SuffixTier(stores: seq<Store>, noSpace: string): Option<StoreMatch>
  {
    var k := TruncatedIndex(stores, noSpace);
    if k >= 0 then Some(TruncMatch(stores[k], noSpace, 0.9, 0)) else None
  }

  /** `matchSingleStore` */
  function MatchSingleStore(text: string, idx: StoreIndex): Option<StoreMatch>
  {
    var trimmed := Trim(text);
    if trimmed == [] || IsUnemployed(trimmed) then None else MatchTrimmed(trimmed, idx)
  }

  /**
   * Blank and unemployed texts match nothing, and any other text goes
   * through the tiers; a match is a catalogue store at 0.75..1, starting at 0.
   */
  lemma MatchSingleStoreBounds(text: string, idx: StoreIndex)
    requires Indexed(idx)
    ensures Trim(text) == [] || IsUnemployed(Trim(text)) ==> MatchSingleStore(text, idx).None?
    ensures Trim(text) != [] && !IsUnemployed(Trim(text)) ==> MatchSingleStore(text, idx) == MatchTrimmed(Trim(text), idx)
    ensures MatchSingleStore(text, idx).Some? ==>
      var m := MatchSingleStore(text, idx).value;
      m.store in idx.stores && m.startIndex == 0 && 0.75 <= m.confidence <= 1.0
  {
    var trimmed := Trim(text);
    if trimmed != [] && !IsUnemployed(trimmed) {
      MatchTrimmedBounds(trimmed, idx);
    }
  }

  lemma MatchTrimmedBounds(trimmed: string, idx: StoreIndex)
    requires Indexed(idx)
    ensures MatchTrimmed(trimmed, idx).Some? ==>
      var m := MatchTrimmed(trimmed, idx).value;
      m.store in idx.stores && m.startIndex == 0 && 0.75 <= m.confidence <= 1.0
  {
    var key := NormalizeForMatch(trimmed);
    var noSpace := NormalizeNoSpace(trimmed);
    var exact := MapTier(key, noSpace, idx);
    if exact.Some? {
      IndexStoresSpec(idx.stores, key);
      IndexStoresSpec(idx.stores, noSpace);
    } else {
      var suffix := SuffixTier(idx.stores, noSpace);
      if suffix.Some? {
        var k := TruncatedIndex(idx.stores, noSpace);
        assert 1.0 <= Cut(idx.stores[k], noSpace) <= 3.0;
      } else {
        BestScoredSpec(idx.stores, FuzzyScore(trimmed));
      }
    }
  }

  /** Exact tier: a store with the text's match key gives the last such store at confidence 1. */
  lemma MatchTrimmedExact(trimmed: string, idx: StoreIndex, i: int)
    requires Indexed(idx) && LastWithKey(idx.stores, NameKey, NormalizeForMatch(trimmed), i)
    ensures MatchTrimmed(trimmed, idx) == Some(StoreMatch(idx.stores[i], 1.0, 0))
  {
    var key := NormalizeForMatch(trimmed);
    IndexStoresSpec(idx.stores, key);
    var j :| LastWithKey(idx.stores, NameKey, key, j) && idx.byNormalized[key] == idx.stores[j];
    assert i == j;
  }

  /** No-space tier: failing that, a store with the text's no-space key gives the last such store at 0.98. */
  lemma MatchTrimmedNoSpace(trimmed: string, idx: StoreIndex, i: int)
    requires Indexed(idx)
    requires forall j :: 0 <= j < |idx.stores| ==> NameKey(idx.stores[j]) != NormalizeForMatch(trimmed)
    requires LastWithKey(idx.stores, NoSpaceKey, NormalizeNoSpace(trimmed), i)
    ensures MatchTrimmed(trimmed, idx) == Some(StoreMatch(idx.stores[i], 0.98, 0))
  {
    var key := NormalizeForMatch(trimmed);
    var noSpace := NormalizeNoSpace(trimmed);
    IndexStoresSpec(idx.stores, key);
    IndexStoresSpec(idx.stores, noSpace);
    var j :| LastWithKey(idx.stores, NoSpaceKey, noSpace, j) && idx.byNoSpace[noSpace] == idx.stores[j];
    assert i == j;
  }

  /**
   * Suffix tier: failing both, the first store whose no-space name is the
   * text's with one to three leading characters cut gives 0.9 less 0.03 per
   * cut character.
   */
  lemma MatchTrimmedSuffix(trimmed: string, idx: StoreIndex, k: nat)
    requires Indexed(idx)
    requires forall j :: 0 <= j < |idx.stores| ==> NameKey(idx.stores[j]) != NormalizeForMatch(trimmed)
    requires forall j :: 0 <= j < |idx.stores| ==> NoSpaceKey(idx.stores[j]) != NormalizeNoSpace(trimmed)
    requires k == TruncatedIndex(idx.stores, NormalizeNoSpace(trimmed))
    ensures MatchTrimmed(trimmed, idx) == Some(TruncMatch(idx.stores[k], NormalizeNoSpace(trimmed), 0.9, 0))
  {
    var key := NormalizeForMatch(trimmed);
    var noSpace := NormalizeNoSpace(trimmed);
    IndexStoresSpec(idx.stores, key);
    IndexStoresSpec(idx.stores, noSpace);
    assert MapTier(key, noSpace, idx).None?;
    assert SuffixTier(idx.stores, noSpace) == Some(TruncMatch(idx.stores[k], noSpace, 0.9, 0));
  }

  /**
   * Fuzzy tier: failing all three, the match is the first store with the
   * greatest similarity, when that similarity is at least 0.75, and there is
   * none otherwise.
   */
  lemma MatchTrimmedFuzzy(trimmed: string, idx: StoreIndex)
    requires Indexed(idx)
    requires forall j :: 0 <= j < |idx.stores| ==> NameKey(idx.stores[j]) != NormalizeForMatch(trimmed)
    requires forall j :: 0 <= j < |idx.stores| ==> NoSpaceKey(idx.stores[j]) != NormalizeNoSpace(trimmed)
    requires TruncatedIndex(idx.stores, NormalizeNoSpace(trimmed)) < 0
    ensures MatchTrimmed(trimmed, idx).Some? <==>
      exists i :: FirstMaximum(idx.stores, FuzzyScore(trimmed), i) && SimilarityNoSpace(trimmed, idx.stores[i].name) >= 0.75
    ensures forall i :: FirstMaximum(idx.stores, FuzzyScore(trimmed), i) ==>
      MatchTrimmed(trimmed, idx) == if SimilarityNoSpace(trimmed, idx.stores[i].name) >= 0.75
        then Some(StoreMatch(idx.stores[i], SimilarityNoSpace(trimmed, idx.stores[i].name), 0)) else None
  {
    var key := NormalizeForMatch(trimmed);
    var noSpace := NormalizeNoSpace(trimmed);
    IndexStoresSpec(idx.stores, key);
    IndexStoresSpec(idx.stores, noSpace);
    assert MapTier(key, noSpace, idx).None?;
    assert SuffixTier(idx.stores, noSpace).None?;
    assert MatchTrimmed(trimmed, idx) == FuzzyTier(trimmed, idx.stores);
    FuzzyTierSpec(trimmed, idx.stores);
  }

  lemma FuzzyTierSpec(trimmed: string, stores: seq<Store>)
    ensures FuzzyTier(trimmed, stores).Some? <==>
      exists i :: FirstMaximum(stores, FuzzyScore(trimmed), i) && SimilarityNoSpace(trimmed, stores[i].name) >= 0.75
    ensures forall i :: FirstMaximum(stores, FuzzyScore(trimmed), i) ==>
      FuzzyTier(trimmed, stores) == if SimilarityNoSpace(trimmed, stores[i].name) >= 0.75
        then Some(StoreMatch(stores[i], SimilarityNoSpace(trimmed, stores[i].name), 0)) else None
  {
    var score := FuzzyScore(trimmed);
    BestScoredSpec(stores, score);
    forall i, i' | FirstMaximum(stores, score, i) && FirstMaximum(stores, score, i') ensures i == i' {
      FirstMaximumUnique(stores, score, i, i');
    }
  }

  lemma FirstMaximumUnique(stores: seq<Store>, score: Store -> real, i: int, i': int)
    requires FirstMaximum(stores, score, i) && FirstMaximum(stores, score, i')
    ensures i == i'
  {
    var a, b := score(stores[i]), score(stores[i']);
    if i < i' {
      assert false;
    } else if i' < i {
      assert false;
    }
  }

  // --- the loops -------------------------------------------------------

  lemma BestScoredSnoc(stores: seq<Store>, score: Store -> real, i: nat)
    requires i < |stores|
    ensures var best := BestScored(stores[..i], score);
      BestScored(stores[..i + 1], score) ==
        if best.None? || score(stores[i]) > best.value.score then Some(Scored(stores[i], score(stores[i]))) else best
  {
    assert stores[..i + 1][..i] == stores[..i];
  }

  /** The fuzzy loop of `matchSingleStore`. */
  method FuzzyScan(trimmed: string, stores: seq<Store>) returns (best: Option<Scored>)
    ensures best == BestScored(stores, FuzzyScore(trimmed))
  {
    best := None;
    for i := 0 to |stores|
      invariant best == BestScored(stores[..i], FuzzyScore(trimmed))
    {
      BestScoredSnoc(stores, FuzzyScore(trimmed), i);
      var store := stores[i];
      var score := SimilarityNoSpace(trimmed, store.name);
      assert score == FuzzyScore(trimmed)(store);
      if best.None? || score > best.value.score {
        best := Some(Scored(store, score));
      }
    }
    assert stores[..|stores|] == stores;
  }

  /** The tiers of `matchSingleStore`, with the suffix and fuzzy loops run step by step. */
  method MatchTrimmedScan(trimmed: string, idx: StoreIndex) returns (m: Option<StoreMatch>)
    ensures m == MatchTrimmed(trimmed, idx)
  {
    var textNoSpace := NormalizeNoSpace(trimmed);
    m := MapTier(NormalizeForMatch(trimmed), textNoSpace, idx);
    if m.Some? {
      return;
    }
    m := SuffixScan(idx.stores, textNoSpace);
    if m.Some? {
      return;
    }
    m := FuzzyTierScan(trimmed, idx.stores);
  }

  /** The fuzzy loop of `matchSingleStore` and the 0.75 threshold after it. */
  method FuzzyTierScan(trimmed: string, stores: seq<Store>) returns (m: Option<StoreMatch>)
    ensures m == FuzzyTier(trimmed, stores)
  {
    var best := FuzzyScan(trimmed, stores);
    if best.Some? && best.value.score >= 0.75 {
      return Some(StoreMatch(best.value.store, best.value.score, 0));
    }
    return None;
  }

  /** The suffix loop of `matchSingleStore`. */
  method SuffixScan(stores: seq<Store>, textNoSpace: string) returns (m: Option<StoreMatch>)
    ensures m == SuffixTier(stores, textNoSpace)
  {
    var k := TruncatedScan(stores, NoSpaceKey, textNoSpace);
    if k >= 0 {
      return Some(TruncMatch(stores[k], textNoSpace, 0.9, 0));
    }
    return None;
  }

  /** `matchSingleStore` */
  method MatchSingleStoreScan(text: string, idx: StoreIndex) returns (m: Option<StoreMatch>)
    ensures m == MatchSingleStore(text, idx)
  {
    var trimmed := Trim(text);
    if trimmed == [] || IsUnemployed(trimmed) {
      return None;
    }
    m := MatchTrimmedScan(trimmed, idx);
  }
}
