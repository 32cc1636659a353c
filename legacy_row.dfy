/**
 * One row of the older single-file extractor (`extract.ts`): the row's
 * fragments are split into up to three columns at large gaps, the first
 * usable left-column text is the name, the middle column gives the current
 * job, the right column the dream job, and the left column's other texts
 * fill in whatever is still missing.
 *
 * The two store matchers the row calls (`matchSingleStore` and
 * `findStoresInText` over one store index) are carried as a `Matcher`
 * value, so the row logic is stated once for any matcher and
 * `MatcherOfSound` supplies what the real matchers guarantee.
 */
module LegacyRow {
  import opened Wrappers
  import opened Seqs
  import opened Strings
  import opened Sorting
  import opened Types
  import opened ImportTypes
  import opened TextUtils
  import opened Layout
  import opened LegacyText
  import opened LegacyMatch
  import ThreeColumn

  // ---------------------------------------------------------------------
  // The matchers
  // ---------------------------------------------------------------------

  /** `matchSingleStore(·, storeIndex)`, `findStoresInText(·, storeIndex)` and `isUnemployed`. */
  datatype Matcher = Matcher(single: string -> Option<StoreMatch>, embedded: string -> seq<StoreMatch>,
                             unemployed: string -> bool)

  function MatcherOf(idx: StoreIndex): Matcher
  {
    Matcher(t => MatchSingleStore(t, idx), t => FindStoresInText(t, idx), IsUnemployed)
  }

  /** A single match names a catalogue store and scores 0.75 to 1. */
  predicate SingleOk(m: Option<StoreMatch>, stores: seq<Store>)
  {
    m.Some? ==> m.value.store in stores && 0.75 <= m.value.confidence <= 1.0
  }

  /** Embedded matches name catalogue stores and score 0.79 to 0.95. */
  ghost predicate EmbeddedOk(ms: seq<StoreMatch>, stores: seq<Store>)
  {
    forall m :: m in ms ==> m.store in stores && 0.79 <= m.confidence <= 0.95
  }

  /** What the store matchers guarantee, for every text. */
  ghost predicate Sound(mt: Matcher, stores: seq<Store>)
  {
    (forall t :: SingleOk(mt.single(t), stores)) && (forall t :: EmbeddedOk(mt.embedded(t), stores))
  }

  lemma MatcherOfSound(idx: StoreIndex)
    requires Indexed(idx)
    ensures Sound(MatcherOf(idx), idx.stores)
  {
    SingleSound(idx);
    EmbeddedSound(idx);
  }

  lemma SingleSound(idx: StoreIndex)
    requires Indexed(idx)
    ensures forall t :: SingleOk(MatchSingleStore(t, idx), idx.stores)
  {
    forall t ensures SingleOk(MatchSingleStore(t, idx), idx.stores) {
      MatchSingleStoreBounds(t, idx);
    }
  }

  lemma EmbeddedSound(idx: StoreIndex)
    ensures forall t :: EmbeddedOk(FindStoresInText(t, idx), idx.stores)
  {
    forall t ensures EmbeddedOk(FindStoresInText(t, idx), idx.stores) {
      FindStoresInTextSpec(t, idx);
    }
  }

  // ---------------------------------------------------------------------
  // pickName
  // ---------------------------------------------------------------------

  /** A cleaned text that matches a store at 0.85 or more. */
  predicate IsStoreLike(mt: Matcher, cleaned: string)
  {
    mt.single(cleaned).Some? && mt.single(cleaned).value.confidence >= 0.85
  }

  /** A text whose first embedded store starts it. */
  predicate StartsWithStore(mt: Matcher, text: string)
  {
    mt.embedded(text) != [] && mt.embedded(text)[0].startIndex == 0
  }

  /** A text `pickName` accepts. */
  predicate Qualifies(mt: Matcher, text: string)
  {
    IsValidName(CleanName(text)) && !IsStoreLike(mt, CleanName(text)) && !StartsWithStore(mt, text)
  }

  function QualifiesIn(mt: Matcher): string -> bool
  {
    t => Qualifies(mt, t)
  }

  /** `pickName`: the cleaned form of the first text that qualifies. */
  function PickName(mt: Matcher, texts: seq<string>): Option<string>
  {
    var i := FindIndex(texts, QualifiesIn(mt));
    if i < 0 then None else Some(CleanName(texts[i]))
  }

  /** Nothing is picked exactly when no text qualifies. */
  lemma PickNameNone(mt: Matcher, texts: seq<string>)
    ensures PickName(mt, texts).None? <==> forall i :: 0 <= i < |texts| ==> !Qualifies(mt, texts[i])
  {
    var p := QualifiesIn(mt);
    var r := FindIndex(texts, p);
    if r >= 0 {
      assert p(texts[r]);
    } else {
      forall i | 0 <= i < |texts| ensures !Qualifies(mt, texts[i]) {
        assert !p(texts[i]);
      }
    }
  }

  /** The pick is the cleaned form of the first qualifying text, however long later ones are. */
  lemma PickNameFirst(mt: Matcher, texts: seq<string>, i: nat)
    requires i < |texts| && Qualifies(mt, texts[i])
    requires forall j :: 0 <= j < i ==> !Qualifies(mt, texts[j])
    ensures PickName(mt, texts) == Some(CleanName(texts[i]))
  {
    var p := QualifiesIn(mt);
    var r := FindIndex(texts, p);
    assert p(texts[i]);
    if r < i {
      assert false;
    }
    FirstFound(mt, texts, i);
  }

  /** A pick is a valid name of three characters or more that is not store-like. */
  lemma PickNameValid(mt: Matcher, texts: seq<string>)
    ensures PickName(mt, texts).Some? ==>
      IsValidName(PickName(mt, texts).value) && !IsStoreLike(mt, PickName(mt, texts).value) && |PickName(mt, texts).value| >= 3
  {
    var p := QualifiesIn(mt);
    var r := FindIndex(texts, p);
    if r >= 0 {
      assert p(texts[r]);
      CleanNameLength(texts[r]);
    }
  }

  /** The `pickName` loop. */
  method PickNameScan(mt: Matcher, texts: seq<string>) returns (name: Option<string>)
    ensures name == PickName(mt, texts)
  {
    ghost var first := FindIndex(texts, QualifiesIn(mt));
    for i := 0 to |texts|
      invariant first == -1 || first >= i
    {
      var text := texts[i];
      var cleaned := CleanName(text);
      if !IsValidName(cleaned) {
        NotFirst(mt, texts, i);
        continue;
      }
      var storeMatch := mt.single(cleaned);
      if storeMatch.Some? && storeMatch.value.confidence >= 0.85 {
        NotFirst(mt, texts, i);
        continue;
      }
      var embedded := mt.embedded(text);
      if |embedded| > 0 && embedded[0].startIndex == 0 {
        NotFirst(mt, texts, i);
        continue;
      }
      FirstFound(mt, texts, i);
      return Some(cleaned);
    }
    return None;
  }

  /** A text that does not qualify is not where the first qualifying one is. */
  lemma NotFirst(mt: Matcher, texts: seq<string>, i: nat)
    requires i < |texts| && !Qualifies(mt, texts[i])
    ensures FindIndex(texts, QualifiesIn(mt)) != i
  {
  }

  /** A qualifying text with none before it is the pick. */
  lemma FirstFound(mt: Matcher, texts: seq<string>, i: nat)
    requires i < |texts| && Qualifies(mt, texts[i])
    requires FindIndex(texts, QualifiesIn(mt)) == -1 || FindIndex(texts, QualifiesIn(mt)) >= i
    ensures PickName(mt, texts) == Some(CleanName(texts[i]))
  {
    var p := QualifiesIn(mt);
    assert p(texts[i]);
    var r := FindIndex(texts, p);
    assert r == i;
  }

  // ---------------------------------------------------------------------
  // Columns
  // ---------------------------------------------------------------------

  /** Three columns at the two largest gaps, left and right at a single one, otherwise all left. */
  function LegacySplit(sorted: seq<OcrLine>, xs: seq<int>, big: seq<Gap>): (cols: seq<seq<OcrLine>>)
    requires GapsInside(xs, big)
    ensures |cols| == 3
  {
    if |big| >= 2 then
      SplitThreeSpec(sorted, SplitAt(xs, MinNat(big[0].idx, big[1].idx)), SplitAt(xs, MaxNat(big[0].idx, big[1].idx)))
    else if |big| == 1 then
      var two := SplitTwoSpec(sorted, SplitAt(xs, big[0].idx));
      [two[0], [], two[1]]
    else
      [sorted, [], []]
  }

  /** The left, middle and right fragments of a row, each in left-edge order. */
  function RowColumns(lines: seq<OcrLine>, inferredWidth: int): (cols: seq<seq<OcrLine>>)
    ensures |cols| == 3
  {
    var xs := Xs(lines);
    BigGapsInside(xs, GapThreshold(inferredWidth));
    LegacySplit(SortBy(lines, X0), xs, QualifyingGaps(lines, inferredWidth))
  }

  /**
   * The columns partition the row's fragments sorted by left edge; with no
   * qualifying gap every fragment is in the left column, and with one the
   * middle column is empty.
   */
  lemma RowColumnsSpec(lines: seq<OcrLine>, inferredWidth: int)
    ensures Partitions(RowColumns(lines, inferredWidth), SortBy(lines, X0))
    ensures QualifyingGaps(lines, inferredWidth) == [] ==> RowColumns(lines, inferredWidth) == [SortBy(lines, X0), [], []]
    ensures |QualifyingGaps(lines, inferredWidth)| == 1 ==> RowColumns(lines, inferredWidth)[1] == []
  {
    BigGapsInside(Xs(lines), GapThreshold(inferredWidth));
    LegacySplitPartition(SortBy(lines, X0), Xs(lines), QualifyingGaps(lines, inferredWidth));
  }

  lemma LegacySplitPartition(sorted: seq<OcrLine>, xs: seq<int>, big: seq<Gap>)
    requires GapsInside(xs, big)
    ensures Partitions(LegacySplit(sorted, xs, big), sorted)
  {
    if |big| >= 2 {
      ThreePartition(sorted, SplitAt(xs, MinNat(big[0].idx, big[1].idx)), SplitAt(xs, MaxNat(big[0].idx, big[1].idx)));
    } else if |big| == 1 {
      TwoAsThree(sorted, SplitAt(xs, big[0].idx));
    } else {
      AllLeft(sorted);
    }
  }

  lemma TwoAsThree(sorted: seq<OcrLine>, split: real)
    ensures var two := SplitTwoSpec(sorted, split); Partitions([two[0], [], two[1]], sorted)
  {
    var two := SplitTwoSpec(sorted, split);
    var cols := [two[0], [], two[1]];
    TwoPartition(sorted, split);
    ColumnsMultisetTwo(two);
    ColumnsMultisetThree(cols);
    assert Subsequence(two[0], sorted) && Subsequence(two[1], sorted);
    assert forall k :: 0 <= k < |cols| ==> Subsequence(cols[k], sorted) by {
      assert cols[0] == two[0] && cols[1] == [] && cols[2] == two[1];
    }
  }

  lemma AllLeft(sorted: seq<OcrLine>)
    ensures Partitions([sorted, [], []], sorted)
  {
    var cols := [sorted, [], []];
    ColumnsMultisetThree(cols);
    SubsequenceRefl(sorted);
    assert forall k :: 0 <= k < |cols| ==> Subsequence(cols[k], sorted) by {
      assert cols[0] == sorted && cols[1] == [] && cols[2] == [];
    }
  }

  lemma {:induction false} SubsequenceRefl<T>(s: seq<T>)
    ensures Subsequence(s, s)
    decreases |s|
  {
    if s != [] {
      SubsequenceRefl(s[1..]);
    }
  }

  function TrimmedText(l: OcrLine): string { Trim(l.text) }

  /** `lines.map(l => l.text.trim())` */
  function TrimmedTexts(lines: seq<OcrLine>): seq<string>
  {
    MapSeq(lines, TrimmedText)
  }

  /** The split of `extractFromRow`: sort by left edge, gaps, the qualifying gaps, then the filters. */
  method RowColumnsScan(lines: seq<OcrLine>, inferredWidth: int) returns (cols: seq<seq<OcrLine>>)
    ensures cols == RowColumns(lines, inferredWidth)
  {
    var sortedLines := SortBy(lines, X0);
    var xs := MapSeq(sortedLines, X0);
    var gaps := GapsScan(xs);
    var gapThreshold := GapThreshold(inferredWidth);
    var bigGaps := BigGaps(gaps, gapThreshold);
    BigGapsInside(xs, gapThreshold);
    if |bigGaps| >= 2 {
      GapIndexBounds(xs, gapThreshold, bigGaps[0]);
      GapIndexBounds(xs, gapThreshold, bigGaps[1]);
      var split1Idx := MinNat(bigGaps[0].idx, bigGaps[1].idx);
      var split2Idx := MaxNat(bigGaps[0].idx, bigGaps[1].idx);
      cols := SplitThree(sortedLines, SplitAt(xs, split1Idx), SplitAt(xs, split2Idx));
    } else if |bigGaps| == 1 {
      GapIndexBounds(xs, gapThreshold, bigGaps[0]);
      var two := SplitTwo(sortedLines, SplitAt(xs, bigGaps[0].idx));
      cols := [two[0], [], two[1]];
    } else {
      cols := [sortedLines, [], []];
    }
  }

  // ---------------------------------------------------------------------
  // The job variables
  // ---------------------------------------------------------------------

  /** One job's `let` variables: store id, store name, raw text and confidence. */
  datatype Job = Job(storeId: Option<string>, storeName: Option<string>, raw: Option<string>, confidence: real)

  /** The current-job and dream-job variables together. */
  datatype Jobs = Jobs(current: Job, dream: Job)

  const NoJob: Job := Job(None, None, None, 0.0)

  /** The marker `currentRaw` takes for an unemployed text. */
  const Unemployed: string := "UNEMPLOYED"

  /** A match recorded with the given raw text. */
  function Take(m: StoreMatch, raw: Option<string>): Job
  {
    Job(Some(m.store.id), Some(m.store.name), raw, m.confidence)
  }

  /** No store id and confidence 0, or the id and name of a catalogue store and a confidence of 0.75 to 1. */
  ghost predicate FromCatalogue(storeId: Option<string>, storeName: Option<string>, confidence: real, stores: seq<Store>)
  {
    (storeId.None? ==> storeName.None? && confidence == 0.0)
    && (storeId.Some? ==>
          exists s :: s in stores && storeId == Some(s.id) && storeName == Some(s.name) && 0.75 <= confidence <= 1.0)
  }

  ghost predicate Coherent(j: Job, stores: seq<Store>) { FromCatalogue(j.storeId, j.storeName, j.confidence, stores) }

  lemma TakeCoherent(m: StoreMatch, raw: Option<string>, stores: seq<Store>)
    requires m.store in stores && 0.75 <= m.confidence <= 1.0
    ensures Coherent(Take(m, raw), stores)
  {
    var s := m.store;
    assert s in stores && Take(m, raw).storeId == Some(s.id) && Take(m, raw).storeName == Some(s.name);
  }

  // --- the middle column -----------------------------------------------

  /** One middle text: unemployed marks the raw text, a better match replaces the job. */
  function MiddleStep(mt: Matcher, cur: Job, text: string): Job
  {
    if mt.unemployed(text) then cur.(raw := Some(Unemployed))
    else
      var m := mt.single(text);
      if m.Some? && m.value.confidence > cur.confidence then Take(m.value, Some(text)) else cur
  }

  function MiddlePass(mt: Matcher, texts: seq<string>): Job
  {
    if texts == [] then NoJob else MiddleStep(mt, MiddlePass(mt, texts[..|texts| - 1]), texts[|texts| - 1])
  }

  /** A text that is not unemployed and has a match. */
  predicate Counts(mt: Matcher, text: string) { !mt.unemployed(text) && mt.single(text).Some? }

  function Score(mt: Matcher, text: string): real
    requires Counts(mt, text)
  {
    mt.single(text).value.confidence
  }

  /** A text whose match is the one recorded in `j`. */
  predicate RecordedIn(mt: Matcher, text: string, j: Job)
  {
    Counts(mt, text)
    && j.storeId == Some(mt.single(text).value.store.id) && j.storeName == Some(mt.single(text).value.store.name)
    && j.confidence == Score(mt, text)
  }

  /** No text before `k` scores `c` or more. */
  ghost predicate NoneBefore(mt: Matcher, texts: seq<string>, k: int, c: real)
  {
    forall j :: 0 <= j < k && j < |texts| && Counts(mt, texts[j]) ==> Score(mt, texts[j]) < c
  }

  /** The middle confidence never drops from one text to the next, and no id means confidence 0. */
  lemma {:induction false} MiddlePassZero(mt: Matcher, texts: seq<string>)
    ensures MiddlePass(mt, texts).confidence >= 0.0
    ensures MiddlePass(mt, texts).storeId.None? ==>
      MiddlePass(mt, texts).storeName.None? && MiddlePass(mt, texts).confidence == 0.0
  {
    if texts != [] {
      MiddlePassZero(mt, texts[..|texts| - 1]);
    }
  }

  /** Nothing in the middle column scores above the kept match. */
  lemma {:induction false} MiddlePassBest(mt: Matcher, texts: seq<string>, k: nat)
    requires k < |texts| && Counts(mt, texts[k])
    ensures Score(mt, texts[k]) <= MiddlePass(mt, texts).confidence
  {
    var n := |texts| - 1;
    var init := texts[..n];
    if k < n {
      assert init[k] == texts[k];
      MiddlePassBest(mt, init, k);
    }
  }

  /**
   * With an id, the middle column's job is the match of some text that is
   * not unemployed, and every earlier text scores strictly less: the first
   * best match is kept.
   */
  lemma {:induction false} MiddlePassFirst(mt: Matcher, texts: seq<string>)
    ensures MiddlePass(mt, texts).storeId.Some? ==>
      exists k :: 0 <= k < |texts| && RecordedIn(mt, texts[k], MiddlePass(mt, texts))
        && NoneBefore(mt, texts, k, MiddlePass(mt, texts).confidence)
  {
    if texts != [] {
      var n := |texts| - 1;
      var init := texts[..n];
      MiddlePassFirst(mt, init);
      var before := MiddlePass(mt, init);
      var cur := MiddlePass(mt, texts);
      var text := texts[n];
      if Counts(mt, text) && Score(mt, text) > before.confidence {
        assert RecordedIn(mt, texts[n], cur);
        forall j | 0 <= j < n && Counts(mt, texts[j]) ensures Score(mt, texts[j]) < cur.confidence {
          assert init[j] == texts[j];
          MiddlePassBest(mt, init, j);
        }
        assert NoneBefore(mt, texts, n, cur.confidence);
      } else if before.storeId.Some? {
        assert cur.storeId == before.storeId && cur.storeName == before.storeName && cur.confidence == before.confidence;
        var k :| 0 <= k < n && RecordedIn(mt, init[k], before) && NoneBefore(mt, init, k, before.confidence);
        assert init[k] == texts[k];
        assert RecordedIn(mt, texts[k], cur);
        forall j | 0 <= j < k && Counts(mt, texts[j]) ensures Score(mt, texts[j]) < cur.confidence {
          assert init[j] == texts[j];
        }
      }
    }
  }

  method MiddleScan(mt: Matcher, texts: seq<string>) returns (cur: Job)
    ensures cur == MiddlePass(mt, texts)
  {
    cur := NoJob;
    for i := 0 to |texts|
      invariant cur == MiddlePass(mt, texts[..i])
    {
      assert texts[..i + 1][..i] == texts[..i];
      var text := texts[i];
      if mt.unemployed(text) {
        cur := cur.(raw := Some(Unemployed));
        continue;
      }
      var m := mt.single(text);
      if m.Some? && m.value.confidence > cur.confidence {
        cur := Take(m.value, Some(text));
      }
    }
    assert texts[..|texts|] == texts;
  }

  // --- the right column ------------------------------------------------

  /** The first embedded store, for a current job that is still open and not unemployed. */
  function FirstAsCurrent(cur: Job, e: seq<StoreMatch>, raw: Option<string>): Job
    requires e != []
  {
    if !Truthy(cur.storeId) && cur.raw != Some(Unemployed) then Take(e[0], raw) else cur
  }

  /**
   * One right text: two or more embedded stores give the current job (if
   * open) and the dream job (if open or bettered); otherwise a better single
   * match replaces the dream job.
   */
  function RightStep(mt: Matcher, js: Jobs, text: string): Jobs
  {
    var e := mt.embedded(text);
    if |e| >= 2 then
      var last := e[|e| - 1];
      var dream := if !Truthy(js.dream.storeId) || last.confidence > js.dream.confidence then Take(last, Some(text)) else js.dream;
      Jobs(FirstAsCurrent(js.current, e, Some(text)), dream)
    else
      var m := mt.single(text);
      if m.Some? && m.value.confidence > js.dream.confidence then Jobs(js.current, Take(m.value, Some(text))) else js
  }

  function RightPass(mt: Matcher, js: Jobs, texts: seq<string>): Jobs
  {
    if texts == [] then js else RightStep(mt, RightPass(mt, js, texts[..|texts| - 1]), texts[|texts| - 1])
  }

  method RightScan(mt: Matcher, js0: Jobs, texts: seq<string>) returns (js: Jobs)
    ensures js == RightPass(mt, js0, texts)
  {
    js := js0;
    for i := 0 to |texts|
      invariant js == RightPass(mt, js0, texts[..i])
    {
      assert texts[..i + 1][..i] == texts[..i];
      var text := texts[i];
      var embedded := mt.embedded(text);
      if |embedded| >= 2 {
        var current := js.current;
        if !Truthy(current.storeId) && current.raw != Some(Unemployed) {
          current := Take(embedded[0], Some(text));
        }
        var dream := js.dream;
        var last := embedded[|embedded| - 1];
        if !Truthy(dream.storeId) || last.confidence > dream.confidence {
          dream := Take(last, Some(text));
        }
        js := Jobs(current, dream);
      } else {
        var m := mt.single(text);
        if m.Some? && m.value.confidence > js.dream.confidence {
          js := Jobs(js.current, Take(m.value, Some(text)));
        }
      }
    }
    assert texts[..|texts|] == texts;
  }

  // --- the left column's other texts -----------------------------------

  /** One left text as a current-job candidate: unemployed texts are skipped. */
  function LeftStep(mt: Matcher, cur: Job, text: string): Job
  {
    if mt.unemployed(text) then cur
    else
      var m := mt.single(text);
      if m.Some? && m.value.confidence > cur.confidence then Take(m.value, Some(text)) else cur
  }

  function LeftPass(mt: Matcher, cur: Job, texts: seq<string>): Job
  {
    if texts == [] then cur else LeftStep(mt, LeftPass(mt, cur, texts[..|texts| - 1]), texts[|texts| - 1])
  }

  method LeftScan(mt: Matcher, cur0: Job, texts: seq<string>) returns (cur: Job)
    ensures cur == LeftPass(mt, cur0, texts)
  {
    cur := cur0;
    for i := 0 to |texts|
      invariant cur == LeftPass(mt, cur0, texts[..i])
    {
      assert texts[..i + 1][..i] == texts[..i];
      var text := texts[i];
      if mt.unemployed(text) {
        continue;
      }
      var m := mt.single(text);
      if m.Some? && m.value.confidence > cur.confidence {
        cur := Take(m.value, Some(text));
      }
    }
    assert texts[..|texts|] == texts;
  }

  /**
   * The stores embedded in the joined left texts: two or more fill an open
   * current job and an open dream job; a single one is the dream job of an
   * unemployed resident, or the current job when it starts the text and at
   * least five characters follow it.
   */
  function EmbeddedLeft(mt: Matcher, js: Jobs, combined: string): Jobs
  {
    var e := mt.embedded(combined);
    if |e| >= 2 then
      var last := e[|e| - 1];
      var dream := if !Truthy(js.dream.storeId) then Take(last, Some(last.store.name)) else js.dream;
      Jobs(FirstAsCurrent(js.current, e, js.current.raw), dream)
    else if |e| == 1 then
      var store := e[0];
      var textAfter := SliceFrom(NormalizeNoSpace(combined), EndOf(store));
      if js.current.raw == Some(Unemployed) then
        if !Truthy(js.dream.storeId) then Jobs(js.current, Take(store, Some(store.store.name))) else js
      else if store.startIndex == 0 && |textAfter| >= 5 && !Truthy(js.current.storeId) then
        Jobs(Take(store, js.current.raw), js.dream)
      else js
    else js
  }

  /** The left column's non-name texts, after the middle and right columns. */
  function LeftJobs(mt: Matcher, js: Jobs, leftJobTexts: seq<string>, hasMiddle: bool): Jobs
  {
    if leftJobTexts == [] then js
    else
      var marked := if Any(leftJobTexts, mt.unemployed) then js.current.(raw := Some(Unemployed)) else js.current;
      var current := if !hasMiddle && !Truthy(marked.storeId) then LeftPass(mt, marked, leftJobTexts) else marked;
      if !Truthy(current.storeId) || !Truthy(js.dream.storeId) then EmbeddedLeft(mt, Jobs(current, js.dream), Join(leftJobTexts, ' '))
      else Jobs(current, js.dream)
  }

  method LeftSection(mt: Matcher, js0: Jobs, leftJobTexts: seq<string>, hasMiddle: bool) returns (js: Jobs)
    ensures js == LeftJobs(mt, js0, leftJobTexts, hasMiddle)
  {
    js := js0;
    if leftJobTexts == [] {
      return;
    }
    var current := js.current;
    if Any(leftJobTexts, mt.unemployed) {
      current := current.(raw := Some(Unemployed));
    }
    if !hasMiddle && !Truthy(current.storeId) {
      current := LeftScan(mt, current, leftJobTexts);
    }
    js := Jobs(current, js.dream);
    if !Truthy(js.current.storeId) || !Truthy(js.dream.storeId) {
      js := EmbeddedLeft(mt, js, Join(leftJobTexts, ' '));
    }
  }

  function NotUnemployed(mt: Matcher): string -> bool
  {
    t => !mt.unemployed(t)
  }

  /** Without a dream text, the longest left text that is not unemployed (the first on ties), if any. */
  function FallbackDream(mt: Matcher, js: Jobs, leftJobTexts: seq<string>): Jobs
  {
    if !Truthy(js.dream.raw) && leftJobTexts != [] then
      Jobs(js.current, js.dream.(raw := ThreeColumn.LongestText(Filter(leftJobTexts, NotUnemployed(mt)))))
    else js
  }

  // --- coherence of the job variables ----------------------------------

  lemma {:induction false} MiddlePassCoherent(mt: Matcher, texts: seq<string>, stores: seq<Store>)
    requires Sound(mt, stores)
    ensures Coherent(MiddlePass(mt, texts), stores)
  {
    if texts != [] {
      var init := texts[..|texts| - 1];
      MiddlePassCoherent(mt, init, stores);
      var before := MiddlePass(mt, init);
      var text := texts[|texts| - 1];
      var m := mt.single(text);
      if !mt.unemployed(text) && m.Some? && m.value.confidence > before.confidence {
        assert SingleOk(m, stores);
        TakeCoherent(m.value, Some(text), stores);
      } else {
        assert MiddlePass(mt, texts).storeId == before.storeId && MiddlePass(mt, texts).storeName == before.storeName
          && MiddlePass(mt, texts).confidence == before.confidence;
      }
    }
  }

  lemma FirstAsCurrentCoherent(cur: Job, e: seq<StoreMatch>, raw: Option<string>, stores: seq<Store>)
    requires e != [] && Coherent(cur, stores)
    requires forall m :: m in e ==> m.store in stores && 0.79 <= m.confidence <= 0.95
    ensures Coherent(FirstAsCurrent(cur, e, raw), stores)
  {
    assert e[0] in e;
  }

  lemma RightStepCoherent(mt: Matcher, js: Jobs, text: string, stores: seq<Store>)
    requires Sound(mt, stores) && Coherent(js.current, stores) && Coherent(js.dream, stores)
    ensures Coherent(RightStep(mt, js, text).current, stores) && Coherent(RightStep(mt, js, text).dream, stores)
  {
    var e := mt.embedded(text);
    if |e| >= 2 {
      assert e[|e| - 1] in e;
      FirstAsCurrentCoherent(js.current, e, Some(text), stores);
    }
  }

  lemma {:induction false} RightPassCoherent(mt: Matcher, js: Jobs, texts: seq<string>, stores: seq<Store>)
    requires Sound(mt, stores) && Coherent(js.current, stores) && Coherent(js.dream, stores)
    ensures Coherent(RightPass(mt, js, texts).current, stores) && Coherent(RightPass(mt, js, texts).dream, stores)
  {
    if texts != [] {
      RightPassCoherent(mt, js, texts[..|texts| - 1], stores);
      RightStepCoherent(mt, RightPass(mt, js, texts[..|texts| - 1]), texts[|texts| - 1], stores);
    }
  }

  lemma {:induction false} LeftPassCoherent(mt: Matcher, cur: Job, texts: seq<string>, stores: seq<Store>)
    requires Sound(mt, stores) && Coherent(cur, stores)
    ensures Coherent(LeftPass(mt, cur, texts), stores)
  {
    if texts != [] {
      LeftPassCoherent(mt, cur, texts[..|texts| - 1], stores);
    }
  }

  lemma EmbeddedLeftCoherent(mt: Matcher, js: Jobs, combined: string, stores: seq<Store>)
    requires Sound(mt, stores) && Coherent(js.current, stores) && Coherent(js.dream, stores)
    ensures Coherent(EmbeddedLeft(mt, js, combined).current, stores) && Coherent(EmbeddedLeft(mt, js, combined).dream, stores)
  {
    var e := mt.embedded(combined);
    if |e| >= 1 {
      assert e[0] in e && e[|e| - 1] in e;
    }
    if |e| >= 2 {
      FirstAsCurrentCoherent(js.current, e, js.current.raw, stores);
    }
  }

  lemma LeftJobsCoherent(mt: Matcher, js: Jobs, leftJobTexts: seq<string>, hasMiddle: bool, stores: seq<Store>)
    requires Sound(mt, stores) && Coherent(js.current, stores) && Coherent(js.dream, stores)
    ensures Coherent(LeftJobs(mt, js, leftJobTexts, hasMiddle).current, stores)
    ensures Coherent(LeftJobs(mt, js, leftJobTexts, hasMiddle).dream, stores)
  {
    if leftJobTexts != [] {
      var marked := if Any(leftJobTexts, mt.unemployed) then js.current.(raw := Some(Unemployed)) else js.current;
      LeftPassCoherent(mt, marked, leftJobTexts, stores);
      var current := if !hasMiddle && !Truthy(marked.storeId) then LeftPass(mt, marked, leftJobTexts) else marked;
      EmbeddedLeftCoherent(mt, Jobs(current, js.dream), Join(leftJobTexts, ' '), stores);
    }
  }

  // ---------------------------------------------------------------------
  // The candidate
  // ---------------------------------------------------------------------

  /** Missing dream text, missing dream match, and a current text that is unmatched and not unemployed. */
  function RowIssues(mt: Matcher, js: Jobs): seq<Issue>
  {
    (if !Truthy(js.dream.storeId) then (if !Truthy(js.dream.raw) then [DreamUnparsed] else []) + [DreamUnmatched] else [])
    + (if Truthy(js.current.raw) && !Truthy(js.current.storeId) && !mt.unemployed(js.current.raw.value) then [CurrentUnmatched] else [])
  }

  function Assemble(mt: Matcher, name: string, js: Jobs, sourceFileName: string): Candidate
  {
    Candidate(
      nameRaw := name,
      currentJobRaw := js.current.raw,
      dreamJobRaw := js.dream.raw.GetOr([]),
      name := name,
      currentJobStoreId := js.current.storeId,
      dreamJobStoreId := js.dream.storeId,
      matchedCurrentStoreName := js.current.storeName,
      matchedStoreName := js.dream.storeName,
      currentMatchConfidence := Some(js.current.confidence),
      matchConfidence := js.dream.confidence,
      selected := Truthy(js.dream.storeId) && js.dream.confidence >= 0.75,
      issues := RowIssues(mt, js),
      sourceFileName := sourceFileName)
  }

  /** How an older-extractor candidate's issues and selection follow from its fields. */
  predicate IssuesAgree(mt: Matcher, c: Candidate)
  {
    (c.selected <==> Truthy(c.dreamJobStoreId) && c.matchConfidence >= 0.75)
    && (DreamUnmatched in c.issues <==> !Truthy(c.dreamJobStoreId))
    && (DreamUnparsed in c.issues <==> !Truthy(c.dreamJobStoreId) && c.dreamJobRaw == [])
    && (CurrentUnmatched in c.issues <==>
          Truthy(c.currentJobRaw) && !Truthy(c.currentJobStoreId) && !mt.unemployed(c.currentJobRaw.value))
    && NameUnparsed !in c.issues
  }

  /** Both store references of a candidate are empty or name catalogue stores. */
  ghost predicate CandidateFromCatalogue(c: Candidate, stores: seq<Store>)
  {
    FromCatalogue(c.dreamJobStoreId, c.matchedStoreName, c.matchConfidence, stores)
    && c.currentMatchConfidence.Some?
    && FromCatalogue(c.currentJobStoreId, c.matchedCurrentStoreName, c.currentMatchConfidence.value, stores)
  }

  lemma AssembleSpec(mt: Matcher, name: string, js: Jobs, sourceFileName: string)
    ensures IssuesAgree(mt, Assemble(mt, name, js, sourceFileName))
  {
    var c := Assemble(mt, name, js, sourceFileName);
    assert c.dreamJobRaw == [] <==> !Truthy(js.dream.raw);
  }

  /** `normalizeNoSpace(t) !== nameNorm` */
  function NotNamed(nameNorm: string): string -> bool
  {
    t => NormalizeNoSpace(t) != nameNorm
  }

  /** The job passes in source order: middle, right, the left's other texts, the fallback dream text. */
  function RowJobs(mt: Matcher, leftJobTexts: seq<string>, middleTexts: seq<string>, rightTexts: seq<string>): Jobs
  {
    var afterRight := RightPass(mt, Jobs(MiddlePass(mt, middleTexts), NoJob), rightTexts);
    FallbackDream(mt, LeftJobs(mt, afterRight, leftJobTexts, middleTexts != []), leftJobTexts)
  }

  lemma RowJobsCoherent(mt: Matcher, leftJobTexts: seq<string>, middleTexts: seq<string>, rightTexts: seq<string>,
                        stores: seq<Store>)
    requires Sound(mt, stores)
    ensures Coherent(RowJobs(mt, leftJobTexts, middleTexts, rightTexts).current, stores)
    ensures Coherent(RowJobs(mt, leftJobTexts, middleTexts, rightTexts).dream, stores)
  {
    MiddlePassCoherent(mt, middleTexts, stores);
    var js := Jobs(MiddlePass(mt, middleTexts), NoJob);
    RightPassCoherent(mt, js, rightTexts, stores);
    LeftJobsCoherent(mt, RightPass(mt, js, rightTexts), leftJobTexts, middleTexts != [], stores);
  }

  function LeftTexts(row: Row, inferredWidth: int): seq<string>
  {
    TrimmedTexts(RowColumns(row.lines, inferredWidth)[0])
  }

  /** The candidate for a row whose left column gives `name`. */
  function NamedCandidate(row: Row, inferredWidth: int, mt: Matcher, name: string, sourceFileName: string): Candidate
  {
    var cols := RowColumns(row.lines, inferredWidth);
    var leftJobTexts := Filter(TrimmedTexts(cols[0]), NotNamed(NormalizeNoSpace(name)));
    Assemble(mt, name, RowJobs(mt, leftJobTexts, TrimmedTexts(cols[1]), TrimmedTexts(cols[2])), sourceFileName)
  }

  /** `extractFromRow` */
  function ExtractFromRow(row: Row, inferredWidth: int, mt: Matcher, sourceFileName: string): Option<Candidate>
  {
    if row.lines == [] then None
    else
      var name := PickName(mt, LeftTexts(row, inferredWidth));
      if name.None? || name.value == [] then None
      else Some(NamedCandidate(row, inferredWidth, mt, name.value, sourceFileName))
  }

  lemma NamedCandidateSpec(row: Row, inferredWidth: int, mt: Matcher, name: string, sourceFileName: string, stores: seq<Store>)
    ensures IssuesAgree(mt, NamedCandidate(row, inferredWidth, mt, name, sourceFileName))
    ensures NamedCandidate(row, inferredWidth, mt, name, sourceFileName).name == name
    ensures NamedCandidate(row, inferredWidth, mt, name, sourceFileName).nameRaw == name
    ensures NamedCandidate(row, inferredWidth, mt, name, sourceFileName).sourceFileName == sourceFileName
    ensures Sound(mt, stores) ==> CandidateFromCatalogue(NamedCandidate(row, inferredWidth, mt, name, sourceFileName), stores)
  {
    var cols := RowColumns(row.lines, inferredWidth);
    var leftJobTexts := Filter(TrimmedTexts(cols[0]), NotNamed(NormalizeNoSpace(name)));
    var js := RowJobs(mt, leftJobTexts, TrimmedTexts(cols[1]), TrimmedTexts(cols[2]));
    AssembleSpec(mt, name, js, sourceFileName);
    if Sound(mt, stores) {
      RowJobsCoherent(mt, leftJobTexts, TrimmedTexts(cols[1]), TrimmedTexts(cols[2]), stores);
    }
  }

  /**
   * `extractFromRow`: no candidate for an empty row or when no left text
   * qualifies as a name; otherwise the candidate carries the picked name and
   * the file name, its dream-match issue is present exactly when it has no
   * dream store, it is selected exactly when it has a dream store at 0.75
   * or more, and with sound matchers its store references are catalogue
   * stores.
   */
  lemma ExtractFromRowSpec(row: Row, inferredWidth: int, mt: Matcher, sourceFileName: string, stores: seq<Store>)
    ensures row.lines == [] ==> ExtractFromRow(row, inferredWidth, mt, sourceFileName).None?
    ensures row.lines != [] ==>
      (ExtractFromRow(row, inferredWidth, mt, sourceFileName).None? <==> PickName(mt, LeftTexts(row, inferredWidth)).None?)
    ensures ExtractFromRow(row, inferredWidth, mt, sourceFileName).Some? ==>
      var c := ExtractFromRow(row, inferredWidth, mt, sourceFileName).value;
      IssuesAgree(mt, c) && Some(c.name) == PickName(mt, LeftTexts(row, inferredWidth)) && c.nameRaw == c.name
      && IsValidName(c.name) && c.sourceFileName == sourceFileName
      && (Sound(mt, stores) ==> CandidateFromCatalogue(c, stores))
  {
    if row.lines != [] {
      var name := PickName(mt, LeftTexts(row, inferredWidth));
      PickNameNone(mt, LeftTexts(row, inferredWidth));
      PickNameValid(mt, LeftTexts(row, inferredWidth));
      if name.Some? {
        NamedCandidateSpec(row, inferredWidth, mt, name.value, sourceFileName, stores);
      }
    }
  }

  /** `extractFromRow`, step by step. */
  method ExtractFromRowScan(row: Row, inferredWidth: int, mt: Matcher, sourceFileName: string) returns (c: Option<Candidate>)
    ensures c == ExtractFromRow(row, inferredWidth, mt, sourceFileName)
  {
    if row.lines == [] {
      return None;
    }
    var cols := RowColumnsScan(row.lines, inferredWidth);
    var leftTexts := TrimmedTexts(cols[0]);
    var middleTexts := TrimmedTexts(cols[1]);
    var rightTexts := TrimmedTexts(cols[2]);
    var name := PickNameScan(mt, leftTexts);
    if name.None? || name.value == [] {
      return None;
    }
    var leftJobTexts := Filter(leftTexts, NotNamed(NormalizeNoSpace(name.value)));
    var current := MiddleScan(mt, middleTexts);
    var js := RightScan(mt, Jobs(current, NoJob), rightTexts);
    js := LeftSection(mt, js, leftJobTexts, middleTexts != []);
    js := FallbackDream(mt, js, leftJobTexts);
    c := Some(Assemble(mt, name.value, js, sourceFileName));
  }
}
