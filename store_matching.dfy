/**
 * Matching an OCR'd job text against the store catalogue: the exact tiers,
 * the fuzzy best / runner-up scan with its short-name threshold and
 * ambiguity guard, the best match over several texts, and the search for
 * store names embedded in a longer text.
 */
module StoreMatching {
  import opened Wrappers
  import opened Seqs
  import opened Strings
  import opened Sorting
  import opened Types
  import opened TextUtils

  /** `{ storeId?, storeName?, confidence }` */
  datatype StoreMatch = StoreMatch(storeId: Option<string>, storeName: Option<string>, confidence: real)

  function NoMatch(confidence: real): StoreMatch
  {
    StoreMatch(None, None, confidence)
  }

  function MatchOf(store: Store, confidence: real): StoreMatch
  {
    StoreMatch(Some(store.id), Some(store.name), confidence)
  }

  // ---------------------------------------------------------------------------
  // Best and runner-up of a score sequence

  /** The indices of the fuzzy loop's `best` and `second`. */
  datatype Rank = Rank(best: Option<nat>, second: Option<nat>)

  predicate RankFits(r: Rank, n: nat)
  {
    (r.best.Some? ==> r.best.value < n)
    && (r.second.Some? ==> r.best.Some? && r.second.value < n && r.second.value != r.best.value)
  }

  /** One step of the loop: a strictly higher score takes `best` (the old best becomes `second`), otherwise it may take `second`. */
  function RankStep(r: Rank, scores: seq<real>, i: nat): (r': Rank)
    requires i < |scores| && RankFits(r, i)
    ensures RankFits(r', i + 1)
  {
    if r.best.None? || scores[i] > scores[r.best.value] then Rank(Some(i), r.best)
    else if r.second.None? || scores[i] > scores[r.second.value] then Rank(r.best, Some(i))
    else r
  }

  /**
   * The loop over all scores. `best` is the first index with the maximal
   * score; `second` holds the maximal score among all other indices (an
   * exact tie with the best included), and is absent only for fewer than
   * two scores.
   */
  function RankScores(scores: seq<real>): (r: Rank)
    ensures RankFits(r, |scores|)
  {
    if scores == [] then Rank(None, None)
    else
      var n := |scores| - 1;
      RankStep(RankScores(scores[..n]), scores, n)
  }

  lemma {:induction false} RankScoresSpec(scores: seq<real>)
    ensures var r := RankScores(scores);
            && (r.best.None? <==> scores == [])
            && (r.best.Some? ==> forall k :: 0 <= k < |scores| ==> scores[k] <= scores[r.best.value])
            && (r.best.Some? ==> forall k :: 0 <= k < r.best.value ==> scores[k] < scores[r.best.value])
            && (r.second.None? <==> |scores| <= 1)
            && (r.second.Some? ==> forall k :: 0 <= k < |scores| && k != r.best.value ==> scores[k] <= scores[r.second.value])
  {
    if scores != [] {
      var n := |scores| - 1;
      RankScoresSpec(scores[..n]);
      assert forall k :: 0 <= k < n ==> scores[..n][k] == scores[k];
    }
  }

  // ---------------------------------------------------------------------------
  // matchStore

  predicate ExactName(raw: string, s: Store) { Lower(s.name) == Lower(raw) }
  predicate NormalizedName(raw: string, s: Store) { NormalizeForMatch(s.name) == NormalizeForMatch(raw) }
  predicate NoSpaceName(key: string, s: Store) { NormalizeNoSpace(s.name) == key }

  /** The exact tiers in order: case-insensitive name (1), match key (0.98), no-space key (0.98), the half of a doubled no-space key (0.98). */
  function ExactTier(raw: string, stores: seq<Store>): (r: Option<StoreMatch>)
    ensures r.Some? ==> r.value.confidence == 1.0 || r.value.confidence == 0.98
    ensures r.Some? ==> exists k :: 0 <= k < |stores| && r.value == MatchOf(stores[k], r.value.confidence)
  {
    var exact := FindIndex(stores, s => ExactName(raw, s));
    if exact >= 0 then Some(MatchOf(stores[exact], 1.0))
    else
      var normalized := FindIndex(stores, s => NormalizedName(raw, s));
      if normalized >= 0 then Some(MatchOf(stores[normalized], 0.98))
      else
        var rawNoSpace := NormalizeNoSpace(raw);
        var noSpace := FindIndex(stores, s => NoSpaceName(rawNoSpace, s));
        if rawNoSpace != [] && noSpace >= 0 then Some(MatchOf(stores[noSpace], 0.98))
        else
          var collapsed := CollapseImmediateDuplicate(raw);
          if collapsed.Some? && collapsed.value != [] then
            var c := FindIndex(stores, s => NoSpaceName(collapsed.value, s));
            if c >= 0 then Some(MatchOf(stores[c], 0.98)) else None
          else None
  }

  function Max3(x: real, y: real, z: real): (m: real)
    ensures m >= x && m >= y && m >= z && (m == x || m == y || m == z)
  {
    if x >= y && x >= z then x else if y >= z then y else z
  }

  /** The fuzzy score of one store: the best of the plain, no-space and doubled-key similarities. */
  function Score(raw: string, collapsed: Option<string>, store: Store): (s: real)
    ensures 0.0 <= s <= 1.0
  {
    Max3(Similarity(raw, store.name), SimilarityNoSpace(raw, store.name),
         if collapsed.Some? && collapsed.value != [] then SimilarityNoSpace(collapsed.value, store.name) else 0.0)
  }

  function Scores(raw: string, stores: seq<Store>): (r: seq<real>)
    ensures |r| == |stores|
    ensures forall k :: 0 <= k < |r| ==> 0.0 <= r[k] <= 1.0
  {
    MapSeq(stores, s => Score(raw, CollapseImmediateDuplicate(raw), s))
  }

  /** A normalised query of one to four characters. */
  predicate IsShortQuery(raw: string)
  {
    0 < |NormalizeForMatch(raw)| <= 4
  }

  /** The decision after the fuzzy loop, given its best and runner-up. */
  function FuzzyDecision(raw: string, stores: seq<Store>, scores: seq<real>, r: Rank): (m: StoreMatch)
    requires |scores| == |stores| && RankFits(r, |stores|)
    requires forall k :: 0 <= k < |scores| ==> 0.0 <= scores[k] <= 1.0
    ensures 0.0 <= m.confidence <= 1.0
    ensures m.storeId.Some? ==> r.best.Some? && m == MatchOf(stores[r.best.value], scores[r.best.value])
    ensures m.storeId.None? ==> m.storeName.None?
  {
    if r.best.None? then NoMatch(0.0)
    else
      var best := scores[r.best.value];
      if best < 0.75 then
        if !IsShortQuery(raw) then NoMatch(best)
        else if r.second.Some? then
          if best >= 0.33 && best - scores[r.second.value] >= 0.12 then MatchOf(stores[r.best.value], best)
          else NoMatch(best)
        else if best >= 0.33 then MatchOf(stores[r.best.value], best)
        else NoMatch(best)
      else if r.second.Some? && scores[r.second.value] >= 0.75 && best - scores[r.second.value] < 0.05 then NoMatch(best)
      else MatchOf(stores[r.best.value], best)
  }

  /** `matchStore` */
  function MatchStore(dreamJobRaw: string, stores: seq<Store>): (m: StoreMatch)
    ensures Trim(dreamJobRaw) == [] || IsUnemployedText(Trim(dreamJobRaw)) ==> m == NoMatch(0.0)
    ensures stores == [] ==> m == NoMatch(0.0)
    ensures 0.0 <= m.confidence <= 1.0
    ensures m.storeId.Some? <==> m.storeName.Some?
    ensures m.storeId.Some? ==> exists k :: 0 <= k < |stores| && m == MatchOf(stores[k], m.confidence)
  {
    var raw := Trim(dreamJobRaw);
    if raw == [] || IsUnemployedText(raw) then NoMatch(0.0)
    else
      var tier := ExactTier(raw, stores);
      if tier.Some? then tier.value
      else
        var scores := Scores(raw, stores);
        FuzzyDecision(raw, stores, scores, RankScores(scores))
  }

  /** No store passes `p`: the search finds nothing. */
  lemma FindNone<T>(s: seq<T>, p: T -> bool)
    requires forall j :: 0 <= j < |s| ==> !p(s[j])
    ensures FindIndex(s, p) == -1
  {
  }

  /** A case-insensitive exact name selects the first such store at confidence 1. */
  lemma MatchStoreExact(dreamJobRaw: string, stores: seq<Store>, k: nat)
    requires Trim(dreamJobRaw) != [] && !IsUnemployedText(Trim(dreamJobRaw))
    requires k < |stores| && Lower(stores[k].name) == Lower(Trim(dreamJobRaw))
    requires forall j :: 0 <= j < k ==> Lower(stores[j].name) != Lower(Trim(dreamJobRaw))
    ensures MatchStore(dreamJobRaw, stores) == MatchOf(stores[k], 1.0)
  {
    FindIndexAt(stores, s => ExactName(Trim(dreamJobRaw), s), k);
  }

  /** Without a case-insensitive exact name, an equal match key selects the first such store at 0.98. */
  lemma MatchStoreNormalized(dreamJobRaw: string, stores: seq<Store>, k: nat)
    requires Trim(dreamJobRaw) != [] && !IsUnemployedText(Trim(dreamJobRaw))
    requires forall j :: 0 <= j < |stores| ==> Lower(stores[j].name) != Lower(Trim(dreamJobRaw))
    requires k < |stores| && NormalizeForMatch(stores[k].name) == NormalizeForMatch(Trim(dreamJobRaw))
    requires forall j :: 0 <= j < k ==> NormalizeForMatch(stores[j].name) != NormalizeForMatch(Trim(dreamJobRaw))
    ensures MatchStore(dreamJobRaw, stores) == MatchOf(stores[k], 0.98)
  {
    NormalizedTier(Trim(dreamJobRaw), stores, k);
  }

  lemma NormalizedTier(raw: string, stores: seq<Store>, k: nat)
    requires forall j :: 0 <= j < |stores| ==> Lower(stores[j].name) != Lower(raw)
    requires k < |stores| && NormalizeForMatch(stores[k].name) == NormalizeForMatch(raw)
    requires forall j :: 0 <= j < k ==> NormalizeForMatch(stores[j].name) != NormalizeForMatch(raw)
    ensures ExactTier(raw, stores) == Some(MatchOf(stores[k], 0.98))
  {
    assert forall j :: 0 <= j < |stores| ==> !ExactName(raw, stores[j]);
    FindNone(stores, s => ExactName(raw, s));
    FindIndexAt(stores, s => NormalizedName(raw, s), k);
  }

  /** Failing the first two tiers, an equal non-empty no-space key selects the first such store at 0.98. */
  lemma MatchStoreNoSpace(dreamJobRaw: string, stores: seq<Store>, k: nat)
    requires Trim(dreamJobRaw) != [] && !IsUnemployedText(Trim(dreamJobRaw))
    requires forall j :: 0 <= j < |stores| ==> Lower(stores[j].name) != Lower(Trim(dreamJobRaw))
    requires forall j :: 0 <= j < |stores| ==> NormalizeForMatch(stores[j].name) != NormalizeForMatch(Trim(dreamJobRaw))
    requires NormalizeNoSpace(Trim(dreamJobRaw)) != []
    requires k < |stores| && NormalizeNoSpace(stores[k].name) == NormalizeNoSpace(Trim(dreamJobRaw))
    requires forall j :: 0 <= j < k ==> NormalizeNoSpace(stores[j].name) != NormalizeNoSpace(Trim(dreamJobRaw))
    ensures MatchStore(dreamJobRaw, stores) == MatchOf(stores[k], 0.98)
  {
    NoSpaceTier(Trim(dreamJobRaw), stores, k);
  }

  lemma NoSpaceTier(raw: string, stores: seq<Store>, k: nat)
    requires forall j :: 0 <= j < |stores| ==> Lower(stores[j].name) != Lower(raw)
    requires forall j :: 0 <= j < |stores| ==> NormalizeForMatch(stores[j].name) != NormalizeForMatch(raw)
    requires NormalizeNoSpace(raw) != []
    requires k < |stores| && NormalizeNoSpace(stores[k].name) == NormalizeNoSpace(raw)
    requires forall j :: 0 <= j < k ==> NormalizeNoSpace(stores[j].name) != NormalizeNoSpace(raw)
    ensures ExactTier(raw, stores) == Some(MatchOf(stores[k], 0.98))
  {
    assert forall j :: 0 <= j < |stores| ==> !ExactName(raw, stores[j]);
    FindNone(stores, s => ExactName(raw, s));
    assert forall j :: 0 <= j < |stores| ==> !NormalizedName(raw, stores[j]);
    FindNone(stores, s => NormalizedName(raw, s));
    FindIndexAt(stores, s => NoSpaceName(NormalizeNoSpace(raw), s), k);
  }

  /** Failing the first three tiers, the half of a doubled key equal to a store's no-space key selects the first such store at 0.98. */
  lemma MatchStoreCollapsed(dreamJobRaw: string, stores: seq<Store>, h: string, k: nat)
    requires Trim(dreamJobRaw) != [] && !IsUnemployedText(Trim(dreamJobRaw))
    requires forall j :: 0 <= j < |stores| ==> Lower(stores[j].name) != Lower(Trim(dreamJobRaw))
    requires forall j :: 0 <= j < |stores| ==> NormalizeForMatch(stores[j].name) != NormalizeForMatch(Trim(dreamJobRaw))
    requires forall j :: 0 <= j < |stores| ==> NormalizeNoSpace(stores[j].name) != NormalizeNoSpace(Trim(dreamJobRaw))
    requires |NormalizeNoSpace(Trim(dreamJobRaw))| >= 8 && NormalizeNoSpace(Trim(dreamJobRaw)) == h + h
    requires k < |stores| && NormalizeNoSpace(stores[k].name) == h
    requires forall j :: 0 <= j < k ==> NormalizeNoSpace(stores[j].name) != h
    ensures MatchStore(dreamJobRaw, stores) == MatchOf(stores[k], 0.98)
  {
    CollapsedTier(Trim(dreamJobRaw), stores, h, k);
  }

  lemma CollapsedTier(raw: string, stores: seq<Store>, h: string, k: nat)
    requires forall j :: 0 <= j < |stores| ==> Lower(stores[j].name) != Lower(raw)
    requires forall j :: 0 <= j < |stores| ==> NormalizeForMatch(stores[j].name) != NormalizeForMatch(raw)
    requires forall j :: 0 <= j < |stores| ==> NormalizeNoSpace(stores[j].name) != NormalizeNoSpace(raw)
    requires |NormalizeNoSpace(raw)| >= 8 && NormalizeNoSpace(raw) == h + h
    requires k < |stores| && NormalizeNoSpace(stores[k].name) == h
    requires forall j :: 0 <= j < k ==> NormalizeNoSpace(stores[j].name) != h
    ensures ExactTier(raw, stores) == Some(MatchOf(stores[k], 0.98))
  {
    CollapseImmediateDuplicateIff(raw, h);
    assert h != [];
    assert forall j :: 0 <= j < |stores| ==> !ExactName(raw, stores[j]);
    FindNone(stores, s => ExactName(raw, s));
    assert forall j :: 0 <= j < |stores| ==> !NormalizedName(raw, stores[j]);
    FindNone(stores, s => NormalizedName(raw, s));
    FindNone(stores, s => NoSpaceName(NormalizeNoSpace(raw), s));
    FindIndexAt(stores, s => NoSpaceName(h, s), k);
  }

  /**
   * When the fuzzy result is accepted for the best-scoring store `k`:
   * at 0.75 or more, unless another store scores 0.75 or more within 0.05
   * of it; below 0.75, only for a short query, at 0.33 or more, with every
   * other store trailing by at least 0.12.
   */
  predicate AcceptedFuzzy(raw: string, scores: seq<real>, k: nat)
    requires k < |scores|
  {
    var c := scores[k];
    if c >= 0.75 then forall j :: 0 <= j < |scores| && j != k ==> !(scores[j] >= 0.75 && c - scores[j] < 0.05)
    else IsShortQuery(raw) && c >= 0.33 && forall j :: 0 <= j < |scores| && j != k ==> c - scores[j] >= 0.12
  }

  /** `k` is the first index holding the largest score. */
  predicate FirstMax(scores: seq<real>, k: nat)
  {
    k < |scores| && (forall j :: 0 <= j < |scores| ==> scores[j] <= scores[k])
    && forall j :: 0 <= j < k ==> scores[j] < scores[k]
  }

  lemma FuzzyDecisionIs(raw: string, stores: seq<Store>, scores: seq<real>, k: nat)
    requires |scores| == |stores| && FirstMax(scores, k)
    requires forall j :: 0 <= j < |scores| ==> 0.0 <= scores[j] <= 1.0
    ensures FuzzyDecision(raw, stores, scores, RankScores(scores))
         == if AcceptedFuzzy(raw, scores, k) then MatchOf(stores[k], scores[k]) else NoMatch(scores[k])
  {
    RankScoresSpec(scores);
    var r := RankScores(scores);
    assert r.best.value == k;
  }

  /** The fuzzy tier: the first best-scoring store, when accepted; otherwise no store at the best score. */
  lemma MatchStoreFuzzy(dreamJobRaw: string, stores: seq<Store>, k: nat)
    requires Trim(dreamJobRaw) != [] && !IsUnemployedText(Trim(dreamJobRaw))
    requires ExactTier(Trim(dreamJobRaw), stores).None?
    requires FirstMax(Scores(Trim(dreamJobRaw), stores), k)
    ensures MatchStore(dreamJobRaw, stores)
         == if AcceptedFuzzy(Trim(dreamJobRaw), Scores(Trim(dreamJobRaw), stores), k)
            then MatchOf(stores[k], Scores(Trim(dreamJobRaw), stores)[k])
            else NoMatch(Scores(Trim(dreamJobRaw), stores)[k])
  {
    FuzzyDecisionIs(Trim(dreamJobRaw), stores, Scores(Trim(dreamJobRaw), stores), k);
  }

  /** Ambiguity guard: a second store with the best score (0.75 or more) leaves the result without a store. */
  lemma MatchStoreTieRejected(dreamJobRaw: string, stores: seq<Store>, k: nat, j: nat)
    requires Trim(dreamJobRaw) != [] && !IsUnemployedText(Trim(dreamJobRaw))
    requires ExactTier(Trim(dreamJobRaw), stores).None?
    requires FirstMax(Scores(Trim(dreamJobRaw), stores), k)
    requires j < |stores| && j != k && Scores(Trim(dreamJobRaw), stores)[j] == Scores(Trim(dreamJobRaw), stores)[k] >= 0.75
    ensures MatchStore(dreamJobRaw, stores).storeId.None?
  {
    MatchStoreFuzzy(dreamJobRaw, stores, k);
  }

  // ---------------------------------------------------------------------------
  // The fuzzy loop as the source writes it

  /** `{ store, score }` */
  datatype Scored = Scored(store: Store, score: real)

  function EntryAt(stores: seq<Store>, scores: seq<real>, i: Option<nat>): Option<Scored>
    requires |scores| == |stores| && (i.Some? ==> i.value < |stores|)
  {
    if i.Some? then Some(Scored(stores[i.value], scores[i.value])) else None
  }

  lemma RankScoresSnoc(scores: seq<real>, i: nat)
    requires i < |scores|
    ensures RankScores(scores[..i + 1]) == RankStep(RankScores(scores[..i]), scores, i)
  {
    var t := scores[..i + 1];
    assert t[..i] == scores[..i];
    var prev := RankScores(scores[..i]);
    assert t[i] == scores[i];
    if prev.best.Some? { assert t[prev.best.value] == scores[prev.best.value]; }
    if prev.second.Some? { assert t[prev.second.value] == scores[prev.second.value]; }
  }

  /** One step of the rank read on the entries: how `best` and `second` change for the score at `i`. */
  lemma EntryStep(stores: seq<Store>, scores: seq<real>, r: Rank, i: nat)
    requires |scores| == |stores| && i < |stores| && RankFits(r, i)
    ensures var b, sc, e := EntryAt(stores, scores, r.best), EntryAt(stores, scores, r.second), Some(Scored(stores[i], scores[i]));
            var r' := RankStep(r, scores, i);
            EntryAt(stores, scores, r'.best) == (if b.None? || scores[i] > b.value.score then e else b)
            && EntryAt(stores, scores, r'.second)
               == (if b.None? || scores[i] > b.value.score then b else if sc.None? || scores[i] > sc.value.score then e else sc)
  {
  }

  /** The loop keeping `best` and `second` over the catalogue, scoring each store with `score`. */
  method FuzzyScan(stores: seq<Store>, score: Store -> real) returns (best: Option<Scored>, second: Option<Scored>)
    ensures RankFits(RankScores(MapSeq(stores, score)), |stores|)
    ensures best == EntryAt(stores, MapSeq(stores, score), RankScores(MapSeq(stores, score)).best)
    ensures second == EntryAt(stores, MapSeq(stores, score), RankScores(MapSeq(stores, score)).second)
  {
    ghost var scores := MapSeq(stores, score);
    ghost var r := Rank(None, None);
    best, second := None, None;
    var i := 0;
    while i < |stores|
      invariant 0 <= i <= |stores|
      invariant r == RankScores(scores[..i]) && RankFits(r, i)
      invariant best == EntryAt(stores, scores, r.best)
      invariant second == EntryAt(stores, scores, r.second)
    {
      var store := stores[i];
      var s := score(store);
      assert s == scores[i];
      EntryStep(stores, scores, r, i);
      RankScoresSnoc(scores, i);
      r := RankStep(r, scores, i);
      if best.None? || s > best.value.score {
        second := best;
        best := Some(Scored(store, s));
      } else if second.None? || s > second.value.score {
        second := Some(Scored(store, s));
      }
      i := i + 1;
    }
    assert scores[..i] == scores;
  }

  /** `matchStore`, with the fuzzy loop run step by step. */
  method MatchStoreScan(dreamJobRaw: string, stores: seq<Store>) returns (m: StoreMatch)
    ensures m == MatchStore(dreamJobRaw, stores)
  {
    var raw := Trim(dreamJobRaw);
    if raw == [] || IsUnemployedText(raw) { return NoMatch(0.0); }
    var tier := ExactTier(raw, stores);
    if tier.Some? { return tier.value; }
    var collapsed := CollapseImmediateDuplicate(raw);
    var best, second := FuzzyScan(stores, s => Score(raw, collapsed, s));
    assert MapSeq(stores, s => Score(raw, collapsed, s)) == Scores(raw, stores);
    m := DecideFuzzy(raw, stores, best, second);
  }

  /** The decision after the fuzzy loop, on the entries it kept. */
  method DecideFuzzy(raw: string, stores: seq<Store>, best: Option<Scored>, second: Option<Scored>) returns (m: StoreMatch)
    requires best == EntryAt(stores, Scores(raw, stores), RankScores(Scores(raw, stores)).best)
    requires second == EntryAt(stores, Scores(raw, stores), RankScores(Scores(raw, stores)).second)
    ensures m == FuzzyDecision(raw, stores, Scores(raw, stores), RankScores(Scores(raw, stores)))
  {
    if best.None? { return NoMatch(0.0); }
    var b := best.value;
    if b.score < 0.75 {
      if !IsShortQuery(raw) { return NoMatch(b.score); }
      if second.Some? {
        var gap := b.score - second.value.score;
        if b.score >= 0.33 && gap >= 0.12 { return MatchOf(b.store, b.score); }
      } else if b.score >= 0.33 {
        return MatchOf(b.store, b.score);
      }
      return NoMatch(b.score);
    }
    if second.Some? && second.value.score >= 0.75 {
      var gap := b.score - second.value.score;
      if gap < 0.05 { return NoMatch(b.score); }
    }
    return MatchOf(b.store, b.score);
  }

  // ---------------------------------------------------------------------------
  // pickBestStoreMatch

  /** `{ raw?, storeId?, storeName?, confidence }` */
  datatype StorePick = StorePick(raw: Option<string>, storeId: Option<string>, storeName: Option<string>, confidence: real)

  const NoPick := StorePick(None, None, None, 0.0)

  /** One text's contribution: skipped when blank or not store-like, otherwise its trimmed form and match. */
  function Attempt(raw: string, stores: seq<Store>): (a: Option<StorePick>)
    ensures a.Some? ==> a.value.raw == Some(Trim(raw)) && IsLikelyStoreName(Trim(raw))
    ensures a.Some? ==> 0.0 <= a.value.confidence <= 1.0
  {
    var trimmed := Trim(raw);
    if trimmed == [] || !IsLikelyStoreName(trimmed) then None
    else
      var m := MatchStore(trimmed, stores);
      Some(StorePick(Some(trimmed), m.storeId, m.storeName, m.confidence))
  }

  function KeepBetter(best: StorePick, a: Option<StorePick>): StorePick
  {
    if a.Some? && a.value.confidence > best.confidence then a.value else best
  }

  /**
   * The running best over the attempts: no attempt beats it; it is either
   * nothing (exactly when no attempt scores above 0) or the first attempt
   * with the greatest confidence.
   */
  function BestOf(attempts: seq<Option<StorePick>>): (r: StorePick)
    ensures r.confidence >= 0.0
    ensures forall k :: 0 <= k < |attempts| && attempts[k].Some? ==> attempts[k].value.confidence <= r.confidence
    ensures r == NoPick || exists k :: 0 <= k < |attempts| && attempts[k] == Some(r)
                                      && forall j :: 0 <= j < k && attempts[j].Some? ==> attempts[j].value.confidence < r.confidence
    ensures r != NoPick ==> r.confidence > 0.0
  {
    if attempts == [] then NoPick
    else
      var n := |attempts| - 1;
      var init := attempts[..n];
      assert forall k :: 0 <= k < n ==> init[k] == attempts[k];
      KeepBetter(BestOf(init), attempts[n])
  }

  /** `pickBestStoreMatch` */
  function PickBestStoreMatch(rawTexts: seq<string>, stores: seq<Store>): StorePick
  {
    BestOf(MapSeq(rawTexts, t => Attempt(t, stores)))
  }

  /** Nothing is picked exactly when no store-like text scores above 0. */
  lemma PickBestStoreMatchNone(rawTexts: seq<string>, stores: seq<Store>)
    ensures PickBestStoreMatch(rawTexts, stores) == NoPick
        <==> forall k :: 0 <= k < |rawTexts| && Attempt(rawTexts[k], stores).Some? ==> Attempt(rawTexts[k], stores).value.confidence <= 0.0
  {
    var attempts := MapSeq(rawTexts, t => Attempt(t, stores));
    var r := BestOf(attempts);
    assert forall k :: 0 <= k < |rawTexts| ==> attempts[k] == Attempt(rawTexts[k], stores);
    if r != NoPick {
      var k :| 0 <= k < |attempts| && attempts[k] == Some(r);
      assert Attempt(rawTexts[k], stores).value.confidence > 0.0;
    } else {
      assert forall k :: 0 <= k < |attempts| && attempts[k].Some? ==> attempts[k].value.confidence <= 0.0;
    }
  }

  /** The picked confidence is a match confidence, in 0..1. */
  lemma PickBestStoreMatchBounded(rawTexts: seq<string>, stores: seq<Store>)
    ensures 0.0 <= PickBestStoreMatch(rawTexts, stores).confidence <= 1.0
  {
    var attempts := MapSeq(rawTexts, t => Attempt(t, stores));
    var r := PickBestStoreMatch(rawTexts, stores);
    if r != NoPick {
      var k :| 0 <= k < |attempts| && attempts[k] == Some(r);
      assert attempts[k] == Attempt(rawTexts[k], stores);
    }
  }

  /** A picked text is the trimmed form of the first store-like text with the greatest match confidence. */
  lemma PickBestStoreMatchFirst(rawTexts: seq<string>, stores: seq<Store>)
    requires PickBestStoreMatch(rawTexts, stores) != NoPick
    ensures exists k :: 0 <= k < |rawTexts| && IsLikelyStoreName(Trim(rawTexts[k]))
                     && PickBestStoreMatch(rawTexts, stores).raw == Some(Trim(rawTexts[k]))
                     && PickBestStoreMatch(rawTexts, stores).confidence == MatchStore(Trim(rawTexts[k]), stores).confidence
                     && forall j :: 0 <= j < k && Attempt(rawTexts[j], stores).Some? ==>
                          Attempt(rawTexts[j], stores).value.confidence < PickBestStoreMatch(rawTexts, stores).confidence
  {
    var attempts := MapSeq(rawTexts, t => Attempt(t, stores));
    var r := PickBestStoreMatch(rawTexts, stores);
    var k :| 0 <= k < |attempts| && attempts[k] == Some(r)
             && forall j :: 0 <= j < k && attempts[j].Some? ==> attempts[j].value.confidence < r.confidence;
    assert Attempt(rawTexts[k], stores) == Some(r);
    AttemptPicked(rawTexts[k], stores, r);
  }

  lemma AttemptPicked(raw: string, stores: seq<Store>, p: StorePick)
    requires Attempt(raw, stores) == Some(p)
    ensures IsLikelyStoreName(Trim(raw)) && p.raw == Some(Trim(raw))
    ensures p.confidence == MatchStore(Trim(raw), stores).confidence
  {
  }

  /** The loop body for one text. */
  method OfferText(raw: string, stores: seq<Store>, best0: StorePick) returns (best: StorePick)
    ensures best == KeepBetter(best0, Attempt(raw, stores))
  {
    best := best0;
    var trimmed := Trim(raw);
    if trimmed == [] || !IsLikelyStoreName(trimmed) {
      assert Attempt(raw, stores) == None;
      return;
    }
    var m := MatchStore(trimmed, stores);
    ghost var a := StorePick(Some(trimmed), m.storeId, m.storeName, m.confidence);
    assert Attempt(raw, stores) == Some(a);
    if m.confidence > best.confidence {
      best := StorePick(Some(trimmed), m.storeId, m.storeName, m.confidence);
    }
  }

  lemma PickBestStoreMatchSnoc(rawTexts: seq<string>, stores: seq<Store>, i: nat)
    requires i < |rawTexts|
    ensures PickBestStoreMatch(rawTexts[..i + 1], stores) == KeepBetter(PickBestStoreMatch(rawTexts[..i], stores), Attempt(rawTexts[i], stores))
  {
    var attempts := MapSeq(rawTexts[..i + 1], t => Attempt(t, stores));
    assert attempts[..i] == MapSeq(rawTexts[..i], t => Attempt(t, stores));
    assert attempts[i] == Attempt(rawTexts[i], stores);
  }

  /** `pickBestStoreMatch` as the source writes it. */
  method PickBestStoreMatchScan(rawTexts: seq<string>, stores: seq<Store>) returns (best: StorePick)
    ensures best == PickBestStoreMatch(rawTexts, stores)
  {
    best := NoPick;
    var i := 0;
    while i < |rawTexts|
      invariant 0 <= i <= |rawTexts|
      invariant best == PickBestStoreMatch(rawTexts[..i], stores)
    {
      PickBestStoreMatchSnoc(rawTexts, stores, i);
      best := OfferText(rawTexts[i], stores, best);
      i := i + 1;
    }
    assert rawTexts[..i] == rawTexts;
  }

  // ---------------------------------------------------------------------------
  // findEmbeddedStoresInText

  /** `{ store, index }` */
  datatype Hit = Hit(store: Store, index: int)

  function HitIndex(h: Hit): int { h.index }

  /** A store's hit in the no-space haystack: its no-space name (four characters or more) at its first occurrence. */
  function HitOf(hay: string, store: Store): (h: Option<Hit>)
    ensures h.Some? ==> h.value.store == store && |NormalizeNoSpace(store.name)| >= 4
                        && h.value.index == IndexOf(hay, NormalizeNoSpace(store.name)) >= 0
  {
    var needle := NormalizeNoSpace(store.name);
    if needle == [] || |needle| < 4 then None
    else
      var idx := IndexOf(hay, needle);
      if idx >= 0 then Some(Hit(store, idx)) else None
  }

  /** The hits in catalogue order. */
  function CollectHits(hay: string, stores: seq<Store>): seq<Hit>
  {
    if stores == [] then []
    else
      var n := |stores| - 1;
      var h := HitOf(hay, stores[n]);
      CollectHits(hay, stores[..n]) + (if h.Some? then [h.value] else [])
  }

  /** Every hit is the hit of a catalogue store, and every store that has a hit is represented. */
  lemma {:induction false} CollectHitsSound(hay: string, stores: seq<Store>)
    ensures forall k :: 0 <= k < |CollectHits(hay, stores)| ==>
              CollectHits(hay, stores)[k].store in stores && HitOf(hay, CollectHits(hay, stores)[k].store) == Some(CollectHits(hay, stores)[k])
  {
    if stores != [] {
      var n := |stores| - 1;
      CollectHitsSound(hay, stores[..n]);
      var r := CollectHits(hay, stores);
      var init := CollectHits(hay, stores[..n]);
      forall k | 0 <= k < |r| ensures r[k].store in stores && HitOf(hay, r[k].store) == Some(r[k]) {
        if k < |init| {
          assert r[k] == init[k];
          assert init[k].store in stores[..n];
        } else {
          assert r[k].store == stores[n];
        }
      }
    }
  }

  lemma {:induction false} CollectHitsComplete(hay: string, stores: seq<Store>)
    ensures forall store :: store in stores && HitOf(hay, store).Some? ==> HitOf(hay, store).value in CollectHits(hay, stores)
  {
    if stores != [] {
      var n := |stores| - 1;
      CollectHitsComplete(hay, stores[..n]);
      assert forall store :: store in stores ==> store in stores[..n] || store == stores[n];
    }
  }

  lemma CollectHitsSnoc(hay: string, stores: seq<Store>, i: nat)
    requires i < |stores|
    ensures CollectHits(hay, stores[..i + 1]) == CollectHits(hay, stores[..i]) + (if HitOf(hay, stores[i]).Some? then [HitOf(hay, stores[i]).value] else [])
  {
    assert stores[..i + 1][..i] == stores[..i];
  }

  function HitIds(hits: seq<Hit>): set<string>
  {
    set k | 0 <= k < |hits| :: hits[k].store.id
  }

  lemma HitIdsSnoc(hits: seq<Hit>, h: Hit)
    ensures HitIds(hits + [h]) == HitIds(hits) + {h.store.id}
  {
    var l := hits + [h];
    forall id | id in HitIds(l) ensures id in HitIds(hits) + {h.store.id} {
      var k :| 0 <= k < |l| && l[k].store.id == id;
      if k < |hits| { assert l[k] == hits[k]; }
    }
    forall id | id in HitIds(hits) ensures id in HitIds(l) {
      var k :| 0 <= k < |hits| && hits[k].store.id == id;
      assert l[k] == hits[k];
    }
    assert l[|hits|] == h;
  }

  /** Keeps the first hit of every store id. */
  function FirstPerId(hits: seq<Hit>): (r: seq<Hit>)
    ensures forall k :: 0 <= k < |r| ==> r[k] in hits
    ensures forall j, k :: 0 <= j < k < |r| ==> r[j].store.id != r[k].store.id
    ensures HitIds(r) == HitIds(hits)
  {
    if hits == [] then []
    else
      var n := |hits| - 1;
      var out := FirstPerId(hits[..n]);
      assert forall k :: 0 <= k < n ==> hits[..n][k] == hits[k];
      assert hits == hits[..n] + [hits[n]];
      HitIdsSnoc(hits[..n], hits[n]);
      HitIdsSnoc(out, hits[n]);
      if hits[n].store.id in HitIds(out) then out else out + [hits[n]]
  }

  /** `findEmbeddedStoresInText` */
  function FindEmbeddedStores(text: string, stores: seq<Store>): seq<Hit>
  {
    var hay := NormalizeNoSpace(text);
    if hay == [] then [] else FirstPerId(SortBy(CollectHits(hay, stores), HitIndex))
  }

  /** Keeping the first of each id keeps an index-sorted list sorted. */
  lemma {:induction false} FirstPerIdSorted(hits: seq<Hit>)
    requires SortedBy(hits, HitIndex)
    ensures SortedBy(FirstPerId(hits), HitIndex)
  {
    if hits != [] {
      var n := |hits| - 1;
      assert SortedBy(hits[..n], HitIndex) by {
        assert forall k :: 0 <= k < n ==> hits[..n][k] == hits[k];
      }
      FirstPerIdSorted(hits[..n]);
      var out := FirstPerId(hits[..n]);
      forall k | 0 <= k < |out| ensures HitIndex(out[k]) <= HitIndex(hits[n]) {
        var m :| 0 <= m < n && hits[..n][m] == out[k];
      }
    }
  }

  /** What every reported hit satisfies. */
  predicate SoundHit(text: string, stores: seq<Store>, h: Hit)
  {
    h.store in stores && |NormalizeNoSpace(h.store.name)| >= 4
    && h.index == IndexOf(NormalizeNoSpace(text), NormalizeNoSpace(h.store.name)) >= 0
  }

  /** A store the search must report: a no-space name of four characters or more occurring in the no-space text. */
  predicate EmbeddedIn(text: string, store: Store)
  {
    NormalizeNoSpace(text) != [] && |NormalizeNoSpace(store.name)| >= 4
    && IndexOf(NormalizeNoSpace(text), NormalizeNoSpace(store.name)) >= 0
  }

  lemma SortedHitsFromHits(hits: seq<Hit>)
    ensures forall h :: h in SortBy(hits, HitIndex) <==> h in hits
  {
    forall h ensures h in SortBy(hits, HitIndex) <==> h in hits {
      assert h in SortBy(hits, HitIndex) <==> h in multiset(SortBy(hits, HitIndex));
      assert h in hits <==> h in multiset(hits);
    }
  }

  /**
   * The hits are distinct by id and in nondecreasing index order; each is
   * a store whose no-space name has four characters or more, at its first
   * occurrence in the no-space text; an empty no-space text gives no hits.
   */
  lemma FindEmbeddedStoresSound(text: string, stores: seq<Store>)
    ensures NormalizeNoSpace(text) == [] ==> FindEmbeddedStores(text, stores) == []
    ensures forall k :: 0 <= k < |FindEmbeddedStores(text, stores)| ==> SoundHit(text, stores, FindEmbeddedStores(text, stores)[k])
    ensures forall j, k :: 0 <= j < k < |FindEmbeddedStores(text, stores)| ==>
              FindEmbeddedStores(text, stores)[j].store.id != FindEmbeddedStores(text, stores)[k].store.id
    ensures SortedBy(FindEmbeddedStores(text, stores), HitIndex)
  {
    var hay := NormalizeNoSpace(text);
    if hay != [] {
      var hits := CollectHits(hay, stores);
      CollectHitsSound(hay, stores);
      SortedHitsFromHits(hits);
      SortByIsSorted(hits, HitIndex);
      FirstPerIdSorted(SortBy(hits, HitIndex));
    }
  }

  /** Every store embedded in the text is reported (by id). */
  lemma FindEmbeddedStoresComplete(text: string, stores: seq<Store>, store: Store)
    requires store in stores && EmbeddedIn(text, store)
    ensures store.id in HitIds(FindEmbeddedStores(text, stores))
  {
    var hay := NormalizeNoSpace(text);
    var hits := CollectHits(hay, stores);
    CollectHitsComplete(hay, stores);
    SortedHitsFromHits(hits);
    var h := HitOf(hay, store).value;
    var sorted := SortBy(hits, HitIndex);
    var k :| 0 <= k < |sorted| && sorted[k] == h;
  }

  /** The body of the `hits` loop for one store. */
  method HitScan(hay: string, store: Store) returns (h: Option<Hit>)
    ensures h == HitOf(hay, store)
  {
    h := None;
    var needle := NormalizeNoSpace(store.name);
    if needle != [] && |needle| >= 4 {
      var idx := IndexOf(hay, needle);
      if idx >= 0 {
        h := Some(Hit(store, idx));
      }
    }
  }

  /** The `hits` loop. */
  method CollectHitsScan(hay: string, stores: seq<Store>) returns (hits: seq<Hit>)
    ensures hits == CollectHits(hay, stores)
  {
    hits := [];
    var i := 0;
    while i < |stores|
      invariant 0 <= i <= |stores|
      invariant hits == CollectHits(hay, stores[..i])
    {
      CollectHitsSnoc(hay, stores, i);
      var h := HitScan(hay, stores[i]);
      if h.Some? {
        hits := hits + [h.value];
      }
      i := i + 1;
    }
    assert stores[..i] == stores;
  }

  /** The `seen` / `out` loop: the first hit of each id. */
  method FirstPerIdScan(hits: seq<Hit>) returns (out: seq<Hit>)
    ensures out == FirstPerId(hits)
  {
    var seen: set<string> := {};
    out := [];
    var i := 0;
    while i < |hits|
      invariant 0 <= i <= |hits|
      invariant out == FirstPerId(hits[..i]) && seen == HitIds(out)
    {
      assert hits[..i + 1][..i] == hits[..i];
      var h := hits[i];
      if h.store.id !in seen {
        HitIdsSnoc(out, h);
        seen := seen + {h.store.id};
        out := out + [h];
      }
      i := i + 1;
    }
    assert hits[..i] == hits;
  }

  /** `findEmbeddedStoresInText`; the sort is the engine's stable sort by index. */
  method FindEmbeddedStoresInText(text: string, stores: seq<Store>) returns (out: seq<Hit>)
    ensures out == FindEmbeddedStores(text, stores)
  {
    var hay := NormalizeNoSpace(text);
    if hay == [] { return []; }
    var hits := CollectHitsScan(hay, stores);
    var sorted := SortBy(hits, HitIndex);
    out := FirstPerIdScan(sorted);
  }
}
