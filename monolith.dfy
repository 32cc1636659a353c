/**
 * The single-file copy of the import (`residentScreenshotImport.ts`), where
 * it differs from the modular one:
 *   - its `dedupe` keys: the dream key is the dream store id when there is
 *     one, and an "unemployed" current job is an ordinary current key, not a
 *     wildcard;
 *   - the store-name pattern of `extractResidentNameFromOcrLine` joins the
 *     store's words with a real `\s+` and has no substring fallbacks
 *     (`TextUtils.ExtractResidentName` with `monolith` set).
 * Its page strategy and its per-file-then-global dedupe are
 * `Pipeline.ExtractResidents` with `DedupeKeys`, and its ranking and merge
 * are `Dedupe.IsBetter` and `Dedupe.Merge`.
 */
module Monolith {
  import opened Wrappers
  import opened Seqs
  import opened Strings
  import opened Types
  import opened ImportTypes
  import opened TextUtils
  import D = Dedupe

  // ---------------------------------------------------------------------------
  // dedupe keys

  /** `currentKeyFor`: the current store id, else the current text's match key, else `''`. */
  function CurrentKey(c: Candidate): string
  {
    if Truthy(c.currentJobStoreId) then c.currentJobStoreId.value
    else if Truthy(c.currentJobRaw) then NormalizeForMatch(c.currentJobRaw.value)
    else []
  }

  /** `dreamKeyFor`: the dream store id when there is one, else the match key of the dream text. */
  function DreamKey(c: Candidate): string
  {
    if Truthy(c.dreamJobStoreId) then c.dreamJobStoreId.value else NormalizeForMatch(c.dreamJobRaw)
  }

  /** `baseKeyFor`: `${normalizeForMatch(name)}|${dreamKeyFor(c)}` */
  function BaseKey(c: Candidate): string
  {
    NormalizeForMatch(c.name) + "|" + DreamKey(c)
  }

  const DedupeKeys: D.Keys := D.Keys(CurrentKey, BaseKey)

  lemma DedupeKeysValid()
    ensures D.KeysValid(DedupeKeys)
  {
  }

  /** Two candidates share a group exactly when their name keys and their dream keys agree. */
  lemma BaseKeyIff(x: Candidate, y: Candidate)
    ensures BaseKey(x) == BaseKey(y) <==> NormalizeForMatch(x.name) == NormalizeForMatch(y.name) && DreamKey(x) == DreamKey(y)
  {
    if BaseKey(x) == BaseKey(y) {
      D.NoBarInKey(NormalizeForMatch(x.name));
      D.NoBarInKey(NormalizeForMatch(y.name));
      D.SplitAtBar(NormalizeForMatch(x.name), DreamKey(x), NormalizeForMatch(y.name), DreamKey(y));
    }
  }

  /**
   * The current key is empty, and so matches any other, only when there is
   * no current store id and the current text is missing or has no letters
   * or digits; in particular an "unemployed" text is never a wildcard here,
   * while the modular copy's key treats it as one.
   */
  lemma CurrentKeyEmpty(c: Candidate)
    ensures CurrentKey(c) == [] <==>
              !Truthy(c.currentJobStoreId) && (!Truthy(c.currentJobRaw) || NormalizeForMatch(c.currentJobRaw.value) == [])
    ensures !Truthy(c.currentJobStoreId) && Truthy(c.currentJobRaw) && IsUnemployedText(c.currentJobRaw.value) ==>
              CurrentKey(c) != [] && D.CurrentKey(c) == []
  {
    if Truthy(c.currentJobRaw) {
      UnemployedBasics(c.currentJobRaw.value);
    }
  }

  // ---------------------------------------------------------------------------
  // dedupe

  function DedupeOf(cs: seq<Candidate>): seq<Candidate>
  {
    D.DedupeWith(DedupeKeys, cs)
  }

  /**
   * `dedupe`: no candidates are added, some come out exactly when some go
   * in, the group keys of the result are exactly those of the input, a
   * selected result has a dream store id when every selected input has
   * one, and every result has the identifying fields of one input.
   */
  lemma DedupeSpec(cs: seq<Candidate>)
    ensures |DedupeOf(cs)| <= |cs|
    ensures cs == [] <==> DedupeOf(cs) == []
    ensures forall k :: k in MapSeq(DedupeOf(cs), BaseKey) <==> k in MapSeq(cs, BaseKey)
    ensures D.AllSelectedHaveDream(cs) ==> D.AllSelectedHaveDream(DedupeOf(cs))
    ensures forall x :: x in DedupeOf(cs) ==> exists j :: 0 <= j < |cs| && D.OriginOf(cs[j]) == D.OriginOf(x)
  {
    DedupeKeysValid();
    D.DedupeWithSize(DedupeKeys, cs);
    forall k ensures k in MapSeq(DedupeOf(cs), BaseKey) <==> k in MapSeq(cs, BaseKey) {
      D.DedupeWithKeys(DedupeKeys, cs, k);
    }
    if D.AllSelectedHaveDream(cs) {
      D.DedupeWithSelected(DedupeKeys, cs);
    }
    forall x | x in DedupeOf(cs) ensures exists j :: 0 <= j < |cs| && D.OriginOf(cs[j]) == D.OriginOf(x) {
      D.DedupeWithOrigins(DedupeKeys, cs, x);
    }
  }

  /**
   * The two copies part ways on an unemployed reading: with the same name
   * and dream job, a record whose current job reads "unemployed" and one
   * with a different, known current job merge into one in the modular
   * copy, and stay two records here.
   */
  lemma UnemployedKeptApart(x: Candidate, y: Candidate)
    requires BaseKey(x) == BaseKey(y) && D.BaseKey(x) == D.BaseKey(y)
    requires !Truthy(x.currentJobStoreId) && Truthy(x.currentJobRaw) && IsUnemployedText(x.currentJobRaw.value)
    requires CurrentKey(y) != [] && CurrentKey(y) != CurrentKey(x)
    ensures D.DedupeOf([x, y]) == [D.Merge(x, y)]
    ensures DedupeOf([x, y]) == [x, y]
  {
    CurrentKeyEmpty(x);
    D.PairOfOneGroup(D.Modular, x, y);
    D.PairOfOneGroup(DedupeKeys, x, y);
  }

  /** `dedupe`, step by step. */
  method DedupeCandidates(cs: seq<Candidate>) returns (out: seq<Candidate>)
    ensures out == DedupeOf(cs)
  {
    out := D.DedupeBy(DedupeKeys, cs);
  }

  // ---------------------------------------------------------------------------
  // The store-name pattern

  /**
   * Without a backslash in the text, the modular copy's pattern for a store
   * name of two or more words matches nowhere: its joiner demands a literal
   * backslash between the words.
   */
  lemma ModularPatternNeedsBackslash(t: string, words: seq<string>)
    requires |words| >= 2 && '\\' !in t
    ensures PatternIndex(t, words, false, 0) == -1
  {
    forall i | 0 <= i <= |t| ensures !WordsMatchAt(t, i, words, false) {
    }
  }

  /**
   * A two-word store name written with one whitespace character between
   * its words, on word boundaries, matches the pattern here and not the
   * modular one.
   */
  lemma SpacedWordsMatch(t: string, i: nat, a: string, b: string)
    requires i + |a| + 1 + |b| <= |t|
    requires t[i..i + |a|] == a && IsSpace(t[i + |a|]) && t[i + |a| + 1..i + |a| + 1 + |b|] == b
    requires Boundary(t, i) && Boundary(t, i + |a| + 1 + |b|)
    ensures PatternAt(t, i, [a, b], true)
    ensures !PatternAt(t, i, [a, b], false)
  {
    var q := i + |a|;
    assert [a, b][0] == a && [a, b][1..] == [b];
    assert WordAtIgnoreCase(t, q + 1, b);
    assert WordsMatchAt(t, q + 1, [b], true);
    assert SeparatorRun(t, q, [b], true);
    assert t[q] != '\\';
  }
}
