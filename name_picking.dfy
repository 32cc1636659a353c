/**
 * Choosing a resident name among the texts of one column: every text is
 * trimmed and cut down to a name, texts that do not look like a name (or
 * that look like a store the catalogue knows well) are dropped, and the
 * longest surviving name wins, the earliest text on ties.
 */
module NamePicking {
  import opened Wrappers
  import opened Seqs
  import opened Strings
  import opened Sorting
  import opened Types
  import opened TextUtils
  import opened StoreMatching

  /** The trimmed text and the name read from it. */
  datatype Picked = Picked(raw: string, name: string)

  /** The name cut from the line, or the sanitized line when the cut leaves nothing. */
  function Prepare(text: string, stores: Option<seq<Store>>): Picked
  {
    var trimmed := Trim(text);
    var extracted := ExtractResidentName(trimmed, stores, false);
    Picked(trimmed, if extracted != [] then extracted else SanitizeResidentName(trimmed))
  }

  /** A catalogue store with a non-empty id matches `name` at 0.85 or more. */
  predicate StrongStoreMatch(name: string, stores: seq<Store>)
  {
    var m := MatchStore(name, stores);
    m.storeId.Some? && m.storeId.value != [] && m.confidence >= 0.85
  }

  /** The three filters of `pickBestName`, in order. */
  predicate Survives(c: Picked, stores: Option<seq<Store>>)
  {
    IsLikelyName(c.name)
    && !IsUnemployedText(c.raw) && !IsUnemployedText(c.name)
    && (stores.None? || !StrongStoreMatch(c.name, stores.value))
  }

  function NegLength(c: Picked): int { -|c.name| }

  function Survivors(texts: seq<string>, stores: Option<seq<Store>>): seq<Picked>
  {
    Filter(MapSeq(texts, t => Prepare(t, stores)), c => Survives(c, stores))
  }

  /** `pickBestName`: the first candidate after sorting by descending name length. */
  function PickBestName(texts: seq<string>, stores: Option<seq<Store>>): (r: Option<Picked>)
    ensures r.Some? ==> Survives(r.value, stores)
  {
    var sorted := SortBy(Survivors(texts, stores), NegLength);
    if sorted == [] then None
    else
      assert sorted[0] in multiset(sorted);
      Some(sorted[0])
  }

  /** Nothing is picked exactly when no text survives the filters. */
  lemma PickBestNameNone(texts: seq<string>, stores: Option<seq<Store>>)
    ensures PickBestName(texts, stores).None? <==> forall k :: 0 <= k < |texts| ==> !Survives(Prepare(texts[k], stores), stores)
  {
    var prepared := MapSeq(texts, t => Prepare(t, stores));
    var survivors := Survivors(texts, stores);
    if survivors == [] {
      forall k | 0 <= k < |texts| ensures !Survives(Prepare(texts[k], stores), stores) {
        FilterMembers(prepared, c => Survives(c, stores), prepared[k]);
      }
    }
  }

  /**
   * The pick is the longest surviving name, from the earliest text on ties:
   * among the prepared texts that survive, `texts[k]` has the least negated
   * name length and no earlier survivor has one as small.
   */
  lemma PickBestNameIsBest(texts: seq<string>, stores: Option<seq<Store>>)
    requires PickBestName(texts, stores).Some?
    ensures exists k :: EarliestMinWhere(MapSeq(texts, t => Prepare(t, stores)), c => Survives(c, stores), NegLength, k)
                     && PickBestName(texts, stores).value == Prepare(texts[k], stores)
  {
    SortedFilterMapHead(texts, t => Prepare(t, stores), c => Survives(c, stores), NegLength);
  }

  /**
   * What the pick looks like: a likely resident name (letters, apostrophes,
   * hyphens and single spaces, at least three characters), neither it nor
   * its trimmed text unemployed-like, and no strong store match.
   */
  lemma PickBestNameShape(texts: seq<string>, stores: Option<seq<Store>>)
    requires PickBestName(texts, stores).Some?
    ensures IsLikelyName(PickBestName(texts, stores).value.name)
    ensures LetterName(SanitizeResidentName(PickBestName(texts, stores).value.name))
    ensures !IsUnemployedText(PickBestName(texts, stores).value.raw)
    ensures !IsUnemployedText(PickBestName(texts, stores).value.name)
    ensures stores.Some? ==> !StrongStoreMatch(PickBestName(texts, stores).value.name, stores.value)
  {
    LikelyNameShape(PickBestName(texts, stores).value.name);
  }
}
