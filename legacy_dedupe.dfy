/**
 * The deduplicator of the older single-file extractor (`extract.ts`):
 * candidates are keyed by their name with spaces removed; the first
 * candidate of a key is kept and every later one is merged into it field
 * by field. Entries come out in the order their keys were first seen.
 */
module LegacyDedupe {
  import opened Wrappers
  import opened Seqs
  import opened Types
  import opened ImportTypes
  import opened TextUtils
  import Dedupe
  import LegacyRow

  /** `normalizeNoSpace(c.name)` */
  function NameKeyOf(c: Candidate): string { NormalizeNoSpace(c.name) }

  predicate HasDream(c: Candidate) { Truthy(c.dreamJobStoreId) }
  predicate HasCurrentStore(c: Candidate) { Truthy(c.currentJobStoreId) }

  /** The dream store a candidate names, with its matched name and confidence. */
  function DreamOf(c: Candidate): (Option<string>, Option<string>, real)
  {
    (c.dreamJobStoreId, c.matchedStoreName, c.matchConfidence)
  }

  /** The current store a candidate names, with its matched name and confidence. */
  function CurrentOf(c: Candidate): (Option<string>, Option<string>, Option<real>)
  {
    (c.currentJobStoreId, c.matchedCurrentStoreName, c.currentMatchConfidence)
  }

  /** `existing` takes the dream store of `c` when it has none and `c` has one. */
  function TakeDream(e: Candidate, c: Candidate): Candidate
  {
    if !HasDream(e) && HasDream(c) then
      e.(dreamJobStoreId := c.dreamJobStoreId, matchedStoreName := c.matchedStoreName,
         matchConfidence := c.matchConfidence, dreamJobRaw := c.dreamJobRaw)
    else e
  }

  /** `existing` takes the current store of `c` when it has none and `c` has one. */
  function TakeCurrent(e: Candidate, c: Candidate): Candidate
  {
    if !HasCurrentStore(e) && HasCurrentStore(c) then
      e.(currentJobStoreId := c.currentJobStoreId, matchedCurrentStoreName := c.matchedCurrentStoreName,
         currentMatchConfidence := c.currentMatchConfidence, currentJobRaw := c.currentJobRaw)
    else e
  }

  /** The raw texts fill in when missing, the shorter issue list wins, and `selected` is or-ed. */
  function FillRest(e: Candidate, c: Candidate): Candidate
  {
    var currentJobRaw := if !Truthy(e.currentJobRaw) && Truthy(c.currentJobRaw) then c.currentJobRaw else e.currentJobRaw;
    var dreamJobRaw := if e.dreamJobRaw == [] && c.dreamJobRaw != [] then c.dreamJobRaw else e.dreamJobRaw;
    var issues := if |c.issues| < |e.issues| then c.issues else e.issues;
    e.(currentJobRaw := currentJobRaw, dreamJobRaw := dreamJobRaw, issues := issues, selected := e.selected || c.selected)
  }

  /** The body of the loop for a key already present: the updates of `existing` in the source's order. */
  function MergeInto(e: Candidate, c: Candidate): Candidate
  {
    FillRest(TakeCurrent(TakeDream(e, c), c), c)
  }

  /** A merge moves the dream store over only when `existing` has none and `c` has one. */
  lemma MergeDream(e: Candidate, c: Candidate)
    ensures DreamOf(MergeInto(e, c)) == if !HasDream(e) && HasDream(c) then DreamOf(c) else DreamOf(e)
  {
  }

  /** A merge moves the current store over only when `existing` has none and `c` has one. */
  lemma MergeCurrent(e: Candidate, c: Candidate)
    ensures CurrentOf(MergeInto(e, c)) == if !HasCurrentStore(e) && HasCurrentStore(c) then CurrentOf(c) else CurrentOf(e)
  {
  }

  /** A merge keeps the shorter issue list, `existing`'s on a tie. */
  lemma MergeIssues(e: Candidate, c: Candidate)
    ensures MergeInto(e, c).issues == if |c.issues| < |e.issues| then c.issues else e.issues
  {
  }

  // ---------------------------------------------------------------------------
  // ---------------------------------------------------------------------------
  // The reference: a group merged from left to right

  /** The candidates of `cs` whose key under `key` is `k`, in input order. */
  function GroupOf(cs: seq<Candidate>, key: Candidate -> string, k: string): seq<Candidate>
  {
    Filter(cs, c => key(c) == k)
  }

  /** The first candidate of a group with every later one merged into it by `merge`. */
  function FoldMerge(group: seq<Candidate>, merge: Merger): Candidate
    requires group != []
    decreases |group|
  {
    if |group| == 1 then group[0]
    else
      var n := |group| - 1;
      merge(FoldMerge(group[..n], merge), group[n])
  }

  lemma FoldSnoc(group: seq<Candidate>, merge: Merger, c: Candidate)
    requires group != []
    ensures FoldMerge(group + [c], merge) == merge(FoldMerge(group, merge), c)
  {
    assert (group + [c])[..|group|] == group;
  }

  /** `merge` leaves the name, the raw name and the file name of its first argument alone. */
  ghost predicate KeepsIdentity(merge: Merger)
  {
    forall e, c :: merge(e, c).name == e.name && merge(e, c).nameRaw == e.nameRaw && merge(e, c).sourceFileName == e.sourceFileName
  }

  /** `merge` or-s the selection flags. */
  ghost predicate OrsSelected(merge: Merger)
  {
    forall e, c :: merge(e, c).selected == (e.selected || c.selected)
  }

  /** `merge` takes the dream store of its second argument only when the first has none and the second has one. */
  ghost predicate FillsDream(merge: Merger)
  {
    forall e, c :: DreamOf(merge(e, c)) == if !HasDream(e) && HasDream(c) then DreamOf(c) else DreamOf(e)
  }

  /** `merge` takes the current store of its second argument only when the first has none and the second has one. */
  ghost predicate FillsCurrent(merge: Merger)
  {
    forall e, c :: CurrentOf(merge(e, c)) == if !HasCurrentStore(e) && HasCurrentStore(c) then CurrentOf(c) else CurrentOf(e)
  }

  predicate HasDreamRaw(c: Candidate) { c.dreamJobRaw != [] }
  predicate HasCurrentRaw(c: Candidate) { Truthy(c.currentJobRaw) }

  /**
   * `merge` moves the dream text over with the dream store, and otherwise
   * fills it from its second argument when it is still empty.
   */
  ghost predicate FillsDreamRaw(merge: Merger)
  {
    forall e, c :: merge(e, c).dreamJobRaw ==
      var moved := if !HasDream(e) && HasDream(c) then c.dreamJobRaw else e.dreamJobRaw;
      if moved == [] && HasDreamRaw(c) then c.dreamJobRaw else moved
  }

  /**
   * `merge` moves the current-job text over with the current store, and
   * otherwise fills it from its second argument when it is still missing.
   */
  ghost predicate FillsCurrentRaw(merge: Merger)
  {
    forall e, c :: merge(e, c).currentJobRaw ==
      var moved := if !HasCurrentStore(e) && HasCurrentStore(c) then c.currentJobRaw else e.currentJobRaw;
      if !Truthy(moved) && HasCurrentRaw(c) then c.currentJobRaw else moved
  }

  /** `merge` keeps the shorter issue list, the first argument's on a tie. */
  ghost predicate ShorterIssues(merge: Merger)
  {
    forall e, c :: merge(e, c).issues == if |c.issues| < |e.issues| then c.issues else e.issues
  }

  /** The loop body of `deduplicateCandidates` has all five merge properties. */
  lemma MergeIntoProperties()
    ensures KeepsIdentity(MergeInto) && OrsSelected(MergeInto) && FillsDream(MergeInto)
    ensures FillsCurrent(MergeInto) && ShorterIssues(MergeInto)
    ensures FillsDreamRaw(MergeInto) && FillsCurrentRaw(MergeInto)
  {
    forall e, c ensures DreamOf(MergeInto(e, c)) == if !HasDream(e) && HasDream(c) then DreamOf(c) else DreamOf(e) {
      MergeDream(e, c);
    }
    forall e, c ensures CurrentOf(MergeInto(e, c)) == if !HasCurrentStore(e) && HasCurrentStore(c) then CurrentOf(c) else CurrentOf(e) {
      MergeCurrent(e, c);
    }
    forall e, c ensures MergeInto(e, c).issues == if |c.issues| < |e.issues| then c.issues else e.issues {
      MergeIssues(e, c);
    }
  }

  /** Merging never touches the name, the raw name or the file name. */
  lemma {:induction false} FoldKeeps(group: seq<Candidate>, merge: Merger)
    requires group != [] && KeepsIdentity(merge)
    ensures FoldMerge(group, merge).name == group[0].name
    ensures FoldMerge(group, merge).nameRaw == group[0].nameRaw
    ensures FoldMerge(group, merge).sourceFileName == group[0].sourceFileName
    decreases |group|
  {
    if |group| > 1 {
      FoldKeeps(group[..|group| - 1], merge);
    }
  }

  /** The merged entry is selected exactly when some candidate of its group is. */
  lemma {:induction false} FoldSelected(group: seq<Candidate>, merge: Merger)
    requires group != [] && OrsSelected(merge)
    ensures FoldMerge(group, merge).selected <==> exists i :: 0 <= i < |group| && group[i].selected
    decreases |group|
  {
    if |group| > 1 {
      var n := |group| - 1;
      FoldSelected(group[..n], merge);
      if exists i :: 0 <= i < n && group[..n][i].selected {
        var i :| 0 <= i < n && group[..n][i].selected;
        assert group[i] == group[..n][i];
      }
      if exists i :: 0 <= i < |group| && group[i].selected {
        var i :| 0 <= i < |group| && group[i].selected;
        if i < n {
          assert group[..n][i] == group[i];
        }
      }
    }
  }

  /**
   * The dream store of the merged entry, with its name and confidence, is
   * that of the first candidate of the group that names one, or the first
   * candidate's when none does.
   */
  lemma {:induction false} FoldDream(group: seq<Candidate>, merge: Merger)
    requires group != [] && FillsDream(merge)
    ensures var i := FindIndex(group, HasDream); DreamOf(FoldMerge(group, merge)) == DreamOf(group[if i < 0 then 0 else i])
    decreases |group|
  {
    if |group| > 1 {
      var n := |group| - 1;
      FoldDream(group[..n], merge);
      FindIndexSnoc(group, HasDream, n);
      assert group[..n + 1] == group;
      var i := FindIndex(group[..n], HasDream);
      if i >= 0 {
        assert group[..n][i] == group[i];
      } else {
        assert group[..n][0] == group[0];
      }
    }
  }

  /**
   * The current store of the merged entry, with its name and confidence, is
   * that of the first candidate of the group that names one, or the first
   * candidate's when none does.
   */
  lemma {:induction false} FoldCurrent(group: seq<Candidate>, merge: Merger)
    requires group != [] && FillsCurrent(merge)
    ensures var i := FindIndex(group, HasCurrentStore); CurrentOf(FoldMerge(group, merge)) == CurrentOf(group[if i < 0 then 0 else i])
    decreases |group|
  {
    if |group| > 1 {
      var n := |group| - 1;
      FoldCurrent(group[..n], merge);
      FindIndexSnoc(group, HasCurrentStore, n);
      assert group[..n + 1] == group;
      var i := FindIndex(group[..n], HasCurrentStore);
      if i >= 0 {
        assert group[..n][i] == group[i];
      } else {
        assert group[..n][0] == group[0];
      }
    }
  }

  /**
   * The dream text of the merged entry: from the first candidate that names
   * a dream store (the first candidate when none does), the first non-empty
   * dream text onwards, or that candidate's own when none is non-empty.
   */
  function DreamRawFrom(group: seq<Candidate>): string
    requires group != []
  {
    var tail := group[FirstOrHead(group, HasDream)..];
    tail[FirstOrHead(tail, HasDreamRaw)].dreamJobRaw
  }

  /** The current-job text of the merged entry, chosen as `DreamRawFrom` chooses the dream text. */
  function CurrentRawFrom(group: seq<Candidate>): Option<string>
    requires group != []
  {
    var tail := group[FirstOrHead(group, HasCurrentStore)..];
    tail[FirstOrHead(tail, HasCurrentRaw)].currentJobRaw
  }

  /**
   * Extending a group by one: in a suffix of it, the first candidate
   * satisfying `p` (the suffix's head when none does) stays, unless the old
   * one does not satisfy `p` and the new candidate does.
   */
  lemma TailSnoc(group: seq<Candidate>, s: nat, p: Candidate -> bool)
    requires s < |group| - 1
    ensures var n := |group| - 1; var before := group[..n][s..]; var after := group[s..];
            var c := before[FirstOrHead(before, p)];
            after[FirstOrHead(after, p)] == if !p(c) && p(group[n]) then group[n] else c
  {
    var n := |group| - 1;
    var before, after := group[..n][s..], group[s..];
    assert after[..n - s] == before;
    assert after[..n - s + 1] == after;
    FindIndexSnoc(after, p, n - s);
    assert before[0] == after[0];
    var r := FindIndex(before, p);
    if r >= 0 {
      assert before[r] == after[r];
    }
  }

  /** A group whose first dream store comes with its last candidate takes that candidate's dream text. */
  lemma DreamRawMoved(group: seq<Candidate>)
    requires |group| > 1 && FindIndex(group[..|group| - 1], HasDream) < 0 && HasDream(group[|group| - 1])
    ensures DreamRawFrom(group) == group[|group| - 1].dreamJobRaw
  {
    var n := |group| - 1;
    FindIndexSnoc(group, HasDream, n);
    assert group[..n + 1] == group;
    assert group[n..] == [group[n]];
  }

  /** Otherwise the last candidate only fills in an empty dream text. */
  lemma DreamRawFilled(group: seq<Candidate>)
    requires |group| > 1 && !(FindIndex(group[..|group| - 1], HasDream) < 0 && HasDream(group[|group| - 1]))
    ensures var n := |group| - 1; var x := DreamRawFrom(group[..n]);
            DreamRawFrom(group) == if x == [] && HasDreamRaw(group[n]) then group[n].dreamJobRaw else x
  {
    var n := |group| - 1;
    var prefix := group[..n];
    FindIndexSnoc(group, HasDream, n);
    assert group[..n + 1] == group;
    var s := FirstOrHead(prefix, HasDream);
    assert s == FirstOrHead(group, HasDream);
    TailSnoc(group, s, HasDreamRaw);
  }

  /** The merged prefix has a dream store exactly when some candidate of the prefix has. */
  lemma FoldHasDream(group: seq<Candidate>, merge: Merger)
    requires group != [] && FillsDream(merge)
    ensures HasDream(FoldMerge(group, merge)) <==> FindIndex(group, HasDream) >= 0
  {
    FoldDream(group, merge);
  }

  /**
   * The dream text of a merged group follows the dream store, and is filled
   * in from later candidates while it is empty.
   */
  lemma {:induction false} FoldDreamRaw(group: seq<Candidate>, merge: Merger)
    requires group != [] && FillsDream(merge) && FillsDreamRaw(merge)
    ensures FoldMerge(group, merge).dreamJobRaw == DreamRawFrom(group)
    decreases |group|
  {
    if |group| > 1 {
      var n := |group| - 1;
      FoldDreamRaw(group[..n], merge);
      FoldHasDream(group[..n], merge);
      if FindIndex(group[..n], HasDream) < 0 && HasDream(group[n]) {
        DreamRawMoved(group);
      } else {
        DreamRawFilled(group);
      }
    }
  }

  /** A group whose first current store comes with its last candidate takes that candidate's current-job text. */
  lemma CurrentRawMoved(group: seq<Candidate>)
    requires |group| > 1 && FindIndex(group[..|group| - 1], HasCurrentStore) < 0 && HasCurrentStore(group[|group| - 1])
    ensures CurrentRawFrom(group) == group[|group| - 1].currentJobRaw
  {
    var n := |group| - 1;
    FindIndexSnoc(group, HasCurrentStore, n);
    assert group[..n + 1] == group;
    assert group[n..] == [group[n]];
  }

  /** Otherwise the last candidate only fills in a missing current-job text. */
  lemma CurrentRawFilled(group: seq<Candidate>)
    requires |group| > 1 && !(FindIndex(group[..|group| - 1], HasCurrentStore) < 0 && HasCurrentStore(group[|group| - 1]))
    ensures var n := |group| - 1; var x := CurrentRawFrom(group[..n]);
            CurrentRawFrom(group) == if !Truthy(x) && HasCurrentRaw(group[n]) then group[n].currentJobRaw else x
  {
    var n := |group| - 1;
    var prefix := group[..n];
    FindIndexSnoc(group, HasCurrentStore, n);
    assert group[..n + 1] == group;
    var s := FirstOrHead(prefix, HasCurrentStore);
    assert s == FirstOrHead(group, HasCurrentStore);
    TailSnoc(group, s, HasCurrentRaw);
  }

  /** The merged prefix has a current store exactly when some candidate of the prefix has. */
  lemma FoldHasCurrent(group: seq<Candidate>, merge: Merger)
    requires group != [] && FillsCurrent(merge)
    ensures HasCurrentStore(FoldMerge(group, merge)) <==> FindIndex(group, HasCurrentStore) >= 0
  {
    FoldCurrent(group, merge);
  }

  /**
   * The current-job text of a merged group follows the current store, and is
   * filled in from later candidates while it is missing.
   */
  lemma {:induction false} FoldCurrentRaw(group: seq<Candidate>, merge: Merger)
    requires group != [] && FillsCurrent(merge) && FillsCurrentRaw(merge)
    ensures FoldMerge(group, merge).currentJobRaw == CurrentRawFrom(group)
    decreases |group|
  {
    if |group| > 1 {
      var n := |group| - 1;
      FoldCurrentRaw(group[..n], merge);
      FoldHasCurrent(group[..n], merge);
      if FindIndex(group[..n], HasCurrentStore) < 0 && HasCurrentStore(group[n]) {
        CurrentRawMoved(group);
      } else {
        CurrentRawFilled(group);
      }
    }
  }

  /** Position `m` holds a shortest issue list of `group`, and no earlier position one as short. */
  predicate FirstLeast(group: seq<Candidate>, m: nat)
  {
    m < |group|
    && (forall j :: 0 <= j < |group| ==> |group[m].issues| <= |group[j].issues|)
    && (forall j :: 0 <= j < m ==> |group[m].issues| < |group[j].issues|)
  }

  /** Extending the group by one keeps the earlier least position or moves to the new one. */
  lemma FirstLeastSnoc(group: seq<Candidate>, m: nat)
    requires |group| > 1 && FirstLeast(group[..|group| - 1], m)
    ensures var n := |group| - 1; FirstLeast(group, if |group[n].issues| < |group[m].issues| then n else m)
  {
    var n := |group| - 1;
    assert forall j :: 0 <= j < n ==> group[..n][j] == group[j];
  }

  /** The merged entry carries the issues of the first candidate with the fewest. */
  lemma {:induction false} FoldIssues(group: seq<Candidate>, merge: Merger) returns (m: nat)
    requires group != [] && ShorterIssues(merge)
    ensures FirstLeast(group, m) && FoldMerge(group, merge).issues == group[m].issues
    decreases |group|
  {
    if |group| == 1 {
      m := 0;
    } else {
      var n := |group| - 1;
      var m' := FoldIssues(group[..n], merge);
      FirstLeastSnoc(group, m');
      assert group[..n][m'] == group[m'];
      m := if |group[n].issues| < |group[m'].issues| then n else m';
    }
  }

  /** Merging candidates whose store references come from the catalogue keeps them so. */
  lemma FoldFromCatalogue(group: seq<Candidate>, merge: Merger, stores: seq<Store>)
    requires group != [] && FillsDream(merge) && FillsCurrent(merge)
    requires forall i :: 0 <= i < |group| ==> LegacyRow.CandidateFromCatalogue(group[i], stores)
    ensures LegacyRow.CandidateFromCatalogue(FoldMerge(group, merge), stores)
  {
    FoldDream(group, merge);
    FoldCurrent(group, merge);
    var d, c := FindIndex(group, HasDream), FindIndex(group, HasCurrentStore);
    assert LegacyRow.CandidateFromCatalogue(group[if d < 0 then 0 else d], stores);
    assert LegacyRow.CandidateFromCatalogue(group[if c < 0 then 0 else c], stores);
  }

  // ---------------------------------------------------------------------------
  // The map `byName`

  /** `byName`: its keys in first-insertion order, and the entry under each. */
  datatype ByName = ByName(keys: seq<string>, entries: map<string, Candidate>)

  /** The merge step of the loop, as a parameter of the reference. */
  type Merger = (Candidate, Candidate) -> Candidate

  /** One pass of the loop: a new key takes a copy of the candidate, a known one merges it. */
  function Absorb(g: ByName, c: Candidate, key: Candidate -> string, merge: Merger): ByName
  {
    var k := key(c);
    if k in g.entries then ByName(g.keys, g.entries[k := merge(g.entries[k], c)])
    else ByName(g.keys + [k], g.entries[k := c])
  }

  /** The map after the first `|cs|` passes, for any key function and merge step. */
  function ByNameOf(cs: seq<Candidate>, key: Candidate -> string, merge: Merger): ByName
  {
    if cs == [] then ByName([], map[])
    else
      var n := |cs| - 1;
      Absorb(ByNameOf(cs[..n], key, merge), cs[n], key, merge)
  }

  /** `Array.from(byName.values())` over the given keys. */
  function Values(keys: seq<string>, entries: map<string, Candidate>): seq<Candidate>
  {
    if keys == [] then []
    else
      var n := |keys| - 1;
      Values(keys[..n], entries) + (if keys[n] in entries then [entries[keys[n]]] else [])
  }

  /** `deduplicateCandidates`, as a function of the candidates. */
  function Deduplicate(cs: seq<Candidate>): seq<Candidate>
  {
    var g := ByNameOf(cs, NameKeyOf, MergeInto);
    Values(g.keys, g.entries)
  }

  /** Some candidate has key `k` exactly when its group is not empty. */
  lemma GroupNonEmpty(cs: seq<Candidate>, key: Candidate -> string, k: string)
    ensures GroupOf(cs, key, k) != [] <==> k in MapSeq(cs, key)
  {
    var p := c => key(c) == k;
    MapSeqMember(cs, key, k);
    if GroupOf(cs, key, k) != [] {
      FilterMembers(cs, p, GroupOf(cs, key, k)[0]);
    }
    if k in MapSeq(cs, key) {
      var x :| x in cs && key(x) == k;
      FilterMembers(cs, p, x);
    }
  }

  /** The keys are distinct, exactly the map's, and the input's keys in first-seen order. */
  lemma {:induction false} ByNameKeys(cs: seq<Candidate>, key: Candidate -> string, merge: Merger)
    ensures forall k :: k in ByNameOf(cs, key, merge).entries <==> k in ByNameOf(cs, key, merge).keys
    ensures Distinct(ByNameOf(cs, key, merge).keys)
    ensures ByNameOf(cs, key, merge).keys == Dedupe.FirstSeen(MapSeq(cs, key))
  {
    if cs != [] {
      var n := |cs| - 1;
      ByNameKeys(cs[..n], key, merge);
      MapSeqSnoc(cs, key, n);
      assert cs[..n + 1] == cs;
      var s := MapSeq(cs, key);
      assert s[..n] == MapSeq(cs[..n], key);
    }
  }

  /** The last candidate's group is the earlier group, grown by it when it has the key. */
  lemma GroupSnoc(cs: seq<Candidate>, key: Candidate -> string, k: string)
    requires cs != []
    ensures GroupOf(cs, key, k) == GroupOf(cs[..|cs| - 1], key, k) + (if key(cs[|cs| - 1]) == k then [cs[|cs| - 1]] else [])
  {
    var n := |cs| - 1;
    FilterSnoc(cs, c => key(c) == k, n);
    assert cs[..n + 1] == cs;
  }

  /** A key seen for the first time in the last candidate has that candidate as its whole group. */
  lemma GroupFresh(cs: seq<Candidate>, key: Candidate -> string, merge: Merger, k: string)
    requires cs != [] && key(cs[|cs| - 1]) == k && k !in ByNameOf(cs[..|cs| - 1], key, merge).entries
    ensures GroupOf(cs, key, k) == [cs[|cs| - 1]]
  {
    var n := |cs| - 1;
    ByNameKeys(cs[..n], key, merge);
    Dedupe.FirstSeenMembers(MapSeq(cs[..n], key), k);
    GroupNonEmpty(cs[..n], key, k);
    GroupSnoc(cs, key, k);
  }

  /** The entry under each key is its group merged from left to right. */
  lemma {:induction false} ByNameEntries(cs: seq<Candidate>, key: Candidate -> string, merge: Merger, k: string)
    requires k in ByNameOf(cs, key, merge).entries
    ensures GroupOf(cs, key, k) != [] && ByNameOf(cs, key, merge).entries[k] == FoldMerge(GroupOf(cs, key, k), merge)
  {
    var n := |cs| - 1;
    var prev, c := ByNameOf(cs[..n], key, merge), cs[n];
    GroupSnoc(cs, key, k);
    if key(c) != k {
      assert ByNameOf(cs, key, merge).entries[k] == prev.entries[k];
      ByNameEntries(cs[..n], key, merge, k);
      assert GroupOf(cs, key, k) == GroupOf(cs[..n], key, k);
    } else if k in prev.entries {
      ByNameEntries(cs[..n], key, merge, k);
      FoldSnoc(GroupOf(cs[..n], key, k), merge, c);
    } else {
      GroupFresh(cs, key, merge, k);
    }
  }

  /** Over keys that are all present, the values are the entries in key order. */
  lemma {:induction false} ValuesAt(keys: seq<string>, entries: map<string, Candidate>)
    requires forall k :: k in keys ==> k in entries
    ensures |Values(keys, entries)| == |keys|
    ensures forall j :: 0 <= j < |keys| ==> Values(keys, entries)[j] == entries[keys[j]]
  {
    if keys != [] {
      var n := |keys| - 1;
      assert forall j :: 0 <= j < n ==> keys[..n][j] == keys[j];
      ValuesAt(keys[..n], entries);
    }
  }

  /** The no-space name keys of the input, in first-seen order. */
  function NameKeys(cs: seq<Candidate>): seq<string>
  {
    Dedupe.FirstSeen(MapSeq(cs, NameKeyOf))
  }

  /**
   * `deduplicateCandidates`: one entry per distinct key, in first-seen
   * order, each the merge of the candidates with that key.
   */
  lemma DeduplicateOrder(cs: seq<Candidate>)
    ensures |Deduplicate(cs)| == |NameKeys(cs)|
    ensures forall j :: 0 <= j < |Deduplicate(cs)| ==>
      GroupOf(cs, NameKeyOf, NameKeys(cs)[j]) != [] && Deduplicate(cs)[j] == FoldMerge(GroupOf(cs, NameKeyOf, NameKeys(cs)[j]), MergeInto)
  {
    var g := ByNameOf(cs, NameKeyOf, MergeInto);
    ByNameKeys(cs, NameKeyOf, MergeInto);
    ValuesAt(g.keys, g.entries);
    forall j | 0 <= j < |g.keys|
      ensures GroupOf(cs, NameKeyOf, g.keys[j]) != [] && Deduplicate(cs)[j] == FoldMerge(GroupOf(cs, NameKeyOf, g.keys[j]), MergeInto)
    {
      DeduplicateAt(cs, j);
    }
  }

  /** The entry at position `j` is the group of the `j`th key, merged. */
  lemma DeduplicateAt(cs: seq<Candidate>, j: nat)
    requires j < |ByNameOf(cs, NameKeyOf, MergeInto).keys|
    ensures var k := ByNameOf(cs, NameKeyOf, MergeInto).keys[j];
            j < |Deduplicate(cs)| && GroupOf(cs, NameKeyOf, k) != [] && Deduplicate(cs)[j] == FoldMerge(GroupOf(cs, NameKeyOf, k), MergeInto)
  {
    var g := ByNameOf(cs, NameKeyOf, MergeInto);
    ByNameKeys(cs, NameKeyOf, MergeInto);
    ValuesAt(g.keys, g.entries);
    ByNameEntries(cs, NameKeyOf, MergeInto, g.keys[j]);
  }

  /** An entry has the key of its group. */
  lemma GroupKey(cs: seq<Candidate>, k: string)
    requires GroupOf(cs, NameKeyOf, k) != []
    ensures NameKeyOf(FoldMerge(GroupOf(cs, NameKeyOf, k), MergeInto)) == k
  {
    var group := GroupOf(cs, NameKeyOf, k);
    MergeIntoProperties();
    FoldKeeps(group, MergeInto);
    assert NameKeyOf(group[0]) == k;
  }

  /** The entries' keys are the input's distinct keys in first-seen order. */
  lemma DeduplicateKeyOrder(cs: seq<Candidate>)
    ensures MapSeq(Deduplicate(cs), NameKeyOf) == NameKeys(cs)
  {
    var r, keys := Deduplicate(cs), NameKeys(cs);
    ByNameKeys(cs, NameKeyOf, MergeInto);
    DeduplicateOrder(cs);
    forall j | 0 <= j < |r| ensures NameKeyOf(r[j]) == keys[j] {
      GroupKey(cs, keys[j]);
    }
  }

  /** No two entries share a key, and the entries' keys are exactly the input's. */
  lemma DeduplicateKeys(cs: seq<Candidate>)
    ensures Distinct(MapSeq(Deduplicate(cs), NameKeyOf))
    ensures forall k :: k in MapSeq(Deduplicate(cs), NameKeyOf) <==> k in MapSeq(cs, NameKeyOf)
  {
    DeduplicateKeyOrder(cs);
    ByNameKeys(cs, NameKeyOf, MergeInto);
    forall k ensures k in NameKeys(cs) <==> k in MapSeq(cs, NameKeyOf) {
      Dedupe.FirstSeenMembers(MapSeq(cs, NameKeyOf), k);
    }
  }

  /** The first index of `group` satisfying `p`, or 0 when none does. */
  function FirstOrHead(group: seq<Candidate>, p: Candidate -> bool): (i: nat)
    requires group != []
    ensures i < |group|
  {
    var i := FindIndex(group, p);
    if i < 0 then 0 else i
  }

  /**
   * `r` is what merging `group` yields: the identity of its first candidate,
   * selected when any candidate is, the dream and current stores of the
   * first candidates that name one, and the first shortest issue list.
   */
  ghost predicate MergedFrom(r: Candidate, group: seq<Candidate>)
  {
    group != []
    && r.name == group[0].name && r.nameRaw == group[0].nameRaw && r.sourceFileName == group[0].sourceFileName
    && (r.selected <==> exists i :: 0 <= i < |group| && group[i].selected)
    && DreamOf(r) == DreamOf(group[FirstOrHead(group, HasDream)])
    && CurrentOf(r) == CurrentOf(group[FirstOrHead(group, HasCurrentStore)])
    && r.dreamJobRaw == DreamRawFrom(group) && r.currentJobRaw == CurrentRawFrom(group)
    && exists m: nat :: FirstLeast(group, m) && r.issues == group[m].issues
  }

  /** A fold with a merge step of the five properties yields a record merged from its group. */
  lemma FoldMergedFrom(group: seq<Candidate>, merge: Merger)
    requires group != [] && KeepsIdentity(merge) && OrsSelected(merge) && FillsDream(merge)
    requires FillsCurrent(merge) && ShorterIssues(merge) && FillsDreamRaw(merge) && FillsCurrentRaw(merge)
    ensures MergedFrom(FoldMerge(group, merge), group)
  {
    FoldDreamRaw(group, merge);
    FoldCurrentRaw(group, merge);
    FoldKeeps(group, merge);
    FoldSelected(group, merge);
    FoldDream(group, merge);
    FoldCurrent(group, merge);
    var m := FoldIssues(group, merge);
  }

  /** Every entry of the result is the merge of the candidates with its key. */
  lemma DeduplicateEntry(cs: seq<Candidate>, j: nat)
    requires j < |Deduplicate(cs)|
    ensures j < |NameKeys(cs)| && MergedFrom(Deduplicate(cs)[j], GroupOf(cs, NameKeyOf, NameKeys(cs)[j]))
  {
    DeduplicateOrder(cs);
    MergeIntoProperties();
    FoldMergedFrom(GroupOf(cs, NameKeyOf, NameKeys(cs)[j]), MergeInto);
  }

  /** `byName` after the first loop, step by step. */
  method GroupByName(cs: seq<Candidate>) returns (keys: seq<string>, byName: map<string, Candidate>)
    ensures ByName(keys, byName) == ByNameOf(cs, NameKeyOf, MergeInto)
  {
    byName, keys := map[], [];
    for i := 0 to |cs|
      invariant ByName(keys, byName) == ByNameOf(cs[..i], NameKeyOf, MergeInto)
    {
      assert cs[..i + 1][..i] == cs[..i];
      var c := cs[i];
      var key := NameKeyOf(c);
      if key !in byName {
        byName := byName[key := c];
        keys := keys + [key];
        continue;
      }
      byName := byName[key := MergeInto(byName[key], c)];
    }
    assert cs[..|cs|] == cs;
  }

  /** `Array.from(byName.values())`, step by step. */
  method ValuesInOrder(keys: seq<string>, byName: map<string, Candidate>) returns (r: seq<Candidate>)
    ensures r == Values(keys, byName)
  {
    r := [];
    for j := 0 to |keys|
      invariant r == Values(keys[..j], byName)
    {
      assert keys[..j + 1][..j] == keys[..j];
      if keys[j] in byName {
        r := r + [byName[keys[j]]];
      }
    }
    assert keys[..|keys|] == keys;
  }

  /** `deduplicateCandidates`: the map pass followed by its values in insertion order. */
  method DeduplicateCandidates(cs: seq<Candidate>) returns (r: seq<Candidate>)
    ensures r == Deduplicate(cs)
  {
    var keys, byName := GroupByName(cs);
    r := ValuesInOrder(keys, byName);
  }
}
