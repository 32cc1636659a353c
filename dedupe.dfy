/**
 * The deduplicator: candidates are grouped by name and dream job; within a
 * group a candidate merges into the first entry whose current job does not
 * contradict its own, and is appended otherwise. Groups come out in the
 * order their keys were first seen.
 */
module Dedupe {
  import opened Wrappers
  import opened Seqs
  import opened Strings
  import opened Types
  import opened ImportTypes
  import opened TextUtils

  // ---------------------------------------------------------------------------
  // Keys

  /** `currentKeyFor`: the current store id, else the current text's match key; `''` for none or unemployed. */
  function CurrentKey(c: Candidate): string
  {
    if Truthy(c.currentJobStoreId) then c.currentJobStoreId.value
    else if Truthy(c.currentJobRaw) then
      if IsUnemployedText(c.currentJobRaw.value) then [] else NormalizeForMatch(c.currentJobRaw.value)
    else []
  }

  /** `dreamKeyFor`: the match key of `matchedStoreName ?? dreamJobRaw`. */
  function DreamKey(c: Candidate): string
  {
    NormalizeForMatch(if c.matchedStoreName.Some? then c.matchedStoreName.value else c.dreamJobRaw)
  }

  /** `baseKeyFor`: `${normalizeForMatch(name)}|${dreamKeyFor(c)}` */
  function BaseKey(c: Candidate): string
  {
    NormalizeForMatch(c.name) + "|" + DreamKey(c)
  }

  /** The two keys a `dedupe` works with: the current-job key and the group key. */
  datatype Keys = Keys(current: Candidate -> string, base: Candidate -> string)

  /** The keys of this module's `dedupe`. */
  const Modular: Keys := Keys(CurrentKey, BaseKey)

  /**
   * A group key reads only fields that a merge takes whole from one of the
   * two records (see `MergeOrigin`).
   */
  ghost predicate KeysValid(ks: Keys)
  {
    forall x, y :: OriginOf(x) == OriginOf(y) ==> ks.base(x) == ks.base(y)
  }

  lemma ModularValid()
    ensures KeysValid(Modular)
  {
  }

  /** Two current keys are compatible when they agree or either is empty. */
  predicate Compatible(ks: Keys, e: Candidate, c: Candidate)
  {
    var ek, ck := ks.current(e), ks.current(c);
    ek == ck || ek == [] || ck == []
  }

  lemma NoBarInKey(s: string)
    requires Canonical(s)
    ensures '|' !in s
  {
    forall i | 0 <= i < |s| ensures s[i] != '|' {
      assert IsLowerAlnum(s[i]) || s[i] == ' ';
    }
  }

  /** Splitting at the first `'|'` of `a + "|" + b` when `a` has none. */
  lemma {:induction false} SplitAtBar(a: string, b: string, a': string, b': string)
    requires '|' !in a && '|' !in a' && a + "|" + b == a' + "|" + b'
    ensures a == a' && b == b'
  {
    var x, y := a + "|" + b, a' + "|" + b';
    assert x[0] == '|' <==> a == [] by { if a != [] { assert x[0] == a[0]; } }
    assert y[0] == '|' <==> a' == [] by { if a' != [] { assert y[0] == a'[0]; } }
    if a == [] {
      assert x[1..] == b && y[1..] == b';
    } else {
      assert x[1..] == a[1..] + "|" + b;
      assert y[1..] == a'[1..] + "|" + b';
      SplitAtBar(a[1..], b, a'[1..], b');
      assert a == [a[0]] + a[1..];
      assert a' == [a'[0]] + a'[1..];
    }
  }

  /** The base key is unambiguous: two candidates share it exactly when their name keys and dream keys agree. */
  lemma BaseKeyIff(x: Candidate, y: Candidate)
    ensures BaseKey(x) == BaseKey(y) <==> NormalizeForMatch(x.name) == NormalizeForMatch(y.name) && DreamKey(x) == DreamKey(y)
  {
    if BaseKey(x) == BaseKey(y) {
      NoBarInKey(NormalizeForMatch(x.name));
      NoBarInKey(NormalizeForMatch(y.name));
      SplitAtBar(NormalizeForMatch(x.name), DreamKey(x), NormalizeForMatch(y.name), DreamKey(y));
    }
  }

  // ---------------------------------------------------------------------------
  // Ranking

  function IssueCount(c: Candidate): nat { |c.issues| }

  predicate HasCurrent(c: Candidate) { Truthy(c.currentJobStoreId) || Truthy(c.currentJobRaw) }

  /** `isBetterCandidate`: a dream id, then fewer issues, then a higher confidence, then current-job information. */
  predicate IsBetter(a: Candidate, b: Candidate)
  {
    if Truthy(a.dreamJobStoreId) != Truthy(b.dreamJobStoreId) then Truthy(a.dreamJobStoreId)
    else if IssueCount(a) != IssueCount(b) then IssueCount(a) < IssueCount(b)
    else if a.matchConfidence != b.matchConfidence then a.matchConfidence > b.matchConfidence
    else if HasCurrent(a) != HasCurrent(b) then HasCurrent(a)
    else false
  }

  /** The ranking is a strict order: irreflexive, asymmetric and transitive. */
  lemma IsBetterStrictOrder(a: Candidate, b: Candidate, c: Candidate)
    ensures !IsBetter(a, a)
    ensures IsBetter(a, b) ==> !IsBetter(b, a)
    ensures IsBetter(a, b) && IsBetter(b, c) ==> IsBetter(a, c)
  {
  }

  /** Neither is better exactly when the four criteria tie. */
  lemma IsBetterTie(a: Candidate, b: Candidate)
    ensures !IsBetter(a, b) && !IsBetter(b, a) <==>
              Truthy(a.dreamJobStoreId) == Truthy(b.dreamJobStoreId) && IssueCount(a) == IssueCount(b)
              && a.matchConfidence == b.matchConfidence && HasCurrent(a) == HasCurrent(b)
  {
  }

  // ---------------------------------------------------------------------------
  // Merging

  function FillText(mine: Option<string>, theirs: Option<string>): Option<string>
  {
    if !Truthy(mine) && Truthy(theirs) then theirs else mine
  }

  /**
   * `mergeCandidates` as it behaves: when `incoming` is better the result is
   * `incoming` itself; otherwise it is `keep`, selected if either was, with
   * its missing current-job fields and (when it has none) its issues taken
   * from `incoming`.
   */
  function Merge(keep: Candidate, incoming: Candidate): (r: Candidate)
    ensures IsBetter(incoming, keep) ==> r == incoming
    ensures !IsBetter(incoming, keep) ==>
              r.nameRaw == keep.nameRaw && r.name == keep.name && r.dreamJobRaw == keep.dreamJobRaw
              && r.dreamJobStoreId == keep.dreamJobStoreId && r.matchedStoreName == keep.matchedStoreName
              && r.matchConfidence == keep.matchConfidence && r.sourceFileName == keep.sourceFileName
              && r.selected == (keep.selected || incoming.selected)
              && (Truthy(keep.currentJobStoreId) ==> r.currentJobStoreId == keep.currentJobStoreId)
              && (Truthy(keep.currentJobRaw) ==> r.currentJobRaw == keep.currentJobRaw)
              && (keep.currentMatchConfidence.Some? ==> r.currentMatchConfidence == keep.currentMatchConfidence)
              && (!Truthy(keep.currentJobStoreId) ==>
                    r.currentJobStoreId == (if Truthy(incoming.currentJobStoreId) then incoming.currentJobStoreId else keep.currentJobStoreId))
              && (!Truthy(keep.currentJobRaw) ==>
                    r.currentJobRaw == (if Truthy(incoming.currentJobRaw) then incoming.currentJobRaw else keep.currentJobRaw))
              && (keep.currentMatchConfidence.None? ==> r.currentMatchConfidence == incoming.currentMatchConfidence)
              && (Truthy(keep.matchedCurrentStoreName) ==> r.matchedCurrentStoreName == keep.matchedCurrentStoreName)
              && (!Truthy(keep.matchedCurrentStoreName) ==>
                    r.matchedCurrentStoreName ==
                      (if Truthy(incoming.matchedCurrentStoreName) then incoming.matchedCurrentStoreName else keep.matchedCurrentStoreName))
              && (keep.issues != [] ==> r.issues == keep.issues)
              && (keep.issues == [] ==> r.issues == incoming.issues)
  {
    if IsBetter(incoming, keep) then incoming
    else
      keep.(selected := keep.selected || incoming.selected,
            currentJobStoreId := FillText(keep.currentJobStoreId, incoming.currentJobStoreId),
            currentJobRaw := FillText(keep.currentJobRaw, incoming.currentJobRaw),
            currentMatchConfidence := if keep.currentMatchConfidence.None? then incoming.currentMatchConfidence else keep.currentMatchConfidence,
            matchedCurrentStoreName := FillText(keep.matchedCurrentStoreName, incoming.matchedCurrentStoreName),
            issues := if keep.issues == [] && incoming.issues != [] then incoming.issues else keep.issues)
  }

  /**
   * `mergeCandidates` as the source writes it. `base === incoming` compares
   * a fresh copy with `incoming`, which never holds, so `other` is always
   * `incoming`, also when `base` was copied from it.
   */
  method MergeCandidates(keep: Candidate, incoming: Candidate) returns (base: Candidate)
    ensures base == Merge(keep, incoming)
  {
    base := if IsBetter(incoming, keep) then incoming else keep;
    var other := incoming;
    base := base.(selected := base.selected || other.selected);
    if !Truthy(base.currentJobStoreId) && Truthy(other.currentJobStoreId) {
      base := base.(currentJobStoreId := other.currentJobStoreId);
    }
    if !Truthy(base.currentJobRaw) && Truthy(other.currentJobRaw) {
      base := base.(currentJobRaw := other.currentJobRaw);
    }
    if base.currentMatchConfidence.None? && other.currentMatchConfidence.Some? {
      base := base.(currentMatchConfidence := other.currentMatchConfidence);
    }
    if !Truthy(base.matchedCurrentStoreName) && Truthy(other.matchedCurrentStoreName) {
      base := base.(matchedCurrentStoreName := other.matchedCurrentStoreName);
    }
    if |base.issues| == 0 && |other.issues| > 0 {
      base := base.(issues := other.issues);
    }
  }

  /** A merge keeps the group: the merged record has the base key of both. */
  lemma MergeBaseKey(ks: Keys, keep: Candidate, incoming: Candidate)
    requires KeysValid(ks) && ks.base(keep) == ks.base(incoming)
    ensures ks.base(Merge(keep, incoming)) == ks.base(keep)
  {
    MergeOrigin(keep, incoming);
  }

  /** When `keep` stays, its merge with a clean or equal `incoming` is at least as good a dream match. */
  lemma MergeKeepsDream(keep: Candidate, incoming: Candidate)
    ensures Truthy(Merge(keep, incoming).dreamJobStoreId) == (Truthy(keep.dreamJobStoreId) || Truthy(incoming.dreamJobStoreId))
  {
  }

  // ---------------------------------------------------------------------------
  // One group

  /** The entries that a candidate can merge into: those with a compatible current key. */
  function FirstCompatible(ks: Keys, list: seq<Candidate>, c: Candidate): (i: int)
    ensures -1 <= i < |list|
    ensures i >= 0 ==> Compatible(ks, list[i], c)
    ensures forall j :: 0 <= j < |list| && (i == -1 || j < i) ==> !Compatible(ks, list[j], c)
  {
    FindIndex(list, e => Compatible(ks, e, c))
  }

  /** The inner loop: merge into the first compatible entry, or append. */
  function Insert(ks: Keys, list: seq<Candidate>, c: Candidate): seq<Candidate>
  {
    var i := FirstCompatible(ks, list, c);
    if i == -1 then list + [c] else list[i := Merge(list[i], c)]
  }

  /**
   * A candidate merges into the first compatible entry and changes nothing
   * else; it is appended exactly when no entry is compatible.
   */
  lemma InsertSpec(ks: Keys, list: seq<Candidate>, c: Candidate)
    ensures (forall j :: 0 <= j < |list| ==> !Compatible(ks, list[j], c)) <==> Insert(ks, list, c) == list + [c]
    ensures forall i :: 0 <= i < |list| && Compatible(ks, list[i], c) && (forall j :: 0 <= j < i ==> !Compatible(ks, list[j], c)) ==>
              Insert(ks, list, c) == list[i := Merge(list[i], c)]
  {
  }

  /** A candidate grows the list by at most one. */
  lemma InsertLength(ks: Keys, list: seq<Candidate>, c: Candidate)
    ensures |list| <= |Insert(ks, list, c)| <= |list| + 1
  {
  }

  /**
   * A property of every entry and of `c` that survives merging `c` into an
   * entry holds of every entry after the insert.
   */
  lemma InsertAll(ks: Keys, list: seq<Candidate>, c: Candidate, P: Candidate -> bool)
    requires P(c) && forall j :: 0 <= j < |list| ==> P(list[j]) && P(Merge(list[j], c))
    ensures forall j :: 0 <= j < |Insert(ks, list, c)| ==> P(Insert(ks, list, c)[j])
  {
    var i := FirstCompatible(ks, list, c);
    if i != -1 {
      assert P(Merge(list[i], c));
    }
  }

  /** Merging and pushing keep a list within one group. */
  lemma InsertKeyed(ks: Keys, list: seq<Candidate>, c: Candidate)
    requires KeysValid(ks) && forall j :: 0 <= j < |list| ==> ks.base(list[j]) == ks.base(c)
    ensures forall j :: 0 <= j < |Insert(ks, list, c)| ==> ks.base(Insert(ks, list, c)[j]) == ks.base(c)
  {
    var key := ks.base(c);
    forall j | 0 <= j < |list| ensures ks.base(Merge(list[j], c)) == key {
      MergeBaseKey(ks, list[j], c);
    }
    InsertAll(ks, list, c, x => ks.base(x) == key);
  }

  /** The inner loop of `dedupe`: merge into the first compatible entry, else push. */
  method InsertInto(ks: Keys, list0: seq<Candidate>, c: Candidate) returns (list: seq<Candidate>)
    ensures list == Insert(ks, list0, c)
  {
    list := list0;
    var cCurrentKey := ks.current(c);
    var merged := false;
    var i := 0;
    while i < |list|
      invariant 0 <= i <= |list| && !merged && list == list0
      invariant forall j :: 0 <= j < i ==> !Compatible(ks, list0[j], c)
    {
      var existing := list[i];
      var eCurrentKey := ks.current(existing);
      var compatible := eCurrentKey == cCurrentKey || eCurrentKey == [] || cCurrentKey == [];
      if compatible {
        InsertSpec(ks, list0, c);
        var m := MergeCandidates(existing, c);
        list := list[i := m];
        merged := true;
        break;
      }
      i := i + 1;
    }
    if !merged {
      InsertSpec(ks, list0, c);
      list := list + [c];
    }
  }

  // ---------------------------------------------------------------------------
  // The grouped map

  /** `grouped`: its keys in first-insertion order, and the list under each. */
  datatype Grouped = Grouped(keys: seq<string>, groups: map<string, seq<Candidate>>)

  /** `grouped.get(key) ?? []` */
  function ListOf(g: Grouped, key: string): seq<Candidate>
  {
    if key in g.groups then g.groups[key] else []
  }

  /** `grouped.set(key, list)`: a new key joins the end of the insertion order. */
  function Put(g: Grouped, key: string, list: seq<Candidate>): Grouped
  {
    Grouped(if key in g.groups then g.keys else g.keys + [key], g.groups[key := list])
  }

  /** One pass of the outer loop. */
  function Add(ks: Keys, g: Grouped, c: Candidate): Grouped
  {
    Put(g, ks.base(c), Insert(ks, ListOf(g, ks.base(c)), c))
  }

  /** The map after the first `|cs|` passes. */
  function Group(ks: Keys, cs: seq<Candidate>): Grouped
  {
    if cs == [] then Grouped([], map[])
    else
      var n := |cs| - 1;
      Add(ks, Group(ks, cs[..n]), cs[n])
  }

  /** The keys are distinct and exactly those of the map, and no list is empty. */
  ghost predicate Shaped(g: Grouped)
  {
    Distinct(g.keys) && (forall k :: k in g.groups <==> k in g.keys)
    && forall k :: k in g.groups ==> g.groups[k] != []
  }

  /** Every list holds candidates of its own key. */
  ghost predicate Keyed(ks: Keys, g: Grouped)
  {
    forall k :: k in g.groups ==> forall j :: 0 <= j < |g.groups[k]| ==> ks.base(g.groups[k][j]) == k
  }

  lemma PutShaped(g: Grouped, key: string, list: seq<Candidate>)
    requires Shaped(g) && list != []
    ensures Shaped(Put(g, key, list))
  {
    if key !in g.groups {
      var r := Put(g, key, list);
      forall i, j | 0 <= i < j < |r.keys| ensures r.keys[i] != r.keys[j] {
        if j == |g.keys| { assert r.keys[i] in g.keys; }
      }
    }
  }

  function Size(g: Grouped, n: nat): nat
    requires n <= |g.keys| && forall k :: k in g.keys ==> k in g.groups
  {
    if n == 0 then 0 else Size(g, n - 1) + |g.groups[g.keys[n - 1]]|
  }

  /** Replacing one list changes the size of the first `n` keys by the difference, when the key is among them. */
  lemma {:induction false} PutSize(g: Grouped, key: string, list: seq<Candidate>, n: nat)
    requires Shaped(g) && n <= |g.keys|
    ensures key !in g.keys[..n] ==> Size(Put(g, key, list), n) == Size(g, n)
    ensures key in g.keys[..n] ==> Size(Put(g, key, list), n) == Size(g, n) - |ListOf(g, key)| + |list|
  {
    if n > 0 {
      var r := Put(g, key, list);
      PutSize(g, key, list, n - 1);
      assert r.keys[n - 1] == g.keys[n - 1];
      assert g.keys[..n] == g.keys[..n - 1] + [g.keys[n - 1]];
      if key == g.keys[n - 1] {
        assert forall m :: 0 <= m < n - 1 ==> g.keys[m] != key;
        assert key !in g.keys[..n - 1];
      }
    }
  }

  /** The total size after `set`: the old total, less the old list, plus the new one. */
  lemma PutTotal(g: Grouped, key: string, list: seq<Candidate>)
    requires Shaped(g) && list != []
    ensures Shaped(Put(g, key, list))
    ensures Size(Put(g, key, list), |Put(g, key, list).keys|) == Size(g, |g.keys|) - |ListOf(g, key)| + |list|
  {
    PutShaped(g, key, list);
    PutSize(g, key, list, |g.keys|);
    var r := Put(g, key, list);
    assert g.keys[..|g.keys|] == g.keys;
    if key in g.groups {
      assert r.keys == g.keys;
    } else {
      assert r.keys == g.keys + [key];
      assert r.keys[|g.keys|] == key;
      assert Size(r, |r.keys|) == Size(r, |g.keys|) + |list|;
    }
  }

  lemma PutKeyed(ks: Keys, g: Grouped, key: string, list: seq<Candidate>)
    requires Keyed(ks, g) && forall j :: 0 <= j < |list| ==> ks.base(list[j]) == key
    ensures Keyed(ks, Put(g, key, list))
  {
  }

  /** A list of a keyed map holds candidates of its key. */
  lemma KeyedMember(ks: Keys, g: Grouped, k: string, x: Candidate)
    requires Keyed(ks, g) && x in ListOf(g, k)
    ensures ks.base(x) == k
  {
  }

  lemma AddShaped(ks: Keys, g: Grouped, c: Candidate)
    requires Shaped(g)
    ensures Shaped(Add(ks, g, c))
    ensures Size(Add(ks, g, c), |Add(ks, g, c).keys|) <= Size(g, |g.keys|) + 1
  {
    var key := ks.base(c);
    var list := ListOf(g, key);
    var ins := Insert(ks, list, c);
    assert Add(ks, g, c) == Put(g, key, ins);
    InsertLength(ks, list, c);
    PutTotal(g, key, ins);
  }

  lemma AddKeyed(ks: Keys, g: Grouped, c: Candidate)
    requires KeysValid(ks) && Keyed(ks, g)
    ensures Keyed(ks, Add(ks, g, c))
  {
    var key := ks.base(c);
    var list := ListOf(g, key);
    assert forall j :: 0 <= j < |list| ==> ks.base(list[j]) == key;
    InsertKeyed(ks, list, c);
    PutKeyed(ks, g, key, Insert(ks, list, c));
  }

  /** The grouping is well formed and holds no more candidates than it was given. */
  lemma {:induction false} GroupShaped(ks: Keys, cs: seq<Candidate>)
    ensures Shaped(Group(ks, cs))
    ensures Size(Group(ks, cs), |Group(ks, cs).keys|) <= |cs|
  {
    if cs != [] {
      var n := |cs| - 1;
      GroupShaped(ks, cs[..n]);
      AddShaped(ks, Group(ks, cs[..n]), cs[n]);
    }
  }

  /** Every list of the grouping holds candidates of its own key. */
  lemma {:induction false} GroupKeyed(ks: Keys, cs: seq<Candidate>)
    requires KeysValid(ks)
    ensures Keyed(ks, Group(ks, cs))
  {
    if cs != [] {
      var n := |cs| - 1;
      GroupKeyed(ks, cs[..n]);
      AddKeyed(ks, Group(ks, cs[..n]), cs[n]);
    }
  }

  /** Both facts about a grouping, for keys that merges preserve. */
  lemma GroupOk(ks: Keys, cs: seq<Candidate>)
    requires KeysValid(ks)
    ensures Shaped(Group(ks, cs)) && Keyed(ks, Group(ks, cs))
    ensures Size(Group(ks, cs), |Group(ks, cs).keys|) <= |cs|
  {
    GroupShaped(ks, cs);
    GroupKeyed(ks, cs);
  }

  /** The distinct elements of `s` in the order they first occur. */
  function FirstSeen(s: seq<string>): seq<string>
  {
    if s == [] then []
    else
      var n := |s| - 1;
      var t := FirstSeen(s[..n]);
      if s[n] in t then t else t + [s[n]]
  }

  lemma {:induction false} FirstSeenMembers(s: seq<string>, k: string)
    ensures k in FirstSeen(s) <==> k in s
  {
    if s != [] {
      var n := |s| - 1;
      FirstSeenMembers(s[..n], k);
      assert s == s[..n] + [s[n]];
    }
  }

  /** The keys of the grouping are the base keys of the input, each once, in first-seen order. */
  lemma {:induction false} GroupKeys(ks: Keys, cs: seq<Candidate>)
    ensures Group(ks, cs).keys == FirstSeen(MapSeq(cs, ks.base))
  {
    if cs != [] {
      var n := |cs| - 1;
      GroupKeys(ks, cs[..n]);
      GroupShaped(ks, cs[..n]);
      MapSeqSnoc(cs, ks.base, n);
      assert cs[..n + 1] == cs;
    }
  }

  /** `Array.from(grouped.values()).flat()` over the first `n` keys. */
  function Flatten(g: Grouped, n: nat): seq<Candidate>
    requires n <= |g.keys| && forall k :: k in g.keys ==> k in g.groups
  {
    if n == 0 then [] else Flatten(g, n - 1) + g.groups[g.keys[n - 1]]
  }

  lemma {:induction false} FlattenSize(g: Grouped, n: nat)
    requires n <= |g.keys| && forall k :: k in g.keys ==> k in g.groups
    ensures |Flatten(g, n)| == Size(g, n)
  {
    if n > 0 { FlattenSize(g, n - 1); }
  }

  /** Every flattened candidate comes from the list of one of the first `n` keys, and every such list is in it. */
  lemma {:induction false} FlattenMembers(g: Grouped, n: nat)
    requires n <= |g.keys| && forall k :: k in g.keys ==> k in g.groups
    ensures forall x :: x in Flatten(g, n) <==> exists m :: 0 <= m < n && x in g.groups[g.keys[m]]
  {
    if n > 0 {
      FlattenMembers(g, n - 1);
      forall x ensures x in Flatten(g, n) <==> exists m :: 0 <= m < n && x in g.groups[g.keys[m]] {
        if x in g.groups[g.keys[n - 1]] {
          assert 0 <= n - 1 < n && x in g.groups[g.keys[n - 1]];
        }
        if exists m :: 0 <= m < n && x in g.groups[g.keys[m]] {
          var m :| 0 <= m < n && x in g.groups[g.keys[m]];
          if m < n - 1 { assert x in Flatten(g, n - 1); }
        }
      }
    }
  }

  // ---------------------------------------------------------------------------
  // dedupe

  /** `dedupe` with the keys `ks`: the groups' lists, concatenated in the order their keys were first seen. */
  function DedupeWith(ks: Keys, cs: seq<Candidate>): seq<Candidate>
  {
    GroupShaped(ks, cs);
    var g := Group(ks, cs);
    Flatten(g, |g.keys|)
  }

  /** `dedupe` of this module. */
  function DedupeOf(cs: seq<Candidate>): seq<Candidate>
  {
    DedupeWith(Modular, cs)
  }

  /**
   * Two candidates of one group: when their current keys are compatible the
   * second merges into the first, and otherwise both are kept, in order.
   */
  lemma PairOfOneGroup(ks: Keys, x: Candidate, y: Candidate)
    requires ks.base(x) == ks.base(y)
    ensures Compatible(ks, x, y) ==> DedupeWith(ks, [x, y]) == [Merge(x, y)]
    ensures !Compatible(ks, x, y) ==> DedupeWith(ks, [x, y]) == [x, y]
  {
    var k := ks.base(x);
    assert [x, y][..1] == [x];
    assert [x][..0] == [];
    assert Insert(ks, [], x) == [x];
    assert Group(ks, [x]) == Add(ks, Grouped([], map[]), x);
    assert Group(ks, [x]) == Grouped([k], map[k := [x]]);
    assert FirstCompatible(ks, [x], y) == (if Compatible(ks, x, y) then 0 else -1);
    var g := Group(ks, [x, y]);
    assert g == Grouped([k], map[k := Insert(ks, [x], y)]);
    assert Flatten(g, 1) == Insert(ks, [x], y);
  }

  /** A resulting list holds candidates with one name key and one dream key. */
  lemma GroupedTogether(cs: seq<Candidate>, k: string, x: Candidate, y: Candidate)
    requires x in ListOf(Group(Modular, cs), k) && y in ListOf(Group(Modular, cs), k)
    ensures NormalizeForMatch(x.name) == NormalizeForMatch(y.name) && DreamKey(x) == DreamKey(y)
  {
    var g := Group(Modular, cs);
    ModularValid();
    GroupKeyed(Modular, cs);
    KeyedMember(Modular, g, k, x);
    KeyedMember(Modular, g, k, y);
    BaseKeyIff(x, y);
  }

  /** Candidates from two different lists differ in name key or dream key. */
  lemma GroupedApart(cs: seq<Candidate>, k: string, k': string, x: Candidate, y: Candidate)
    requires k != k' && x in ListOf(Group(Modular, cs), k) && y in ListOf(Group(Modular, cs), k')
    ensures NormalizeForMatch(x.name) != NormalizeForMatch(y.name) || DreamKey(x) != DreamKey(y)
  {
    var g := Group(Modular, cs);
    ModularValid();
    GroupKeyed(Modular, cs);
    KeyedMember(Modular, g, k, x);
    KeyedMember(Modular, g, k', y);
    BaseKeyIff(x, y);
  }

  lemma FlattenSound(ks: Keys, g: Grouped, x: Candidate)
    requires Shaped(g) && Keyed(ks, g) && x in Flatten(g, |g.keys|)
    ensures ks.base(x) in g.keys
  {
    FlattenMembers(g, |g.keys|);
    var m :| 0 <= m < |g.keys| && x in g.groups[g.keys[m]];
    KeyedMember(ks, g, g.keys[m], x);
  }

  lemma FlattenComplete(ks: Keys, g: Grouped, k: string) returns (x: Candidate)
    requires Shaped(g) && Keyed(ks, g) && k in g.keys
    ensures x in Flatten(g, |g.keys|) && ks.base(x) == k
  {
    FlattenMembers(g, |g.keys|);
    var m :| 0 <= m < |g.keys| && g.keys[m] == k;
    x := g.groups[k][0];
    KeyedMember(ks, g, k, x);
    assert x in g.groups[g.keys[m]];
  }

  /** A key has a candidate in the flattened map exactly when it is one of the map's keys. */
  lemma FlattenKey(ks: Keys, g: Grouped, k: string)
    requires Shaped(g) && Keyed(ks, g)
    ensures (exists x :: x in Flatten(g, |g.keys|) && ks.base(x) == k) <==> k in g.keys
  {
    if exists x :: x in Flatten(g, |g.keys|) && ks.base(x) == k {
      var x :| x in Flatten(g, |g.keys|) && ks.base(x) == k;
      FlattenSound(ks, g, x);
    }
    if k in g.keys {
      var x := FlattenComplete(ks, g, k);
    }
  }

  /** Deduplication never adds candidates and returns some exactly when it is given some. */
  lemma DedupeWithSize(ks: Keys, cs: seq<Candidate>)
    requires KeysValid(ks)
    ensures |DedupeWith(ks, cs)| <= |cs|
    ensures cs == [] <==> DedupeWith(ks, cs) == []
  {
    var g := Group(ks, cs);
    GroupOk(ks, cs);
    FlattenSize(g, |g.keys|);
    if cs != [] {
      GroupKeys(ks, cs);
      FirstSeenMembers(MapSeq(cs, ks.base), ks.base(cs[0]));
      assert MapSeq(cs, ks.base)[0] == ks.base(cs[0]);
      FlattenKey(ks, g, ks.base(cs[0]));
    }
  }


  /** Every group survives and none is invented: the result's group keys are exactly the input's. */
  lemma DedupeWithKeys(ks: Keys, cs: seq<Candidate>, k: string)
    requires KeysValid(ks)
    ensures k in MapSeq(DedupeWith(ks, cs), ks.base) <==> k in MapSeq(cs, ks.base)
  {
    GroupOk(ks, cs);
    GroupKeys(ks, cs);
    FirstSeenMembers(MapSeq(cs, ks.base), k);
    FlattenKeys(ks, Group(ks, cs), k);
  }


  lemma FlattenKeys(ks: Keys, g: Grouped, k: string)
    requires Shaped(g) && Keyed(ks, g)
    ensures k in MapSeq(Flatten(g, |g.keys|), ks.base) <==> k in g.keys
  {
    FlattenKey(ks, g, k);
    MapSeqMember(Flatten(g, |g.keys|), ks.base, k);
  }

  // ---------------------------------------------------------------------------
  // Where the results come from

  /** The fields a merge never mixes: they all come from one of the two records. */
  datatype Origin = Origin(nameRaw: string, name: string, dreamJobRaw: string, dreamJobStoreId: Option<string>,
                           matchedStoreName: Option<string>, matchConfidence: real, sourceFileName: string)

  function OriginOf(c: Candidate): Origin
  {
    Origin(c.nameRaw, c.name, c.dreamJobRaw, c.dreamJobStoreId, c.matchedStoreName, c.matchConfidence, c.sourceFileName)
  }

  lemma MergeOrigin(keep: Candidate, incoming: Candidate)
    ensures OriginOf(Merge(keep, incoming)) == OriginOf(if IsBetter(incoming, keep) then incoming else keep)
  {
  }

  lemma InsertOrigin(ks: Keys, list: seq<Candidate>, c: Candidate, o: seq<Origin>)
    requires OriginOf(c) in o && forall j :: 0 <= j < |list| ==> OriginOf(list[j]) in o
    ensures forall j :: 0 <= j < |Insert(ks, list, c)| ==> OriginOf(Insert(ks, list, c)[j]) in o
  {
    forall j | 0 <= j < |list| ensures OriginOf(Merge(list[j], c)) in o {
      MergeOrigin(list[j], c);
    }
    InsertAll(ks, list, c, x => OriginOf(x) in o);
  }

  /** Every listed candidate has its identifying fields from `o`. */
  ghost predicate TracedTo(g: Grouped, o: seq<Origin>)
  {
    forall k :: k in g.groups ==> forall j :: 0 <= j < |g.groups[k]| ==> OriginOf(g.groups[k][j]) in o
  }

  lemma AddTraced(ks: Keys, g: Grouped, c: Candidate, o: seq<Origin>)
    requires TracedTo(g, o) && OriginOf(c) in o
    ensures TracedTo(Add(ks, g, c), o)
  {
    var key := ks.base(c);
    var list := ListOf(g, key);
    InsertOrigin(ks, list, c, o);
    PutTraced(g, key, Insert(ks, list, c), o);
  }

  lemma PutTraced(g: Grouped, key: string, list: seq<Candidate>, o: seq<Origin>)
    requires TracedTo(g, o) && forall j :: 0 <= j < |list| ==> OriginOf(list[j]) in o
    ensures TracedTo(Put(g, key, list), o)
  {
  }

  lemma {:induction false} GroupTraced(ks: Keys, cs: seq<Candidate>, o: seq<Origin>)
    requires forall j :: 0 <= j < |cs| ==> OriginOf(cs[j]) in o
    ensures TracedTo(Group(ks, cs), o)
  {
    if cs != [] {
      var n := |cs| - 1;
      forall j | 0 <= j < n ensures OriginOf(cs[..n][j]) in o {
        assert cs[..n][j] == cs[j];
      }
      GroupTraced(ks, cs[..n], o);
      AddTraced(ks, Group(ks, cs[..n]), cs[n], o);
    }
  }

  lemma FlattenTraced(g: Grouped, o: seq<Origin>, x: Candidate)
    requires Shaped(g) && TracedTo(g, o) && x in Flatten(g, |g.keys|)
    ensures OriginOf(x) in o
  {
    FlattenMembers(g, |g.keys|);
    var m :| 0 <= m < |g.keys| && x in g.groups[g.keys[m]];
    var i :| 0 <= i < |g.groups[g.keys[m]]| && g.groups[g.keys[m]][i] == x;
  }

  /**
   * Deduplication invents no record: the name, the dream job and its match,
   * and the source file of every result are those of one input candidate.
   */
  lemma DedupeWithOrigins(ks: Keys, cs: seq<Candidate>, x: Candidate)
    requires x in DedupeWith(ks, cs)
    ensures exists j :: 0 <= j < |cs| && OriginOf(cs[j]) == OriginOf(x)
  {
    GroupShaped(ks, cs);
    var o := MapSeq(cs, OriginOf);
    forall j | 0 <= j < |cs| ensures OriginOf(cs[j]) in o {
      assert o[j] == OriginOf(cs[j]);
    }
    GroupTraced(ks, cs, o);
    FlattenTraced(Group(ks, cs), o, x);
    var j :| 0 <= j < |cs| && o[j] == OriginOf(x);
  }


  // ---------------------------------------------------------------------------
  // Selection

  /** A selected candidate has a dream store id. */
  predicate SelectedHasDream(c: Candidate) { c.selected ==> Truthy(c.dreamJobStoreId) }

  /**
   * A merge keeps "selected implies a dream id": when `keep` stays and
   * `incoming` was selected, `incoming` has a dream id, so `keep` has one
   * too, or `incoming` would have ranked better.
   */
  lemma MergeSelected(keep: Candidate, incoming: Candidate)
    requires SelectedHasDream(keep) && SelectedHasDream(incoming)
    ensures SelectedHasDream(Merge(keep, incoming))
  {
  }

  ghost predicate AllSelectedHaveDream(list: seq<Candidate>)
  {
    forall j :: 0 <= j < |list| ==> SelectedHasDream(list[j])
  }

  ghost predicate SelectionSound(g: Grouped)
  {
    forall k :: k in g.groups ==> AllSelectedHaveDream(g.groups[k])
  }

  lemma InsertSelected(ks: Keys, list: seq<Candidate>, c: Candidate)
    requires AllSelectedHaveDream(list) && SelectedHasDream(c)
    ensures AllSelectedHaveDream(Insert(ks, list, c))
  {
    forall j | 0 <= j < |list| ensures SelectedHasDream(Merge(list[j], c)) {
      MergeSelected(list[j], c);
    }
    InsertAll(ks, list, c, SelectedHasDream);
  }

  lemma {:induction false} GroupSelected(ks: Keys, cs: seq<Candidate>)
    requires AllSelectedHaveDream(cs)
    ensures SelectionSound(Group(ks, cs))
  {
    if cs != [] {
      var n := |cs| - 1;
      assert AllSelectedHaveDream(cs[..n]);
      GroupSelected(ks, cs[..n]);
      AddSelected(ks, Group(ks, cs[..n]), cs[n]);
    }
  }

  lemma AddSelected(ks: Keys, g: Grouped, c: Candidate)
    requires SelectionSound(g) && SelectedHasDream(c)
    ensures SelectionSound(Add(ks, g, c))
  {
    var key := ks.base(c);
    var list := ListOf(g, key);
    InsertSelected(ks, list, c);
    PutSelected(g, key, Insert(ks, list, c));
  }

  lemma PutSelected(g: Grouped, key: string, list: seq<Candidate>)
    requires SelectionSound(g) && AllSelectedHaveDream(list)
    ensures SelectionSound(Put(g, key, list))
  {
  }

  lemma FlattenSelected(g: Grouped, x: Candidate)
    requires Shaped(g) && SelectionSound(g) && x in Flatten(g, |g.keys|)
    ensures SelectedHasDream(x)
  {
    FlattenMembers(g, |g.keys|);
    var m :| 0 <= m < |g.keys| && x in g.groups[g.keys[m]];
    var i :| 0 <= i < |g.groups[g.keys[m]]| && g.groups[g.keys[m]][i] == x;
  }

  /** When every input that is selected has a dream id, so does every result. */
  lemma DedupeWithSelected(ks: Keys, cs: seq<Candidate>)
    requires AllSelectedHaveDream(cs)
    ensures AllSelectedHaveDream(DedupeWith(ks, cs))
  {
    GroupShaped(ks, cs);
    GroupSelected(ks, cs);
    var out := DedupeWith(ks, cs);
    forall j | 0 <= j < |out| ensures SelectedHasDream(out[j]) {
      FlattenSelected(Group(ks, cs), out[j]);
    }
  }


  /** The outer loop of `dedupe`. */
  method GroupCandidates(ks: Keys, cs: seq<Candidate>) returns (keys: seq<string>, grouped: map<string, seq<Candidate>>)
    ensures Grouped(keys, grouped) == Group(ks, cs)
  {
    keys := [];
    grouped := map[];
    for n := 0 to |cs|
      invariant Grouped(keys, grouped) == Group(ks, cs[..n])
    {
      assert cs[..n + 1][..n] == cs[..n];
      var c := cs[n];
      var baseKey := ks.base(c);
      var list := if baseKey in grouped then grouped[baseKey] else [];
      list := InsertInto(ks, list, c);
      if baseKey !in grouped {
        keys := keys + [baseKey];
      }
      grouped := grouped[baseKey := list];
    }
    assert cs[..|cs|] == cs;
  }

  /** `dedupe` with the keys `ks`: group, then concatenate the lists in key order. */
  method DedupeBy(ks: Keys, cs: seq<Candidate>) returns (out: seq<Candidate>)
    ensures out == DedupeWith(ks, cs)
  {
    var keys, grouped := GroupCandidates(ks, cs);
    GroupKeysIn(ks, cs);
    out := FlattenGroups(keys, grouped);
  }

  /** `dedupe` of this module. */
  method Dedupe(cs: seq<Candidate>) returns (out: seq<Candidate>)
    ensures out == DedupeOf(cs)
  {
    out := DedupeBy(Modular, cs);
  }

  /** The inner loop of `dedupe`: the lists in key order. */
  method FlattenGroups(keys: seq<string>, grouped: map<string, seq<Candidate>>) returns (out: seq<Candidate>)
    requires forall k :: k in keys ==> k in grouped
    ensures out == Flatten(Grouped(keys, grouped), |keys|)
  {
    out := [];
    for m := 0 to |keys|
      invariant out == Flatten(Grouped(keys, grouped), m)
    {
      out := out + grouped[keys[m]];
    }
  }

  lemma GroupKeysIn(ks: Keys, cs: seq<Candidate>)
    ensures forall k :: k in Group(ks, cs).keys ==> k in Group(ks, cs).groups
  {
    GroupShaped(ks, cs);
  }
}
