/**
 * List operations that the app-state code applies to the user's data in
 * place (`indexOf` + `splice`, `findIndex`, `push`), and the invariants of
 * the tower the store operations are meant to keep: at most three
 * residents per store, every resident placed in at most one store, and
 * distinct store and mission ids.
 */
module StateOps {
  import opened Wrappers
  import opened Seqs
  import opened Types

  // ---------------------------------------------------------------------
  // Removing one element
  // ---------------------------------------------------------------------

  /** `xs.splice(i, 1)` */
  function RemoveAt<T>(xs: seq<T>, i: nat): seq<T>
    requires i < |xs|
  {
    xs[..i] + xs[i + 1..]
  }

  lemma {:induction false} SubsequenceRefl<T>(a: seq<T>)
    ensures Subsequence(a, a)
  {
    if a != [] {
      SubsequenceRefl(a[1..]);
    }
  }

  lemma {:induction false} SubsequenceSkip<T>(a: seq<T>, x: T, c: seq<T>)
    ensures Subsequence(a + c, a + [x] + c)
  {
    if a == [] {
      SubsequenceRefl(c);
      assert a + [x] + c == [x] + c && ([x] + c)[1..] == c && a + c == c;
    } else {
      SubsequenceSkip(a[1..], x, c);
      assert (a + c)[1..] == a[1..] + c;
      assert (a + [x] + c)[1..] == a[1..] + [x] + c;
    }
  }

  /** Splicing one element out keeps the others in order. */
  lemma RemoveAtIndex<T>(xs: seq<T>, i: nat)
    requires i < |xs|
    ensures |RemoveAt(xs, i)| == |xs| - 1
    ensures forall k :: 0 <= k < |xs| - 1 ==> RemoveAt(xs, i)[k] == xs[if k < i then k else k + 1]
  {
  }

  /** Splicing one element out drops exactly that element and leaves a subsequence. */
  lemma RemoveAtSpec<T>(xs: seq<T>, i: nat)
    requires i < |xs|
    ensures |RemoveAt(xs, i)| == |xs| - 1
    ensures multiset(RemoveAt(xs, i)) == multiset(xs) - multiset{xs[i]}
    ensures Subsequence(RemoveAt(xs, i), xs)
  {
    assert xs == xs[..i] + [xs[i]] + xs[i + 1..];
    SubsequenceSkip(xs[..i], xs[i], xs[i + 1..]);
  }

  /** `const i = xs.indexOf(x); if (i !== -1) xs.splice(i, 1)` */
  function RemoveFirst<T(==)>(xs: seq<T>, x: T): seq<T>
  {
    var i := FirstIndexOf(xs, x);
    if i < 0 then xs else RemoveAt(xs, i)
  }

  /** Removing the first occurrence: nothing happens without one, else exactly one `x` goes. */
  lemma RemoveFirstSpec<T>(xs: seq<T>, x: T)
    ensures x !in xs ==> RemoveFirst(xs, x) == xs
    ensures x in xs ==> |RemoveFirst(xs, x)| == |xs| - 1
                        && multiset(RemoveFirst(xs, x)) == multiset(xs) - multiset{x}
    ensures Subsequence(RemoveFirst(xs, x), xs)
  {
    var i := FirstIndexOf(xs, x);
    if i < 0 {
      SubsequenceRefl(xs);
    } else {
      RemoveAtSpec(xs, i);
    }
  }

  /** Other elements are neither lost nor gained. */
  lemma RemoveFirstOthers<T>(xs: seq<T>, x: T, y: T)
    requires y != x
    ensures y in RemoveFirst(xs, x) <==> y in xs
  {
    if FirstIndexOf(xs, x) >= 0 {
      var i := FirstIndexOf(xs, x);
      RemoveAtSpec(xs, i);
      var r := RemoveAt(xs, i);
      assert RemoveFirst(xs, x) == r;
      assert multiset(r)[y] == multiset(xs)[y];
    }
  }

  /** The positions of `RemoveFirst`: everything before the first `x` stays, everything after shifts by one. */
  lemma RemoveFirstAt<T>(xs: seq<T>, x: T)
    requires x in xs
    ensures var p := FirstIndexOf(xs, x);
      0 <= p < |xs| && xs[p] == x && |RemoveFirst(xs, x)| == |xs| - 1
      && forall k :: 0 <= k < |xs| - 1 ==> RemoveFirst(xs, x)[k] == xs[if k < p then k else k + 1]
  {
    RemoveAtIndex(xs, FirstIndexOf(xs, x));
  }

  // ---------------------------------------------------------------------
  // Lookups
  // ---------------------------------------------------------------------

  /** `stores.findIndex(us => us.storeId === storeId)` */
  function StoreIndex(stores: seq<UserStore>, storeId: string): int
  {
    FindIndex(stores, (us: UserStore) => us.storeId == storeId)
  }

  /** `residents.findIndex(r => r.id === id)` */
  function ResidentIndex(residents: seq<Resident>, id: string): int
  {
    FindIndex(residents, (r: Resident) => r.id == id)
  }

  /** `missions.findIndex(um => um.missionId === missionId)` */
  function MissionIndex(missions: seq<UserMission>, missionId: string): int
  {
    FindIndex(missions, (um: UserMission) => um.missionId == missionId)
  }

  predicate HasStore(stores: seq<UserStore>, storeId: string)
  {
    exists k :: 0 <= k < |stores| && stores[k].storeId == storeId
  }

  predicate HasResident(residents: seq<Resident>, id: string)
  {
    exists k :: 0 <= k < |residents| && residents[k].id == id
  }

  predicate HasMission(missions: seq<UserMission>, missionId: string)
  {
    exists k :: 0 <= k < |missions| && missions[k].missionId == missionId
  }

  lemma IndexFound(stores: seq<UserStore>, residents: seq<Resident>, missions: seq<UserMission>, id: string)
    ensures StoreIndex(stores, id) >= 0 <==> HasStore(stores, id)
    ensures ResidentIndex(residents, id) >= 0 <==> HasResident(residents, id)
    ensures MissionIndex(missions, id) >= 0 <==> HasMission(missions, id)
  {
  }

  // ---------------------------------------------------------------------
  // Invariants of the tower
  // ---------------------------------------------------------------------

  /** `MAX_STORE_CAPACITY`: no store holds more than three residents. */
  predicate WithinCapacity(stores: seq<UserStore>)
  {
    forall k :: 0 <= k < |stores| ==> |stores[k].residents| <= MaxStoreCapacity
  }

  /** Every resident id is listed at most once, in at most one store. */
  predicate SingleMembership(stores: seq<UserStore>)
  {
    forall i, j, a, b ::
      (0 <= i < |stores| && 0 <= j < |stores| && 0 <= a < |stores[i].residents| && 0 <= b < |stores[j].residents|
       && stores[i].residents[a] == stores[j].residents[b]) ==> i == j && a == b
  }

  predicate UniqueStoreIds(stores: seq<UserStore>)
  {
    forall i, j :: 0 <= i < j < |stores| ==> stores[i].storeId != stores[j].storeId
  }

  predicate UniqueMissionIds(missions: seq<UserMission>)
  {
    forall i, j :: 0 <= i < j < |missions| ==> missions[i].missionId != missions[j].missionId
  }

  // ---------------------------------------------------------------------
  // Stores
  // ---------------------------------------------------------------------

  /** `addStore`: a store id is appended, with no residents, only when it is new. */
  lemma AddStoreKeeps(stores: seq<UserStore>, storeId: string)
    requires !HasStore(stores, storeId)
    ensures var after := stores + [UserStore(storeId, [])];
      HasStore(after, storeId)
      && (UniqueStoreIds(stores) ==> UniqueStoreIds(after))
      && (WithinCapacity(stores) ==> WithinCapacity(after))
      && (SingleMembership(stores) ==> SingleMembership(after))
  {
    var after := stores + [UserStore(storeId, [])];
    assert after[|stores|].storeId == storeId;
  }

  /** The store at `t` with `id` appended to its residents (`userStore.residents.push(id)`). */
  function AppendResident(stores: seq<UserStore>, t: nat, id: string): seq<UserStore>
    requires t < |stores|
  {
    stores[t := UserStore(stores[t].storeId, stores[t].residents + [id])]
  }

  /** The store at `t` with the first occurrence of `id` spliced out of its residents. */
  function DropResidentAt(stores: seq<UserStore>, t: nat, id: string): seq<UserStore>
    requires t < |stores|
  {
    stores[t := UserStore(stores[t].storeId, RemoveFirst(stores[t].residents, id))]
  }

  /** Every store with the first occurrence of `id` spliced out of its residents. */
  function DropResidentEverywhere(stores: seq<UserStore>, id: string): (r: seq<UserStore>)
    ensures |r| == |stores|
  {
    seq(|stores|, k requires 0 <= k < |stores| => UserStore(stores[k].storeId, RemoveFirst(stores[k].residents, id)))
  }

  /** Splicing the id out of every list keeps the store ids, the capacity and single membership, and then the id is gone. */
  lemma DropEverywhereSpec(stores: seq<UserStore>, id: string)
    ensures var r := DropResidentEverywhere(stores, id);
      (forall k :: 0 <= k < |r| ==> r[k].storeId == stores[k].storeId)
      && (WithinCapacity(stores) ==> WithinCapacity(r))
      && (SingleMembership(stores) ==> SingleMembership(r))
      && (SingleMembership(stores) ==> forall k :: 0 <= k < |r| ==> id !in r[k].residents)
  {
    var r := DropResidentEverywhere(stores, id);
    forall k | 0 <= k < |r| ensures |r[k].residents| <= |stores[k].residents| {
      RemoveFirstSpec(stores[k].residents, id);
    }
    if SingleMembership(stores) {
      DropKeepsSingle(stores, id);
    }
  }

  /** The position in `stores[k].residents` that position `a` of the shortened list came from. */
  function Source(stores: seq<UserStore>, id: string, k: nat, a: nat): nat
    requires k < |stores|
  {
    var p := FirstIndexOf(stores[k].residents, id);
    if p < 0 || a < p then a else a + 1
  }

  lemma SourceAt(stores: seq<UserStore>, id: string, k: nat, a: nat)
    requires k < |stores| && a < |RemoveFirst(stores[k].residents, id)|
    ensures Source(stores, id, k, a) < |stores[k].residents|
    ensures RemoveFirst(stores[k].residents, id)[a] == stores[k].residents[Source(stores, id, k, a)]
    ensures id in stores[k].residents ==> Source(stores, id, k, a) != FirstIndexOf(stores[k].residents, id)
  {
    if id in stores[k].residents {
      RemoveFirstAt(stores[k].residents, id);
    } else {
      RemoveFirstSpec(stores[k].residents, id);
    }
  }

  lemma DropKeepsSingle(stores: seq<UserStore>, id: string)
    requires SingleMembership(stores)
    ensures SingleMembership(DropResidentEverywhere(stores, id))
    ensures forall k :: 0 <= k < |stores| ==> id !in DropResidentEverywhere(stores, id)[k].residents
  {
    var r := DropResidentEverywhere(stores, id);
    forall i, j, a, b |
      0 <= i < |r| && 0 <= j < |r| && 0 <= a < |r[i].residents| && 0 <= b < |r[j].residents|
      && r[i].residents[a] == r[j].residents[b]
      ensures i == j && a == b
    {
      SourceAt(stores, id, i, a);
      SourceAt(stores, id, j, b);
    }
    forall k, a | 0 <= k < |stores| && 0 <= a < |r[k].residents| ensures r[k].residents[a] != id {
      SourceAt(stores, id, k, a);
    }
  }

  // ---------------------------------------------------------------------
  // Missions
  // ---------------------------------------------------------------------

  /** The first mission named `missionId` with its status set (`userMission.status = …` after `find`). */
  function SetStatus(missions: seq<UserMission>, missionId: string, status: MissionStatus): (r: seq<UserMission>)
    ensures |r| == |missions|
  {
    var k := MissionIndex(missions, missionId);
    if k < 0 then missions else missions[k := missions[k].(status := status)]
  }

  /** Only the first entry with that id changes, and only its status. */
  lemma SetStatusSpec(missions: seq<UserMission>, missionId: string, status: MissionStatus)
    ensures !HasMission(missions, missionId) ==> SetStatus(missions, missionId, status) == missions
    ensures HasMission(missions, missionId) ==>
      var k := MissionIndex(missions, missionId);
      SetStatus(missions, missionId, status)[k] == UserMission(missionId, status, missions[k].addedAt)
      && forall j :: 0 <= j < |missions| && j != k ==> SetStatus(missions, missionId, status)[j] == missions[j]
    ensures forall j :: 0 <= j < |missions| ==>
      (SetStatus(missions, missionId, status)[j].missionId == missions[j].missionId
       && SetStatus(missions, missionId, status)[j].addedAt == missions[j].addedAt)
  {
  }

  /** `addMission` on a new id keeps mission ids distinct. */
  lemma AddMissionKeeps(missions: seq<UserMission>, missionId: string, now: int)
    requires !HasMission(missions, missionId)
    ensures var after := missions + [UserMission(missionId, Pending, now)];
      HasMission(after, missionId) && (UniqueMissionIds(missions) ==> UniqueMissionIds(after))
  {
    var after := missions + [UserMission(missionId, Pending, now)];
    assert after[|missions|].missionId == missionId;
  }

  /** With distinct ids, removing the first match removes the mission entirely. */
  lemma RemoveMissionGone(missions: seq<UserMission>, missionId: string)
    requires UniqueMissionIds(missions) && HasMission(missions, missionId)
    ensures var after := RemoveAt(missions, MissionIndex(missions, missionId));
      |after| == |missions| - 1 && !HasMission(after, missionId) && UniqueMissionIds(after)
  {
    var k := MissionIndex(missions, missionId);
    RemoveAtIndex(missions, k);
    var after := RemoveAt(missions, k);
    forall a | 0 <= a < |after| ensures after[a].missionId != missionId {
      assert after[a] == missions[if a < k then a else a + 1];
    }
    forall a, b | 0 <= a < b < |after| ensures after[a].missionId != after[b].missionId {
      assert after[a] == missions[if a < k then a else a + 1];
      assert after[b] == missions[if b < k then b else b + 1];
    }
  }

  /** With distinct store ids, removing the first match removes the store entirely. */
  lemma RemoveStoreGone(stores: seq<UserStore>, storeId: string)
    requires UniqueStoreIds(stores) && HasStore(stores, storeId)
    ensures var after := RemoveAt(stores, StoreIndex(stores, storeId));
      |after| == |stores| - 1 && !HasStore(after, storeId) && UniqueStoreIds(after)
  {
    var k := StoreIndex(stores, storeId);
    RemoveAtIndex(stores, k);
    var after := RemoveAt(stores, k);
    forall a | 0 <= a < |after| ensures after[a].storeId != storeId {
      assert after[a] == stores[if a < k then a else a + 1];
    }
    forall a, b | 0 <= a < b < |after| ensures after[a].storeId != after[b].storeId {
      assert after[a] == stores[if a < k then a else a + 1];
      assert after[b] == stores[if b < k then b else b + 1];
    }
  }

  /** Removing a whole store keeps the capacity bound and single membership. */
  lemma RemoveStoreKeeps(stores: seq<UserStore>, k: nat)
    requires k < |stores|
    ensures WithinCapacity(stores) ==> WithinCapacity(RemoveAt(stores, k))
    ensures SingleMembership(stores) ==> SingleMembership(RemoveAt(stores, k))
  {
    RemoveAtIndex(stores, k);
    var after := RemoveAt(stores, k);
    if SingleMembership(stores) {
      forall i, j, a, b |
        0 <= i < |after| && 0 <= j < |after| && 0 <= a < |after[i].residents| && 0 <= b < |after[j].residents|
        && after[i].residents[a] == after[j].residents[b]
        ensures i == j && a == b
      {
        assert after[i] == stores[if i < k then i else i + 1];
        assert after[j] == stores[if j < k then j else j + 1];
      }
    }
    if WithinCapacity(stores) {
      forall i | 0 <= i < |after| ensures |after[i].residents| <= MaxStoreCapacity {
        assert after[i] == stores[if i < k then i else i + 1];
      }
    }
  }
}
