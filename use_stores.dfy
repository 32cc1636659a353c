/**
 * The older `useStores` composable. It works on the same user data as the
 * application store, but it also keeps each resident's `currentStore`
 * field in step with the store lists.
 */
module UseStores {
  import opened Wrappers
  import opened Seqs
  import opened Types
  import opened StateOps
  import opened AppStore
  import ImportTypes

  predicate UniqueResidentIds(residents: seq<Resident>)
  {
    forall i, j :: 0 <= i < j < |residents| ==> residents[i].id != residents[j].id
  }

  /**
   * The invariant of the composable layer. It includes the tower rules:
   * at most three residents per store, each id listed at most once, and
   * distinct, non-empty store ids. On top of them, every resident's
   * `currentStore` names exactly the store that lists it.
   */
  predicate Consistent(data: UserData)
  {
    WithinCapacity(data.stores) && SingleMembership(data.stores) && UniqueStoreIds(data.stores)
    && UniqueResidentIds(data.residents)
    && (forall s :: 0 <= s < |data.stores| ==> data.stores[s].storeId != [])
    && (forall k :: 0 <= k < |data.residents| ==>
          data.residents[k].currentStore == CurrentStore(data.stores, data.residents[k].id))
  }

  /** The first resident with that id, if any, gets `currentStore` set to `c`. */
  function SetCurrentStore(residents: seq<Resident>, residentId: string, c: Option<string>): (r: seq<Resident>)
    ensures |r| == |residents|
  {
    var k := ResidentIndex(residents, residentId);
    if k < 0 then residents else residents[k := residents[k].(currentStore := c)]
  }

  /**
   * Setting a resident's current store changes that one field of the first
   * resident with the id, if there is one, and nothing else.
   */
  lemma SetCurrentStoreSpec(residents: seq<Resident>, residentId: string, c: Option<string>, j: nat)
    requires j < |residents|
    ensures var r := SetCurrentStore(residents, residentId, c);
      r[j].id == residents[j].id && r[j].name == residents[j].name && r[j].dreamJob == residents[j].dreamJob
      && r[j].currentStore == (if j == ResidentIndex(residents, residentId) then c else residents[j].currentStore)
  {
  }

  /** `store.residents.forEach(...)`: the first resident holding each listed id loses its current store. */
  function ClearedFor(residents: seq<Resident>, ids: seq<string>): (r: seq<Resident>)
    ensures |r| == |residents|
  {
    if ids == [] then residents
    else
      var n := |ids| - 1;
      SetCurrentStore(ClearedFor(residents, ids[..n]), ids[n], None)
  }

  /** Clearing changes no id, name or dream job. */
  lemma {:induction false} ClearedForKeeps(residents: seq<Resident>, ids: seq<string>, j: nat)
    requires j < |residents|
    ensures var r := ClearedFor(residents, ids);
      r[j].id == residents[j].id && r[j].name == residents[j].name && r[j].dreamJob == residents[j].dreamJob
  {
    if ids != [] {
      var n := |ids| - 1;
      ClearedForKeeps(residents, ids[..n], j);
      SetCurrentStoreSpec(ClearedFor(residents, ids[..n]), ids[n], None, j);
    }
  }

  /** The resident indices do not change while current stores are cleared. */
  lemma ClearedForIndex(residents: seq<Resident>, ids: seq<string>, x: string)
    ensures ResidentIndex(ClearedFor(residents, ids), x) == ResidentIndex(residents, x)
  {
    var r := ClearedFor(residents, ids);
    forall j | 0 <= j < |residents| ensures r[j].id == residents[j].id {
      ClearedForKeeps(residents, ids, j);
    }
    var i := ResidentIndex(r, x);
    var i0 := ResidentIndex(residents, x);
    if i >= 0 {
      assert residents[i].id == x;
    }
    if i0 >= 0 {
      assert r[i0].id == x;
    }
  }

  /**
   * A resident loses its current store exactly when it is the first
   * resident holding one of the ids; every other resident is unchanged.
   */
  lemma {:induction false} ClearedForSpec(residents: seq<Resident>, ids: seq<string>, j: nat)
    requires j < |residents|
    ensures var r := ClearedFor(residents, ids);
      r[j].currentStore == (if residents[j].id in ids && ResidentIndex(residents, residents[j].id) == j
                            then None else residents[j].currentStore)
  {
    if ids != [] {
      var n := |ids| - 1;
      var p := ClearedFor(residents, ids[..n]);
      ClearedForSpec(residents, ids[..n], j);
      ClearedForIndex(residents, ids[..n], ids[n]);
      SetCurrentStoreSpec(p, ids[n], None, j);
      assert ids == ids[..n] + [ids[n]];
      assert residents[j].id in ids <==> residents[j].id in ids[..n] || residents[j].id == ids[n];
      if j == ResidentIndex(residents, ids[n]) {
        assert residents[j].id == ids[n];
      }
    }
  }

  /** The `forEach` of `removeStore` clearing the current store of each listed resident. */
  method ClearCurrentStores(d: AppData, ids: seq<string>)
    modifies d
    ensures d.residents == ClearedFor(old(d.residents), ids)
    ensures d.stores == old(d.stores) && d.missions == old(d.missions)
  {
    var i := 0;
    while i < |ids|
      invariant 0 <= i <= |ids|
      invariant d.residents == ClearedFor(old(d.residents), ids[..i])
      invariant d.stores == old(d.stores) && d.missions == old(d.missions)
    {
      assert ids[..i + 1][..i] == ids[..i];
      var residentId := ids[i];
      var k := ResidentIndex(d.residents, residentId);
      if k != -1 {
        d.residents := d.residents[k := d.residents[k].(currentStore := None)];
      }
      i := i + 1;
    }
    assert ids[..|ids|] == ids;
  }

  /** `removeStore`: the store's residents lose their current store, then the store goes. */
  method RemoveStore(d: AppData, storeId: string) returns (removed: bool)
    modifies d
    ensures removed <==> HasStore(old(d.stores), storeId)
    ensures !removed ==> d.Value() == old(d.Value())
    ensures removed ==>
      var k := StoreIndex(old(d.stores), storeId);
      d.stores == RemoveAt(old(d.stores), k)
      && d.residents == ClearedFor(old(d.residents), old(d.stores)[k].residents)
      && d.missions == old(d.missions)
  {
    var index := StoreIndex(d.stores, storeId);
    if index == -1 {
      return false;
    }
    var store := d.stores[index];
    ClearCurrentStores(d, store.residents);
    d.stores := RemoveAt(d.stores, index);
    removed := true;
  }

  /** The stores after "remove resident from previous store if any": only the store `currentStore` names is touched. */
  function PreviousDropped(stores: seq<UserStore>, residents: seq<Resident>, residentId: string): (r: seq<UserStore>)
    ensures |r| == |stores| && forall s :: 0 <= s < |r| ==> r[s].storeId == stores[s].storeId
  {
    var k := ResidentIndex(residents, residentId);
    if k < 0 || !ImportTypes.Truthy(residents[k].currentStore) then stores
    else
      var p := StoreIndex(stores, residents[k].currentStore.value);
      if p < 0 then stores else DropResidentAt(stores, p, residentId)
  }

  /** `addResidentToStore`: false with no change for a missing, full or already holding store. */
  method AddResidentToStore(d: AppData, storeId: string, residentId: string) returns (added: bool)
    modifies d
    ensures var t := StoreIndex(old(d.stores), storeId);
      (added <==> t >= 0 && |old(d.stores)[t].residents| < MaxStoreCapacity && residentId !in old(d.stores)[t].residents)
      && (!added ==> d.Value() == old(d.Value()))
      && (added ==>
            d.stores == AppendResident(PreviousDropped(old(d.stores), old(d.residents), residentId), t, residentId)
            && d.residents == SetCurrentStore(old(d.residents), residentId, Some(storeId)))
    ensures d.missions == old(d.missions)
  {
    var t := StoreIndex(d.stores, storeId);
    if t == -1 {
      return false;
    }
    if |d.stores[t].residents| >= MaxStoreCapacity {
      return false;
    }
    if residentId in d.stores[t].residents {
      return false;
    }
    var k := ResidentIndex(d.residents, residentId);
    if k != -1 && ImportTypes.Truthy(d.residents[k].currentStore) {
      var prev := StoreIndex(d.stores, d.residents[k].currentStore.value);
      if prev != -1 {
        d.stores := DropResidentAt(d.stores, prev, residentId);
      }
    }
    d.stores := AppendResident(d.stores, t, residentId);
    if k != -1 {
      d.residents := d.residents[k := d.residents[k].(currentStore := Some(storeId))];
    }
    added := true;
  }

  /** `removeResidentFromStore`: the current store is cleared only when the id was removed. */
  method RemoveResidentFromStore(d: AppData, storeId: string, residentId: string) returns (removed: bool)
    modifies d
    ensures var t := StoreIndex(old(d.stores), storeId);
      (removed <==> t >= 0 && residentId in old(d.stores)[t].residents)
      && (!removed ==> d.Value() == old(d.Value()))
      && (removed ==>
            d.stores == DropResidentAt(old(d.stores), t, residentId)
            && d.residents == SetCurrentStore(old(d.residents), residentId, None))
    ensures d.missions == old(d.missions)
  {
    var t := StoreIndex(d.stores, storeId);
    if t == -1 {
      return false;
    }
    var index := FirstIndexOf(d.stores[t].residents, residentId);
    if index == -1 {
      return false;
    }
    d.stores := DropResidentAt(d.stores, t, residentId);
    var k := ResidentIndex(d.residents, residentId);
    if k != -1 {
      d.residents := d.residents[k := d.residents[k].(currentStore := None)];
    }
    removed := true;
  }

  // ---------------------------------------------------------------------
  // The invariant
  // ---------------------------------------------------------------------

  /**
   * Under the invariant, the one store `currentStore` names is the only
   * store listing the resident, so dropping the id from it drops it everywhere.
   */
  lemma PreviousDroppedEverywhere(data: UserData, residentId: string)
    requires Consistent(data) && HasResident(data.residents, residentId)
    ensures PreviousDropped(data.stores, data.residents, residentId) == DropResidentEverywhere(data.stores, residentId)
  {
    var stores := data.stores;
    var k := ResidentIndex(data.residents, residentId);
    var c := data.residents[k].currentStore;
    assert c == CurrentStore(stores, residentId);
    var before := PreviousDropped(stores, data.residents, residentId);
    if c.None? {
      assert before == stores;
      DropNoHolder(stores, residentId);
    } else {
      var q :| 0 <= q < |stores| && stores[q].storeId == c.value && residentId in stores[q].residents;
      assert StoreIndex(stores, c.value) == q;
      assert ImportTypes.Truthy(c);
      assert before == DropResidentAt(stores, q, residentId);
      DropOnlyHolder(stores, residentId, q);
    }
  }

  lemma DropNoHolder(stores: seq<UserStore>, residentId: string)
    requires forall s :: 0 <= s < |stores| ==> residentId !in stores[s].residents
    ensures DropResidentEverywhere(stores, residentId) == stores
  {
    var everywhere := DropResidentEverywhere(stores, residentId);
    forall s | 0 <= s < |stores| ensures everywhere[s] == stores[s] {
      RemoveFirstSpec(stores[s].residents, residentId);
    }
  }

  lemma DropOnlyHolder(stores: seq<UserStore>, residentId: string, q: nat)
    requires SingleMembership(stores) && q < |stores| && residentId in stores[q].residents
    ensures DropResidentAt(stores, q, residentId) == DropResidentEverywhere(stores, residentId)
  {
    var everywhere := DropResidentEverywhere(stores, residentId);
    var at := DropResidentAt(stores, q, residentId);
    var a :| 0 <= a < |stores[q].residents| && stores[q].residents[a] == residentId;
    forall s | 0 <= s < |stores| ensures at[s] == everywhere[s] {
      if s != q {
        forall b | 0 <= b < |stores[s].residents| ensures stores[s].residents[b] != residentId {
        }
        RemoveFirstSpec(stores[s].residents, residentId);
      }
    }
  }

  /**
   * Membership of every other id, and the store ids, survive placing a
   * resident, so the other residents' current stores stay right.
   */
  lemma PlacedOthers(stores: seq<UserStore>, t: nat, residentId: string, y: string)
    requires t < |stores| && y != residentId
    ensures CurrentStore(Placed(stores, t, residentId), y) == CurrentStore(stores, y)
  {
    var after := Placed(stores, t, residentId);
    var d := DropResidentEverywhere(stores, residentId);
    forall s | 0 <= s < |stores|
      ensures after[s].storeId == stores[s].storeId && (y in after[s].residents <==> y in stores[s].residents)
    {
      RemoveFirstOthers(stores[s].residents, residentId, y);
      assert d[s].residents == RemoveFirst(stores[s].residents, residentId);
      if s == t {
        assert after[s].residents == d[s].residents + [residentId];
      }
    }
    CurrentStoreSame(after, stores, y);
  }

  /** A successful `addResidentToStore` of a known resident keeps the invariant. */
  lemma AddResidentToStoreKeeps(data: UserData, storeId: string, residentId: string)
    requires Consistent(data) && HasResident(data.residents, residentId)
    requires var t := StoreIndex(data.stores, storeId);
      t >= 0 && |data.stores[t].residents| < MaxStoreCapacity && residentId !in data.stores[t].residents
    ensures var t := StoreIndex(data.stores, storeId);
      Consistent(UserData(AppendResident(PreviousDropped(data.stores, data.residents, residentId), t, residentId),
                          SetCurrentStore(data.residents, residentId, Some(storeId)), data.missions))
  {
    var t := StoreIndex(data.stores, storeId);
    PreviousDroppedEverywhere(data, residentId);
    var after := Placed(data.stores, t, residentId);
    PlacedKeeps(data.stores, t, residentId);
    var residents := SetCurrentStore(data.residents, residentId, Some(storeId));
    var k := ResidentIndex(data.residents, residentId);
    forall j | 0 <= j < |residents| ensures residents[j].currentStore == CurrentStore(after, residents[j].id) {
      SetCurrentStoreSpec(data.residents, residentId, Some(storeId), j);
      if j == k {
        CurrentStoreUnique(after, residentId, t);
      } else {
        assert data.residents[j].id != residentId;
        PlacedOthers(data.stores, t, residentId, data.residents[j].id);
      }
    }
    forall i, j | 0 <= i < j < |residents| ensures residents[i].id != residents[j].id {
      SetCurrentStoreSpec(data.residents, residentId, Some(storeId), i);
      SetCurrentStoreSpec(data.residents, residentId, Some(storeId), j);
    }
  }

  /** With distinct ids, a resident is the first holder of its own id. */
  lemma ResidentIndexOwn(residents: seq<Resident>, j: nat)
    requires UniqueResidentIds(residents) && j < |residents|
    ensures ResidentIndex(residents, residents[j].id) == j
  {
    var i := ResidentIndex(residents, residents[j].id);
    assert i >= 0 && residents[i].id == residents[j].id;
  }

  /** Removing a store that does not list `y` leaves `y`'s current store as it was. */
  lemma RemoveAtCurrentStore(stores: seq<UserStore>, k: nat, y: string)
    requires SingleMembership(stores) && k < |stores| && y !in stores[k].residents
    ensures CurrentStore(RemoveAt(stores, k), y) == CurrentStore(stores, y)
  {
    var after := RemoveAt(stores, k);
    RemoveAtIndex(stores, k);
    RemoveStoreKeeps(stores, k);
    var c := CurrentStore(stores, y);
    if c.Some? {
      var q :| 0 <= q < |stores| && stores[q].storeId == c.value && y in stores[q].residents;
      CurrentStoreUnique(stores, y, q);
      var q' := if q < k then q else q - 1;
      assert after[q'] == stores[q];
      CurrentStoreUnique(after, y, q');
    } else {
      forall a | 0 <= a < |after| ensures y !in after[a].residents {
        assert after[a] == stores[if a < k then a else a + 1];
      }
    }
  }

  /** Removing the store that lists `y` leaves `y` in no store. */
  lemma RemoveAtHolderGone(stores: seq<UserStore>, k: nat, y: string)
    requires SingleMembership(stores) && k < |stores| && y in stores[k].residents
    ensures CurrentStore(RemoveAt(stores, k), y).None?
  {
    var after := RemoveAt(stores, k);
    RemoveAtIndex(stores, k);
    var a0 :| 0 <= a0 < |stores[k].residents| && stores[k].residents[a0] == y;
    forall a | 0 <= a < |after| ensures y !in after[a].residents {
      var s := if a < k then a else a + 1;
      assert after[a] == stores[s];
      forall b | 0 <= b < |stores[s].residents| ensures stores[s].residents[b] != y {
      }
    }
  }

  /** `removeStore` keeps the invariant: the residents it listed are left with no current store. */
  lemma RemoveStoreKeepsConsistent(data: UserData, storeId: string)
    requires Consistent(data) && HasStore(data.stores, storeId)
    ensures var k := StoreIndex(data.stores, storeId);
      Consistent(UserData(RemoveAt(data.stores, k), ClearedFor(data.residents, data.stores[k].residents), data.missions))
  {
    var stores := data.stores;
    var k := StoreIndex(stores, storeId);
    var after := RemoveAt(stores, k);
    var residents := ClearedFor(data.residents, stores[k].residents);
    RemoveAtIndex(stores, k);
    RemoveStoreKeeps(stores, k);
    RemoveStoreGone(stores, storeId);
    forall a | 0 <= a < |after| ensures after[a].storeId != [] {
      assert after[a] == stores[if a < k then a else a + 1];
    }
    forall j | 0 <= j < |residents| ensures residents[j].id == data.residents[j].id {
      ClearedForKeeps(data.residents, stores[k].residents, j);
    }
    forall j | 0 <= j < |residents| ensures residents[j].currentStore == CurrentStore(after, residents[j].id) {
      var y := data.residents[j].id;
      ClearedForSpec(data.residents, stores[k].residents, j);
      ResidentIndexOwn(data.residents, j);
      if y in stores[k].residents {
        RemoveAtHolderGone(stores, k, y);
      } else {
        RemoveAtCurrentStore(stores, k, y);
      }
    }
  }

  /** `removeResidentFromStore` keeps the invariant: the resident is then in no store and has no current store. */
  lemma RemoveResidentFromStoreKeeps(data: UserData, storeId: string, residentId: string)
    requires Consistent(data)
    requires var t := StoreIndex(data.stores, storeId); t >= 0 && residentId in data.stores[t].residents
    ensures var t := StoreIndex(data.stores, storeId);
      var after := DropResidentAt(data.stores, t, residentId);
      Consistent(UserData(after, SetCurrentStore(data.residents, residentId, None), data.missions))
      && forall s :: 0 <= s < |after| ==> residentId !in after[s].residents
  {
    var stores := data.stores;
    var t := StoreIndex(stores, storeId);
    DropOnlyHolder(stores, residentId, t);
    DropEverywhereSpec(stores, residentId);
    var after := DropResidentAt(stores, t, residentId);
    var residents := SetCurrentStore(data.residents, residentId, None);
    forall j | 0 <= j < |residents| ensures residents[j].currentStore == CurrentStore(after, residents[j].id) {
      SetCurrentStoreSpec(data.residents, residentId, None, j);
      var y := data.residents[j].id;
      if y != residentId {
        forall s | 0 <= s < |stores|
          ensures after[s].storeId == stores[s].storeId && (y in after[s].residents <==> y in stores[s].residents)
        {
          RemoveFirstOthers(stores[s].residents, residentId, y);
        }
        CurrentStoreSame(after, stores, y);
        ResidentIndexOwn(data.residents, j);
      } else {
        ResidentIndexOwn(data.residents, j);
      }
    }
    forall i, j | 0 <= i < j < |residents| ensures residents[i].id != residents[j].id {
      SetCurrentStoreSpec(data.residents, residentId, None, i);
      SetCurrentStoreSpec(data.residents, residentId, None, j);
    }
  }

  // ---------------------------------------------------------------------
  // The `userStores` view
  // ---------------------------------------------------------------------

  /** `{ ...us, store }`: a built store with its catalogue entry. */
  datatype StoreView = StoreView(entry: UserStore, store: Store)

  /** `allStores.find(s => s.id === us.storeId)` */
  function CatalogueStore(catalogue: seq<Store>, storeId: string): (r: Option<Store>)
    ensures r.None? <==> forall k :: 0 <= k < |catalogue| ==> catalogue[k].id != storeId
    ensures r.Some? ==> r.value in catalogue && r.value.id == storeId
  {
    Find(catalogue, (s: Store) => s.id == storeId)
  }

  function StoreViewOf(catalogue: seq<Store>, us: UserStore): Option<StoreView>
  {
    var s := CatalogueStore(catalogue, us.storeId);
    if s.None? then None else Some(StoreView(us, s.value))
  }

  /** `userStores`: each built store with its catalogue entry, those the catalogue does not know dropped. */
  function UserStoreViews(stores: seq<UserStore>, catalogue: seq<Store>): seq<StoreView>
  {
    Collect(stores, (us: UserStore) => StoreViewOf(catalogue, us))
  }

  /**
   * A view pairs one of the user's stores with the first catalogue store of
   * that id; a store the catalogue does not know is not listed.
   */
  lemma UserStoreViewsSpec(stores: seq<UserStore>, catalogue: seq<Store>, v: StoreView)
    ensures v in UserStoreViews(stores, catalogue) <==>
      v.entry in stores && CatalogueStore(catalogue, v.entry.storeId) == Some(v.store)
    ensures v in UserStoreViews(stores, catalogue) ==> v.store in catalogue && v.store.id == v.entry.storeId
    ensures |UserStoreViews(stores, catalogue)| <= |stores|
  {
    var f := (us: UserStore) => StoreViewOf(catalogue, us);
    CollectMembers(stores, f, v);
    CollectSpec(stores, f);
    if v.entry in stores && CatalogueStore(catalogue, v.entry.storeId) == Some(v.store) {
      var j :| 0 <= j < |stores| && stores[j] == v.entry;
      assert f(stores[j]) == Some(v);
    }
  }
}
