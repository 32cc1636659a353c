/**
 * The older `useResidents` composable: residents are added without
 * validation under an id the caller supplies, and a resident's store is
 * found through its own `currentStore` field.
 */
module UseResidents {
  import opened Wrappers
  import opened Seqs
  import opened Types
  import opened StateOps
  import AppStore
  import opened UseStores
  import ImportTypes

  /** `addResident`, with the generated id passed in: one resident is appended and its id returned. */
  method AddResident(d: AppStore.AppData, id: string, name: string, dreamJob: string) returns (r: string)
    modifies d
    ensures r == id
    ensures d.residents == old(d.residents) + [Resident(id, name, dreamJob, None)]
    ensures d.stores == old(d.stores) && d.missions == old(d.missions)
  {
    d.residents := d.residents + [Resident(id, name, dreamJob, None)];
    r := id;
  }

  /** `removeResident`: the id leaves only the list of the store its `currentStore` names. */
  method RemoveResident(d: AppStore.AppData, residentId: string) returns (removed: bool)
    modifies d
    ensures removed <==> HasResident(old(d.residents), residentId)
    ensures !removed ==> d.Value() == old(d.Value())
    ensures removed ==>
      d.stores == PreviousDropped(old(d.stores), old(d.residents), residentId)
      && d.residents == RemoveAt(old(d.residents), ResidentIndex(old(d.residents), residentId))
      && d.missions == old(d.missions)
  {
    var index := ResidentIndex(d.residents, residentId);
    if index == -1 {
      return false;
    }
    var resident := d.residents[index];
    if ImportTypes.Truthy(resident.currentStore) {
      var t := StoreIndex(d.stores, resident.currentStore.value);
      if t != -1 {
        d.stores := DropResidentAt(d.stores, t, residentId);
      }
    }
    d.residents := RemoveAt(d.residents, index);
    removed := true;
  }

  /** `updateResident`: `Object.assign` on the first match, with no name check. */
  method UpdateResident(d: AppStore.AppData, residentId: string, updates: AppStore.ResidentUpdate) returns (found: bool)
    modifies d
    ensures found <==> HasResident(old(d.residents), residentId)
    ensures var k := ResidentIndex(old(d.residents), residentId);
      d.residents == if found then old(d.residents)[k := AppStore.Assign(old(d.residents)[k], updates)] else old(d.residents)
    ensures d.stores == old(d.stores) && d.missions == old(d.missions)
  {
    var k := ResidentIndex(d.residents, residentId);
    if k == -1 {
      return false;
    }
    d.residents := d.residents[k := AppStore.Assign(d.residents[k], updates)];
    found := true;
  }

  /** `!r.currentStore || r.currentStore !== r.dreamJob` */
  predicate NotInDreamJob(r: Resident)
  {
    !ImportTypes.Truthy(r.currentStore) || r.currentStore.value != r.dreamJob
  }

  /** `getResidentsNotInDreamJob`, read off each resident's own field. */
  function ResidentsNotInDreamJob(residents: seq<Resident>): seq<Resident>
  {
    Filter(residents, NotInDreamJob)
  }

  /** Exactly the residents with no current store or one other than their dream job, in order. */
  lemma ResidentsNotInDreamJobSpec(residents: seq<Resident>, r: Resident)
    ensures r in ResidentsNotInDreamJob(residents) <==>
      r in residents && (r.currentStore.None? || r.currentStore.value == [] || r.currentStore != Some(r.dreamJob))
    ensures Subsequence(ResidentsNotInDreamJob(residents), residents)
  {
    FilterMembers(residents, NotInDreamJob, r);
    FilterSubsequence(residents, NotInDreamJob);
  }

  /**
   * While the composable invariant holds, reading `currentStore` gives the
   * same list as the application store's search through the store lists.
   */
  lemma NotInDreamJobAgrees(data: UserData)
    requires Consistent(data)
    ensures ResidentsNotInDreamJob(data.residents) == AppStore.ResidentsNotInDreamJob(data)
  {
    var p := (r: Resident) => AppStore.NotInDreamJob(data.stores, r);
    forall k | 0 <= k < |data.residents| ensures NotInDreamJob(data.residents[k]) == p(data.residents[k]) {
      assert data.residents[k].currentStore == AppStore.CurrentStore(data.stores, data.residents[k].id);
    }
    FilterSame(data.residents, NotInDreamJob, p);
  }

  // ---------------------------------------------------------------------
  // The invariant
  // ---------------------------------------------------------------------

  /** Adding a resident under an id no resident and no store list uses keeps the invariant. */
  lemma AddResidentKeeps(data: UserData, id: string, name: string, dreamJob: string)
    requires Consistent(data) && !HasResident(data.residents, id)
    requires forall s :: 0 <= s < |data.stores| ==> id !in data.stores[s].residents
    ensures Consistent(UserData(data.stores, data.residents + [Resident(id, name, dreamJob, None)], data.missions))
  {
    var residents := data.residents + [Resident(id, name, dreamJob, None)];
    assert forall k :: 0 <= k < |data.residents| ==> residents[k] == data.residents[k];
  }

  /**
   * Under the invariant, `removeResident` takes the id out of every store
   * list, and the invariant still holds afterwards.
   */
  lemma RemoveResidentKeeps(data: UserData, residentId: string)
    requires Consistent(data) && HasResident(data.residents, residentId)
    ensures var stores := PreviousDropped(data.stores, data.residents, residentId);
      var k := ResidentIndex(data.residents, residentId);
      stores == DropResidentEverywhere(data.stores, residentId)
      && (forall s :: 0 <= s < |stores| ==> residentId !in stores[s].residents)
      && Consistent(UserData(stores, RemoveAt(data.residents, k), data.missions))
  {
    PreviousDroppedEverywhere(data, residentId);
    DropEverywhereSpec(data.stores, residentId);
    var stores := DropResidentEverywhere(data.stores, residentId);
    var k := ResidentIndex(data.residents, residentId);
    var residents := RemoveAt(data.residents, k);
    RemoveAtIndex(data.residents, k);
    forall j | 0 <= j < |residents| ensures residents[j].currentStore == AppStore.CurrentStore(stores, residents[j].id) {
      var j0 := if j < k then j else j + 1;
      assert residents[j] == data.residents[j0];
      var y := data.residents[j0].id;
      assert y != residentId;
      forall s | 0 <= s < |stores|
        ensures stores[s].storeId == data.stores[s].storeId && (y in stores[s].residents <==> y in data.stores[s].residents)
      {
        RemoveFirstOthers(data.stores[s].residents, residentId, y);
      }
      AppStore.CurrentStoreSame(stores, data.stores, y);
    }
    forall i, j | 0 <= i < j < |residents| ensures residents[i].id != residents[j].id {
      assert residents[i] == data.residents[if i < k then i else i + 1];
      assert residents[j] == data.residents[if j < k then j else j + 1];
    }
    forall a | 0 <= a < |stores| ensures stores[a].storeId != [] {
      assert stores[a].storeId == data.stores[a].storeId;
    }
    forall a, b | 0 <= a < b < |stores| ensures stores[a].storeId != stores[b].storeId {
      assert stores[a].storeId == data.stores[a].storeId && stores[b].storeId == data.stores[b].storeId;
    }
  }

  /** An update that gives neither an id nor a current store keeps the invariant. */
  lemma UpdateResidentKeeps(data: UserData, residentId: string, updates: AppStore.ResidentUpdate)
    requires Consistent(data) && HasResident(data.residents, residentId)
    requires updates.id.None? && updates.currentStore.None?
    ensures var k := ResidentIndex(data.residents, residentId);
      Consistent(UserData(data.stores, data.residents[k := AppStore.Assign(data.residents[k], updates)], data.missions))
  {
    var k := ResidentIndex(data.residents, residentId);
    var residents := data.residents[k := AppStore.Assign(data.residents[k], updates)];
    forall j | 0 <= j < |residents|
      ensures residents[j].id == data.residents[j].id && residents[j].currentStore == data.residents[j].currentStore
    {
    }
    forall j | 0 <= j < |residents| ensures residents[j].currentStore == AppStore.CurrentStore(data.stores, residents[j].id) {
      assert data.residents[j].currentStore == AppStore.CurrentStore(data.stores, data.residents[j].id);
    }
    forall i, j | 0 <= i < j < |residents| ensures residents[i].id != residents[j].id {
      assert data.residents[i].id != data.residents[j].id;
    }
  }
}
