/**
 * Which missions the user can complete with the stores they have built.
 * A requirement names a product and a store by its display name; it is met
 * when the FIRST catalogue store of that name has been built and sells the
 * product. The quantity is never consulted.
 */
module MissionMatcher {
  import opened Wrappers
  import opened Seqs
  import opened Types

  /** The ids of the stores the user has built (`new Set(userStores.map(us => us.storeId))`). */
  function BuiltStoreIds(userStores: seq<UserStore>): (r: set<string>)
    ensures forall id :: id in r <==> exists u :: u in userStores && u.storeId == id
  {
    set u | u in userStores :: u.storeId
  }

  /** The first catalogue store carrying the requirement's store name. */
  function StoreNamed(allStores: seq<Store>, name: string): Option<Store>
  {
    Find(allStores, (s: Store) => s.name == name)
  }

  /** One requirement of `every`: the named store exists, is built and sells the product. */
  predicate RequirementMet(req: MissionRequirement, built: set<string>, allStores: seq<Store>)
  {
    var store := StoreNamed(allStores, req.store);
    store.Some? && store.value.id in built && req.product in store.value.products
  }

  /** `canCompleteMission` */
  predicate CanCompleteMission(mission: Mission, userStores: seq<UserStore>, allStores: seq<Store>)
  {
    var built := BuiltStoreIds(userStores);
    forall k :: 0 <= k < |mission.requirements| ==> RequirementMet(mission.requirements[k], built, allStores)
  }

  /** Store `j` is the first in the catalogue named `name`. */
  predicate FirstNamed(allStores: seq<Store>, name: string, j: int)
  {
    0 <= j < |allStores| && allStores[j].name == name
    && forall i :: 0 <= i < j ==> allStores[i].name != name
  }

  /** The requirement is served by the first store of its name, built and selling the product. */
  ghost predicate Served(req: MissionRequirement, userStores: seq<UserStore>, allStores: seq<Store>)
  {
    exists j :: FirstNamed(allStores, req.store, j)
      && (exists u :: u in userStores && u.storeId == allStores[j].id)
      && req.product in allStores[j].products
  }

  lemma RequirementMetIff(req: MissionRequirement, userStores: seq<UserStore>, allStores: seq<Store>)
    ensures RequirementMet(req, BuiltStoreIds(userStores), allStores) <==> Served(req, userStores, allStores)
  {
    var store := StoreNamed(allStores, req.store);
    if Served(req, userStores, allStores) {
      var j :| FirstNamed(allStores, req.store, j)
        && (exists u :: u in userStores && u.storeId == allStores[j].id)
        && req.product in allStores[j].products;
      FindIndexAt(allStores, (s: Store) => s.name == req.store, j);
      assert store == Some(allStores[j]);
    }
    if store.Some? {
      var k :| 0 <= k < |allStores| && allStores[k] == store.value && allStores[k].name == req.store
        && forall i :: 0 <= i < k ==> allStores[i].name != req.store;
      assert FirstNamed(allStores, req.store, k);
    }
  }

  /**
   * A mission can be completed exactly when each of its requirements is
   * served by the first store of its name; in particular a mission without
   * requirements always can.
   */
  lemma CanCompleteMissionIff(mission: Mission, userStores: seq<UserStore>, allStores: seq<Store>)
    ensures CanCompleteMission(mission, userStores, allStores)
        <==> forall k :: 0 <= k < |mission.requirements| ==> Served(mission.requirements[k], userStores, allStores)
    ensures mission.requirements == [] ==> CanCompleteMission(mission, userStores, allStores)
  {
    forall k | 0 <= k < |mission.requirements| {
      RequirementMetIff(mission.requirements[k], userStores, allStores);
    }
  }

  /** A requirement naming a store absent from the catalogue can never be met. */
  lemma UnknownStoreBlocks(mission: Mission, userStores: seq<UserStore>, allStores: seq<Store>, k: nat)
    requires k < |mission.requirements|
    requires forall s :: s in allStores ==> s.name != mission.requirements[k].store
    ensures !CanCompleteMission(mission, userStores, allStores)
  {
    var req := mission.requirements[k];
    assert forall i :: 0 <= i < |allStores| ==> allStores[i] in allStores;
    assert StoreNamed(allStores, req.store).None?;
    assert !RequirementMet(req, BuiltStoreIds(userStores), allStores);
  }

  /** A requirement whose store is built but does not sell the product can never be met. */
  lemma ProductNotSoldBlocks(mission: Mission, userStores: seq<UserStore>, allStores: seq<Store>, k: nat, j: nat)
    requires k < |mission.requirements|
    requires FirstNamed(allStores, mission.requirements[k].store, j)
    requires mission.requirements[k].product !in allStores[j].products
    ensures !CanCompleteMission(mission, userStores, allStores)
  {
    var req := mission.requirements[k];
    FindIndexAt(allStores, (s: Store) => s.name == req.store, j);
    assert StoreNamed(allStores, req.store) == Some(allStores[j]);
    assert !RequirementMet(req, BuiltStoreIds(userStores), allStores);
  }

  /** Two missions whose requirements differ only in quantities (or in anything but product and store). */
  predicate SameNeeds(a: Mission, b: Mission)
  {
    |a.requirements| == |b.requirements|
    && forall k :: 0 <= k < |a.requirements| ==>
         a.requirements[k].product == b.requirements[k].product && a.requirements[k].store == b.requirements[k].store
  }

  /** The required quantity is never consulted. */
  lemma QuantityIgnored(a: Mission, b: Mission, userStores: seq<UserStore>, allStores: seq<Store>)
    requires SameNeeds(a, b)
    ensures CanCompleteMission(a, userStores, allStores) == CanCompleteMission(b, userStores, allStores)
  {
    var built := BuiltStoreIds(userStores);
    forall k | 0 <= k < |a.requirements|
      ensures RequirementMet(a.requirements[k], built, allStores) == RequirementMet(b.requirements[k], built, allStores)
    {
      assert a.requirements[k].store == b.requirements[k].store;
    }
  }

  /** Building more stores never makes a completable mission incompletable. */
  lemma MoreStoresStillComplete(mission: Mission, userStores: seq<UserStore>, more: seq<UserStore>, allStores: seq<Store>)
    requires CanCompleteMission(mission, userStores, allStores)
    ensures CanCompleteMission(mission, userStores + more, allStores)
  {
    var built := BuiltStoreIds(userStores);
    var built2 := BuiltStoreIds(userStores + more);
    assert built <= built2 by {
      forall id | id in built ensures id in built2 {
        var u :| u in userStores && u.storeId == id;
        assert u in userStores + more;
      }
    }
    forall k | 0 <= k < |mission.requirements| ensures RequirementMet(mission.requirements[k], built2, allStores) {
      assert RequirementMet(mission.requirements[k], built, allStores);
    }
  }

  /** `getCompletableMissions` */
  function GetCompletableMissions(missions: seq<Mission>, userStores: seq<UserStore>, allStores: seq<Store>): seq<Mission>
  {
    Filter(missions, (m: Mission) => CanCompleteMission(m, userStores, allStores))
  }

  /** The completable missions, in their original order and nothing else. */
  lemma GetCompletableMissionsSpec(missions: seq<Mission>, userStores: seq<UserStore>, allStores: seq<Store>, m: Mission)
    ensures m in GetCompletableMissions(missions, userStores, allStores)
        <==> m in missions && CanCompleteMission(m, userStores, allStores)
    ensures Subsequence(GetCompletableMissions(missions, userStores, allStores), missions)
  {
    FilterMembers(missions, (m: Mission) => CanCompleteMission(m, userStores, allStores), m);
    FilterSubsequence(missions, (m: Mission) => CanCompleteMission(m, userStores, allStores));
  }

  /** `mission.requirements.some(req => req.store === name)` */
  predicate Mentions(mission: Mission, name: string)
  {
    exists k :: 0 <= k < |mission.requirements| && mission.requirements[k].store == name
  }

  /** `getMissionsForNewStore` */
  function GetMissionsForNewStore(newStoreId: string, missions: seq<Mission>, userStores: seq<UserStore>,
                                  allStores: seq<Store>): seq<Mission>
  {
    var newStore := Find(allStores, (s: Store) => s.id == newStoreId);
    if newStore.None? then []
    else
      var relevant := Filter(missions, (m: Mission) => Mentions(m, newStore.value.name));
      Filter(relevant, (m: Mission) => CanCompleteMission(m, userStores, allStores))
  }

  /** An id missing from the catalogue yields no missions. */
  lemma NewStoreUnknown(newStoreId: string, missions: seq<Mission>, userStores: seq<UserStore>, allStores: seq<Store>)
    requires forall s :: s in allStores ==> s.id != newStoreId
    ensures GetMissionsForNewStore(newStoreId, missions, userStores, allStores) == []
  {
    assert forall i :: 0 <= i < |allStores| ==> allStores[i] in allStores;
  }

  /**
   * For a catalogue store `j` (the first with the given id) the result is
   * the missions, in order, that mention that store's name and are completable.
   */
  lemma NewStoreMissions(newStoreId: string, missions: seq<Mission>, userStores: seq<UserStore>,
                         allStores: seq<Store>, j: nat, m: Mission)
    requires j < |allStores| && allStores[j].id == newStoreId
    requires forall i :: 0 <= i < j ==> allStores[i].id != newStoreId
    ensures m in GetMissionsForNewStore(newStoreId, missions, userStores, allStores)
        <==> m in missions && Mentions(m, allStores[j].name) && CanCompleteMission(m, userStores, allStores)
    ensures Subsequence(GetMissionsForNewStore(newStoreId, missions, userStores, allStores), missions)
  {
    FindIndexAt(allStores, (s: Store) => s.id == newStoreId, j);
    var name := allStores[j].name;
    var mentions := (x: Mission) => Mentions(x, name);
    var completable := (x: Mission) => CanCompleteMission(x, userStores, allStores);
    var relevant := Filter(missions, mentions);
    assert GetMissionsForNewStore(newStoreId, missions, userStores, allStores) == Filter(relevant, completable);
    FilterMembers(missions, mentions, m);
    FilterMembers(relevant, completable, m);
    FilterSubsequence(missions, mentions);
    FilterSubsequence(relevant, completable);
    SubsequenceTrans(Filter(relevant, completable), relevant, missions);
  }
}
