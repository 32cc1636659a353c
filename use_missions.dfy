/**
 * The views of the older `useMissions` composable: the user's missions
 * joined with the mission catalogue, split by status, and checked against
 * the stores the user has built. Its add, mark and remove operations are
 * the application store's (`AppStore.AppData`).
 */
module UseMissions {
  import opened Wrappers
  import opened Seqs
  import opened Types
  import MissionMatcher

  /** `{ ...um, mission }`: a user mission with its catalogue entry. */
  datatype MissionView = MissionView(entry: UserMission, mission: Mission)

  /** `allMissions.find(m => m.id === missionId)` */
  function CatalogueMission(catalogue: seq<Mission>, missionId: string): (r: Option<Mission>)
    ensures r.None? <==> forall k :: 0 <= k < |catalogue| ==> catalogue[k].id != missionId
    ensures r.Some? ==> r.value in catalogue && r.value.id == missionId
  {
    Find(catalogue, (m: Mission) => m.id == missionId)
  }

  function ViewOf(catalogue: seq<Mission>, um: UserMission): Option<MissionView>
  {
    var m := CatalogueMission(catalogue, um.missionId);
    if m.None? then None else Some(MissionView(um, m.value))
  }

  /** `userMissions`: each user mission with its catalogue entry, those without one dropped. */
  function UserMissions(missions: seq<UserMission>, catalogue: seq<Mission>): seq<MissionView>
  {
    Collect(missions, (um: UserMission) => ViewOf(catalogue, um))
  }

  /** A view pairs one of the user's missions with the catalogue mission of that id; nothing else is listed. */
  lemma UserMissionsSpec(missions: seq<UserMission>, catalogue: seq<Mission>, v: MissionView)
    ensures v in UserMissions(missions, catalogue) <==>
      v.entry in missions && CatalogueMission(catalogue, v.entry.missionId) == Some(v.mission)
    ensures v in UserMissions(missions, catalogue) ==> v.mission in catalogue && v.mission.id == v.entry.missionId
    ensures |UserMissions(missions, catalogue)| <= |missions|
  {
    var f := (um: UserMission) => ViewOf(catalogue, um);
    CollectMembers(missions, f, v);
    CollectSpec(missions, f);
    if v.entry in missions && CatalogueMission(catalogue, v.entry.missionId) == Some(v.mission) {
      var j :| 0 <= j < |missions| && missions[j] == v.entry;
      assert f(missions[j]) == Some(v);
    }
  }

  /** A user mission whose id the catalogue does not know has no view. */
  lemma UnknownMissionHidden(missions: seq<UserMission>, catalogue: seq<Mission>, v: MissionView)
    requires forall k :: 0 <= k < |catalogue| ==> catalogue[k].id != v.entry.missionId
    ensures v !in UserMissions(missions, catalogue)
  {
    UserMissionsSpec(missions, catalogue, v);
  }

  /** `pendingMissions` */
  function PendingMissions(views: seq<MissionView>): seq<MissionView>
  {
    Filter(views, (v: MissionView) => v.entry.status == Pending)
  }

  /** `completedMissions` */
  function CompletedMissions(views: seq<MissionView>): seq<MissionView>
  {
    Filter(views, (v: MissionView) => v.entry.status == Completed)
  }

  /** The pending and completed views split the list by status, each view landing in exactly one. */
  lemma StatusPartition(views: seq<MissionView>, v: MissionView)
    ensures multiset(PendingMissions(views)) + multiset(CompletedMissions(views)) == multiset(views)
    ensures v in PendingMissions(views) <==> v in views && v.entry.status == Pending
    ensures v in CompletedMissions(views) <==> v in views && v.entry.status == Completed
  {
    var p := (x: MissionView) => x.entry.status == Pending;
    var q := (x: MissionView) => x.entry.status == Completed;
    FilterTwoWay(views, p, q);
    FilterMembers(views, p, v);
    FilterMembers(views, q, v);
  }

  /** `storesArray`: the store catalogue, or none when it was not given. */
  function StoresArray(allStores: Option<seq<Store>>): seq<Store>
  {
    if allStores.None? then [] else allStores.value
  }

  /** The catalogue missions of the pending views. */
  function PendingCatalogue(missions: seq<UserMission>, catalogue: seq<Mission>): seq<Mission>
  {
    MapSeq(PendingMissions(UserMissions(missions, catalogue)), (v: MissionView) => v.mission)
  }

  /** `completableMissions` */
  function CompletableMissions(missions: seq<UserMission>, catalogue: seq<Mission>,
                               userStores: Option<seq<UserStore>>, allStores: Option<seq<Store>>): seq<Mission>
  {
    var stores := StoresArray(allStores);
    if userStores.None? || |stores| == 0 then []
    else MissionMatcher.GetCompletableMissions(PendingCatalogue(missions, catalogue), userStores.value, stores)
  }

  /**
   * Nothing is completable without the user's stores or with an empty store
   * catalogue; otherwise exactly the pending catalogue missions the built
   * stores can complete.
   */
  lemma CompletableMissionsSpec(missions: seq<UserMission>, catalogue: seq<Mission>,
                                userStores: Option<seq<UserStore>>, allStores: Option<seq<Store>>, m: Mission)
    ensures userStores.None? || StoresArray(allStores) == [] ==>
      CompletableMissions(missions, catalogue, userStores, allStores) == []
    ensures userStores.Some? && StoresArray(allStores) != [] ==>
      (m in CompletableMissions(missions, catalogue, userStores, allStores) <==>
         (exists um :: um in missions && um.status == Pending && CatalogueMission(catalogue, um.missionId) == Some(m))
         && MissionMatcher.CanCompleteMission(m, userStores.value, StoresArray(allStores)))
  {
    if userStores.Some? && StoresArray(allStores) != [] {
      var views := UserMissions(missions, catalogue);
      var pending := PendingMissions(views);
      MissionMatcher.GetCompletableMissionsSpec(PendingCatalogue(missions, catalogue), userStores.value, StoresArray(allStores), m);
      MapSeqMember(pending, (v: MissionView) => v.mission, m);
      if exists um :: um in missions && um.status == Pending && CatalogueMission(catalogue, um.missionId) == Some(m) {
        var um :| um in missions && um.status == Pending && CatalogueMission(catalogue, um.missionId) == Some(m);
        UserMissionsSpec(missions, catalogue, MissionView(um, m));
        StatusPartition(views, MissionView(um, m));
      }
      if exists v :: v in pending && v.mission == m {
        var v :| v in pending && v.mission == m;
        StatusPartition(views, v);
        UserMissionsSpec(missions, catalogue, v);
      }
    }
  }

  /** `isMissionCompletable` */
  function IsMissionCompletable(missionId: string, catalogue: seq<Mission>,
                                userStores: Option<seq<UserStore>>, allStores: Option<seq<Store>>): bool
  {
    var mission := CatalogueMission(catalogue, missionId);
    if mission.None? || userStores.None? || |StoresArray(allStores)| == 0 then false
    else MissionMatcher.CanCompleteMission(mission.value, userStores.value, StoresArray(allStores))
  }

  /**
   * An unknown mission is never completable, and for a pending mission of
   * the user the check agrees with the completable list.
   */
  lemma IsMissionCompletableSpec(missions: seq<UserMission>, catalogue: seq<Mission>,
                                 userStores: Option<seq<UserStore>>, allStores: Option<seq<Store>>, missionId: string)
    ensures (forall k :: 0 <= k < |catalogue| ==> catalogue[k].id != missionId) ==>
      !IsMissionCompletable(missionId, catalogue, userStores, allStores)
    ensures forall um :: um in missions && um.missionId == missionId && um.status == Pending
                         && CatalogueMission(catalogue, missionId).Some? ==>
      (IsMissionCompletable(missionId, catalogue, userStores, allStores) <==>
       CatalogueMission(catalogue, missionId).value in CompletableMissions(missions, catalogue, userStores, allStores))
  {
    var mission := CatalogueMission(catalogue, missionId);
    if mission.Some? {
      CompletableMissionsSpec(missions, catalogue, userStores, allStores, mission.value);
    }
  }
}
