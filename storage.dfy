/**
 * The compact device-sync form of the user's data: lookup tables for store
 * and mission ids, numeric resident ids, delta-encoded mission times, and
 * the decoders for that form and for the two older sync formats.
 *
 * Compression, base64, JSON text and the schema validation that follows
 * decoding are not part of this model; an index that falls outside its
 * table (which the validation would reject) makes decoding fail.
 */
module Storage {
  import opened Wrappers
  import opened Seqs
  import opened Strings
  import opened Types

  // ---------------------------------------------------------------------
  // Decimal numbers
  // ---------------------------------------------------------------------

  predicate AllDigits(s: string)
  {
    forall i :: 0 <= i < |s| ==> IsDigit(s[i])
  }

  function DigitValue(c: char): nat
    requires IsDigit(c)
  {
    c as int - '0' as int
  }

  /** `parseInt(s, 10)` of a string of decimal digits. */
  function DecimalValue(s: string): nat
    requires AllDigits(s)
  {
    if s == [] then 0 else 10 * DecimalValue(s[..|s| - 1]) + DigitValue(s[|s| - 1])
  }

  function DigitChar(d: nat): (c: char)
    requires d < 10
    ensures IsDigit(c) && DigitValue(c) == d
  {
    ('0' as int + d) as char
  }

  /** `String(n)` for a natural number: decimal digits without leading zeros. */
  function NatToString(n: nat): (r: string)
    ensures r != [] && AllDigits(r)
  {
    if n < 10 then [DigitChar(n)] else NatToString(n / 10) + [DigitChar(n % 10)]
  }

  /** `String(i)` */
  function IntToString(i: int): string
  {
    if i < 0 then "-" + NatToString(-i) else NatToString(i)
  }

  lemma {:induction false} DecimalRoundTrip(n: nat)
    ensures DecimalValue(NatToString(n)) == n
  {
    if n >= 10 {
      DecimalRoundTrip(n / 10);
      var s := NatToString(n);
      assert s[..|s| - 1] == NatToString(n / 10);
    }
  }

  /** The maximal run of digits at the front of `s`. */
  function LeadingDigits(s: string): (r: string)
    ensures |r| <= |s| && r == s[..|r|] && AllDigits(r)
    ensures |r| == |s| || !IsDigit(s[|r|])
  {
    if s != [] && IsDigit(s[0]) then [s[0]] + LeadingDigits(s[1..]) else []
  }

  lemma {:induction false} LeadingDigitsOf(t: string, q: string)
    requires AllDigits(t)
    requires q == [] || !IsDigit(q[0])
    ensures LeadingDigits(t + q) == t
  {
    if t != [] {
      assert (t + q)[1..] == t[1..] + q;
      LeadingDigitsOf(t[1..], q);
    } else {
      assert t + q == q;
    }
  }

  /** `residentIdToNumber`: the value of the first run of digits (`/\d+/`), or 0 without digits. */
  function ResidentIdToNumber(id: string): nat
  {
    var start := FindIndex(id, IsDigit);
    if start < 0 then 0 else DecimalValue(LeadingDigits(id[start..]))
  }

  /** A number between a digit-free prefix and a suffix that does not continue it is what is read. */
  lemma ResidentIdToNumberOf(p: string, n: nat, q: string)
    requires forall i :: 0 <= i < |p| ==> !IsDigit(p[i])
    requires q == [] || !IsDigit(q[0])
    ensures ResidentIdToNumber(p + NatToString(n) + q) == n
  {
    var t := NatToString(n);
    var tq := t + q;
    var id := p + t + q;
    assert id == p + tq;
    assert id[|p|] == t[0];
    assert forall j :: 0 <= j < |p| ==> id[j] == p[j];
    FindIndexAt(id, IsDigit, |p|);
    assert id[|p|..] == tq;
    LeadingDigitsOf(t, q);
    DecimalRoundTrip(n);
  }

  /** Ids such as "res-12" and "12" both read as 12; a second conversion is the identity. */
  lemma ResidentIdExamples(n: nat)
    ensures ResidentIdToNumber("res-" + NatToString(n)) == n
    ensures ResidentIdToNumber(NatToString(n)) == n
  {
    ResidentIdToNumberOf("res-", n, "");
    assert "res-" + NatToString(n) + "" == "res-" + NatToString(n);
    ResidentIdToNumberOf("", n, "");
    assert "" + NatToString(n) + "" == NatToString(n);
  }

  /** An id without digits reads as 0. */
  lemma ResidentIdWithoutDigits(id: string)
    requires forall i :: 0 <= i < |id| ==> !IsDigit(id[i])
    ensures ResidentIdToNumber(id) == 0
  {
  }

  // ---------------------------------------------------------------------
  // Mission status
  // ---------------------------------------------------------------------

  /** `status === 'completed' ? 1 : 0` */
  function EncodeStatus(s: MissionStatus): int
  {
    if s == Completed then 1 else 0
  }

  /** `status === 1 ? 'completed' : 'pending'` */
  function DecodeStatus(n: int): MissionStatus
  {
    if n == 1 then Completed else Pending
  }

  lemma StatusCodec(s: MissionStatus, n: int)
    ensures DecodeStatus(EncodeStatus(s)) == s
    ensures DecodeStatus(n) == Completed <==> n == 1
    ensures EncodeStatus(s) == 1 <==> s == Completed
  {
  }

  // ---------------------------------------------------------------------
  // The three sync formats
  // ---------------------------------------------------------------------

  /** `[storeIndex, residentNumericIds]` */
  datatype MinStore = MinStore(storeIndex: int, residentNums: seq<int>)

  /** `[numericId, dreamJobIndex]` */
  datatype MinResident = MinResident(numId: int, dreamJobIndex: int)

  /** `[missionIndex, status, timeDelta]` (v3) or `[missionIndex, status, addedAt]` (v2). */
  datatype MinMission = MinMission(missionIndex: int, status: int, time: int)

  /** `[storeIndex, residentIds]` */
  datatype V2Store = V2Store(storeIndex: int, residents: seq<string>)

  /** `[id, name, dreamJobIndex]` */
  datatype V2Resident = V2Resident(id: string, name: string, dreamJobIndex: int)

  datatype V1Store = V1Store(i: string, r: seq<string>)

  datatype V1Resident = V1Resident(i: string, n: string, d: string)

  datatype V1Mission = V1Mission(i: string, s: int, a: int)

  /** v3 carries a base time `bt`; v2 has the tables but no base time; v1 has neither. */
  datatype SyncData =
    | V3(si: seq<string>, mi: seq<string>, bt: int, s: seq<MinStore>, r: seq<MinResident>, m: seq<MinMission>)
    | V2(si: seq<string>, mi: seq<string>, s2: seq<V2Store>, r2: seq<V2Resident>, m: seq<MinMission>)
    | V1(s1: seq<V1Store>, r1: seq<V1Resident>, m1: seq<V1Mission>)

  // ---------------------------------------------------------------------
  // minifyUserData
  // ---------------------------------------------------------------------

  /** `si`: store ids from the stores, then the residents' dream jobs, each once. */
  function StoreIdTable(data: UserData): seq<string>
  {
    Unique(MapSeq(data.stores, (s: UserStore) => s.storeId) + MapSeq(data.residents, (r: Resident) => r.dreamJob))
  }

  /** `mi` */
  function MissionIdTable(data: UserData): seq<string>
  {
    Unique(MapSeq(data.missions, (m: UserMission) => m.missionId))
  }

  /** `storeIdToIndex.get(x)` / `missionIdToIndex.get(x)` */
  function IndexIn(table: seq<string>, x: string): int
  {
    FirstIndexOf(table, x)
  }

  /** `bt`: the earliest `addedAt`, or 0 without missions. */
  function BaseTime(missions: seq<UserMission>): int
  {
    if |missions| > 0 then MinOf(MapSeq(missions, (m: UserMission) => m.addedAt)) else 0
  }

  function MinifyStore(si: seq<string>, s: UserStore): MinStore
  {
    MinStore(IndexIn(si, s.storeId), MapSeq(s.residents, ResidentIdToNumber))
  }

  function MinifyResident(si: seq<string>, r: Resident): MinResident
  {
    MinResident(ResidentIdToNumber(r.id), IndexIn(si, r.dreamJob))
  }

  /** A mission relative to base time `bt` (v2 writes `bt` = 0, that is, the time itself). */
  function MinifyMission(mi: seq<string>, bt: int, m: UserMission): MinMission
  {
    MinMission(IndexIn(mi, m.missionId), EncodeStatus(m.status), m.addedAt - bt)
  }

  /** `minifyUserData` */
  function Minify(data: UserData): SyncData
  {
    var si := StoreIdTable(data);
    var mi := MissionIdTable(data);
    var bt := BaseTime(data.missions);
    V3(si, mi, bt,
       MapSeq(data.stores, (s: UserStore) => MinifyStore(si, s)),
       MapSeq(data.residents, (r: Resident) => MinifyResident(si, r)),
       MapSeq(data.missions, (m: UserMission) => MinifyMission(mi, bt, m)))
  }

  /** The store table holds every store id and dream job, once each. */
  lemma StoreIdTableSpec(data: UserData, x: string)
    ensures x in StoreIdTable(data) <==>
      (exists k :: 0 <= k < |data.stores| && data.stores[k].storeId == x)
      || (exists k :: 0 <= k < |data.residents| && data.residents[k].dreamJob == x)
    ensures Distinct(StoreIdTable(data))
  {
    var a := MapSeq(data.stores, (s: UserStore) => s.storeId);
    var b := MapSeq(data.residents, (r: Resident) => r.dreamJob);
    UniqueMembers(a + b, x);
    UniqueSpec(a + b);
    assert x in a + b <==> x in a || x in b;
    if x in a {
      var k :| 0 <= k < |a| && a[k] == x;
    }
    if x in b {
      var k :| 0 <= k < |b| && b[k] == x;
    }
    assert forall k :: 0 <= k < |a| ==> a[k] in a;
    assert forall k :: 0 <= k < |b| ==> b[k] in b;
  }

  /** The mission table holds every mission id once, in order of first appearance. */
  lemma MissionIdTableSpec(data: UserData, x: string)
    ensures x in MissionIdTable(data) <==> exists k :: 0 <= k < |data.missions| && data.missions[k].missionId == x
    ensures Distinct(MissionIdTable(data))
    ensures forall i, j :: 0 <= i < j < |MissionIdTable(data)| ==>
      FirstIndexOf(MapSeq(data.missions, (m: UserMission) => m.missionId), MissionIdTable(data)[i])
      < FirstIndexOf(MapSeq(data.missions, (m: UserMission) => m.missionId), MissionIdTable(data)[j])
  {
    var a := MapSeq(data.missions, (m: UserMission) => m.missionId);
    UniqueMembers(a, x);
    UniqueSpec(a);
    if x in a {
      var k :| 0 <= k < |a| && a[k] == x;
    }
    assert forall k :: 0 <= k < |a| ==> a[k] in a;
  }

  lemma IdsInTables(data: UserData)
    ensures forall k :: 0 <= k < |data.stores| ==> data.stores[k].storeId in StoreIdTable(data)
    ensures forall k :: 0 <= k < |data.residents| ==> data.residents[k].dreamJob in StoreIdTable(data)
    ensures forall k :: 0 <= k < |data.missions| ==> data.missions[k].missionId in MissionIdTable(data)
  {
    forall k | 0 <= k < |data.stores| ensures data.stores[k].storeId in StoreIdTable(data) {
      StoreIdTableSpec(data, data.stores[k].storeId);
    }
    forall k | 0 <= k < |data.residents| ensures data.residents[k].dreamJob in StoreIdTable(data) {
      StoreIdTableSpec(data, data.residents[k].dreamJob);
    }
    forall k | 0 <= k < |data.missions| ensures data.missions[k].missionId in MissionIdTable(data) {
      MissionIdTableSpec(data, data.missions[k].missionId);
    }
  }

  /** The base time is the earliest mission time, so every encoded delta is non-negative. */
  lemma BaseTimeSpec(data: UserData)
    ensures forall k :: 0 <= k < |data.missions| ==> BaseTime(data.missions) <= data.missions[k].addedAt
    ensures |data.missions| > 0 ==> exists k :: 0 <= k < |data.missions| && BaseTime(data.missions) == data.missions[k].addedAt
    ensures |data.missions| == 0 ==> BaseTime(data.missions) == 0
    ensures forall k :: 0 <= k < |Minify(data).m| ==> Minify(data).m[k].time >= 0
  {
    var ts := MapSeq(data.missions, (m: UserMission) => m.addedAt);
    if |ts| > 0 {
      var bt := MinOf(ts);
      var k :| 0 <= k < |ts| && ts[k] == bt;
      assert data.missions[k].addedAt == bt;
    }
  }

  /** A looked-up id is found in its table, at a position holding it. */
  lemma IndexInFound(table: seq<string>, x: string)
    requires x in table
    ensures 0 <= IndexIn(table, x) < |table| && table[IndexIn(table, x)] == x
  {
  }

  /** Every index `minifyUserData` writes is inside its table and points back at the id it encodes. */
  lemma MinifyIndices(data: UserData)
    ensures forall k :: 0 <= k < |data.stores| ==>
      var i := Minify(data).s[k].storeIndex; 0 <= i < |StoreIdTable(data)| && StoreIdTable(data)[i] == data.stores[k].storeId
    ensures forall k :: 0 <= k < |data.residents| ==>
      var i := Minify(data).r[k].dreamJobIndex; 0 <= i < |StoreIdTable(data)| && StoreIdTable(data)[i] == data.residents[k].dreamJob
    ensures forall k :: 0 <= k < |data.missions| ==>
      var i := Minify(data).m[k].missionIndex; 0 <= i < |MissionIdTable(data)| && MissionIdTable(data)[i] == data.missions[k].missionId
  {
    IdsInTables(data);
  }


  // ---------------------------------------------------------------------
  // expandUserData
  // ---------------------------------------------------------------------

  /** `table[i]`, failing outside the table. */
  function At(table: seq<string>, i: int): Option<string>
  {
    if 0 <= i < |table| then Some(table[i]) else None
  }

  /** `Resident ${index + 1}` */
  function GeneratedName(index: nat): string
  {
    "Resident " + NatToString(index + 1)
  }

  function ExpandStore(si: seq<string>, ms: MinStore): Option<UserStore>
  {
    var id := At(si, ms.storeIndex);
    if id.None? then None else Some(UserStore(id.value, MapSeq(ms.residentNums, IntToString)))
  }

  function ExpandResident(si: seq<string>, mr: MinResident, index: nat): Option<Resident>
  {
    var dreamJob := At(si, mr.dreamJobIndex);
    if dreamJob.None? then None
    else Some(Resident(IntToString(mr.numId), GeneratedName(index), dreamJob.value, None))
  }

  /** A mission of v3 (`base` is `bt`, `time` a delta) or of v2 (`base` 0, `time` the time itself). */
  function ExpandMission(mi: seq<string>, base: int, mm: MinMission): Option<UserMission>
  {
    var id := At(mi, mm.missionIndex);
    if id.None? then None else Some(UserMission(id.value, DecodeStatus(mm.status), base + mm.time))
  }

  function ExpandV2Store(si: seq<string>, vs: V2Store): Option<UserStore>
  {
    var id := At(si, vs.storeIndex);
    if id.None? then None else Some(UserStore(id.value, vs.residents))
  }

  function ExpandV2Resident(si: seq<string>, vr: V2Resident): Option<Resident>
  {
    var dreamJob := At(si, vr.dreamJobIndex);
    if dreamJob.None? then None else Some(Resident(vr.id, vr.name, dreamJob.value, None))
  }

  function Assemble(stores: Option<seq<UserStore>>, residents: Option<seq<Resident>>,
                    missions: Option<seq<UserMission>>): Option<UserData>
  {
    if stores.Some? && residents.Some? && missions.Some? then Some(UserData(stores.value, residents.value, missions.value))
    else None
  }

  /** `expandUserData` */
  function ExpandUserData(d: SyncData): Option<UserData>
  {
    match d
    case V3(si, mi, bt, s, r, m) =>
      Assemble(AllSome(MapSeq(s, (ms: MinStore) => ExpandStore(si, ms))),
               AllSome(seq(|r|, k requires 0 <= k < |r| => ExpandResident(si, r[k], k))),
               AllSome(MapSeq(m, (mm: MinMission) => ExpandMission(mi, bt, mm))))
    case V2(si, mi, s2, r2, m) =>
      Assemble(AllSome(MapSeq(s2, (vs: V2Store) => ExpandV2Store(si, vs))),
               AllSome(MapSeq(r2, (vr: V2Resident) => ExpandV2Resident(si, vr))),
               AllSome(MapSeq(m, (mm: MinMission) => ExpandMission(mi, 0, mm))))
    case V1(s1, r1, m1) =>
      Some(UserData(MapSeq(s1, (vs: V1Store) => UserStore(vs.i, vs.r)),
                    MapSeq(r1, (vr: V1Resident) => Resident(vr.i, vr.n, vr.d, None)),
                    MapSeq(m1, (vm: V1Mission) => UserMission(vm.i, DecodeStatus(vm.s), vm.a))))
  }

  // ---------------------------------------------------------------------
  // The round trip
  // ---------------------------------------------------------------------

  /** A resident id after a round trip: `String(residentIdToNumber(id))`. */
  function SyncedId(id: string): string
  {
    NatToString(ResidentIdToNumber(id))
  }

  function SyncedStore(s: UserStore): UserStore
  {
    UserStore(s.storeId, MapSeq(s.residents, SyncedId))
  }

  function SyncedResident(r: Resident, index: nat): Resident
  {
    Resident(SyncedId(r.id), GeneratedName(index), r.dreamJob, None)
  }

  /**
   * The data a sync round trip yields: store ids, dream jobs and missions
   * as they were; resident ids (also inside the stores) in numeric form;
   * names regenerated from positions; current stores dropped.
   */
  function Synced(data: UserData): UserData
  {
    UserData(
      MapSeq(data.stores, SyncedStore),
      seq(|data.residents|, k requires 0 <= k < |data.residents| => SyncedResident(data.residents[k], k)),
      data.missions)
  }

  lemma IntToStringNat(n: nat)
    ensures IntToString(n) == NatToString(n)
  {
  }

  lemma StoreRoundTrip(si: seq<string>, s: UserStore)
    requires s.storeId in si
    ensures ExpandStore(si, MinifyStore(si, s)) == Some(SyncedStore(s))
  {
    var nums: seq<int> := MinifyStore(si, s).residentNums;
    forall j | 0 <= j < |nums| ensures IntToString(nums[j]) == SyncedId(s.residents[j]) {
      IntToStringNat(ResidentIdToNumber(s.residents[j]));
    }
    assert MapSeq(nums, IntToString) == MapSeq(s.residents, SyncedId);
  }

  lemma ResidentRoundTrip(si: seq<string>, r: Resident, index: nat)
    requires r.dreamJob in si
    ensures ExpandResident(si, MinifyResident(si, r), index) == Some(SyncedResident(r, index))
  {
    IntToStringNat(ResidentIdToNumber(r.id));
  }

  lemma MissionRoundTrip(mi: seq<string>, bt: int, m: UserMission)
    requires m.missionId in mi
    ensures ExpandMission(mi, bt, MinifyMission(mi, bt, m)) == Some(m)
  {
    StatusCodec(m.status, 0);
  }

  lemma ExpandStoresV3(data: UserData)
    ensures AllSome(MapSeq(Minify(data).s, (ms: MinStore) => ExpandStore(Minify(data).si, ms))) == Some(Synced(data).stores)
  {
    IdsInTables(data);
    var si := StoreIdTable(data);
    var ms := MapSeq(data.stores, (s: UserStore) => MinifyStore(si, s));
    var xs := MapSeq(ms, (m: MinStore) => ExpandStore(si, m));
    var ys := MapSeq(data.stores, SyncedStore);
    forall k | 0 <= k < |xs| ensures xs[k] == Some(ys[k]) {
      StoreRoundTrip(si, data.stores[k]);
    }
    AllSomeOf(xs, ys);
  }

  lemma ExpandResidentsV3(data: UserData)
    ensures var r := Minify(data).r;
      AllSome(seq(|r|, k requires 0 <= k < |r| => ExpandResident(Minify(data).si, r[k], k))) == Some(Synced(data).residents)
  {
    IdsInTables(data);
    var si := StoreIdTable(data);
    var r := MapSeq(data.residents, (x: Resident) => MinifyResident(si, x));
    var xs := seq(|r|, k requires 0 <= k < |r| => ExpandResident(si, r[k], k));
    var ys := Synced(data).residents;
    forall k | 0 <= k < |xs| ensures xs[k] == Some(ys[k]) {
      ResidentRoundTrip(si, data.residents[k], k);
    }
    AllSomeOf(xs, ys);
  }

  lemma ExpandMissionsV3(data: UserData)
    ensures AllSome(MapSeq(Minify(data).m, (mm: MinMission) => ExpandMission(Minify(data).mi, Minify(data).bt, mm)))
         == Some(data.missions)
  {
    IdsInTables(data);
    var mi := MissionIdTable(data);
    var bt := BaseTime(data.missions);
    var m := MapSeq(data.missions, (x: UserMission) => MinifyMission(mi, bt, x));
    var xs := MapSeq(m, (mm: MinMission) => ExpandMission(mi, bt, mm));
    forall k | 0 <= k < |xs| ensures xs[k] == Some(data.missions[k]) {
      MissionRoundTrip(mi, bt, data.missions[k]);
    }
    AllSomeOf(xs, data.missions);
  }

  /** Expanding the minified data gives back the synced form of the data. */
  lemma MinifyExpand(data: UserData)
    ensures ExpandUserData(Minify(data)) == Some(Synced(data))
  {
    ExpandStoresV3(data);
    ExpandResidentsV3(data);
    ExpandMissionsV3(data);
  }

  /** Store ids, dream jobs and missions survive a round trip exactly. */
  lemma RoundTripKeeps(data: UserData)
    ensures ExpandUserData(Minify(data)).Some?
    ensures var e := ExpandUserData(Minify(data)).value;
      e.missions == data.missions
      && |e.stores| == |data.stores| && |e.residents| == |data.residents|
      && (forall k :: 0 <= k < |e.stores| ==> e.stores[k].storeId == data.stores[k].storeId)
      && (forall k :: 0 <= k < |e.residents| ==> e.residents[k].dreamJob == data.residents[k].dreamJob)
  {
    MinifyExpand(data);
  }

  /** A synced id reads back as the same number, so a second round trip changes nothing. */
  lemma SyncedIdStable(id: string)
    ensures SyncedId(SyncedId(id)) == SyncedId(id)
  {
    ResidentIdExamples(ResidentIdToNumber(id));
  }

  lemma SyncedStable(data: UserData)
    ensures Synced(Synced(data)) == Synced(data)
  {
    var once := Synced(data);
    forall k | 0 <= k < |data.stores| ensures SyncedStore(once.stores[k]) == once.stores[k] {
      var ids := once.stores[k].residents;
      forall j | 0 <= j < |ids| ensures SyncedId(ids[j]) == ids[j] {
        SyncedIdStable(data.stores[k].residents[j]);
      }
    }
    forall k | 0 <= k < |data.residents| ensures SyncedResident(once.residents[k], k) == once.residents[k] {
      SyncedIdStable(data.residents[k].id);
    }
  }

  // ---------------------------------------------------------------------
  // The legacy formats
  // ---------------------------------------------------------------------

  function WithoutCurrentStore(r: Resident): Resident
  {
    Resident(r.id, r.name, r.dreamJob, None)
  }

  /** The data as `UserData` without current stores, which no sync format carries. */
  function WithoutCurrentStores(data: UserData): UserData
  {
    UserData(data.stores, MapSeq(data.residents, WithoutCurrentStore), data.missions)
  }

  function V1StoreOf(s: UserStore): V1Store
  {
    V1Store(s.storeId, s.residents)
  }

  function V1ResidentOf(r: Resident): V1Resident
  {
    V1Resident(r.id, r.name, r.dreamJob)
  }

  function V1MissionOf(m: UserMission): V1Mission
  {
    V1Mission(m.missionId, EncodeStatus(m.status), m.addedAt)
  }

  /** The data in the v1 object format. */
  function ToV1(data: UserData): SyncData
  {
    V1(MapSeq(data.stores, V1StoreOf), MapSeq(data.residents, V1ResidentOf), MapSeq(data.missions, V1MissionOf))
  }

  function V2StoreOf(si: seq<string>, s: UserStore): V2Store
  {
    V2Store(IndexIn(si, s.storeId), s.residents)
  }

  function V2ResidentOf(si: seq<string>, r: Resident): V2Resident
  {
    V2Resident(r.id, r.name, IndexIn(si, r.dreamJob))
  }

  /** The data in the v2 format: the lookup tables, string ids and plain times. */
  function ToV2(data: UserData): SyncData
  {
    var si := StoreIdTable(data);
    var mi := MissionIdTable(data);
    V2(si, mi,
       MapSeq(data.stores, (s: UserStore) => V2StoreOf(si, s)),
       MapSeq(data.residents, (r: Resident) => V2ResidentOf(si, r)),
       MapSeq(data.missions, (m: UserMission) => MinifyMission(mi, 0, m)))
  }

  /** v1 decodes field by field with no loss. */
  lemma V1Lossless(data: UserData)
    ensures ExpandUserData(ToV1(data)) == Some(WithoutCurrentStores(data))
  {
    var e := ExpandUserData(ToV1(data)).value;
    var w := WithoutCurrentStores(data);
    forall k | 0 <= k < |data.stores| ensures e.stores[k] == data.stores[k] {
    }
    forall k | 0 <= k < |data.residents| ensures e.residents[k] == w.residents[k] {
    }
    forall k | 0 <= k < |data.missions| ensures e.missions[k] == data.missions[k] {
      StatusCodec(data.missions[k].status, 0);
    }
    assert e.stores == w.stores;
    assert e.residents == w.residents;
    assert e.missions == w.missions;
  }

  /** v2 decodes field by field with no loss. */
  lemma V2Lossless(data: UserData)
    ensures ExpandUserData(ToV2(data)) == Some(WithoutCurrentStores(data))
  {
    IdsInTables(data);
    var si := StoreIdTable(data);
    var mi := MissionIdTable(data);
    var w := WithoutCurrentStores(data);
    var s2 := MapSeq(data.stores, (s: UserStore) => V2StoreOf(si, s));
    var r2 := MapSeq(data.residents, (r: Resident) => V2ResidentOf(si, r));
    var m2 := MapSeq(data.missions, (m: UserMission) => MinifyMission(mi, 0, m));
    var stores := MapSeq(s2, (vs: V2Store) => ExpandV2Store(si, vs));
    var residents := MapSeq(r2, (vr: V2Resident) => ExpandV2Resident(si, vr));
    var missions := MapSeq(m2, (mm: MinMission) => ExpandMission(mi, 0, mm));
    forall k | 0 <= k < |stores| ensures stores[k] == Some(data.stores[k]) {
      IndexInFound(si, data.stores[k].storeId);
    }
    forall k | 0 <= k < |residents| ensures residents[k] == Some(w.residents[k]) {
      IndexInFound(si, data.residents[k].dreamJob);
    }
    forall k | 0 <= k < |missions| ensures missions[k] == Some(data.missions[k]) {
      MissionRoundTrip(mi, 0, data.missions[k]);
    }
    AllSomeOf(stores, data.stores);
    AllSomeOf(residents, w.residents);
    AllSomeOf(missions, data.missions);
  }


  /** Decoding fails exactly when an index falls outside its table. */
  lemma ExpandV3Fails(si: seq<string>, mi: seq<string>, bt: int, s: seq<MinStore>, r: seq<MinResident>, m: seq<MinMission>)
    ensures ExpandUserData(V3(si, mi, bt, s, r, m)).None? <==>
      (exists k :: 0 <= k < |s| && !(0 <= s[k].storeIndex < |si|))
      || (exists k :: 0 <= k < |r| && !(0 <= r[k].dreamJobIndex < |si|))
      || (exists k :: 0 <= k < |m| && !(0 <= m[k].missionIndex < |mi|))
  {
    var xs := MapSeq(s, (ms: MinStore) => ExpandStore(si, ms));
    var ys := seq(|r|, k requires 0 <= k < |r| => ExpandResident(si, r[k], k));
    var zs := MapSeq(m, (mm: MinMission) => ExpandMission(mi, bt, mm));
    assert forall k :: 0 <= k < |s| ==> (xs[k].None? <==> !(0 <= s[k].storeIndex < |si|));
    assert forall k :: 0 <= k < |r| ==> (ys[k].None? <==> !(0 <= r[k].dreamJobIndex < |si|));
    assert forall k :: 0 <= k < |m| ==> (zs[k].None? <==> !(0 <= m[k].missionIndex < |mi|));
  }
}
