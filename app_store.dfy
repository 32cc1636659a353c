/**
 * The application's state store: the user's stores, residents and
 * missions held in one mutable record, the operations that update it in
 * place, the queries over it, and the migration applied to data loaded
 * from the browser.
 */
module AppStore {
  import opened Wrappers
  import opened Seqs
  import opened Strings
  import opened Types
  import opened StateOps
  import opened Numbers
  import Storage

  // ---------------------------------------------------------------------
  // Numeric ids
  // ---------------------------------------------------------------------

  /** `reduce((max, x) => !isNaN(f(x)) && f(x) > max ? f(x) : max, 0)` */
  function MaxOver<T>(xs: seq<T>, f: T -> Number): Number
  {
    if xs == [] then Zero
    else
      var m := MaxOver(xs[..|xs| - 1], f);
      var n := f(xs[|xs| - 1]);
      if !n.NaN? && Greater(n, m) then n else m
  }

  /** The fold is a number no value exceeds, at least 0, and 0 or one of the values. */
  lemma {:induction false} MaxOverSpec<T>(xs: seq<T>, f: T -> Number)
    ensures !MaxOver(xs, f).NaN? && !Greater(Zero, MaxOver(xs, f))
    ensures forall k :: 0 <= k < |xs| ==> !Greater(f(xs[k]), MaxOver(xs, f))
    ensures MaxOver(xs, f) == Zero || exists k :: 0 <= k < |xs| && f(xs[k]) == MaxOver(xs, f)
  {
    if xs != [] {
      var p := xs[..|xs| - 1];
      MaxOverSpec(p, f);
      assert forall k :: 0 <= k < |p| ==> p[k] == xs[k];
      var m := MaxOver(p, f);
      var n := f(xs[|xs| - 1]);
      if !n.NaN? && Greater(n, m) {
        GreaterTransitive(Zero, n, m);
        forall k | 0 <= k < |xs| ensures !Greater(f(xs[k]), n) {
          if k < |p| {
            GreaterTransitive(f(xs[k]), n, m);
          }
        }
      } else if m != Zero {
        var k :| 0 <= k < |p| && f(p[k]) == m;
        assert f(xs[k]) == m;
      }
    }
  }

  /** `Number(r.id)` */
  function IdNumber(r: Resident): Number
  {
    StringToNumber(r.id)
  }

  /** The `reduce` of `createResident`: the largest numeric resident id, or 0. */
  function MaxNumericId(residents: seq<Resident>): Number
  {
    MaxOver(residents, IdNumber)
  }

  /** The maximum is a number at least 0 that no id exceeds, and it is 0 or the value of an id. */
  lemma MaxNumericIdSpec(residents: seq<Resident>)
    ensures !MaxNumericId(residents).NaN? && !Greater(Zero, MaxNumericId(residents))
    ensures forall k :: 0 <= k < |residents| ==> !Greater(StringToNumber(residents[k].id), MaxNumericId(residents))
    ensures MaxNumericId(residents) == Zero
         || exists k :: 0 <= k < |residents| && StringToNumber(residents[k].id) == MaxNumericId(residents)
  {
    MaxOverSpec(residents, IdNumber);
    if MaxNumericId(residents) != Zero {
      var k :| 0 <= k < |residents| && IdNumber(residents[k]) == MaxNumericId(residents);
    }
  }

  /** `String(maxId + 1)` */
  function NewResidentId(residents: seq<Resident>): string
  {
    NumberToString(Add1(MaxNumericId(residents)))
  }

  /** A number that does not exceed a finite `m` is below `m + 1`. */
  lemma BelowNext(a: Number, m: Number)
    requires m.Finite? && !a.NaN? && !Greater(a, m)
    ensures Greater(Add1(m), a)
  {
    Add1Value(m);
  }

  /**
   * The new id reads back as the maximum plus one. While that maximum is
   * finite it exceeds every numeric id, so no resident holds it; once some id
   * reads as `Infinity`, the new id is `"Infinity"`.
   */
  lemma NewResidentIdFresh(residents: seq<Resident>)
    ensures SameNumber(StringToNumber(NewResidentId(residents)), Add1(MaxNumericId(residents)))
    ensures MaxNumericId(residents).Finite? ==>
      (forall k :: 0 <= k < |residents| && !StringToNumber(residents[k].id).NaN? ==>
         Greater(StringToNumber(NewResidentId(residents)), StringToNumber(residents[k].id)))
      && !HasResident(residents, NewResidentId(residents))
    ensures !MaxNumericId(residents).Finite? ==> NewResidentId(residents) == "Infinity"
  {
    var m := MaxNumericId(residents);
    var id := NewResidentId(residents);
    MaxNumericIdSpec(residents);
    NumberStringRoundTrip(Add1(m));
    Add1Value(m);
    if m.Finite? {
      forall k | 0 <= k < |residents| && !StringToNumber(residents[k].id).NaN?
        ensures Greater(StringToNumber(id), StringToNumber(residents[k].id))
      {
        BelowNext(StringToNumber(residents[k].id), m);
      }
      forall k | 0 <= k < |residents| ensures residents[k].id != id {
        assert Greater(StringToNumber(id), m) && !Greater(StringToNumber(residents[k].id), m);
      }
    }
  }

  /** The maximum over one resident: its id's number when that is above 0, else 0. */
  lemma MaxOfOne(r: Resident)
    ensures MaxNumericId([r]) == (if Greater(StringToNumber(r.id), Zero) then StringToNumber(r.id) else Zero)
  {
    var xs := [r];
    assert xs[..0] == [];
    assert MaxOver(xs[..0], IdNumber) == Zero;
    assert IdNumber(xs[0]) == StringToNumber(r.id);
  }

  /** A resident whose id reads as `Infinity` makes `createResident` hand out `"Infinity"` again. */
  lemma InfinityIdRepeats(r: Resident)
    requires r.id == "Infinity"
    ensures NewResidentId([r]) == r.id && HasResident([r], NewResidentId([r]))
  {
    InfinityReads(r.id);
    MaxOfOne(r);
    assert [r][0].id == r.id;
  }

  /** After an id `"1e3"` the next id is `"1001"`: ids count by the number they denote. */
  lemma NextAfterExponent(r: Resident)
    requires r.id == "1e3"
    ensures NewResidentId([r]) == "1001"
  {
    ExponentReads(r.id);
    MaxOfOne(r);
    AddExamples();
    PrintExamples();
  }

  /** After an id `"1.5"` the next id is `"2.5"`, not an integer. */
  lemma NextAfterFraction(r: Resident)
    requires r.id == "1.5"
    ensures NewResidentId([r]) == "2.5"
  {
    FractionReads(r.id);
    MaxOfOne(r);
    AddExamples();
    PrintExamples();
  }

  // ---------------------------------------------------------------------
  // Resident names
  // ---------------------------------------------------------------------

  const MinResidentNameLength: nat := 1
  const MaxResidentNameLength: nat := 50

  /** `/^[a-zA-Z0-9\s'-]+$/` character by character. */
  predicate NameChar(c: char)
  {
    IsAsciiLetter(c) || IsDigit(c) || IsSpace(c) || c == '\'' || c == '-'
  }

  /** `validateResidentName` succeeds: 1 to 50 characters, all allowed. */
  predicate ValidResidentName(name: string)
  {
    MinResidentNameLength <= |name| <= MaxResidentNameLength && AllChars(name, NameChar)
  }

  datatype CreateOutcome = Created(id: string) | InvalidName | DreamJobRequired

  /** `Partial<Resident>`: each field either absent or given a new value. */
  datatype ResidentUpdate = ResidentUpdate(
    id: Option<string>, name: Option<string>, dreamJob: Option<string>, currentStore: Option<Option<string>>)

  /** `Object.assign(resident, updates)` */
  function Assign(r: Resident, u: ResidentUpdate): (a: Resident)
    ensures a.id == (if u.id.Some? then u.id.value else r.id)
    ensures a.name == (if u.name.Some? then u.name.value else r.name)
    ensures a.dreamJob == (if u.dreamJob.Some? then u.dreamJob.value else r.dreamJob)
    ensures a.currentStore == (if u.currentStore.Some? then u.currentStore.value else r.currentStore)
  {
    Resident(u.id.GetOr(r.id), u.name.GetOr(r.name), u.dreamJob.GetOr(r.dreamJob), u.currentStore.GetOr(r.currentStore))
  }

  /** An update that gives no field changes nothing. */
  lemma AssignEmpty(r: Resident)
    ensures Assign(r, ResidentUpdate(None, None, None, None)) == r
  {
  }

  datatype UpdateOutcome = Updated | NotFound | RejectedName

  // ---------------------------------------------------------------------
  // Queries
  // ---------------------------------------------------------------------

  /** `stores.findIndex(us => us.residents.includes(residentId))` */
  function HoldingIndex(stores: seq<UserStore>, residentId: string): (r: int)
    ensures -1 <= r < |stores|
    ensures r >= 0 ==> residentId in stores[r].residents
    ensures forall k :: 0 <= k < |stores| && (r == -1 || k < r) ==> residentId !in stores[k].residents
  {
    FindIndex(stores, (us: UserStore) => residentId in us.residents)
  }

  /** `getCurrentStore`: the id of the first store listing the resident. */
  function CurrentStore(stores: seq<UserStore>, residentId: string): (r: Option<string>)
    ensures r.None? <==> forall k :: 0 <= k < |stores| ==> residentId !in stores[k].residents
    ensures r.Some? ==> exists k :: 0 <= k < |stores| && stores[k].storeId == r.value && residentId in stores[k].residents
  {
    var i := HoldingIndex(stores, residentId);
    if i < 0 then None else Some(stores[i].storeId)
  }

  /** With single membership, the store listing a resident is unique, so it is the resident's store. */
  lemma CurrentStoreUnique(stores: seq<UserStore>, residentId: string, k: nat)
    requires SingleMembership(stores)
    requires k < |stores| && residentId in stores[k].residents
    ensures CurrentStore(stores, residentId) == Some(stores[k].storeId)
  {
    var j := HoldingIndex(stores, residentId);
    var a :| 0 <= a < |stores[k].residents| && stores[k].residents[a] == residentId;
    var b :| 0 <= b < |stores[j].residents| && stores[j].residents[b] == residentId;
    assert j == k;
  }

  /** The current store depends only on the store ids and on which lists hold the resident. */
  lemma CurrentStoreSame(a: seq<UserStore>, b: seq<UserStore>, residentId: string)
    requires |a| == |b|
    requires forall s :: 0 <= s < |a| ==>
      a[s].storeId == b[s].storeId && (residentId in a[s].residents <==> residentId in b[s].residents)
    ensures CurrentStore(a, residentId) == CurrentStore(b, residentId)
  {
    var i := HoldingIndex(a, residentId);
    var j := HoldingIndex(b, residentId);
    if i >= 0 {
      assert residentId in b[i].residents;
    }
    if j >= 0 {
      assert residentId in a[j].residents;
    }
    assert i == j;
  }

  /** `!currentStore || currentStore !== r.dreamJob` */
  predicate NotInDreamJob(stores: seq<UserStore>, r: Resident)
  {
    var c := CurrentStore(stores, r.id);
    c.None? || c.value == [] || c.value != r.dreamJob
  }

  /** `getResidentsNotInDreamJob` */
  function ResidentsNotInDreamJob(data: UserData): seq<Resident>
  {
    Filter(data.residents, (r: Resident) => NotInDreamJob(data.stores, r))
  }

  /** Exactly the residents not working in their dream-job store, in order. */
  lemma ResidentsNotInDreamJobSpec(data: UserData, r: Resident)
    ensures r in ResidentsNotInDreamJob(data) <==>
      r in data.residents
      && (CurrentStore(data.stores, r.id).None? || CurrentStore(data.stores, r.id) != Some(r.dreamJob) || r.dreamJob == [])
    ensures Subsequence(ResidentsNotInDreamJob(data), data.residents)
  {
    FilterMembers(data.residents, (x: Resident) => NotInDreamJob(data.stores, x), r);
    FilterSubsequence(data.residents, (x: Resident) => NotInDreamJob(data.stores, x));
  }

  /** `getResidentsForStore` */
  function ResidentsForStore(data: UserData, storeId: string): seq<Resident>
  {
    Filter(data.residents, (r: Resident) => r.dreamJob == storeId)
  }

  lemma ResidentsForStoreSpec(data: UserData, storeId: string, r: Resident)
    ensures r in ResidentsForStore(data, storeId) <==> r in data.residents && r.dreamJob == storeId
    ensures Subsequence(ResidentsForStore(data, storeId), data.residents)
  {
    FilterMembers(data.residents, (x: Resident) => x.dreamJob == storeId, r);
    FilterSubsequence(data.residents, (x: Resident) => x.dreamJob == storeId);
  }

  /** `getStoreCapacity`: the number of residents of the first store with that id, 0 without one. */
  function StoreCapacity(stores: seq<UserStore>, storeId: string): (n: nat)
    ensures !HasStore(stores, storeId) ==> n == 0
    ensures HasStore(stores, storeId) ==> n == |stores[StoreIndex(stores, storeId)].residents|
    ensures WithinCapacity(stores) ==> n <= MaxStoreCapacity
  {
    var t := StoreIndex(stores, storeId);
    if t < 0 then 0 else |stores[t].residents|
  }

  /** `isStoreFull` */
  predicate IsStoreFull(stores: seq<UserStore>, storeId: string)
  {
    StoreCapacity(stores, storeId) >= MaxStoreCapacity
  }

  /** An unknown store is never full; under the capacity bound a full store holds exactly three. */
  lemma IsStoreFullSpec(stores: seq<UserStore>, storeId: string)
    ensures !HasStore(stores, storeId) ==> !IsStoreFull(stores, storeId)
    ensures WithinCapacity(stores) && IsStoreFull(stores, storeId) ==> StoreCapacity(stores, storeId) == MaxStoreCapacity
  {
  }

  // ---------------------------------------------------------------------
  // Placing a resident
  // ---------------------------------------------------------------------

  datatype AssignError = StoreNotFound | StoreFull | AlreadyInStore

  function AssignMessage(e: AssignError): string
  {
    match e
    case StoreNotFound => "Store not found"
    case StoreFull => "Store is full"
    case AlreadyInStore => "Resident already in store"
  }

  /** The stores after a successful `addResidentToStore` into the store at `t`. */
  function Placed(stores: seq<UserStore>, t: nat, residentId: string): seq<UserStore>
    requires t < |stores|
  {
    AppendResident(DropResidentEverywhere(stores, residentId), t, residentId)
  }

  lemma AppendKeepsSingle(stores: seq<UserStore>, t: nat, id: string)
    requires t < |stores| && SingleMembership(stores)
    requires forall k :: 0 <= k < |stores| ==> id !in stores[k].residents
    ensures SingleMembership(AppendResident(stores, t, id))
  {
    var after := AppendResident(stores, t, id);
    var n := |stores[t].residents|;
    forall i, j, a, b |
      0 <= i < |after| && 0 <= j < |after| && 0 <= a < |after[i].residents| && 0 <= b < |after[j].residents|
      && after[i].residents[a] == after[j].residents[b]
      ensures i == j && a == b
    {
      var atA := i == t && a == n;
      var atB := j == t && b == n;
      if !atA {
        assert after[i].residents[a] == stores[i].residents[a];
      }
      if !atB {
        assert after[j].residents[b] == stores[j].residents[b];
      }
    }
  }

  /**
   * Placing a resident keeps both tower invariants: it is then listed in the
   * target store only, every list is at most three long, and no id is listed twice.
   */
  lemma PlacedKeeps(stores: seq<UserStore>, t: nat, residentId: string)
    requires t < |stores| && |stores[t].residents| < MaxStoreCapacity
    requires WithinCapacity(stores) && SingleMembership(stores)
    ensures var after := Placed(stores, t, residentId);
      WithinCapacity(after) && SingleMembership(after)
      && |after| == |stores| && (forall k :: 0 <= k < |after| ==> after[k].storeId == stores[k].storeId)
      && residentId in after[t].residents
      && (forall k :: 0 <= k < |after| && k != t ==> residentId !in after[k].residents)
  {
    var d := DropResidentEverywhere(stores, residentId);
    DropEverywhereSpec(stores, residentId);
    AppendKeepsSingle(d, t, residentId);
    RemoveFirstSpec(stores[t].residents, residentId);
    var after := Placed(stores, t, residentId);
    assert after[t].residents == d[t].residents + [residentId];
    forall k | 0 <= k < |after| ensures |after[k].residents| <= MaxStoreCapacity {
      if k != t {
        assert after[k] == d[k];
      }
    }
  }

  // ---------------------------------------------------------------------
  // Migration of loaded data
  // ---------------------------------------------------------------------

  /** `30 * 24 * 60 * 60 * 1000` */
  const ThirtyDaysMs: int := 30 * 24 * 60 * 60 * 1000

  /** `String(index + 1)` */
  function IndexId(index: nat): string
  {
    NumberToString(FromNat(index + 1))
  }

  /** `isNaN(Number(id))` */
  predicate NaNId(id: string)
  {
    StringToNumber(id).NaN?
  }

  /** The id a loaded resident gets: kept when numeric, else `String(index + 1)`. */
  function MigratedId(r: Resident, index: nat): string
  {
    if NaNId(r.id) then IndexId(index) else r.id
  }

  /** The `forEach` building `idMap`: each id `renumber` selects, with `String(index + 1)`; a later duplicate overwrites. */
  function IdMapOver(residents: seq<Resident>, renumber: string -> bool): map<string, string>
  {
    if residents == [] then map[]
    else
      var n := |residents| - 1;
      var m := IdMapOver(residents[..n], renumber);
      if renumber(residents[n].id) then m[residents[n].id := IndexId(n)] else m
  }

  /** `idMap`: each non-numeric id with its new id. */
  function IdMap(residents: seq<Resident>): map<string, string>
  {
    IdMapOver(residents, NaNId)
  }

  /** `idMap.get(residentId) ?? residentId` */
  function Remap(idMap: map<string, string>, id: string): string
  {
    if id in idMap then idMap[id] else id
  }

  /** The completed-mission cleanup keeps pending missions and completed ones newer than thirty days. */
  predicate KeptMission(m: UserMission, now: int)
  {
    m.status == Completed ==> m.addedAt > now - ThirtyDaysMs
  }

  /** The migrations `loadData` applies to validated data, with `now` for `Date.now()`. */
  function Migrate(data: UserData, now: int): UserData
  {
    var idMap := IdMap(data.residents);
    var residents := seq(|data.residents|, k requires 0 <= k < |data.residents| =>
      Resident(MigratedId(data.residents[k], k), data.residents[k].name, data.residents[k].dreamJob, None));
    var stores :=
      if |idMap| > 0 then MapSeq(data.stores, (us: UserStore) => UserStore(us.storeId, MapSeq(us.residents, (id: string) => Remap(idMap, id))))
      else data.stores;
    UserData(stores, residents, Filter(data.missions, (m: UserMission) => KeptMission(m, now)))
  }

  lemma {:induction false} IdMapOverKeys(residents: seq<Resident>, renumber: string -> bool, x: string)
    ensures x in IdMapOver(residents, renumber) <==>
      renumber(x) && exists k :: 0 <= k < |residents| && residents[k].id == x
  {
    if residents != [] {
      var n := |residents| - 1;
      var p := residents[..n];
      IdMapOverKeys(p, renumber, x);
      if residents[n].id != x && (exists k :: 0 <= k < |residents| && residents[k].id == x) {
        var k :| 0 <= k < |residents| && residents[k].id == x;
        assert p[k].id == x;
      }
      if residents[n].id != x && (exists k :: 0 <= k < |p| && p[k].id == x) {
        var k :| 0 <= k < |p| && p[k].id == x;
        assert residents[k].id == x;
      }
    }
  }

  /** The id a renumbered id maps to is that of its last holder. */
  lemma {:induction false} IdMapOverValue(residents: seq<Resident>, renumber: string -> bool, x: string, k: nat)
    requires k < |residents| && residents[k].id == x && renumber(x)
    requires forall j :: k < j < |residents| ==> residents[j].id != x
    ensures x in IdMapOver(residents, renumber) && IdMapOver(residents, renumber)[x] == IndexId(k)
  {
    var n := |residents| - 1;
    if k < n {
      var p := residents[..n];
      assert forall j :: k < j < |p| ==> p[j] == residents[j];
      IdMapOverValue(p, renumber, x, k);
    }
  }

  /** `k` is the last resident holding the id `x`. */
  predicate LastHolderOf(residents: seq<Resident>, x: string, k: nat)
  {
    k < |residents| && residents[k].id == x && forall j :: k < j < |residents| ==> residents[j].id != x
  }

  lemma LastHolder(residents: seq<Resident>, x: string) returns (k: nat)
    requires exists i :: 0 <= i < |residents| && residents[i].id == x
    ensures LastHolderOf(residents, x, k)
  {
    var n := |residents| - 1;
    if residents[n].id == x {
      k := n;
    } else {
      var i :| 0 <= i < |residents| && residents[i].id == x;
      var p := residents[..n];
      assert p[i].id == x;
      k := LastHolder(p, x);
      assert residents[k] == p[k];
    }
  }

  /** The map holds exactly the non-numeric ids, each with the new id of its last holder. */
  lemma IdMapSpec(residents: seq<Resident>, x: string)
    ensures x in IdMap(residents) <==> NaNId(x) && exists k :: 0 <= k < |residents| && residents[k].id == x
    ensures x in IdMap(residents) ==>
      exists k: nat :: LastHolderOf(residents, x, k) && IdMap(residents)[x] == IndexId(k)
  {
    IdMapOverKeys(residents, NaNId, x);
    if x in IdMap(residents) {
      var k := LastHolder(residents, x);
      IdMapOverValue(residents, NaNId, x, k);
    }
  }

  /** After migration every resident id is numeric and no resident keeps a current store. */
  lemma MigrateResidents(data: UserData, now: int, k: nat)
    requires k < |data.residents|
    ensures var r := Migrate(data, now).residents;
      |r| == |data.residents| && !StringToNumber(r[k].id).NaN? && r[k].currentStore.None?
      && r[k].name == data.residents[k].name && r[k].dreamJob == data.residents[k].dreamJob
      && (!NaNId(data.residents[k].id) ==> r[k].id == data.residents[k].id)
      && (NaNId(data.residents[k].id) ==>
            r[k].id == IndexId(k) && SameNumber(StringToNumber(r[k].id), FromNat(k + 1)))
  {
    var r := Migrate(data, now).residents;
    var x := data.residents[k];
    assert r[k] == Resident(MigratedId(x, k), x.name, x.dreamJob, None);
    NumberStringRoundTrip(FromNat(k + 1));
  }

  /**
   * With distinct resident ids, a store that listed resident `k` lists the
   * migrated resident `k` afterwards: the remapping keeps every placement.
   */
  lemma MigrateKeepsPlacement(data: UserData, now: int, s: nat, a: nat, k: nat)
    requires forall i, j :: 0 <= i < j < |data.residents| ==> data.residents[i].id != data.residents[j].id
    requires s < |data.stores| && a < |data.stores[s].residents| && k < |data.residents|
    requires data.stores[s].residents[a] == data.residents[k].id
    ensures var m := Migrate(data, now);
      s < |m.stores| && a < |m.stores[s].residents| && m.stores[s].residents[a] == m.residents[k].id
  {
    var x := data.residents[k].id;
    var idMap := IdMap(data.residents);
    var m := Migrate(data, now);
    IdMapSpec(data.residents, x);
    MigrateResidents(data, now, k);
    if NaNId(x) {
      var j: nat :| LastHolderOf(data.residents, x, j) && idMap[x] == IndexId(j);
      assert j == k;
      assert |idMap| > 0;
      assert m.stores[s].residents[a] == Remap(idMap, x);
    } else if |idMap| > 0 {
      assert m.stores[s].residents[a] == Remap(idMap, x);
    }
  }

  /** A store entry naming no non-numeric resident id is left as it was. */
  lemma MigrateKeepsOtherEntries(data: UserData, now: int, s: nat, a: nat)
    requires s < |data.stores| && a < |data.stores[s].residents|
    requires !NaNId(data.stores[s].residents[a])
      || forall k :: 0 <= k < |data.residents| ==> data.residents[k].id != data.stores[s].residents[a]
    ensures var m := Migrate(data, now);
      s < |m.stores| && a < |m.stores[s].residents| && m.stores[s].residents[a] == data.stores[s].residents[a]
  {
    IdMapSpec(data.residents, data.stores[s].residents[a]);
  }

  /** The cleanup drops exactly the completed missions added thirty days ago or earlier, keeping the order. */
  lemma MigrateMissions(data: UserData, now: int, m: UserMission)
    ensures m in Migrate(data, now).missions <==>
      m in data.missions && (m.status == Pending || m.addedAt > now - ThirtyDaysMs)
    ensures Subsequence(Migrate(data, now).missions, data.missions)
  {
    FilterMembers(data.missions, (x: UserMission) => KeptMission(x, now), m);
    FilterSubsequence(data.missions, (x: UserMission) => KeptMission(x, now));
  }

  // ---------------------------------------------------------------------
  // The store
  // ---------------------------------------------------------------------

  /** `appStore.data`, shared by the residents, stores and missions stores. */
  class AppData {
    var stores: seq<UserStore>
    var residents: seq<Resident>
    var missions: seq<UserMission>

    function Value(): UserData
      reads this
    {
      UserData(stores, residents, missions)
    }

    constructor (data: UserData)
      ensures Value() == data
    {
      stores := data.stores;
      residents := data.residents;
      missions := data.missions;
    }

    /** `loadData`'s migrations, applied to validated data. */
    method Load(data: UserData, now: int)
      modifies this
      ensures Value() == Migrate(data, now)
    {
      var m := Migrate(data, now);
      stores, residents, missions := m.stores, m.residents, m.missions;
    }

    /** `createResident`, with `validateResidentName` and the dream-job check. */
    method CreateResident(name: string, dreamJob: string) returns (r: CreateOutcome)
      modifies this
      ensures !ValidResidentName(name) ==> r == InvalidName && Value() == old(Value())
      ensures ValidResidentName(name) && Trim(dreamJob) == [] ==> r == DreamJobRequired && Value() == old(Value())
      ensures ValidResidentName(name) && Trim(dreamJob) != [] ==>
        r == Created(NewResidentId(old(residents)))
        && residents == old(residents) + [Resident(r.id, name, dreamJob, None)]
        && stores == old(stores) && missions == old(missions)
    {
      if !ValidResidentName(name) {
        return InvalidName;
      }
      if Trim(dreamJob) == [] {
        return DreamJobRequired;
      }
      var id := NewResidentId(residents);
      residents := residents + [Resident(id, name, dreamJob, None)];
      r := Created(id);
    }

    /** The `forEach` that splices a resident id out of every store's list. */
    method DropFromAllStores(residentId: string)
      modifies this
      ensures stores == DropResidentEverywhere(old(stores), residentId)
      ensures residents == old(residents) && missions == old(missions)
    {
      var i := 0;
      while i < |stores|
        invariant 0 <= i <= |stores| == |old(stores)|
        invariant forall k :: 0 <= k < i ==>
          stores[k] == UserStore(old(stores)[k].storeId, RemoveFirst(old(stores)[k].residents, residentId))
        invariant forall k :: i <= k < |stores| ==> stores[k] == old(stores)[k]
        invariant residents == old(residents) && missions == old(missions)
      {
        var us := stores[i];
        var storeIndex := FirstIndexOf(us.residents, residentId);
        if storeIndex != -1 {
          stores := stores[i := UserStore(us.storeId, RemoveAt(us.residents, storeIndex))];
        }
        i := i + 1;
      }
    }

    /** `removeResident` */
    method RemoveResident(residentId: string) returns (removed: bool)
      modifies this
      ensures removed <==> HasResident(old(residents), residentId)
      ensures !removed ==> Value() == old(Value())
      ensures removed ==>
        stores == DropResidentEverywhere(old(stores), residentId)
        && residents == RemoveAt(old(residents), ResidentIndex(old(residents), residentId))
        && missions == old(missions)
    {
      var index := ResidentIndex(residents, residentId);
      if index == -1 {
        return false;
      }
      DropFromAllStores(residentId);
      residents := RemoveAt(residents, index);
      removed := true;
    }

    /** `updateResident`: a rejected name throws before anything changes. */
    method UpdateResident(residentId: string, updates: ResidentUpdate) returns (r: UpdateOutcome)
      modifies this
      ensures var k := ResidentIndex(old(residents), residentId);
        (k < 0 ==> r == NotFound && Value() == old(Value()))
        && (k >= 0 && updates.name.Some? && !ValidResidentName(updates.name.value) ==>
              r == RejectedName && Value() == old(Value()))
        && (k >= 0 && (updates.name.None? || ValidResidentName(updates.name.value)) ==>
              r == Updated && residents == old(residents)[k := Assign(old(residents)[k], updates)]
              && stores == old(stores) && missions == old(missions))
    {
      var k := ResidentIndex(residents, residentId);
      if k < 0 {
        return NotFound;
      }
      if updates.name.Some? && !ValidResidentName(updates.name.value) {
        return RejectedName;
      }
      residents := residents[k := Assign(residents[k], updates)];
      r := Updated;
    }

    /** `addStore` */
    method AddStore(storeId: string) returns (added: bool)
      modifies this
      ensures added <==> !HasStore(old(stores), storeId)
      ensures stores == if added then old(stores) + [UserStore(storeId, [])] else old(stores)
      ensures residents == old(residents) && missions == old(missions)
    {
      if exists k :: 0 <= k < |stores| && stores[k].storeId == storeId {
        return false;
      }
      stores := stores + [UserStore(storeId, [])];
      added := true;
    }

    /** `removeStore` */
    method RemoveStore(storeId: string) returns (removed: bool)
      modifies this
      ensures removed <==> HasStore(old(stores), storeId)
      ensures stores == if removed then RemoveAt(old(stores), StoreIndex(old(stores), storeId)) else old(stores)
      ensures residents == old(residents) && missions == old(missions)
    {
      var index := StoreIndex(stores, storeId);
      if index == -1 {
        return false;
      }
      stores := RemoveAt(stores, index);
      removed := true;
    }

    /** `addResidentToStore`: None on success, else the error it reports. */
    method AddResidentToStore(storeId: string, residentId: string) returns (error: Option<AssignError>)
      modifies this
      ensures var t := StoreIndex(old(stores), storeId);
        (t < 0 ==> error == Some(StoreNotFound))
        && (t >= 0 && |old(stores)[t].residents| >= MaxStoreCapacity ==> error == Some(StoreFull))
        && (t >= 0 && |old(stores)[t].residents| < MaxStoreCapacity && residentId in old(stores)[t].residents ==>
              error == Some(AlreadyInStore))
        && (error.Some? ==> Value() == old(Value()))
        && (error.None? ==> 0 <= t && stores == Placed(old(stores), t, residentId))
      ensures residents == old(residents) && missions == old(missions)
    {
      var t := StoreIndex(stores, storeId);
      if t == -1 {
        return Some(StoreNotFound);
      }
      if |stores[t].residents| >= MaxStoreCapacity {
        return Some(StoreFull);
      }
      if residentId in stores[t].residents {
        return Some(AlreadyInStore);
      }
      DropFromAllStores(residentId);
      stores := AppendResident(stores, t, residentId);
      error := None;
    }

    /** `removeResidentFromStore` */
    method RemoveResidentFromStore(storeId: string, residentId: string) returns (removed: bool)
      modifies this
      ensures var t := StoreIndex(old(stores), storeId);
        (removed <==> t >= 0 && residentId in old(stores)[t].residents)
        && stores == (if removed then DropResidentAt(old(stores), t, residentId) else old(stores))
      ensures residents == old(residents) && missions == old(missions)
    {
      var t := StoreIndex(stores, storeId);
      if t == -1 {
        return false;
      }
      var index := FirstIndexOf(stores[t].residents, residentId);
      if index == -1 {
        return false;
      }
      stores := DropResidentAt(stores, t, residentId);
      removed := true;
    }

    /** `addMission`, with `now` for `Date.now()`. */
    method AddMission(missionId: string, now: int) returns (added: bool)
      modifies this
      ensures added <==> !HasMission(old(missions), missionId)
      ensures missions == if added then old(missions) + [UserMission(missionId, Pending, now)] else old(missions)
      ensures stores == old(stores) && residents == old(residents)
    {
      if exists k :: 0 <= k < |missions| && missions[k].missionId == missionId {
        return false;
      }
      missions := missions + [UserMission(missionId, Pending, now)];
      added := true;
    }

    /** `markMissionCompleted` */
    method MarkMissionCompleted(missionId: string) returns (found: bool)
      modifies this
      ensures found <==> HasMission(old(missions), missionId)
      ensures missions == SetStatus(old(missions), missionId, Completed)
      ensures stores == old(stores) && residents == old(residents)
    {
      found := MissionIndex(missions, missionId) != -1;
      missions := SetStatus(missions, missionId, Completed);
    }

    /** `markMissionPending` */
    method MarkMissionPending(missionId: string) returns (found: bool)
      modifies this
      ensures found <==> HasMission(old(missions), missionId)
      ensures missions == SetStatus(old(missions), missionId, Pending)
      ensures stores == old(stores) && residents == old(residents)
    {
      found := MissionIndex(missions, missionId) != -1;
      missions := SetStatus(missions, missionId, Pending);
    }

    /** `removeMission` */
    method RemoveMission(missionId: string) returns (removed: bool)
      modifies this
      ensures removed <==> HasMission(old(missions), missionId)
      ensures missions == if removed then RemoveAt(old(missions), MissionIndex(old(missions), missionId)) else old(missions)
      ensures stores == old(stores) && residents == old(residents)
    {
      var index := MissionIndex(missions, missionId);
      if index == -1 {
        return false;
      }
      missions := RemoveAt(missions, index);
      removed := true;
    }
  }
}
