/** Bringing a beatmap set up to date with what the osu! API says about it. */
module BeatmapSync {
  import opened Lists
  import S = Scores

  /** One map in the API's answer; details stands for everything that is copied and not looked at. */
  datatype ApiMap = ApiMap(id: int, md5: string, approved: int, details: string)

  datatype MapData = MapData(id: int, md5: string, status: S.RankedStatus, details: string, frozen: bool, plays: nat, passes: nat)

  /** RankedStatus.from_osuapi. */
  function FromOsuApi(approved: int): S.RankedStatus {
    if approved in {-2, -1, 0} then S.Pending
    else if approved == 1 then S.Ranked
    else if approved == 2 then S.Approved
    else if approved == 3 then S.Qualified
    else if approved == 4 then S.Loved
    else S.UpdateAvailable
  }

  /** The codes of the API; any other one means that the map is outdated. */
  lemma Codes(approved: int)
    ensures FromOsuApi(1) == S.Ranked && FromOsuApi(2) == S.Approved && FromOsuApi(3) == S.Qualified && FromOsuApi(4) == S.Loved
    ensures FromOsuApi(0) == S.Pending && FromOsuApi(-1) == S.Pending && FromOsuApi(-2) == S.Pending
    ensures approved < -2 || approved > 4 ==> FromOsuApi(approved) == S.UpdateAvailable
  {
  }

  // a dict is built from a list: a key stays where it first came up and has the value that came last

  function Keys(ids: seq<int>): (r: seq<int>)
    ensures NoDup(r) && forall x :: x in r <==> x in ids
  {
    if ids == [] then []
    else
      var front, last := Keys(ids[..|ids| - 1]), ids[|ids| - 1];
      assert ids == ids[..|ids| - 1] + [last];
      if last in front then front else
        AppendNoDup(front, last);
        front + [last]
  }

  function MapIds(maps: seq<MapData>): seq<int> { seq(|maps|, i requires 0 <= i < |maps| => maps[i].id) }

  function ApiIds(api: seq<ApiMap>): seq<int> { seq(|api|, i requires 0 <= i < |api| => api[i].id) }

  function FindMap(maps: seq<MapData>, id: int): (r: MapData)
    requires id in MapIds(maps)
    ensures r in maps && r.id == id
  {
    var last := maps[|maps| - 1];
    if last.id == id then last
    else
      assert id in MapIds(maps[..|maps| - 1]) by { var i :| 0 <= i < |maps| && MapIds(maps)[i] == id; assert MapIds(maps[..|maps| - 1])[i] == id; }
      FindMap(maps[..|maps| - 1], id)
  }

  function FindApi(api: seq<ApiMap>, id: int): (r: ApiMap)
    requires id in ApiIds(api)
    ensures r in api && r.id == id
  {
    var last := api[|api| - 1];
    if last.id == id then last
    else
      assert id in ApiIds(api[..|api| - 1]) by { var i :| 0 <= i < |api| && ApiIds(api)[i] == id; assert ApiIds(api[..|api| - 1])[i] == id; }
      FindApi(api[..|api| - 1], id)
  }

  /** _parse_from_osuapi_resp: a frozen map keeps its status. */
  function Parse(m: MapData, a: ApiMap): MapData {
    m.(md5 := a.md5, details := a.details, status := if m.frozen then m.status else FromOsuApi(a.approved))
  }

  function Updated(m: MapData, a: ApiMap): MapData {
    if m.md5 != a.md5 || m.status != FromOsuApi(a.approved) then Parse(m, a) else m
  }

  function Fresh(a: ApiMap): MapData {
    MapData(a.id, a.md5, FromOsuApi(a.approved), a.details, false, 0, 0)
  }

  function In(ids: seq<int>, others: seq<int>): seq<int> {
    if ids == [] then []
    else
      var front, last := In(ids[..|ids| - 1], others), ids[|ids| - 1];
      if last in others then front + [last] else front
  }

  function NotIn(ids: seq<int>, others: seq<int>): seq<int> {
    if ids == [] then []
    else
      var front, last := NotIn(ids[..|ids| - 1], others), ids[|ids| - 1];
      if last in others then front else front + [last]
  }

  /** The ids after the update: those that stay, and then those that are new. */
  function NewIds(maps: seq<MapData>, api: seq<ApiMap>): seq<int> {
    In(Keys(MapIds(maps)), ApiIds(api)) + NotIn(Keys(ApiIds(api)), MapIds(maps))
  }

  function Result(maps: seq<MapData>, api: seq<ApiMap>, id: int): MapData
    requires id in ApiIds(api)
  {
    if id in MapIds(maps) then Updated(FindMap(maps, id), FindApi(api, id)) else Fresh(FindApi(api, id))
  }

  /** The maps of the set after an update with the answer api. */
  function Sync(maps: seq<MapData>, api: seq<ApiMap>): (r: seq<MapData>)
    ensures MapIds(r) == NewIds(maps, api)
  {
    NewIdsAreApis(maps, api);
    var ids := NewIds(maps, api);
    seq(|ids|, i requires 0 <= i < |ids| => Result(maps, api, ids[i]))
  }

  /** The md5s whose maps and scores are deleted. */
  function Deleted(maps: seq<MapData>, api: seq<ApiMap>): set<string> {
    DeletedAmong(Keys(MapIds(maps)), maps, api)
  }

  function DeletedAmong(ids: seq<int>, maps: seq<MapData>, api: seq<ApiMap>): set<string>
    requires forall id <- ids :: id in MapIds(maps)
  {
    set id | id in ids && id !in ApiIds(api) :: FindMap(maps, id).md5
  }

  lemma {:induction false} InIsFilter(ids: seq<int>, others: seq<int>)
    ensures forall x :: x in In(ids, others) <==> x in ids && x in others
    ensures NoDup(ids) ==> NoDup(In(ids, others))
  {
    if ids != [] {
      var front, last := ids[..|ids| - 1], ids[|ids| - 1];
      InIsFilter(front, others);
      assert ids == front + [last];
      if NoDup(ids) && last in others { AppendNoDup(In(front, others), last); }
    }
  }

  lemma {:induction false} NotInIsFilter(ids: seq<int>, others: seq<int>)
    ensures forall x :: x in NotIn(ids, others) <==> x in ids && x !in others
    ensures NoDup(ids) ==> NoDup(NotIn(ids, others))
  {
    if ids != [] {
      var front, last := ids[..|ids| - 1], ids[|ids| - 1];
      NotInIsFilter(front, others);
      assert ids == front + [last];
      if NoDup(ids) && last !in others { AppendNoDup(NotIn(front, others), last); }
    }
  }

  lemma {:induction false} ConcatNoDup(a: seq<int>, b: seq<int>)
    requires NoDup(a) && NoDup(b) && forall x :: x in a ==> x !in b
    ensures NoDup(a + b)
  {
    if b == [] {
      assert a + b == a;
    } else {
      var front, last := b[..|b| - 1], b[|b| - 1];
      ConcatNoDup(a, front);
      AppendNoDup(a + front, last);
      assert a + b == (a + front) + [last];
    }
  }

  /** The ids after an update are the API's, without duplicates, even if either side had some. */
  lemma NewIdsAreApis(maps: seq<MapData>, api: seq<ApiMap>)
    ensures NoDup(NewIds(maps, api))
    ensures forall id :: id in NewIds(maps, api) <==> id in ApiIds(api)
  {
    InIsFilter(Keys(MapIds(maps)), ApiIds(api));
    NotInIsFilter(Keys(ApiIds(api)), MapIds(maps));
    ConcatNoDup(In(Keys(MapIds(maps)), ApiIds(api)), NotIn(Keys(ApiIds(api)), MapIds(maps)));
  }

  /** What an update makes of every map. */
  lemma SyncedMaps(maps: seq<MapData>, api: seq<ApiMap>, m: MapData)
    requires m in Sync(maps, api)
    ensures m.id in ApiIds(api)
    ensures var a := FindApi(api, m.id);
      && m.md5 == a.md5
      && (!m.frozen ==> m.status == FromOsuApi(a.approved))
      && (m.id !in MapIds(maps) ==> m.details == a.details && !m.frozen && m.plays == m.passes == 0)
    ensures m.id in MapIds(maps) ==>
      var before := FindMap(maps, m.id);
      && m.frozen == before.frozen && m.plays == before.plays && m.passes == before.passes
      && (m.frozen ==> m.status == before.status)
      && (var a := FindApi(api, m.id);
          if before.md5 != a.md5 || before.status != FromOsuApi(a.approved) then m.details == a.details else m == before)
  {
    NewIdsAreApis(maps, api);
    var i :| 0 <= i < |Sync(maps, api)| && Sync(maps, api)[i] == m;
  }

  /** No later map of the set has the same id; in a dict by ids it is the one that stays. */
  ghost predicate IsLast(maps: seq<MapData>, i: nat) {
    i < |maps| && forall j | i < j < |maps| :: maps[j].id != maps[i].id
  }

  /** A lookup by id finds the last map that has it. */
  lemma {:induction false} FindsLast(maps: seq<MapData>, id: int) returns (i: nat)
    requires id in MapIds(maps)
    ensures IsLast(maps, i) && maps[i].id == id && FindMap(maps, id) == maps[i]
  {
    var n := |maps| - 1;
    if maps[n].id == id { return n; }
    var k :| 0 <= k < |maps| && MapIds(maps)[k] == id;
    assert MapIds(maps[..n])[k] == id;
    i := FindsLast(maps[..n], id);
  }

  /** An md5 is deleted exactly if it is that of a map whose id the API does not list any more, the last one if several had it. */
  lemma DeletedMaps(maps: seq<MapData>, api: seq<ApiMap>, md5: string)
    ensures md5 in Deleted(maps, api) <==> exists i: nat :: IsLast(maps, i) && maps[i].md5 == md5 && maps[i].id !in ApiIds(api)
  {
    if md5 in Deleted(maps, api) {
      var id :| id in Keys(MapIds(maps)) && id !in ApiIds(api) && FindMap(maps, id).md5 == md5;
      var i := FindsLast(maps, id);
    }
    if i: nat :| IsLast(maps, i) && maps[i].md5 == md5 && maps[i].id !in ApiIds(api) {
      assert MapIds(maps)[i] == maps[i].id;
      var j := FindsLast(maps, maps[i].id);
      assert i == j;
    }
  }

  /** Without duplicate ids, looking up an id finds the one map that has it. */
  lemma {:induction false} FindsEach(maps: seq<MapData>, i: nat)
    requires i < |maps| && NoDup(MapIds(maps))
    ensures maps[i].id in MapIds(maps) && FindMap(maps, maps[i].id) == maps[i]
  {
    var front, ids := maps[..|maps| - 1], MapIds(maps);
    assert ids[i] == maps[i].id;
    assert MapIds(front) == ids[..|ids| - 1];
    if i < |front| {
      NoDupDiffer(ids, i, |front|);
      FindsEach(front, i);
    }
  }

  lemma {:induction false} KeysOfNoDup(ids: seq<int>)
    requires NoDup(ids)
    ensures Keys(ids) == ids
  {
    if ids != [] {
      KeysOfNoDup(ids[..|ids| - 1]);
      assert ids == ids[..|ids| - 1] + [ids[|ids| - 1]];
    }
  }

  lemma {:induction false} InAll(ids: seq<int>, others: seq<int>)
    requires forall x <- ids :: x in others
    ensures In(ids, others) == ids && NotIn(ids, others) == []
  {
    if ids != [] {
      var front, last := ids[..|ids| - 1], ids[|ids| - 1];
      assert ids == front + [last];
      assert last in ids && forall x <- front :: x in ids;
      InAll(front, others);
    }
  }

  /** A map that has been updated is not changed by the same answer. */
  lemma UpdatedTwice(m: MapData, a: ApiMap)
    ensures Updated(Updated(m, a), a) == Updated(m, a)
    ensures Updated(Fresh(a), a) == Fresh(a)
  {
  }

  /** Applying the same answer again changes nothing and deletes nothing. */
  lemma SyncTwice(maps: seq<MapData>, api: seq<ApiMap>)
    ensures Sync(Sync(maps, api), api) == Sync(maps, api)
    ensures Deleted(Sync(maps, api), api) == {}
  {
    hide Keys, In, NotIn, FindMap, FindApi, NoDup, Updated, Fresh;
    var once := Sync(maps, api);
    var ids := NewIds(maps, api);
    NewIdsAreApis(maps, api);
    KeysOfNoDup(ids);
    InAll(ids, ApiIds(api));
    InAll(Keys(ApiIds(api)), ids);
    assert NewIds(once, api) == ids;
    forall i | 0 <= i < |ids| ensures Result(once, api, ids[i]) == once[i] {
      assert MapIds(once)[i] == once[i].id;
      FindsEach(once, i);
      UpdatedTwice(if ids[i] in MapIds(maps) then FindMap(maps, ids[i]) else once[i], FindApi(api, ids[i]));
    }
  }

  // one element more

  lemma KeysSnoc(ids: seq<int>, x: int)
    ensures Keys(ids + [x]) == if x in ids then Keys(ids) else Keys(ids) + [x]
  {
    assert (ids + [x])[..|ids|] == ids;
  }

  lemma ApiSnoc(api: seq<ApiMap>, a: ApiMap)
    ensures ApiIds(api + [a]) == ApiIds(api) + [a.id] && FindApi(api + [a], a.id) == a
    ensures forall id | id in ApiIds(api) && id != a.id :: FindApi(api + [a], id) == FindApi(api, id)
  {
    assert (api + [a])[..|api|] == api;
    assert ApiIds(api + [a]) == ApiIds(api) + [a.id];
  }

  lemma MapSnoc(maps: seq<MapData>, m: MapData)
    ensures MapIds(maps + [m]) == MapIds(maps) + [m.id] && FindMap(maps + [m], m.id) == m
    ensures forall id | id in MapIds(maps) && id != m.id :: FindMap(maps + [m], id) == FindMap(maps, id)
  {
    assert (maps + [m])[..|maps|] == maps;
    assert MapIds(maps + [m]) == MapIds(maps) + [m.id];
  }

  lemma InSnoc(ids: seq<int>, x: int, others: seq<int>)
    ensures In(ids + [x], others) == if x in others then In(ids, others) + [x] else In(ids, others)
    ensures NotIn(ids + [x], others) == if x in others then NotIn(ids, others) else NotIn(ids, others) + [x]
  {
    assert (ids + [x])[..|ids|] == ids;
  }

  // the same on the live objects

  class Beatmap {
    const id: int
    var md5: string
    var status: S.RankedStatus
    var details: string
    var frozen: bool
    var plays: nat
    var passes: nat

    /** A map that the set did not have: parsed before it has any attributes, and not frozen. */
    constructor (a: ApiMap)
      ensures Data() == Fresh(a)
    {
      id, md5, details, status, frozen, plays, passes := a.id, a.md5, a.details, FromOsuApi(a.approved), false, 0, 0;
    }

    ghost function Data(): MapData
      reads this
    {
      MapData(id, md5, status, details, frozen, plays, passes)
    }

    method ParseFromOsuApiResp(a: ApiMap)
      modifies this`md5, this`details, this`status
      ensures Data() == Parse(old(Data()), a)
    {
      md5, details := a.md5, a.details;
      if !frozen { status := FromOsuApi(a.approved); }
    }
  }

  ghost function DataOf(maps: seq<Beatmap>): seq<MapData>
    reads maps
  {
    seq(|maps|, i requires 0 <= i < |maps| reads maps => maps[i].Data())
  }

  class BeatmapSet {
    var maps: seq<Beatmap>

    /** The set's maps by id; of two with the same id, the later one. */
    method OldMaps() returns (ids: seq<int>, dict: map<int, Beatmap>)
      ensures ids == Keys(MapIds(DataOf(maps))) && forall id :: id in dict <==> id in ids
      ensures forall id | id in dict :: dict[id] in maps && dict[id].id == id
      ensures forall id <- ids :: id in MapIds(DataOf(maps)) && dict[id].Data() == FindMap(DataOf(maps), id)
    {
      ids, dict := [], map[];
      NoMaps();
      hide Keys, MapIds, FindMap, DataOf, Beatmap.Data, NoDup;
      for i := 0 to |maps|
        invariant ids == Keys(MapIds(DataOf(maps[..i]))) && forall id :: id in dict <==> id in ids
        invariant forall id | id in dict :: dict[id] in maps && dict[id].id == id
        invariant forall id <- ids :: id in MapIds(DataOf(maps[..i])) && dict[id].Data() == FindMap(DataOf(maps[..i]), id)
      {
        var m := maps[i];
        assert maps[..i + 1] == maps[..i] + [m];
        DataSnoc(maps[..i], m);
        MapSnoc(DataOf(maps[..i]), m.Data());
        IdOf(m);
        KeysSnoc(MapIds(DataOf(maps[..i])), m.id);
        if m.id !in ids { ids := ids + [m.id]; }
        dict := dict[m.id := m];
      }
      assert maps[..|maps|] == maps;
    }

    /** update_if_available, given the answer: what is left of the set, what is new, and the md5s to delete. */
    method UpdateIfAvailable(api: seq<ApiMap>) returns (deleted: set<string>)
      modifies this, maps
      ensures DataOf(maps) == Sync(old(DataOf(maps)), api)
      ensures deleted == Deleted(old(DataOf(maps)), api)
      ensures forall m <- maps :: m in old(maps) || fresh(m)
    {
      ghost var before := DataOf(maps);
      hide *;
      var oldIds, oldMaps := OldMaps();
      var newIds, newMaps := NewMaps(api);
      KeysAreUnique(MapIds(before));
      NewAreApis(before, api);
      var kept;
      kept, deleted := UpdateOld(oldIds, oldMaps, newMaps, maps, before, api);
      var added := AddNew(newIds, oldMaps.Keys, newMaps, before, api);
      Complete(before, api, DataOf(kept), deleted, DataOf(added));
      DataConcat(kept, added);
      maps := kept + added;
    }
  }

  lemma KeysAreUnique(ids: seq<int>)
    ensures NoDup(Keys(ids)) && forall id :: id in Keys(ids) <==> id in ids
  {
  }

  lemma NewAreApis(maps: seq<MapData>, api: seq<ApiMap>)
    ensures forall id <- NotIn(Keys(ApiIds(api)), MapIds(maps)) :: id in ApiIds(api)
  {
    NotInIsFilter(Keys(ApiIds(api)), MapIds(maps));
  }

  /** What stays and what is new make up the whole result. */
  lemma Complete(before: seq<MapData>, api: seq<ApiMap>, kept: seq<MapData>, deleted: set<string>, added: seq<MapData>)
    requires Done(Keys(MapIds(before)), kept, deleted, before, api)
    requires forall id <- NotIn(Keys(ApiIds(api)), MapIds(before)) :: id in ApiIds(api)
    requires added == Results(before, api, NotIn(Keys(ApiIds(api)), MapIds(before)))
    ensures kept + added == Sync(before, api) && deleted == Deleted(before, api)
  {
    ResultsConcat(before, api, In(Keys(MapIds(before)), ApiIds(api)), NotIn(Keys(ApiIds(api)), MapIds(before)));
    SyncIsResults(before, api);
    hide In, NotIn, Results, Sync, MapIds, ApiIds, Keys, DeletedAmong;
  }

  /** The answer's maps by id; of two with the same id, the later one. */
  method NewMaps(api: seq<ApiMap>) returns (ids: seq<int>, dict: map<int, ApiMap>)
    ensures ids == Keys(ApiIds(api)) && forall id :: id in dict <==> id in ApiIds(api)
    ensures forall id | id in ApiIds(api) :: dict[id] == FindApi(api, id)
  {
    hide Keys, ApiIds, FindApi;
    ids, dict := [], map[];
    NoApi();
    for i := 0 to |api|
      invariant ids == Keys(ApiIds(api[..i])) && forall id :: id in dict <==> id in ApiIds(api[..i])
      invariant forall id | id in ApiIds(api[..i]) :: dict[id] == FindApi(api[..i], id)
    {
      assert api[..i + 1] == api[..i] + [api[i]];
      ApiSnoc(api[..i], api[i]);
      KeysSnoc(ApiIds(api[..i]), api[i].id);
      if api[i].id !in ids { ids := ids + [api[i].id]; }
      dict := dict[api[i].id := api[i]];
    }
    assert api[..|api|] == api;
  }

  lemma NoMaps()
    ensures MapIds(DataOf([])) == [] && Keys([]) == []
  {
  }

  lemma NoApi()
    ensures ApiIds([]) == [] && Keys([]) == []
  {
  }

  function Results(maps: seq<MapData>, api: seq<ApiMap>, ids: seq<int>): seq<MapData>
    requires forall id <- ids :: id in ApiIds(api)
  {
    seq(|ids|, i requires 0 <= i < |ids| => assert ids[i] in ids; Result(maps, api, ids[i]))
  }

  lemma ResultsSnoc(maps: seq<MapData>, api: seq<ApiMap>, ids: seq<int>, id: int)
    requires (forall x <- ids :: x in ApiIds(api)) && id in ApiIds(api)
    ensures Results(maps, api, ids + [id]) == Results(maps, api, ids) + [Result(maps, api, id)]
  {
    hide Result, ApiIds;
  }

  lemma ResultsConcat(maps: seq<MapData>, api: seq<ApiMap>, a: seq<int>, b: seq<int>)
    requires (forall x <- a :: x in ApiIds(api)) && (forall x <- b :: x in ApiIds(api))
    ensures Results(maps, api, a + b) == Results(maps, api, a) + Results(maps, api, b)
  {
    hide Result, ApiIds;
  }

  lemma SyncIsResults(maps: seq<MapData>, api: seq<ApiMap>)
    ensures forall id <- NewIds(maps, api) :: id in ApiIds(api)
    ensures Sync(maps, api) == Results(maps, api, NewIds(maps, api))
  {
    NewIdsAreApis(maps, api);
    hide Result;
  }

  lemma DeletedSnoc(ids: seq<int>, x: int, maps: seq<MapData>, api: seq<ApiMap>)
    requires x in MapIds(maps) && forall id <- ids :: id in MapIds(maps)
    ensures DeletedAmong(ids + [x], maps, api)
         == DeletedAmong(ids, maps, api) + if x in ApiIds(api) then {} else {FindMap(maps, x).md5}
  {
    hide FindMap, MapIds, ApiIds;
  }

  lemma ResultOfOld(maps: seq<MapData>, api: seq<ApiMap>, id: int)
    requires id in MapIds(maps) && id in ApiIds(api)
    ensures Result(maps, api, id) == Updated(FindMap(maps, id), FindApi(api, id))
  {
  }

  lemma NothingYet(maps: seq<MapData>, api: seq<ApiMap>, others: seq<int>)
    ensures In([], others) == [] && NotIn([], others) == [] && Results(maps, api, []) == [] && DataOf([]) == []
  {
  }

  /** Every id comes up once. */
  lemma Once(ids: seq<int>, i: nat)
    requires NoDup(ids) && i < |ids|
    ensures ids[i] !in ids[..i] && forall j | i < j < |ids| :: ids[j] != ids[i]
  {
    forall j: nat | j < i ensures ids[j] != ids[i] { NoDupDiffer(ids, j, i); }
    forall j | i < j < |ids| ensures ids[j] != ids[i] { NoDupDiffer(ids, i, j); }
  }

  lemma DataConcat(a: seq<Beatmap>, b: seq<Beatmap>)
    ensures DataOf(a + b) == DataOf(a) + DataOf(b)
  {
  }

  lemma DataSnoc(maps: seq<Beatmap>, m: Beatmap)
    ensures DataOf(maps + [m]) == DataOf(maps) + [m.Data()]
  {
  }

  method UpdateOne(bmap: Beatmap, newMap: ApiMap)
    modifies bmap`md5, bmap`details, bmap`status
    ensures bmap.Data() == Updated(old(bmap.Data()), newMap)
  {
    if bmap.md5 != newMap.md5 || bmap.status != FromOsuApi(newMap.approved) {
      bmap.ParseFromOsuApiResp(newMap);
    }
  }

  /** What UpdateOld has to show for the ids it has looked at. */
  ghost predicate Done(ids: seq<int>, updated: seq<MapData>, deleted: set<string>, before: seq<MapData>, api: seq<ApiMap>) {
    && (forall id <- ids :: id in MapIds(before)) && (forall id <- In(ids, ApiIds(api)) :: id in ApiIds(api))
    && updated == Results(before, api, In(ids, ApiIds(api)))
    && deleted == DeletedAmong(ids, before, api)
  }

  lemma DoneNothing(before: seq<MapData>, api: seq<ApiMap>)
    ensures Done([], [], {}, before, api)
  {
    assert DeletedAmong([], before, api) == {};
  }

  lemma DoneOneMore(ids: seq<int>, updated: seq<MapData>, deleted: set<string>, before: seq<MapData>, api: seq<ApiMap>, id: int)
    requires Done(ids, updated, deleted, before, api) && id in MapIds(before)
    ensures id !in ApiIds(api) ==> Done(ids + [id], updated, deleted + {FindMap(before, id).md5}, before, api)
    ensures id in ApiIds(api) ==> Done(ids + [id], updated + [Updated(FindMap(before, id), FindApi(api, id))], deleted, before, api)
  {
    hide In, Results, Result, Updated, ApiIds, MapIds, FindApi, FindMap, DeletedAmong;
    InSnoc(ids, id, ApiIds(api));
    DeletedSnoc(ids, id, before, api);
    if id in ApiIds(api) {
      ResultOfOld(before, api, id);
      ResultsSnoc(before, api, In(ids, ApiIds(api)), id);
    }
  }

  /** The maps that stay are updated in place, if there is anything to update. */
  method UpdateOld(ids: seq<int>, oldMaps: map<int, Beatmap>, newMaps: map<int, ApiMap>, ghost maps: seq<Beatmap>, ghost before: seq<MapData>,
                   ghost api: seq<ApiMap>)
    returns (updated: seq<Beatmap>, deleted: set<string>)
    requires NoDup(ids) && forall id :: id in oldMaps <==> id in ids
    requires forall id | id in oldMaps :: oldMaps[id] in maps && oldMaps[id].id == id && id in MapIds(before) && oldMaps[id].Data() == FindMap(before, id)
    requires forall id :: id in newMaps <==> id in ApiIds(api)
    requires forall id | id in newMaps :: newMaps[id] == FindApi(api, id)
    modifies maps
    ensures Done(ids, DataOf(updated), deleted, before, api)
    ensures forall m <- updated :: m in maps
  {
    updated, deleted := [], {};
    DoneNothing(before, api);
    assert DataOf([]) == [];
    hide NoDup, Done, DataOf, Updated, ApiIds, MapIds, FindApi, FindMap, Beatmap.Data;
    for i := 0 to |ids|
      invariant Done(ids[..i], DataOf(updated), deleted, before, api)
      invariant forall id | id in oldMaps && id !in ids[..i] :: oldMaps[id].Data() == FindMap(before, id)
      invariant forall m <- updated :: m in maps && m.id in ids[..i]
    {
      var id := ids[i];
      assert id in ids && ids[..i + 1] == ids[..i] + [id];
      Once(ids, i);
      DoneOneMore(ids[..i], DataOf(updated), deleted, before, api, id);
      if id !in newMaps {
        Md5Of(oldMaps[id]);
        deleted := deleted + {oldMaps[id].md5};
      } else {
        var bmap := oldMaps[id];
        assert bmap !in updated;
        UpdateOne(bmap, newMaps[id]);
        DataSnoc(updated, bmap);
        updated := updated + [bmap];
      }
    }
    assert ids[..|ids|] == ids;
  }

  lemma IdOf(m: Beatmap)
    ensures m.Data().id == m.id
  {
  }

  lemma Md5Of(m: Beatmap)
    ensures m.Data().md5 == m.md5
  {
  }

  method AddNew(ids: seq<int>, oldIds: set<int>, newMaps: map<int, ApiMap>, ghost before: seq<MapData>, ghost api: seq<ApiMap>)
    returns (added: seq<Beatmap>)
    requires ids == Keys(ApiIds(api)) && forall id :: id in oldIds <==> id in Keys(MapIds(before))
    requires forall id :: id in newMaps <==> id in ApiIds(api)
    requires forall id | id in newMaps :: newMaps[id] == FindApi(api, id)
    requires forall id <- NotIn(ids, MapIds(before)) :: id in ApiIds(api)
    ensures DataOf(added) == Results(before, api, NotIn(ids, MapIds(before)))
    ensures forall m <- added :: fresh(m)
  {
    added := [];
    NothingYet(before, api, MapIds(before));
    hide NoDup;
    hide Keys, NotIn, Results, DataOf, ApiIds, MapIds, FindApi, FindMap;
    for i := 0 to |ids|
      invariant forall id <- NotIn(ids[..i], MapIds(before)) :: id in ApiIds(api) && id !in MapIds(before)
      invariant DataOf(added) == Results(before, api, NotIn(ids[..i], MapIds(before)))
      invariant forall m <- added :: fresh(m)
    {
      var id := ids[i];
      assert ids[..i + 1] == ids[..i] + [id];
      InSnoc(ids[..i], id, MapIds(before));
      if id !in oldIds {
        var bmap := new Beatmap(newMaps[id]);
        ResultsSnoc(before, api, NotIn(ids[..i], MapIds(before)), id);
        DataSnoc(added, bmap);
        added := added + [bmap];
      }
    }
    assert ids[..|ids|] == ids;
  }
}
