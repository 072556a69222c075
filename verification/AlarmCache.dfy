/** The alarm cache: group records, and three indices that list group ids by device, by alarm and device, and by scene.
  *
  * Redis is the field `cache` of the class; a value of type Cache is one state of its keys. Every operation holds the
  * lock throughout, so it is one step. Ids are opaque. */
module AlarmCache {
  import opened Wrappers

  type Id = string

  datatype Group = Group(scene: Id, alarms: seq<Id>, devices: seq<Id>, contents: seq<string>)

  datatype AlarmKey = AlarmKey(alarm: Id, device: Id)

  datatype Cache = Cache(groups: map<Id, Group>, byDevice: map<Id, seq<Id>>, byAlarm: map<AlarmKey, seq<Id>>,
                         byScene: map<Id, seq<Id>>)

  const EMPTY: Cache := Cache(map[], map[], map[], map[])

  /** The zero value that a missing group record reads as. */
  const NO_GROUP: Group := Group("", [], [], [])

  // --------------------------------------------------------------------------------------------------- one index key

  function Listed<K>(index: map<K, seq<Id>>, key: K): seq<Id> {
    if key in index then index[key] else []
  }

  predicate Mentions<K(!new)>(index: map<K, seq<Id>>, key: K, g: Id) {
    g in Listed(index, key)
  }

  /** groupCacheAdd */
  function Add<K>(index: map<K, seq<Id>>, key: K, g: Id): map<K, seq<Id>> {
    if g in Listed(index, key) then index else index[key := Listed(index, key) + [g]]
  }

  /** The list without the first occurrence of g. */
  function Without(ids: seq<Id>, g: Id): seq<Id> {
    if ids == [] then [] else if ids[0] == g then ids[1..] else [ids[0]] + Without(ids[1..], g)
  }

  /** groupCacheDel: an emptied list is deleted, and so is a missing one. */
  function Del<K>(index: map<K, seq<Id>>, key: K, g: Id): map<K, seq<Id>> {
    var rest := Without(Listed(index, key), g);
    if rest != [] then index[key := rest] else index - {key}
  }

  /** Stored lists are not empty and have no duplicates. */
  ghost predicate Lists<K(!new)>(index: map<K, seq<Id>>) {
    forall key :: key in index ==> index[key] != [] && NoRepeats(index[key])
  }

  ghost predicate WellFormed(c: Cache) {
    Lists(c.byDevice) && Lists(c.byAlarm) && Lists(c.byScene)
  }

  // -------------------------------------------------------------------------------------------- the public operations

  function AddAll<K>(index: map<K, seq<Id>>, keys: seq<K>, g: Id): map<K, seq<Id>> {
    if keys == [] then index else Add(AddAll(index, keys[..|keys| - 1], g), keys[|keys| - 1], g)
  }

  function DelAll<K>(index: map<K, seq<Id>>, keys: seq<K>, g: Id): map<K, seq<Id>> {
    if keys == [] then index else Del(DelAll(index, keys[..|keys| - 1], g), keys[|keys| - 1], g)
  }

  function AlarmKeys(alarms: seq<Id>, device: Id): (keys: seq<AlarmKey>)
    ensures |keys| == |alarms| && forall i :: 0 <= i < |keys| ==> keys[i] == AlarmKey(alarms[i], device)
  {
    if alarms == [] then [] else
      AlarmKeys(alarms[..|alarms| - 1], device) + [AlarmKey(alarms[|alarms| - 1], device)]
  }

  function KeysOfAlarm(alarm: Id, devices: seq<Id>): (keys: seq<AlarmKey>)
    ensures |keys| == |devices| && forall i :: 0 <= i < |keys| ==> keys[i] == AlarmKey(alarm, devices[i])
  {
    if devices == [] then [] else
      KeysOfAlarm(alarm, devices[..|devices| - 1]) + [AlarmKey(alarm, devices[|devices| - 1])]
  }

  /** Every alarm with every device. */
  function AllAlarmKeys(alarms: seq<Id>, devices: seq<Id>): seq<AlarmKey> {
    if alarms == [] then [] else
      AllAlarmKeys(alarms[..|alarms| - 1], devices) + KeysOfAlarm(alarms[|alarms| - 1], devices)
  }

  function GroupOf(c: Cache, g: Id): Group {
    if g in c.groups then c.groups[g] else NO_GROUP
  }

  /** SetDevice: an existing record keeps its scene, devices and alarms, and only its contents change. */
  function AfterSetDevice(c: Cache, g: Id, scene: Id, devices: seq<Id>, contents: seq<string>): Cache {
    var record := if g in c.groups then c.groups[g].(contents := contents) else Group(scene, [], devices, contents);
    c.(groups := c.groups[g := record],
       byDevice := AddAll(c.byDevice, devices, g),
       byScene := Add(c.byScene, scene, g))
  }

  /** SetAlarm */
  function AfterSetAlarm(c: Cache, g: Id, alarms: seq<Id>, device: Id): Cache {
    c.(groups := c.groups[g := GroupOf(c, g).(alarms := alarms)],
       byAlarm := AddAll(c.byAlarm, AlarmKeys(alarms, device), g))
  }

  /** DeleteBygroupId */
  function AfterDeleteGroup(c: Cache, g: Id): Cache {
    var info := GroupOf(c, g);
    Cache(c.groups - {g},
          DelAll(c.byDevice, info.devices, g),
          DelAll(c.byAlarm, AllAlarmKeys(info.alarms, info.devices), g),
          Del(c.byScene, info.scene, g))
  }

  /** DeleteByAlarmId */
  function AfterDeleteAlarm(c: Cache, alarm: Id): Cache {
    c.(byAlarm := map key | key in c.byAlarm && key.alarm != alarm :: c.byAlarm[key])
  }

  // ------------------------------------------------------------------------------------------------------ the class

  /** The elements from i + 1 on, up to the length, moved one place to the left. */
  function Shifted(now: seq<Id>, i: int, length: int): (r: seq<Id>)
    requires 0 <= i < length <= |now|
    ensures |r| == |now|
  {
    now[..i] + now[i + 1..length] + now[length - 1..]
  }

  method ShiftLeft(a: array<Id>, i: int, length: int)
    requires 0 <= i < length <= a.Length
    modifies a
    ensures a[..] == Shifted(old(a[..]), i, length)
  {
    ghost var before := a[..];
    for j := i to length - 1
      invariant forall k :: i <= k < j ==> a[k] == before[k + 1]
      invariant forall k :: (0 <= k < i || j <= k < a.Length) ==> a[k] == before[k]
    {
      assert a[j + 1] == before[j + 1];
      a[j] := a[j + 1];
    }
    assert a[..] == Shifted(before, i, length);
  }

  /** What the array holds when the range of a list without repeats has visited i positions: the list itself, or the
      list without position `removed` and its last element twice. */
  ghost predicate Progress(now: seq<Id>, ids: seq<Id>, g: Id, i: int, length: int, removed: Option<int>)
    requires 0 <= i <= |ids|
  {
    match removed
    case None => now == ids && length == |ids| && g !in ids[..i]
    case Some(r) =>
      0 <= r < i && ids[r] == g && length == |ids| - 1 && now == ids[..r] + ids[r + 1..] + [ids[|ids| - 1]]
  }

  ghost predicate Sound(now: seq<Id>, ids: seq<Id>, g: Id, i: int, length: int, removed: Option<int>)
    requires 0 <= i <= |ids|
  {
    NoRepeats(ids) ==> Progress(now, ids, g, i, length, removed)
  }

  /** Before the removal the array is the list: a match is the only one, and shifting takes it out. */
  lemma FirstMatch(ids: seq<Id>, g: Id, i: int)
    requires 0 <= i < |ids| && NoRepeats(ids) && g !in ids[..i]
    ensures ids[i] != g ==> g !in ids[..i + 1]
    ensures ids[i] == g ==> Shifted(ids, i, |ids|) == ids[..i] + ids[i + 1..] + [ids[|ids| - 1]]
  {
    assert ids[..i + 1] == ids[..i] + [ids[i]];
    assert ids[i + 1..|ids|] == ids[i + 1..] && ids[|ids| - 1..] == [ids[|ids| - 1]];
  }

  /** After it no position matches. */
  lemma NoSecondMatch(ids: seq<Id>, g: Id, r: int, i: int)
    requires 0 <= r < i < |ids| && NoRepeats(ids) && ids[r] == g
    ensures (ids[..r] + ids[r + 1..] + [ids[|ids| - 1]])[i] != g
  {
    var now := ids[..r] + ids[r + 1..] + [ids[|ids| - 1]];
    if i < |ids| - 1 {
      assert now[i] == ids[i + 1];
    } else {
      assert now[i] == ids[|ids| - 1];
    }
  }

  lemma ProgressKeeps(now: seq<Id>, ids: seq<Id>, g: Id, i: int, length: int, removed: Option<int>)
    requires 0 <= i < |ids| == |now| && 0 <= length <= |ids| && Sound(now, ids, g, i, length, removed)
    ensures now[i] != g ==> Sound(now, ids, g, i + 1, length, removed)
    ensures now[i] == g && i < length ==> Sound(Shifted(now, i, length), ids, g, i + 1, length - 1, Some(i))
    ensures now[i] == g && length <= i ==> !NoRepeats(ids)
  {
    if NoRepeats(ids) {
      match removed
      case None => FirstMatch(ids, g, i);
      case Some(r) => NoSecondMatch(ids, g, r, i);
    }
  }

  lemma ProgressEnds(now: seq<Id>, ids: seq<Id>, g: Id, length: int, removed: Option<int>)
    requires |now| == |ids| && 0 <= length <= |ids| && Sound(now, ids, g, |ids|, length, removed)
    ensures NoRepeats(ids) ==> now[..length] == Without(ids, g)
  {
    if NoRepeats(ids) {
      if removed.None? {
        assert ids[..|ids|] == ids;
        WithoutAbsent(ids, g);
      } else {
        WithoutAt(ids, g, removed.value);
        assert now[..length] == ids[..removed.value] + ids[removed.value + 1..];
      }
    }
  }

  /** Removal while ranging over the same slice, as groupCacheDel does it. The range visits the positions of the
      original length and reads the array as it is then; every match shifts what follows one place to the left, within
      the current length. A shift that starts beyond the current length is out of range. */
  method RemoveWhileRanging(ids: seq<Id>, g: Id) returns (rest: seq<Id>, outOfRange: bool)
    ensures NoRepeats(ids) ==> !outOfRange && rest == Without(ids, g)
  {
    var a := new Id[|ids|](i requires 0 <= i < |ids| => ids[i]);
    var length := |ids|;
    assert a[..] == ids;
    ghost var removed: Option<int> := None;
    for i := 0 to |ids|
      invariant 0 <= length <= |ids|
      invariant Sound(a[..], ids, g, i, length, removed)
    {
      ProgressKeeps(a[..], ids, g, i, length, removed);
      if a[i] == g {
        if i + 1 > length {
          return [], true;
        }
        ShiftLeft(a, i, length);
        length := length - 1;
        removed := Some(i);
      }
    }
    ProgressEnds(a[..], ids, g, length, removed);
    rest := a[..length];
    outOfRange := false;
  }

  class AlarmCache {
    var cache: Cache

    constructor ()
      ensures cache == EMPTY
    {
      cache := EMPTY;
    }

    method SetDevice(g: Id, scene: Id, devices: seq<Id>, contents: seq<string>)
      modifies this
      ensures cache == AfterSetDevice(old(cache), g, scene, devices, contents)
    {
      var info := Group(scene, [], devices, contents);
      if g in cache.groups {
        info := cache.groups[g].(contents := contents);
      }
      cache := cache.(groups := cache.groups[g := info]);
      for i := 0 to |devices|
        invariant cache == old(cache).(groups := old(cache).groups[g := info],
                                       byDevice := AddAll(old(cache).byDevice, devices[..i], g))
      {
        assert devices[..i + 1][..i] == devices[..i];
        var index := GroupCacheAdd(cache.byDevice, devices[i], g);
        cache := cache.(byDevice := index);
      }
      assert devices[..|devices|] == devices;
      var scenes := GroupCacheAdd(cache.byScene, scene, g);
      cache := cache.(byScene := scenes);
    }

    method SetAlarm(g: Id, alarms: seq<Id>, device: Id)
      modifies this
      ensures cache == AfterSetAlarm(old(cache), g, alarms, device)
    {
      var info := GroupOf(cache, g).(alarms := alarms);
      cache := cache.(groups := cache.groups[g := info]);
      ghost var keys := AlarmKeys(alarms, device);
      for i := 0 to |alarms|
        invariant cache == old(cache).(groups := old(cache).groups[g := info],
                                       byAlarm := AddAll(old(cache).byAlarm, keys[..i], g))
      {
        assert keys[..i + 1][..i] == keys[..i];
        var index := GroupCacheAdd(cache.byAlarm, AlarmKey(alarms[i], device), g);
        cache := cache.(byAlarm := index);
      }
      assert keys[..|alarms|] == keys;
    }

    method GetByGroupId(g: Id) returns (info: Group)
      ensures info == GroupOf(cache, g)
    {
      info := if g in cache.groups then cache.groups[g] else NO_GROUP;
    }

    method GetBySceneAutomationId(scene: Id) returns (groups: seq<Id>)
      ensures groups == Listed(cache.byScene, scene)
    {
      groups := Listed(cache.byScene, scene);
    }

    method DeleteBygroupId(g: Id)
      requires WellFormed(cache)
      modifies this
      ensures cache == AfterDeleteGroup(old(cache), g)
    {
      var info := GetByGroupId(g);
      var alarms := DelAlarms(cache.byAlarm, info.alarms, info.devices, g);
      var devices := DelEach(cache.byDevice, info.devices, g);
      var scenes := GroupCacheDel(cache.byScene, info.scene, g);
      cache := Cache(cache.groups - {g}, devices, alarms, scenes);
    }

    /** The SCAN loop: the pages are what the calls return until the cursor is 0 again. SCAN returns keys that match the
        pattern, some perhaps more than once, and every matching key that is there from the first call on. */
    method DeleteByAlarmId(alarm: Id, pages: seq<seq<AlarmKey>>)
      requires forall page, key :: page in pages && key in page ==> key.alarm == alarm
      requires forall key :: key in cache.byAlarm && key.alarm == alarm ==> exists page :: page in pages && key in page
      modifies this
      ensures cache == AfterDeleteAlarm(old(cache), alarm)
    {
      for i := 0 to |pages|
        invariant cache == old(cache).(byAlarm := cache.byAlarm) && cache.byAlarm.Keys <= old(cache).byAlarm.Keys
        invariant forall key :: key in cache.byAlarm ==> cache.byAlarm[key] == old(cache).byAlarm[key]
        invariant forall key :: key in old(cache).byAlarm ==>
                                  (key in cache.byAlarm <==> forall page :: page in pages[..i] ==> key !in page)
      {
        assert pages[..i + 1] == pages[..i] + [pages[i]];
        if |pages[i]| > 0 {
          cache := cache.(byAlarm := cache.byAlarm - set key | key in pages[i]);
        }
      }
      assert pages[..|pages|] == pages;
      AllPagesDeleted(old(cache), cache, alarm, pages);
    }

    /** Whether the alarm is listed for the group at any of the devices. */
    method GetAlarmDeviceExists(devices: seq<Id>, alarm: Id, g: Id) returns (exists': bool)
      ensures exists' <==> exists d :: d in devices && Mentions(cache.byAlarm, AlarmKey(alarm, d), g)
    {
      for i := 0 to |devices|
        invariant forall k :: 0 <= k < i ==> !Mentions(cache.byAlarm, AlarmKey(alarm, devices[k]), g)
      {
        var groupIds := Listed(cache.byAlarm, AlarmKey(alarm, devices[i]));
        for j := 0 to |groupIds|
          invariant g !in groupIds[..j]
        {
          if groupIds[j] == g {
            assert devices[i] in devices;
            return true;
          }
        }
        assert groupIds[..|groupIds|] == groupIds;
      }
      return false;
    }
  }

  lemma AllPagesDeleted(c: Cache, c': Cache, alarm: Id, pages: seq<seq<AlarmKey>>)
    requires forall page, key :: page in pages && key in page ==> key.alarm == alarm
    requires forall key :: key in c.byAlarm && key.alarm == alarm ==> exists page :: page in pages && key in page
    requires c' == c.(byAlarm := c'.byAlarm) && c'.byAlarm.Keys <= c.byAlarm.Keys
    requires forall key :: key in c'.byAlarm ==> c'.byAlarm[key] == c.byAlarm[key]
    requires forall key :: key in c.byAlarm ==> (key in c'.byAlarm <==> forall page :: page in pages ==> key !in page)
    ensures c' == AfterDeleteAlarm(c, alarm)
  {
    assert forall key :: key in c'.byAlarm <==> key in AfterDeleteAlarm(c, alarm).byAlarm;
  }

  /** groupCacheAdd scans the stored list and appends the id when it is not there. */
  method GroupCacheAdd<K(==)>(index: map<K, seq<Id>>, key: K, g: Id) returns (result: map<K, seq<Id>>)
    ensures result == Add(index, key, g)
  {
    var groupIds := Listed(index, key);
    for i := 0 to |groupIds|
      invariant g !in groupIds[..i]
    {
      if groupIds[i] == g {
        return index;
      }
    }
    assert groupIds[..|groupIds|] == groupIds;
    result := index[key := groupIds + [g]];
  }

  method GroupCacheDel<K(==, !new)>(index: map<K, seq<Id>>, key: K, g: Id) returns (result: map<K, seq<Id>>)
    requires Lists(index)
    ensures result == Del(index, key, g)
  {
    var rest, outOfRange := RemoveWhileRanging(Listed(index, key), g);
    result := if |rest| > 0 then index[key := rest] else index - {key};
  }

  /** groupCacheDel for one key after the other. */
  method DelEach<K(==, !new)>(index: map<K, seq<Id>>, keys: seq<K>, g: Id) returns (result: map<K, seq<Id>>)
    requires Lists(index)
    ensures result == DelAll(index, keys, g)
  {
    result := index;
    for i := 0 to |keys|
      invariant result == DelAll(index, keys[..i], g)
    {
      assert keys[..i + 1][..i] == keys[..i];
      DelAllKeepsLists(index, keys[..i], g);
      result := GroupCacheDel(result, keys[i], g);
    }
    assert keys[..|keys|] == keys;
  }

  /** The loop of DeleteBygroupId over the alarms, and within it over the devices. */
  method DelAlarms(index: map<AlarmKey, seq<Id>>, alarms: seq<Id>, devices: seq<Id>, g: Id)
    returns (result: map<AlarmKey, seq<Id>>)
    requires Lists(index)
    ensures result == DelAll(index, AllAlarmKeys(alarms, devices), g)
  {
    result := index;
    for i := 0 to |alarms|
      invariant result == DelAll(index, AllAlarmKeys(alarms[..i], devices), g)
    {
      DelAllKeepsLists(index, AllAlarmKeys(alarms[..i], devices), g);
      OneMoreAlarm(index, alarms, i, devices, g);
      result := DelEach(result, KeysOfAlarm(alarms[i], devices), g);
    }
    assert alarms[..|alarms|] == alarms;
  }

  lemma OneMoreAlarm(index: map<AlarmKey, seq<Id>>, alarms: seq<Id>, i: int, devices: seq<Id>, g: Id)
    requires 0 <= i < |alarms|
    ensures DelAll(index, AllAlarmKeys(alarms[..i + 1], devices), g) ==
            DelAll(DelAll(index, AllAlarmKeys(alarms[..i], devices), g), KeysOfAlarm(alarms[i], devices), g)
  {
    assert alarms[..i + 1][..i] == alarms[..i];
    DelAllAppends(index, AllAlarmKeys(alarms[..i], devices), KeysOfAlarm(alarms[i], devices), g);
  }

  lemma {:induction false} DelAllAppends<K>(index: map<K, seq<Id>>, a: seq<K>, b: seq<K>, g: Id)
    ensures DelAll(index, a + b, g) == DelAll(DelAll(index, a, g), b, g)
    decreases |b|
  {
    if b == [] {
      assert a + b == a;
    } else {
      assert (a + b)[..|a + b| - 1] == a + b[..|b| - 1];
      DelAllAppends(index, a, b[..|b| - 1], g);
    }
  }

  // --------------------------------------------------------------------------------------------- removal and the lists

  lemma {:induction false} WithoutAbsent(ids: seq<Id>, g: Id)
    requires g !in ids
    ensures Without(ids, g) == ids
  {
    if ids == [] {
    } else {
      assert ids[0] in ids;
      WithoutAbsent(ids[1..], g);
    }
  }

  lemma {:induction false} WithoutAt(ids: seq<Id>, g: Id, i: int)
    requires 0 <= i < |ids| && ids[i] == g && NoRepeats(ids)
    ensures Without(ids, g) == ids[..i] + ids[i + 1..]
  {
    if i == 0 {
    } else {
      WithoutAt(ids[1..], g, i - 1);
    }
  }

  lemma {:induction false} WithoutKeepsTheRest(ids: seq<Id>, g: Id)
    requires NoRepeats(ids)
    ensures NoRepeats(Without(ids, g))
    ensures forall x :: x in Without(ids, g) <==> x in ids && x != g
  {
    if ids == [] {
    } else {
      assert ids == [ids[0]] + ids[1..];
      assert ids[0] !in ids[1..];
      WithoutKeepsTheRest(ids[1..], g);
    }
  }

  lemma AddKeepsLists<K(!new)>(index: map<K, seq<Id>>, key: K, g: Id)
    requires Lists(index)
    ensures Lists(Add(index, key, g))
    ensures forall k, x :: Mentions(Add(index, key, g), k, x) <==> Mentions(index, k, x) || (k == key && x == g)
  {
  }

  lemma DelKeepsLists<K(!new)>(index: map<K, seq<Id>>, key: K, g: Id)
    requires Lists(index)
    ensures Lists(Del(index, key, g))
    ensures forall k, x :: Mentions(Del(index, key, g), k, x) <==> Mentions(index, k, x) && !(k == key && x == g)
  {
    WithoutKeepsTheRest(Listed(index, key), g);
  }

  lemma {:induction false} AddAllKeepsLists<K(!new)>(index: map<K, seq<Id>>, keys: seq<K>, g: Id)
    requires Lists(index)
    ensures Lists(AddAll(index, keys, g))
    ensures forall k, x :: Mentions(AddAll(index, keys, g), k, x) <==> Mentions(index, k, x) || (k in keys && x == g)
    decreases |keys|
  {
    if keys == [] {
    } else {
      var n := |keys| - 1;
      assert keys == keys[..n] + [keys[n]];
      AddAllKeepsLists(index, keys[..n], g);
      AddKeepsLists(AddAll(index, keys[..n], g), keys[n], g);
    }
  }

  lemma {:induction false} DelAllKeepsLists<K(!new)>(index: map<K, seq<Id>>, keys: seq<K>, g: Id)
    requires Lists(index)
    ensures Lists(DelAll(index, keys, g))
    ensures forall k, x :: Mentions(DelAll(index, keys, g), k, x) <==> Mentions(index, k, x) && !(k in keys && x == g)
    decreases |keys|
  {
    if keys == [] {
    } else {
      var n := |keys| - 1;
      assert keys == keys[..n] + [keys[n]];
      DelAllKeepsLists(index, keys[..n], g);
      DelKeepsLists(DelAll(index, keys[..n], g), keys[n], g);
    }
  }

  lemma {:induction false} AllAlarmKeysMembers(alarms: seq<Id>, devices: seq<Id>)
    ensures forall key :: key in AllAlarmKeys(alarms, devices) <==> key.alarm in alarms && key.device in devices
  {
    if alarms == [] {
    } else {
      var n := |alarms| - 1;
      assert alarms == alarms[..n] + [alarms[n]];
      AllAlarmKeysMembers(alarms[..n], devices);
      var keys := KeysOfAlarm(alarms[n], devices);
      forall d | d in devices ensures AlarmKey(alarms[n], d) in keys {
        var i :| 0 <= i < |devices| && devices[i] == d;
        assert keys[i] == AlarmKey(alarms[n], d);
      }
    }
  }

  // ------------------------------------------------------------------------------------------------------------- runs

  datatype Step =
    | SetDevice(g: Id, scene: Id, devices: seq<Id>, contents: seq<string>)
    | SetAlarm(g: Id, alarms: seq<Id>, device: Id)
    | DeleteGroup(g: Id)
    | DeleteAlarm(alarm: Id)

  function After(c: Cache, step: Step): Cache {
    match step
    case SetDevice(g, scene, devices, contents) => AfterSetDevice(c, g, scene, devices, contents)
    case SetAlarm(g, alarms, device) => AfterSetAlarm(c, g, alarms, device)
    case DeleteGroup(g) => AfterDeleteGroup(c, g)
    case DeleteAlarm(alarm) => AfterDeleteAlarm(c, alarm)
  }

  function RunFrom(c: Cache, steps: seq<Step>): Cache {
    if steps == [] then c else After(RunFrom(c, steps[..|steps| - 1]), steps[|steps| - 1])
  }

  function Run(steps: seq<Step>): Cache {
    RunFrom(EMPTY, steps)
  }

  lemma StepKeepsLists(c: Cache, step: Step)
    requires WellFormed(c)
    ensures WellFormed(After(c, step))
  {
    match step
    case SetDevice(g, scene, devices, contents) =>
      AddAllKeepsLists(c.byDevice, devices, g);
      AddKeepsLists(c.byScene, scene, g);
    case SetAlarm(g, alarms, device) =>
      AddAllKeepsLists(c.byAlarm, AlarmKeys(alarms, device), g);
    case DeleteGroup(g) =>
      var info := GroupOf(c, g);
      DelAllKeepsLists(c.byDevice, info.devices, g);
      DelAllKeepsLists(c.byAlarm, AllAlarmKeys(info.alarms, info.devices), g);
      DelKeepsLists(c.byScene, info.scene, g);
    case DeleteAlarm(alarm) =>
  }

  lemma {:induction false} RunsKeepListsFrom(c: Cache, steps: seq<Step>)
    requires WellFormed(c)
    ensures WellFormed(RunFrom(c, steps))
    decreases |steps|
  {
    if steps == [] {
    } else {
      RunsKeepListsFrom(c, steps[..|steps| - 1]);
      StepKeepsLists(RunFrom(c, steps[..|steps| - 1]), steps[|steps| - 1]);
    }
  }

  /** In every run the stored lists are non-empty and free of duplicates, so the removal loop is always safe. */
  lemma RunsKeepLists(steps: seq<Step>)
    ensures WellFormed(Run(steps))
  {
    RunsKeepListsFrom(EMPTY, steps);
  }

  /** What DeleteBygroupId leaves, from any well-formed state: of the group's mentions exactly those outside the device
      list, the alarms with those devices, and the scene of its record; of other groups' mentions all. */
  lemma DeleteGroupLeaves(c: Cache, g: Id)
    requires WellFormed(c)
    ensures var c', info := AfterDeleteGroup(c, g), GroupOf(c, g);
            && (forall d, x :: Mentions(c'.byDevice, d, x) <==>
                                 Mentions(c.byDevice, d, x) && !(d in info.devices && x == g))
            && (forall k, x :: Mentions(c'.byAlarm, k, x) <==>
                                 Mentions(c.byAlarm, k, x) && !(k.alarm in info.alarms && k.device in info.devices &&
                                                                x == g))
            && (forall s, x :: Mentions(c'.byScene, s, x) <==>
                                 Mentions(c.byScene, s, x) && !(s == info.scene && x == g))
  {
    var info := GroupOf(c, g);
    DelAllKeepsLists(c.byDevice, info.devices, g);
    AllAlarmKeysMembers(info.alarms, info.devices);
    DelAllKeepsLists(c.byAlarm, AllAlarmKeys(info.alarms, info.devices), g);
    DelKeepsLists(c.byScene, info.scene, g);
  }

  // --------------------------------------------------------------------------------------- the indices and the records

  /** The device and scene indices are the inverses of the records, and the records justify the alarm index. */
  ghost predicate Consistent(c: Cache) {
    && (forall d, g :: Mentions(c.byDevice, d, g) <==> g in c.groups && d in c.groups[g].devices)
    && (forall s, g :: Mentions(c.byScene, s, g) <==> g in c.groups && c.groups[g].scene == s)
    && (forall k, g :: Mentions(c.byAlarm, k, g) ==>
                         g in c.groups && k.alarm in c.groups[g].alarms && k.device in c.groups[g].devices)
  }

  /** A group keeps its scene and adds no devices until it is deleted, alarms come after the devices and at one of them,
      and no alarm that still lists the group is dropped. */
  ghost predicate Disciplined(c: Cache, step: Step) {
    match step
    case SetDevice(g, scene, devices, _) =>
      g in c.groups ==> c.groups[g].scene == scene && forall d :: d in devices ==> d in c.groups[g].devices
    case SetAlarm(g, alarms, device) =>
      && g in c.groups && (alarms != [] ==> device in c.groups[g].devices)
      && (forall k :: Mentions(c.byAlarm, k, g) ==> k.alarm in alarms)
    case DeleteGroup(_) => true
    case DeleteAlarm(_) => true
  }

  lemma AlarmKeysMembers(alarms: seq<Id>, device: Id, key: AlarmKey)
    ensures key in AlarmKeys(alarms, device) <==> key.alarm in alarms && key.device == device
  {
    var keys := AlarmKeys(alarms, device);
    if key.alarm in alarms && key.device == device {
      var i :| 0 <= i < |alarms| && alarms[i] == key.alarm;
      assert keys[i] == key;
    }
  }

  /** What the two set operations add to the indices. */
  lemma SetDeviceAdds(c: Cache, g: Id, scene: Id, devices: seq<Id>, contents: seq<string>)
    requires WellFormed(c)
    ensures var c' := AfterSetDevice(c, g, scene, devices, contents);
            && (forall d, x :: Mentions(c'.byDevice, d, x) <==> Mentions(c.byDevice, d, x) || (d in devices && x == g))
            && (forall s, x :: Mentions(c'.byScene, s, x) <==> Mentions(c.byScene, s, x) || (s == scene && x == g))
            && c'.byAlarm == c.byAlarm
  {
    AddAllKeepsLists(c.byDevice, devices, g);
    AddKeepsLists(c.byScene, scene, g);
  }

  lemma SetAlarmAdds(c: Cache, g: Id, alarms: seq<Id>, device: Id)
    requires WellFormed(c)
    ensures var c' := AfterSetAlarm(c, g, alarms, device);
            && (forall k, x :: Mentions(c'.byAlarm, k, x) <==>
                                 Mentions(c.byAlarm, k, x) || (k.alarm in alarms && k.device == device && x == g))
            && c'.byDevice == c.byDevice && c'.byScene == c.byScene
  {
    AddAllKeepsLists(c.byAlarm, AlarmKeys(alarms, device), g);
    forall key ensures key in AlarmKeys(alarms, device) <==> key.alarm in alarms && key.device == device {
      AlarmKeysMembers(alarms, device, key);
    }
  }

  lemma DeleteAlarmDrops(c: Cache, alarm: Id)
    ensures var c' := AfterDeleteAlarm(c, alarm);
            && (forall k, x :: Mentions(c'.byAlarm, k, x) <==> Mentions(c.byAlarm, k, x) && k.alarm != alarm)
            && c'.byDevice == c.byDevice && c'.byScene == c.byScene && c'.groups == c.groups
  {
  }

  lemma SetDeviceKeepsConsistent(c: Cache, g: Id, scene: Id, devices: seq<Id>, contents: seq<string>)
    requires WellFormed(c) && Consistent(c) && Disciplined(c, SetDevice(g, scene, devices, contents))
    ensures Consistent(AfterSetDevice(c, g, scene, devices, contents))
  {
    SetDeviceAdds(c, g, scene, devices, contents);
  }

  lemma SetDeviceNeedsDiscipline(c: Cache, g: Id, scene: Id, devices: seq<Id>, contents: seq<string>)
    requires WellFormed(c) && Consistent(c) && Consistent(AfterSetDevice(c, g, scene, devices, contents))
    ensures Disciplined(c, SetDevice(g, scene, devices, contents))
  {
    SetDeviceAdds(c, g, scene, devices, contents);
    var c' := AfterSetDevice(c, g, scene, devices, contents);
    assert Mentions(c'.byScene, scene, g);
    assert forall d :: d in devices ==> Mentions(c'.byDevice, d, g);
  }

  lemma SetDeviceConsistency(c: Cache, g: Id, scene: Id, devices: seq<Id>, contents: seq<string>)
    requires WellFormed(c) && Consistent(c)
    ensures Consistent(AfterSetDevice(c, g, scene, devices, contents)) <==>
            Disciplined(c, SetDevice(g, scene, devices, contents))
  {
    if Disciplined(c, SetDevice(g, scene, devices, contents)) {
      SetDeviceKeepsConsistent(c, g, scene, devices, contents);
    }
    if Consistent(AfterSetDevice(c, g, scene, devices, contents)) {
      SetDeviceNeedsDiscipline(c, g, scene, devices, contents);
    }
  }

  lemma SetAlarmKeepsConsistent(c: Cache, g: Id, alarms: seq<Id>, device: Id)
    requires WellFormed(c) && Consistent(c) && Disciplined(c, SetAlarm(g, alarms, device))
    ensures Consistent(AfterSetAlarm(c, g, alarms, device))
  {
    SetAlarmAdds(c, g, alarms, device);
  }

  lemma SetAlarmNeedsDiscipline(c: Cache, g: Id, alarms: seq<Id>, device: Id)
    requires WellFormed(c) && Consistent(c) && Consistent(AfterSetAlarm(c, g, alarms, device))
    ensures Disciplined(c, SetAlarm(g, alarms, device))
  {
    var c' := AfterSetAlarm(c, g, alarms, device);
    SetAlarmAdds(c, g, alarms, device);
    assert Mentions(c'.byScene, c'.groups[g].scene, g);
    assert alarms != [] ==> Mentions(c'.byAlarm, AlarmKey(alarms[0], device), g);
    assert forall k :: Mentions(c.byAlarm, k, g) ==> Mentions(c'.byAlarm, k, g);
  }

  lemma SetAlarmConsistency(c: Cache, g: Id, alarms: seq<Id>, device: Id)
    requires WellFormed(c) && Consistent(c)
    ensures Consistent(AfterSetAlarm(c, g, alarms, device)) <==> Disciplined(c, SetAlarm(g, alarms, device))
  {
    if Disciplined(c, SetAlarm(g, alarms, device)) {
      SetAlarmKeepsConsistent(c, g, alarms, device);
    }
    if Consistent(AfterSetAlarm(c, g, alarms, device)) {
      SetAlarmNeedsDiscipline(c, g, alarms, device);
    }
  }

  lemma DeleteGroupKeepsConsistent(c: Cache, g: Id)
    requires WellFormed(c) && Consistent(c)
    ensures Consistent(AfterDeleteGroup(c, g))
  {
    DeleteGroupLeaves(c, g);
    var c' := AfterDeleteGroup(c, g);
    assert forall x :: x in c'.groups <==> x in c.groups && x != g;
    assert forall x :: x in c'.groups ==> c'.groups[x] == c.groups[x];
  }

  /** The discipline is exactly what keeps the indices consistent. */
  lemma StepConsistency(c: Cache, step: Step)
    requires WellFormed(c) && Consistent(c)
    ensures Consistent(After(c, step)) <==> Disciplined(c, step)
  {
    match step
    case SetDevice(g, scene, devices, contents) => SetDeviceConsistency(c, g, scene, devices, contents);
    case SetAlarm(g, alarms, device) => SetAlarmConsistency(c, g, alarms, device);
    case DeleteGroup(g) => DeleteGroupKeepsConsistent(c, g);
    case DeleteAlarm(alarm) => DeleteAlarmDrops(c, alarm);
  }

  ghost predicate DisciplinedRun(steps: seq<Step>) {
    steps == [] ||
    (DisciplinedRun(steps[..|steps| - 1]) && Disciplined(Run(steps[..|steps| - 1]), steps[|steps| - 1]))
  }

  /** After every step of the run so far. */
  ghost predicate ConsistentThroughout(steps: seq<Step>) {
    Consistent(Run(steps)) && (steps == [] || ConsistentThroughout(steps[..|steps| - 1]))
  }

  /** Main result: the device and scene indices are exact inverses of the group records, and every alarm entry is
      justified by its group's record, at every point of a run if and only if the run is disciplined. */
  lemma {:induction false} ConsistentIffDisciplined(steps: seq<Step>)
    ensures ConsistentThroughout(steps) <==> DisciplinedRun(steps)
  {
    if steps == [] {
    } else {
      var before := steps[..|steps| - 1];
      ConsistentIffDisciplined(before);
      RunsKeepLists(before);
      if ConsistentThroughout(before) {
        StepConsistency(Run(before), steps[|steps| - 1]);
      }
    }
  }

  ghost predicate SameMentions<K(!new)>(a: map<K, seq<Id>>, b: map<K, seq<Id>>, g: Id) {
    forall key :: Mentions(a, key, g) <==> Mentions(b, key, g)
  }

  ghost predicate NoMention(c: Cache, g: Id) {
    && g !in c.groups
    && (forall d :: !Mentions(c.byDevice, d, g))
    && (forall k :: !Mentions(c.byAlarm, k, g))
    && (forall s :: !Mentions(c.byScene, s, g))
  }

  /** From any consistent state, deleting a group leaves no mention of it anywhere, and of the other groups every
      mention. */
  lemma DeleteGroupLeavesNoMention(c: Cache, g: Id)
    requires WellFormed(c) && Consistent(c)
    ensures NoMention(AfterDeleteGroup(c, g), g)
    ensures var c' := AfterDeleteGroup(c, g);
            forall x :: x != g ==>
                          && SameMentions(c.byDevice, c'.byDevice, x)
                          && SameMentions(c.byAlarm, c'.byAlarm, x)
                          && SameMentions(c.byScene, c'.byScene, x)
  {
    DeleteGroupLeaves(c, g);
  }

  // ------------------------------------------------------------------------------------ complete deletes, by the calls

  predicate Sets(step: Step, g: Id) {
    (step.SetDevice? && step.g == g) || (step.SetAlarm? && step.g == g)
  }

  /** The first call that sets g makes its record: the devices and the scene are those of SetDevice, and none if
      SetAlarm comes first. */
  function FirstDevices(steps: seq<Step>, g: Id): seq<Id> {
    if steps == [] then []
    else if !Sets(steps[0], g) then FirstDevices(steps[1..], g)
    else if steps[0].SetDevice? then steps[0].devices
    else []
  }

  function FirstScene(steps: seq<Step>, g: Id): Id {
    if steps == [] then ""
    else if !Sets(steps[0], g) then FirstScene(steps[1..], g)
    else if steps[0].SetDevice? then steps[0].scene
    else ""
  }

  function LastAlarms(steps: seq<Step>, g: Id): seq<Id> {
    if steps == [] then [] else
      var step := steps[|steps| - 1];
      if step.SetAlarm? && step.g == g then step.alarms else LastAlarms(steps[..|steps| - 1], g)
  }

  ghost predicate IsSet(steps: seq<Step>, g: Id) {
    exists i :: 0 <= i < |steps| && Sets(steps[i], g)
  }

  ghost predicate NamesDevice(steps: seq<Step>, g: Id, d: Id) {
    exists i :: 0 <= i < |steps| && steps[i].SetDevice? && steps[i].g == g && d in steps[i].devices
  }

  ghost predicate NamesScene(steps: seq<Step>, g: Id, s: Id) {
    exists i :: 0 <= i < |steps| && steps[i].SetDevice? && steps[i].g == g && steps[i].scene == s
  }

  /** The pair is set for g and its alarm is not deleted afterwards. */
  ghost predicate NamesPair(steps: seq<Step>, g: Id, k: AlarmKey) {
    exists i :: SetsPair(steps, g, k, i) && forall j :: i < j < |steps| ==> steps[j] != DeleteAlarm(k.alarm)
  }

  predicate SetsPair(steps: seq<Step>, g: Id, k: AlarmKey, i: int) {
    0 <= i < |steps| && steps[i].SetAlarm? && steps[i].g == g && steps[i].device == k.device &&
        k.alarm in steps[i].alarms
  }

  /** Everything the calls name for g is in its first devices, its first scene and its last alarms. */
  ghost predicate CallsAgree(steps: seq<Step>, g: Id) {
    && (forall d :: NamesDevice(steps, g, d) ==> d in FirstDevices(steps, g))
    && (forall s :: NamesScene(steps, g, s) ==> s == FirstScene(steps, g))
    && (forall k :: NamesPair(steps, g, k) ==> k.alarm in LastAlarms(steps, g) && k.device in FirstDevices(steps, g))
  }

  lemma {:induction false} FirstOfMore(steps: seq<Step>, step: Step, g: Id)
    ensures FirstDevices(steps + [step], g) == if IsSet(steps, g) then FirstDevices(steps, g)
            else FirstDevices([step], g)
    ensures FirstScene(steps + [step], g) == if IsSet(steps, g) then FirstScene(steps, g) else FirstScene([step], g)
  {
    if steps == [] {
      assert steps + [step] == [step];
    } else {
      assert (steps + [step])[1..] == steps[1..] + [step];
      FirstOfMore(steps[1..], step, g);
      assert IsSet(steps[1..], g) ==> IsSet(steps, g) by {
        if i :| 0 <= i < |steps[1..]| && Sets(steps[1..][i], g) { assert Sets(steps[i + 1], g); }
      }
      assert IsSet(steps, g) && !Sets(steps[0], g) ==> IsSet(steps[1..], g) by {
        if i :| 0 <= i < |steps| && Sets(steps[i], g) && i > 0 { assert Sets(steps[1..][i - 1], g); }
      }
    }
  }

  /** The record that the calls leave, from a state without one. */
  ghost predicate RecordFits(c: Cache, steps: seq<Step>, g: Id) {
    && (g in c.groups <==> IsSet(steps, g))
    && GroupOf(c, g).devices == FirstDevices(steps, g)
    && GroupOf(c, g).scene == FirstScene(steps, g)
    && GroupOf(c, g).alarms == LastAlarms(steps, g)
  }

  lemma IsSetOfMore(steps: seq<Step>, g: Id)
    requires steps != []
    ensures IsSet(steps, g) <==> IsSet(steps[..|steps| - 1], g) || Sets(steps[|steps| - 1], g)
  {
    var n := |steps| - 1;
    if i :| 0 <= i < n && Sets(steps[..n][i], g) { assert Sets(steps[i], g); }
    if i :| 0 <= i < n && Sets(steps[i], g) { assert Sets(steps[..n][i], g); }
  }

  /** One step sets the record of g as the first call, or changes its alarms, or leaves it. */
  lemma RecordOfStep(c: Cache, step: Step, g: Id)
    requires step != DeleteGroup(g)
    ensures var before, after := GroupOf(c, g), GroupOf(After(c, step), g);
            && (g in After(c, step).groups <==> g in c.groups || Sets(step, g))
            && after.devices == (if g in c.groups || !Sets(step, g) then before.devices else FirstDevices([step], g))
            && after.scene == (if g in c.groups || !Sets(step, g) then before.scene else FirstScene([step], g))
            && after.alarms == if step.SetAlarm? && step.g == g then step.alarms else before.alarms
  {
  }

  lemma {:induction false} CallsMakeRecord(c: Cache, steps: seq<Step>, g: Id)
    requires g !in c.groups && DeleteGroup(g) !in steps
    ensures RecordFits(RunFrom(c, steps), steps, g)
    decreases |steps|
  {
    if steps == [] {
    } else {
      var n := |steps| - 1;
      assert steps == steps[..n] + [steps[n]];
      CallsMakeRecord(c, steps[..n], g);
      FirstOfMore(steps[..n], steps[n], g);
      IsSetOfMore(steps, g);
      RecordOfStep(RunFrom(c, steps[..n]), steps[n], g);
    }
  }

  /** The mentions that the calls leave, from a state without any. */
  ghost predicate MentionsFit(c: Cache, steps: seq<Step>, g: Id) {
    && (forall d :: Mentions(c.byDevice, d, g) <==> NamesDevice(steps, g, d))
    && (forall s :: Mentions(c.byScene, s, g) <==> NamesScene(steps, g, s))
    && (forall k :: Mentions(c.byAlarm, k, g) <==> NamesPair(steps, g, k))
  }

  lemma NamesOfMore(steps: seq<Step>, g: Id, d: Id)
    requires steps != []
    ensures var n := |steps| - 1;
            && (NamesDevice(steps, g, d) <==>
                NamesDevice(steps[..n], g, d) || (steps[n].SetDevice? && steps[n].g == g && d in steps[n].devices))
            && (NamesScene(steps, g, d) <==>
                NamesScene(steps[..n], g, d) || (steps[n].SetDevice? && steps[n].g == g && d == steps[n].scene))
  {
    var n := |steps| - 1;
    assert forall i :: 0 <= i < n ==> steps[..n][i] == steps[i];
  }

  lemma PairsOfMore(steps: seq<Step>, g: Id, k: AlarmKey)
    requires steps != []
    ensures var n := |steps| - 1;
            NamesPair(steps, g, k) <==>
            SetsPair(steps, g, k, n) || (NamesPair(steps[..n], g, k) && steps[n] != DeleteAlarm(k.alarm))
  {
    var n := |steps| - 1;
    assert forall i :: i < n ==> (SetsPair(steps[..n], g, k, i) <==> SetsPair(steps, g, k, i));
    if NamesPair(steps[..n], g, k) && steps[n] != DeleteAlarm(k.alarm) {
      var i :| SetsPair(steps[..n], g, k, i) && forall j :: i < j < n ==> steps[..n][j] != DeleteAlarm(k.alarm);
      assert SetsPair(steps, g, k, i) && forall j :: i < j < n ==> steps[j] == steps[..n][j];
    }
    if i :| SetsPair(steps, g, k, i) && i < n && forall j :: i < j < |steps| ==> steps[j] != DeleteAlarm(k.alarm) {
      assert SetsPair(steps[..n], g, k, i) && forall j :: i < j < n ==> steps[..n][j] == steps[j];
    }
  }

  /** What one step changes in the mentions of g. */
  lemma MentionsOfStep(c: Cache, step: Step, g: Id)
    requires WellFormed(c) && step != DeleteGroup(g)
    ensures var c' := After(c, step);
            && (forall d :: Mentions(c'.byDevice, d, g) <==>
                              Mentions(c.byDevice, d, g) || (step.SetDevice? && step.g == g && d in step.devices))
            && (forall s :: Mentions(c'.byScene, s, g) <==>
                              Mentions(c.byScene, s, g) || (step.SetDevice? && step.g == g && s == step.scene))
            && (forall k :: Mentions(c'.byAlarm, k, g) <==>
                              (Mentions(c.byAlarm, k, g) && step != DeleteAlarm(k.alarm)) ||
                              (step.SetAlarm? && step.g == g && k.device == step.device && k.alarm in step.alarms))
  {
    match step
    case SetDevice(x, scene, devices, contents) => SetDeviceAdds(c, x, scene, devices, contents);
    case SetAlarm(x, alarms, device) => SetAlarmAdds(c, x, alarms, device);
    case DeleteGroup(x) => DeleteGroupLeaves(c, x);
    case DeleteAlarm(alarm) => DeleteAlarmDrops(c, alarm);
  }

  lemma StepMentions(c: Cache, steps: seq<Step>, g: Id)
    requires WellFormed(c) && steps != [] && MentionsFit(c, steps[..|steps| - 1], g) &&
             steps[|steps| - 1] != DeleteGroup(g)
    ensures MentionsFit(After(c, steps[|steps| - 1]), steps, g)
  {
    MentionsOfStep(c, steps[|steps| - 1], g);
    forall d { NamesOfMore(steps, g, d); }
    forall k { PairsOfMore(steps, g, k); }
  }

  lemma {:induction false} CallsMakeMentions(c: Cache, steps: seq<Step>, g: Id)
    requires WellFormed(c) && NoMention(c, g) && DeleteGroup(g) !in steps
    ensures MentionsFit(RunFrom(c, steps), steps, g)
    decreases |steps|
  {
    if steps == [] {
    } else {
      var n := |steps| - 1;
      assert steps == steps[..n] + [steps[n]];
      CallsMakeMentions(c, steps[..n], g);
      RunsKeepListsFrom(c, steps[..n]);
      StepMentions(RunFrom(c, steps[..n]), steps, g);
    }
  }

  /** Main result: from a state with no mention of a group, and after any calls that do not delete it, deleting it
      leaves no mention of it if and only if the calls agree about it. */
  lemma DeleteIsCompleteIffCallsAgree(c: Cache, steps: seq<Step>, g: Id)
    requires WellFormed(c) && NoMention(c, g) && DeleteGroup(g) !in steps
    ensures NoMention(AfterDeleteGroup(RunFrom(c, steps), g), g) <==> CallsAgree(steps, g)
  {
    var c' := RunFrom(c, steps);
    RunsKeepListsFrom(c, steps);
    CallsMakeRecord(c, steps, g);
    CallsMakeMentions(c, steps, g);
    DeleteGroupLeaves(c', g);
  }

  /** When an alarm list shrinks before the delete, the dropped alarm keeps the deleted group. */
  lemma ShrunkAlarmListLeavesMention()
    ensures var steps := [SetDevice("g", "s", ["d"], []), SetAlarm("g", ["a"], "d"), SetAlarm("g", [], "d")];
            Mentions(AfterDeleteGroup(Run(steps), "g").byAlarm, AlarmKey("a", "d"), "g")
  {
  }

  /** A class condition sets the group once for every device that triggers it. */
  function ClassCalls(g: Id, scene: Id, first: Id, second: Id, alarm: Id): seq<Step> {
    [SetDevice(g, scene, [first], []), SetDevice(g, scene, [second], []), SetAlarm(g, [alarm], second)]
  }

  lemma ClassCallsName(g: Id, scene: Id, first: Id, second: Id, alarm: Id)
    ensures var steps := ClassCalls(g, scene, first, second, alarm);
            && FirstDevices(steps, g) == [first]
            && NamesDevice(steps, g, second) && NamesPair(steps, g, AlarmKey(alarm, second))
  {
    var steps := ClassCalls(g, scene, first, second, alarm);
    assert steps[1].SetDevice? && second in steps[1].devices;
    assert SetsPair(steps, g, AlarmKey(alarm, second), 2);
  }

  /** The record keeps the first device, so after the delete the second one still lists the group. */
  lemma SecondDeviceLeavesMention(g: Id, scene: Id, first: Id, second: Id, alarm: Id)
    requires first != second
    ensures var c := AfterDeleteGroup(Run(ClassCalls(g, scene, first, second, alarm)), g);
            Mentions(c.byDevice, second, g) && Mentions(c.byAlarm, AlarmKey(alarm, second), g)
  {
    var steps := ClassCalls(g, scene, first, second, alarm);
    ClassCallsName(g, scene, first, second, alarm);
    CallsMakeRecord(EMPTY, steps, g);
    CallsMakeMentions(EMPTY, steps, g);
    RunsKeepLists(steps);
    DeleteGroupLeaves(Run(steps), g);
  }
}
