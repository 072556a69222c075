/** The automation cache as a class. Its methods do what the effects in module AutomateStore say: loops over the
  * arguments fill maps, loops over those maps write the keys, and the field `device` holds the key prefix in use. */
module AutomateCache {
  import opened AutomateStore

  /** Ranging over a map visits its keys once each, in any order. */
  method Range(keys: set<Id>) returns (order: seq<Id>)
    ensures IsOrder(order, keys) && Members(order) == keys
  {
    order := [];
    var remaining := keys;
    while remaining != {}
      invariant remaining <= keys && IsOrder(order, keys - remaining)
      decreases remaining
    {
      var k :| k in remaining;
      order := order + [k];
      remaining := remaining - {k};
    }
  }

  // ---------------------------------------------------------------------------------------- maps filled from arguments

  function GroupsMap(conditions: seq<Condition>): map<Id, seq<Condition>> {
    map g | g in GroupIds(conditions) :: OfGroup(conditions, g)
  }

  function ScenesMap(conditions: seq<Condition>): map<Id, set<Id>> {
    map s | s in ConditionScenes(conditions) :: GroupsOfScene(conditions, s)
  }

  function ActionsMap(actions: seq<Action>): map<Id, seq<Action>> {
    map s | s in ActionScenes(actions) :: ActionsOf(actions, s)
  }

  lemma OfGroupSnoc(conditions: seq<Condition>, v: Condition, g: Id)
    ensures OfGroup(conditions + [v], g) == OfGroup(conditions, g) + if v.group == g then [v] else []
  {
    assert (conditions + [v])[..|conditions|] == conditions;
  }

  lemma OfGroupAbsent(conditions: seq<Condition>, g: Id)
    requires g !in GroupIds(conditions)
    ensures OfGroup(conditions, g) == []
  {
    OfGroupMembers(conditions, g);
    assert |OfGroup(conditions, g)| > 0 ==> OfGroup(conditions, g)[0] in OfGroup(conditions, g);
  }

  lemma GroupIdsSnoc(conditions: seq<Condition>, v: Condition)
    ensures GroupIds(conditions + [v]) == GroupIds(conditions) + {v.group}
  {
    assert forall c :: c in conditions + [v] <==> c in conditions || c == v;
  }

  lemma GroupAfterSnoc(conditions: seq<Condition>, v: Condition, g: Id)
    ensures OfGroup(conditions + [v], g) ==
            if g == v.group then (if g in GroupIds(conditions) then OfGroup(conditions, g) else []) + [v]
            else OfGroup(conditions, g)
  {
    OfGroupSnoc(conditions, v, g);
    if g !in GroupIds(conditions) { OfGroupAbsent(conditions, g); }
  }

  lemma MapSnoc<K, V>(m: map<K, V>, m': map<K, V>, key: K, value: V)
    requires m'.Keys == m.Keys + {key} && forall k :: k in m' ==> m'[k] == if k == key then value else m[k]
    ensures m' == m[key := value]
  {
  }

  lemma GroupsMapSnoc(conditions: seq<Condition>, v: Condition)
    ensures var m := GroupsMap(conditions);
            GroupsMap(conditions + [v]) == m[v.group := (if v.group in m then m[v.group] else []) + [v]]
  {
    GroupIdsSnoc(conditions, v);
    var m, m' := GroupsMap(conditions), GroupsMap(conditions + [v]);
    assert m'.Keys == m.Keys + {v.group};
    forall g | g in m' ensures m'[g] == if g == v.group then (if g in m then m[g] else []) + [v] else m[g] {
      GroupAfterSnoc(conditions, v, g);
    }
    MapSnoc(m, m', v.group, (if v.group in m then m[v.group] else []) + [v]);
  }

  lemma ScenesMapSnoc(conditions: seq<Condition>, v: Condition)
    ensures var m := ScenesMap(conditions);
            ScenesMap(conditions + [v]) == m[v.scene := (if v.scene in m then m[v.scene] else {}) + {v.group}]
  {
    var more := conditions + [v];
    assert forall c :: c in more <==> c in conditions || c == v;
    var m, m' := ScenesMap(conditions), ScenesMap(more);
    assert m'.Keys == m.Keys + {v.scene};
    forall s | s in m'
      ensures m'[s] == if s == v.scene then (if s in m then m[s] else {}) + {v.group} else m[s]
    {
      assert GroupsOfScene(more, s) == GroupsOfScene(conditions, s) + if v.scene == s then {v.group} else {};
      if s !in m { assert GroupsOfScene(conditions, s) == {}; }
    }
    MapSnoc(m, m', v.scene, (if v.scene in m then m[v.scene] else {}) + {v.group});
  }

  lemma ActionsOfSnoc(actions: seq<Action>, v: Action, s: Id)
    ensures ActionsOf(actions + [v], s) == ActionsOf(actions, s) + if v.scene == s then [v] else []
  {
    assert (actions + [v])[..|actions|] == actions;
  }

  lemma ActionsOfAbsent(actions: seq<Action>, s: Id)
    requires s !in ActionScenes(actions)
    ensures ActionsOf(actions, s) == []
  {
    ActionsOfMembers(actions, s);
    assert |ActionsOf(actions, s)| > 0 ==> ActionsOf(actions, s)[0] in ActionsOf(actions, s);
  }

  lemma ActionScenesSnoc(actions: seq<Action>, v: Action)
    ensures ActionScenes(actions + [v]) == ActionScenes(actions) + {v.scene}
  {
    assert forall a :: a in actions + [v] <==> a in actions || a == v;
  }

  lemma ActionsAfterSnoc(actions: seq<Action>, v: Action, s: Id)
    ensures ActionsOf(actions + [v], s) ==
            if s == v.scene then (if s in ActionScenes(actions) then ActionsOf(actions, s) else []) + [v]
            else ActionsOf(actions, s)
  {
    ActionsOfSnoc(actions, v, s);
    if s !in ActionScenes(actions) { ActionsOfAbsent(actions, s); }
  }

  lemma ActionsMapSnoc(actions: seq<Action>, v: Action)
    ensures var m := ActionsMap(actions);
            ActionsMap(actions + [v]) == m[v.scene := (if v.scene in m then m[v.scene] else []) + [v]]
  {
    ActionScenesSnoc(actions, v);
    var m, m' := ActionsMap(actions), ActionsMap(actions + [v]);
    assert m'.Keys == m.Keys + {v.scene};
    forall s | s in m' ensures m'[s] == if s == v.scene then (if s in m then m[s] else []) + [v] else m[s] {
      ActionsAfterSnoc(actions, v, s);
    }
    MapSnoc(m, m', v.scene, (if v.scene in m then m[v.scene] else []) + [v]);
  }

  lemma TakeOneMore<T>(s: seq<T>, i: int)
    requires 0 <= i < |s|
    ensures s[..i + 1] == s[..i] + [s[i]]
  {
  }

  method CollectGroupInfos(conditions: seq<Condition>) returns (groupInfosMap: map<Id, seq<Condition>>)
    ensures groupInfosMap == GroupsMap(conditions)
  {
    groupInfosMap := map[];
    for i := 0 to |conditions|
      invariant groupInfosMap == GroupsMap(conditions[..i])
    {
      var v := conditions[i];
      TakeOneMore(conditions, i);
      GroupsMapSnoc(conditions[..i], v);
      groupInfosMap := groupInfosMap[v.group := (if v.group in groupInfosMap then groupInfosMap[v.group] else []) +
                                     [v]];
    }
    assert conditions[..|conditions|] == conditions;
  }

  method CollectDeviceInfos(conditions: seq<Condition>) returns (deviceInfosMap: map<Id, set<Id>>)
    ensures deviceInfosMap == ScenesMap(conditions)
  {
    deviceInfosMap := map[];
    for i := 0 to |conditions|
      invariant deviceInfosMap == ScenesMap(conditions[..i])
    {
      var v := conditions[i];
      TakeOneMore(conditions, i);
      ScenesMapSnoc(conditions[..i], v);
      var groups := if v.scene in deviceInfosMap then deviceInfosMap[v.scene] else {};
      deviceInfosMap := deviceInfosMap[v.scene := groups + {v.group}];
    }
    assert conditions[..|conditions|] == conditions;
  }

  method CollectActions(actions: seq<Action>) returns (actionsMap: map<Id, seq<Action>>)
    ensures actionsMap == ActionsMap(actions)
  {
    actionsMap := map[];
    for i := 0 to |actions|
      invariant actionsMap == ActionsMap(actions[..i])
    {
      var v := actions[i];
      TakeOneMore(actions, i);
      ActionsMapSnoc(actions[..i], v);
      actionsMap := actionsMap[v.scene := (if v.scene in actionsMap then actionsMap[v.scene] else []) + [v]];
    }
    assert actions[..|actions|] == actions;
  }

  // ---------------------------------------------------------------------------------------- one more key in a range

  lemma OneMoreMember(order: seq<Id>, members: set<Id>, i: int)
    requires IsOrder(order, members) && 0 <= i < |order|
    ensures order[..i + 1] == order[..i] + [order[i]] && order[i] in members
    ensures order[i] !in Members(order[..i]) && Members(order[..i + 1]) == Members(order[..i]) + {order[i]}
  {
    TakeOneMore(order, i);
    assert order[i] in order;
  }

  lemma UpdateLast<K, V>(before: map<K, V>, writes: map<K, V>, key: K, value: V)
    ensures before + writes[key := value] == (before + writes)[key := value]
  {
  }

  lemma OneMoreGroup(groups: map<Key, seq<Condition>>, kind: Kind, conditions: seq<Condition>, members: set<Id>, g: Id)
    ensures groups + GroupWrites(kind, conditions, members + {g}) ==
            (groups + GroupWrites(kind, conditions, members))[Key(kind, g) := OfGroup(conditions, g)]
  {
    var w, w' := GroupWrites(kind, conditions, members), GroupWrites(kind, conditions, members + {g});
    assert forall k :: k in w' <==> k in w || k == Key(kind, g);
    forall k | k in w' ensures w'[k] == if k == Key(kind, g) then OfGroup(conditions, g) else w[k] {
      assert k.id == g ==> k == Key(kind, g);
    }
    assert w' == w[Key(kind, g) := OfGroup(conditions, g)];
    UpdateLast(groups, w, Key(kind, g), OfGroup(conditions, g));
  }

  lemma OneMoreDevice(devices: map<Key, DeviceEntry>, kind: Kind, members: set<Id>, d: Id, info: DeviceInfo)
    requires d !in members
    ensures var before, key := devices + SceneWrites(devices, kind, members, info), Key(kind, d);
            && InfosAt(before, key) == InfosAt(devices, key)
            && devices + SceneWrites(devices, kind, members + {d}, info) ==
               before[key := Scenes(InfosAt(devices, key) + [info])]
  {
  }

  lemma MembersSnoc(order: seq<Id>, s: Id)
    ensures Members(order + [s]) == Members(order) + {s}
  {
  }

  lemma OneMoreAction(before: map<Key, ActionEntry>, kind: Kind, actions: seq<Action>, o: Orders, s: Id,
                      groupIds: seq<Id>)
    requires s !in o.scenes && forall x :: x in o.scenes ==> x in o.groups
    ensures var next := Orders(o.scenes + [s], o.groups[s := groupIds]);
            && (forall x :: x in next.scenes ==> x in next.groups)
            && before + ActionWrites(kind, actions, next) ==
               (before + ActionWrites(kind, actions, o))[Key(kind, s) := ActionEntry(groupIds, ActionsOf(actions, s))]
  {
    var next, entry := Orders(o.scenes + [s], o.groups[s := groupIds]), ActionEntry(groupIds, ActionsOf(actions, s));
    var w, w' := ActionWrites(kind, actions, o), ActionWrites(kind, actions, next);
    MembersSnoc(o.scenes, s);
    assert forall k :: k in w' <==> k in w || k == Key(kind, s);
    forall k | k in w' ensures w'[k] == if k == Key(kind, s) then entry else w[k] {
      assert k.id == s ==> k == Key(kind, s);
    }
    assert w' == w[Key(kind, s) := entry];
    UpdateLast(before, w, Key(kind, s), entry);
  }

  lemma OneMoreInfo(o: Orders, s: Id, groupIds: seq<Id>)
    requires s !in o.scenes && forall x :: x in o.scenes ==> x in o.groups
    ensures var next := Orders(o.scenes + [s], o.groups[s := groupIds]);
            && (forall x :: x in next.scenes ==> x in next.groups)
            && Infos(next.scenes, next.groups) == Infos(o.scenes, o.groups) + [DeviceInfo(s, groupIds)]
  {
  }

  /** The orders of a partly visited range over the scenes of the actions. */
  ghost predicate PartialOrders(conditions: seq<Condition>, visited: set<Id>, o: Orders) {
    && IsOrder(o.scenes, visited * ConditionScenes(conditions))
    && (forall s :: s in o.scenes ==> s in o.groups && IsOrder(o.groups[s], GroupsOfScene(conditions, s)))
  }

  lemma VisitScene(conditions: seq<Condition>, visited: set<Id>, o: Orders, s: Id, groupIds: seq<Id>)
    requires PartialOrders(conditions, visited, o) && s !in visited && s in ConditionScenes(conditions)
    requires IsOrder(groupIds, GroupsOfScene(conditions, s))
    ensures s !in o.scenes && PartialOrders(conditions, visited + {s}, Orders(o.scenes + [s], o.groups[s := groupIds]))
  {
    var all := ConditionScenes(conditions);
    assert (visited + {s}) * all == visited * all + {s};
  }

  lemma SkipScene(conditions: seq<Condition>, visited: set<Id>, o: Orders, s: Id)
    requires PartialOrders(conditions, visited, o) && s !in ConditionScenes(conditions)
    ensures PartialOrders(conditions, visited + {s}, o)
  {
    assert (visited + {s}) * ConditionScenes(conditions) == visited * ConditionScenes(conditions);
  }

  /** The range over the scenes of the actions after some of them have been visited. */
  ghost predicate Written(before: map<Key, ActionEntry>, kind: Kind, conditions: seq<Condition>, actions: seq<Action>,
                          visited: set<Id>, o: Orders, infos: seq<DeviceInfo>, written: map<Key, ActionEntry>) {
    && PartialOrders(conditions, visited, o)
    && infos == Infos(o.scenes, o.groups)
    && written == before + ActionWrites(kind, actions, o)
  }

  lemma WrittenVisit(before: map<Key, ActionEntry>, kind: Kind, conditions: seq<Condition>, actions: seq<Action>,
                     visited: set<Id>, o: Orders, infos: seq<DeviceInfo>, written: map<Key, ActionEntry>,
                     s: Id, groupIds: seq<Id>)
    requires Written(before, kind, conditions, actions, visited, o, infos, written)
    requires s !in visited && s in ConditionScenes(conditions) && IsOrder(groupIds, GroupsOfScene(conditions, s))
    ensures Written(before, kind, conditions, actions, visited + {s}, Orders(o.scenes + [s], o.groups[s := groupIds]),
                    infos + [DeviceInfo(s, groupIds)],
                    written[Key(kind, s) := ActionEntry(groupIds, ActionsOf(actions, s))])
  {
    VisitScene(conditions, visited, o, s, groupIds);
    OneMoreAction(before, kind, actions, o, s, groupIds);
    OneMoreInfo(o, s, groupIds);
  }

  lemma WrittenAll(conditions: seq<Condition>, actions: seq<Action>, o: Orders)
    requires PartialOrders(conditions, ActionScenes(actions), o)
    ensures ValidOrders(conditions, actions, o)
  {
  }

  lemma WrittenNone(before: map<Key, ActionEntry>, kind: Kind, conditions: seq<Condition>, actions: seq<Action>)
    ensures Written(before, kind, conditions, actions, {}, Orders([], map[]), [], before)
  {
    assert before + ActionWrites(kind, actions, Orders([], map[])) == before;
  }

  class AutomateCache {
    var redis: Redis
    var device: Kind

    constructor ()
      ensures redis == Redis(map[], map[], map[]) && device == One
    {
      redis, device := Redis(map[], map[], map[]), One;
    }

    // ---------------------------------------------------------------------------------------------------------- lookup

    method GetCacheByDeviceId(deviceId: Id, deviceConfigId: Id) returns (result: Lookup)
      modifies this`device
      ensures device == (if deviceConfigId == "" then One else Multiple)
      ensures result == LookupOf(redis, device, if deviceConfigId == "" then deviceId else deviceConfigId)
    {
      var id := deviceId;
      if deviceConfigId == "" {
        device := One;
      } else {
        device := Multiple;
        id := deviceConfigId;
      }
      result := GetCacheByDId(Key(device, id));
    }

    method GetCacheByDId(key: Key) returns (result: Lookup)
      requires key.kind == device
      ensures result == LookupOf(redis, key.kind, key.id)
    {
      if key !in redis.devices {
        return NotFound;
      }
      if redis.devices[key].NoTask? {
        return NotTask;
      }
      var infos := redis.devices[key].infos;
      var scenes: seq<SceneInfo> := [];
      for i := 0 to |infos|
        invariant scenes == CollectScenes(redis, device, infos[..i])
      {
        assert infos[..i + 1][..i] == infos[..i];
        var conditions := CachedConditions(infos[i].groups);
        var actionKey := Key(device, infos[i].scene);
        if actionKey in redis.actions {
          scenes := scenes + [SceneInfo(infos[i].scene, conditions, redis.actions[actionKey].actions)];
        }
      }
      assert infos[..|infos|] == infos;
      return Found(scenes);
    }

    method CachedConditions(groups: seq<Id>) returns (conditions: seq<Condition>)
      ensures conditions == CollectGroups(redis, device, groups)
    {
      conditions := [];
      for i := 0 to |groups|
        invariant conditions == CollectGroups(redis, device, groups[..i])
      {
        assert groups[..i + 1][..i] == groups[..i];
        if Key(device, groups[i]) in redis.groups {
          conditions := conditions + redis.groups[Key(device, groups[i])];
        }
      }
      assert groups[..|groups|] == groups;
    }

    // --------------------------------------------------------------------------------------------------------- writers

    method SetCacheByDeviceIdWithNoTask(deviceId: Id, deviceConfigId: Id)
      modifies this
      ensures device == (if deviceConfigId == "" then One else Multiple)
      ensures redis == AfterSetNoTask(old(redis), device, if deviceConfigId == "" then deviceId else deviceConfigId)
      ensures LookupOf(redis, device, if deviceConfigId == "" then deviceId else deviceConfigId) == NotTask
      ensures forall kind, id :: Key(kind, id) != Key(device, if deviceConfigId == "" then deviceId
                                                      else deviceConfigId) ==>
                                   LookupOf(redis, kind, id) == LookupOf(old(redis), kind, id)
    {
      var cacheKey := Key(One, deviceId);
      if deviceConfigId == "" {
        device := One;
      } else {
        device := Multiple;
        cacheKey := Key(Multiple, deviceConfigId);
      }
      redis := redis.(devices := redis.devices[cacheKey := NoTask]);
      forall kind, id | Key(kind, id) != cacheKey ensures LookupOf(redis, kind, id) == LookupOf(old(redis), kind, id) {
        SetNoTaskKeepsOthers(old(redis), cacheKey.kind, cacheKey.id, kind, id);
      }
    }

    method SetCacheByDeviceId(deviceId: Id, deviceConfigId: Id, conditions: seq<Condition>, actions: seq<Action>)
      returns (ghost o: Orders)
      modifies this
      ensures device == (if deviceConfigId == "" then One else Multiple)
      ensures ValidOrders(conditions, actions, o)
      ensures redis == AfterSetDevice(old(redis), device, if deviceConfigId == "" then deviceId else deviceConfigId,
                                      conditions, actions, o)
    {
      if deviceConfigId == "" {
        device := One;
      } else {
        device := Multiple;
      }
      o := SetCache(if deviceConfigId != "" then deviceConfigId else deviceId, conditions, actions);
    }

    method SetCache(id: Id, conditions: seq<Condition>, actions: seq<Action>) returns (ghost o: Orders)
      modifies this`redis
      ensures ValidOrders(conditions, actions, o)
      ensures redis == AfterSetDevice(old(redis), device, id, conditions, actions, o)
    {
      ghost var before := redis;
      var groupInfosMap := CollectGroupInfos(conditions);
      var deviceInfosMap := CollectDeviceInfos(conditions);
      assert groupInfosMap.Keys == GroupIds(conditions);
      WriteGroups(conditions, groupInfosMap, groupInfosMap.Keys);
      ghost var groups := redis.groups;
      assert groups == before.groups + GroupWrites(device, conditions, GroupIds(conditions));
      assert redis == Redis(before.devices, groups, before.actions);
      var actionsMap := CollectActions(actions);
      var infos;
      infos, o := WriteActions(conditions, actions, deviceInfosMap, actionsMap);
      ghost var written := redis.actions;
      assert written == before.actions + ActionWrites(device, actions, o);
      assert redis == Redis(before.devices, groups, written);
      redis := redis.(devices := redis.devices[Key(device, id) := Scenes(infos)]);
    }

    /** Writes the group entries of the given groups. */
    method WriteGroups(ghost conditions: seq<Condition>, groupInfosMap: map<Id, seq<Condition>>, groups: set<Id>)
      requires groupInfosMap == GroupsMap(conditions) && groups <= groupInfosMap.Keys
      modifies this`redis
      ensures redis == old(redis).(groups := old(redis).groups + GroupWrites(device, conditions, groups))
    {
      var order := Range(groups);
      ghost var before := redis;
      for i := 0 to |order|
        invariant redis == before.(groups := before.groups + GroupWrites(device, conditions, Members(order[..i])))
      {
        OneMoreMember(order, groups, i);
        OneMoreGroup(before.groups, device, conditions, Members(order[..i]), order[i]);
        redis := redis.(groups := redis.groups[Key(device, order[i]) := groupInfosMap[order[i]]]);
      }
      assert order[..|order|] == order;
    }

    /** Writes the action entries of the scenes that have conditions, and lists those scenes for the device. */
    method WriteActions(ghost conditions: seq<Condition>, ghost actions: seq<Action>, deviceInfosMap: map<Id, set<Id>>,
                        actionsMap: map<Id, seq<Action>>) returns (infos: seq<DeviceInfo>, ghost o: Orders)
      requires deviceInfosMap == ScenesMap(conditions) && actionsMap == ActionsMap(actions)
      modifies this`redis
      ensures ValidOrders(conditions, actions, o)
      ensures infos == Infos(o.scenes, o.groups)
      ensures redis == old(redis).(actions := old(redis).actions + ActionWrites(device, actions, o))
    {
      var order := Range(actionsMap.Keys);
      ghost var before := redis;
      infos, o := [], Orders([], map[]);
      WrittenNone(redis.actions, device, conditions, actions);
      assert Members(order[..0]) == {};
      for i := 0 to |order|
        invariant Written(before.actions, device, conditions, actions, Members(order[..i]), o, infos, redis.actions)
        invariant redis == before.(actions := redis.actions)
      {
        OneMoreMember(order, actionsMap.Keys, i);
        var s := order[i];
        if s in deviceInfosMap {
          var groupIds := Range(deviceInfosMap[s]);
          WrittenVisit(before.actions, device, conditions, actions, Members(order[..i]), o, infos, redis.actions, s,
                       groupIds);
          redis := redis.(actions := redis.actions[Key(device, s) := ActionEntry(groupIds, actionsMap[s])]);
          infos := infos + [DeviceInfo(s, groupIds)];
          o := Orders(o.scenes + [s], o.groups[s := groupIds]);
        } else {
          SkipScene(conditions, Members(order[..i]), o, s);
        }
      }
      assert order[..|order|] == order;
      assert Members(order) == ActionScenes(actions);
      WrittenAll(conditions, actions, o);
    }

    method SetCacheBySceneAutomationId(s: Id, conditions: seq<Condition>, actions: seq<Action>)
      returns (ghost multiple: seq<Id>, ghost one: seq<Id>)
      requires SourcesKnown(conditions)
      modifies this
      ensures device == One
      ensures IsOrder(multiple, GroupsOfType(conditions, Multiple)) && IsOrder(one, GroupsOfType(conditions, One))
      ensures redis == AfterSetScene(old(redis), s, conditions, actions, multiple, one)
    {
      device := Multiple;
      multiple := SetCacheBySceneAutId(s, conditions, actions);
      device := One;
      one := SetCacheBySceneAutId(s, conditions, actions);
    }

    method SetCacheBySceneAutId(s: Id, conditions: seq<Condition>, actions: seq<Action>) returns (ghost order: seq<Id>)
      requires SourcesKnown(conditions)
      modifies this`redis
      ensures IsOrder(order, GroupsOfType(conditions, device))
      ensures redis == AfterSetSceneKind(old(redis), device, s, conditions, actions, order)
    {
      var groupInfosMap := CollectGroupInfos(conditions);
      var deviceIdsMap := CollectSources(conditions);
      if deviceIdsMap == {} {
        order := Range(GroupsOfType(conditions, device));
        return;
      }
      var groupIds := KeepGroupsOfType(conditions, groupInfosMap);
      WriteGroups(conditions, groupInfosMap, Members(groupIds));
      redis := redis.(actions := redis.actions[Key(device, s) := ActionEntry(groupIds, actions)]);
      AppendToDevices(deviceIdsMap, DeviceInfo(s, groupIds));
      order := groupIds;
    }

    method CollectSources(conditions: seq<Condition>) returns (deviceIds: set<Id>)
      requires SourcesKnown(conditions)
      ensures deviceIds == Sources(conditions, device)
    {
      deviceIds := {};
      for i := 0 to |conditions|
        invariant deviceIds == Sources(conditions[..i], device)
      {
        var v := conditions[i];
        assert conditions[..i + 1] == conditions[..i] + [v];
        if v.conditionType == TypeOf(device) {
          assert v in conditions;
          deviceIds := deviceIds + {v.source.value};
        }
      }
      assert conditions[..|conditions|] == conditions;
    }

    /** The groups, in the order of the range, that hold a condition of the prefix's type. */
    method KeepGroupsOfType(ghost conditions: seq<Condition>, groupInfosMap: map<Id, seq<Condition>>)
      returns (groupIds: seq<Id>)
      requires groupInfosMap == GroupsMap(conditions)
      ensures IsOrder(groupIds, GroupsOfType(conditions, device))
      ensures Members(groupIds) == GroupsOfType(conditions, device)
    {
      var order := Range(groupInfosMap.Keys);
      groupIds := [];
      for i := 0 to |order|
        invariant IsOrder(groupIds, Members(order[..i]) * GroupsOfType(conditions, device))
      {
        OneMoreMember(order, groupInfosMap.Keys, i);
        var ok := HasType(groupInfosMap[order[i]]);
        TypeOfGroup(conditions, device, order[i]);
        if ok {
          groupIds := groupIds + [order[i]];
        }
        MeetOneMore(Members(order[..i]), GroupsOfType(conditions, device), order[i]);
      }
      assert order[..|order|] == order;
    }

    method HasType(conditions: seq<Condition>) returns (ok: bool)
      ensures ok <==> exists c :: c in conditions && c.conditionType == TypeOf(device)
    {
      for i := 0 to |conditions|
        invariant forall c :: c in conditions[..i] ==> c.conditionType != TypeOf(device)
      {
        if conditions[i].conditionType == TypeOf(device) {
          assert conditions[i] in conditions;
          return true;
        }
      }
      assert conditions[..|conditions|] == conditions;
      return false;
    }

    method AppendToDevices(deviceIds: set<Id>, info: DeviceInfo)
      modifies this`redis
      ensures redis == old(redis).(devices := old(redis).devices +
                                                  SceneWrites(old(redis).devices, device, deviceIds, info))
    {
      var order := Range(deviceIds);
      ghost var before := redis;
      for i := 0 to |order|
        invariant redis == before.(devices :=
                    before.devices + SceneWrites(before.devices, device, Members(order[..i]), info))
      {
        OneMoreMember(order, deviceIds, i);
        OneMoreDevice(before.devices, device, Members(order[..i]), order[i], info);
        var key := Key(device, order[i]);
        var infos := if key in redis.devices && redis.devices[key].Scenes? then redis.devices[key].infos else [];
        redis := redis.(devices := redis.devices[key := Scenes(infos + [info])]);
      }
      assert order[..|order|] == order;
    }

    // -------------------------------------------------------------------------------------------------------- deletion

    method DeleteCacheBySceneAutomationId(s: Id)
      requires forall k :: k in redis.groups ==> SourcesKnown(redis.groups[k])
      modifies this
      ensures device == One
      ensures redis == AfterDelete(old(redis), s)
    {
      device := Multiple;
      DeleteCacheBySceneAutId(s);
      device := One;
      DeleteCacheBySceneAutId(s);
    }

    method DeleteCacheBySceneAutId(s: Id)
      requires forall k :: k in redis.groups ==> SourcesKnown(redis.groups[k])
      modifies this`redis
      ensures redis == AfterDeleteKind(old(redis), device, s)
      ensures forall k :: k in redis.groups ==> SourcesKnown(redis.groups[k])
    {
      var actionKey := Key(device, s);
      if actionKey !in redis.actions {
        return;
      }
      var groups := redis.actions[actionKey].groups;
      var deviceIds := CollectNamedDevices(groups);
      var doomed := AutomateDeviceCacheDeleteHandel(s, deviceIds);
      redis := Redis(redis.devices - doomed, redis.groups - Keys(device, Members(groups)), redis.actions - {actionKey});
      assert redis.devices == DevicesAfterDelete(old(redis).devices, device, s, deviceIds);
    }

    method CollectNamedDevices(groups: seq<Id>) returns (deviceIds: seq<Id>)
      requires forall k :: k in redis.groups ==> SourcesKnown(redis.groups[k])
      ensures deviceIds == NamedDevices(redis, device, groups)
    {
      deviceIds := [];
      for i := 0 to |groups|
        invariant deviceIds == NamedDevices(redis, device, groups[..i])
      {
        assert groups[..i + 1][..i] == groups[..i];
        var key := Key(device, groups[i]);
        if key in redis.groups {
          var named := ListSources(redis.groups[key]);
          deviceIds := deviceIds + named;
        }
      }
      assert groups[..|groups|] == groups;
    }

    method ListSources(conditions: seq<Condition>) returns (deviceIds: seq<Id>)
      requires SourcesKnown(conditions)
      ensures deviceIds == SourceList(conditions, device)
    {
      deviceIds := [];
      for i := 0 to |conditions|
        invariant deviceIds == SourceList(conditions[..i], device)
      {
        assert conditions[..i + 1][..i] == conditions[..i];
        assert conditions[i] in conditions;
        if conditions[i].conditionType == TypeOf(device) {
          deviceIds := deviceIds + [conditions[i].source.value];
        }
      }
      assert conditions[..|conditions|] == conditions;
    }

    /** Visits the devices: an entry left with scenes is to be deleted, one left empty is stored again. */
    method AutomateDeviceCacheDeleteHandel(s: Id, ids: seq<Id>) returns (doomed: set<Key>)
      modifies this`redis
      ensures redis.groups == old(redis).groups && redis.actions == old(redis).actions
      ensures redis.devices - doomed == DevicesAfterDelete(old(redis).devices, device, s, ids)
    {
      doomed := {};
      ghost var before := redis.devices;
      for i := 0 to |ids|
        invariant redis.groups == old(redis).groups && redis.actions == old(redis).actions
        invariant redis.devices.Keys == before.Keys
        invariant forall k :: k in doomed <==> Doomed(before, device, s, ids[..i], k)
        invariant forall k :: k in before ==>
                                redis.devices[k] == if Visited(before, device, ids[..i], k) && k !in doomed
                                                    then Scenes([]) else before[k]
      {
        var key := Key(device, ids[i]);
        assert ids[..i + 1] == ids[..i] + [ids[i]];
        if key in redis.devices && redis.devices[key].Scenes? {
          var infos := RemoveFirst(redis.devices[key].infos, s);
          if |infos| > 0 {
            doomed := doomed + {key};
          } else {
            redis := redis.(devices := redis.devices[key := Scenes(infos)]);
          }
        }
      }
      assert ids[..|ids|] == ids;
    }
  }

  /** The first entry of the scene is taken out by moving the rest one place to the left. */
  method RemoveFirst(infos: seq<DeviceInfo>, s: Id) returns (rest: seq<DeviceInfo>)
    ensures rest == RemoveScene(infos, s)
  {
    for i := 0 to |infos|
      invariant forall k :: 0 <= k < i ==> infos[k].scene != s
    {
      if infos[i].scene == s {
        RemoveSceneAt(infos, s, i);
        return infos[..i] + infos[i + 1..];
      }
    }
    RemoveSceneAbsent(infos, s);
    return infos;
  }

  lemma {:induction false} RemoveSceneAt(infos: seq<DeviceInfo>, s: Id, i: int)
    requires 0 <= i < |infos| && infos[i].scene == s && forall k :: 0 <= k < i ==> infos[k].scene != s
    ensures RemoveScene(infos, s) == infos[..i] + infos[i + 1..]
  {
    if i == 0 {
    } else {
      RemoveSceneAt(infos[1..], s, i - 1);
    }
  }

  lemma {:induction false} RemoveSceneAbsent(infos: seq<DeviceInfo>, s: Id)
    requires forall k :: 0 <= k < |infos| ==> infos[k].scene != s
    ensures RemoveScene(infos, s) == infos
  {
    if infos == [] {
    } else {
      RemoveSceneAbsent(infos[1..], s);
    }
  }

  lemma TypeOfGroup(conditions: seq<Condition>, kind: Kind, g: Id)
    ensures (exists c :: c in OfGroup(conditions, g) && c.conditionType == TypeOf(kind)) <==>
            g in GroupsOfType(conditions, kind)
  {
    OfGroupMembers(conditions, g);
  }

  lemma MeetOneMore(a: set<Id>, b: set<Id>, x: Id)
    ensures (a + {x}) * b == a * b + if x in b then {x} else {}
  {
  }
}
