/** The automation cache as data: device entries that list scenes with their condition groups, group entries with the
  * conditions, and action entries. All keys carry one of two prefixes, for single devices and for device classes, and
  * every key may expire on its own.
  *
  * A value of type Redis is one state of the keys; the functions After.. are the effects of the operations, which the
  * methods of the class in module AutomateCache are proved against. Iterating over a Go map gives any order, so the
  * effects take the orders as arguments and the theorems hold for all of them. */
module AutomateStore {
  import opened Wrappers

  type Id = string

  /** The key prefixes "one" and "multiple". */
  datatype Kind = One | Multiple

  const TYPE_ONE: string := "10"
  const TYPE_MULTIPLE: string := "11"

  datatype Condition = Condition(id: Id, scene: Id, group: Id, conditionType: string, source: Option<Id>, rule: string)

  datatype Action = Action(id: Id, scene: Id, command: string)

  datatype DeviceInfo = DeviceInfo(scene: Id, groups: seq<Id>)

  /** The sentinel "NOTASK", or a list of scenes. */
  datatype DeviceEntry = NoTask | Scenes(infos: seq<DeviceInfo>)

  datatype ActionEntry = ActionEntry(groups: seq<Id>, actions: seq<Action>)

  datatype Key = Key(kind: Kind, id: Id)

  datatype Redis = Redis(devices: map<Key, DeviceEntry>, groups: map<Key, seq<Condition>>, actions: map<Key,
                         ActionEntry>)

  datatype SceneInfo = SceneInfo(scene: Id, conditions: seq<Condition>, actions: seq<Action>)

  datatype Lookup = NotFound | NotTask | Found(scenes: seq<SceneInfo>)

  /** The trigger condition type that belongs to a key prefix. */
  function TypeOf(kind: Kind): string {
    if kind == One then TYPE_ONE else TYPE_MULTIPLE
  }

  // ------------------------------------------------------------------------------------------------------------ lookup

  /** The conditions of the groups that are still cached. */
  function CollectGroups(r: Redis, kind: Kind, groups: seq<Id>): seq<Condition> {
    if groups == [] then [] else
      var n := |groups| - 1;
      CollectGroups(r, kind, groups[..n]) + if Key(kind, groups[n]) in r.groups then r.groups[Key(kind, groups[n])]
          else []
  }

  /** The scenes whose actions are still cached. */
  function CollectScenes(r: Redis, kind: Kind, infos: seq<DeviceInfo>): seq<SceneInfo> {
    if infos == [] then [] else
      var n := |infos| - 1;
      CollectScenes(r, kind, infos[..n]) + CollectScene(r, kind, infos[n])
  }

  function CollectScene(r: Redis, kind: Kind, info: DeviceInfo): seq<SceneInfo> {
    if Key(kind, info.scene) !in r.actions then [] else
      [SceneInfo(info.scene, CollectGroups(r, kind, info.groups), r.actions[Key(kind, info.scene)].actions)]
  }

  /** getCacheByDId */
  function LookupOf(r: Redis, kind: Kind, id: Id): Lookup {
    var key := Key(kind, id);
    if key !in r.devices then NotFound
    else if r.devices[key].NoTask? then NotTask
    else Found(CollectScenes(r, kind, r.devices[key].infos))
  }

  // --------------------------------------------------------------------------------------------- grouping of arguments

  /** The conditions of a group, in order. */
  function OfGroup(conditions: seq<Condition>, g: Id): seq<Condition> {
    if conditions == [] then [] else
      var n := |conditions| - 1;
      OfGroup(conditions[..n], g) + if conditions[n].group == g then [conditions[n]] else []
  }

  /** The actions of a scene, in order. */
  function ActionsOf(actions: seq<Action>, s: Id): seq<Action> {
    if actions == [] then [] else
      var n := |actions| - 1;
      ActionsOf(actions[..n], s) + if actions[n].scene == s then [actions[n]] else []
  }

  function GroupIds(conditions: seq<Condition>): set<Id> {
    set c | c in conditions :: c.group
  }

  /** The groups with a condition of the scene. */
  function GroupsOfScene(conditions: seq<Condition>, s: Id): set<Id> {
    set c | c in conditions && c.scene == s :: c.group
  }

  function ActionScenes(actions: seq<Action>): set<Id> {
    set a | a in actions :: a.scene
  }

  function ConditionScenes(conditions: seq<Condition>): set<Id> {
    set c | c in conditions :: c.scene
  }

  /** The groups with a condition of the kind's type. */
  function GroupsOfType(conditions: seq<Condition>, kind: Kind): set<Id> {
    set c | c in conditions && c.conditionType == TypeOf(kind) :: c.group
  }

  /** Conditions of a device type name their device or device class. */
  ghost predicate SourcesKnown(conditions: seq<Condition>) {
    forall c :: c in conditions && (c.conditionType == TYPE_ONE || c.conditionType == TYPE_MULTIPLE) ==> c.source.Some?
  }

  /** The devices, or device classes, that conditions of the kind's type name. */
  function Sources(conditions: seq<Condition>, kind: Kind): set<Id> {
    set c | c in conditions && c.conditionType == TypeOf(kind) && c.source.Some? :: c.source.value
  }

  // -------------------------------------------------------------------------------------------- effects of the writers

  /** The orders in which a call iterated over its maps. */
  datatype Orders = Orders(scenes: seq<Id>, groups: map<Id, seq<Id>>)

  /** Every member of the set once. */
  ghost predicate IsOrder(order: seq<Id>, members: set<Id>) {
    && (forall x :: x in order <==> x in members)
    && NoRepeats(order)
  }

  ghost predicate ValidOrders(conditions: seq<Condition>, actions: seq<Action>, o: Orders) {
    && IsOrder(o.scenes, ActionScenes(actions) * ConditionScenes(conditions))
    && (forall s :: s in o.scenes ==> s in o.groups && IsOrder(o.groups[s], GroupsOfScene(conditions, s)))
  }

  function Members(order: seq<Id>): set<Id> {
    set x | x in order
  }

  /** The keys of ids under a prefix. */
  function Keys(kind: Kind, ids: set<Id>): (keys: set<Key>)
    ensures forall k :: k in keys <==> k.kind == kind && k.id in ids
  {
    set id | id in ids :: Key(kind, id)
  }

  function GroupWrites(kind: Kind, conditions: seq<Condition>, groups: set<Id>): map<Key, seq<Condition>> {
    map k | k in Keys(kind, groups) :: OfGroup(conditions, k.id)
  }

  function ActionWrites(kind: Kind, actions: seq<Action>, o: Orders): map<Key, ActionEntry>
    requires forall s :: s in o.scenes ==> s in o.groups
  {
    map k | k in Keys(kind, Members(o.scenes)) :: ActionEntry(o.groups[k.id], ActionsOf(actions, k.id))
  }

  function Infos(scenes: seq<Id>, groups: map<Id, seq<Id>>): (infos: seq<DeviceInfo>)
    requires forall s :: s in scenes ==> s in groups
    ensures |infos| == |scenes| && forall i :: 0 <= i < |infos| ==> infos[i] == DeviceInfo(scenes[i], groups[scenes[i]])
  {
    seq(|scenes|, i requires 0 <= i < |scenes| => assert scenes[i] in scenes; DeviceInfo(scenes[i], groups[scenes[i]]))
  }

  /** setCache */
  ghost function AfterSetDevice(r: Redis, kind: Kind, id: Id, conditions: seq<Condition>, actions: seq<Action>,
                                o: Orders): Redis
    requires ValidOrders(conditions, actions, o)
  {
    Redis(r.devices[Key(kind, id) := Scenes(Infos(o.scenes, o.groups))],
          r.groups + GroupWrites(kind, conditions, GroupIds(conditions)),
          r.actions + ActionWrites(kind, actions, o))
  }

  function AfterSetNoTask(r: Redis, kind: Kind, id: Id): Redis {
    r.(devices := r.devices[Key(kind, id) := NoTask])
  }

  /** What a scene is appended to: NOTASK and a miss read as the empty list. */
  function InfosAt(devices: map<Key, DeviceEntry>, key: Key): seq<DeviceInfo> {
    if key in devices && devices[key].Scenes? then devices[key].infos else []
  }

  function SceneWrites(devices: map<Key, DeviceEntry>, kind: Kind, sources: set<Id>, info: DeviceInfo): map<Key,
      DeviceEntry> {
    map k | k in Keys(kind, sources) :: Scenes(InfosAt(devices, k) + [info])
  }

  /** setCacheBySceneAutId, for one key prefix; nothing is cached when no device of the kind triggers the scene. */
  ghost function AfterSetSceneKind(r: Redis, kind: Kind, s: Id, conditions: seq<Condition>, actions: seq<Action>,
                                   order: seq<Id>): Redis
    requires IsOrder(order, GroupsOfType(conditions, kind))
  {
    if Sources(conditions, kind) == {} then r else
      Redis(r.devices + SceneWrites(r.devices, kind, Sources(conditions, kind), DeviceInfo(s, order)),
            r.groups + GroupWrites(kind, conditions, GroupsOfType(conditions, kind)),
            r.actions[Key(kind, s) := ActionEntry(order, actions)])
  }

  ghost function AfterSetScene(r: Redis, s: Id, conditions: seq<Condition>, actions: seq<Action>, multiple: seq<Id>,
                               one: seq<Id>): Redis
    requires IsOrder(multiple, GroupsOfType(conditions, Multiple)) && IsOrder(one, GroupsOfType(conditions, One))
  {
    AfterSetSceneKind(AfterSetSceneKind(r, Multiple, s, conditions, actions, multiple), One, s, conditions, actions,
                      one)
  }

  // -------------------------------------------------------------------------------------------- effect of the deletion

  /** The devices that the cached conditions of the groups name. */
  function NamedDevices(r: Redis, kind: Kind, groups: seq<Id>): seq<Id> {
    if groups == [] then [] else
      var n := |groups| - 1;
      NamedDevices(r, kind, groups[..n]) +
      if Key(kind, groups[n]) in r.groups then SourceList(r.groups[Key(kind, groups[n])], kind) else []
  }

  function SourceList(conditions: seq<Condition>, kind: Kind): seq<Id> {
    if conditions == [] then [] else
      var n := |conditions| - 1;
      SourceList(conditions[..n], kind) +
      if conditions[n].conditionType == TypeOf(kind) && conditions[n].source.Some? then [conditions[n].source.value]
          else []
  }

  /** The list without the first entry of the scene. */
  function RemoveScene(infos: seq<DeviceInfo>, s: Id): seq<DeviceInfo> {
    if infos == [] then [] else if infos[0].scene == s then infos[1..] else [infos[0]] + RemoveScene(infos[1..], s)
  }

  /** The device keys that the deletion of s visits. */
  predicate Visited(devices: map<Key, DeviceEntry>, kind: Kind, ids: seq<Id>, key: Key) {
    key in devices && key.kind == kind && key.id in ids && devices[key].Scenes?
  }

  /** A visited device entry is deleted when scenes remain after the removal. */
  predicate Doomed(devices: map<Key, DeviceEntry>, kind: Kind, s: Id, ids: seq<Id>, key: Key) {
    Visited(devices, kind, ids, key) && RemoveScene(devices[key].infos, s) != []
  }

  /** It is stored again as an empty list when none remain. */
  function DevicesAfterDelete(devices: map<Key, DeviceEntry>, kind: Kind, s: Id, ids: seq<Id>): map<Key, DeviceEntry> {
    map key | key in devices && !Doomed(devices, kind, s, ids, key) ::
      if Visited(devices, kind, ids, key) then Scenes([]) else devices[key]
  }

  /** deleteCacheBySceneAutId, for one key prefix. */
  function AfterDeleteKind(r: Redis, kind: Kind, s: Id): Redis {
    var key := Key(kind, s);
    if key !in r.actions then r else
      var groups := r.actions[key].groups;
      Redis(DevicesAfterDelete(r.devices, kind, s, NamedDevices(r, kind, groups)),
            r.groups - Keys(kind, Members(groups)),
            r.actions - {key})
  }

  function AfterDelete(r: Redis, s: Id): Redis {
    AfterDeleteKind(AfterDeleteKind(r, Multiple, s), One, s)
  }

  /** Any keys expire. */
  function AfterExpiry(r: Redis, devices: set<Key>, groups: set<Key>, actions: set<Key>): Redis {
    Redis(r.devices - devices, r.groups - groups, r.actions - actions)
  }

  // --------------------------------------------------------------------------------------------------- the invariant

  /** Every group id belongs to one scene, and nothing cached says otherwise. */
  ghost predicate Owned(r: Redis, owner: Id -> Id) {
    && (forall k :: k in r.groups ==> OwnConditions(r.groups[k], owner) && SourcesKnown(r.groups[k]) &&
                                      forall c :: c in r.groups[k] ==> c.group == k.id)
    && (forall k :: k in r.actions ==> OwnGroups(r.actions[k].groups, k.id, owner) &&
                                       OwnActions(r.actions[k].actions, k.id))
    && (forall k :: k in r.devices && r.devices[k].Scenes? ==> OwnInfos(r.devices[k].infos, owner))
  }

  ghost predicate OwnConditions(conditions: seq<Condition>, owner: Id -> Id) {
    forall c :: c in conditions ==> c.scene == owner(c.group)
  }

  ghost predicate OwnGroups(groups: seq<Id>, s: Id, owner: Id -> Id) {
    forall g :: g in groups ==> owner(g) == s
  }

  ghost predicate OwnActions(actions: seq<Action>, s: Id) {
    forall a :: a in actions ==> a.scene == s
  }

  ghost predicate OwnInfos(infos: seq<DeviceInfo>, owner: Id -> Id) {
    forall i :: i in infos ==> OwnGroups(i.groups, i.scene, owner)
  }

  datatype Step =
    | SetDevice(kind: Kind, id: Id, conditions: seq<Condition>, actions: seq<Action>, orders: Orders)
    | SetScene(scene: Id, conditions: seq<Condition>, actions: seq<Action>, multiple: seq<Id>, one: seq<Id>)
    | SetNoTask(kind: Kind, id: Id)
    | Delete(scene: Id)
    | Expire(deviceKeys: set<Key>, groupKeys: set<Key>, actionKeys: set<Key>)

  /** Calls whose group ids keep to their owners; a scene is set with its own data only. */
  ghost predicate Legal(step: Step, owner: Id -> Id) {
    match step
    case SetDevice(_, _, conditions, actions, orders) =>
      ValidOrders(conditions, actions, orders) && OwnConditions(conditions, owner) && SourcesKnown(conditions)
    case SetScene(scene, conditions, actions, multiple, one) =>
      && IsOrder(multiple, GroupsOfType(conditions, Multiple)) && IsOrder(one, GroupsOfType(conditions, One))
      && OwnConditions(conditions, owner) && SourcesKnown(conditions)
      && (forall c :: c in conditions ==> c.scene == scene) && OwnActions(actions, scene)
    case SetNoTask(_, _) => true
    case Delete(_) => true
    case Expire(_, _, _) => true
  }

  ghost function After(r: Redis, step: Step, owner: Id -> Id): Redis
    requires Legal(step, owner)
  {
    match step
    case SetDevice(kind, id, conditions, actions, orders) => AfterSetDevice(r, kind, id, conditions, actions, orders)
    case SetScene(scene, conditions, actions, multiple, one) =>
      AfterSetScene(r, scene, conditions, actions, multiple, one)
    case SetNoTask(kind, id) => AfterSetNoTask(r, kind, id)
    case Delete(scene) => AfterDelete(r, scene)
    case Expire(devices, groups, actions) => AfterExpiry(r, devices, groups, actions)
  }

  /** The states that runs from the empty cache reach, whatever the interleaving of calls and expiries. */
  ghost function Run(steps: seq<Step>, owner: Id -> Id): Redis
    requires forall step :: step in steps ==> Legal(step, owner)
  {
    if steps == [] then Redis(map[], map[], map[]) else
      var n := |steps| - 1;
      assert steps == steps[..n] + [steps[n]];
      After(Run(steps[..n], owner), steps[n], owner)
  }

  lemma {:induction false} OfGroupMembers(conditions: seq<Condition>, g: Id)
    ensures forall c :: c in OfGroup(conditions, g) <==> c in conditions && c.group == g
  {
    if conditions == [] {
    } else {
      var n := |conditions| - 1;
      assert conditions == conditions[..n] + [conditions[n]];
      OfGroupMembers(conditions[..n], g);
    }
  }

  lemma {:induction false} ActionsOfMembers(actions: seq<Action>, s: Id)
    ensures forall a :: a in ActionsOf(actions, s) <==> a in actions && a.scene == s
  {
    if actions == [] {
    } else {
      var n := |actions| - 1;
      assert actions == actions[..n] + [actions[n]];
      ActionsOfMembers(actions[..n], s);
    }
  }

  lemma GroupWritesOwned(r: Redis, kind: Kind, conditions: seq<Condition>, groups: set<Id>, owner: Id -> Id)
    requires Owned(r, owner) && OwnConditions(conditions, owner) && SourcesKnown(conditions)
    ensures Owned(r.(groups := r.groups + GroupWrites(kind, conditions, groups)), owner)
  {
    forall g { OfGroupMembers(conditions, g); }
  }

  lemma ActionWritesOwned(r: Redis, kind: Kind, conditions: seq<Condition>, actions: seq<Action>, o: Orders,
                          owner: Id -> Id)
    requires Owned(r, owner) && OwnConditions(conditions, owner) && ValidOrders(conditions, actions, o)
    ensures Owned(r.(actions := r.actions + ActionWrites(kind, actions, o)), owner)
  {
    forall s | s in o.scenes ensures OwnGroups(o.groups[s], s, owner) && OwnActions(ActionsOf(actions, s), s) {
      ActionsOfMembers(actions, s);
    }
  }

  lemma InfosOwned(conditions: seq<Condition>, actions: seq<Action>, o: Orders, owner: Id -> Id)
    requires OwnConditions(conditions, owner) && ValidOrders(conditions, actions, o)
    ensures OwnInfos(Infos(o.scenes, o.groups), owner)
  {
    forall info | info in Infos(o.scenes, o.groups) ensures OwnGroups(info.groups, info.scene, owner) {
      var i :| 0 <= i < |o.scenes| && info == DeviceInfo(o.scenes[i], o.groups[o.scenes[i]]);
      assert o.scenes[i] in o.scenes;
    }
  }

  lemma SetDeviceOwned(r: Redis, kind: Kind, id: Id, conditions: seq<Condition>, actions: seq<Action>, o: Orders,
                       owner: Id -> Id)
    requires Owned(r, owner) && Legal(SetDevice(kind, id, conditions, actions, o), owner)
    ensures Owned(AfterSetDevice(r, kind, id, conditions, actions, o), owner)
  {
    GroupWritesOwned(r, kind, conditions, GroupIds(conditions), owner);
    ActionWritesOwned(r, kind, conditions, actions, o, owner);
    InfosOwned(conditions, actions, o, owner);
  }

  lemma SetSceneKindOwned(r: Redis, kind: Kind, s: Id, conditions: seq<Condition>, actions: seq<Action>, order: seq<Id>,
                          owner: Id -> Id)
    requires Owned(r, owner) && IsOrder(order, GroupsOfType(conditions, kind))
    requires OwnConditions(conditions, owner) && SourcesKnown(conditions) && OwnActions(actions, s)
    requires forall c :: c in conditions ==> c.scene == s
    ensures Owned(AfterSetSceneKind(r, kind, s, conditions, actions, order), owner)
  {
    GroupWritesOwned(r, kind, conditions, GroupsOfType(conditions, kind), owner);
    assert OwnGroups(order, s, owner);
    forall d | d in Sources(conditions, kind)
      ensures OwnInfos(InfosAt(r.devices, Key(kind, d)) + [DeviceInfo(s, order)], owner)
    {
    }
  }

  lemma DeleteKindOwned(r: Redis, kind: Kind, s: Id, owner: Id -> Id)
    requires Owned(r, owner)
    ensures Owned(AfterDeleteKind(r, kind, s), owner)
  {
  }

  lemma StepOwned(r: Redis, step: Step, owner: Id -> Id)
    requires Owned(r, owner) && Legal(step, owner)
    ensures Owned(After(r, step, owner), owner)
  {
    match step
    case SetDevice(kind, id, conditions, actions, orders) =>
      SetDeviceOwned(r, kind, id, conditions, actions, orders, owner);
    case SetScene(s, conditions, actions, multiple, one) =>
      SetSceneKindOwned(r, Multiple, s, conditions, actions, multiple, owner);
      SetSceneKindOwned(AfterSetSceneKind(r, Multiple, s, conditions, actions, multiple), One, s, conditions, actions,
                        one,
                        owner);
    case SetNoTask(kind, id) =>
    case Delete(s) =>
      DeleteKindOwned(r, Multiple, s, owner);
      DeleteKindOwned(AfterDeleteKind(r, Multiple, s), One, s, owner);
    case Expire(_, _, _) =>
  }

  lemma {:induction false} RunOwned(steps: seq<Step>, owner: Id -> Id)
    requires forall step :: step in steps ==> Legal(step, owner)
    ensures Owned(Run(steps, owner), owner)
  {
    if steps == [] {
    } else {
      var n := |steps| - 1;
      assert steps == steps[..n] + [steps[n]];
      RunOwned(steps[..n], owner);
      StepOwned(Run(steps[..n], owner), steps[n], owner);
    }
  }

  // --------------------------------------------------------------------------------------- scenes carry their own data

  ghost predicate CarriesOwn(info: SceneInfo) {
    OwnActions(info.actions, info.scene) && forall c :: c in info.conditions ==> c.scene == info.scene
  }

  lemma {:induction false} CollectGroupsOwn(r: Redis, kind: Kind, groups: seq<Id>, s: Id, owner: Id -> Id)
    requires Owned(r, owner) && OwnGroups(groups, s, owner)
    ensures forall c :: c in CollectGroups(r, kind, groups) ==> c.scene == s
    decreases |groups|
  {
    if groups == [] {
    } else {
      var n := |groups| - 1;
      assert groups == groups[..n] + [groups[n]];
      CollectGroupsOwn(r, kind, groups[..n], s, owner);
    }
  }

  lemma {:induction false} CollectScenesOwn(r: Redis, kind: Kind, infos: seq<DeviceInfo>, owner: Id -> Id)
    requires Owned(r, owner) && OwnInfos(infos, owner)
    ensures forall x :: x in CollectScenes(r, kind, infos) ==> CarriesOwn(x)
    decreases |infos|
  {
    if infos == [] {
    } else {
      var n := |infos| - 1;
      assert infos == infos[..n] + [infos[n]];
      CollectScenesOwn(r, kind, infos[..n], owner);
      CollectGroupsOwn(r, kind, infos[n].groups, infos[n].scene, owner);
    }
  }

  /** Main result: in every reachable state, every returned scene carries only its own actions and conditions. */
  lemma ReturnedScenesCarryOwn(steps: seq<Step>, owner: Id -> Id, kind: Kind, id: Id)
    requires forall step :: step in steps ==> Legal(step, owner)
    ensures var found := LookupOf(Run(steps, owner), kind, id);
            found.Found? ==> forall x :: x in found.scenes ==> CarriesOwn(x)
  {
    RunOwned(steps, owner);
    var r := Run(steps, owner);
    if Key(kind, id) in r.devices && r.devices[Key(kind, id)].Scenes? {
      CollectScenesOwn(r, kind, r.devices[Key(kind, id)].infos, owner);
    }
  }

  // ---------------------------------------------------------------------------------------------------------- deletion

  function DropScene(scenes: seq<SceneInfo>, s: Id): seq<SceneInfo> {
    if scenes == [] then [] else
      var n := |scenes| - 1;
      DropScene(scenes[..n], s) + if scenes[n].scene == s then [] else [scenes[n]]
  }

  /** A lookup without the scene. */
  function WithoutScene(found: Lookup, s: Id): Lookup {
    if found.Found? then Found(DropScene(found.scenes, s)) else found
  }

  lemma {:induction false} SameGroups(r: Redis, r': Redis, kind: Kind, groups: seq<Id>)
    requires forall g :: g in groups ==> (Key(kind, g) in r.groups <==> Key(kind, g) in r'.groups)
    requires forall g :: g in groups && Key(kind, g) in r.groups ==> r.groups[Key(kind, g)] == r'.groups[Key(kind, g)]
    ensures CollectGroups(r', kind, groups) == CollectGroups(r, kind, groups)
    decreases |groups|
  {
    if groups == [] {
    } else {
      var n := |groups| - 1;
      assert groups == groups[..n] + [groups[n]];
      SameGroups(r, r', kind, groups[..n]);
    }
  }

  /** r' is r without the action entry of s and without groups of s. */
  ghost predicate LacksScene(r: Redis, r': Redis, kind: Kind, s: Id, owner: Id -> Id) {
    && r'.actions == r.actions - {Key(kind, s)}
    && (forall k :: k in r'.groups ==> k in r.groups && r'.groups[k] == r.groups[k])
    && (forall k :: k in r.groups && k !in r'.groups ==> k.kind == kind && owner(k.id) == s)
  }

  lemma CollectSceneDrops(r: Redis, r': Redis, kind: Kind, info: DeviceInfo, s: Id, owner: Id -> Id)
    requires LacksScene(r, r', kind, s, owner) && OwnGroups(info.groups, info.scene, owner)
    ensures CollectScene(r', kind, info) == if info.scene == s then [] else CollectScene(r, kind, info)
  {
    if info.scene != s {
      SameGroups(r, r', kind, info.groups);
    }
  }

  lemma DropSceneOneMore(scenes: seq<SceneInfo>, more: seq<SceneInfo>, s: Id)
    requires |more| <= 1
    ensures DropScene(scenes + more, s) == DropScene(scenes, s) + if more == [] || more[0].scene == s then [] else more
  {
    if more == [] {
      assert scenes + more == scenes;
    } else {
      assert (scenes + more)[..|scenes|] == scenes && more == [more[0]];
    }
  }

  lemma {:induction false} CollectScenesDrops(r: Redis, r': Redis, kind: Kind, infos: seq<DeviceInfo>, s: Id)
    requires forall i :: 0 <= i < |infos| ==>
                           CollectScene(r', kind, infos[i]) ==
                           if infos[i].scene == s then [] else CollectScene(r, kind, infos[i])
    ensures CollectScenes(r', kind, infos) == DropScene(CollectScenes(r, kind, infos), s)
    decreases |infos|
  {
    if infos == [] {
    } else {
      var n := |infos| - 1;
      CollectScenesDrops(r, r', kind, infos[..n], s);
      DropSceneOneMore(CollectScenes(r, kind, infos[..n]), CollectScene(r, kind, infos[n]), s);
    }
  }

  /** Without an action entry the scene is in no lookup to begin with. */
  lemma {:induction false} NoActionNoScene(r: Redis, kind: Kind, infos: seq<DeviceInfo>, s: Id)
    requires Key(kind, s) !in r.actions
    ensures DropScene(CollectScenes(r, kind, infos), s) == CollectScenes(r, kind, infos)
    decreases |infos|
  {
    if infos == [] {
    } else {
      var n := |infos| - 1;
      NoActionNoScene(r, kind, infos[..n], s);
      DropSceneOneMore(CollectScenes(r, kind, infos[..n]), CollectScene(r, kind, infos[n]), s);
    }
  }

  lemma {:induction false} NothingRemains(infos: seq<DeviceInfo>, s: Id)
    requires RemoveScene(infos, s) == []
    ensures infos == [] || (|infos| == 1 && infos[0].scene == s)
  {
  }

  /** What the deletion does to the scenes of a list of entries. */
  lemma DeleteKindScenes(r: Redis, kind: Kind, s: Id, infos: seq<DeviceInfo>, owner: Id -> Id)
    requires Owned(r, owner) && OwnInfos(infos, owner) && Key(kind, s) in r.actions
    ensures CollectScenes(AfterDeleteKind(r, kind, s), kind, infos) == DropScene(CollectScenes(r, kind, infos), s)
  {
    var r' := AfterDeleteKind(r, kind, s);
    assert LacksScene(r, r', kind, s, owner);
    forall i | 0 <= i < |infos|
      ensures CollectScene(r', kind, infos[i]) == if infos[i].scene == s then [] else CollectScene(r, kind, infos[i])
    {
      CollectSceneDrops(r, r', kind, infos[i], s, owner);
    }
    CollectScenesDrops(r, r', kind, infos, s);
  }

  /** An entry that the removal leaves empty had no other scene. */
  lemma EmptiedEntry(r: Redis, kind: Kind, s: Id, infos: seq<DeviceInfo>)
    requires RemoveScene(infos, s) == []
    ensures DropScene(CollectScenes(r, kind, infos), s) == []
  {
    NothingRemains(infos, s);
    if infos != [] {
      assert infos[..0] == [] && CollectScenes(r, kind, infos) == [] + CollectScene(r, kind, infos[0]);
      DropSceneOneMore([], CollectScene(r, kind, infos[0]), s);
    }
  }

  /** One key prefix: a lookup becomes a miss, or loses exactly the deleted scene. */
  lemma DeleteKindLookup(r: Redis, kind: Kind, s: Id, id: Id, owner: Id -> Id)
    requires Owned(r, owner)
    ensures var before, after := LookupOf(r, kind, id), LookupOf(AfterDeleteKind(r, kind, s), kind, id);
            after == NotFound || after == WithoutScene(before, s)
  {
    var key := Key(kind, id);
    if key in r.devices && r.devices[key].Scenes? {
      var infos := r.devices[key].infos;
      if Key(kind, s) !in r.actions {
        NoActionNoScene(r, kind, infos, s);
      } else {
        DeleteKindScenes(r, kind, s, infos, owner);
        if RemoveScene(infos, s) == [] { EmptiedEntry(r, kind, s, infos); }
      }
    }
  }

  /** Which lookups of a key prefix become misses: those of devices that the cached conditions of the scene name and
      whose entry lists anything besides one mention of the scene. */
  lemma DeleteKindMisses(r: Redis, kind: Kind, s: Id, id: Id)
    ensures var key := Key(kind, id);
            LookupOf(AfterDeleteKind(r, kind, s), kind, id) == NotFound <==>
            key !in r.devices ||
            (Key(kind, s) in r.actions && id in NamedDevices(r, kind, r.actions[Key(kind, s)].groups) &&
             r.devices[key].Scenes? && r.devices[key].infos != [] &&
             !(|r.devices[key].infos| == 1 && r.devices[key].infos[0].scene == s))
  {
    var key := Key(kind, id);
    if key in r.devices && r.devices[key].Scenes? {
      var infos := r.devices[key].infos;
      if RemoveScene(infos, s) == [] { NothingRemains(infos, s); }
    }
  }

  /** The other key prefix is not touched. */
  lemma DeleteKindKeepsOther(r: Redis, kind: Kind, other: Kind, s: Id, id: Id)
    requires kind != other
    ensures LookupOf(AfterDeleteKind(r, kind, s), other, id) == LookupOf(r, other, id)
  {
    var r' := AfterDeleteKind(r, kind, s);
    forall k: Key | k.kind == other
      ensures k in r'.devices <==> k in r.devices
      ensures k in r.devices ==> r'.devices[k] == r.devices[k]
      ensures k in r'.groups <==> k in r.groups
      ensures k in r.groups ==> r'.groups[k] == r.groups[k]
      ensures k in r'.actions <==> k in r.actions
      ensures k in r.actions ==> r'.actions[k] == r.actions[k]
    {
    }
    if Key(other, id) in r.devices && r.devices[Key(other, id)].Scenes? {
      SameScenes(r, r', other, r.devices[Key(other, id)].infos);
    }
  }

  lemma SetNoTaskKeepsOthers(r: Redis, kind: Kind, id: Id, otherKind: Kind, otherId: Id)
    requires Key(otherKind, otherId) != Key(kind, id)
    ensures LookupOf(AfterSetNoTask(r, kind, id), otherKind, otherId) == LookupOf(r, otherKind, otherId)
  {
    var key := Key(otherKind, otherId);
    if key in r.devices && r.devices[key].Scenes? {
      SameScenes(r, AfterSetNoTask(r, kind, id), otherKind, r.devices[key].infos);
    }
  }

  lemma {:induction false} SameScenes(r: Redis, r': Redis, kind: Kind, infos: seq<DeviceInfo>)
    requires forall k: Key :: k.kind == kind ==>
                                  (k in r'.groups <==> k in r.groups) && (k in r'.actions <==> k in r.actions)
    requires forall k: Key :: k.kind == kind && k in r.groups ==> r'.groups[k] == r.groups[k]
    requires forall k: Key :: k.kind == kind && k in r.actions ==> r'.actions[k] == r.actions[k]
    ensures CollectScenes(r', kind, infos) == CollectScenes(r, kind, infos)
    decreases |infos|
  {
    if infos == [] {
    } else {
      var n := |infos| - 1;
      SameScenes(r, r', kind, infos[..n]);
      SameGroups(r, r', kind, infos[n].groups);
    }
  }

  lemma {:induction false} DroppedSceneIsGone(scenes: seq<SceneInfo>, s: Id)
    ensures forall x :: x in DropScene(scenes, s) <==> x in scenes && x.scene != s
  {
    if scenes == [] {
    } else {
      var n := |scenes| - 1;
      assert scenes == scenes[..n] + [scenes[n]];
      DroppedSceneIsGone(scenes[..n], s);
    }
  }

  /** Main result: deleting a scene in any reachable state turns every device lookup into a miss or into exactly the
      earlier result without the scene, so the scene is never returned and no other scene is silently dropped. */
  lemma DeleteDropsExactlyTheScene(steps: seq<Step>, owner: Id -> Id, s: Id, kind: Kind, id: Id)
    requires forall step :: step in steps ==> Legal(step, owner)
    ensures var r := Run(steps, owner);
            var before, after := LookupOf(r, kind, id), LookupOf(AfterDelete(r, s), kind, id);
            && (after == NotFound || after == WithoutScene(before, s))
            && (after.Found? ==> forall x :: x in after.scenes ==> x.scene != s)
  {
    RunOwned(steps, owner);
    var r := Run(steps, owner);
    var r1 := AfterDeleteKind(r, Multiple, s);
    DeleteKindOwned(r, Multiple, s, owner);
    if kind == Multiple {
      DeleteKindLookup(r, Multiple, s, id, owner);
      DeleteKindKeepsOther(r1, One, Multiple, s, id);
    } else {
      DeleteKindKeepsOther(r, Multiple, One, s, id);
      DeleteKindLookup(r1, One, s, id, owner);
    }
    var before := LookupOf(r, kind, id);
    if before.Found? { DroppedSceneIsGone(before.scenes, s); }
  }

  // ---------------------------------------------------------------------------------------------- set, expire and get

  /** The conditions of the groups of an order, group by group, without the missing ones. */
  function ByGroups(conditions: seq<Condition>, order: seq<Id>, missing: set<Id>): seq<Condition> {
    if order == [] then [] else
      var n := |order| - 1;
      ByGroups(conditions, order[..n], missing) + if order[n] in missing then [] else OfGroup(conditions, order[n])
  }

  /** What a lookup returns of the cached scenes when some groups and the actions of some scenes are gone. */
  ghost function Remaining(conditions: seq<Condition>, actions: seq<Action>, scenes: seq<Id>, groups: map<Id, seq<Id>>,
                           noGroups: set<Id>, noActions: set<Id>): seq<SceneInfo>
    requires forall s :: s in scenes ==> s in groups
  {
    if scenes == [] then [] else
      var n := |scenes| - 1;
      assert scenes == scenes[..n] + [scenes[n]];
      Remaining(conditions, actions, scenes[..n], groups, noGroups, noActions) +
      if scenes[n] in noActions then [] else
        [SceneInfo(scenes[n], ByGroups(conditions, groups[scenes[n]], noGroups), ActionsOf(actions, scenes[n]))]
  }

  function IdsOf(keys: set<Key>, kind: Kind): set<Id> {
    set k | k in keys && k.kind == kind :: k.id
  }

  lemma {:induction false} CollectGroupsAfterSet(r: Redis, kind: Kind, conditions: seq<Condition>, order: seq<Id>,
                                                 missing: set<Id>)
    requires forall g :: g in order ==>
                           if g in missing then Key(kind, g) !in r.groups
                           else Key(kind, g) in r.groups && r.groups[Key(kind, g)] == OfGroup(conditions, g)
    ensures CollectGroups(r, kind, order) == ByGroups(conditions, order, missing)
    decreases |order|
  {
    if order == [] {
    } else {
      var n := |order| - 1;
      assert order == order[..n] + [order[n]];
      CollectGroupsAfterSet(r, kind, conditions, order[..n], missing);
    }
  }

  /** r holds the groups and the actions of a scene as they were set, but for the missing ones. */
  ghost predicate HoldsScene(r: Redis, kind: Kind, conditions: seq<Condition>, actions: seq<Action>, s: Id,
                             groups: seq<Id>,
                             noGroups: set<Id>, noActions: set<Id>)
  {
    && (forall g :: g in groups ==>
                      if g in noGroups then Key(kind, g) !in r.groups
                      else Key(kind, g) in r.groups && r.groups[Key(kind, g)] == OfGroup(conditions, g))
    && (if s in noActions then Key(kind, s) !in r.actions
        else Key(kind, s) in r.actions && r.actions[Key(kind, s)].actions == ActionsOf(actions, s))
  }

  lemma CollectSceneAfterSet(r: Redis, kind: Kind, conditions: seq<Condition>, actions: seq<Action>, s: Id,
                             groups: seq<Id>,
                             noGroups: set<Id>, noActions: set<Id>)
    requires HoldsScene(r, kind, conditions, actions, s, groups, noGroups, noActions)
    ensures CollectScene(r, kind, DeviceInfo(s, groups)) ==
            if s in noActions then [] else [SceneInfo(s, ByGroups(conditions, groups, noGroups), ActionsOf(actions, s))]
  {
    CollectGroupsAfterSet(r, kind, conditions, groups, noGroups);
  }

  lemma InfosSnoc(scenes: seq<Id>, groups: map<Id, seq<Id>>, n: nat)
    requires |scenes| == n + 1 && forall s :: s in scenes ==> s in groups
    ensures scenes[n] in groups && forall s :: s in scenes[..n] ==> s in groups
    ensures Infos(scenes, groups)[..n] == Infos(scenes[..n], groups)
    ensures Infos(scenes, groups)[n] == DeviceInfo(scenes[n], groups[scenes[n]])
  {
    assert scenes[n] in scenes;
  }

  lemma {:induction false} CollectScenesAfterSet(r: Redis, kind: Kind, conditions: seq<Condition>, actions: seq<Action>,
                                                 scenes: seq<Id>, groups: map<Id, seq<Id>>, noGroups: set<Id>,
                                                 noActions: set<Id>)
    requires forall s :: s in scenes ==> s in groups
    requires forall s :: s in scenes ==> HoldsScene(r, kind, conditions, actions, s, groups[s], noGroups, noActions)
    ensures CollectScenes(r, kind, Infos(scenes, groups)) ==
            Remaining(conditions, actions, scenes, groups, noGroups, noActions)
    decreases |scenes|
  {
    if scenes == [] {
    } else {
      var n := |scenes| - 1;
      assert scenes[n] in scenes;
      InfosSnoc(scenes, groups, n);
      CollectSceneAfterSet(r, kind, conditions, actions, scenes[n], groups[scenes[n]], noGroups, noActions);
      CollectScenesAfterSet(r, kind, conditions, actions, scenes[..n], groups, noGroups, noActions);
    }
  }

  lemma IdsOfMembers(keys: set<Key>, kind: Kind, id: Id)
    ensures id in IdsOf(keys, kind) <==> Key(kind, id) in keys
  {
    assert id in IdsOf(keys, kind) <== Key(kind, id) in keys;
  }

  lemma SceneHeldAfterSet(r: Redis, kind: Kind, id: Id, conditions: seq<Condition>, actions: seq<Action>, o: Orders,
                          devices: set<Key>, groups: set<Key>, gone: set<Key>, s: Id)
    requires ValidOrders(conditions, actions, o) && s in o.scenes
    ensures HoldsScene(AfterExpiry(AfterSetDevice(r, kind, id, conditions, actions, o), devices, groups, gone), kind,
                       conditions, actions, s, o.groups[s], IdsOf(groups, kind), IdsOf(gone, kind))
  {
    forall g | g in o.groups[s] ensures g in GroupIds(conditions) && (g in IdsOf(groups, kind) <==>
                                                                      Key(kind, g) in groups) {
      IdsOfMembers(groups, kind, g);
    }
    IdsOfMembers(gone, kind, s);
  }

  /** Main result: after a device set and any expiries, a lookup is a miss or returns the scenes that were set, in the
      order set, without the scenes whose actions expired and without the groups that expired, actions intact. */
  lemma SetExpireGet(r: Redis, kind: Kind, id: Id, conditions: seq<Condition>, actions: seq<Action>, o: Orders,
                     devices: set<Key>, groups: set<Key>, gone: set<Key>)
    requires ValidOrders(conditions, actions, o)
    ensures var found := LookupOf(AfterExpiry(AfterSetDevice(r, kind, id, conditions, actions, o), devices, groups,
                                              gone),
                                  kind, id);
            found == if Key(kind, id) in devices then NotFound else
                       Found(Remaining(conditions, actions, o.scenes, o.groups, IdsOf(groups, kind), IdsOf(gone, kind)))
  {
    var r' := AfterExpiry(AfterSetDevice(r, kind, id, conditions, actions, o), devices, groups, gone);
    forall s | s in o.scenes
      ensures HoldsScene(r', kind, conditions, actions, s, o.groups[s], IdsOf(groups, kind), IdsOf(gone, kind))
    {
      SceneHeldAfterSet(r, kind, id, conditions, actions, o, devices, groups, gone, s);
    }
    CollectScenesAfterSet(r', kind, conditions, actions, o.scenes, o.groups, IdsOf(groups, kind), IdsOf(gone, kind));
  }

  /** The conditions of a scene, in order. */
  function OfScene(conditions: seq<Condition>, s: Id): seq<Condition> {
    if conditions == [] then [] else
      var n := |conditions| - 1;
      OfScene(conditions[..n], s) + if conditions[n].scene == s then [conditions[n]] else []
  }

  /** One more condition appears once among the groups of an order, when its group does. */
  lemma {:induction false} ByGroupsOneMore(conditions: seq<Condition>, c: Condition, order: seq<Id>)
    requires NoRepeats(order)
    ensures multiset(ByGroups(conditions + [c], order, {})) ==
            multiset(ByGroups(conditions, order, {})) + if c.group in order then multiset{c} else multiset{}
    decreases |order|
  {
    if order == [] {
    } else {
      var n := |order| - 1;
      assert order == order[..n] + [order[n]];
      ByGroupsOneMore(conditions, c, order[..n]);
      assert (conditions + [c])[..|conditions|] == conditions;
      assert order[n] !in order[..n];
    }
  }

  lemma {:induction false} NoConditions(order: seq<Id>)
    ensures ByGroups([], order, {}) == []
  {
    if order == [] {
    } else {
      NoConditions(order[..|order| - 1]);
    }
  }

  /** Group by group, an order of the scene's groups gives each of the scene's conditions as often as the argument
      did. */
  lemma {:induction false} ByGroupsIsPermutation(conditions: seq<Condition>, order: seq<Id>, s: Id, owner: Id -> Id)
    requires OwnConditions(conditions, owner)
    requires NoRepeats(order)
    requires forall c :: c in conditions ==> (c.group in order <==> c.scene == s)
    ensures multiset(ByGroups(conditions, order, {})) == multiset(OfScene(conditions, s))
  {
    if conditions == [] {
      NoConditions(order);
    } else {
      var n := |conditions| - 1;
      assert conditions == conditions[..n] + [conditions[n]];
      ByGroupsIsPermutation(conditions[..n], order, s, owner);
      ByGroupsOneMore(conditions[..n], conditions[n], order);
    }
  }

  lemma {:induction false} RemainingAll(conditions: seq<Condition>, actions: seq<Action>, scenes: seq<Id>,
                                        groups: map<Id, seq<Id>>)
    requires forall s :: s in scenes ==> s in groups
    ensures var all := Remaining(conditions, actions, scenes, groups, {}, {});
            |all| == |scenes| &&
            forall i :: 0 <= i < |scenes| ==>
                          scenes[i] in groups &&
                          all[i] == SceneInfo(scenes[i], ByGroups(conditions, groups[scenes[i]], {}),
                                              ActionsOf(actions, scenes[i]))
    decreases |scenes|
  {
    if scenes == [] {
    } else {
      var n := |scenes| - 1;
      assert scenes == scenes[..n] + [scenes[n]];
      RemainingAll(conditions, actions, scenes[..n], groups);
    }
  }

  lemma ConditionsOfScene(conditions: seq<Condition>, actions: seq<Action>, o: Orders, s: Id, owner: Id -> Id)
    requires ValidOrders(conditions, actions, o) && OwnConditions(conditions, owner) && s in o.scenes
    ensures multiset(ByGroups(conditions, o.groups[s], {})) == multiset(OfScene(conditions, s))
  {
    assert IsOrder(o.groups[s], GroupsOfScene(conditions, s));
    ByGroupsIsPermutation(conditions, o.groups[s], s, owner);
  }

  /** What SetThenGet promises of one returned scene: its actions in order, and its conditions group by group, every
      group of the scene once and in full. */
  ghost predicate Complete(info: SceneInfo, conditions: seq<Condition>, actions: seq<Action>, s: Id, order: seq<Id>) {
    && info.scene == s
    && info.actions == ActionsOf(actions, s)
    && IsOrder(order, GroupsOfScene(conditions, s))
    && info.conditions == ByGroups(conditions, order, {})
    && multiset(info.conditions) == multiset(OfScene(conditions, s))
  }

  lemma RemainingIsComplete(conditions: seq<Condition>, actions: seq<Action>, o: Orders, owner: Id -> Id)
    requires ValidOrders(conditions, actions, o) && OwnConditions(conditions, owner)
    ensures var all := Remaining(conditions, actions, o.scenes, o.groups, {}, {});
            |all| == |o.scenes| &&
            forall i :: 0 <= i < |o.scenes| ==>
                          o.scenes[i] in o.groups &&
                          Complete(all[i], conditions, actions, o.scenes[i], o.groups[o.scenes[i]])
  {
    RemainingAll(conditions, actions, o.scenes, o.groups);
    var all := Remaining(conditions, actions, o.scenes, o.groups, {}, {});
    forall i | 0 <= i < |o.scenes|
      ensures o.scenes[i] in o.groups && Complete(all[i], conditions, actions, o.scenes[i], o.groups[o.scenes[i]])
    {
      assert o.scenes[i] in o.scenes;
      ConditionsOfScene(conditions, actions, o, o.scenes[i], owner);
    }
  }

  lemma GetAfterSet(r: Redis, kind: Kind, id: Id, conditions: seq<Condition>, actions: seq<Action>, o: Orders)
    requires ValidOrders(conditions, actions, o)
    ensures LookupOf(AfterSetDevice(r, kind, id, conditions, actions, o), kind, id) ==
            Found(Remaining(conditions, actions, o.scenes, o.groups, {}, {}))
  {
    NothingExpires(AfterSetDevice(r, kind, id, conditions, actions, o), kind);
    SetExpireGet(r, kind, id, conditions, actions, o, {}, {}, {});
  }

  lemma NothingExpires(r: Redis, kind: Kind)
    ensures AfterExpiry(r, {}, {}, {}) == r && IdsOf({}, kind) == {}
  {
    assert r.devices - {} == r.devices && r.groups - {} == r.groups && r.actions - {} == r.actions;
  }

  /** Main result: a device set followed by its lookup returns each scene that has both an action and a condition
      exactly once, with its actions in order and a permutation of its conditions by whole groups. */
  lemma SetThenGet(r: Redis, kind: Kind, id: Id, conditions: seq<Condition>, actions: seq<Action>, o: Orders,
                   owner: Id -> Id)
    requires ValidOrders(conditions, actions, o) && OwnConditions(conditions, owner)
    ensures IsOrder(o.scenes, ActionScenes(actions) * ConditionScenes(conditions))
    ensures var found := LookupOf(AfterSetDevice(r, kind, id, conditions, actions, o), kind, id);
            && found.Found? && |found.scenes| == |o.scenes|
            && (forall i :: 0 <= i < |o.scenes| ==>
                              o.scenes[i] in o.groups &&
                              Complete(found.scenes[i], conditions, actions, o.scenes[i], o.groups[o.scenes[i]]))
  {
    GetAfterSet(r, kind, id, conditions, actions, o);
    RemainingIsComplete(conditions, actions, o, owner);
  }
}
