/** Device counts over the forest of device groups: the recursive query over all groups of a tenant at once, and the
  * recursive query from one group, must count the same devices.
  *
  * A recursive query works level by level: the rows of one level join with the groups to give the next level, until a
  * level is empty. */
module GroupForest {
  import opened Wrappers

  type Id = string

  datatype Group = Group(id: Id, parent: Id, tenant: Id)

  datatype Device = Device(id: Id, tenant: Id, active: bool)

  datatype Membership = Membership(group: Id, device: Id, tenant: Id)

  /** A row of group_tree. */
  datatype Pair = Pair(ancestor: Id, group: Id)

  datatype Tables = Tables(groups: seq<Group>, memberships: seq<Membership>, devices: seq<Device>)

  // ---------------------------------------------------------------------------------------- the closure of all pairs

  /** The groups of the tenant, each its own ancestor. */
  function Roots(groups: seq<Group>, tenant: Id): seq<Pair> {
    if groups == [] then [] else
      (if groups[0].tenant == tenant then [Pair(groups[0].id, groups[0].id)] else []) + Roots(groups[1..], tenant)
  }

  /** The children of one row, of the tenant. */
  function ChildPairs(groups: seq<Group>, tenant: Id, p: Pair): seq<Pair> {
    if groups == [] then [] else
      (if groups[0].parent == p.group && groups[0].tenant == tenant then [Pair(p.ancestor, groups[0].id)] else []) +
      ChildPairs(groups[1..], tenant, p)
  }

  function NextPairs(groups: seq<Group>, tenant: Id, level: seq<Pair>): seq<Pair> {
    if level == [] then [] else ChildPairs(groups, tenant, level[0]) + NextPairs(groups, tenant, level[1..])
  }

  /** The k-th level of group_tree. */
  function PairLevel(groups: seq<Group>, tenant: Id, k: nat): seq<Pair> {
    if k == 0 then Roots(groups, tenant) else NextPairs(groups, tenant, PairLevel(groups, tenant, k - 1))
  }

  /** The first n levels together. */
  function GroupTree(groups: seq<Group>, tenant: Id, n: nat): seq<Pair> {
    if n == 0 then [] else GroupTree(groups, tenant, n - 1) + PairLevel(groups, tenant, n - 1)
  }

  /** The recursion ends: from level n on there are no rows. */
  ghost predicate Ends(groups: seq<Group>, tenant: Id, n: nat) {
    PairLevel(groups, tenant, n) == []
  }

  // ------------------------------------------------------------------------------------------ the closure of one group

  /** The rows of groups with the id. */
  function WithId(groups: seq<Group>, id: Id): seq<Id> {
    if groups == [] then [] else (if groups[0].id == id then [id] else []) + WithId(groups[1..], id)
  }

  function Children(groups: seq<Group>, parent: Id): seq<Id> {
    if groups == [] then [] else
      (if groups[0].parent == parent then [groups[0].id] else []) + Children(groups[1..], parent)
  }

  function NextIds(groups: seq<Group>, level: seq<Id>): seq<Id> {
    if level == [] then [] else Children(groups, level[0]) + NextIds(groups, level[1..])
  }

  /** The k-th level of group_chain; no tenant is asked for. */
  function ChainLevel(groups: seq<Group>, id: Id, k: nat): seq<Id> {
    if k == 0 then WithId(groups, id) else NextIds(groups, ChainLevel(groups, id, k - 1))
  }

  /** GetGroupChildrenIds, after n levels. */
  function GroupChain(groups: seq<Group>, id: Id, n: nat): seq<Id> {
    if n == 0 then [] else GroupChain(groups, id, n - 1) + ChainLevel(groups, id, n - 1)
  }

  // ------------------------------------------------------------------------------------------------------------ counts

  /** grouped_devices of one ancestor: the tenant's active devices with a membership of the tenant in one of its groups.
      Grouping makes it a set. */
  function GroupedDevices(t: Tables, tenant: Id, tree: seq<Pair>, g: Id): set<Id> {
    set m, d | m in t.memberships && d in t.devices && Pair(g, m.group) in tree && m.tenant == tenant &&
               d.id == m.device && d.tenant == m.tenant && d.active :: m.device
  }

  /** GetDeviceGroupDeviceCounts: only groups with a device appear. */
  function DeviceCounts(t: Tables, tenant: Id, n: nat): map<Id, nat> {
    var tree := GroupTree(t.groups, tenant, n);
    map p | p in tree && GroupedDevices(t, tenant, tree, p.ancestor) != {} ::
        p.ancestor := |GroupedDevices(t, tenant, tree, p.ancestor)|
  }

  function CountOf(counts: map<Id, nat>, g: Id): nat {
    if g in counts then counts[g] else 0
  }

  /** GetDeviceIdsByGroupIds: every membership of the groups, whatever its tenant. */
  function DeviceIds(memberships: seq<Membership>, groups: seq<Id>): set<Id> {
    set m | m in memberships && m.group in groups :: m.device
  }

  /** COUNT(DISTINCT d.id) over the tenant's active devices among the ids. */
  function ActiveDevices(t: Tables, tenant: Id, ids: set<Id>): set<Id> {
    set d | d in t.devices && d.tenant == tenant && d.active && d.id in ids :: d.id
  }

  /** The device total of GetDeviceGroupStatistics. */
  function DeviceTotal(t: Tables, tenant: Id, g: Id, n: nat): nat {
    var ids := DeviceIds(t.memberships, GroupChain(t.groups, g, n));
    |ActiveDevices(t, tenant, ids)|
  }

  // -------------------------------------------------------------------------------------------------- forest and paths

  ghost predicate DistinctIds(groups: seq<Group>) {
    forall i, j :: 0 <= i < j < |groups| ==> groups[i].id != groups[j].id
  }

  /** Descends(k, a, g): g is reached from a in k steps from parent to child, all of the tenant. */
  ghost predicate Descends(groups: seq<Group>, tenant: Id, k: nat, a: Id, g: Id) {
    if k == 0 then a == g && exists x :: x in groups && x.id == g && x.tenant == tenant
    else exists x :: x in groups && x.id == g && x.tenant == tenant && Descends(groups, tenant, k - 1, a, x.parent)
  }

  /** Some group of the tenant is reached from itself. */
  ghost predicate Cyclic(groups: seq<Group>, tenant: Id) {
    exists g, k: nat :: k > 0 && Descends(groups, tenant, k, g, g)
  }

  lemma {:induction false} RootsMembers(groups: seq<Group>, tenant: Id, p: Pair)
    ensures p in Roots(groups, tenant) <==>
            p.ancestor == p.group && exists x :: x in groups && x.id == p.group && x.tenant == tenant
  {
    if groups == [] {
    } else {
      assert groups == [groups[0]] + groups[1..];
      RootsMembers(groups[1..], tenant, p);
    }
  }

  lemma {:induction false} ChildPairsMembers(groups: seq<Group>, tenant: Id, p: Pair, c: Pair)
    ensures c in ChildPairs(groups, tenant, p) <==>
            c.ancestor == p.ancestor &&
            exists x :: x in groups && x.id == c.group && x.tenant == tenant && x.parent == p.group
  {
    if groups == [] {
    } else {
      assert groups == [groups[0]] + groups[1..];
      ChildPairsMembers(groups[1..], tenant, p, c);
    }
  }

  lemma {:induction false} NextPairsMembers(groups: seq<Group>, tenant: Id, level: seq<Pair>, c: Pair)
    ensures c in NextPairs(groups, tenant, level) <==>
            exists x :: x in groups && x.id == c.group && x.tenant == tenant && Pair(c.ancestor, x.parent) in level
    decreases |level|
  {
    if level == [] {
    } else {
      assert level == [level[0]] + level[1..];
      NextPairsMembers(groups, tenant, level[1..], c);
      ChildPairsMembers(groups, tenant, level[0], c);
    }
  }

  /** The levels of the query are the lengths of the paths. */
  lemma {:induction false} LevelsArePaths(groups: seq<Group>, tenant: Id, k: nat, p: Pair)
    ensures p in PairLevel(groups, tenant, k) <==> Descends(groups, tenant, k, p.ancestor, p.group)
    decreases k
  {
    if k == 0 {
      RootsMembers(groups, tenant, p);
    } else {
      NextPairsMembers(groups, tenant, PairLevel(groups, tenant, k - 1), p);
      forall x | x in groups && x.id == p.group && x.tenant == tenant
        ensures Pair(p.ancestor, x.parent) in PairLevel(groups, tenant, k - 1) <==>
                Descends(groups, tenant, k - 1, p.ancestor, x.parent)
      {
        LevelsArePaths(groups, tenant, k - 1, Pair(p.ancestor, x.parent));
      }
    }
  }

  // ------------------------------------------------------------------------------------------------------- termination

  lemma DescendantExists(groups: seq<Group>, tenant: Id, k: nat, a: Id, g: Id)
    requires Descends(groups, tenant, k, a, g)
    ensures exists x :: x in groups && x.id == g && x.tenant == tenant
  {
  }

  lemma {:induction false} EmptyLevelsStay(groups: seq<Group>, tenant: Id, n: nat, k: nat)
    requires Ends(groups, tenant, n) && n <= k
    ensures PairLevel(groups, tenant, k) == []
    decreases k
  {
    if n == k {
    } else {
      EmptyLevelsStay(groups, tenant, n, k - 1);
    }
  }

  lemma NoPathsBeyond(groups: seq<Group>, tenant: Id, n: nat, k: nat, a: Id, g: Id)
    requires Ends(groups, tenant, n) && n <= k
    ensures !Descends(groups, tenant, k, a, g)
  {
    EmptyLevelsStay(groups, tenant, n, k);
    LevelsArePaths(groups, tenant, k, Pair(a, g));
  }

  lemma {:induction false} JoinPaths(groups: seq<Group>, tenant: Id, j: nat, k: nat, a: Id, b: Id, c: Id)
    requires Descends(groups, tenant, j, a, b) && Descends(groups, tenant, k, b, c)
    ensures Descends(groups, tenant, j + k, a, c)
    decreases k
  {
    if k == 0 {
    } else {
      var x :| x in groups && x.id == c && x.tenant == tenant && Descends(groups, tenant, k - 1, b, x.parent);
      JoinPaths(groups, tenant, j, k - 1, a, b, x.parent);
    }
  }

  /** Around a cycle m times. */
  lemma {:induction false} AroundCycle(groups: seq<Group>, tenant: Id, k: nat, g: Id, m: nat)
    requires Descends(groups, tenant, k, g, g)
    ensures m * k >= 0 && Descends(groups, tenant, m * k, g, g)
    decreases m
  {
    if m == 0 {
      DescendantExists(groups, tenant, k, g, g);
    } else {
      AroundCycle(groups, tenant, k, g, m - 1);
      JoinPaths(groups, tenant, (m - 1) * k, k, g, g, g);
      assert (m - 1) * k + k == m * k;
    }
  }

  lemma CycleNeverEnds(groups: seq<Group>, tenant: Id, n: nat)
    requires Cyclic(groups, tenant)
    ensures !Ends(groups, tenant, n)
  {
    var g, k: nat :| k > 0 && Descends(groups, tenant, k, g, g);
    AroundCycle(groups, tenant, k, g, n);
    assert n <= n * k;
    if Ends(groups, tenant, n) {
      NoPathsBeyond(groups, tenant, n, n * k, g, g);
    }
  }

  /** The groups along a path: each is reached from each before it. */
  lemma {:induction false} PathOf(groups: seq<Group>, tenant: Id, k: nat, a: Id, g: Id) returns (ids: seq<Id>)
    requires Descends(groups, tenant, k, a, g)
    ensures |ids| == k + 1 && ids[k] == g
    ensures forall i: nat, j: nat :: i <= j <= k ==> Descends(groups, tenant, j - i, ids[i], ids[j])
    decreases k
  {
    DescendantExists(groups, tenant, k, a, g);
    if k == 0 {
      ids := [g];
    } else {
      var x :| x in groups && x.id == g && x.tenant == tenant && Descends(groups, tenant, k - 1, a, x.parent);
      var before := PathOf(groups, tenant, k - 1, a, x.parent);
      ids := before + [g];
      forall i: nat, j: nat | i <= j <= k ensures Descends(groups, tenant, j - i, ids[i], ids[j]) {
        if i < j == k {
          assert Descends(groups, tenant, k - 1 - i, before[i], x.parent);
        }
      }
    }
  }

  function IdsOfTenant(groups: seq<Group>, tenant: Id): set<Id> {
    set x | x in groups && x.tenant == tenant :: x.id
  }

  lemma {:induction false} NoMoreIdsThanGroups(groups: seq<Group>, tenant: Id)
    ensures |IdsOfTenant(groups, tenant)| <= |groups|
  {
    if groups == [] {
    } else {
      assert groups == [groups[0]] + groups[1..];
      NoMoreIdsThanGroups(groups[1..], tenant);
      var rest := IdsOfTenant(groups[1..], tenant);
      assert IdsOfTenant(groups, tenant) == rest + if groups[0].tenant == tenant then {groups[0].id} else {};
      UnionSize(rest, {groups[0].id});
    }
  }

  /** The pigeonhole principle. */
  lemma {:induction false} NoMoreThanSet(ids: seq<Id>, all: set<Id>)
    requires NoRepeats(ids) && forall x :: x in ids ==> x in all
    ensures |ids| <= |all|
  {
    if ids == [] {
    } else {
      assert ids == [ids[0]] + ids[1..];
      NoMoreThanSet(ids[1..], all - {ids[0]});
    }
  }

  /** Without a cycle no path has as many steps as there are groups, so the recursion has ended by then. */
  lemma EndsWithoutCycle(groups: seq<Group>, tenant: Id)
    requires !Cyclic(groups, tenant)
    ensures Ends(groups, tenant, |groups|)
  {
    var n := |groups|;
    if PairLevel(groups, tenant, n) != [] {
      var p := PairLevel(groups, tenant, n)[0];
      assert p in PairLevel(groups, tenant, n);
      LevelsArePaths(groups, tenant, n, p);
      var ids := PathOf(groups, tenant, n, p.ancestor, p.group);
      PathHasNoRepeats(groups, tenant, ids);
      NoMoreThanSet(ids, IdsOfTenant(groups, tenant));
      NoMoreIdsThanGroups(groups, tenant);
    }
  }

  lemma PathHasNoRepeats(groups: seq<Group>, tenant: Id, ids: seq<Id>)
    requires !Cyclic(groups, tenant)
    requires forall i: nat, j: nat :: i <= j < |ids| ==> Descends(groups, tenant, j - i, ids[i], ids[j])
    ensures NoRepeats(ids) && forall x :: x in ids ==> x in IdsOfTenant(groups, tenant)
  {
    forall i, j | 0 <= i < j < |ids| ensures ids[i] != ids[j] {
      assert Descends(groups, tenant, j - i, ids[i], ids[j]);
    }
    forall i | 0 <= i < |ids| ensures ids[i] in IdsOfTenant(groups, tenant) {
      DescendantExists(groups, tenant, i - i, ids[i], ids[i]);
    }
  }

  /** Main result: the recursive query over a tenant ends exactly when no group of the tenant is its own descendant, and
      then it has ended after as many levels as there are groups. */
  lemma EndsIffNoCycle(groups: seq<Group>, tenant: Id)
    ensures (exists n :: Ends(groups, tenant, n)) <==> !Cyclic(groups, tenant)
    ensures !Cyclic(groups, tenant) ==> Ends(groups, tenant, |groups|)
  {
    if Cyclic(groups, tenant) {
      forall n ensures !Ends(groups, tenant, n) { CycleNeverEnds(groups, tenant, n); }
    } else {
      EndsWithoutCycle(groups, tenant);
    }
  }

  /** Only a group that is its own parent is refused: two groups that are each other's parents are not, and the query
      never ends. */
  lemma TwoGroupCycleNeverEnds(a: Id, b: Id, tenant: Id, n: nat)
    ensures !Ends([Group(a, b, tenant), Group(b, a, tenant)], tenant, n)
  {
    var groups := [Group(a, b, tenant), Group(b, a, tenant)];
    assert groups[0] in groups && groups[1] in groups;
    assert Descends(groups, tenant, 0, a, a);
    assert Descends(groups, tenant, 1, a, b);
    assert Descends(groups, tenant, 2, a, a);
    CycleNeverEnds(groups, tenant, n);
  }

  // ----------------------------------------------------------------------------------------------- pairs come out once

  lemma NoRepeatsAppend<T>(a: seq<T>, b: seq<T>)
    requires NoRepeats(a) && NoRepeats(b) && forall x :: x in a ==> x !in b
    ensures NoRepeats(a + b)
  {
    forall i, j | 0 <= i < j < |a + b| ensures (a + b)[i] != (a + b)[j] {
      if i < |a| <= j {
        assert (a + b)[i] in a && (a + b)[j] == b[j - |a|];
      }
    }
  }

  lemma SameId(groups: seq<Group>, x: Group, y: Group)
    requires DistinctIds(groups) && x in groups && y in groups && x.id == y.id
    ensures x == y
  {
    var i :| 0 <= i < |groups| && groups[i] == x;
    var j :| 0 <= j < |groups| && groups[j] == y;
    assert i == j || i < j || j < i;
  }

  lemma {:induction false} RootsOnce(groups: seq<Group>, tenant: Id)
    requires DistinctIds(groups)
    ensures NoRepeats(Roots(groups, tenant))
  {
    if groups == [] {
    } else {
      RootsOnce(groups[1..], tenant);
      RootsMembers(groups[1..], tenant, Pair(groups[0].id, groups[0].id));
      if groups[0].tenant == tenant {
        NoRepeatsAppend([Pair(groups[0].id, groups[0].id)], Roots(groups[1..], tenant));
      } else {
        assert [] + Roots(groups[1..], tenant) == Roots(groups[1..], tenant);
      }
    }
  }

  lemma {:induction false} ChildPairsOnce(groups: seq<Group>, tenant: Id, p: Pair)
    requires DistinctIds(groups)
    ensures NoRepeats(ChildPairs(groups, tenant, p))
  {
    if groups == [] {
    } else {
      ChildPairsOnce(groups[1..], tenant, p);
      ChildPairsMembers(groups[1..], tenant, p, Pair(p.ancestor, groups[0].id));
      var rest := ChildPairs(groups[1..], tenant, p);
      if groups[0].parent == p.group && groups[0].tenant == tenant {
        NoRepeatsAppend([Pair(p.ancestor, groups[0].id)], rest);
      } else {
        assert [] + rest == rest;
      }
    }
  }

  /** A group has one parent, so two rows of a level have no child row in common. */
  lemma {:induction false} NextPairsOnce(groups: seq<Group>, tenant: Id, level: seq<Pair>)
    requires DistinctIds(groups) && NoRepeats(level)
    ensures NoRepeats(NextPairs(groups, tenant, level))
    decreases |level|
  {
    if level == [] {
    } else {
      NextPairsOnce(groups, tenant, level[1..]);
      ChildPairsOnce(groups, tenant, level[0]);
      forall c | c in ChildPairs(groups, tenant, level[0]) ensures c !in NextPairs(groups, tenant, level[1..]) {
        ChildPairsMembers(groups, tenant, level[0], c);
        NextPairsMembers(groups, tenant, level[1..], c);
        var x :| x in groups && x.id == c.group && x.tenant == tenant && x.parent == level[0].group;
        forall y | y in groups && y.id == c.group ensures y == x {
          SameId(groups, x, y);
        }
        assert Pair(c.ancestor, x.parent) == level[0];
        assert level[0] !in level[1..];
      }
      NoRepeatsAppend(ChildPairs(groups, tenant, level[0]), NextPairs(groups, tenant, level[1..]));
    }
  }

  lemma {:induction false} LevelOnce(groups: seq<Group>, tenant: Id, k: nat)
    requires DistinctIds(groups)
    ensures NoRepeats(PairLevel(groups, tenant, k))
    decreases k
  {
    if k == 0 {
      RootsOnce(groups, tenant);
    } else {
      LevelOnce(groups, tenant, k - 1);
      NextPairsOnce(groups, tenant, PairLevel(groups, tenant, k - 1));
    }
  }

  /** Following the only parent upwards: with no cycle, two groups are joined by paths of one length only. */
  lemma {:induction false} OneLength(groups: seq<Group>, tenant: Id, j: nat, k: nat, a: Id, g: Id)
    requires DistinctIds(groups) && !Cyclic(groups, tenant)
    requires Descends(groups, tenant, j, a, g) && Descends(groups, tenant, k, a, g)
    ensures j == k
    decreases j
  {
    if j == 0 || k == 0 {
    } else {
      var x :| x in groups && x.id == g && x.tenant == tenant && Descends(groups, tenant, j - 1, a, x.parent);
      var y :| y in groups && y.id == g && y.tenant == tenant && Descends(groups, tenant, k - 1, a, y.parent);
      SameId(groups, x, y);
      OneLength(groups, tenant, j - 1, k - 1, a, x.parent);
    }
  }

  /** A path shorter than n. */
  ghost predicate Below(groups: seq<Group>, tenant: Id, n: nat, a: Id, g: Id) {
    exists k: nat :: k < n && Descends(groups, tenant, k, a, g)
  }

  ghost predicate AtLevel(groups: seq<Group>, tenant: Id, k: nat, p: Pair) {
    p in PairLevel(groups, tenant, k)
  }

  /** On one of the first n levels. */
  ghost predicate AtSomeLevel(groups: seq<Group>, tenant: Id, n: nat, p: Pair) {
    exists k: nat :: k < n && AtLevel(groups, tenant, k, p)
  }

  lemma OneMoreLevel(groups: seq<Group>, tenant: Id, n: nat, p: Pair)
    ensures AtSomeLevel(groups, tenant, n + 1, p) <==>
            AtSomeLevel(groups, tenant, n, p) || AtLevel(groups, tenant, n, p)
  {
    if k: nat :| k < n + 1 && AtLevel(groups, tenant, k, p) {
      assert k < n || k == n;
    }
  }

  lemma {:induction false} TreeLevels(groups: seq<Group>, tenant: Id, n: nat, p: Pair)
    ensures p in GroupTree(groups, tenant, n) <==> AtSomeLevel(groups, tenant, n, p)
    decreases n
  {
    if n == 0 {
    } else {
      TreeLevels(groups, tenant, n - 1, p);
      OneMoreLevel(groups, tenant, n - 1, p);
    }
  }

  lemma TreeMembers(groups: seq<Group>, tenant: Id, n: nat, p: Pair)
    ensures p in GroupTree(groups, tenant, n) <==> Below(groups, tenant, n, p.ancestor, p.group)
  {
    TreeLevels(groups, tenant, n, p);
    forall k: nat ensures AtLevel(groups, tenant, k, p) <==> Descends(groups, tenant, k, p.ancestor, p.group) {
      LevelsArePaths(groups, tenant, k, p);
    }
  }

  /** Main result: on an acyclic forest every pair of an ancestor and a descendant comes out exactly once. */
  lemma {:induction false} TreeOnce(groups: seq<Group>, tenant: Id, n: nat)
    requires DistinctIds(groups) && !Cyclic(groups, tenant)
    ensures NoRepeats(GroupTree(groups, tenant, n))
    decreases n
  {
    if n == 0 {
    } else {
      var before, level := GroupTree(groups, tenant, n - 1), PairLevel(groups, tenant, n - 1);
      TreeOnce(groups, tenant, n - 1);
      LevelOnce(groups, tenant, n - 1);
      forall p | p in before ensures p !in level {
        NotAgain(groups, tenant, n - 1, p);
      }
      NoRepeatsAppend(before, level);
    }
  }

  lemma NotAgain(groups: seq<Group>, tenant: Id, n: nat, p: Pair)
    requires DistinctIds(groups) && !Cyclic(groups, tenant) && p in GroupTree(groups, tenant, n)
    ensures p !in PairLevel(groups, tenant, n)
  {
    TreeMembers(groups, tenant, n, p);
    LevelsArePaths(groups, tenant, n, p);
    var k: nat :| k < n && Descends(groups, tenant, k, p.ancestor, p.group);
    if Descends(groups, tenant, n, p.ancestor, p.group) {
      OneLength(groups, tenant, k, n, p.ancestor, p.group);
    }
  }

  /** Levels after the end add nothing: the tree is complete. */
  lemma {:induction false} TreeIsComplete(groups: seq<Group>, tenant: Id, n: nat, m: nat)
    requires Ends(groups, tenant, n) && n <= m
    ensures GroupTree(groups, tenant, m) == GroupTree(groups, tenant, n)
    decreases m
  {
    if n == m {
    } else {
      TreeIsComplete(groups, tenant, n, m - 1);
      EmptyLevelsStay(groups, tenant, n, m - 1);
    }
  }

  // --------------------------------------------------------------------------------------- the two traversals agree

  /** Parents and children belong to one tenant. */
  ghost predicate OneTenantPerTree(groups: seq<Group>) {
    forall p, c :: p in groups && c in groups && c.parent == p.id ==> c.tenant == p.tenant
  }

  /** A membership carries the tenant of its device. */
  ghost predicate MembershipTenants(t: Tables) {
    forall m, d :: m in t.memberships && d in t.devices && d.id == m.device ==> m.tenant == d.tenant
  }

  lemma {:induction false} WithIdMembers(groups: seq<Group>, id: Id, x: Id)
    ensures x in WithId(groups, id) <==> x == id && exists g :: g in groups && g.id == id
  {
    if groups == [] {
    } else {
      assert groups == [groups[0]] + groups[1..];
      WithIdMembers(groups[1..], id, x);
    }
  }

  lemma {:induction false} ChildrenMembers(groups: seq<Group>, parent: Id, x: Id)
    ensures x in Children(groups, parent) <==> exists g :: g in groups && g.id == x && g.parent == parent
  {
    if groups == [] {
    } else {
      assert groups == [groups[0]] + groups[1..];
      ChildrenMembers(groups[1..], parent, x);
    }
  }

  lemma {:induction false} NextIdsMembers(groups: seq<Group>, level: seq<Id>, x: Id)
    ensures x in NextIds(groups, level) <==> exists g :: g in groups && g.id == x && g.parent in level
    decreases |level|
  {
    if level == [] {
    } else {
      assert level == [level[0]] + level[1..];
      NextIdsMembers(groups, level[1..], x);
      ChildrenMembers(groups, level[0], x);
    }
  }

  lemma TenantOfChild(groups: seq<Group>, tenant: Id, k: nat, a: Id, y: Group)
    requires OneTenantPerTree(groups) && y in groups && Descends(groups, tenant, k, a, y.parent)
    ensures y.tenant == tenant
  {
    DescendantExists(groups, tenant, k, a, y.parent);
  }

  lemma NextChainLevel(groups: seq<Group>, tenant: Id, level: seq<Id>, k: nat, a: Id, x: Id)
    requires forall y :: y in groups && y.id == x ==>
                           (y.parent in level <==> y.tenant == tenant && Descends(groups, tenant, k, a, y.parent))
    ensures x in NextIds(groups, level) <==> Descends(groups, tenant, k + 1, a, x)
  {
    NextIdsMembers(groups, level, x);
  }

  /** From a group of the tenant, the chain without a tenant visits level by level the same groups. */
  lemma {:induction false} ChainIsTenantChain(groups: seq<Group>, tenant: Id, g: Group, k: nat, x: Id)
    requires DistinctIds(groups) && OneTenantPerTree(groups) && g in groups && g.tenant == tenant
    ensures x in ChainLevel(groups, g.id, k) <==> Descends(groups, tenant, k, g.id, x)
    decreases k
  {
    if k == 0 {
      WithIdMembers(groups, g.id, x);
    } else {
      var level := ChainLevel(groups, g.id, k - 1);
      forall y | y in groups && y.id == x
        ensures y.parent in level <==> y.tenant == tenant && Descends(groups, tenant, k - 1, g.id, y.parent)
      {
        ChainIsTenantChain(groups, tenant, g, k - 1, y.parent);
        if y.parent in level { TenantOfChild(groups, tenant, k - 1, g.id, y); }
      }
      NextChainLevel(groups, tenant, level, k - 1, g.id, x);
    }
  }

  ghost predicate AtChainLevel(groups: seq<Group>, id: Id, k: nat, x: Id) {
    x in ChainLevel(groups, id, k)
  }

  ghost predicate AtSomeChainLevel(groups: seq<Group>, id: Id, n: nat, x: Id) {
    exists k: nat :: k < n && AtChainLevel(groups, id, k, x)
  }

  lemma OneMoreChainLevel(groups: seq<Group>, id: Id, n: nat, x: Id)
    ensures AtSomeChainLevel(groups, id, n + 1, x) <==>
            AtSomeChainLevel(groups, id, n, x) || AtChainLevel(groups, id, n, x)
  {
    if k: nat :| k < n + 1 && AtChainLevel(groups, id, k, x) {
      assert k < n || k == n;
    }
  }

  lemma {:induction false} ChainLevels(groups: seq<Group>, id: Id, n: nat, x: Id)
    ensures x in GroupChain(groups, id, n) <==> AtSomeChainLevel(groups, id, n, x)
    decreases n
  {
    if n == 0 {
    } else {
      ChainLevels(groups, id, n - 1, x);
      OneMoreChainLevel(groups, id, n - 1, x);
    }
  }

  lemma ChainMembers(groups: seq<Group>, tenant: Id, g: Group, n: nat, x: Id)
    requires DistinctIds(groups) && OneTenantPerTree(groups) && g in groups && g.tenant == tenant
    ensures x in GroupChain(groups, g.id, n) <==> Below(groups, tenant, n, g.id, x)
  {
    ChainLevels(groups, g.id, n, x);
    forall k: nat ensures AtChainLevel(groups, g.id, k, x) <==> Descends(groups, tenant, k, g.id, x) {
      ChainIsTenantChain(groups, tenant, g, k, x);
    }
  }

  lemma {:induction false} AncestorExists(groups: seq<Group>, tenant: Id, k: nat, a: Id, g: Id)
    requires Descends(groups, tenant, k, a, g)
    ensures exists x :: x in groups && x.id == a && x.tenant == tenant
    decreases k
  {
    if k == 0 {
    } else {
      var x :| x in groups && x.id == g && x.tenant == tenant && Descends(groups, tenant, k - 1, a, x.parent);
      AncestorExists(groups, tenant, k - 1, a, x.parent);
    }
  }

  lemma CountsAreCardinalities(t: Tables, tenant: Id, n: nat, g: Id)
    ensures CountOf(DeviceCounts(t, tenant, n), g) == |GroupedDevices(t, tenant, GroupTree(t.groups, tenant, n), g)|
  {
    var tree := GroupTree(t.groups, tenant, n);
    var devices := GroupedDevices(t, tenant, tree, g);
    if devices != {} {
      var x :| x in devices;
      var m, d :| m in t.memberships && d in t.devices && Pair(g, m.group) in tree && m.tenant == tenant &&
                  d.id == m.device && d.tenant == m.tenant && d.active && x == m.device;
      assert Pair(g, m.group).ancestor == g;
    }
  }

  /** Where the query over all groups ends, the query from one group has ended too. */
  lemma ChainEnds(groups: seq<Group>, tenant: Id, g: Group, n: nat)
    requires DistinctIds(groups) && OneTenantPerTree(groups) && g in groups && g.tenant == tenant
    requires Ends(groups, tenant, n)
    ensures ChainLevel(groups, g.id, n) == []
  {
    if ChainLevel(groups, g.id, n) != [] {
      var x := ChainLevel(groups, g.id, n)[0];
      assert x in ChainLevel(groups, g.id, n);
      ChainIsTenantChain(groups, tenant, g, n, x);
      NoPathsBeyond(groups, tenant, n, n, g.id, x);
    }
  }

  /** Main result: when the queries end, the count of the query over all groups is the device total of the query from
      one group. */
  lemma CountsAgree(t: Tables, tenant: Id, g: Group, n: nat)
    requires DistinctIds(t.groups) && OneTenantPerTree(t.groups) && MembershipTenants(t)
    requires g in t.groups && g.tenant == tenant && Ends(t.groups, tenant, n)
    ensures ChainLevel(t.groups, g.id, n) == []
    ensures CountOf(DeviceCounts(t, tenant, n), g.id) == DeviceTotal(t, tenant, g.id, n)
  {
    ChainEnds(t.groups, tenant, g, n);
    var tree, chain := GroupTree(t.groups, tenant, n), GroupChain(t.groups, g.id, n);
    CountsAreCardinalities(t, tenant, n, g.id);
    forall x ensures x in chain <==> Pair(g.id, x) in tree {
      ChainMembers(t.groups, tenant, g, n, x);
      TreeMembers(t.groups, tenant, n, Pair(g.id, x));
    }
    var a, b := GroupedDevices(t, tenant, tree, g.id), ActiveDevices(t, tenant, DeviceIds(t.memberships, chain));
    forall x | x in b ensures x in a {
      var d :| d in t.devices && d.tenant == tenant && d.active && d.id in DeviceIds(t.memberships, chain) && d.id == x;
      var m :| m in t.memberships && m.group in chain && m.device == x;
      assert Pair(g.id, m.group) in tree;
    }
    assert a == b;
  }

  // ------------------------------------------------------------------------------------------- parents and children

  /** The active devices of the tenant that are members of the group itself. */
  function OwnDevices(t: Tables, tenant: Id, g: Id): set<Id> {
    set m, d | m in t.memberships && d in t.devices && m.group == g && m.tenant == tenant &&
               d.id == m.device && d.tenant == m.tenant && d.active :: m.device
  }

  /** The children of a group within the tenant. */
  function ChildGroups(groups: seq<Group>, tenant: Id, g: Id): seq<Id> {
    if groups == [] then [] else
      (if groups[0].parent == g && groups[0].tenant == tenant then [groups[0].id] else []) +
      ChildGroups(groups[1..], tenant, g)
  }

  function SumOfCounts(counts: map<Id, nat>, ids: seq<Id>): nat {
    if ids == [] then 0 else CountOf(counts, ids[0]) + SumOfCounts(counts, ids[1..])
  }

  lemma {:induction false} ChildGroupsMembers(groups: seq<Group>, tenant: Id, g: Id, c: Id)
    ensures c in ChildGroups(groups, tenant, g) <==>
            exists x :: x in groups && x.id == c && x.parent == g && x.tenant == tenant
  {
    if groups == [] {
    } else {
      assert groups == [groups[0]] + groups[1..];
      ChildGroupsMembers(groups[1..], tenant, g, c);
    }
  }

  /** A path that is not empty starts with a child. */
  lemma {:induction false} FirstStep(groups: seq<Group>, tenant: Id, k: nat, a: Id, g: Id)
    ensures k > 0 ==> (Descends(groups, tenant, k, a, g) <==>
                         (exists x :: x in groups && x.id == a && x.tenant == tenant) &&
                         exists c :: c in ChildGroups(groups, tenant, a) && Descends(groups, tenant, k - 1, c, g))
    decreases k
  {
    if k == 1 {
      if Descends(groups, tenant, 1, a, g) {
        var x :| x in groups && x.id == g && x.tenant == tenant && Descends(groups, tenant, 0, a, x.parent);
        ChildGroupsMembers(groups, tenant, a, g);
        assert Descends(groups, tenant, 0, g, g);
      }
      if c :| c in ChildGroups(groups, tenant, a) && Descends(groups, tenant, 0, c, g) {
        ChildGroupsMembers(groups, tenant, a, c);
      }
    } else if k > 1 {
      if Descends(groups, tenant, k, a, g) {
        var x :| x in groups && x.id == g && x.tenant == tenant && Descends(groups, tenant, k - 1, a, x.parent);
        FirstStep(groups, tenant, k - 1, a, x.parent);
        var c :| c in ChildGroups(groups, tenant, a) && Descends(groups, tenant, k - 2, c, x.parent);
        assert Descends(groups, tenant, k - 1, c, g);
        AncestorExists(groups, tenant, k, a, g);
      }
      if (exists x :: x in groups && x.id == a && x.tenant == tenant) &&
         exists c :: c in ChildGroups(groups, tenant, a) && Descends(groups, tenant, k - 1, c, g) {
        var c :| c in ChildGroups(groups, tenant, a) && Descends(groups, tenant, k - 1, c, g);
        var x :| x in groups && x.id == g && x.tenant == tenant && Descends(groups, tenant, k - 2, c, x.parent);
        FirstStep(groups, tenant, k - 1, a, x.parent);
        assert Descends(groups, tenant, k - 1, a, x.parent);
      }
    }
  }

  lemma BelowChild(groups: seq<Group>, tenant: Id, n: nat, g: Group, c: Id, x: Id)
    requires Ends(groups, tenant, n) && g in groups && g.tenant == tenant
    requires c in ChildGroups(groups, tenant, g.id) && Below(groups, tenant, n, c, x)
    ensures Below(groups, tenant, n, g.id, x)
  {
    var k: nat :| k < n && Descends(groups, tenant, k, c, x);
    FirstStep(groups, tenant, k + 1, g.id, x);
    if k + 1 == n { NoPathsBeyond(groups, tenant, n, k + 1, g.id, x); }
  }

  lemma BelowItself(groups: seq<Group>, tenant: Id, n: nat, g: Group)
    requires Ends(groups, tenant, n) && g in groups && g.tenant == tenant
    ensures Below(groups, tenant, n, g.id, g.id)
  {
    assert Descends(groups, tenant, 0, g.id, g.id);
    if n == 0 { NoPathsBeyond(groups, tenant, 0, 0, g.id, g.id); }
  }

  lemma BelowSplits(groups: seq<Group>, tenant: Id, n: nat, g: Id, x: Id) returns (c: Id)
    requires Below(groups, tenant, n, g, x) && x != g
    ensures c in ChildGroups(groups, tenant, g) && Below(groups, tenant, n, c, x)
  {
    var k: nat :| k < n && Descends(groups, tenant, k, g, x);
    FirstStep(groups, tenant, k, g, x);
    c :| c in ChildGroups(groups, tenant, g) && Descends(groups, tenant, k - 1, c, x);
  }

  /** The tree below a group is the group itself and the trees below its children. */
  lemma TreeOfChildren(groups: seq<Group>, tenant: Id, n: nat, g: Group, x: Id)
    requires Ends(groups, tenant, n) && g in groups && g.tenant == tenant
    ensures Pair(g.id, x) in GroupTree(groups, tenant, n) <==>
            x == g.id ||
            exists c :: c in ChildGroups(groups, tenant, g.id) && Pair(c, x) in GroupTree(groups, tenant, n)
  {
    TreeMembers(groups, tenant, n, Pair(g.id, x));
    if x == g.id {
      BelowItself(groups, tenant, n, g);
    } else if Below(groups, tenant, n, g.id, x) {
      var c := BelowSplits(groups, tenant, n, g.id, x);
      TreeMembers(groups, tenant, n, Pair(c, x));
    }
    if c :| c in ChildGroups(groups, tenant, g.id) && Pair(c, x) in GroupTree(groups, tenant, n) {
      TreeMembers(groups, tenant, n, Pair(c, x));
      BelowChild(groups, tenant, n, g, c, x);
    }
  }

  /** The devices below any of the groups. */
  function DevicesBelow(t: Tables, tenant: Id, tree: seq<Pair>, ids: seq<Id>): set<Id> {
    if ids == [] then {} else GroupedDevices(t, tenant, tree, ids[0]) + DevicesBelow(t, tenant, tree, ids[1..])
  }

  lemma {:induction false} DevicesBelowMembers(t: Tables, tenant: Id, tree: seq<Pair>, ids: seq<Id>, d: Id)
    ensures d in DevicesBelow(t, tenant, tree, ids) <==> exists c :: c in ids && d in GroupedDevices(t, tenant, tree, c)
    decreases |ids|
  {
    if ids == [] {
    } else {
      assert ids == [ids[0]] + ids[1..];
      DevicesBelowMembers(t, tenant, tree, ids[1..], d);
    }
  }

  lemma {:induction false} NoMoreThanSum(t: Tables, tenant: Id, n: nat, ids: seq<Id>)
    ensures |DevicesBelow(t, tenant, GroupTree(t.groups, tenant, n), ids)| <=
            SumOfCounts(DeviceCounts(t, tenant, n), ids)
    decreases |ids|
  {
    if ids == [] {
    } else {
      NoMoreThanSum(t, tenant, n, ids[1..]);
      CountsAreCardinalities(t, tenant, n, ids[0]);
      var tree := GroupTree(t.groups, tenant, n);
      UnionSize(GroupedDevices(t, tenant, tree, ids[0]), DevicesBelow(t, tenant, tree, ids[1..]));
    }
  }

  lemma UnionSize(a: set<Id>, b: set<Id>)
    ensures |a + b| <= |a| + |b|
  {
    assert a + b == a + (b - a);
    SubsetSize(b - a, b);
  }

  lemma DevicesOfChildren(t: Tables, tenant: Id, n: nat, g: Group)
    requires Ends(t.groups, tenant, n) && g in t.groups && g.tenant == tenant
    ensures var tree := GroupTree(t.groups, tenant, n);
            GroupedDevices(t, tenant, tree, g.id) ==
            OwnDevices(t, tenant, g.id) + DevicesBelow(t, tenant, tree, ChildGroups(t.groups, tenant, g.id))
  {
    var tree, children := GroupTree(t.groups, tenant, n), ChildGroups(t.groups, tenant, g.id);
    forall x ensures Pair(g.id, x) in tree <==> x == g.id || exists c :: c in children && Pair(c, x) in tree {
      TreeOfChildren(t.groups, tenant, n, g, x);
    }
    forall d ensures d in DevicesBelow(t, tenant, tree, children) <==>
                     exists c :: c in children && d in GroupedDevices(t, tenant, tree, c)
    {
      DevicesBelowMembers(t, tenant, tree, children, d);
    }
    forall x | x in GroupedDevices(t, tenant, tree, g.id)
      ensures x in OwnDevices(t, tenant, g.id) + DevicesBelow(t, tenant, tree, children)
    {
      var m, d :| m in t.memberships && d in t.devices && Pair(g.id, m.group) in tree && m.tenant == tenant &&
                  d.id == m.device && d.tenant == m.tenant && d.active && x == m.device;
      if m.group != g.id {
        var c :| c in children && Pair(c, m.group) in tree;
        assert x in GroupedDevices(t, tenant, tree, c);
      }
    }
    forall x | x in DevicesBelow(t, tenant, tree, children) ensures x in GroupedDevices(t, tenant, tree, g.id) {
      var c :| c in children && x in GroupedDevices(t, tenant, tree, c);
      var m, d :| m in t.memberships && d in t.devices && Pair(c, m.group) in tree && m.tenant == tenant &&
                  d.id == m.device && d.tenant == m.tenant && d.active && x == m.device;
      assert Pair(g.id, m.group) in tree;
    }
  }

  /** Main result: a group counts at least as many devices as each child, and at most its own members plus the sum over
      its children, since a device in several descendants counts once. */
  lemma ParentCountBounds(t: Tables, tenant: Id, n: nat, g: Group)
    requires Ends(t.groups, tenant, n) && g in t.groups && g.tenant == tenant
    ensures var counts, children := DeviceCounts(t, tenant, n), ChildGroups(t.groups, tenant, g.id);
            && (forall c :: c in children ==> CountOf(counts, c) <= CountOf(counts, g.id))
            && CountOf(counts, g.id) <= |OwnDevices(t, tenant, g.id)| + SumOfCounts(counts, children)
  {
    var tree, children := GroupTree(t.groups, tenant, n), ChildGroups(t.groups, tenant, g.id);
    DevicesOfChildren(t, tenant, n, g);
    CountsAreCardinalities(t, tenant, n, g.id);
    NoMoreThanSum(t, tenant, n, children);
    UnionSize(OwnDevices(t, tenant, g.id), DevicesBelow(t, tenant, tree, children));
    forall c | c in children
      ensures CountOf(DeviceCounts(t, tenant, n), c) <= CountOf(DeviceCounts(t, tenant, n), g.id)
    {
      CountsAreCardinalities(t, tenant, n, c);
      forall d | d in GroupedDevices(t, tenant, tree, c) ensures d in GroupedDevices(t, tenant, tree, g.id) {
        DevicesBelowMembers(t, tenant, tree, children, d);
      }
      SubsetSize(GroupedDevices(t, tenant, tree, c), GroupedDevices(t, tenant, tree, g.id));
    }
  }
}
