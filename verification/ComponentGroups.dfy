/** Grouping of modules by owner and path, and the component of every module. */
module ComponentGroups {
  import opened Ordering
  import opened ManifestModel
  import opened Components
  import Validation

  datatype GroupKey = GroupKey(owner: string, path: string)

  datatype Group = Group(key: GroupKey, modules: seq<Module>)

  predicate KeyLeq(a: GroupKey, b: GroupKey) {
    if a.owner == b.owner then StringLeq(a.path, b.path) else StringLeq(a.owner, b.owner)
  }

  predicate IdLeq(a: Module, b: Module) {
    StringLeq(a.id, b.id)
  }

  lemma KeyOrder()
    ensures TotalPreorder(KeyLeq)
  {
    forall x: GroupKey, y: GroupKey ensures KeyLeq(x, y) || KeyLeq(y, x) {
      StringLeqTotal(x.owner, y.owner);
      StringLeqTotal(x.path, y.path);
    }
    forall x: GroupKey, y: GroupKey, z: GroupKey | KeyLeq(x, y) && KeyLeq(y, z) ensures KeyLeq(x, z) {
      KeyTransitive(x, y, z);
    }
  }

  lemma KeyTransitive(x: GroupKey, y: GroupKey, z: GroupKey)
    requires KeyLeq(x, y) && KeyLeq(y, z)
    ensures KeyLeq(x, z)
  {
    if x.owner == y.owner == z.owner {
      StringLeqTransitive(x.path, y.path, z.path);
    } else if x.owner == z.owner {
      StringLeqAntisymmetric(x.owner, y.owner);
    } else if x.owner != y.owner && y.owner != z.owner {
      StringLeqTransitive(x.owner, y.owner, z.owner);
    }
  }

  lemma IdOrder()
    ensures TotalPreorder(IdLeq)
  {
    forall x: Module, y: Module ensures IdLeq(x, y) || IdLeq(y, x) {
      StringLeqTotal(x.id, y.id);
    }
    forall x: Module, y: Module, z: Module | IdLeq(x, y) && IdLeq(y, z) ensures IdLeq(x, z) {
      StringLeqTransitive(x.id, y.id, z.id);
    }
  }

  /** The modules with the key, in manifest order. */
  function ModulesWith(modules: seq<Module>, keyOf: Module -> GroupKey, key: GroupKey): (ms: seq<Module>)
    ensures forall m :: m in ms <==> m in modules && keyOf(m) == key
  {
    if modules == [] then []
    else
      var last := modules[|modules| - 1];
      ModulesWith(modules[..|modules| - 1], keyOf, key) + if keyOf(last) == key then [last] else []
  }

  /** Every module is with exactly one of the keys. */
  lemma {:induction false} ModulesCovered(modules: seq<Module>, keyOf: Module -> GroupKey, keys: seq<GroupKey>)
    requires NoDuplicates(keys) && forall m :: m in modules ==> keyOf(m) in keys
    ensures Sum(keys, k => |ModulesWith(modules, keyOf, k)|) == |modules|
  {
    if modules == [] {
      SumZero(keys, k => |ModulesWith(modules, keyOf, k)|);
    } else {
      var front, last := modules[..|modules| - 1], modules[|modules| - 1];
      ModulesCovered(front, keyOf, keys);
      SumRaised(keys, k => |ModulesWith(front, keyOf, k)|, k => |ModulesWith(modules, keyOf, k)|, keyOf(last), 1);
    }
  }

  function Keys(groups: seq<Group>): (keys: seq<GroupKey>)
    ensures |keys| == |groups| && forall i :: 0 <= i < |keys| ==> keys[i] == groups[i].key
  {
    seq(|groups|, i requires 0 <= i < |groups| => groups[i].key)
  }

  /** The modules by key, the keys in order and each once. */
  ghost predicate IsGrouping(modules: seq<Module>, keyOf: Module -> GroupKey, groups: seq<Group>) {
    && NoDuplicates(Keys(groups)) && SortedBy(Keys(groups), KeyLeq)
    && (forall m :: m in modules ==> keyOf(m) in Keys(groups))
    && forall i :: 0 <= i < |groups| ==>
         groups[i].modules == Sort(ModulesWith(modules, keyOf, groups[i].key), IdLeq) != []
  }

  /** Groups ascend by owner and then by path, and the modules of each by id. */
  ghost predicate GroupsInOrder(groups: seq<Group>) {
    && (forall i, j :: 0 <= i < j < |groups| ==>
          var a, b := groups[i].key, groups[j].key;
          StringLeq(a.owner, b.owner) && (a.owner == b.owner ==> a.path != b.path && StringLeq(a.path, b.path)))
    && forall i, k, l :: 0 <= i < |groups| && 0 <= k < l < |groups[i].modules| ==>
         StringLeq(groups[i].modules[k].id, groups[i].modules[l].id)
  }

  lemma GroupingInOrder(modules: seq<Module>, keyOf: Module -> GroupKey, groups: seq<Group>)
    requires IsGrouping(modules, keyOf, groups)
    ensures GroupsInOrder(groups)
  {
    forall i, j | 0 <= i < j < |groups|
      ensures var a, b := groups[i].key, groups[j].key;
              StringLeq(a.owner, b.owner) && (a.owner == b.owner ==> a.path != b.path && StringLeq(a.path, b.path))
    {
      assert Keys(groups)[i] != Keys(groups)[j] && KeyLeq(Keys(groups)[i], Keys(groups)[j]);
      StringLeqTotal(groups[i].key.owner, groups[j].key.owner);
    }
    IdOrder();
    forall i, k, l | 0 <= i < |groups| && 0 <= k < l < |groups[i].modules|
      ensures StringLeq(groups[i].modules[k].id, groups[i].modules[l].id)
    {
      SortCorrect(ModulesWith(modules, keyOf, groups[i].key), IdLeq);
      assert IdLeq(groups[i].modules[k], groups[i].modules[l]);
    }
  }

  type Grouped = map<GroupKey, seq<Module>>

  function Lookup(grouped: Grouped, key: GroupKey): seq<Module> {
    if key in grouped then grouped[key] else []
  }

  ghost predicate Collects(grouped: Grouped, modules: seq<Module>, keyOf: Module -> GroupKey) {
    && (forall key :: Lookup(grouped, key) == ModulesWith(modules, keyOf, key))
    && (forall key :: key in grouped ==> grouped[key] != [])
  }

  lemma ModulesWithSnoc(modules: seq<Module>, keyOf: Module -> GroupKey, m: Module, key: GroupKey)
    ensures ModulesWith(modules + [m], keyOf, key) ==
            ModulesWith(modules, keyOf, key) + if keyOf(m) == key then [m] else []
  {
    assert (modules + [m])[..|modules + [m]| - 1] == modules;
  }

  lemma CollectsStep(grouped: Grouped, modules: seq<Module>, keyOf: Module -> GroupKey, m: Module)
    requires Collects(grouped, modules, keyOf)
    ensures Collects(grouped[keyOf(m) := Lookup(grouped, keyOf(m)) + [m]], modules + [m], keyOf)
  {
    var grouped' := grouped[keyOf(m) := Lookup(grouped, keyOf(m)) + [m]];
    forall key ensures Lookup(grouped', key) == ModulesWith(modules + [m], keyOf, key) {
      ModulesWithSnoc(modules, keyOf, m, key);
    }
  }

  method SortedKeys(s: set<GroupKey>) returns (keys: seq<GroupKey>)
    ensures NoDuplicates(keys) && SortedBy(keys, KeyLeq) && forall k :: k in keys <==> k in s
  {
    var listed: seq<GroupKey> := [];
    var todo := s;
    while todo != {}
      invariant todo <= s && NoDuplicates(listed) && forall k :: k in listed <==> k in s - todo
      decreases |todo|
    {
      var k :| k in todo;
      NoDuplicatesSnoc(listed, k);
      listed := listed + [k];
      todo := todo - {k};
    }
    KeyOrder();
    SortCorrect(listed, KeyLeq);
    SortNoDuplicates(listed, KeyLeq);
    keys := Sort(listed, KeyLeq);
  }

  method CollectModules(modules: seq<Module>, keyOf: Module -> GroupKey) returns (grouped: Grouped)
    ensures Collects(grouped, modules, keyOf)
  {
    grouped := map[];
    ghost var seen: seq<Module> := [];
    for i := 0 to |modules|
      invariant seen == modules[..i] && Collects(grouped, seen, keyOf)
    {
      CollectsStep(grouped, seen, keyOf, modules[i]);
      grouped := grouped[keyOf(modules[i]) := Lookup(grouped, keyOf(modules[i])) + [modules[i]]];
      seen := seen + [modules[i]];
    }
    assert modules[..|modules|] == modules;
  }

  /** The group is the sorted list of the modules with its key. */
  ghost predicate IsGroup(modules: seq<Module>, keyOf: Module -> GroupKey, key: GroupKey, group: Group) {
    group.key == key && group.modules == Sort(ModulesWith(modules, keyOf, key), IdLeq) && group.modules != []
  }

  method GroupFor(grouped: Grouped, key: GroupKey, ghost modules: seq<Module>, ghost keyOf: Module -> GroupKey)
    returns (group: Group)
    requires Collects(grouped, modules, keyOf) && key in grouped
    ensures IsGroup(modules, keyOf, key, group)
  {
    IdOrder();
    SortCorrect(grouped[key], IdLeq);
    group := Group(key, Sort(grouped[key], IdLeq));
  }

  method BuildGroups(modules: seq<Module>, keyOf: Module -> GroupKey) returns (groups: seq<Group>)
    ensures IsGrouping(modules, keyOf, groups) && GroupsInOrder(groups)
  {
    hide GroupsInOrder;
    var grouped := CollectModules(modules, keyOf);
    var keys := SortedKeys(grouped.Keys);
    groups := [];
    for i := 0 to |keys|
      invariant |groups| == i && forall j :: 0 <= j < i ==> IsGroup(modules, keyOf, keys[j], groups[j])
    {
      assert keys[i] in grouped;
      var group := GroupFor(grouped, keys[i], modules, keyOf);
      groups := groups + [group];
    }
    GroupsCover(modules, keyOf, grouped, keys, groups);
    GroupingInOrder(modules, keyOf, groups);
  }

  lemma GroupsCover(
    modules: seq<Module>, keyOf: Module -> GroupKey, grouped: Grouped, keys: seq<GroupKey>, groups: seq<Group>)
    requires Collects(grouped, modules, keyOf) && forall k :: k in keys <==> k in grouped
    requires NoDuplicates(keys) && SortedBy(keys, KeyLeq)
    requires |groups| == |keys| && forall j :: 0 <= j < |keys| ==> IsGroup(modules, keyOf, keys[j], groups[j])
    ensures IsGrouping(modules, keyOf, groups)
  {
    assert Keys(groups) == keys;
    forall m | m in modules ensures keyOf(m) in keys {
      assert m in ModulesWith(modules, keyOf, keyOf(m));
    }
  }

  function GroupedCount(groups: seq<Group>): nat {
    if groups == [] then 0 else |groups[0].modules| + GroupedCount(groups[1..])
  }

  lemma {:induction false} GroupedCountSum(
    modules: seq<Module>, keyOf: Module -> GroupKey, groups: seq<Group>, keys: seq<GroupKey>)
    requires |keys| == |groups|
    requires forall i :: 0 <= i < |groups| ==> |groups[i].modules| == |ModulesWith(modules, keyOf, keys[i])|
    ensures GroupedCount(groups) == Sum(keys, k => |ModulesWith(modules, keyOf, k)|)
  {
    if groups != [] {
      GroupedCountSum(modules, keyOf, groups[1..], keys[1..]);
    }
  }

  /** Groups are a partition: no module is lost or in two groups. */
  lemma GroupsPartition(modules: seq<Module>, keyOf: Module -> GroupKey, groups: seq<Group>)
    requires IsGrouping(modules, keyOf, groups)
    ensures GroupedCount(groups) == |modules|
    ensures forall i, m :: 0 <= i < |groups| ==> (m in groups[i].modules <==> m in modules && keyOf(m) == groups[i].key)
  {
    IdOrder();
    forall i | 0 <= i < |groups|
      ensures |groups[i].modules| == |ModulesWith(modules, keyOf, groups[i].key)|
      ensures forall m :: m in groups[i].modules <==> m in modules && keyOf(m) == groups[i].key {
      SortCorrect(ModulesWith(modules, keyOf, groups[i].key), IdLeq);
    }
    GroupedCountSum(modules, keyOf, groups, Keys(groups));
    ModulesCovered(modules, keyOf, Keys(groups));
  }

  // ----- the component of every module -----

  ghost predicate Holds(groups: seq<Group>, ids: seq<string>, id: string, component: string) {
    exists i, j :: 0 <= i < |groups| && i < |ids| && 0 <= j < |groups[i].modules| &&
                   groups[i].modules[j].id == id && ids[i] == component
  }

  /** Later groups override earlier ones, as far as there are component ids. */
  method MapModulesToComponents(groups: seq<Group>, ids: seq<string>) returns (place: Placement)
    ensures forall id :: id in place ==> Holds(groups, ids, id, place[id])
    ensures forall i, j :: 0 <= i < |groups| && i < |ids| && 0 <= j < |groups[i].modules| ==>
              groups[i].modules[j].id in place
  {
    place := map[];
    var n := if |groups| < |ids| then |groups| else |ids|;
    for i := 0 to n
      invariant forall id :: id in place ==> Holds(groups, ids, id, place[id])
      invariant forall k, j :: 0 <= k < i && 0 <= j < |groups[k].modules| ==> groups[k].modules[j].id in place
    {
      for j := 0 to |groups[i].modules|
        invariant forall id :: id in place ==> Holds(groups, ids, id, place[id])
        invariant forall k, l :: 0 <= k < i && 0 <= l < |groups[k].modules| ==> groups[k].modules[l].id in place
        invariant forall l :: 0 <= l < j ==> groups[i].modules[l].id in place
      {
        assert Holds(groups, ids, groups[i].modules[j].id, ids[i]);
        place := place[groups[i].modules[j].id := ids[i]];
      }
    }
  }

  /** In a well-formed manifest every module and every dependency target has a component. */
  lemma PlacedWhenWellFormed(m: Manifest, keyOf: Module -> GroupKey, groups: seq<Group>, ids: seq<string>,
      place: Placement)
    requires Validation.WellFormed(m) && IsGrouping(m.modules, keyOf, groups) && |ids| == |groups|
    requires forall i, j :: 0 <= i < |groups| && i < |ids| && 0 <= j < |groups[i].modules| ==>
               groups[i].modules[j].id in place
    ensures AllPlaced(place, m.modules)
  {
    GroupsPartition(m.modules, keyOf, groups);
    forall mod | mod in m.modules ensures mod.id in place {
      ModulePlaced(m, keyOf, groups, place, mod);
    }
    forall mod, d | mod in m.modules && d in mod.dependencies ensures d.target in place {
      var k :| 0 <= k < |m.modules| && m.modules[k] == mod;
      assert Validation.ModuleWellFormed(m, m.modules[k]);
      assert d.target in Validation.ModuleIds(m);
      var l :| 0 <= l < |m.modules| && m.modules[l].id == d.target;
      assert m.modules[l] in m.modules;
    }
  }

  lemma ModulePlaced(m: Manifest, keyOf: Module -> GroupKey, groups: seq<Group>, place: Placement, mod: Module)
    requires IsGrouping(m.modules, keyOf, groups) && mod in m.modules
    requires forall i, x :: 0 <= i < |groups| ==>
             (x in groups[i].modules <==> x in m.modules && keyOf(x) == groups[i].key)
    requires forall i, j :: 0 <= i < |groups| && 0 <= j < |groups[i].modules| ==> groups[i].modules[j].id in place
    ensures mod.id in place
  {
    assert keyOf(mod) in Keys(groups);
    var i :| 0 <= i < |groups| && Keys(groups)[i] == keyOf(mod);
    assert mod in groups[i].modules;
    var j :| 0 <= j < |groups[i].modules| && groups[i].modules[j] == mod;
  }
}
