/** Import of a GN target graph as a manifest: flattened dependencies, module ids, states and boundaries. */
module GnImport {
  import opened Wrappers
  import opened Ordering
  import opened Graphs
  import opened Flattening
  import opened GnProject
  import opened GnSelection
  import opened ManifestModel
  import opened LabelIds
  import opened IdAssignment
  import opened Validation

  // ----- the selected graph -----

  function ResolvedIn(p: Project, aliases: Aliases, deps: seq<string>, selected: set<string>): (r: seq<string>)
    ensures forall b :: b in r <==> b in selected && exists d :: d in deps && ResolveLabel(p, aliases, d) == Ok(b)
  {
    if deps == [] then []
    else
      assert forall d :: d in deps <==> d == deps[0] || d in deps[1..];
      var rest := ResolvedIn(p, aliases, deps[1..], selected);
      match ResolveLabel(p, aliases, deps[0])
      case Ok(b) => if b in selected then [b] + rest else rest
      case Err(_) => rest
  }

  /** The selected targets and the resolved dependencies between them. */
  function SelectedGraph(p: Project, aliases: Aliases, selected: set<string>): (g: Graph)
    requires selected <= p.targets.Keys
    ensures g.Keys == selected
    ensures forall a, b :: Edge(g, a, b) <==> a in selected && b in selected && DependsOn(p, aliases, a, b)
  {
    map a | a in selected :: ResolvedIn(p, aliases, p.targets[a].deps, selected)
  }

  lemma {:induction false} WalkStaysSelected(g: Graph, selected: set<string>, w: seq<string>)
    requires forall a, b :: Edge(g, a, b) ==> a in selected && b in selected
    requires |w| >= 2 && Chain(g, w)
    ensures forall i :: 0 <= i < |w| ==> w[i] in selected
  {
    forall i | 0 <= i < |w| ensures w[i] in selected {
      if i == 0 {
        assert Edge(g, w[0], w[1]);
      } else {
        assert Edge(g, w[i - 1], w[i]);
      }
    }
  }

  // ----- collecting what is reached through unimported targets -----

  /** The dependencies of everything visited since `start` have been dealt with. */
  ghost predicate DependenciesDone(
    p: Project, aliases: Aliases, selected: set<string>, imported: set<string>,
    start: set<string>, visited: set<string>, result: set<string>)
  {
    forall v, b :: v in visited && v !in start && DependsOn(p, aliases, v, b) ==>
                   Handled(selected, imported, visited, result, b)
  }

  /** The first dependencies of a target have been dealt with. */
  ghost predicate PrefixDone(
    p: Project, aliases: Aliases, selected: set<string>, imported: set<string>,
    deps: seq<string>, visited: set<string>, result: set<string>)
  {
    forall d :: d in deps ==> match ResolveLabel(p, aliases, d)
                              case Ok(b) => Handled(selected, imported, visited, result, b)
                              case Err(_) => false
  }

  /** Everything collected since `start` is reached from the target through unimported targets. */
  ghost predicate OnlyReached(g: Graph, imported: set<string>, name: string, start: set<string>, result: set<string>) {
    forall x :: x in result && x !in start ==> ThroughMeta(g, imported, name, x)
  }

  /** The same from one of its dependencies, which may itself have been collected. */
  ghost predicate OnlyReachedFrom(
    g: Graph, selected: set<string>, imported: set<string>, next: string, start: set<string>, result: set<string>)
  {
    forall x :: x in result && x !in start ==>
                next in selected && (x == next || (next !in imported && ThroughMeta(g, imported, next, x)))
  }

  lemma OnlyReachedStep(
    g: Graph, selected: set<string>, imported: set<string>, name: string, next: string,
    start: set<string>, before: set<string>, result: set<string>)
    requires OnlyReached(g, imported, name, start, before) &&
             OnlyReachedFrom(g, selected, imported, next, before, result)
    requires next in selected ==> Edge(g, name, next)
    ensures OnlyReached(g, imported, name, start, result)
  {
    forall x | x in result && x !in start ensures ThroughMeta(g, imported, name, x) {
      if x !in before {
        if x == next {
          ThroughMetaEdge(g, imported, name, x);
        } else {
          ThroughMetaPrepend(g, imported, name, next, x);
        }
      }
    }
  }

  class MetaWalk {
    const p: Project
    const aliases: Aliases
    const selected: set<string>
    const imported: set<string>
    ghost const g: Graph
    var visited: set<string>
    var result: set<string>

    constructor (p: Project, aliases: Aliases, selected: set<string>, imported: set<string>)
      requires imported <= selected <= p.targets.Keys
      ensures Valid() && visited == {} && result == {}
      ensures this.p == p && this.aliases == aliases && this.selected == selected && this.imported == imported
      ensures g == SelectedGraph(p, aliases, selected)
    {
      this.p, this.aliases, this.selected, this.imported := p, aliases, selected, imported;
      g := SelectedGraph(p, aliases, selected);
      visited, result := {}, {};
    }

    ghost predicate Valid()
      reads this
    {
      && imported <= selected <= p.targets.Keys && visited <= selected - imported && result <= imported
      && EdgesKnown()
    }

    ghost predicate EdgesKnown() {
      forall a, b :: a in selected && b in selected && DependsOn(p, aliases, a, b) ==> Edge(g, a, b)
    }

    ghost predicate Resolvable() {
      selected <= p.targets.Keys && forall a :: a in selected ==> DependenciesResolve(p, aliases, a)
    }

    /** Depth first, stopping at imported targets; what was visited before may still be in progress. */
    method Collect(name: string) returns (error: Option<ImportError>)
      requires Valid()
      modifies this`visited, this`result
      ensures Valid() && old(visited) <= visited && old(result) <= result
      ensures Resolvable() ==> error.None?
      ensures error.None? ==> Handled(selected, imported, visited, result, name)
      ensures error.None? ==> DependenciesDone(p, aliases, selected, imported, old(visited), visited, result)
      ensures error.None? ==> OnlyReachedFrom(g, selected, imported, name, old(result), result)
      decreases selected - visited, 0
    {
      if name !in selected {
        return None;
      }
      if name in imported {
        result := result + {name};
        return None;
      }
      if name in visited {
        return None;
      }
      visited := visited + {name};
      error := CollectAll(name);
    }

    /** Resolve one dependency of a selected target and collect from there. */
    method CollectOne(name: string, dependency: string) returns (error: Option<ImportError>)
      requires Valid() && name in selected && dependency in p.targets[name].deps
      modifies this`visited, this`result
      ensures Valid() && old(visited) <= visited && old(result) <= result
      ensures Resolvable() ==> error.None?
      ensures error.None? ==> PrefixDone(p, aliases, selected, imported, [dependency], visited, result)
      ensures error.None? ==> DependenciesDone(p, aliases, selected, imported, old(visited), visited, result)
      ensures error.None? ==> OnlyReached(g, imported, name, old(result), result)
      decreases selected - visited, 1
    {
      var resolved := ResolveDependency(p, aliases, name, dependency);
      if resolved.Err? {
        assert ResolveLabel(p, aliases, dependency).Err?;
        assert !DependenciesResolve(p, aliases, name);
        return Some(resolved.error);
      }
      error := Collect(resolved.value);
      if error.None? {
        assert resolved.value in selected ==> Edge(g, name, resolved.value);
        OnlyReachedStep(g, selected, imported, name, resolved.value, old(result), old(result), result);
      }
    }

    /** Collect from every dependency of one selected target. */
    method CollectAll(name: string) returns (error: Option<ImportError>)
      requires Valid() && name in selected
      modifies this`visited, this`result
      ensures Valid() && old(visited) <= visited && old(result) <= result
      ensures Resolvable() ==> error.None?
      ensures error.None? ==> PrefixDone(p, aliases, selected, imported, p.targets[name].deps, visited, result)
      ensures error.None? ==> DependenciesDone(p, aliases, selected, imported, old(visited), visited, result)
      ensures error.None? ==> OnlyReached(g, imported, name, old(result), result)
      decreases selected - visited, 2
    {
      var deps := p.targets[name].deps;
      for i := 0 to |deps|
        invariant Valid() && old(visited) <= visited && old(result) <= result
        invariant PrefixDone(p, aliases, selected, imported, deps[..i], visited, result)
        invariant DependenciesDone(p, aliases, selected, imported, old(visited), visited, result)
        invariant OnlyReached(g, imported, name, old(result), result)
      {
        ghost var result0, visited0 := result, visited;
        error := CollectOne(name, deps[i]);
        if error.Some? {
          return;
        }
        assert deps[..i + 1] == deps[..i] + [deps[i]];
        OnlyReachedJoin(g, imported, name, old(result), result0, result);
        PrefixDoneSnoc(p, aliases, selected, imported, deps[..i], deps[i], visited0, result0, visited, result);
        DependenciesDoneStep(p, aliases, selected, imported, old(visited), visited0, result0, visited, result);
      }
      assert deps[..|deps|] == deps;
      return None;
    }
  }

  lemma OnlyReachedJoin(g: Graph, imported: set<string>, name: string, start: set<string>, mid: set<string>,
      end: set<string>)
    requires OnlyReached(g, imported, name, start, mid) && OnlyReached(g, imported, name, mid, end)
    ensures OnlyReached(g, imported, name, start, end)
  {
  }

  lemma PrefixDoneSnoc(
    p: Project, aliases: Aliases, selected: set<string>, imported: set<string>, deps: seq<string>, d: string,
    visited: set<string>, result: set<string>, visited': set<string>, result': set<string>)
    requires visited <= visited' && result <= result'
    requires PrefixDone(p, aliases, selected, imported, deps, visited, result)
    requires PrefixDone(p, aliases, selected, imported, [d], visited', result')
    ensures PrefixDone(p, aliases, selected, imported, deps + [d], visited', result')
  {
    assert d in [d];
  }

  lemma DependenciesDoneStep(
    p: Project, aliases: Aliases, selected: set<string>, imported: set<string>, start: set<string>,
    visited: set<string>, result: set<string>, visited': set<string>, result': set<string>)
    requires visited <= visited' && result <= result'
    requires DependenciesDone(p, aliases, selected, imported, start, visited, result)
    requires DependenciesDone(p, aliases, selected, imported, visited, visited', result')
    ensures DependenciesDone(p, aliases, selected, imported, start, visited', result')
  {
  }

  // ----- the flattened dependencies of the imported targets -----

  ghost predicate AllResolve(p: Project, aliases: Aliases, selected: set<string>)
    requires selected <= p.targets.Keys
  {
    forall a :: a in selected ==> DependenciesResolve(p, aliases, a)
  }

  /** The other imported targets reached from one target through unimported ones. */
  method EffectiveDependencies(p: Project, aliases: Aliases, selected: set<string>, imported: set<string>, name: string)
    returns (dependencies: set<string>)
    requires imported <= selected <= p.targets.Keys && name in imported
    requires forall a :: a in selected ==> DependenciesResolve(p, aliases, a)
    ensures forall b :: b in dependencies <==>
                        (b in imported && b != name &&
                         ThroughMeta(SelectedGraph(p, aliases, selected), imported, name, b))
  {
    var walk := new MetaWalk(p, aliases, selected, imported);
    assert walk.Resolvable();
    var error := walk.CollectAll(name);
    assert error.None?;
    forall b | b in imported && ThroughMeta(SelectedGraph(p, aliases, selected), imported, name, b)
      ensures b in walk.result
    {
      ReachedIsCollected(p, aliases, selected, imported, name, b, walk.visited, walk.result);
    }
    return walk.result - {name};
  }

  lemma ReachedIsCollected(
    p: Project, aliases: Aliases, selected: set<string>, imported: set<string>, name: string, b: string,
    visited: set<string>, result: set<string>)
    requires imported <= selected <= p.targets.Keys && name in imported && b in imported
    requires PrefixDone(p, aliases, selected, imported, p.targets[name].deps, visited, result)
    requires DependenciesDone(p, aliases, selected, imported, {}, visited, result)
    requires ThroughMeta(SelectedGraph(p, aliases, selected), imported, name, b)
    ensures b in result
  {
    var g := SelectedGraph(p, aliases, selected);
    var w :| |w| >= 2 && Walk(g, name, w, b) && InnerMeta(imported, w);
    WalkStaysSelected(g, selected, w);
    assert Edge(g, w[0], w[1]);
    WalkSuffix(g, w, 1);
    forall v, x | v in visited && Edge(g, v, x) ensures Handled(selected, imported, visited, result, x) {
    }
    HandledClosure(g, selected, imported, visited, result, w[1..]);
  }

  /** The flattened dependencies of one label, each once. */
  ghost predicate FlatRow(g: Graph, imported: set<string>, a: string, row: seq<string>) {
    NoDuplicates(row) && forall b :: b in row <==> b in imported && b != a && ThroughMeta(g, imported, a, b)
  }

  method FlattenOne(p: Project, aliases: Aliases, selected: set<string>, imported: set<string>, a: string)
    returns (row: seq<string>)
    requires imported <= selected <= p.targets.Keys && a in imported
    requires forall x :: x in selected ==> DependenciesResolve(p, aliases, x)
    ensures FlatRow(SelectedGraph(p, aliases, selected), imported, a, row)
  {
    var dependencies := EffectiveDependencies(p, aliases, selected, imported, a);
    row := ListOf(dependencies);
  }

  ghost predicate Rows(g: Graph, imported: set<string>, flat: Graph) {
    forall a :: a in flat ==> FlatRow(g, imported, a, flat[a])
  }

  lemma RowsUpdate(g: Graph, imported: set<string>, flat: Graph, a: string, row: seq<string>)
    requires Rows(g, imported, flat) && FlatRow(g, imported, a, row)
    ensures Rows(g, imported, flat[a := row])
  {
  }

  lemma RowsAreFlattening(g: Graph, imported: set<string>, flat: Graph)
    requires flat.Keys == imported && Rows(g, imported, flat)
    ensures IsFlattening(g, imported, flat)
    ensures forall a :: a in flat ==> NoDuplicates(flat[a])
  {
    forall a, b | a in imported
      ensures Edge(flat, a, b) <==> b in imported && b != a && ThroughMeta(g, imported, a, b)
    {
      assert FlatRow(g, imported, a, flat[a]);
    }
  }

  method FlattenDependencies(p: Project, aliases: Aliases, selected: set<string>, imported: set<string>)
    returns (flat: Graph)
    requires imported <= selected <= p.targets.Keys
    requires AllResolve(p, aliases, selected)
    ensures IsFlattening(SelectedGraph(p, aliases, selected), imported, flat)
    ensures forall a :: a in flat ==> NoDuplicates(flat[a])
  {
    flat := map[];
    ghost var g := SelectedGraph(p, aliases, selected);
    var labels := ListOf(imported);
    for i := 0 to |labels|
      invariant forall a :: a in flat <==> a in labels[..i]
      invariant Rows(g, imported, flat)
    {
      assert labels[..i + 1] == labels[..i] + [labels[i]];
      assert labels[i] in imported;
      var row := FlattenOne(p, aliases, selected, imported, labels[i]);
      RowsUpdate(g, imported, flat, labels[i], row);
      flat := flat[labels[i] := row];
    }
    assert labels[..|labels|] == labels;
    assert flat.Keys == imported;
    RowsAreFlattening(g, imported, flat);
  }

  lemma FlatEdges(g: Graph, imported: set<string>, flat: Graph)
    requires IsFlattening(g, imported, flat)
    ensures flat.Keys == imported && forall a, b :: Edge(flat, a, b) ==> b in imported && a != b
  {
  }

  // ----- modules -----

  datatype GateOptions = GateOptions(id: string, command: string, targetId: string)

  function InferBoundary(source: MigrationState, dependency: MigrationState, inferState: bool): Boundary {
    if !inferState then CppInternal
    else if source == LegacyCpp && dependency == LegacyCpp then CppInternal
    else if source == RustOwned && dependency == RustOwned then Rust
    else Unclassified
  }

  /** What the import decides about each label before it builds the modules. */
  datatype Plan = Plan(
    imported: set<string>, ids: map<string, string>, states: map<string, MigrationState>, gates: seq<string>,
    inferState: bool, flat: Graph)
  {
    ghost predicate Valid() {
      && ids.Keys == imported && states.Keys == imported && flat.Keys == imported && Injective(ids)
      && (forall a, b :: Edge(flat, a, b) ==> b in imported && a != b)
      && (forall a :: a in flat ==> NoDuplicates(flat[a]))
    }
  }

  ghost predicate DependencyFor(plan: Plan, a: string, b: string, d: Dependency) {
    && b in plan.ids && a in plan.states && b in plan.states
    && d == Dependency(plan.ids[b], InferBoundary(plan.states[a], plan.states[b], plan.inferState), [], [])
  }

  /** The module stands for the label: its dependencies are those of the flattened graph, sorted and once each. */
  ghost predicate ModuleFor(plan: Plan, a: string, mod: Module) {
    && a in plan.ids && a in plan.states
    && mod.id == plan.ids[a] && mod.state == plan.states[a] && mod.gates == plan.gates && mod.reviews == []
    && (forall d :: d in mod.dependencies <==> exists b :: Edge(plan.flat, a, b) && DependencyFor(plan, a, b, d))
    && NoDuplicates(DependencyIds(mod.dependencies)) && SortedBy(mod.dependencies, DependencyLeq)
  }

  predicate DependencyLeq(x: Dependency, y: Dependency) { StringLeq(x.target, y.target) }
  predicate ModuleLeq(x: Module, y: Module) { StringLeq(x.id, y.id) }

  lemma DistinctTargets(plan: Plan, a: string, dependencies: seq<Dependency>)
    requires plan.Valid() && a in plan.imported && |dependencies| == |plan.flat[a]|
    requires forall j :: 0 <= j < |dependencies| ==>
               Edge(plan.flat, a, plan.flat[a][j]) && DependencyFor(plan, a, plan.flat[a][j], dependencies[j])
    ensures forall i, j :: 0 <= i < j < |dependencies| ==> dependencies[i].target != dependencies[j].target
  {
    forall i, j | 0 <= i < j < |dependencies| ensures dependencies[i].target != dependencies[j].target {
      assert plan.flat[a][i] != plan.flat[a][j];
    }
  }

  lemma SortDependencies(plan: Plan, a: string, dependencies: seq<Dependency>)
    requires plan.Valid() && a in plan.imported && |dependencies| == |plan.flat[a]|
    requires forall j :: 0 <= j < |dependencies| ==>
               Edge(plan.flat, a, plan.flat[a][j]) && DependencyFor(plan, a, plan.flat[a][j], dependencies[j])
    ensures var sorted := Sort(dependencies, DependencyLeq);
            && (forall d :: d in sorted <==> d in dependencies)
            && NoDuplicates(DependencyIds(sorted)) && SortedBy(sorted, DependencyLeq)
  {
    DistinctTargets(plan, a, dependencies);
    hide DependencyFor, Edge, DependencyLeq;
    LeqOrder();
    SortCorrect(dependencies, DependencyLeq);
    assert NoDuplicates(dependencies);
    SortNoDuplicates(dependencies, DependencyLeq);
    var sorted := Sort(dependencies, DependencyLeq);
    forall i, j | 0 <= i < j < |sorted| ensures sorted[i].target != sorted[j].target {
      assert sorted[i] in dependencies && sorted[j] in dependencies && sorted[i] != sorted[j];
    }
  }

  lemma LeqOrder()
    ensures TotalPreorder(DependencyLeq)
  {
    StringOrder();
  }

  method BuildModule(plan: Plan, a: string) returns (mod: Module)
    requires plan.Valid() && a in plan.imported
    ensures ModuleFor(plan, a, mod)
  {
    var listed := plan.flat[a];
    var dependencies: seq<Dependency> := [];
    for i := 0 to |listed|
      invariant |dependencies| == i
      invariant forall j :: 0 <= j < i ==>
                            Edge(plan.flat, a, listed[j]) && DependencyFor(plan, a, listed[j], dependencies[j])
    {
      var b := listed[i];
      assert Edge(plan.flat, a, b);
      dependencies := dependencies +
        [Dependency(plan.ids[b], InferBoundary(plan.states[a], plan.states[b], plan.inferState), [], [])];
    }
    DependenciesListed(plan, a, dependencies);
    SortDependencies(plan, a, dependencies);
    var sorted := Sort(dependencies, DependencyLeq);
    return Module(plan.ids[a], plan.states[a], plan.gates, [], sorted);
  }

  /** The dependencies of a module in the order of its edges. */
  lemma DependenciesListed(plan: Plan, a: string, dependencies: seq<Dependency>)
    requires plan.Valid() && a in plan.imported && |dependencies| == |plan.flat[a]|
    requires forall j :: 0 <= j < |dependencies| ==>
               Edge(plan.flat, a, plan.flat[a][j]) && DependencyFor(plan, a, plan.flat[a][j], dependencies[j])
    ensures forall d :: d in dependencies <==> exists b :: Edge(plan.flat, a, b) && DependencyFor(plan, a, b, d)
  {
    forall d ensures d in dependencies <==> exists b :: Edge(plan.flat, a, b) && DependencyFor(plan, a, b, d) {
      if b :| Edge(plan.flat, a, b) && DependencyFor(plan, a, b, d) {
        var j :| 0 <= j < |plan.flat[a]| && plan.flat[a][j] == b;
        assert dependencies[j] == d;
      }
    }
  }

  function Members(modules: seq<Module>): set<Module> {
    set mod | mod in modules
  }

  ghost predicate MembersFor(plan: Plan, members: set<Module>) {
    && (forall a :: a in plan.imported ==> exists mod :: mod in members && ModuleFor(plan, a, mod))
    && (forall mod :: mod in members ==> exists a :: a in plan.imported && ModuleFor(plan, a, mod))
  }

  /** Every imported label has exactly one module. */
  ghost predicate ModulesFor(plan: Plan, modules: seq<Module>) {
    MembersFor(plan, Members(modules)) && DistinctIds(modules)
  }

  lemma ListedModules(plan: Plan, labels: seq<string>, modules: seq<Module>)
    requires plan.Valid() && |labels| == |modules| && NoDuplicates(labels)
    requires forall a :: a in labels <==> a in plan.imported
    requires forall i :: 0 <= i < |labels| ==> labels[i] in plan.imported && ModuleFor(plan, labels[i], modules[i])
    ensures ModulesFor(plan, modules)
  {
    var members := Members(modules);
    forall a | a in plan.imported ensures exists mod :: mod in members && ModuleFor(plan, a, mod) {
      var i :| 0 <= i < |labels| && labels[i] == a;
      assert modules[i] in members;
    }
    forall mod | mod in members ensures exists a :: a in plan.imported && ModuleFor(plan, a, mod) {
      var i :| 0 <= i < |modules| && modules[i] == mod;
      assert ModuleFor(plan, labels[i], mod);
    }
    forall x, y | 0 <= x < y < |modules| ensures modules[x].id != modules[y].id {
      assert modules[x].id == plan.ids[labels[x]] && modules[y].id == plan.ids[labels[y]];
      assert labels[x] != labels[y];
    }
  }

  lemma SortKeepsModules(plan: Plan, modules: seq<Module>)
    requires ModulesFor(plan, modules)
    ensures ModulesFor(plan, Sort(modules, ModuleLeq)) && SortedBy(Sort(modules, ModuleLeq), ModuleLeq)
  {
    StringOrder();
    SortedIdsDistinct(modules);
    assert Members(Sort(modules, ModuleLeq)) == Members(modules) by {
      SortCorrect(modules, ModuleLeq);
    }
    assert SortedBy(Sort(modules, ModuleLeq), ModuleLeq) by {
      SortCorrect(modules, ModuleLeq);
    }
  }

  method BuildModules(plan: Plan) returns (modules: seq<Module>)
    requires plan.Valid()
    ensures ModulesFor(plan, modules) && SortedBy(modules, ModuleLeq)
  {
    hide ModuleFor, ModulesFor, SortedBy;
    var labels := ListOf(plan.imported);
    modules := [];
    for i := 0 to |labels|
      invariant |modules| == i
      invariant forall j :: 0 <= j < i ==> labels[j] in plan.imported && ModuleFor(plan, labels[j], modules[j])
    {
      assert labels[i] in plan.imported;
      var mod := BuildModule(plan, labels[i]);
      modules := modules + [mod];
    }
    ListedModules(plan, labels, modules);
    SortKeepsModules(plan, modules);
    modules := Sort(modules, ModuleLeq);
  }

  lemma SortedIdsDistinct(built: seq<Module>)
    requires DistinctIds(built)
    ensures DistinctIds(Sort(built, ModuleLeq))
  {
    StringOrder();
    SortCorrect(built, ModuleLeq);
    assert NoDuplicates(built);
    SortNoDuplicates(built, ModuleLeq);
    var sorted := Sort(built, ModuleLeq);
    forall x, y | 0 <= x < y < |sorted| ensures sorted[x].id != sorted[y].id {
      assert sorted[x] in built && sorted[y] in built && sorted[x] != sorted[y];
    }
  }

  // ----- the whole import -----

  /** What the import knows of the sources of a target: whether it is compiled, and its inferred state. */
  datatype Classifier = Classifier(isSource: GnTarget -> bool, inferredState: GnTarget -> MigrationState)

  ghost function EligibleTargets(p: Project, o: Options): set<string> {
    set x | x in p.targets && Eligible(p, o, x)
  }

  /** The selection: all eligible targets, or the closure of the roots when there are any. */
  ghost function Selected(p: Project, aliases: Aliases, o: Options): (s: set<string>)
    ensures s <= p.targets.Keys
  {
    if o.roots == [] then EligibleTargets(p, o)
    else set l | l in p.targets && InClosure(p, aliases, EligibleTargets(p, o), o.roots, l)
  }

  /** The roots are eligible and every dependency of a selected target resolves. */
  ghost predicate Selectable(p: Project, aliases: Aliases, o: Options) {
    RootsEligible(p, aliases, EligibleTargets(p, o), o.roots) && AllResolve(p, aliases, Selected(p, aliases, o))
  }

  method SelectTargets(p: Project, aliases: Aliases, o: Options) returns (r: Result<set<string>, ImportError>)
    requires AliasesOf(p, p.targets.Keys, aliases)
    ensures r.Ok? <==> Selectable(p, aliases, o)
    ensures r.Ok? ==> r.value == Selected(p, aliases, o)
    ensures r.Err? ==> IsFault(p, aliases, o, r.error)
  {
    hide IsFault;
    var eligible, _, _ := SelectEligible(p, o);
    assert eligible == EligibleTargets(p, o);
    var selected := eligible;
    if o.roots != [] {
      var closure := SelectRootClosure(p, aliases, o, eligible);
      if closure.Err? {
        return closure;
      }
      selected := closure.value;
      ClosureIsSelected(p, aliases, o, selected);
    }
    var omitted := CollectOmitted(p, aliases, o, selected);
    if omitted.Err? {
      return Err(omitted.error);
    }
    return Ok(selected);
  }

  lemma ClosureIsSelected(p: Project, aliases: Aliases, o: Options, selected: set<string>)
    requires o.roots != [] && selected <= EligibleTargets(p, o)
    requires RootClosed(p, aliases, EligibleTargets(p, o), o.roots, selected)
    requires forall s :: RootClosed(p, aliases, EligibleTargets(p, o), o.roots, s) ==> selected <= s
    ensures selected == Selected(p, aliases, o)
  {
  }

  lemma LabelModule(plan: Plan, m: Manifest, a: string) returns (i: nat)
    requires ModulesFor(plan, m.modules) && a in plan.imported
    ensures i < |m.modules| && ModuleFor(plan, a, m.modules[i])
    ensures a in plan.ids && ModuleIds(m)[i] == plan.ids[a]
  {
    var mod :| mod in Members(m.modules) && ModuleFor(plan, a, mod);
    i :| 0 <= i < |m.modules| && m.modules[i] == mod;
  }

  lemma RowDependency(plan: Plan, a: string, b: string, mod: Module)
    requires plan.Valid() && ModuleFor(plan, a, mod) && b in plan.imported
    ensures (exists d :: d in mod.dependencies && d.target == plan.ids[b]) <==> Edge(plan.flat, a, b)
  {
    if d :| d in mod.dependencies && d.target == plan.ids[b] {
      var x :| Edge(plan.flat, a, x) && DependencyFor(plan, a, x, d);
      assert x == b;
    }
    if Edge(plan.flat, a, b) {
      var d := Dependency(plan.ids[b], InferBoundary(plan.states[a], plan.states[b], plan.inferState), [], []);
      assert DependencyFor(plan, a, b, d);
      assert d in mod.dependencies;
    }
  }

  lemma PlanEdges(plan: Plan, m: Manifest, a: string, b: string)
    requires plan.Valid() && ModulesFor(plan, m.modules) && a in plan.imported && b in plan.imported
    ensures Edge(ModuleGraph(m.modules, ModuleIds(m)), plan.ids[a], plan.ids[b]) <==> Edge(plan.flat, a, b)
  {
    var i := LabelModule(plan, m, a);
    var j := LabelModule(plan, m, b);
    ModuleGraphEdges(m.modules, ModuleIds(m), i, plan.ids[b]);
    RowDependency(plan, a, b, m.modules[i]);
  }

  ghost function Preimage(ids: map<string, string>, y: string): (a: string)
    requires y in ids.Values
    ensures a in ids && ids[a] == y
  {
    var a :| a in ids && ids[a] == y;
    a
  }

  ghost function Inverse(ids: map<string, string>): (inverse: map<string, string>)
    requires Injective(ids)
    ensures inverse.Keys == ids.Values
    ensures forall a :: a in ids ==> ids[a] in inverse && inverse[ids[a]] == a
  {
    map y | y in ids.Values :: Preimage(ids, y)
  }

  /** The dependency graph of the manifest is the flattened graph under the module ids, so it has the same cycles. */
  lemma PlanAcyclic(plan: Plan, m: Manifest)
    requires plan.Valid() && ModulesFor(plan, m.modules)
    ensures Acyclic(ModuleGraph(m.modules, ModuleIds(m))) <==> Acyclic(plan.flat)
  {
    var g := ModuleGraph(m.modules, ModuleIds(m));
    forall a, b | Edge(plan.flat, a, b) ensures Edge(g, plan.ids[a], plan.ids[b]) {
      PlanEdges(plan, m, a, b);
    }
    var inverse := Inverse(plan.ids);
    forall x, y | Edge(g, x, y) ensures x in inverse && y in inverse && Edge(plan.flat, inverse[x], inverse[y]) {
      var a, b := EdgeLabels(plan, m, x, y);
      PlanEdges(plan, m, a, b);
    }
    if Acyclic(g) {
      CarriedAcyclic(plan.flat, g, plan.ids);
    }
    if Acyclic(plan.flat) {
      CarriedAcyclic(g, plan.flat, inverse);
    }
  }

  lemma ModuleLabel(plan: Plan, m: Manifest, i: nat) returns (a: string)
    requires ModulesFor(plan, m.modules) && i < |m.modules|
    ensures a in plan.imported && a in plan.ids && m.modules[i].id == plan.ids[a] && ModuleFor(plan, a, m.modules[i])
  {
    assert m.modules[i] in Members(m.modules);
    a :| a in plan.imported && ModuleFor(plan, a, m.modules[i]);
  }

  lemma EdgeLabels(plan: Plan, m: Manifest, x: string, y: string) returns (a: string, b: string)
    requires plan.Valid() && ModulesFor(plan, m.modules)
    requires Edge(ModuleGraph(m.modules, ModuleIds(m)), x, y)
    ensures a in plan.imported && b in plan.imported && x == plan.ids[a] && y == plan.ids[b]
  {
    var i :| 0 <= i < |m.modules| && m.modules[i].id == x;
    ModuleGraphEdges(m.modules, ModuleIds(m), i, y);
    var j :| 0 <= j < |m.modules| && ModuleIds(m)[j] == y;
    a := ModuleLabel(plan, m, i);
    b := ModuleLabel(plan, m, j);
  }

  lemma PlanDependencyKnown(plan: Plan, m: Manifest, a: string, mod: Module, d: Dependency)
    requires plan.Valid() && ModulesFor(plan, m.modules) && ModuleFor(plan, a, mod) && d in mod.dependencies
    ensures d.target != mod.id && d.target in ModuleIds(m)
  {
    var b :| Edge(plan.flat, a, b) && DependencyFor(plan, a, b, d);
    var j := LabelModule(plan, m, b);
  }

  lemma PlanModuleWellFormed(plan: Plan, m: Manifest, i: nat)
    requires plan.Valid() && ModulesFor(plan, m.modules) && i < |m.modules|
    requires forall a :: a in plan.states && plan.states[a] != LegacyCpp ==> plan.gates != []
    requires forall g :: g in plan.gates ==> g in GateIds(m)
    ensures ModuleWellFormed(m, m.modules[i])
  {
    var mod := m.modules[i];
    var a := ModuleLabel(plan, m, i);
    forall d | d in mod.dependencies ensures d.target != mod.id && d.target in ModuleIds(m) {
      PlanDependencyKnown(plan, m, a, mod, d);
    }
  }

  /** An imported manifest fails reference validation only when its flattened graph has a cycle. */
  lemma PlanWellFormed(plan: Plan, m: Manifest)
    requires plan.Valid() && ModulesFor(plan, m.modules)
    requires forall a :: a in plan.states && plan.states[a] != LegacyCpp ==> plan.gates != []
    requires (plan.gates == [] && m.gates == [] && m.targets == []) ||
             (|m.gates| == 1 && |m.targets| == 1 && plan.gates == [m.gates[0].id] &&
              m.gates[0].targets == [m.targets[0].id])
    ensures WellFormed(m) <==> Acyclic(plan.flat)
  {
    PlanAcyclic(plan, m);
    assert forall g :: g in plan.gates ==> m.gates != [] && GateIds(m)[0] == g;
    forall i | 0 <= i < |m.modules| ensures ModuleWellFormed(m, m.modules[i]) {
      PlanModuleWellFormed(plan, m, i);
    }
    assert NoDuplicates(ModuleIds(m)) by {
      assert forall i :: 0 <= i < |m.modules| ==> ModuleIds(m)[i] == m.modules[i].id;
    }
    forall g | g in m.gates ensures GateWellFormed(m, g) {
      assert TargetIds(m)[0] == m.targets[0].id;
    }
  }

  /** The selected targets that become modules. */
  function Imported(p: Project, o: Options, c: Classifier, selected: set<string>): set<string>
    requires selected <= p.targets.Keys
  {
    set l | l in selected && (o.includeMetaTargets || c.isSource(p.targets[l]))
  }

  function StartStates(p: Project, o: Options, c: Classifier, imported: set<string>): map<string, MigrationState>
    requires imported <= p.targets.Keys
  {
    map l | l in imported :: if o.inferState then c.inferredState(p.targets[l]) else LegacyCpp
  }

  /** What the import decides about the selected targets. */
  ghost predicate Decided(
    p: Project, aliases: Aliases, o: Options, c: Classifier, hash: string -> Hash32, selected: set<string>, plan: Plan)
    requires selected <= p.targets.Keys
  {
    && plan.Valid() && plan.inferState == o.inferState
    && plan.imported == Imported(p, o, c, selected)
    && plan.states == StartStates(p, o, c, plan.imported)
    && IdsFor(p, hash, plan.imported, plan.ids)
    && IsFlattening(SelectedGraph(p, aliases, selected), plan.imported, plan.flat)
  }

  function GateList(gate: Option<GateOptions>): seq<string> {
    match gate
    case Some(g) => [g.id]
    case None => []
  }

  method MakePlan(
    p: Project, aliases: Aliases, o: Options, gate: Option<GateOptions>, c: Classifier, hash: string -> Hash32,
    selected: set<string>)
    returns (plan: Plan)
    requires selected <= p.targets.Keys && AllResolve(p, aliases, selected)
    ensures Decided(p, aliases, o, c, hash, selected, plan)
    ensures plan.gates == GateList(gate)
  {
    hide IsFlattening, AllResolve, IdsFor, Injective, Decided, SelectedGraph, NoDuplicates;
    var imported := Imported(p, o, c, selected);
    var ids := AssignModuleIds(p, imported, hash);
    var flat := FlattenDependencies(p, aliases, selected, imported);
    plan := Plan(imported, ids, StartStates(p, o, c, imported), GateList(gate), o.inferState, flat);
    PlanDecided(p, aliases, o, gate, c, hash, selected, ids, flat);
  }

  lemma PlanDecided(
    p: Project, aliases: Aliases, o: Options, gate: Option<GateOptions>, c: Classifier, hash: string -> Hash32,
    selected: set<string>, ids: map<string, string>, flat: Graph)
    requires selected <= p.targets.Keys
    requires var imported := Imported(p, o, c, selected);
             && ids.Keys == imported && Injective(ids) && IdsFor(p, hash, imported, ids)
             && IsFlattening(SelectedGraph(p, aliases, selected), imported, flat)
    requires forall a :: a in flat ==> NoDuplicates(flat[a])
    ensures var imported := Imported(p, o, c, selected);
            Decided(p, aliases, o, c, hash, selected,
                    Plan(imported, ids, StartStates(p, o, c, imported), GateList(gate), o.inferState, flat))
  {
    hide IdsFor, Injective, SelectedGraph, NoDuplicates;
    FlatEdges(SelectedGraph(p, aliases, selected), Imported(p, o, c, selected), flat);
  }

  /** A target starts beyond C++ and no gate is given. */
  ghost predicate LacksGate(o: Options, gate: Option<GateOptions>, plan: Plan) {
    o.inferState && gate.None? && exists l :: l in plan.states && plan.states[l] != LegacyCpp
  }

  /** The manifest of a plan: its modules, sorted, and the one gate with its target if a gate is given. */
  ghost predicate ManifestFor(name: string, baseline: string, gate: Option<GateOptions>, plan: Plan, m: Manifest) {
    && m.project == name && m.baseline == baseline
    && m.targets == (if gate.Some? then [Target(gate.value.targetId, true)] else [])
    && m.gates ==
       (if gate.Some? then [Gate(gate.value.id, Shell(gate.value.command), [], [gate.value.targetId])] else [])
    && ModulesFor(plan, m.modules) && SortedBy(m.modules, ModuleLeq)
  }

  lemma PlannedManifest(
    o: Options, name: string, baseline: string, gate: Option<GateOptions>, plan: Plan, m: Manifest)
    requires plan.Valid() && plan.gates == GateList(gate) && plan.inferState == o.inferState
    requires forall l :: l in plan.states && !o.inferState ==> plan.states[l] == LegacyCpp
    requires !LacksGate(o, gate, plan) && ManifestFor(name, baseline, gate, plan, m)
    ensures WellFormed(m) <==> Acyclic(plan.flat)
  {
    hide ModulesFor, WellFormed, Acyclic;
    PlanWellFormed(plan, m);
  }

  /** Import the project. It fails on a label exactly when the selection does; otherwise it lacks a gate, or its
      manifest is that of the decided plan and validates exactly when the flattened graph is acyclic. */
  method ImportProject(
    p: Project, o: Options, gate: Option<GateOptions>, c: Classifier, hash: string -> Hash32, name: string,
    baseline: string)
    returns (r: Result<Manifest, ImportError>, aliases: Aliases, plan: Plan)
    ensures AliasesOf(p, p.targets.Keys, aliases)
    ensures !Selectable(p, aliases, o) <==> r.Err? && IsFault(p, aliases, o, r.error)
    ensures Selectable(p, aliases, o) ==>
              Decided(p, aliases, o, c, hash, Selected(p, aliases, o), plan) && plan.gates == GateList(gate)
    ensures r == Err(MissingGateForInferredState) <==> Selectable(p, aliases, o) && LacksGate(o, gate, plan)
    ensures r == Err(ManifestInvalid) <==>
              Selectable(p, aliases, o) && !LacksGate(o, gate, plan) && !Acyclic(plan.flat)
    ensures r.Ok? ==> ManifestFor(name, baseline, gate, plan, r.value) && WellFormed(r.value) && Acyclic(plan.flat)
  {
    hide Selectable, Selected, AliasesOf, Decided, ManifestFor, ModulesFor, WellFormed, Acyclic;
    var known := BuildAliases(p);
    aliases := known;
    plan := Plan({}, map[], map[], [], false, map[]);
    var selection := SelectTargets(p, known, o);
    if selection.Err? {
      return Err(selection.error), aliases, plan;
    }
    SelectableResolves(p, known, o);
    var decided := MakePlan(p, known, o, gate, c, hash, selection.value);
    plan := decided;
    if o.inferState && gate.None? && (exists l :: l in decided.states && decided.states[l] != LegacyCpp) {
      return Err(MissingGateForInferredState), aliases, plan;
    }
    DecidedPlan(p, known, o, c, hash, selection.value, decided);
    var modules := BuildModules(decided);
    var targets := if gate.Some? then [Target(gate.value.targetId, true)] else [];
    var gates :=
      if gate.Some? then [Gate(gate.value.id, Shell(gate.value.command), [], [gate.value.targetId])] else [];
    var m := Manifest(name, baseline, targets, gates, modules);
    ManifestMade(name, baseline, gate, decided, m);
    PlannedManifest(o, name, baseline, gate, decided, m);
    var errors := ValidateReferences(m);
    if errors != [] {
      return Err(ManifestInvalid), aliases, plan;
    }
    return Ok(m), aliases, plan;
  }

  lemma SelectableResolves(p: Project, aliases: Aliases, o: Options)
    requires Selectable(p, aliases, o)
    ensures AllResolve(p, aliases, Selected(p, aliases, o))
  {
  }

  lemma DecidedPlan(
    p: Project, aliases: Aliases, o: Options, c: Classifier, hash: string -> Hash32, selected: set<string>, plan: Plan)
    requires selected <= p.targets.Keys && Decided(p, aliases, o, c, hash, selected, plan)
    ensures plan.Valid() && plan.inferState == o.inferState
    ensures forall l :: l in plan.states && !o.inferState ==> plan.states[l] == LegacyCpp
  {
  }

  lemma ManifestMade(name: string, baseline: string, gate: Option<GateOptions>, plan: Plan, m: Manifest)
    requires m.project == name && m.baseline == baseline
    requires m.targets == if gate.Some? then [Target(gate.value.targetId, true)] else []
    requires m.gates ==
             if gate.Some? then [Gate(gate.value.id, Shell(gate.value.command), [], [gate.value.targetId])] else []
    requires ModulesFor(plan, m.modules) && SortedBy(m.modules, ModuleLeq)
    ensures ManifestFor(name, baseline, gate, plan, m)
  {
  }

  /** Reachability between imported targets is the same in the flattened graph as in the selected GN graph, and
      cycles survive only between distinct imported targets. */
  lemma ImportPreservesReachability(
    p: Project, aliases: Aliases, o: Options, c: Classifier, hash: string -> Hash32, selected: set<string>, plan: Plan,
    a: string, b: string)
    requires selected <= p.targets.Keys && Decided(p, aliases, o, c, hash, selected, plan)
    requires a in plan.imported && b in plan.imported && a != b
    ensures Reaches(plan.flat, a, b) <==> Reaches(SelectedGraph(p, aliases, selected), a, b)
    ensures Acyclic(SelectedGraph(p, aliases, selected)) ==> Acyclic(plan.flat)
  {
    var g := SelectedGraph(p, aliases, selected);
    FlatteningPreservesReachability(g, plan.imported, plan.flat, a, b);
    FlatteningCycles(g, plan.imported, plan.flat);
    AcyclicMeansIrreflexive(g);
    if x, y :| x in plan.imported && y in plan.imported && x != y && Reaches(g, x, y) && Reaches(g, y, x) {
      ReachesTransitive(g, x, y, x);
    }
  }
}
