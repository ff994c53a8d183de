/** What an imported manifest says about the targets it was made from. */
module ImportMeaning {
  import opened Wrappers
  import opened Ordering
  import opened GnProject
  import opened GnSelection
  import opened ManifestModel
  import opened Graphs
  import opened Flattening
  import opened LabelIds
  import opened IdAssignment
  import opened GnImport
  import opened Validation

  /** The state a target starts in. */
  ghost function StartState(p: Project, o: Options, c: Classifier, l: string): MigrationState
    requires l in p.targets
  {
    if o.inferState then c.inferredState(p.targets[l]) else LegacyCpp
  }

  /** Unclassified, unless both ends are C++ or nothing is inferred, or both ends are Rust. */
  ghost predicate BoundarySays(inferState: bool, source: MigrationState, dependency: MigrationState, b: Boundary) {
    && b in {CppInternal, Rust, Unclassified}
    && (b == Rust <==> inferState && source == RustOwned && dependency == RustOwned)
    && (b == Unclassified <==>
        inferState && !(source == dependency == LegacyCpp) && !(source == dependency == RustOwned))
  }

  /** The dependency on one target: its id, the boundary between the two states, no evidence and no reviews. */
  ghost predicate DependencySays(
    p: Project, o: Options, c: Classifier, plan: Plan, a: string, b: string, d: Dependency)
    requires a in p.targets && b in p.targets && b in plan.ids
  {
    && d.target == plan.ids[b] && d.evidence == [] && d.reviews == []
    && BoundarySays(o.inferState, StartState(p, o, c, a), StartState(p, o, c, b), d.boundary)
  }

  /** Strictly in the order of the ids. */
  ghost predicate InIdOrder(dependencies: seq<Dependency>) {
    forall i, j :: 0 <= i < j < |dependencies| ==>
      dependencies[i].target != dependencies[j].target && StringLeq(dependencies[i].target, dependencies[j].target)
  }

  /** The module of a target depends on exactly the other imported targets that are reached through selected targets
      that are not imported, in the order of their ids. */
  ghost predicate ModuleSays(
    p: Project, aliases: Aliases, o: Options, gate: Option<GateOptions>, c: Classifier, selected: set<string>,
    plan: Plan, a: string, mod: Module)
  {
    && selected <= p.targets.Keys && plan.imported <= selected && plan.ids.Keys == plan.imported && a in plan.imported
    && mod.id == plan.ids[a] && mod.state == StartState(p, o, c, a) && mod.reviews == []
    && mod.gates == (if gate.Some? then [gate.value.id] else [])
    && InIdOrder(mod.dependencies)
    && (forall d :: d in mod.dependencies ==>
          exists b :: b in plan.imported && b != a && DependencySays(p, o, c, plan, a, b, d) &&
                      ThroughMeta(SelectedGraph(p, aliases, selected), plan.imported, a, b))
    && (forall b :: b in plan.imported && b != a &&
                    ThroughMeta(SelectedGraph(p, aliases, selected), plan.imported, a, b) ==>
          exists d :: d in mod.dependencies && DependencySays(p, o, c, plan, a, b, d))
  }

  lemma BoundaryMeans(source: MigrationState, dependency: MigrationState, inferState: bool, b: Boundary)
    ensures BoundarySays(inferState, source, dependency, b) <==> b == InferBoundary(source, dependency, inferState)
  {
  }

  lemma DependencyMeans(
    p: Project, aliases: Aliases, o: Options, c: Classifier, hash: string -> Hash32, selected: set<string>, plan: Plan,
    a: string, b: string, d: Dependency)
    requires selected <= p.targets.Keys && Decided(p, aliases, o, c, hash, selected, plan)
    requires a in plan.imported && b in plan.imported
    ensures DependencyFor(plan, a, b, d) <==> DependencySays(p, o, c, plan, a, b, d)
  {
    hide IsFlattening, IdsFor;
    BoundaryMeans(plan.states[a], plan.states[b], o.inferState, d.boundary);
    hide InferBoundary, BoundarySays;
  }

  lemma DependenciesMean(
    p: Project, aliases: Aliases, o: Options, c: Classifier, hash: string -> Hash32, selected: set<string>, plan: Plan,
    a: string, mod: Module)
    requires selected <= p.targets.Keys && Decided(p, aliases, o, c, hash, selected, plan)
    requires a in plan.imported && ModuleFor(plan, a, mod)
    ensures forall d :: d in mod.dependencies ==>
              exists b :: b in plan.imported && b != a && DependencySays(p, o, c, plan, a, b, d) &&
                          ThroughMeta(SelectedGraph(p, aliases, selected), plan.imported, a, b)
    ensures forall b :: b in plan.imported && b != a &&
                        ThroughMeta(SelectedGraph(p, aliases, selected), plan.imported, a, b) ==>
              exists d :: d in mod.dependencies && DependencySays(p, o, c, plan, a, b, d)
  {
    hide ThroughMeta, SelectedGraph, Edge, IdsFor, DependencySays, DependencyFor;
    forall d | d in mod.dependencies
      ensures exists b :: b in plan.imported && b != a && DependencySays(p, o, c, plan, a, b, d) &&
                          ThroughMeta(SelectedGraph(p, aliases, selected), plan.imported, a, b)
    {
      var b :| Edge(plan.flat, a, b) && DependencyFor(plan, a, b, d);
      DependencyMeans(p, aliases, o, c, hash, selected, plan, a, b, d);
    }
    forall b | b in plan.imported && b != a &&
               ThroughMeta(SelectedGraph(p, aliases, selected), plan.imported, a, b)
      ensures exists d :: d in mod.dependencies && DependencySays(p, o, c, plan, a, b, d)
    {
      assert Edge(plan.flat, a, b);
      var d := DependencyOn(plan, a, b);
      DependencyMeans(p, aliases, o, c, hash, selected, plan, a, b, d);
    }
  }

  lemma DependencyOn(plan: Plan, a: string, b: string) returns (d: Dependency)
    requires plan.Valid() && a in plan.imported && b in plan.imported
    ensures DependencyFor(plan, a, b, d)
  {
    d := Dependency(plan.ids[b], InferBoundary(plan.states[a], plan.states[b], plan.inferState), [], []);
  }

  lemma ModuleParts(plan: Plan, a: string, mod: Module)
    requires a in plan.imported && ModuleFor(plan, a, mod)
    ensures a in plan.ids && a in plan.states && mod.id == plan.ids[a] && mod.state == plan.states[a]
    ensures mod.gates == plan.gates && mod.reviews == [] && InIdOrder(mod.dependencies)
  {
    hide Edge, DependencyFor;
    forall i, j | 0 <= i < j < |mod.dependencies|
      ensures mod.dependencies[i].target != mod.dependencies[j].target
      ensures StringLeq(mod.dependencies[i].target, mod.dependencies[j].target)
    {
      assert DependencyLeq(mod.dependencies[i], mod.dependencies[j]);
      assert DependencyIds(mod.dependencies)[i] != DependencyIds(mod.dependencies)[j];
    }
  }

  lemma StatesMean(
    p: Project, aliases: Aliases, o: Options, c: Classifier, hash: string -> Hash32, selected: set<string>, plan: Plan)
    requires selected <= p.targets.Keys && Decided(p, aliases, o, c, hash, selected, plan)
    ensures plan.imported <= selected && plan.ids.Keys == plan.imported == plan.states.Keys && plan.Valid()
    ensures forall l :: l in plan.imported <==> l in selected && (o.includeMetaTargets || c.isSource(p.targets[l]))
    ensures forall l :: l in plan.imported ==> plan.states[l] == StartState(p, o, c, l)
  {
    hide IsFlattening, IdsFor, Injective, Edge;
  }

  lemma ModuleMeans(
    p: Project, aliases: Aliases, o: Options, gate: Option<GateOptions>, c: Classifier, hash: string -> Hash32,
    selected: set<string>, plan: Plan, a: string, mod: Module)
    requires selected <= p.targets.Keys && Decided(p, aliases, o, c, hash, selected, plan)
    requires plan.gates == GateList(gate) && a in plan.imported && ModuleFor(plan, a, mod)
    ensures ModuleSays(p, aliases, o, gate, c, selected, plan, a, mod)
  {
    hide Decided, ModuleFor, ThroughMeta, SelectedGraph, DependencySays, InIdOrder, StartState;
    StatesMean(p, aliases, o, c, hash, selected, plan);
    ModuleParts(plan, a, mod);
    DependenciesMean(p, aliases, o, c, hash, selected, plan, a, mod);
  }

  /** The targets that are imported, their modules in the order of the ids, and the gate with its required target. */
  lemma ImportMeans(
    p: Project, aliases: Aliases, o: Options, gate: Option<GateOptions>, c: Classifier, hash: string -> Hash32,
    selected: set<string>, name: string, baseline: string, plan: Plan, m: Manifest)
    requires selected <= p.targets.Keys && Decided(p, aliases, o, c, hash, selected, plan)
    requires plan.gates == GateList(gate) && ManifestFor(name, baseline, gate, plan, m)
    ensures forall l :: l in plan.imported <==> l in selected && (o.includeMetaTargets || c.isSource(p.targets[l]))
    ensures forall a :: a in plan.imported ==>
              exists mod :: mod in m.modules && ModuleSays(p, aliases, o, gate, c, selected, plan, a, mod)
    ensures |m.modules| == |plan.imported|
    ensures forall i, j :: 0 <= i < j < |m.modules| ==>
              m.modules[i].id != m.modules[j].id && StringLeq(m.modules[i].id, m.modules[j].id)
    ensures gate.None? ==> m.gates == [] && m.targets == []
    ensures gate.Some? ==>
              && |m.targets| == 1 && m.targets[0].id == gate.value.targetId && m.targets[0].required
              && |m.gates| == 1 && m.gates[0].id == gate.value.id && m.gates[0].targets == [gate.value.targetId]
              && m.gates[0].execution == Shell(gate.value.command) && m.gates[0].inputs == []
  {
    hide Decided, ModuleSays, ModulesFor;
    StatesMean(p, aliases, o, c, hash, selected, plan);
    hide Plan.Valid;
    ModulesMean(p, aliases, o, gate, c, hash, selected, plan, m.modules);
    forall i, j | 0 <= i < j < |m.modules| ensures StringLeq(m.modules[i].id, m.modules[j].id) {
      assert ModuleLeq(m.modules[i], m.modules[j]);
    }
  }

  lemma ModulesMean(
    p: Project, aliases: Aliases, o: Options, gate: Option<GateOptions>, c: Classifier, hash: string -> Hash32,
    selected: set<string>, plan: Plan, modules: seq<Module>)
    requires selected <= p.targets.Keys && Decided(p, aliases, o, c, hash, selected, plan)
    requires plan.gates == GateList(gate) && ModulesFor(plan, modules)
    ensures plan.imported <= selected && plan.ids.Keys == plan.imported
    ensures forall a :: a in plan.imported ==>
              exists mod :: mod in modules && ModuleSays(p, aliases, o, gate, c, selected, plan, a, mod)
    ensures |modules| == |plan.imported| && forall i, j :: 0 <= i < j < |modules| ==> modules[i].id != modules[j].id
  {
    StatesMean(p, aliases, o, c, hash, selected, plan);
    ModulesCounted(plan, modules);
    hide Decided, ModuleSays, ModuleFor, Plan.Valid;
    forall a | a in plan.imported
      ensures exists mod :: mod in modules && ModuleSays(p, aliases, o, gate, c, selected, plan, a, mod)
    {
      var mod :| mod in Members(modules) && ModuleFor(plan, a, mod);
      ModuleMeans(p, aliases, o, gate, c, hash, selected, plan, a, mod);
    }
  }

  function Images(ids: map<string, string>, labels: set<string>): set<string>
    requires labels <= ids.Keys
  {
    set l | l in labels :: ids[l]
  }

  lemma {:induction false} ImagesSize(ids: map<string, string>, labels: set<string>)
    requires labels <= ids.Keys && Injective(ids)
    ensures |Images(ids, labels)| == |labels|
  {
    if l :| l in labels {
      ImagesSize(ids, labels - {l});
      assert Images(ids, labels) == Images(ids, labels - {l}) + {ids[l]};
      assert ids[l] !in Images(ids, labels - {l});
    }
  }

  function IdSet(modules: seq<Module>): set<string> {
    set mod | mod in modules :: mod.id
  }

  lemma {:induction false} IdSetSize(modules: seq<Module>)
    requires DistinctIds(modules)
    ensures |IdSet(modules)| == |modules|
  {
    if modules != [] {
      var front, last := modules[..|modules| - 1], modules[|modules| - 1];
      IdSetSize(front);
      assert modules == front + [last];
      assert IdSet(modules) == IdSet(front) + {last.id};
    }
  }

  /** There are as many modules as imported targets. */
  lemma ModulesCounted(plan: Plan, modules: seq<Module>)
    requires plan.Valid() && ModulesFor(plan, modules)
    ensures |modules| == |plan.imported|
  {
    ImagesSize(plan.ids, plan.imported);
    IdSetSize(modules);
    IdsListed(plan, modules);
  }

  lemma ModuleIdListed(plan: Plan, modules: seq<Module>, mod: Module)
    requires plan.imported <= plan.ids.Keys && MembersFor(plan, Members(modules)) && mod in modules
    ensures mod.id in Images(plan.ids, plan.imported)
  {
    hide ModuleFor;
    assert mod in Members(modules);
    var a :| a in plan.imported && ModuleFor(plan, a, mod);
    ModuleParts(plan, a, mod);
  }

  lemma LabelIdListed(plan: Plan, modules: seq<Module>, a: string)
    requires plan.imported <= plan.ids.Keys && MembersFor(plan, Members(modules)) && a in plan.imported
    ensures plan.ids[a] in IdSet(modules)
  {
    hide ModuleFor;
    var mod :| mod in Members(modules) && ModuleFor(plan, a, mod);
    ModuleParts(plan, a, mod);
  }

  lemma IdsListed(plan: Plan, modules: seq<Module>)
    requires plan.imported <= plan.ids.Keys && MembersFor(plan, Members(modules))
    ensures IdSet(modules) == Images(plan.ids, plan.imported)
  {
    hide MembersFor;
    forall mod | mod in modules ensures mod.id in Images(plan.ids, plan.imported) {
      ModuleIdListed(plan, modules, mod);
    }
    forall a | a in plan.imported ensures plan.ids[a] in IdSet(modules) {
      LabelIdListed(plan, modules, a);
    }
  }
}
