/** Whole migrations: runs of permitted steps, what they keep and where they end. */
module Migration {
  import opened Wrappers
  import Ordering
  import opened ManifestModel
  import opened Blockers
  import opened Planner
  import opened Validation

  ghost predicate Enabled(m: Manifest, id: string) {
    match m.FindModule(id)
    case None => false
    case Some(mod) => mod.state.Next().Some? && Permitted(m, mod, mod.state.Next().value)
  }

  function SetState(m: Manifest, i: nat, state: MigrationState): Manifest
    requires i < |m.modules|
  {
    m.(modules := m.modules[i := m.modules[i].(state := state)])
  }

  /** Record the step of the module: its state becomes the next one. */
  ghost function Advance(m: Manifest, id: string): Manifest
    requires Enabled(m, id)
  {
    var i := m.ModuleIndex(id);
    SetState(m, i, m.modules[i].state.Next().value)
  }

  ghost predicate Run(m: Manifest, ids: seq<string>, end: Manifest)
    decreases |ids|
  {
    if ids == [] then m == end
    else Enabled(m, ids[0]) && Run(Advance(m, ids[0]), ids[1..], end)
  }

  ghost predicate Terminal(m: Manifest) {
    forall id :: !Enabled(m, id)
  }

  // ----- a step changes one state and nothing else -----

  /** Equal but for the states of the modules. */
  ghost predicate SameShape(m: Manifest, n: Manifest) {
    && m.(modules := []) == n.(modules := [])
    && |m.modules| == |n.modules|
    && forall i :: 0 <= i < |m.modules| ==> n.modules[i] == m.modules[i].(state := n.modules[i].state)
  }

  lemma SameShapeLookup(m: Manifest, n: Manifest, id: string)
    requires SameShape(m, n)
    ensures m.ModuleIndex(id) == n.ModuleIndex(id)
  {
    assert forall k :: 0 <= k < |m.modules| ==> n.modules[k].id == m.modules[k].id;
  }

  lemma SameShapeGates(m: Manifest, n: Manifest, i: nat)
    requires SameShape(m, n) && i < |m.modules|
    ensures GatesReady(m, m.modules[i]) <==> GatesReady(n, n.modules[i])
  {
    assert m.gates == n.gates && m.targets == n.targets;
    assert m.modules[i].gates == n.modules[i].gates;
    assert forall g :: m.FindGate(g) == n.FindGate(g);
    assert forall t :: Covers(m, m.modules[i].gates, t) <==> Covers(n, n.modules[i].gates, t);
  }

  /** States only move forward. */
  ghost predicate Later(m: Manifest, n: Manifest) {
    SameShape(m, n) && forall i :: 0 <= i < |m.modules| ==> m.modules[i].state.Rank() <= n.modules[i].state.Rank()
  }

  lemma StepIsLater(m: Manifest, id: string)
    requires Enabled(m, id)
    ensures Later(m, Advance(m, id))
  {
  }

  lemma {:induction false} RunIsLater(m: Manifest, ids: seq<string>, end: Manifest)
    requires Run(m, ids, end)
    ensures Later(m, end)
    decreases |ids|
  {
    if ids != [] {
      StepIsLater(m, ids[0]);
      RunIsLater(Advance(m, ids[0]), ids[1..], end);
    }
  }

  // ----- every run is short -----

  ghost function Remaining(modules: seq<Module>): nat {
    if modules == [] then 0 else (2 - modules[0].state.Rank()) + Remaining(modules[1..])
  }

  lemma {:induction false} RemainingUpdate(modules: seq<Module>, i: nat, x: Module)
    requires i < |modules|
    ensures Remaining(modules[i := x]) == Remaining(modules) + modules[i].state.Rank() - x.state.Rank()
  {
    if i > 0 {
      RemainingUpdate(modules[1..], i - 1, x);
      assert modules[i := x][1..] == modules[1..][i - 1 := x];
    }
  }

  lemma {:induction false} RemainingBound(modules: seq<Module>)
    ensures Remaining(modules) <= 2 * |modules|
  {
    if modules != [] {
      RemainingBound(modules[1..]);
    }
  }

  /** A run spends one unit of what remains per step, so it has at most two steps per module. */
  lemma {:induction false} RunLength(m: Manifest, ids: seq<string>, end: Manifest)
    requires Run(m, ids, end)
    ensures |ids| == Remaining(m.modules) - Remaining(end.modules)
    ensures |ids| <= 2 * |m.modules|
    decreases |ids|
  {
    if ids != [] {
      var i := m.ModuleIndex(ids[0]);
      var next := Advance(m, ids[0]);
      RemainingUpdate(m.modules, i, next.modules[i]);
      RunLength(next, ids[1..], end);
    }
    RemainingBound(m.modules);
  }

  lemma {:induction false} RunExtend(m: Manifest, ids: seq<string>, mid: Manifest, id: string)
    requires Run(m, ids, mid) && Enabled(mid, id)
    ensures Run(m, ids + [id], Advance(mid, id))
    decreases |ids|
  {
    if ids == [] {
      assert Run(Advance(m, id), [], Advance(m, id));
      assert ([] + [id])[1..] == [];
    } else {
      RunExtend(Advance(m, ids[0]), ids[1..], mid, id);
      assert (ids + [id])[1..] == ids[1..] + [id];
    }
  }

  /** Some run reaches a manifest in which no step is open. */
  lemma {:induction false} TerminalReachable(m: Manifest) returns (ids: seq<string>, end: Manifest)
    ensures Run(m, ids, end) && Terminal(end)
    decreases Remaining(m.modules)
  {
    if id :| Enabled(m, id) {
      var i := m.ModuleIndex(id);
      RemainingUpdate(m.modules, i, Advance(m, id).modules[i]);
      ids, end := TerminalReachable(Advance(m, id));
      ids := [id] + ids;
    } else {
      ids, end := [], m;
    }
  }

  // ----- safety of every run -----

  /** The module the k-th dependency of module i names, if declared. */
  function EdgeTarget(m: Manifest, i: nat, k: nat): Option<Module>
    requires i < |m.modules| && k < |m.modules[i].dependencies|
  {
    m.FindModule(m.modules[i].dependencies[k].target)
  }

  ghost predicate TouchesRust(m: Manifest, i: nat, k: nat)
    requires i < |m.modules| && k < |m.modules[i].dependencies|
  {
    m.modules[i].state == RustOwned || (EdgeTarget(m, i, k).Some? && EdgeTarget(m, i, k).value.state == RustOwned)
  }

  ghost predicate Audited(d: Dependency) {
    d.boundary.IsAuditedCrossLanguage() && Resolved(d.reviews)
  }

  /** Every edge at a Rust-owned module has an audited boundary and no open review. */
  ghost predicate EdgesSafe(m: Manifest) {
    forall i, k :: 0 <= i < |m.modules| && 0 <= k < |m.modules[i].dependencies| && TouchesRust(m, i, k) ==>
                   Audited(m.modules[i].dependencies[k])
  }

  ghost predicate DependenciesDeclared(m: Manifest) {
    forall i, k :: 0 <= i < |m.modules| && 0 <= k < |m.modules[i].dependencies| ==> EdgeTarget(m, i, k).Some?
  }

  ghost predicate MigratedModulesDeclareGates(m: Manifest) {
    forall i :: 0 <= i < |m.modules| && m.modules[i].state != LegacyCpp ==> m.modules[i].gates != []
  }

  lemma StepKeepsEdgesSafe(m: Manifest, id: string)
    requires Enabled(m, id) && EdgesSafe(m) && DependenciesDeclared(m)
    ensures EdgesSafe(Advance(m, id))
  {
    var n := Advance(m, id);
    var j := m.ModuleIndex(id);
    var mod := m.modules[j];
    forall i, k | 0 <= i < |n.modules| && 0 <= k < |n.modules[i].dependencies| && TouchesRust(n, i, k)
      ensures Audited(n.modules[i].dependencies[k])
    {
      var d := m.modules[i].dependencies[k];
      assert n.modules[i].dependencies[k] == d;
      SameShapeLookup(m, n, d.target);
      assert EdgeTarget(m, i, k).Some?;
      if !TouchesRust(m, i, k) {
        assert mod.state == Bridged && RustReady(m, mod);
        if i == j {
          assert Outgoing(m, mod, d, EdgeTarget(m, i, k).value);
        } else {
          assert m.ModuleIndex(d.target) == j;
          assert Incoming(m, mod, d, m.modules[i]);
        }
      }
    }
  }

  /** Safety of whole migrations: declared dependencies, audited Rust edges and declared gates all survive. */
  lemma {:induction false} RunKeepsSafe(m: Manifest, ids: seq<string>, end: Manifest)
    requires Run(m, ids, end) && EdgesSafe(m) && DependenciesDeclared(m) && MigratedModulesDeclareGates(m)
    ensures EdgesSafe(end) && DependenciesDeclared(end) && MigratedModulesDeclareGates(end) && Later(m, end)
    decreases |ids|
  {
    if ids != [] {
      var n := Advance(m, ids[0]);
      StepKeepsEdgesSafe(m, ids[0]);
      forall i, k | 0 <= i < |n.modules| && 0 <= k < |n.modules[i].dependencies| ensures EdgeTarget(n, i, k).Some? {
        SameShapeLookup(m, n, m.modules[i].dependencies[k].target);
        assert EdgeTarget(m, i, k).Some?;
      }
      RunKeepsSafe(n, ids[1..], end);
    }
    RunIsLater(m, ids, end);
  }

  lemma {:induction false} SameModuleGraph(a: seq<Module>, b: seq<Module>, known: seq<string>)
    requires |a| == |b|
    requires forall i :: 0 <= i < |a| ==> a[i].id == b[i].id && a[i].dependencies == b[i].dependencies
    ensures ModuleGraph(a, known) == ModuleGraph(b, known)
  {
    if a != [] {
      SameModuleGraph(a[..|a| - 1], b[..|b| - 1], known);
    }
  }

  /** In a manifest that validates every lookup of a dependency succeeds. */
  lemma WellFormedDeclares(m: Manifest)
    requires Ordering.NoDuplicates(ModuleIds(m)) && forall i :: 0 <= i < |m.modules| ==>
             ModuleWellFormed(m, m.modules[i])
    ensures UniqueModuleIds(m) && DependenciesDeclared(m)
  {
    assert forall i :: 0 <= i < |m.modules| ==> m.modules[i].id == ModuleIds(m)[i];
    forall i, k | 0 <= i < |m.modules| && 0 <= k < |m.modules[i].dependencies| ensures EdgeTarget(m, i, k).Some? {
      var d := m.modules[i].dependencies[k];
      assert ModuleWellFormed(m, m.modules[i]);
      assert d.target in ModuleIds(m);
      var j :| 0 <= j < |m.modules| && ModuleIds(m)[j] == d.target;
      assert m.modules[j].id == d.target;
    }
  }

  /** A manifest that validates still validates after any run, and every lookup of a dependency succeeds. */
  lemma RunKeepsWellFormed(m: Manifest, ids: seq<string>, end: Manifest)
    requires WellFormed(m) && Run(m, ids, end)
    ensures WellFormed(end)
    ensures UniqueModuleIds(end) && DependenciesDeclared(end)
  {
    hide ModuleGraph, Run;
    RunIsLater(m, ids, end);
    assert MigratedModulesDeclareGates(m) by {
      assert forall i :: 0 <= i < |m.modules| ==> ModuleWellFormed(m, m.modules[i]);
    }
    RunKeepsGateRule(m, ids, end);
    assert ModuleIds(m) == ModuleIds(end);
    assert TargetIds(m) == TargetIds(end) && GateIds(m) == GateIds(end);
    SameModuleGraph(m.modules, end.modules, ModuleIds(m));
    forall i | 0 <= i < |end.modules| ensures ModuleWellFormed(end, end.modules[i]) {
      assert ModuleWellFormed(m, m.modules[i]);
    }
    WellFormedDeclares(end);
  }

  lemma {:induction false} RunKeepsGateRule(m: Manifest, ids: seq<string>, end: Manifest)
    requires Run(m, ids, end) && MigratedModulesDeclareGates(m)
    ensures MigratedModulesDeclareGates(end)
    decreases |ids|
  {
    if ids != [] {
      RunKeepsGateRule(Advance(m, ids[0]), ids[1..], end);
    }
  }

  // ----- steps on different modules commute -----

  lemma RustReadyMonotone(m: Manifest, n: Manifest, i: nat)
    requires Later(m, n) && i < |m.modules| && RustReady(m, m.modules[i])
    ensures RustReady(n, n.modules[i])
  {
    var mod, mod' := m.modules[i], n.modules[i];
    forall d, t | Outgoing(n, mod', d, t) ensures EdgeReady(d, t.state) {
      SameShapeLookup(m, n, d.target);
      var j := m.ModuleIndex(d.target);
      assert Outgoing(m, mod, d, m.modules[j]);
    }
    forall d, s | Incoming(n, mod', d, s) ensures EdgeReady(d, s.state) {
      var j :| 0 <= j < |n.modules| && n.modules[j] == s;
      assert Incoming(m, mod, d, m.modules[j]);
    }
  }

  /** No step closes a step of another module. */
  lemma StepKeepsOthersEnabled(m: Manifest, a: string, b: string)
    requires Enabled(m, a) && Enabled(m, b) && a != b
    ensures Enabled(Advance(m, a), b)
  {
    var n := Advance(m, a);
    var j := m.ModuleIndex(b);
    StepIsLater(m, a);
    SameShapeLookup(m, n, b);
    SameShapeGates(m, n, j);
    if m.modules[j].state == Bridged {
      RustReadyMonotone(m, n, j);
    }
  }

  /** The diamond: two open steps may be taken in either order with the same result. */
  lemma StepsCommute(m: Manifest, a: string, b: string)
    requires Enabled(m, a) && Enabled(m, b) && a != b
    ensures Enabled(Advance(m, a), b) && Enabled(Advance(m, b), a)
    ensures Advance(Advance(m, a), b) == Advance(Advance(m, b), a)
  {
    StepKeepsOthersEnabled(m, a, b);
    StepKeepsOthersEnabled(m, b, a);
    SameShapeLookup(m, Advance(m, a), b);
    SameShapeLookup(m, Advance(m, b), a);
    assert Advance(Advance(m, a), b).modules == Advance(Advance(m, b), a).modules;
  }

  // ----- the closed form of a finished migration -----

  /** Judged on the first manifest alone: every edge is reviewed, and audited unless its other end already is in
      Rust. */
  ghost predicate Migratable(m: Manifest, mod: Module) {
    GatesReady(m, mod) && RustReady(m, mod)
  }

  /** Where a module ends, as a function of the first manifest. */
  ghost function FinalState(m: Manifest, mod: Module): MigrationState {
    if mod.state == RustOwned || Migratable(m, mod) then RustOwned
    else if GatesReady(m, mod) then Bridged
    else mod.state
  }

  /** What every manifest reached from m satisfies. */
  ghost predicate Explained(m: Manifest, n: Manifest) {
    && Later(m, n)
    && forall i :: 0 <= i < |m.modules| && n.modules[i].state != m.modules[i].state ==>
         GatesReady(m, m.modules[i]) && (n.modules[i].state == RustOwned ==> Migratable(m, m.modules[i]))
  }

  lemma NewRustIsMigratable(m: Manifest, n: Manifest, i: nat)
    requires UniqueModuleIds(m) && Explained(m, n) && i < |m.modules|
    requires m.modules[i].state != RustOwned && n.modules[i].state == Bridged
    requires Permitted(n, n.modules[i], RustOwned)
    ensures Migratable(m, m.modules[i])
  {
    var mod, mod' := m.modules[i], n.modules[i];
    SameShapeGates(m, n, i);
    forall d, t | Outgoing(m, mod, d, t) ensures EdgeReady(d, t.state) {
      SameShapeLookup(m, n, d.target);
      var j := m.ModuleIndex(d.target);
      assert Outgoing(n, mod', d, n.modules[j]);
      if n.modules[j].state == RustOwned && t.state != RustOwned {
        assert Incoming(m, m.modules[j], d, mod);
      }
    }
    forall d, s | Incoming(m, mod, d, s) ensures EdgeReady(d, s.state) {
      var j :| 0 <= j < |m.modules| && m.modules[j] == s;
      assert Incoming(n, mod', d, n.modules[j]);
      ModuleIndexUnique(m, i);
      if n.modules[j].state == RustOwned && s.state != RustOwned {
        assert Outgoing(m, s, d, mod);
      }
    }
  }

  lemma StepKeepsExplained(m: Manifest, n: Manifest, id: string)
    requires UniqueModuleIds(m) && Explained(m, n) && Enabled(n, id)
    ensures Explained(m, Advance(n, id))
  {
    var next := Advance(n, id);
    var i := n.ModuleIndex(id);
    StepIsLater(n, id);
    SameShapeGates(m, n, i);
    if n.modules[i].state == Bridged {
      if m.modules[i].state != RustOwned {
        NewRustIsMigratable(m, n, i);
      }
    }
  }

  lemma {:induction false} RunIsExplained(m: Manifest, n: Manifest, ids: seq<string>, end: Manifest)
    requires UniqueModuleIds(m) && Explained(m, n) && Run(n, ids, end)
    ensures Explained(m, end)
    decreases |ids|
  {
    if ids != [] {
      StepKeepsExplained(m, n, ids[0]);
      RunIsExplained(m, Advance(n, ids[0]), ids[1..], end);
    }
  }

  /** A finished run leaves every module in the state the first manifest determines. */
  lemma FinishedRun(m: Manifest, ids: seq<string>, end: Manifest)
    requires UniqueModuleIds(m) && Run(m, ids, end) && Terminal(end)
    ensures SameShape(m, end)
    ensures forall i :: 0 <= i < |m.modules| ==> end.modules[i].state == FinalState(m, m.modules[i])
  {
    hide Run, GatesReady, RustReady, UniqueModuleIds;
    RunIsExplained(m, m, ids, end);
    forall i | 0 <= i < |m.modules| ensures end.modules[i].state == FinalState(m, m.modules[i]) {
      var id := m.modules[i].id;
      ModuleIndexUnique(m, i);
      SameShapeLookup(m, end, id);
      SameShapeGates(m, end, i);
      assert !Enabled(end, id);
      if Migratable(m, m.modules[i]) {
        RustReadyMonotone(m, end, i);
      }
    }
  }

  lemma SameShapeSameStates(m: Manifest, a: Manifest, b: Manifest)
    requires SameShape(m, a) && SameShape(m, b)
    requires forall i :: 0 <= i < |m.modules| ==> a.modules[i].state == b.modules[i].state
    ensures a == b
  {
    forall i | 0 <= i < |m.modules| ensures a.modules[i] == b.modules[i] {
      assert a.modules[i] == m.modules[i].(state := a.modules[i].state);
    }
    assert a.modules == b.modules;
    assert a == a.(modules := []).(modules := a.modules);
  }

  /** All finished runs from one manifest end in the same manifest. */
  lemma Confluence(m: Manifest, ids: seq<string>, end: Manifest, ids': seq<string>, end': Manifest)
    requires UniqueModuleIds(m)
    requires Run(m, ids, end) && Terminal(end) && Run(m, ids', end') && Terminal(end')
    ensures end == end' && |ids| == |ids'|
  {
    FinishedRun(m, ids, end);
    FinishedRun(m, ids', end');
    SameShapeSameStates(m, end, end');
    RunLength(m, ids, end);
    RunLength(m, ids', end');
  }

  /** Both ends of every edge at the module are audited and reviewed. */
  ghost predicate IncidentEdgesAudited(m: Manifest, mod: Module) {
    && (forall d, t :: Outgoing(m, mod, d, t) ==> Audited(d))
    && (forall d, s :: Incoming(m, mod, d, s) ==> Audited(d))
  }

  /** Starting with no Rust-owned module: exactly the gated, reviewed modules with audited edges end in Rust. */
  lemma {:induction false} MigratedFromScratch(m: Manifest, ids: seq<string>, end: Manifest, i: nat)
    requires UniqueModuleIds(m) && Run(m, ids, end) && Terminal(end) && i < |m.modules|
    requires forall j :: 0 <= j < |m.modules| ==> m.modules[j].state != RustOwned
    ensures SameShape(m, end)
    ensures end.modules[i].state == RustOwned <==>
            GatesReady(m, m.modules[i]) && Resolved(m.modules[i].reviews) && IncidentEdgesAudited(m, m.modules[i])
  {
    FinishedRun(m, ids, end);
    var mod := m.modules[i];
    assert forall d, t :: Outgoing(m, mod, d, t) ==> t in m.modules;
    assert RustReady(m, mod) <==> Resolved(mod.reviews) && IncidentEdgesAudited(m, mod);
  }

  /** An allowed step to Rust of a module whose edges are all audited counts every one of them as crossing. */
  lemma AuditedStepCountsAll(m: Manifest, id: string, a: Assessment)
    requires IsAssessment(m, id, RustOwned, a) && IncidentEdgesAudited(m, m.FindModule(id).value)
    ensures var mod := m.FindModule(id).value;
            a.crossLanguageEdges == |DeclaredOut(m, mod)| + DeclaredIn(m, mod, |m.modules|)
  {
    AuditedEdgesCross(m, m.FindModule(id).value);
  }
}
