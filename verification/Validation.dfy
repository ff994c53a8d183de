/** The reference checks of manifest validation: ids, targets, gates, dependencies and cycles. */
module Validation {
  import opened Graphs
  import opened Ordering
  import opened ManifestModel
  import opened Listing
  import CycleSearch

  datatype IdKind = TargetId | GateId | ModuleId

  datatype ValidationError =
    | DuplicateId(kind: IdKind, id: string)
    | UnknownTarget(gate: string, target: string)
    | MissingCompatibilityGate(mod: string, state: MigrationState)
    | UnknownGate(mod: string, gate: string)
    | SelfDependency(mod: string)
    | UnknownDependency(mod: string, dependency: string)
    | DuplicateDependency(mod: string, dependency: string)
    | DependencyCycle(cycle: seq<string>)

  function TargetIds(m: Manifest): seq<string> {
    seq(|m.targets|, i requires 0 <= i < |m.targets| => m.targets[i].id)
  }

  function GateIds(m: Manifest): seq<string> {
    seq(|m.gates|, i requires 0 <= i < |m.gates| => m.gates[i].id)
  }

  function ModuleIds(m: Manifest): seq<string> {
    seq(|m.modules|, i requires 0 <= i < |m.modules| => m.modules[i].id)
  }

  function DependencyIds(dependencies: seq<Dependency>): seq<string> {
    seq(|dependencies|, i requires 0 <= i < |dependencies| => dependencies[i].target)
  }

  ghost predicate ModuleWellFormed(m: Manifest, mod: Module) {
    && (mod.state != LegacyCpp ==> mod.gates != [])
    && (forall g :: g in mod.gates ==> g in GateIds(m))
    && (forall d :: d in mod.dependencies ==> d.target != mod.id && d.target in ModuleIds(m))
    && NoDuplicates(DependencyIds(mod.dependencies))
  }

  ghost predicate GateWellFormed(m: Manifest, gate: Gate) {
    forall t :: t in gate.targets ==> t in TargetIds(m)
  }

  /** What a manifest that loads without a reference error guarantees. */
  ghost predicate WellFormed(m: Manifest) {
    && NoDuplicates(TargetIds(m)) && NoDuplicates(GateIds(m)) && NoDuplicates(ModuleIds(m))
    && (forall g :: g in m.gates ==> GateWellFormed(m, g))
    && (forall i :: 0 <= i < |m.modules| ==> ModuleWellFormed(m, m.modules[i]))
    && Acyclic(ModuleGraph(m.modules, ModuleIds(m)))
  }

  function KnownDependencies(dependencies: seq<Dependency>, known: seq<string>): (ids: seq<string>)
    ensures forall b :: b in ids <==> b in known && exists d :: d in dependencies && d.target == b
  {
    if dependencies == [] then []
    else
      assert forall d :: d in dependencies <==> d == dependencies[0] || d in dependencies[1..];
      var rest := KnownDependencies(dependencies[1..], known);
      if dependencies[0].target in known then [dependencies[0].target] + rest else rest
  }

  /** The searched graph: a repeated id keeps the dependencies of its last module. */
  function ModuleGraph(modules: seq<Module>, known: seq<string>): (g: Graph)
    ensures forall a :: a in g <==> exists i :: 0 <= i < |modules| && modules[i].id == a
  {
    if modules == [] then map[]
    else
      var last := modules[|modules| - 1];
      ModuleGraph(modules[..|modules| - 1], known)[last.id := KnownDependencies(last.dependencies, known)]
  }

  ghost predicate DistinctIds(modules: seq<Module>) {
    forall x, y :: 0 <= x < y < |modules| ==> modules[x].id != modules[y].id
  }

  /** The edges of an id are the dependencies of its last module on declared modules. */
  lemma {:induction false} ModuleGraphEdges(modules: seq<Module>, known: seq<string>, i: nat, b: string)
    requires i < |modules| && forall j :: i < j < |modules| ==> modules[j].id != modules[i].id
    ensures Edge(ModuleGraph(modules, known), modules[i].id, b) <==>
            b in known && exists d :: d in modules[i].dependencies && d.target == b
  {
    var n := |modules| - 1;
    var rest := ModuleGraph(modules[..n], known);
    assert ModuleGraph(modules, known) == rest[modules[n].id := KnownDependencies(modules[n].dependencies, known)];
    if i < n {
      assert modules[..n][i] == modules[i];
      assert modules[i].id != modules[n].id;
      ModuleGraphEdges(modules[..n], known, i, b);
      assert rest[modules[i].id] == ModuleGraph(modules, known)[modules[i].id];
    }
  }

  // ----- what is reported -----

  /** The id occurs more than once. */
  ghost predicate Repeated(ids: seq<string>, id: string) {
    exists i, j :: 0 <= i < j < |ids| && ids[i] == id && ids[j] == id
  }

  ghost predicate GateProblem(m: Manifest, gate: Gate, e: ValidationError) {
    e.UnknownTarget? && e.gate == gate.id && e.target in gate.targets && e.target !in TargetIds(m)
  }

  ghost predicate DependencyProblem(m: Manifest, mod: Module, e: ValidationError) {
    var ids := DependencyIds(mod.dependencies);
    || (e == SelfDependency(mod.id) && mod.id in ids)
    || (e.UnknownDependency? && e.mod == mod.id && e.dependency in ids && e.dependency != mod.id &&
        e.dependency !in ModuleIds(m))
    || (e.DuplicateDependency? && e.mod == mod.id && Repeated(ids, e.dependency))
  }

  ghost predicate ModuleProblem(m: Manifest, mod: Module, e: ValidationError) {
    || (e == MissingCompatibilityGate(mod.id, mod.state) && mod.state != LegacyCpp && mod.gates == [])
    || (e.UnknownGate? && e.mod == mod.id && e.gate in mod.gates && e.gate !in GateIds(m))
    || DependencyProblem(m, mod, e)
  }

  ghost predicate IdProblem(kind: IdKind, ids: seq<string>, e: ValidationError) {
    e.DuplicateId? && e.kind == kind && Repeated(ids, e.id)
  }

  /** The problems of a manifest besides cycles. */
  ghost predicate Problem(m: Manifest, e: ValidationError) {
    || IdProblem(TargetId, TargetIds(m), e) || IdProblem(GateId, GateIds(m), e) || IdProblem(ModuleId, ModuleIds(m), e)
    || (exists g :: g in m.gates && GateProblem(m, g, e))
    || (exists mod :: mod in m.modules && ModuleProblem(m, mod, e))
  }

  lemma NoneRepeated(ids: seq<string>)
    ensures NoDuplicates(ids) <==> forall id :: !Repeated(ids, id)
  {
    if !NoDuplicates(ids) {
      var i, j :| 0 <= i < j < |ids| && ids[i] == ids[j];
      assert Repeated(ids, ids[i]);
    }
  }

  lemma RepeatedSnoc(ids: seq<string>, id: string, x: string)
    ensures Repeated(ids + [id], x) <==> Repeated(ids, x) || (x == id && id in ids)
  {
    var more := ids + [id];
    if x == id && id in ids {
      var i :| 0 <= i < |ids| && ids[i] == id;
      assert more[i] == id && more[|ids|] == id;
    }
    if Repeated(ids, x) {
      var i, j :| 0 <= i < j < |ids| && ids[i] == x && ids[j] == x;
      assert more[i] == x && more[j] == x;
    }
  }

  /** A manifest without a problem and without a cycle is well formed, and only such a manifest. */
  lemma NoProblemIsWellFormed(m: Manifest)
    ensures WellFormed(m) <==> (forall e :: !Problem(m, e)) && Acyclic(ModuleGraph(m.modules, ModuleIds(m)))
  {
    hide Acyclic, Repeated, NoDuplicates;
    NoneRepeated(TargetIds(m));
    NoneRepeated(GateIds(m));
    NoneRepeated(ModuleIds(m));
    if WellFormed(m) {
      forall e ensures !Problem(m, e) {
        forall mod | mod in m.modules ensures !ModuleProblem(m, mod, e) {
          var i :| 0 <= i < |m.modules| && m.modules[i] == mod;
          ModuleProblems(m, m.modules[i]);
        }
      }
    }
    if forall e :: !Problem(m, e) {
      NoIdProblems(m);
      forall g | g in m.gates ensures GateWellFormed(m, g) {
        forall e ensures !GateProblem(m, g, e) {
          assert !Problem(m, e);
        }
        GateProblems(m, g);
      }
      forall i | 0 <= i < |m.modules| ensures ModuleWellFormed(m, m.modules[i]) {
        forall e ensures !ModuleProblem(m, m.modules[i], e) {
          assert !Problem(m, e);
        }
        ModuleProblems(m, m.modules[i]);
      }
    }
  }

  lemma NoIdProblems(m: Manifest)
    requires forall e :: !Problem(m, e)
    ensures forall id :: !Repeated(TargetIds(m), id) && !Repeated(GateIds(m), id) && !Repeated(ModuleIds(m), id)
  {
    hide Repeated, GateProblem, ModuleProblem, TargetIds, GateIds, ModuleIds;
    forall id ensures !Repeated(TargetIds(m), id) && !Repeated(GateIds(m), id) && !Repeated(ModuleIds(m), id) {
      assert !Problem(m, DuplicateId(TargetId, id));
      assert !Problem(m, DuplicateId(GateId, id));
      assert !Problem(m, DuplicateId(ModuleId, id));
    }
  }

  lemma GateProblems(m: Manifest, gate: Gate)
    ensures GateWellFormed(m, gate) <==> forall e :: !GateProblem(m, gate, e)
  {
    if t :| t in gate.targets && t !in TargetIds(m) {
      assert GateProblem(m, gate, UnknownTarget(gate.id, t));
    }
  }

  lemma DependencyProblems(m: Manifest, mod: Module)
    ensures (forall e :: !DependencyProblem(m, mod, e)) <==>
            && (forall d :: d in mod.dependencies ==> d.target != mod.id && d.target in ModuleIds(m))
            && NoDuplicates(DependencyIds(mod.dependencies))
  {
    var ids := DependencyIds(mod.dependencies);
    NoneRepeated(ids);
    forall d | d in mod.dependencies ensures d.target in ids {
      var i :| 0 <= i < |mod.dependencies| && mod.dependencies[i] == d;
      assert ids[i] == d.target;
    }
    forall id | id in ids ensures exists d :: d in mod.dependencies && d.target == id {
      var i :| 0 <= i < |ids| && ids[i] == id;
      assert mod.dependencies[i] in mod.dependencies;
    }
    if forall e :: !DependencyProblem(m, mod, e) {
      assert !DependencyProblem(m, mod, SelfDependency(mod.id));
      forall id ensures !Repeated(ids, id) && (id in ids ==> id in ModuleIds(m)) {
        assert !DependencyProblem(m, mod, UnknownDependency(mod.id, id));
        assert !DependencyProblem(m, mod, DuplicateDependency(mod.id, id));
      }
    }
  }

  lemma ModuleProblems(m: Manifest, mod: Module)
    ensures ModuleWellFormed(m, mod) <==> forall e :: !ModuleProblem(m, mod, e)
  {
    hide DependencyProblem;
    DependencyProblems(m, mod);
    if forall e :: !ModuleProblem(m, mod, e) {
      forall e ensures !DependencyProblem(m, mod, e) {
        assert !ModuleProblem(m, mod, e);
      }
      assert !ModuleProblem(m, mod, MissingCompatibilityGate(mod.id, mod.state));
      forall g | g in mod.gates ensures g in GateIds(m) {
        assert !ModuleProblem(m, mod, UnknownGate(mod.id, g));
      }
    }
  }

  // ----- where each error comes from -----

  /** The ids that are collected, targets before gates and gates before modules. */
  function CollectedIds(m: Manifest, kind: IdKind): seq<string> {
    match kind
    case TargetId => TargetIds(m)
    case GateId => GateIds(m)
    case ModuleId => ModuleIds(m)
  }

  function Stage(kind: IdKind): nat {
    match kind
    case TargetId => 0
    case GateId => 1
    case ModuleId => 2
  }

  /** The id at this position has occurred before. */
  ghost predicate IdCause(m: Manifest, kind: IdKind, k: nat, e: ValidationError) {
    var ids := CollectedIds(m, kind);
    k < |ids| && e == DuplicateId(kind, ids[k]) && exists j :: 0 <= j < k && ids[j] == ids[k]
  }

  ghost predicate GateCause(m: Manifest, i: nat, k: nat, e: ValidationError) {
    && i < |m.gates| && k < |m.gates[i].targets| && e == UnknownTarget(m.gates[i].id, m.gates[i].targets[k])
    && m.gates[i].targets[k] !in TargetIds(m)
  }

  /** What is wrong with the target of a dependency comes before its repetition. */
  ghost predicate DependencyCause(m: Manifest, mod: Module, k: nat, second: nat, e: ValidationError) {
    && k < |mod.dependencies|
    && var target := mod.dependencies[k].target;
       || (second == 0 && target == mod.id && e == SelfDependency(mod.id))
       || (second == 0 && target != mod.id && target !in ModuleIds(m) && e == UnknownDependency(mod.id, target))
       || (second == 1 && e == DuplicateDependency(mod.id, target) &&
           exists j :: 0 <= j < k && mod.dependencies[j].target == target)
  }

  /** The lack of gates, then the gates, then the dependencies. */
  ghost predicate ModuleCause(m: Manifest, mod: Module, k: nat, second: nat, e: ValidationError) {
    if k == 0 then second == 0 && mod.state != LegacyCpp && mod.gates == [] &&
                   e == MissingCompatibilityGate(mod.id, mod.state)
    else if k <= |mod.gates| then second == 0 && mod.gates[k - 1] !in GateIds(m) &&
                                  e == UnknownGate(mod.id, mod.gates[k - 1])
    else DependencyCause(m, mod, k - 1 - |mod.gates|, second, e)
  }

  /** The target, gate and module ids, the targets of the gates and the modules, in this order, each give the error at
      its place. */
  ghost predicate Cause(m: Manifest, p: Place, e: ValidationError) {
    || (p == Place(0, p.b, 0, 0) && IdCause(m, TargetId, p.b, e))
    || (p == Place(1, p.b, 0, 0) && IdCause(m, GateId, p.b, e))
    || (p == Place(2, p.b, 0, 0) && IdCause(m, ModuleId, p.b, e))
    || (p == Place(3, p.b, p.c, 0) && GateCause(m, p.b, p.c, e))
    || (p.a == 4 && p.b < |m.modules| && ModuleCause(m, m.modules[p.b], p.c, p.d, e))
  }

  ghost function Causes(m: Manifest): (Place, ValidationError) -> bool {
    (p: Place, e: ValidationError) => Cause(m, p, e)
  }

  /** The errors are those caused before the bound, in order, one for each place. */
  ghost predicate Caused(m: Manifest, bound: Place, places: seq<Place>, errors: seq<ValidationError>) {
    Lists(Causes(m), bound, places, errors)
  }

  lemma CausedStep(m: Manifest, from: Place, next: Place, places: seq<Place>, errors: seq<ValidationError>,
      e: ValidationError, here: bool) returns (places': seq<Place>)
    requires Caused(m, from, places, errors) && Adjacent(Causes(m), from, next)
    requires forall x :: Cause(m, from, x) <==> here && x == e
    ensures Caused(m, next, places', errors + Found(e, here))
  {
    hide Cause, Lists, Adjacent;
    places' := ListsStep(Causes(m), from, next, places, errors, e, here);
  }

  lemma CausedOn(m: Manifest, from: Place, next: Place, places: seq<Place>, errors: seq<ValidationError>)
    requires Caused(m, from, places, errors) && Before(from, next) && Free(Causes(m), from, next)
    ensures Caused(m, next, places, errors)
  {
    hide Cause, Lists, Free;
    ListsOn(Causes(m), from, next, places, errors);
  }

  lemma IdPlace(m: Manifest, kind: IdKind, k: nat)
    requires k < |CollectedIds(m, kind)|
    ensures Adjacent(Causes(m), Place(Stage(kind), k, 0, 0), Place(Stage(kind), k + 1, 0, 0))
    ensures var ids := CollectedIds(m, kind);
            forall e :: Cause(m, Place(Stage(kind), k, 0, 0), e) <==>
                        ids[k] in ids[..k] && e == DuplicateId(kind, ids[k])
  {
    hide GateCause, ModuleCause;
    var ids := CollectedIds(m, kind);
    assert ids[k] in ids[..k] <==> exists j :: 0 <= j < k && ids[j] == ids[k];
  }

  lemma IdsEnd(m: Manifest, kind: IdKind)
    ensures Free(Causes(m), Place(Stage(kind), |CollectedIds(m, kind)|, 0, 0), Place(Stage(kind) + 1, 0, 0, 0))
  {
    hide GateCause, ModuleCause;
  }

  lemma GateTargetPlace(m: Manifest, i: nat, k: nat)
    requires i < |m.gates| && k < |m.gates[i].targets|
    ensures Adjacent(Causes(m), Place(3, i, k, 0), Place(3, i, k + 1, 0))
    ensures forall e :: Cause(m, Place(3, i, k, 0), e) <==>
                        m.gates[i].targets[k] !in TargetIds(m) &&
                        e == UnknownTarget(m.gates[i].id, m.gates[i].targets[k])
  {
    hide IdCause, ModuleCause;
  }

  lemma GateEnd(m: Manifest, i: nat)
    requires i < |m.gates|
    ensures Free(Causes(m), Place(3, i, |m.gates[i].targets|, 0), Place(3, i + 1, 0, 0))
  {
    hide IdCause, ModuleCause;
  }

  lemma GatesEnd(m: Manifest)
    ensures Free(Causes(m), Place(3, |m.gates|, 0, 0), Place(4, 0, 0, 0))
  {
    hide IdCause, ModuleCause;
  }

  lemma NoGatePlace(m: Manifest, i: nat)
    requires i < |m.modules|
    ensures Adjacent(Causes(m), Place(4, i, 0, 0), Place(4, i, 1, 0))
    ensures forall e :: Cause(m, Place(4, i, 0, 0), e) <==>
                        m.modules[i].state != LegacyCpp && m.modules[i].gates == [] &&
                        e == MissingCompatibilityGate(m.modules[i].id, m.modules[i].state)
  {
    hide IdCause, GateCause, DependencyCause;
  }

  lemma ModuleGatePlace(m: Manifest, i: nat, k: nat, at: nat)
    requires i < |m.modules| && k < |m.modules[i].gates| && at == k + 1
    ensures Adjacent(Causes(m), Place(4, i, at, 0), Place(4, i, at + 1, 0))
    ensures forall e :: Cause(m, Place(4, i, at, 0), e) <==>
                        m.modules[i].gates[k] !in GateIds(m) &&
                        e == UnknownGate(m.modules[i].id, m.modules[i].gates[k])
  {
    hide IdCause, GateCause, DependencyCause;
  }

  lemma DependencyPlaces(m: Manifest, i: nat, k: nat, at: nat)
    requires i < |m.modules| && k < |m.modules[i].dependencies| && at == 1 + |m.modules[i].gates| + k
    ensures Adjacent(Causes(m), Place(4, i, at, 0), Place(4, i, at, 1))
    ensures Adjacent(Causes(m), Place(4, i, at, 1), Place(4, i, at + 1, 0))
    ensures var mod, target := m.modules[i], m.modules[i].dependencies[k].target;
            && (forall e :: Cause(m, Place(4, i, at, 0), e) <==>
                            (target == mod.id || target !in ModuleIds(m)) &&
                            e == if target == mod.id then SelfDependency(mod.id) else UnknownDependency(mod.id, target))
            && (forall e :: Cause(m, Place(4, i, at, 1), e) <==>
                            target in DependencyIds(mod.dependencies[..k]) && e == DuplicateDependency(mod.id, target))
  {
    hide IdCause, GateCause;
    var mod, target := m.modules[i], m.modules[i].dependencies[k].target;
    var ids := DependencyIds(mod.dependencies[..k]);
    assert forall j :: 0 <= j < k ==> ids[j] == mod.dependencies[j].target;
    assert target in ids <==> exists j :: 0 <= j < k && mod.dependencies[j].target == target by {
      if j :| 0 <= j < k && mod.dependencies[j].target == target {
        assert ids[j] == target;
      }
    }
  }

  lemma ModuleEnd(m: Manifest, i: nat)
    requires i < |m.modules|
    ensures var mod := m.modules[i];
            Free(Causes(m), Place(4, i, 1 + |mod.gates| + |mod.dependencies|, 0), Place(4, i + 1, 0, 0))
  {
    hide IdCause, GateCause;
  }

  lemma ModulesEnd(m: Manifest)
    ensures Free(Causes(m), Place(4, |m.modules|, 0, 0), Place(5, 0, 0, 0))
  {
    hide IdCause, GateCause, ModuleCause;
  }

  method CollectIds(
    ghost m: Manifest, kind: IdKind, ids: seq<string>, before: seq<ValidationError>, ghost start: seq<Place>)
    returns (found: set<string>, errors: seq<ValidationError>, ghost places: seq<Place>)
    requires ids == CollectedIds(m, kind) && Caused(m, Place(Stage(kind), 0, 0, 0), start, before)
    ensures Caused(m, Place(Stage(kind) + 1, 0, 0, 0), places, errors)
    ensures found == set id | id in ids
    ensures before <= errors
    ensures forall e :: e in errors[|before|..] <==> IdProblem(kind, ids, e)
  {
    hide Cause, Caused, Adjacent, Free, Causes;
    found, errors, places := {}, before, start;
    for i := 0 to |ids|
      invariant Caused(m, Place(Stage(kind), i, 0, 0), places, errors)
      invariant found == set id | id in ids[..i]
      invariant before <= errors
      invariant forall e :: e in errors[|before|..] <==> IdProblem(kind, ids[..i], e)
    {
      hide Repeated;
      assert ids[..i + 1] == ids[..i] + [ids[i]];
      forall x ensures Repeated(ids[..i + 1], x) <==> Repeated(ids[..i], x) || (x == ids[i] && ids[i] in ids[..i]) {
        RepeatedSnoc(ids[..i], ids[i], x);
      }
      IdPlace(m, kind, i);
      places := CausedStep(m, Place(Stage(kind), i, 0, 0), Place(Stage(kind), i + 1, 0, 0), places, errors,
                           DuplicateId(kind, ids[i]), ids[i] in ids[..i]);
      assert errors + [] == errors;
      if ids[i] in found {
        MoreErrors(before, errors, DuplicateId(kind, ids[i]));
        errors := errors + [DuplicateId(kind, ids[i])];
      }
      found := found + {ids[i]};
    }
    assert ids[..|ids|] == ids;
    IdsEnd(m, kind);
    CausedOn(m, Place(Stage(kind), |ids|, 0, 0), Place(Stage(kind) + 1, 0, 0, 0), places, errors);
  }

  lemma MoreErrors(before: seq<ValidationError>, errors: seq<ValidationError>, e: ValidationError)
    requires before <= errors
    ensures (errors + [e])[|before|..] == errors[|before|..] + [e]
  {
  }

  method CheckGate(
    m: Manifest, targetIds: set<string>, gate: Gate, before: seq<ValidationError>, ghost n: nat,
    ghost start: seq<Place>)
    returns (errors: seq<ValidationError>, ghost places: seq<Place>)
    requires n < |m.gates| && gate == m.gates[n] && Caused(m, Place(3, n, 0, 0), start, before)
    requires targetIds == set t | t in TargetIds(m)
    ensures Caused(m, Place(3, n + 1, 0, 0), places, errors)
    ensures before <= errors
    ensures forall e :: e in errors[|before|..] <==> GateProblem(m, gate, e)
  {
    hide Cause, Caused, Adjacent, Free, Causes;
    errors, places := before, start;
    for i := 0 to |gate.targets|
      invariant Caused(m, Place(3, n, i, 0), places, errors)
      invariant before <= errors
      invariant forall e :: e in errors[|before|..] <==>
                            e.UnknownTarget? && e.gate == gate.id && e.target in gate.targets[..i] &&
                            e.target !in TargetIds(m)
    {
      assert gate.targets[..i + 1] == gate.targets[..i] + [gate.targets[i]];
      GateTargetPlace(m, n, i);
      places := CausedStep(m, Place(3, n, i, 0), Place(3, n, i + 1, 0), places, errors,
                           UnknownTarget(gate.id, gate.targets[i]), gate.targets[i] !in TargetIds(m));
      assert errors + [] == errors;
      if gate.targets[i] !in targetIds {
        MoreErrors(before, errors, UnknownTarget(gate.id, gate.targets[i]));
        errors := errors + [UnknownTarget(gate.id, gate.targets[i])];
      }
    }
    assert gate.targets[..|gate.targets|] == gate.targets;
    GateEnd(m, n);
    CausedOn(m, Place(3, n, |gate.targets|, 0), Place(3, n + 1, 0, 0), places, errors);
  }

  lemma {:induction false} DependencyProblemSnoc(m: Manifest, mod: Module, i: nat, e: ValidationError)
    requires i < |mod.dependencies|
    ensures var d := mod.dependencies[i].target;
            DependencyProblem(m, mod.(dependencies := mod.dependencies[..i + 1]), e) <==>
            || DependencyProblem(m, mod.(dependencies := mod.dependencies[..i]), e)
            || (d == mod.id && e == SelfDependency(mod.id))
            || (d != mod.id && d !in ModuleIds(m) && e == UnknownDependency(mod.id, d))
            || (d in DependencyIds(mod.dependencies[..i]) && e == DuplicateDependency(mod.id, d))
  {
    hide Repeated;
    var ids := DependencyIds(mod.dependencies[..i]);
    assert DependencyIds(mod.dependencies[..i + 1]) == ids + [mod.dependencies[i].target];
    if e.DuplicateDependency? {
      RepeatedSnoc(ids, mod.dependencies[i].target, e.dependency);
    }
  }

  /** Report one dependency. */
  method CheckDependency(
    m: Manifest, moduleIds: set<string>, mod: Module, i: nat, seen: set<string>, before: seq<ValidationError>,
    ghost n: nat, ghost at: nat, ghost start: seq<Place>)
    returns (errors: seq<ValidationError>, ghost places: seq<Place>)
    requires n < |m.modules| && mod == m.modules[n] && at == 1 + |mod.gates| + i
    requires Caused(m, Place(4, n, at, 0), start, before)
    requires moduleIds == set id | id in ModuleIds(m)
    requires i < |mod.dependencies| && seen == set id | id in DependencyIds(mod.dependencies[..i])
    ensures Caused(m, Place(4, n, at + 1, 0), places, errors)
    ensures before <= errors
    ensures forall e :: DependencyProblem(m, mod.(dependencies := mod.dependencies[..i + 1]), e) <==>
                        (e in errors[|before|..] ||
                         DependencyProblem(m, mod.(dependencies := mod.dependencies[..i]), e))
    ensures forall e :: e in errors[|before|..] ==>
                        DependencyProblem(m, mod.(dependencies := mod.dependencies[..i + 1]), e)
  {
    hide Cause, Caused, Adjacent, Causes;
    errors := before;
    var d := mod.dependencies[i].target;
    DependencyPlaces(m, n, i, at);
    places := CausedStep(
      m, Place(4, n, at, 0), Place(4, n, at, 1), start, errors,
      if d == mod.id then SelfDependency(mod.id) else UnknownDependency(mod.id, d), d == mod.id || d !in ModuleIds(m));
    assert errors + [] == errors;
    if d == mod.id {
      errors := errors + [SelfDependency(mod.id)];
    } else if d !in moduleIds {
      errors := errors + [UnknownDependency(mod.id, d)];
    }
    places := CausedStep(m, Place(4, n, at, 1), Place(4, n, at + 1, 0), places, errors,
                         DuplicateDependency(mod.id, d), d in DependencyIds(mod.dependencies[..i]));
    assert errors + [] == errors;
    if d in seen {
      MoreErrors(before, errors, DuplicateDependency(mod.id, d));
      errors := errors + [DuplicateDependency(mod.id, d)];
    }
    hide DependencyProblem;
    forall e
      ensures DependencyProblem(m, mod.(dependencies := mod.dependencies[..i + 1]), e) <==>
              (e in errors[|before|..] || DependencyProblem(m, mod.(dependencies := mod.dependencies[..i]), e))
    {
      DependencyProblemSnoc(m, mod, i, e);
    }
  }

  method CheckDependencies(
    m: Manifest, moduleIds: set<string>, mod: Module, before: seq<ValidationError>, ghost n: nat,
    ghost start: seq<Place>)
    returns (errors: seq<ValidationError>, ghost places: seq<Place>)
    requires n < |m.modules| && mod == m.modules[n] && Caused(m, Place(4, n, 1 + |mod.gates|, 0), start, before)
    requires moduleIds == set id | id in ModuleIds(m)
    ensures Caused(m, Place(4, n + 1, 0, 0), places, errors)
    ensures before <= errors
    ensures forall e :: e in errors[|before|..] <==> DependencyProblem(m, mod, e)
  {
    hide Cause, Caused, Free, Causes;
    errors, places := before, start;
    var seen: set<string> := {};
    var ds := mod.dependencies;
    for i := 0 to |ds|
      invariant Caused(m, Place(4, n, 1 + |mod.gates| + i, 0), places, errors)
      invariant before <= errors
      invariant seen == set id | id in DependencyIds(ds[..i])
      invariant forall e :: e in errors[|before|..] <==> DependencyProblem(m, mod.(dependencies := ds[..i]), e)
    {
      hide DependencyProblem;
      assert DependencyIds(ds[..i + 1]) == DependencyIds(ds[..i]) + [ds[i].target];
      var more;
      more, places := CheckDependency(m, moduleIds, mod, i, seen, errors, n, 1 + |mod.gates| + i, places);
      assert more[|before|..] == errors[|before|..] + more[|errors|..];
      errors := more;
      seen := seen + {ds[i].target};
    }
    assert ds[..|ds|] == ds && mod.(dependencies := ds) == mod;
    ModuleEnd(m, n);
    CausedOn(m, Place(4, n, 1 + |mod.gates| + |ds|, 0), Place(4, n + 1, 0, 0), places, errors);
  }

  method CheckModule(
    m: Manifest, gateIds: set<string>, moduleIds: set<string>, mod: Module, before: seq<ValidationError>,
    ghost n: nat, ghost start: seq<Place>)
    returns (errors: seq<ValidationError>, ghost places: seq<Place>)
    requires n < |m.modules| && mod == m.modules[n] && Caused(m, Place(4, n, 0, 0), start, before)
    requires gateIds == set g | g in GateIds(m)
    requires moduleIds == set id | id in ModuleIds(m)
    ensures Caused(m, Place(4, n + 1, 0, 0), places, errors)
    ensures before <= errors
    ensures forall e :: e in errors[|before|..] <==> ModuleProblem(m, mod, e)
  {
    hide DependencyProblem, Cause, Caused, Adjacent, Causes;
    errors := before;
    NoGatePlace(m, n);
    places := CausedStep(m, Place(4, n, 0, 0), Place(4, n, 1, 0), start, errors,
                         MissingCompatibilityGate(mod.id, mod.state), mod.state != LegacyCpp && mod.gates == []);
    assert errors + [] == errors;
    if mod.state != LegacyCpp && mod.gates == [] {
      errors := errors + [MissingCompatibilityGate(mod.id, mod.state)];
    }
    ghost var first := errors;
    for i := 0 to |mod.gates|
      invariant Caused(m, Place(4, n, i + 1, 0), places, errors)
      invariant first <= errors
      invariant forall e :: e in errors[|first|..] <==>
                            e.UnknownGate? && e.mod == mod.id && e.gate in mod.gates[..i] && e.gate !in GateIds(m)
    {
      assert mod.gates[..i + 1] == mod.gates[..i] + [mod.gates[i]];
      ModuleGatePlace(m, n, i, i + 1);
      places := CausedStep(m, Place(4, n, i + 1, 0), Place(4, n, i + 2, 0), places, errors,
                           UnknownGate(mod.id, mod.gates[i]), mod.gates[i] !in GateIds(m));
      assert errors + [] == errors;
      if mod.gates[i] !in gateIds {
        MoreErrors(first, errors, UnknownGate(mod.id, mod.gates[i]));
        errors := errors + [UnknownGate(mod.id, mod.gates[i])];
      }
    }
    assert mod.gates[..|mod.gates|] == mod.gates;
    ghost var second := errors;
    errors, places := CheckDependencies(m, moduleIds, mod, errors, n, places);
    assert errors[|before|..] == first[|before|..] + second[|first|..] + errors[|second|..];
  }

  method CheckGates(m: Manifest, targetIds: set<string>, before: seq<ValidationError>, ghost start: seq<Place>)
    returns (errors: seq<ValidationError>, ghost places: seq<Place>)
    requires Caused(m, Place(3, 0, 0, 0), start, before)
    requires targetIds == set t | t in TargetIds(m)
    ensures Caused(m, Place(4, 0, 0, 0), places, errors)
    ensures before <= errors
    ensures forall e :: e in errors[|before|..] <==> exists g :: g in m.gates && GateProblem(m, g, e)
  {
    hide GateProblem, Cause, Caused, Free, Causes;
    errors, places := before, start;
    for i := 0 to |m.gates|
      invariant Caused(m, Place(3, i, 0, 0), places, errors)
      invariant before <= errors
      invariant forall e :: e in errors[|before|..] <==> exists g :: g in m.gates[..i] && GateProblem(m, g, e)
    {
      assert m.gates[..i + 1] == m.gates[..i] + [m.gates[i]];
      var more;
      more, places := CheckGate(m, targetIds, m.gates[i], errors, i, places);
      assert more[|before|..] == errors[|before|..] + more[|errors|..];
      errors := more;
    }
    assert m.gates[..|m.gates|] == m.gates;
    GatesEnd(m);
    CausedOn(m, Place(3, |m.gates|, 0, 0), Place(4, 0, 0, 0), places, errors);
  }

  method CheckModules(
    m: Manifest, gateIds: set<string>, moduleIds: set<string>, before: seq<ValidationError>, ghost start: seq<Place>)
    returns (errors: seq<ValidationError>, ghost places: seq<Place>)
    requires Caused(m, Place(4, 0, 0, 0), start, before)
    requires gateIds == set g | g in GateIds(m)
    requires moduleIds == set id | id in ModuleIds(m)
    ensures Caused(m, Place(5, 0, 0, 0), places, errors)
    ensures before <= errors
    ensures forall e :: e in errors[|before|..] <==> exists mod :: mod in m.modules && ModuleProblem(m, mod, e)
  {
    hide ModuleProblem, Cause, Caused, Free, Causes;
    errors, places := before, start;
    for i := 0 to |m.modules|
      invariant Caused(m, Place(4, i, 0, 0), places, errors)
      invariant before <= errors
      invariant forall e :: e in errors[|before|..] <==> exists mod :: mod in m.modules[..i] && ModuleProblem(m, mod, e)
    {
      assert m.modules[..i + 1] == m.modules[..i] + [m.modules[i]];
      var more;
      more, places := CheckModule(m, gateIds, moduleIds, m.modules[i], errors, i, places);
      assert more[|before|..] == errors[|before|..] + more[|errors|..];
      errors := more;
    }
    assert m.modules[..|m.modules|] == m.modules;
    ModulesEnd(m);
    CausedOn(m, Place(4, |m.modules|, 0, 0), Place(5, 0, 0, 0), places, errors);
  }

  /** Everything but the search for cycles. */
  method CheckReferences(m: Manifest) returns (errors: seq<ValidationError>)
    ensures AllCaused(m, errors)
    ensures forall e :: e in errors <==> Problem(m, e)
  {
    hide IdProblem, GateProblem, ModuleProblem, Cause, Caused;
    var targetIds, gateIds, moduleIds;
    ghost var places: seq<Place> := [];
    NothingCaused(m);
    targetIds, errors, places := CollectIds(m, TargetId, TargetIds(m), [], places);
    ghost var first := errors;
    gateIds, errors, places := CollectIds(m, GateId, GateIds(m), errors, places);
    ghost var second := errors;
    moduleIds, errors, places := CollectIds(m, ModuleId, ModuleIds(m), errors, places);
    ghost var third := errors;
    errors, places := CheckGates(m, targetIds, errors, places);
    ghost var fourth := errors;
    errors, places := CheckModules(m, gateIds, moduleIds, errors, places);
    assert errors == first + second[|first|..] + third[|second|..] + fourth[|third|..] + errors[|fourth|..];
  }

  /** All errors that are caused, in order, one for each place. */
  ghost predicate AllCaused(m: Manifest, errors: seq<ValidationError>) {
    exists places :: Caused(m, Place(5, 0, 0, 0), places, errors)
  }

  lemma NothingCaused(m: Manifest)
    ensures Caused(m, Place(0, 0, 0, 0), [], [])
  {
    hide Cause;
    ListsNothing(Causes(m));
  }

  /** The problems of the manifest, and behind them a cycle when there is one. */
  ghost predicate IsReport(m: Manifest, errors: seq<ValidationError>) {
    var graph := ModuleGraph(m.modules, ModuleIds(m));
    if Acyclic(graph) then
      && (forall e :: e in errors <==> Problem(m, e))
      && AllCaused(m, errors)
    else
      && errors != [] && errors[|errors| - 1].DependencyCycle? && IsCycle(graph, errors[|errors| - 1].cycle)
      && (forall e :: e in errors[..|errors| - 1] <==> Problem(m, e))
      && AllCaused(m, errors[..|errors| - 1])
  }

  lemma ReportMeans(m: Manifest, errors: seq<ValidationError>)
    requires IsReport(m, errors)
    ensures errors == [] <==> WellFormed(m)
  {
    hide Problem, Acyclic, IsCycle, WellFormed, AllCaused;
    NoProblemIsWellFormed(m);
    if errors != [] && Acyclic(ModuleGraph(m.modules, ModuleIds(m))) {
      assert errors[0] in errors;
    }
  }

  /** Nothing is reported exactly for well-formed manifests. */
  method ValidateReferences(m: Manifest) returns (errors: seq<ValidationError>)
    ensures IsReport(m, errors)
    ensures errors == [] <==> WellFormed(m)
  {
    hide Problem, Acyclic, WellFormed, IsCycle, Topological, AllCaused;
    errors := CheckReferences(m);
    ghost var problems := errors;
    GraphKeys(m);
    var cycle, order := CycleSearch.FindCycle(ModuleGraph(m.modules, ModuleIds(m)), ModuleIds(m));
    if cycle.Some? {
      errors := errors + [DependencyCycle(cycle.value)];
      assert errors[..|errors| - 1] == problems;
    }
    ReportMeans(m, errors);
  }

  lemma GraphKeys(m: Manifest)
    ensures forall r :: r in ModuleIds(m) <==> r in ModuleGraph(m.modules, ModuleIds(m))
  {
    forall r ensures r in ModuleIds(m) <==> r in ModuleGraph(m.modules, ModuleIds(m)) {
      if r in ModuleGraph(m.modules, ModuleIds(m)) {
        var i :| 0 <= i < |m.modules| && m.modules[i].id == r;
        assert ModuleIds(m)[i] == r;
      }
    }
  }
}
