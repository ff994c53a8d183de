/** The migration manifest: modules, their dependency boundaries, gates and targets. */
module ManifestModel {
  import opened Wrappers

  datatype MigrationState = LegacyCpp | Bridged | RustOwned {
    function Next(): Option<MigrationState> {
      match this
      case LegacyCpp => Some(Bridged)
      case Bridged => Some(RustOwned)
      case RustOwned => None
    }

    /** How many steps away from `LegacyCpp` the state is. */
    function Rank(): nat {
      match this
      case LegacyCpp => 0
      case Bridged => 1
      case RustOwned => 2
    }
  }

  datatype Boundary = Unclassified | CppInternal | Cxx | CAbi | Mojo | Rust {
    /** The place of the kind in the order of the kinds. */
    function Rank(): nat {
      match this
      case Unclassified => 0
      case CppInternal => 1
      case Cxx => 2
      case CAbi => 3
      case Mojo => 4
      case Rust => 5
    }

    /** Audited is what is classified and joins two languages. */
    predicate IsAuditedCrossLanguage()
      ensures IsAuditedCrossLanguage() <==> this !in {Unclassified, CppInternal, Rust}
    {
      Cxx? || CAbi? || Mojo?
    }
  }

  datatype ReviewKind = Callback | Observer

  datatype Review = Review(kind: ReviewKind, file: string, line: nat, resolved: bool)

  datatype EvidenceItem = EvidenceItem(boundary: Boundary, file: string, line: nat)

  datatype Dependency = Dependency(
    target: string, boundary: Boundary, evidence: seq<EvidenceItem>, reviews: seq<Review>)

  datatype GateExecution = Shell(command: string) | Direct(program: string, args: seq<string>)

  datatype GateInput = GateInput(path: string, sha256: string)

  datatype Gate = Gate(id: string, execution: GateExecution, inputs: seq<GateInput>, targets: seq<string>)

  datatype Target = Target(id: string, required: bool)

  datatype Module = Module(
    id: string, state: MigrationState, gates: seq<string>, reviews: seq<Review>, dependencies: seq<Dependency>)

  datatype Manifest = Manifest(
    project: string, baseline: string, targets: seq<Target>, gates: seq<Gate>, modules: seq<Module>)
  {
    /** The position of the first module with this id, or the number of modules. */
    function ModuleIndex(id: string): (i: nat)
      ensures i <= |modules|
      ensures i < |modules| ==> modules[i].id == id
      ensures forall j :: 0 <= j < i ==> modules[j].id != id
    {
      FirstModule(modules, id)
    }

    /** The first module with this id. */
    function FindModule(id: string): Option<Module> {
      var i := ModuleIndex(id);
      if i < |modules| then Some(modules[i]) else None
    }

    /** The first gate with this id. */
    function FindGate(id: string): (g: Option<Gate>)
      ensures g.None? <==> forall i :: 0 <= i < |gates| ==> gates[i].id != id
      ensures g.Some? ==> g.value in gates && g.value.id == id
    {
      FirstGate(gates, id)
    }
  }

  function FirstModule(modules: seq<Module>, id: string): (i: nat)
    ensures i <= |modules|
    ensures i < |modules| ==> modules[i].id == id
    ensures forall j :: 0 <= j < i ==> modules[j].id != id
  {
    if modules == [] || modules[0].id == id then 0 else 1 + FirstModule(modules[1..], id)
  }

  function FirstGate(gates: seq<Gate>, id: string): (g: Option<Gate>)
    ensures g.None? <==> forall i :: 0 <= i < |gates| ==> gates[i].id != id
    ensures g.Some? ==> g.value in gates && g.value.id == id
  {
    if gates == [] then None
    else if gates[0].id == id then Some(gates[0])
    else FirstGate(gates[1..], id)
  }

  ghost predicate UniqueModuleIds(m: Manifest) {
    forall i, j :: 0 <= i < j < |m.modules| ==> m.modules[i].id != m.modules[j].id
  }

  lemma ModuleIndexUnique(m: Manifest, i: nat)
    requires UniqueModuleIds(m) && i < |m.modules|
    ensures m.ModuleIndex(m.modules[i].id) == i
  {
  }
}
