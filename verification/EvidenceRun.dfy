/** Running gates: the content-addressed output directory and the evidence of one run. */
module EvidenceRun {
  import opened Wrappers
  import opened Ordering
  import opened ManifestModel
  import opened EvidenceModel
  import opened Texts
  import opened EvidenceStore
  import opened GateInputs
  import opened GitStatus

  datatype RunError =
    | InvalidWorkdir
    | InvalidAttestationOptions
    | UnknownGate(gate: string)
    | UnknownModule(mod: string)
    | NoGatesSelected
    | WriteArtifact(path: seq<string>)
  {
    predicate OfSelection() {
      UnknownGate? || UnknownModule? || NoGatesSelected?
    }
  }

  datatype Options = Options(
    gateIds: seq<string>, moduleIds: seq<string>, failFast: bool, maxTailBytes: nat,
    attestCheckout: bool, expectedRevision: Option<string>, requireClean: bool, attestExecutables: bool)

  // ----- the world of one run: what the file system, Git and the processes answer -----

  /** How a launched gate ends: it cannot be spawned, or it exits (a killed process may have no code). */
  datatype Launch = SpawnFailed(error: string) | Exited(code: Option<int>, timedOut: bool)

  datatype ResolvedProgram = ResolvedProgram(invocationPath: string, resolvedPath: string, before: FileIdentity)

  /** What the file system and the process launcher answer for one gate. */
  datatype GateAnswers = GateAnswers(
    inputsBefore: InputAnswers, inputsAfter: InputAnswers,
    resolution: Result<ResolvedProgram, string>, launch: Launch, identityAfter: Result<FileIdentity, string>,
    stdout: Bytes, stderr: Bytes)

  /** The same with the inputs checked: the text of the first problem, if there is one. */
  datatype GateWorld = GateWorld(
    inputsBefore: Option<string>, inputsAfter: Option<string>,
    resolution: Result<ResolvedProgram, string>, launch: Launch, identityAfter: Result<FileIdentity, string>,
    stdout: Bytes, stderr: Bytes)

  /** What the attestation of the checkout meets: the Git that is found, and its answers before and after the gates. */
  datatype World = World(
    workdirIsDirectory: bool, stamp: Stamp,
    git: Result<ResolvedProgram, string>, before: GitAnswers,
    gitAfter: Result<FileIdentity, string>, after: GitAnswers,
    gates: string -> GateAnswers)

  function ProblemTextOf(problem: Option<InputProblem>): Option<string> {
    match problem case Some(p) => Some(p.Text()) case None => None
  }

  function Seen(c: Codecs, gate: Gate, a: GateAnswers): GateWorld {
    GateWorld(
      ProblemTextOf(InputProblemOf(c, gate.inputs, a.inputsBefore)),
      ProblemTextOf(InputProblemOf(c, gate.inputs, a.inputsAfter)),
      a.resolution, a.launch, a.identityAfter, a.stdout, a.stderr)
  }

  function SeenAt(c: Codecs, w: World, gate: Gate): GateWorld {
    Seen(c, gate, w.gates(gate.id))
  }

  // ----- selection -----

  ghost predicate GateOfModules(m: Manifest, mods: seq<string>, id: string) {
    exists x :: x in mods && m.FindModule(x).Some? && id in m.FindModule(x).value.gates
  }

  /** The gate ids a run is asked for. */
  ghost predicate Requested(m: Manifest, o: Options, id: string) {
    || id in o.gateIds
    || GateOfModules(m, o.moduleIds, id)
    || (o.gateIds == [] && o.moduleIds == [] && exists g :: g in m.gates && g.id == id)
  }

  ghost predicate Selectable(m: Manifest, o: Options) {
    && (forall id :: Requested(m, o, id) ==> m.FindGate(id).Some?)
    && (forall mod :: mod in o.moduleIds ==> m.FindModule(mod).Some?)
    && (exists id :: Requested(m, o, id))
  }

  method AddExplicit(m: Manifest, ids: seq<string>) returns (r: Result<set<string>, RunError>)
    ensures r.Ok? <==> forall id :: id in ids ==> m.FindGate(id).Some?
    ensures r.Ok? ==> forall id :: id in r.value <==> id in ids
    ensures r.Err? ==> r.error.UnknownGate? && r.error.gate in ids && m.FindGate(r.error.gate).None?
  {
    var selected: set<string> := {};
    for i := 0 to |ids|
      invariant forall id :: id in ids[..i] ==> m.FindGate(id).Some?
      invariant forall id :: id in selected <==> id in ids[..i]
    {
      assert ids[..i + 1] == ids[..i] + [ids[i]];
      if m.FindGate(ids[i]).None? {
        return Err(UnknownGate(ids[i]));
      }
      selected := selected + {ids[i]};
    }
    assert ids[..|ids|] == ids;
    return Ok(selected);
  }

  method AddModules(m: Manifest, mods: seq<string>, before: set<string>) returns (r: Result<set<string>, RunError>)
    ensures r.Ok? <==> forall x :: x in mods ==> m.FindModule(x).Some?
    ensures r.Ok? ==> forall id :: id in r.value <==> (id in before || GateOfModules(m, mods, id))
    ensures r.Err? ==> r.error.UnknownModule? && r.error.mod in mods && m.FindModule(r.error.mod).None?
  {
    var selected := before;
    for i := 0 to |mods|
      invariant forall x :: x in mods[..i] ==> m.FindModule(x).Some?
      invariant forall id :: id in selected <==> (id in before || GateOfModules(m, mods[..i], id))
    {
      assert mods[..i + 1] == mods[..i] + [mods[i]];
      if m.FindModule(mods[i]).None? {
        return Err(UnknownModule(mods[i]));
      }
      selected := selected + set g | g in m.FindModule(mods[i]).value.gates;
    }
    assert mods[..|mods|] == mods;
    return Ok(selected);
  }

  /** The selected gates in the order of their ids, each once. */
  ghost predicate IsSelection(m: Manifest, o: Options, gates: seq<Gate>) {
    && gates != []
    && (forall i :: 0 <= i < |gates| ==> m.FindGate(gates[i].id) == Some(gates[i]))
    && (forall id :: Requested(m, o, id) <==> exists i :: 0 <= i < |gates| && gates[i].id == id)
    && (forall i, j :: 0 <= i < j < |gates| ==> gates[i].id != gates[j].id && StringLeq(gates[i].id, gates[j].id))
  }

  method LookupAll(m: Manifest, ids: seq<string>) returns (r: Result<seq<Gate>, RunError>)
    ensures r.Ok? <==> forall id :: id in ids ==> m.FindGate(id).Some?
    ensures r.Ok? ==> |r.value| == |ids| && forall i :: 0 <= i < |ids| ==> m.FindGate(ids[i]) == Some(r.value[i])
    ensures r.Err? ==> r.error.UnknownGate? && r.error.gate in ids && m.FindGate(r.error.gate).None?
  {
    var gates: seq<Gate> := [];
    for i := 0 to |ids|
      invariant |gates| == i && forall j :: 0 <= j < i ==> m.FindGate(ids[j]) == Some(gates[j])
    {
      if m.FindGate(ids[i]).None? {
        assert ids[i] in ids;
        return Err(UnknownGate(ids[i]));
      }
      gates := gates + [m.FindGate(ids[i]).value];
    }
    return Ok(gates);
  }

  /** What is wrong with the selection: an unknown gate or module that is asked for, or nothing asked for. */
  ghost predicate SelectionFails(m: Manifest, o: Options, e: RunError) {
    match e
    case UnknownGate(id) => Requested(m, o, id) && m.FindGate(id).None?
    case UnknownModule(x) => x in o.moduleIds && m.FindModule(x).None?
    case NoGatesSelected => forall id :: !Requested(m, o, id)
    case _ => false
  }

  method SelectGates(m: Manifest, o: Options) returns (r: Result<seq<Gate>, RunError>)
    ensures r.Ok? <==> Selectable(m, o)
    ensures r.Ok? ==> IsSelection(m, o, r.value)
    ensures r.Err? ==> SelectionFails(m, o, r.error)
  {
    hide IsSelection, GateOfModules;
    var explicit := AddExplicit(m, o.gateIds);
    if explicit.Err? {
      assert Requested(m, o, explicit.error.gate);
      return Err(explicit.error);
    }
    var selected := AddModules(m, o.moduleIds, explicit.value);
    if selected.Err? {
      return Err(selected.error);
    }
    var ids := selected.value;
    if o.gateIds == [] && o.moduleIds == [] {
      ids := ids + set g | g in m.gates :: g.id;
    }
    RequestedIds(m, o, explicit.value, selected.value, ids);
    r := LookupIds(m, o, ids);
  }

  /** Look up the ids that are asked for, if there are any. */
  method LookupIds(m: Manifest, o: Options, ids: set<string>) returns (r: Result<seq<Gate>, RunError>)
    requires forall id :: id in ids <==> Requested(m, o, id)
    requires forall mod :: mod in o.moduleIds ==> m.FindModule(mod).Some?
    ensures r.Ok? <==> Selectable(m, o)
    ensures r.Ok? ==> IsSelection(m, o, r.value)
    ensures r.Err? ==> SelectionFails(m, o, r.error)
  {
    hide IsSelection, Requested, Manifest.FindModule, Manifest.FindGate;
    if ids == {} {
      return Err(NoGatesSelected);
    }
    var id :| id in ids;
    assert Requested(m, o, id);
    var sorted := SortedTexts(ids);
    r := LookupAll(m, sorted);
    if r.Ok? {
      LookupIsSelection(m, o, ids, sorted, r.value);
    }
  }

  lemma RequestedIds(m: Manifest, o: Options, explicit: set<string>, selected: set<string>, ids: set<string>)
    requires forall id :: id in explicit <==> id in o.gateIds
    requires forall id :: id in selected <==> (id in explicit || GateOfModules(m, o.moduleIds, id))
    requires ids == if o.gateIds == [] && o.moduleIds == [] then selected + set g | g in m.gates :: g.id else selected
    ensures forall id :: id in ids <==> Requested(m, o, id)
  {
  }

  lemma LookupIsSelection(m: Manifest, o: Options, ids: set<string>, sorted: seq<string>, gates: seq<Gate>)
    requires ids != {} && forall id :: id in ids <==> Requested(m, o, id)
    requires InTextOrder(sorted, ids)
    requires |gates| == |sorted| && forall i :: 0 <= i < |sorted| ==> m.FindGate(sorted[i]) == Some(gates[i])
    ensures IsSelection(m, o, gates)
  {
    assert forall i :: 0 <= i < |sorted| ==> gates[i].id == sorted[i];
    var id :| id in ids;
    assert id in sorted;
    forall x ensures Requested(m, o, x) <==> exists i :: 0 <= i < |gates| && gates[i].id == x {
      if x in sorted {
        var i :| 0 <= i < |sorted| && sorted[i] == x;
        assert gates[i].id == x;
      }
    }
  }

  // ----- one gate -----

  const EXECUTABLE_CHANGED: string := "gate executable changed during execution"

  /** A direct gate under executable attestation resolves its program before it can be launched. */
  predicate Attested(gate: Gate, attest: bool) {
    gate.execution.Direct? && attest
  }

  predicate Prepared(gate: Gate, attest: bool, w: GateWorld) {
    w.inputsBefore.None? && (Attested(gate, attest) ==> w.resolution.Ok?)
  }

  /** The process was started and ended by itself or was killed. */
  predicate Ran(gate: Gate, attest: bool, w: GateWorld) {
    Prepared(gate, attest, w) && w.launch.Exited?
  }

  predicate ChangedExecutable(gate: Gate, attest: bool, w: GateWorld) {
    Prepared(gate, attest, w) && Attested(gate, attest) && w.identityAfter.Ok? &&
    w.identityAfter.value != w.resolution.value.before
  }

  function ErrorOf<T>(r: Result<T, string>): Option<string> {
    match r case Ok(_) => None case Err(e) => Some(e)
  }

  function LaunchError(gate: Gate, attest: bool, w: GateWorld): Option<string> {
    if Prepared(gate, attest, w) && w.launch.SpawnFailed? then Some(w.launch.error) else None
  }

  function InputError(w: GateWorld): Option<string> {
    if w.inputsBefore.Some? then w.inputsBefore else w.inputsAfter
  }

  function ExecutableError(gate: Gate, attest: bool, w: GateWorld): Option<string> {
    if w.inputsBefore.Some? || !Attested(gate, attest) then None
    else if w.resolution.Err? then ErrorOf(w.resolution)
    else if ChangedExecutable(gate, attest, w) then Some(EXECUTABLE_CHANGED)
    else ErrorOf(w.identityAfter)
  }

  function ExitCode(gate: Gate, attest: bool, w: GateWorld): Option<int> {
    if Ran(gate, attest, w) then w.launch.code else None
  }

  /** The identity of an attested program before and after it ran. */
  function ExecutableOf(gate: Gate, attest: bool, w: GateWorld): Option<ExecutableAttestation> {
    if Prepared(gate, attest, w) && Attested(gate, attest) && w.identityAfter.Ok? then
      Some(ExecutableAttestation(
        gate.execution.program, w.resolution.value.invocationPath, w.resolution.value.resolvedPath,
        w.resolution.value.before, w.identityAfter.value))
    else None
  }

  /** The decision table of the status. */
  function StatusOf(gate: Gate, attest: bool, w: GateWorld): GateStatus {
    if !Ran(gate, attest, w) then LaunchFailed
    else if w.launch.timedOut then TimedOut
    else if w.launch.code == Some(0) && InputError(w).None? && ExecutableError(gate, attest, w).None? then Passed
    else Failed
  }

  /** With a missing or changed input the program is not started; when an input changes while it runs, the gate does not
      pass. */
  lemma InputsDecide(c: Codecs, gate: Gate, attest: bool, a: GateAnswers)
    ensures !InputsMatch(c, gate.inputs, a.inputsBefore) ==>
              var w := Seen(c, gate, a);
              !Ran(gate, attest, w) && StatusOf(gate, attest, w) == LaunchFailed && InputError(w).Some?
    ensures !InputsMatch(c, gate.inputs, a.inputsAfter) ==> StatusOf(gate, attest, Seen(c, gate, a)) != Passed
  {
    hide InputsMatch, InputProblemOf;
    InputProblemMeans(c, gate.inputs, a.inputsBefore);
    InputProblemMeans(c, gate.inputs, a.inputsAfter);
  }

  function AppendError(c: Codecs, output: Bytes, error: Option<string>): Bytes {
    match error
    case None => output
    case Some(e) => (if output == [] then [] else output + [10]) + c.utf8(e)
  }

  /** The logs of a gate: its output, and its standard error followed by the recorded errors, one to a line. */
  function GateLogs(c: Codecs, gate: Gate, attest: bool, w: GateWorld): (logs: seq<Bytes>)
    ensures |logs| == 2
  {
    var stderr := AppendError(c, w.stderr, LaunchError(gate, attest, w));
    [w.stdout, AppendError(c, AppendError(c, stderr, InputError(w)), ExecutableError(gate, attest, w))]
  }

  /** What is recorded of one gate, for each answer of the world. */
  ghost predicate GateOutcome(c: Codecs, gate: Gate, o: Options, w: GateWorld, e: GateEvidence) {
    var attest, logs := o.attestExecutables, GateLogs(c, gate, o.attestExecutables, w);
    && e.gate == gate.id && e.execution == gate.execution && e.inputs == gate.inputs
    && e.declaredTargets == gate.targets
    && e.status == StatusOf(gate, attest, w)
    && e.exitCode == ExitCode(gate, attest, w)
    && e.stdout == ArtifactOf(c, logs[0], o.maxTailBytes) && e.stderr == ArtifactOf(c, logs[1], o.maxTailBytes)
    && e.executable == ExecutableOf(gate, attest, w)
    && e.launchError == LaunchError(gate, attest, w) && e.inputError == InputError(w)
    && e.executableError == ExecutableError(gate, attest, w)
  }

  /** Check the inputs, prepare and run the program, and check both again, keeping one status. */
  method RunProgram(c: Codecs, gate: Gate, attest: bool, a: GateAnswers)
    returns (status: GateStatus, exitCode: Option<int>, executable: Option<ExecutableAttestation>,
             launchError: Option<string>, inputError: Option<string>, executableError: Option<string>)
    ensures var w := Seen(c, gate, a);
            && status == StatusOf(gate, attest, w) && exitCode == ExitCode(gate, attest, w)
            && executable == ExecutableOf(gate, attest, w)
            && launchError == LaunchError(gate, attest, w) && inputError == InputError(w)
            && executableError == ExecutableError(gate, attest, w)
  {
    hide InputProblemOf, InputsMatch;
    status, exitCode, executable, launchError, executableError := LaunchFailed, None, None, None, None;
    var before := VerifyGateInputs(c, gate.inputs, a.inputsBefore);
    inputError := ProblemTextOf(before);
    var inputsVerified := inputError.None?;
    var prepared := false;
    var runtime: Option<ResolvedProgram> := None;
    if inputsVerified {
      if gate.execution.Direct? && attest {
        match a.resolution {
          case Ok(program) => prepared, runtime := true, Some(program);
          case Err(e) => executableError := Some(e);
        }
      } else {
        prepared := true;
      }
    }
    if prepared {
      match a.launch {
        case SpawnFailed(e) => launchError := Some(e);
        case Exited(code, timedOut) =>
          status := if timedOut then TimedOut else if code == Some(0) then Passed else Failed;
          exitCode := code;
      }
    }
    if inputsVerified {
      var after := VerifyGateInputs(c, gate.inputs, a.inputsAfter);
      if after.Some? {
        if status == Passed {
          status := Failed;
        }
        inputError := ProblemTextOf(after);
      }
    }
    if runtime.Some? {
      match a.identityAfter {
        case Ok(identity) =>
          if identity != runtime.value.before {
            if status == Passed {
              status := Failed;
            }
            executableError := Some(EXECUTABLE_CHANGED);
          }
          executable := Some(ExecutableAttestation(
            gate.execution.program, runtime.value.invocationPath, runtime.value.resolvedPath, runtime.value.before,
            identity));
        case Err(e) =>
          if status == Passed {
            status := Failed;
          }
          executableError := Some(e);
      }
    }
  }

  /** Execute one gate and store its logs; it fails exactly when a log cannot be stored. */
  method ExecuteGate(dir: OutputDirectory, gate: Gate, o: Options, a: GateAnswers)
    returns (r: Result<GateEvidence, RunError>)
    requires dir.codecs.Sound()
    modifies dir`files
    ensures Extends(old(dir.files), dir.files)
    ensures var logs := GateLogs(dir.codecs, gate, o.attestExecutables, Seen(dir.codecs, gate, a));
            && (r.Ok? <==> Storable(dir.codecs, old(dir.files), logs))
            && (r.Ok? ==> dir.files == StoreLogs(dir.codecs, old(dir.files), logs))
    ensures r.Ok? ==> GateOutcome(dir.codecs, gate, o, Seen(dir.codecs, gate, a), r.value)
    ensures r.Err? ==> r.error.WriteArtifact?
  {
    hide Storable, StoreLogs, ArtifactOf, Verifies, Written, Conflicts, AppendError, Extends, StatusOf, ExitCode,
         ExecutableOf, LaunchError, InputError, ExecutableError;
    var status, exitCode, executable, launchError, inputError, executableError :=
      RunProgram(dir.codecs, gate, o.attestExecutables, a);
    var stderr := AppendError(dir.codecs, a.stderr, launchError);
    stderr := AppendError(dir.codecs, stderr, inputError);
    stderr := AppendError(dir.codecs, stderr, executableError);
    assert GateLogs(dir.codecs, gate, o.attestExecutables, Seen(dir.codecs, gate, a)) == [a.stdout, stderr];
    TwoLogs(dir.codecs, dir.files, a.stdout, stderr);
    GrownByTwo(dir.files, LogOf(dir.codecs, a.stdout), a.stdout, LogOf(dir.codecs, stderr), stderr);
    var out := dir.PersistOutput(a.stdout, o.maxTailBytes);
    if out.None? {
      return Err(WriteArtifact(LogFile(dir.codecs.Sha256(a.stdout))));
    }
    var err := dir.PersistOutput(stderr, o.maxTailBytes);
    if err.None? {
      return Err(WriteArtifact(LogFile(dir.codecs.Sha256(stderr))));
    }
    return Ok(GateEvidence(
      gate.id, gate.execution, gate.inputs, gate.targets, status, exitCode, out.value, err.value, executable,
      launchError, inputError, executableError));
  }

  lemma GrownByTwo(files: Files, path: seq<string>, bytes: Bytes, path': seq<string>, bytes': Bytes)
    ensures var next := Written(files, path, bytes);
            Extends(files, next) && Extends(files, Written(next, path', bytes'))
  {
    var next := Written(files, path, bytes);
    ExtendsFurther(files, next, Written(next, path', bytes'));
  }

  lemma {:induction false} TwoLogs(c: Codecs, files: Files, first: Bytes, second: Bytes)
    ensures var next := Written(files, LogOf(c, first), first);
            && StoreLogs(c, files, [first, second]) == Written(next, LogOf(c, second), second)
            && (Storable(c, files, [first, second]) <==>
                !Conflicts(files, LogOf(c, first), first) && !Conflicts(next, LogOf(c, second), second))
  {
    var next := Written(files, LogOf(c, first), first);
    assert [first, second][1..] == [second] && [second][1..] == [];
    assert StoreLogs(c, next, [second]) == StoreLogs(c, Written(next, LogOf(c, second), second), []);
    assert Storable(c, next, [second]) <==> !Conflicts(next, LogOf(c, second), second);
  }

  // ----- the checkout -----

  const GIT_CHANGED: string := "git executable changed during execution"
  const CHECKOUT_CHANGED: string := "checkout state changed during execution"

  function Preflight(snapshot: GitSnapshot, o: Options): Option<string> {
    if o.expectedRevision.Some? && snapshot.revision != o.expectedRevision.value then
      Some("checkout revision " + snapshot.revision + " does not match expected revision " + o.expectedRevision.value)
    else if o.requireClean && snapshot.dirty then Some("checkout is dirty")
    else None
  }

  datatype CheckoutRuntime = CheckoutRuntime(git: ResolvedProgram, before: GitSnapshot)

  /** The Git that is found and the state it shows before the gates run, or why there is none. */
  ghost function Begin(c: Codecs, w: World): Result<CheckoutRuntime, string> {
    match w.git
    case Err(e) => Err(e)
    case Ok(git) =>
      match Capture(c, git.invocationPath, w.before)
      case Ok(snapshot) => Ok(CheckoutRuntime(git, snapshot))
      case Err(e) => Err(e.Text())
  }

  method BeginCheckout(c: Codecs, w: World) returns (r: Result<CheckoutRuntime, string>)
    ensures r == Begin(c, w)
  {
    if w.git.Err? {
      return Err(w.git.error);
    }
    var before := CaptureSnapshot(c, w.git.value.invocationPath, w.before);
    match before {
      case Ok(snapshot) => return Ok(CheckoutRuntime(w.git.value, snapshot));
      case Err(e) => return Err(e.Text());
    }
  }

  function BeginError(o: Options, begin: Result<CheckoutRuntime, string>): Option<string> {
    match begin case Ok(runtime) => Preflight(runtime.before, o) case Err(e) => Some(e)
  }

  /** The error found before any gate runs. */
  ghost function PreflightError(c: Codecs, o: Options, w: World): Option<string> {
    if o.attestCheckout then BeginError(o, Begin(c, w)) else None
  }

  function PushError(error: Option<string>, current: string): Option<string> {
    match error case Some(e) => Some(e + "; " + current) case None => Some(current)
  }

  function PushErrors(error: Option<string>, errors: seq<string>): Option<string>
    decreases |errors|
  {
    if errors == [] then error else PushErrors(PushError(error, errors[0]), errors[1..])
  }

  /** The state after the gates. */
  ghost function AfterOf(c: Codecs, runtime: CheckoutRuntime, w: World): Result<GitSnapshot, CaptureError> {
    Capture(c, runtime.git.invocationPath, w.after)
  }

  /** The errors the end of the run adds, in order. */
  function FinishErrors(
    runtime: CheckoutRuntime, gitAfter: Result<FileIdentity, string>, after: Result<GitSnapshot, CaptureError>)
    : seq<string>
  {
    (match gitAfter case Ok(_) => [] case Err(e) => [e]) +
    (match after case Ok(_) => [] case Err(e) => [e.Text()]) +
    (if gitAfter.Ok? && gitAfter.value != runtime.git.before then [GIT_CHANGED] else []) +
    (if after.Ok? && after.value != runtime.before then [CHECKOUT_CHANGED] else [])
  }

  function GitAttestation(git: ResolvedProgram, after: Result<FileIdentity, string>): Option<ExecutableAttestation> {
    match after
    case Ok(identity) =>
      Some(ExecutableAttestation("git", git.invocationPath, git.resolvedPath, git.before, identity))
    case Err(_) => None
  }

  ghost predicate CheckoutOutcome(c: Codecs, o: Options, w: World, a: CheckoutAttestation) {
    match Begin(c, w)
    case Err(e) => a == CheckoutAttestation(None, None, None, Some(e))
    case Ok(runtime) =>
      && a.before == Some(runtime.before)
      && a.after == (match AfterOf(c, runtime, w) case Ok(s) => Some(s) case Err(_) => None)
      && a.git == GitAttestation(runtime.git, w.gitAfter)
      && a.error == PushErrors(Preflight(runtime.before, o), FinishErrors(runtime, w.gitAfter, AfterOf(c, runtime, w)))
  }

  method FinishCheckout(c: Codecs, o: Options, w: World, begin: Result<CheckoutRuntime, string>)
    returns (a: CheckoutAttestation)
    requires begin == Begin(c, w)
    ensures CheckoutOutcome(c, o, w, a)
  {
    hide Complete, SnapshotOf, FailureOf, Preflight;
    var error := BeginError(o, begin);
    if begin.Err? {
      return CheckoutAttestation(None, None, None, error);
    }
    var runtime := begin.value;
    ghost var first, errors: seq<string> := error, [];
    if w.gitAfter.Err? {
      PushErrorsSnoc(first, errors, w.gitAfter.error);
      error, errors := PushError(error, w.gitAfter.error), errors + [w.gitAfter.error];
    }
    var after := CaptureSnapshot(c, runtime.git.invocationPath, w.after);
    if after.Err? {
      PushErrorsSnoc(first, errors, after.error.Text());
      error, errors := PushError(error, after.error.Text()), errors + [after.error.Text()];
    }
    if w.gitAfter.Ok? && w.gitAfter.value != runtime.git.before {
      PushErrorsSnoc(first, errors, GIT_CHANGED);
      error, errors := PushError(error, GIT_CHANGED), errors + [GIT_CHANGED];
    }
    if after.Ok? && after.value != runtime.before {
      PushErrorsSnoc(first, errors, CHECKOUT_CHANGED);
      error, errors := PushError(error, CHECKOUT_CHANGED), errors + [CHECKOUT_CHANGED];
    }
    assert errors == FinishErrors(runtime, w.gitAfter, after);
    return CheckoutAttestation(
      GitAttestation(runtime.git, w.gitAfter), Some(runtime.before),
      match after case Ok(s) => Some(s) case Err(_) => None, error);
  }

  lemma {:induction false} PushErrorsSnoc(error: Option<string>, errors: seq<string>, current: string)
    ensures PushErrors(error, errors + [current]) == PushError(PushErrors(error, errors), current)
    decreases |errors|
  {
    if errors == [] {
      assert ([] + [current])[1..] == [];
    } else {
      assert (errors + [current])[1..] == errors[1..] + [current];
      PushErrorsSnoc(PushError(error, errors[0]), errors[1..], current);
    }
  }

  // ----- a whole run -----

  predicate ValidOptions(o: Options) {
    && (!o.attestCheckout ==> o.expectedRevision.None? && !o.requireClean)
    && (o.expectedRevision.Some? ==> Trimmed(o.expectedRevision.value))
  }

  function GateIds(gates: seq<Gate>): seq<string> {
    seq(|gates|, i requires 0 <= i < |gates| => gates[i].id)
  }

  predicate AllPassed(gates: seq<GateEvidence>) {
    forall i :: 0 <= i < |gates| ==> gates[i].status == Passed
  }

  /** The first gates ran in order, and the run stopped behind a failing one only when told to fail fast. */
  ghost predicate RanPrefix(c: Codecs, gates: seq<Gate>, o: Options, w: World, evidence: seq<GateEvidence>) {
    && |evidence| <= |gates|
    && (forall i :: 0 <= i < |evidence| ==> GateOutcome(c, gates[i], o, SeenAt(c, w, gates[i]), evidence[i]))
    && (forall i :: 0 <= i < |evidence| - 1 ==> !o.failFast || evidence[i].status == Passed)
  }

  ghost predicate GatesOutcome(
    c: Codecs, gates: seq<Gate>, o: Options, w: World, evidence: seq<GateEvidence>, skipped: seq<string>)
  {
    if PreflightError(c, o, w).Some? then evidence == [] && skipped == GateIds(gates)
    else
      && RanPrefix(c, gates, o, w, evidence) && skipped == GateIds(gates[|evidence|..])
      && (|evidence| < |gates| ==> o.failFast && evidence != [] && evidence[|evidence| - 1].status != Passed)
  }

  /** The bundle is what a run on the selected gates records. */
  ghost predicate IsRun(
    c: Codecs, m: Manifest, manifestSha: string, o: Options, w: World, gates: seq<Gate>, b: Bundle)
  {
    && IsSelection(m, o, gates)
    && b.schemaVersion == SCHEMA_VERSION && b.project == m.project && b.baseline == m.baseline
    && b.manifestSha256 == manifestSha && b.stamp == w.stamp && b.failFast == o.failFast
    && b.policy == Policy(o.attestCheckout, o.requireClean, o.expectedRevision, o.attestExecutables)
    && b.selected == GateIds(gates) && GatesOutcome(c, gates, o, w, b.gates, b.skipped)
    && b.checkout.Some? == o.attestCheckout && (o.attestCheckout ==> CheckoutOutcome(c, o, w, b.checkout.value))
    && (b.passed <==> (b.checkout.Some? ==> b.checkout.value.error.None?) && b.skipped == [] &&
                      |b.gates| == |gates| && AllPassed(b.gates))
  }

  /** The logs of the gates that a run reaches, in order. */
  function ReachedLogs(c: Codecs, gates: seq<Gate>, o: Options, w: World): seq<Bytes>
    decreases |gates|
  {
    if gates == [] then []
    else
      var answers := SeenAt(c, w, gates[0]);
      GateLogs(c, gates[0], o.attestExecutables, answers) +
      if o.failFast && StatusOf(gates[0], o.attestExecutables, answers) != Passed then []
      else ReachedLogs(c, gates[1..], o, w)
  }

  ghost function RunLogs(c: Codecs, gates: seq<Gate>, o: Options, w: World): seq<Bytes> {
    if PreflightError(c, o, w).Some? then [] else ReachedLogs(c, gates, o, w)
  }

  /** The logs of all gates of the bundle. */
  ghost predicate AllLogsVerify(c: Codecs, files: Files, evidence: seq<GateEvidence>) {
    forall i :: 0 <= i < |evidence| ==> Verifies(c, files, evidence[i].stdout) && Verifies(c, files, evidence[i].stderr)
  }

  lemma LogsVerifyInExtension(c: Codecs, files: Files, files': Files, evidence: seq<GateEvidence>)
    requires Extends(files, files') && AllLogsVerify(c, files, evidence)
    ensures AllLogsVerify(c, files', evidence)
  {
    forall i | 0 <= i < |evidence|
      ensures Verifies(c, files', evidence[i].stdout) && Verifies(c, files', evidence[i].stderr)
    {
      VerifiesInExtension(c, files, files', evidence[i].stdout);
      VerifiesInExtension(c, files, files', evidence[i].stderr);
    }
  }

  lemma {:induction false} OutcomeLogsVerify(c: Codecs, files: Files, gate: Gate, o: Options, w: GateWorld,
      e: GateEvidence)
    requires c.Sound() && GateOutcome(c, gate, o, w, e) && Storable(c, files, GateLogs(c, gate, o.attestExecutables, w))
    ensures var stored := StoreLogs(c, files, GateLogs(c, gate, o.attestExecutables, w));
            Verifies(c, stored, e.stdout) && Verifies(c, stored, e.stderr)
  {
    var logs := GateLogs(c, gate, o.attestExecutables, w);
    StoreLogsGrows(c, files, logs);
    assert logs[0] in logs && logs[1] in logs;
    StoredLogVerifies(c, StoreLogs(c, files, logs), logs[0], o.maxTailBytes);
    StoredLogVerifies(c, StoreLogs(c, files, logs), logs[1], o.maxTailBytes);
  }

  /** How far the gates have come: the logs so far are stored and verify, and they are followed by those of the rest. */
  ghost predicate Underway(
    c: Codecs, start: Files, files: Files, gates: seq<Gate>, o: Options, w: World, evidence: seq<GateEvidence>,
    done: seq<Bytes>)
  {
    && |evidence| <= |gates| && ReachedLogs(c, gates, o, w) == done + ReachedLogs(c, gates[|evidence|..], o, w)
    && Storable(c, start, done) && files == StoreLogs(c, start, done)
    && RanPrefix(c, gates, o, w, evidence) && (o.failFast ==> AllPassed(evidence)) && AllLogsVerify(c, files, evidence)
  }

  /** Run the gates in order; it fails exactly when a log of a reached gate cannot be stored. */
  method ExecuteAll(dir: OutputDirectory, gates: seq<Gate>, o: Options, w: World)
    returns (r: Result<(seq<GateEvidence>, seq<string>), RunError>)
    requires dir.codecs.Sound() && PreflightError(dir.codecs, o, w).None?
    modifies dir`files
    ensures Extends(old(dir.files), dir.files)
    ensures r.Ok? <==> Storable(dir.codecs, old(dir.files), ReachedLogs(dir.codecs, gates, o, w))
    ensures r.Ok? ==> GatesOutcome(dir.codecs, gates, o, w, r.value.0, r.value.1)
    ensures r.Ok? ==> dir.files == StoreLogs(dir.codecs, old(dir.files), ReachedLogs(dir.codecs, gates, o, w))
    ensures r.Ok? ==> AllLogsVerify(dir.codecs, dir.files, r.value.0)
    ensures r.Err? ==> r.error.WriteArtifact?
  {
    hide GateOutcome, GateLogs, Storable, StoreLogs, Verifies, PreflightError, ReachedLogs, StatusOf;
    ghost var start := dir.files;
    var evidence: seq<GateEvidence> := [];
    ghost var done: seq<Bytes> := [];
    UnderwayStart(dir.codecs, start, gates, o, w);
    for i := 0 to |gates|
      invariant |evidence| == i && Underway(dir.codecs, start, dir.files, gates, o, w, evidence, done)
      invariant Extends(start, dir.files)
    {
      ghost var before := dir.files;
      var executed := ExecuteGate(dir, gates[i], o, w.gates(gates[i].id));
      UnderwayNext(dir.codecs, start, before, gates, o, w, evidence, done);
      if executed.Err? {
        return Err(executed.error);
      }
      UnderwayStep(dir.codecs, start, before, gates, o, w, evidence, done, executed.value);
      done := done + GateLogs(dir.codecs, gates[i], o.attestExecutables, SeenAt(dir.codecs, w, gates[i]));
      evidence := evidence + [executed.value];
      if o.failFast && executed.value.status != Passed {
        return Ok((evidence, GateIds(gates[i + 1..])));
      }
    }
    UnderwayEnd(dir.codecs, start, dir.files, gates, o, w, evidence, done);
    return Ok((evidence, []));
  }

  lemma {:induction false} UnderwayStart(c: Codecs, start: Files, gates: seq<Gate>, o: Options, w: World)
    ensures Underway(c, start, start, gates, o, w, [], [])
  {
    assert gates[0..] == gates;
  }

  /** The logs still to be stored when a gate is up. */
  lemma {:induction false} UnderwayNext(
    c: Codecs, start: Files, files: Files, gates: seq<Gate>, o: Options, w: World, evidence: seq<GateEvidence>,
    done: seq<Bytes>)
    requires Underway(c, start, files, gates, o, w, evidence, done) && |evidence| < |gates|
    ensures var gate := gates[|evidence|];
            Storable(c, start, ReachedLogs(c, gates, o, w)) ==>
              Storable(c, files, GateLogs(c, gate, o.attestExecutables, SeenAt(c, w, gate)))
  {
    var gate := gates[|evidence|];
    var logs := GateLogs(c, gate, o.attestExecutables, SeenAt(c, w, gate));
    var rest := ReachedLogs(c, gates[|evidence|..], o, w);
    assert gates[|evidence|..][0] == gate;
    StoreLogsAppend(c, start, done, rest);
    assert rest == logs + rest[2..];
    StoreLogsAppend(c, files, logs, rest[2..]);
  }

  lemma {:induction false} SplitAt(a: seq<Bytes>, b: seq<Bytes>, c: seq<Bytes>)
    ensures a + (b + c) == (a + b) + c
    ensures b + [] == b
  {
  }

  /** The logs behind a gate: nothing more, or those of the other gates. */
  lemma {:induction false} ReachedStep(
    c: Codecs, start: Files, before: Files, gates: seq<Gate>, o: Options, w: World, evidence: seq<GateEvidence>,
    done: seq<Bytes>)
    requires Underway(c, start, before, gates, o, w, evidence, done) && |evidence| < |gates|
    requires var gate := gates[|evidence|];
             Storable(c, before, GateLogs(c, gate, o.attestExecutables, SeenAt(c, w, gate)))
    ensures var gate := gates[|evidence|];
            var logs := GateLogs(c, gate, o.attestExecutables, SeenAt(c, w, gate));
            && Storable(c, start, done + logs) && StoreLogs(c, before, logs) == StoreLogs(c, start, done + logs)
            && ReachedLogs(c, gates, o, w) ==
               if o.failFast && StatusOf(gate, o.attestExecutables, SeenAt(c, w, gate)) != Passed then done + logs
               else (done + logs) + ReachedLogs(c, gates[|evidence| + 1..], o, w)
  {
    hide RanPrefix, AllLogsVerify, AllPassed, StatusOf, GateLogs, Storable, StoreLogs, ReachedLogs;
    var gate, rest := gates[|evidence|], gates[|evidence| + 1..];
    var logs := GateLogs(c, gate, o.attestExecutables, SeenAt(c, w, gate));
    StoreLogsAppend(c, start, done, logs);
    ReachedFrom(c, gates[|evidence|..], o, w);
    assert gates[|evidence|..][1..] == rest;
    SplitAt(done, logs, ReachedLogs(c, rest, o, w));
  }

  /** Behind a gate the run goes on, or it stops and has stored all logs it reaches. */
  lemma {:induction false} UnderwayStep(
    c: Codecs, start: Files, before: Files, gates: seq<Gate>, o: Options, w: World, evidence: seq<GateEvidence>,
    done: seq<Bytes>, e: GateEvidence)
    requires Underway(c, start, before, gates, o, w, evidence, done) && |evidence| < |gates| && c.Sound()
    requires var gate := gates[|evidence|];
             && GateOutcome(c, gate, o, SeenAt(c, w, gate), e)
             && Storable(c, before, GateLogs(c, gate, o.attestExecutables, SeenAt(c, w, gate)))
    ensures var gate := gates[|evidence|];
            var logs := GateLogs(c, gate, o.attestExecutables, SeenAt(c, w, gate));
            var files := StoreLogs(c, before, logs);
            && Extends(before, files) && AllLogsVerify(c, files, evidence + [e])
            && RanPrefix(c, gates, o, w, evidence + [e])
            && (if o.failFast && e.status != Passed
                then Storable(c, start, ReachedLogs(c, gates, o, w)) &&
                    files == StoreLogs(c, start, ReachedLogs(c, gates, o, w))
                else Underway(c, start, files, gates, o, w, evidence + [e], done + logs))
  {
    hide RanPrefix, AllLogsVerify, AllPassed, StatusOf, GateLogs, Storable, StoreLogs, ReachedLogs, GateOutcome,
         Extends;
    var gate := gates[|evidence|];
    RanPrefixSnoc(c, gates, o, w, evidence, e);
    LogsVerifySnoc(c, before, gate, o, SeenAt(c, w, gate), evidence, e);
    ReachedStep(c, start, before, gates, o, w, evidence, done);
    OutcomeStatus(c, gate, o, SeenAt(c, w, gate), e);
  }

  lemma OutcomeStatus(c: Codecs, gate: Gate, o: Options, w: GateWorld, e: GateEvidence)
    requires GateOutcome(c, gate, o, w, e)
    ensures e.status == StatusOf(gate, o.attestExecutables, w)
  {
  }

  lemma {:induction false} ReachedFrom(c: Codecs, gates: seq<Gate>, o: Options, w: World)
    requires gates != []
    ensures var answers := SeenAt(c, w, gates[0]);
            ReachedLogs(c, gates, o, w) ==
            GateLogs(c, gates[0], o.attestExecutables, answers) +
            if o.failFast && StatusOf(gates[0], o.attestExecutables, answers) != Passed then []
            else ReachedLogs(c, gates[1..], o, w)
  {
  }

  lemma {:induction false} UnderwayEnd(
    c: Codecs, start: Files, files: Files, gates: seq<Gate>, o: Options, w: World, evidence: seq<GateEvidence>,
    done: seq<Bytes>)
    requires Underway(c, start, files, gates, o, w, evidence, done) && |evidence| == |gates|
    ensures ReachedLogs(c, gates, o, w) == done
    ensures gates[|evidence|..] == [] && GateIds(gates[|evidence|..]) == []
  {
    assert gates[|evidence|..] == [];
    assert done + [] == done;
  }

  lemma {:induction false} LogsVerifySnoc(
    c: Codecs, files: Files, gate: Gate, o: Options, w: GateWorld, evidence: seq<GateEvidence>, e: GateEvidence)
    requires c.Sound() && AllLogsVerify(c, files, evidence) && GateOutcome(c, gate, o, w, e)
    requires Storable(c, files, GateLogs(c, gate, o.attestExecutables, w))
    ensures var stored := StoreLogs(c, files, GateLogs(c, gate, o.attestExecutables, w));
            Extends(files, stored) && AllLogsVerify(c, stored, evidence + [e])
  {
    var logs := GateLogs(c, gate, o.attestExecutables, w);
    StoreLogsGrows(c, files, logs);
    LogsVerifyInExtension(c, files, StoreLogs(c, files, logs), evidence);
    OutcomeLogsVerify(c, files, gate, o, w, e);
  }

  lemma RanPrefixSnoc(c: Codecs, gates: seq<Gate>, o: Options, w: World, evidence: seq<GateEvidence>, e: GateEvidence)
    requires RanPrefix(c, gates, o, w, evidence) && (o.failFast ==> AllPassed(evidence)) && |evidence| < |gates|
    requires GateOutcome(c, gates[|evidence|], o, SeenAt(c, w, gates[|evidence|]), e)
    ensures RanPrefix(c, gates, o, w, evidence + [e])
    ensures (o.failFast ==> e.status == Passed) ==> (o.failFast ==> AllPassed(evidence + [e]))
  {
    hide GateOutcome;
  }

  function EvidenceFile(digest: string): seq<string> {
    ["evidence", digest + ".json"]
  }

  /** The options are valid, there is a directory to run in, and there are gates to run. */
  ghost predicate Runnable(m: Manifest, o: Options, w: World) {
    ValidOptions(o) && w.workdirIsDirectory && Selectable(m, o)
  }

  /** The encoded bundle finds its path free or holding the same bytes. */
  ghost predicate BundleStorable(c: Codecs, files: Files, b: Bundle) {
    !Conflicts(files, EvidenceFile(c.Sha256(c.encode(b))), c.encode(b))
  }

  /** Run the selected gates between the two looks at the checkout, and make the bundle of the run. */
  method RecordRun(dir: OutputDirectory, m: Manifest, manifestSha: string, o: Options, w: World, gates: seq<Gate>)
    returns (r: Result<Bundle, RunError>)
    requires dir.codecs.Sound() && IsSelection(m, o, gates)
    modifies dir`files
    ensures Extends(old(dir.files), dir.files)
    ensures r.Ok? <==> Storable(dir.codecs, old(dir.files), RunLogs(dir.codecs, gates, o, w))
    ensures r.Ok? ==> IsRun(dir.codecs, m, manifestSha, o, w, gates, r.value)
    ensures r.Ok? ==> dir.files == StoreLogs(dir.codecs, old(dir.files), RunLogs(dir.codecs, gates, o, w))
    ensures r.Ok? ==> AllLogsVerify(dir.codecs, dir.files, r.value.gates)
    ensures r.Err? ==> r.error.WriteArtifact?
  {
    hide GatesOutcome, CheckoutOutcome, IsSelection, Storable, StoreLogs, RunLogs, Begin, IsRun, AllLogsVerify, Extends,
         AllPassed, GateIds;
    ExtendsItself(dir.files);
    var begin: Result<CheckoutRuntime, string> := Err("");
    var preflight: Option<string> := None;
    if o.attestCheckout {
      begin := BeginCheckout(dir.codecs, w);
      preflight := BeginError(o, begin);
    }
    var evidence: seq<GateEvidence>, skipped: seq<string> := [], GateIds(gates);
    NothingRun(dir.codecs, dir.files, gates, o, w);
    if preflight.None? {
      var executed := ExecuteAll(dir, gates, o, w);
      if executed.Err? {
        return Err(executed.error);
      }
      evidence, skipped := executed.value.0, executed.value.1;
    }
    var checkout: Option<CheckoutAttestation> := None;
    if o.attestCheckout {
      var a := FinishCheckout(dir.codecs, o, w, begin);
      checkout := Some(a);
    }
    var passed := (checkout.Some? ==> checkout.value.error.None?) && skipped == [] &&
                  |evidence| == |gates| && AllPassed(evidence);
    var policy := Policy(o.attestCheckout, o.requireClean, o.expectedRevision, o.attestExecutables);
    var bundle := Bundle(
      SCHEMA_VERSION, m.project, m.baseline, manifestSha, w.stamp, policy, checkout,
      GateIds(gates), skipped, o.failFast, passed, evidence);
    RunRecorded(dir.codecs, m, manifestSha, o, w, gates, bundle);
    return Ok(bundle);
  }

  /** Run the selected gates and store the evidence. The errors come in order: options, directory, selection, and then a
      path named by a digest that holds other bytes. The directory only grows, even when the run fails. */
  method RunGates(dir: OutputDirectory, m: Manifest, manifestBytes: Bytes, o: Options, w: World)
    returns (r: Result<(string, Bundle), RunError>, ghost gates: seq<Gate>, ghost bundle: Bundle)
    requires dir.codecs.Sound()
    modifies dir`files
    ensures Extends(old(dir.files), dir.files)
    ensures r == Err(InvalidAttestationOptions) <==> !ValidOptions(o)
    ensures !ValidOptions(o) <==>
              || (!o.attestCheckout && (o.requireClean || o.expectedRevision.Some?))
              || (o.expectedRevision.Some? && !Trimmed(o.expectedRevision.value))
    ensures r == Err(InvalidWorkdir) <==> ValidOptions(o) && !w.workdirIsDirectory
    ensures r.Err? && r.error.OfSelection() <==> ValidOptions(o) && w.workdirIsDirectory && !Selectable(m, o)
    ensures r.Err? && r.error.OfSelection() ==> SelectionFails(m, o, r.error)
    ensures Runnable(m, o, w) ==> IsSelection(m, o, gates)
    ensures Runnable(m, o, w) && Storable(dir.codecs, old(dir.files), RunLogs(dir.codecs, gates, o, w)) ==>
              IsRun(dir.codecs, m, dir.codecs.Sha256(manifestBytes), o, w, gates, bundle)
    ensures r.Err? && r.error.WriteArtifact? <==>
            Runnable(m, o, w) &&
            !(Storable(dir.codecs, old(dir.files), RunLogs(dir.codecs, gates, o, w)) &&
              BundleStorable(dir.codecs, old(dir.files), bundle))
    ensures r.Ok? ==> r.value == (dir.codecs.Sha256(dir.codecs.encode(bundle)), bundle)
    ensures r.Ok? ==> AllLogsVerify(dir.codecs, dir.files, bundle.gates)
    ensures r.Ok? ==> Holds(dir.files, EvidenceFile(r.value.0), dir.codecs.encode(bundle))
    ensures r.Ok? ==> ["evidence", r.value.0 + ".json"] in dir.files
  {
    hide IsSelection, Selectable, SelectionFails, Storable, StoreLogs, RunLogs, IsRun, AllLogsVerify, Extends, Written,
         Trimmed;
    gates, bundle := [], NoBundle(w);
    ExtendsItself(dir.files);
    if !o.attestCheckout && (o.expectedRevision.Some? || o.requireClean) {
      return Err(InvalidAttestationOptions), gates, bundle;
    }
    if o.expectedRevision.Some? && !Trimmed(o.expectedRevision.value) {
      return Err(InvalidAttestationOptions), gates, bundle;
    }
    if !w.workdirIsDirectory {
      return Err(InvalidWorkdir), gates, bundle;
    }
    var selection := SelectGates(m, o);
    if selection.Err? {
      FailsInSelection(m, o, selection.error);
      return Err(selection.error), gates, bundle;
    }
    gates := selection.value;
    var recorded := RecordRun(dir, m, dir.codecs.Sha256(manifestBytes), o, w, selection.value);
    if recorded.Err? {
      return Err(recorded.error), gates, bundle;
    }
    bundle := recorded.value;
    var encoded := dir.codecs.encode(recorded.value);
    var digest := dir.codecs.Sha256(encoded);
    ghost var before := dir.files;
    BundleBesideLogs(dir.codecs, old(dir.files), RunLogs(dir.codecs, gates, o, w), bundle);
    var ok := dir.WriteContentAddressed(EvidenceFile(digest), encoded);
    ExtendsFurther(old(dir.files), before, dir.files);
    if !ok {
      return Err(WriteArtifact(EvidenceFile(digest))), gates, bundle;
    }
    LogsVerifyInExtension(dir.codecs, before, dir.files, bundle.gates);
    return Ok((digest, recorded.value)), gates, bundle;
  }

  lemma RunRecorded(
    c: Codecs, m: Manifest, manifestSha: string, o: Options, w: World, gates: seq<Gate>, b: Bundle)
    requires IsSelection(m, o, gates) && GatesOutcome(c, gates, o, w, b.gates, b.skipped)
    requires b.checkout.Some? == o.attestCheckout && (o.attestCheckout ==> CheckoutOutcome(c, o, w, b.checkout.value))
    requires var policy := Policy(o.attestCheckout, o.requireClean, o.expectedRevision, o.attestExecutables);
             var passed := (b.checkout.Some? ==> b.checkout.value.error.None?) && b.skipped == [] &&
                           |b.gates| == |gates| && AllPassed(b.gates);
             b == Bundle(SCHEMA_VERSION, m.project, m.baseline, manifestSha, w.stamp, policy, b.checkout,
                         GateIds(gates), b.skipped, o.failFast, passed, b.gates)
    ensures IsRun(c, m, manifestSha, o, w, gates, b)
  {
    hide IsSelection, GatesOutcome, CheckoutOutcome;
  }

  ghost function NoBundle(w: World): Bundle {
    Bundle(0, "", "", "", w.stamp, Policy(false, false, None, false), None, [], [], false, false, [])
  }

  lemma FailsInSelection(m: Manifest, o: Options, e: RunError)
    requires SelectionFails(m, o, e)
    ensures e.OfSelection()
  {
  }

  lemma {:induction false} NothingRun(c: Codecs, files: Files, gates: seq<Gate>, o: Options, w: World)
    ensures if PreflightError(c, o, w).Some?
            then GatesOutcome(c, gates, o, w, [], GateIds(gates)) && RunLogs(c, gates, o, w) == []
            else RunLogs(c, gates, o, w) == ReachedLogs(c, gates, o, w)
    ensures Storable(c, files, []) && StoreLogs(c, files, []) == files
    ensures AllLogsVerify(c, files, [])
  {
  }

  /** The evidence file is none of the logs. */
  lemma {:induction false} BundleBesideLogs(c: Codecs, files: Files, logs: seq<Bytes>, b: Bundle)
    ensures BundleStorable(c, StoreLogs(c, files, logs), b) <==> BundleStorable(c, files, b)
  {
    forall log | log in logs ensures LogOf(c, log) != EvidenceFile(c.Sha256(c.encode(b))) {
      assert LogOf(c, log)[0] == "logs" && "logs"[0] == 'l';
      assert EvidenceFile(c.Sha256(c.encode(b)))[0] == "evidence" && "evidence"[0] == 'e';
    }
    StoreLogsElsewhere(c, files, logs, EvidenceFile(c.Sha256(c.encode(b))), c.encode(b));
  }
}
