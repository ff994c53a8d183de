/** What accepted evidence means, and when evidence of a run is accepted. */
module EvidenceTheorems {
  import opened Wrappers
  import opened Ordering
  import opened ManifestModel
  import opened EvidenceModel
  import opened Texts
  import opened EvidenceStore
  import opened GateInputs
  import opened GitStatus
  import opened EvidenceRun
  import opened EvidenceVerify
  import opened Graphs
  import Validation

  // ----- soundness: what a passing, accepted bundle shows -----

  /** The gate of the manifest ran to a clean exit, its logs are stored, and its executable did not change. */
  ghost predicate CleanPass(c: Codecs, m: Manifest, files: Files, p: Policy, g: GateEvidence) {
    && m.FindGate(g.gate).Some? && SameDefinition(m.FindGate(g.gate).value, g)
    && g.status == Passed && g.exitCode == Some(0)
    && g.launchError.None? && g.inputError.None? && g.executableError.None?
    && Verifies(c, files, g.stdout) && Verifies(c, files, g.stderr)
    && (p.executables && g.execution.Direct? ==>
          && g.executable.Some? && g.executable.value.requestedProgram == g.execution.program
          && g.executable.value.before == g.executable.value.after)
  }

  lemma PassedGateIsClean(c: Codecs, m: Manifest, files: Files, p: Policy, g: GateEvidence)
    requires GateError(p, g).None? && GateMatches(c, m, files, g) && g.status == Passed
    ensures CleanPass(c, m, files, p, g)
  {
  }

  lemma PassingEvidence(c: Codecs, m: Manifest, manifestSha: string, files: Files, b: Bundle)
    requires Accepts(c, m, manifestSha, files, b) && b.passed
    ensures b.skipped == [] && |b.gates| == |b.selected|
    ensures NoDuplicates(b.selected) && forall id :: id in b.selected <==> id in ExecutedIds(b.gates)
    ensures forall i :: 0 <= i < |b.gates| ==> CleanPass(c, m, files, b.policy, b.gates[i])
    ensures b.policy.checkout ==>
              && b.checkout.Some? && b.checkout.value.error.None? && CheckoutUnchanged(b.policy, b.checkout.value)
  {
    forall i | 0 <= i < |b.gates| ensures CleanPass(c, m, files, b.policy, b.gates[i]) {
      AllMatchElement(c, m, files, b.gates, i);
      PassedGateIsClean(c, m, files, b.policy, b.gates[i]);
    }
  }

  // ----- what a name binds -----

  /** Two different byte strings with one digest. */
  predicate Collide(c: Codecs, a: Bytes, b: Bytes) {
    a != b && c.Sha256(a) == c.Sha256(b)
  }

  predicate SameBytes(c: Codecs, a: Bytes, b: Bytes) {
    a == b || Collide(c, a, b)
  }

  ghost predicate SameLog(c: Codecs, files: Files, files': Files, a: OutputArtifact) {
    var path := Components(a.path);
    path in files && path in files' && SameBytes(c, files[path], files'[path])
  }

  /** Both manifests define the gate, in the same way. */
  ghost predicate SameGate(m: Manifest, m': Manifest, id: string) {
    && m.FindGate(id).Some? && m'.FindGate(id).Some?
    && m.FindGate(id).value == m'.FindGate(id).value
  }

  lemma MatchBinds(c: Codecs, m: Manifest, m': Manifest, files: Files, files': Files, g: GateEvidence)
    requires GateMatches(c, m, files, g) && GateMatches(c, m', files', g)
    ensures SameGate(m, m', g.gate) && SameLog(c, files, files', g.stdout) && SameLog(c, files, files', g.stderr)
  {
  }

  /** Evidence that is accepted twice under one name: but for colliding digests, it has the same bytes, was checked
      against the same manifest, and every executed gate has the same definition and the same logs. */
  lemma AcceptanceBinds(
    c: Codecs, stem: string, m: Manifest, manifestBytes: Bytes, encoded: Bytes, files: Files,
    m': Manifest, manifestBytes': Bytes, encoded': Bytes, files': Files)
    requires Accepted(c, m, manifestBytes, stem, encoded, files)
    requires Accepted(c, m', manifestBytes', stem, encoded', files')
    ensures SameBytes(c, encoded, encoded')
    ensures encoded == encoded' ==> SameBytes(c, manifestBytes, manifestBytes')
    ensures encoded == encoded' ==>
              m.project == m'.project && m.baseline == m'.baseline &&
              forall g :: g in c.decode(encoded).value.gates ==>
                SameGate(m, m', g.gate) && SameLog(c, files, files', g.stdout) && SameLog(c, files, files', g.stderr)
  {
    hide GateMatches, SameGate, SameLog, AllMatch;
    var gates := c.decode(encoded).value.gates;
    if encoded == encoded' {
      forall g | g in gates
        ensures SameGate(m, m', g.gate) && SameLog(c, files, files', g.stdout) && SameLog(c, files, files', g.stderr)
      {
        var i :| 0 <= i < |gates| && gates[i] == g;
        AllMatchElement(c, m, files, gates, i);
        AllMatchElement(c, m', files', gates, i);
        MatchBinds(c, m, m', files, files', g);
      }
    }
  }

  // ----- agreement: evidence of a run against the verifier -----

  predicate ProperProgram(r: Result<ResolvedProgram, string>) {
    match r
    case Ok(p) => ValidPath(p.invocationPath) && ValidPath(p.resolvedPath) && IsSha256(p.before.sha256)
    case Err(e) => Trimmed(e)
  }

  predicate ProperIdentity(r: Result<FileIdentity, string>) {
    match r case Ok(identity) => IsSha256(identity.sha256) case Err(e) => Trimmed(e)
  }

  /** The file system and the process launcher give absolute paths, digests and trimmed errors. */
  ghost predicate ProperGate(gate: Gate, attest: bool, a: GateAnswers) {
    && ProperInputs(gate.inputs, a.inputsBefore) && ProperInputs(gate.inputs, a.inputsAfter)
    && (a.launch.SpawnFailed? ==> Trimmed(a.launch.error))
    && (Attested(gate, attest) ==> ProperProgram(a.resolution) && ProperIdentity(a.identityAfter))
  }

  /** The same of the checkout; of Git itself nothing is assumed. */
  ghost predicate ProperCheckout(w: World) {
    ProperProgram(w.git) && ProperAnswers(w.before) && ProperIdentity(w.gitAfter) && ProperAnswers(w.after)
  }

  /** The recorded submodule lines of this run collide with nothing. */
  predicate NoCollisions(c: Codecs, w: World) {
    NoCollision(c, w.before) && NoCollision(c, w.after)
  }

  /** The gates have the input digests a manifest must have to be loaded, and the operating system's answers are
      proper. */
  ghost predicate ProperWorld(c: Codecs, o: Options, gates: seq<Gate>, w: World) {
    && (o.attestCheckout ==> ProperCheckout(w) && NoCollisions(c, w))
    && forall i :: 0 <= i < |gates| ==>
                     ValidDigests(gates[i].inputs) && ProperGate(gates[i], o.attestExecutables, w.gates(gates[i].id))
  }

  /** The inputs of a gate do not match before its program is resolved although the program must be attested. */
  predicate UnattestedInputFailure(c: Codecs, gate: Gate, attest: bool, a: GateAnswers) {
    Attested(gate, attest) && !InputsMatch(c, gate.inputs, a.inputsBefore)
  }

  /** The manifest names the attested program without surrounding whitespace, and its file is empty neither before nor
      after the gate. */
  predicate ProgramRecordable(gate: Gate, attest: bool, a: GateAnswers) {
    Attested(gate, attest) && a.resolution.Ok? && a.identityAfter.Ok? ==>
      Trimmed(gate.execution.program) && a.resolution.value.before.bytes != 0 && a.identityAfter.value.bytes != 0
  }

  /** The record of the gate, once it is reached, is one the verifier takes. */
  predicate GateAcceptable(c: Codecs, gate: Gate, attest: bool, a: GateAnswers) {
    !UnattestedInputFailure(c, gate, attest, a) && ProgramRecordable(gate, attest, a)
  }

  lemma InputErrorsTrimmed(c: Codecs, gate: Gate, attest: bool, a: GateAnswers)
    requires ValidDigests(gate.inputs) && ProperGate(gate, attest, a)
    ensures var w := Seen(c, gate, a);
            && TrimmedIfSome(w.inputsBefore) && TrimmedIfSome(w.inputsAfter)
            && (w.inputsBefore.None? <==> InputsMatch(c, gate.inputs, a.inputsBefore))
  {
    hide Trimmed, InputsMatch, ProblemFrom;
    InputProblemText(c, gate.inputs, a.inputsBefore);
    InputProblemText(c, gate.inputs, a.inputsAfter);
    InputProblemMeans(c, gate.inputs, a.inputsBefore);
  }

  /** The record of a gate is consistent exactly when its inputs did not fail before a program that must be attested,
      and an attested program has a trimmed name and a file that is never empty. */
  lemma GateAgreement(c: Codecs, p: Policy, gate: Gate, o: Options, a: GateAnswers, e: GateEvidence)
    requires p.executables == o.attestExecutables
    requires ValidDigests(gate.inputs) && ProperGate(gate, p.executables, a)
    requires GateOutcome(c, gate, o, Seen(c, gate, a), e)
    ensures GateError(p, e).None? <==> GateAcceptable(c, gate, p.executables, a)
  {
    hide GateLogs, ArtifactOf, InputsMatch, InputProblemOf, ProperInputs, ValidDigests, ValidPath, IsSha256;
    InputErrorsTrimmed(c, gate, p.executables, a);
    assert Trimmed(EXECUTABLE_CHANGED);
  }

  // ----- the checkout record of a run -----

  /** A Git command of the capture failed and printed nothing about it. */
  ghost predicate SilentCapture(c: Codecs, git: string, a: GitAnswers) {
    !Complete(c, a) && FailureOf(c, git, a).Silent()
  }

  /** Git fails silently at the start, or at the end with no later error behind it. */
  ghost predicate SilentGit(c: Codecs, w: World) {
    && w.git.Ok?
    && var git := w.git.value;
       if Complete(c, w.before)
       then SilentCapture(c, git.invocationPath, w.after) && (w.gitAfter.Ok? ==> w.gitAfter.value == git.before)
       else SilentCapture(c, git.invocationPath, w.before)
  }

  /** Every snapshot that is recorded was printed plainly. */
  ghost predicate PlainCheckout(c: Codecs, w: World) {
    w.git.Ok? && Complete(c, w.before) ==> Plain(c, w.before) && (Complete(c, w.after) ==> Plain(c, w.after))
  }

  /** The file of Git is empty neither before nor after the run, where both are recorded. */
  ghost predicate GitNotEmpty(c: Codecs, w: World) {
    w.git.Ok? && Complete(c, w.before) && w.gitAfter.Ok? ==>
      w.git.value.before.bytes != 0 && w.gitAfter.value.bytes != 0
  }

  lemma PreflightTrimmed(snapshot: GitSnapshot, o: Options)
    requires ValidOptions(o)
    ensures TrimmedIfSome(Preflight(snapshot, o))
  {
    if o.expectedRevision.Some? && snapshot.revision != o.expectedRevision.value {
      RevisionMessageTrimmed(snapshot.revision, o.expectedRevision.value);
    }
  }

  lemma RevisionMessageTrimmed(found: string, expected: string)
    requires Trimmed(expected)
    ensures Trimmed("checkout revision " + found + " does not match expected revision " + expected)
  {
    var s := "checkout revision " + found + " does not match expected revision " + expected;
    assert s[0] == 'c' && s[|s| - 1] == expected[|expected| - 1];
  }

  /** Joined errors are trimmed exactly when the last of them is. */
  lemma {:induction false} PushErrorsTrimmed(error: Option<string>, errors: seq<string>)
    requires (error.Some? ==> Headed(error.value)) && forall e :: e in errors ==> Headed(e)
    ensures PushErrors(error, errors).None? <==> error.None? && errors == []
    ensures TrimmedIfSome(PushErrors(error, errors)) <==>
            if errors == [] then TrimmedIfSome(error) else Trimmed(errors[|errors| - 1])
    decreases |errors|
  {
    if errors != [] {
      var first, rest := errors[0], errors[1..];
      if error.Some? {
        TrimmedEnd(error.value + "; ", first);
      }
      PushErrorsTrimmed(PushError(error, first), rest);
      assert rest != [] ==> rest[|rest| - 1] == errors[|errors| - 1];
    }
  }

  /** The errors of the end are trimmed but for a silent failure of Git. */
  lemma {:induction false} FinishErrorsText(
    runtime: CheckoutRuntime, gitAfter: Result<FileIdentity, string>, after: Result<GitSnapshot, CaptureError>)
    requires (gitAfter.Err? ==> Trimmed(gitAfter.error)) && (after.Err? ==> after.error.Proper())
    ensures var errors := FinishErrors(runtime, gitAfter, after);
            && (forall e :: e in errors ==> Headed(e))
            && (errors == [] <==> gitAfter == Ok(runtime.git.before) && after == Ok(runtime.before))
            && (errors == [] || Trimmed(errors[|errors| - 1]) <==>
                !(after.Err? && after.error.Silent() && (gitAfter.Ok? ==> gitAfter.value == runtime.git.before)))
  {
    hide Headed, Trimmed;
    if after.Err? {
      CaptureErrorText(after.error);
    }
    if gitAfter.Err? {
      TrimmedIsHeaded(gitAfter.error);
    }
    ChangedTexts();
  }

  lemma ChangedTexts()
    ensures Trimmed(GIT_CHANGED) && Headed(GIT_CHANGED) && Trimmed(CHECKOUT_CHANGED) && Headed(CHECKOUT_CHANGED)
  {
  }

  ghost predicate CheckoutRecord(o: Options, p: Policy) {
    p == Policy(o.attestCheckout, o.requireClean, o.expectedRevision, o.attestExecutables)
  }

  /** The error of the record is trimmed exactly when no silent failure of Git ends it. */
  lemma CheckoutErrorTrimmed(c: Codecs, o: Options, w: World, a: CheckoutAttestation)
    requires ValidOptions(o) && ProperCheckout(w) && CheckoutOutcome(c, o, w, a)
    ensures TrimmedIfSome(a.error) <==> !SilentGit(c, w)
  {
    hide Headed, Trimmed, ValidPath, ValidIdentity, Complete, SnapshotOf, FailureOf, ValidOptions, FinishErrors;
    if w.git.Ok? {
      var git := w.git.value;
      if Complete(c, w.before) {
        var runtime, after := CheckoutRuntime(git, SnapshotOf(c, w.before)), Capture(c, git.invocationPath, w.after);
        PreflightTrimmed(runtime.before, o);
        PreflightHeaded(runtime.before, o);
        if !Complete(c, w.after) {
          FailureIsProper(c, git.invocationPath, w.after);
        }
        FinishErrorsText(runtime, w.gitAfter, after);
        PushErrorsTrimmed(Preflight(runtime.before, o), FinishErrors(runtime, w.gitAfter, after));
      } else {
        FailureIsProper(c, git.invocationPath, w.before);
        CaptureErrorText(FailureOf(c, git.invocationPath, w.before));
      }
    }
  }

  lemma PreflightHeaded(snapshot: GitSnapshot, o: Options)
    requires ValidOptions(o)
    ensures Preflight(snapshot, o).Some? ==> Headed(Preflight(snapshot, o).value)
  {
    PreflightTrimmed(snapshot, o);
  }

  /** The recorded snapshots pass exactly when they were printed plainly. */
  lemma CheckoutSnapshotsValid(c: Codecs, o: Options, w: World, a: CheckoutAttestation)
    requires c.Sound() && ProperCheckout(w) && NoCollisions(c, w) && CheckoutOutcome(c, o, w, a)
    ensures ((a.before.Some? ==> ValidSnapshot(c, a.before.value)) &&
             (a.after.Some? ==> ValidSnapshot(c, a.after.value)))
            <==> PlainCheckout(c, w)
  {
    hide ValidSnapshot, Plain, NoCollision, FinishErrors, Preflight, SnapshotOf, FailureOf;
    if w.git.Ok? && Complete(c, w.before) {
      SnapshotValidity(c, w.before);
      if Complete(c, w.after) {
        SnapshotValidity(c, w.after);
      }
    }
  }

  lemma GitAttestationValid(git: ResolvedProgram, after: Result<FileIdentity, string>)
    requires ProperProgram(Ok(git)) && ProperIdentity(after)
    ensures GitAttestation(git, after).Some? ==>
              && GitAttestation(git, after).value.requestedProgram == "git"
              && (ValidExecutable(GitAttestation(git, after).value) <==>
                  git.before.bytes != 0 && after.value.bytes != 0)
  {
    hide ValidPath, IsSha256;
    assert Trimmed("git");
  }

  /** The recorded Git passes exactly when its file is not empty. */
  lemma CheckoutGitValid(c: Codecs, o: Options, w: World, a: CheckoutAttestation)
    requires ProperCheckout(w) && CheckoutOutcome(c, o, w, a)
    ensures (a.git.Some? ==> ValidExecutable(a.git.value) && a.git.value.requestedProgram == "git") <==>
            GitNotEmpty(c, w)
  {
    hide ValidExecutable, Complete, SnapshotOf, FailureOf, FinishErrors, Preflight, PushErrors, ProperAnswers,
         ProperProgram, ProperIdentity;
    if w.git.Ok? && Complete(c, w.before) {
      GitAttestationValid(w.git.value, w.gitAfter);
    }
  }

  /** Without an error the checkout is unchanged and as it was required. */
  lemma CleanCheckout(c: Codecs, o: Options, w: World, a: CheckoutAttestation, p: Policy)
    requires ValidOptions(o) && ProperCheckout(w) && CheckoutOutcome(c, o, w, a) && CheckoutRecord(o, p)
    requires a.error.None?
    ensures CheckoutUnchanged(p, a) && w.git.Ok? && Complete(c, w.before) && Complete(c, w.after)
    ensures SnapshotOf(c, w.after) == SnapshotOf(c, w.before)
  {
    hide ValidPath, ValidIdentity, Complete, SnapshotOf, FailureOf, Headed, Trimmed, FinishErrors, ValidOptions;
    var runtime := CheckoutRuntime(w.git.value, SnapshotOf(c, w.before));
    var after := Capture(c, w.git.value.invocationPath, w.after);
    PreflightHeaded(runtime.before, o);
    if !Complete(c, w.after) {
      FailureIsProper(c, w.git.value.invocationPath, w.after);
    }
    FinishErrorsText(runtime, w.gitAfter, after);
    PushErrorsTrimmed(Preflight(runtime.before, o), FinishErrors(runtime, w.gitAfter, after));
  }

  /** The checkout record of a run is consistent exactly when Git did not fail silently, printed plain snapshots, and
      is no empty file. */
  lemma CheckoutAgreement(c: Codecs, o: Options, w: World, p: Policy, a: CheckoutAttestation)
    requires c.Sound() && o.attestCheckout && ValidOptions(o) && ProperCheckout(w) && NoCollisions(c, w)
    requires CheckoutOutcome(c, o, w, a) && CheckoutRecord(o, p)
    ensures CheckoutConsistent(c, p, Some(a)) <==> !SilentGit(c, w) && PlainCheckout(c, w) && GitNotEmpty(c, w)
  {
    hide SilentGit, PlainCheckout, GitNotEmpty, NoCollisions, ValidSnapshot, ValidOptions, ValidExecutable, Trimmed,
         CheckoutUnchanged, CheckoutOutcome, ProperCheckout;
    CheckoutErrorTrimmed(c, o, w, a);
    CheckoutSnapshotsValid(c, o, w, a);
    CheckoutGitValid(c, o, w, a);
    if a.error.None? {
      CleanCheckout(c, o, w, a, p);
    }
  }

  // ----- the whole bundle -----

  lemma IdsOfPrefix(c: Codecs, gates: seq<Gate>, o: Options, w: World, evidence: seq<GateEvidence>)
    requires RanPrefix(c, gates, o, w, evidence)
    ensures ExecutedIds(evidence) == GateIds(gates)[..|evidence|]
    ensures GateIds(gates[|evidence|..]) == GateIds(gates)[|evidence|..]
  {
  }

  lemma SplitDistinct(ids: seq<string>, k: nat)
    requires k <= |ids| && NoDuplicates(ids)
    ensures NoDuplicates(ids[..k]) && NoDuplicates(ids[k..])
    ensures forall id :: id in ids <==> id in ids[..k] || id in ids[k..]
    ensures forall id :: !(id in ids[..k] && id in ids[k..])
  {
    assert ids == ids[..k] + ids[k..];
    forall id ensures !(id in ids[..k] && id in ids[k..]) {
      if id in ids[..k] {
        var i :| 0 <= i < k && ids[i] == id;
        assert forall j :: k <= j < |ids| ==> ids[j] != ids[i];
      }
    }
  }

  lemma SetsOfRun(c: Codecs, m: Manifest, manifestSha: string, o: Options, w: World, gates: seq<Gate>, b: Bundle)
    requires IsRun(c, m, manifestSha, o, w, gates, b)
    ensures SetsConsistent(b) && AllKnown(m, b.selected)
  {
    hide GateOutcome, CheckoutOutcome, PreflightError, AllPassed, Requested;
    var ids := GateIds(gates);
    assert NoDuplicates(ids);
    assert forall i :: 0 <= i < |gates| ==> ids[i] == gates[i].id;
    SplitOfRun(c, gates, o, w, b);
    SplitDistinct(ids, |b.gates|);
  }

  lemma SplitOfRun(c: Codecs, gates: seq<Gate>, o: Options, w: World, b: Bundle)
    requires GatesOutcome(c, gates, o, w, b.gates, b.skipped)
    ensures |b.gates| <= |gates|
    ensures ExecutedIds(b.gates) == GateIds(gates)[..|b.gates|] && b.skipped == GateIds(gates)[|b.gates|..]
  {
    hide GateOutcome, PreflightError;
    if PreflightError(c, o, w).Some? {
      assert ExecutedIds(b.gates) == [];
    } else {
      IdsOfPrefix(c, gates, o, w, b.gates);
    }
  }

  lemma OutcomeMatches(
    c: Codecs, m: Manifest, gate: Gate, o: Options, w: GateWorld, e: GateEvidence, files: Files)
    requires GateOutcome(c, gate, o, w, e) && m.FindGate(gate.id) == Some(gate)
    requires Verifies(c, files, e.stdout) && Verifies(c, files, e.stderr)
    ensures GateMatches(c, m, files, e)
  {
    hide Verifies, GateLogs, ArtifactOf;
  }

  lemma GatesOfRunMatch(
    c: Codecs, m: Manifest, manifestSha: string, o: Options, w: World, gates: seq<Gate>, b: Bundle, files: Files)
    requires IsRun(c, m, manifestSha, o, w, gates, b) && AllLogsVerify(c, files, b.gates)
    ensures AllMatch(c, m, files, b.gates)
  {
    hide CheckoutOutcome, PreflightError, AllPassed, Requested, Verifies, GateOutcome, GateMatches, Manifest.FindGate;
    forall g | g in b.gates ensures GateMatches(c, m, files, g) {
      var i :| 0 <= i < |b.gates| && b.gates[i] == g;
      assert GateOutcome(c, gates[i], o, SeenAt(c, w, gates[i]), g);
      OutcomeMatches(c, m, gates[i], o, SeenAt(c, w, gates[i]), g, files);
    }
    AllMatchFrom(c, m, files, b.gates);
  }

  /** The gate is reached: the checkout is in order and, when the run fails fast, all gates before this one pass. */
  ghost predicate Reached(c: Codecs, o: Options, w: World, gates: seq<Gate>, i: nat) {
    && i < |gates| && PreflightError(c, o, w).None?
    && forall j :: 0 <= j < i ==>
                     !o.failFast || StatusOf(gates[j], o.attestExecutables, SeenAt(c, w, gates[j])) == Passed
  }

  /** Exactly the gates that are reached are recorded. */
  lemma ReachedIsRecorded(
    c: Codecs, m: Manifest, manifestSha: string, o: Options, w: World, gates: seq<Gate>, b: Bundle, i: nat)
    requires IsRun(c, m, manifestSha, o, w, gates, b)
    ensures i < |b.gates| <==> Reached(c, o, w, gates, i)
  {
    hide GateOutcome, CheckoutOutcome, PreflightError, IsSelection, StatusOf;
    if PreflightError(c, o, w).None? {
      forall j | 0 <= j < |b.gates|
        ensures b.gates[j].status == StatusOf(gates[j], o.attestExecutables, SeenAt(c, w, gates[j]))
      {
        assert GateOutcome(c, gates[j], o, SeenAt(c, w, gates[j]), b.gates[j]);
        OutcomeStatus(c, gates[j], o, SeenAt(c, w, gates[j]), b.gates[j]);
      }
    }
  }

  /** Every gate that is reached has a record the verifier takes. */
  ghost predicate GatesAcceptable(c: Codecs, o: Options, w: World, gates: seq<Gate>) {
    forall i: nat :: Reached(c, o, w, gates, i) ==>
                       GateAcceptable(c, gates[i], o.attestExecutables, w.gates(gates[i].id))
  }

  lemma GatesOfRunConsistent(
    c: Codecs, m: Manifest, manifestSha: string, o: Options, w: World, gates: seq<Gate>, b: Bundle)
    requires IsRun(c, m, manifestSha, o, w, gates, b) && ProperWorld(c, o, gates, w)
    ensures FirstGateError(b.policy, b.gates).None? <==> GatesAcceptable(c, o, w, gates)
  {
    hide GateOutcome, GateError, GateAcceptable, CheckoutOutcome, IsSelection, ProperGate, ProperCheckout, Reached;
    assert |b.gates| <= |gates|;
    forall i: nat | i < |gates|
      ensures i < |b.gates| <==> Reached(c, o, w, gates, i)
      ensures i < |b.gates| ==>
                (GateError(b.policy, b.gates[i]).None? <==>
                 GateAcceptable(c, gates[i], o.attestExecutables, w.gates(gates[i].id)))
    {
      ReachedIsRecorded(c, m, manifestSha, o, w, gates, b, i);
      if i < |b.gates| {
        assert GateOutcome(c, gates[i], o, SeenAt(c, w, gates[i]), b.gates[i]);
        GateAgreement(c, b.policy, gates[i], o, w.gates(gates[i].id), b.gates[i]);
      }
    }
    forall i: nat | Reached(c, o, w, gates, i) ensures i < |gates| {
      ReachedIsRecorded(c, m, manifestSha, o, w, gates, b, i);
    }
  }

  lemma PassedRunNoErrors(
    c: Codecs, m: Manifest, manifestSha: string, o: Options, w: World, gates: seq<Gate>, b: Bundle)
    requires IsRun(c, m, manifestSha, o, w, gates, b) && b.passed
    ensures b.checkout.Some? ==> b.checkout.value.error.None?
    ensures forall i :: 0 <= i < |b.gates| ==>
              b.gates[i].inputError.None? && b.gates[i].executableError.None? && b.gates[i].launchError.None?
  {
    hide GateOutcome, CheckoutOutcome, IsSelection, PreflightError;
    forall i | 0 <= i < |b.gates|
      ensures b.gates[i].inputError.None? && b.gates[i].executableError.None? && b.gates[i].launchError.None?
    {
      PassedNoErrors(c, gates[i], o, SeenAt(c, w, gates[i]), b.gates[i]);
    }
  }

  lemma PassedNoErrors(c: Codecs, gate: Gate, o: Options, w: GateWorld, e: GateEvidence)
    requires GateOutcome(c, gate, o, w, e) && e.status == Passed
    ensures e.inputError.None? && e.executableError.None? && e.launchError.None?
  {
    hide GateLogs, ArtifactOf;
  }

  /** The checkout, if it is attested, has a record the verifier accepts. */
  ghost predicate CheckoutAcceptable(c: Codecs, o: Options, w: World) {
    o.attestCheckout ==> !SilentGit(c, w) && PlainCheckout(c, w) && GitNotEmpty(c, w)
  }

  lemma CheckoutOfRun(
    c: Codecs, m: Manifest, manifestSha: string, o: Options, w: World, gates: seq<Gate>, b: Bundle)
    requires c.Sound() && IsRun(c, m, manifestSha, o, w, gates, b) && ValidOptions(o) && ProperWorld(c, o, gates, w)
    ensures CheckoutConsistent(c, b.policy, b.checkout) <==> CheckoutAcceptable(c, o, w)
  {
    hide GatesOutcome, IsSelection, SilentGit, PlainCheckout, GitNotEmpty, ProperGate, ProperCheckout, NoCollisions;
    if o.attestCheckout {
      CheckoutAgreement(c, o, w, b.policy, b.checkout.value);
    }
  }

  lemma AttestationsOfRun(
    c: Codecs, m: Manifest, manifestSha: string, o: Options, w: World, gates: seq<Gate>, b: Bundle)
    requires c.Sound() && IsRun(c, m, manifestSha, o, w, gates, b) && ValidOptions(o) && ProperWorld(c, o, gates, w)
    ensures AttestationError(c, b).None? <==> CheckoutAcceptable(c, o, w) && GatesAcceptable(c, o, w, gates)
  {
    hide CheckoutAcceptable, CheckoutConsistent, ProperWorld, GatesAcceptable, IsRun, GateError, ValidOptions;
    CheckoutOfRun(c, m, manifestSha, o, w, gates, b);
    GatesOfRunConsistent(c, m, manifestSha, o, w, gates, b);
    if b.passed {
      PassedRunNoErrors(c, m, manifestSha, o, w, gates, b);
    }
  }

  /** The verifier accepts the evidence of a run exactly when every gate that is reached can be recorded, and the
      attested checkout was printed plainly, by a Git that is no empty file, and not ended by a silent failure. */
  lemma Agreement(
    c: Codecs, m: Manifest, manifestSha: string, o: Options, w: World, gates: seq<Gate>, b: Bundle, files: Files)
    requires c.Sound() && IsRun(c, m, manifestSha, o, w, gates, b) && ValidOptions(o) && ProperWorld(c, o, gates, w)
    requires AllLogsVerify(c, files, b.gates)
    ensures Accepts(c, m, manifestSha, files, b) <==>
            CheckoutAcceptable(c, o, w) && GatesAcceptable(c, o, w, gates)
  {
    hide CheckoutAcceptable, ProperWorld, GatesAcceptable, AttestationError, SetsConsistent, AllMatch, AllKnown,
         AllLogsVerify, GatesOutcome, CheckoutOutcome, IsSelection, ValidOptions;
    AttestationsOfRun(c, m, manifestSha, o, w, gates, b);
    SetsOfRun(c, m, manifestSha, o, w, gates, b);
    GatesOfRunMatch(c, m, manifestSha, o, w, gates, b, files);
  }

  /** The program of an attested gate has a trimmed name and a file that is not empty. */
  predicate ProgramInOrder(gate: Gate, attest: bool, a: GateAnswers) {
    Attested(gate, attest) ==>
      Trimmed(gate.execution.program) && a.resolution.Ok? && a.resolution.value.before.bytes != 0
  }

  /** The evidence of a passed run is accepted exactly when Git printed the attested checkout plainly and is no empty
      file, and every attested gate has a trimmed program and a file that is not empty. */
  lemma PassedRunAccepted(
    c: Codecs, m: Manifest, manifestSha: string, o: Options, w: World, gates: seq<Gate>, b: Bundle, files: Files)
    requires c.Sound() && IsRun(c, m, manifestSha, o, w, gates, b) && ValidOptions(o) && ProperWorld(c, o, gates, w)
    requires AllLogsVerify(c, files, b.gates) && b.passed
    ensures Accepts(c, m, manifestSha, files, b) <==>
            && (o.attestCheckout ==> Plain(c, w.before) && w.git.Ok? && w.git.value.before.bytes != 0)
            && forall i :: 0 <= i < |gates| ==>
                             ProgramInOrder(gates[i], o.attestExecutables, w.gates(gates[i].id))
  {
    hide AllLogsVerify, Accepts, SilentGit, PlainCheckout, GitNotEmpty, GateOutcome, GateAcceptable, Plain, IsSelection,
         CheckoutOutcome, ProperGate, ProperCheckout, NoCollisions, PreflightError, Reached, ProgramInOrder;
    Agreement(c, m, manifestSha, o, w, gates, b, files);
    if o.attestCheckout {
      PassedCheckout(c, o, w, b.checkout.value, b.policy);
    }
    forall i: nat
      ensures i < |gates| <==> Reached(c, o, w, gates, i)
      ensures i < |gates| ==>
                (GateAcceptable(c, gates[i], o.attestExecutables, w.gates(gates[i].id)) <==>
                 ProgramInOrder(gates[i], o.attestExecutables, w.gates(gates[i].id)))
    {
      ReachedIsRecorded(c, m, manifestSha, o, w, gates, b, i);
      if i < |gates| {
        PassedOutcome(c, m, manifestSha, o, w, gates, b, i);
        PassedGate(c, gates[i], o, w.gates(gates[i].id), b.gates[i]);
      }
    }
  }

  lemma PassedOutcome(
    c: Codecs, m: Manifest, manifestSha: string, o: Options, w: World, gates: seq<Gate>, b: Bundle, i: nat)
    requires IsRun(c, m, manifestSha, o, w, gates, b) && b.passed && i < |gates|
    ensures |b.gates| == |gates| && b.gates[i].status == Passed
    ensures GateOutcome(c, gates[i], o, SeenAt(c, w, gates[i]), b.gates[i])
  {
    hide GateOutcome, CheckoutOutcome, PreflightError, IsSelection;
  }

  /** What a passed record shows: matching inputs before and after, and a program that was found and left alone. */
  lemma PassedGate(c: Codecs, gate: Gate, o: Options, a: GateAnswers, e: GateEvidence)
    requires GateOutcome(c, gate, o, Seen(c, gate, a), e) && e.status == Passed
    ensures InputsMatch(c, gate.inputs, a.inputsBefore) && InputsMatch(c, gate.inputs, a.inputsAfter)
    ensures a.launch == Exited(Some(0), false)
    ensures Attested(gate, o.attestExecutables) ==>
              a.resolution.Ok? && a.identityAfter == Ok(a.resolution.value.before)
    ensures GateAcceptable(c, gate, o.attestExecutables, a) <==> ProgramInOrder(gate, o.attestExecutables, a)
  {
    hide InputsMatch, InputProblemOf, GateLogs, ArtifactOf, Trimmed;
    InputProblemMeans(c, gate.inputs, a.inputsBefore);
    InputProblemMeans(c, gate.inputs, a.inputsAfter);
  }

  /** In a passed run every gate found the files the manifest names, before and after its program ended with zero. */
  lemma PassedRunInputs(
    c: Codecs, m: Manifest, manifestSha: string, o: Options, w: World, gates: seq<Gate>, b: Bundle)
    requires IsRun(c, m, manifestSha, o, w, gates, b) && b.passed
    ensures forall i :: 0 <= i < |gates| ==>
              var a := w.gates(gates[i].id);
              && InputsMatch(c, gates[i].inputs, a.inputsBefore) && InputsMatch(c, gates[i].inputs, a.inputsAfter)
              && a.launch == Exited(Some(0), false)
  {
    hide IsRun, GateOutcome, InputsMatch;
    forall i | 0 <= i < |gates|
      ensures var a := w.gates(gates[i].id);
              && InputsMatch(c, gates[i].inputs, a.inputsBefore) && InputsMatch(c, gates[i].inputs, a.inputsAfter)
              && a.launch == Exited(Some(0), false)
    {
      PassedOutcome(c, m, manifestSha, o, w, gates, b, i);
      PassedGate(c, gates[i], o, w.gates(gates[i].id), b.gates[i]);
    }
  }

  lemma PassedCheckout(c: Codecs, o: Options, w: World, a: CheckoutAttestation, p: Policy)
    requires c.Sound() && o.attestCheckout && ValidOptions(o) && ProperCheckout(w) && NoCollisions(c, w)
    requires CheckoutOutcome(c, o, w, a) && CheckoutRecord(o, p) && a.error.None?
    ensures !SilentGit(c, w) && (PlainCheckout(c, w) <==> Plain(c, w.before))
    ensures w.git.Ok? && (GitNotEmpty(c, w) <==> w.git.value.before.bytes != 0)
  {
    hide ValidSnapshot, Plain, ValidOptions, Trimmed, FailureOf, NoCollision, CheckoutOutcome, SilentGit, Complete,
         SnapshotOf, ProperAnswers;
    CleanCheckout(c, o, w, a, p);
    CheckoutErrorTrimmed(c, o, w, a);
    PassedSnapshots(c, w);
    PassedGit(c, o, w, a);
  }

  lemma PassedSnapshots(c: Codecs, w: World)
    requires c.Sound() && ProperCheckout(w) && NoCollisions(c, w) && w.git.Ok?
    requires Complete(c, w.before) && Complete(c, w.after) && SnapshotOf(c, w.after) == SnapshotOf(c, w.before)
    ensures PlainCheckout(c, w) <==> Plain(c, w.before)
  {
    hide ValidSnapshot, Plain, Complete, SnapshotOf, NoCollision;
    AbsoluteRoot(c, w.before);
    AbsoluteRoot(c, w.after);
    SnapshotValidity(c, w.before);
    SnapshotValidity(c, w.after);
  }

  lemma AbsoluteRoot(c: Codecs, a: GitAnswers)
    requires Complete(c, a) && ProperAnswers(a)
    ensures IsAbsolute(a.canonicalRoot.value)
  {
  }

  lemma PassedGit(c: Codecs, o: Options, w: World, a: CheckoutAttestation)
    requires CheckoutOutcome(c, o, w, a) && a.git.Some? && a.git.value.before == a.git.value.after
    ensures w.git.Ok? && w.gitAfter.Ok? && w.gitAfter.value == w.git.value.before
  {
    hide Complete, SnapshotOf, FailureOf, FinishErrors, Preflight, PushErrors;
  }

  // ----- comparing with the machine afterwards -----

  /** The machine answers as it did at the end of the run. */
  ghost predicate Unchanged(machine: Machine, o: Options, w: World, gates: seq<Gate>) {
    && (o.attestCheckout && w.git.Ok? ==>
          var git := w.git.value;
          && machine.current("git", git.invocationPath, git.resolvedPath) == w.gitAfter
          && machine.git(git.invocationPath) == w.after)
    && forall i :: 0 <= i < |gates| ==> ProgramUnchanged(machine, gates[i], o.attestExecutables, w.gates(gates[i].id))
  }

  predicate ProgramUnchanged(machine: Machine, gate: Gate, attest: bool, a: GateAnswers) {
    Attested(gate, attest) && a.resolution.Ok? ==>
      var p := a.resolution.value;
      machine.current(gate.execution.program, p.invocationPath, p.resolvedPath) == a.identityAfter
  }

  /** Git and the checkout were recorded at both ends of the run. */
  ghost predicate FullyRecorded(c: Codecs, w: World) {
    w.git.Ok? && Complete(c, w.before) && w.gitAfter.Ok? && Complete(c, w.after)
  }

  lemma UnchangedCheckout(c: Codecs, machine: Machine, o: Options, w: World, a: CheckoutAttestation)
    requires CheckoutOutcome(c, o, w, a)
    requires w.git.Ok? ==>
               var git := w.git.value;
               && machine.current("git", git.invocationPath, git.resolvedPath) == w.gitAfter
               && machine.git(git.invocationPath) == w.after
    ensures CheckoutCurrent(c, machine, a) <==> FullyRecorded(c, w)
  {
    hide Complete, SnapshotOf, FailureOf, FinishErrors, Preflight, PushErrors;
  }

  lemma UnchangedGate(c: Codecs, machine: Machine, gate: Gate, o: Options, a: GateAnswers, e: GateEvidence)
    requires GateOutcome(c, gate, o, Seen(c, gate, a), e)
    requires ProgramUnchanged(machine, gate, o.attestExecutables, a)
    ensures GateCurrent(machine, e)
  {
    hide GateLogs, ArtifactOf, InputProblemOf;
  }

  /** When nothing changed since the run, the comparison succeeds exactly when an attested checkout was recorded at both
      ends, as it was in every passed run. */
  lemma UnchangedIsCurrent(
    c: Codecs, machine: Machine, m: Manifest, manifestSha: string, o: Options, w: World, gates: seq<Gate>, b: Bundle)
    requires IsRun(c, m, manifestSha, o, w, gates, b) && Unchanged(machine, o, w, gates)
    ensures IsCurrent(c, machine, b) <==> (o.attestCheckout ==> FullyRecorded(c, w))
  {
    hide GateOutcome, CheckoutOutcome, CheckoutCurrent, GateCurrent, FullyRecorded, ProgramUnchanged, IsSelection,
         PreflightError;
    if o.attestCheckout {
      UnchangedCheckout(c, machine, o, w, b.checkout.value);
    }
    forall i | 0 <= i < |b.gates| ensures GateCurrent(machine, b.gates[i]) {
      UnchangedGate(c, machine, gates[i], o, w.gates(gates[i].id), b.gates[i]);
    }
  }

  lemma PassedRunRecorded(
    c: Codecs, m: Manifest, manifestSha: string, o: Options, w: World, gates: seq<Gate>, b: Bundle)
    requires IsRun(c, m, manifestSha, o, w, gates, b) && ValidOptions(o) && ProperWorld(c, o, gates, w)
    requires b.passed && o.attestCheckout
    ensures FullyRecorded(c, w)
  {
    hide GatesOutcome, CheckoutOutcome, ProperGate, ProperCheckout, NoCollisions, IsSelection, ValidOptions, Complete;
    CleanCheckout(c, o, w, b.checkout.value, b.policy);
    PassedGit(c, o, w, b.checkout.value);
  }

  // ----- the families of runs whose evidence is rejected -----

  /** A checkout whose submodule output does not decode, or has a line that does not end with a bare line feed, is
      rejected even when the run passed. */
  lemma UnplainSubmodulesRejected(
    c: Codecs, m: Manifest, manifestSha: string, o: Options, w: World, gates: seq<Gate>, b: Bundle, files: Files)
    requires c.Sound() && IsRun(c, m, manifestSha, o, w, gates, b) && ValidOptions(o) && ProperWorld(c, o, gates, w)
    requires AllLogsVerify(c, files, b.gates) && b.passed && o.attestCheckout
    requires !PlainOutput(c, Printed(w.before.submodules))
    ensures !Accepts(c, m, manifestSha, files, b)
  {
    hide IsRun, ProperWorld, AllLogsVerify, Accepts, PlainOutput, ValidOptions;
    PassedRunAccepted(c, m, manifestSha, o, w, gates, b, files);
  }

  /** Lines that end with a carriage return are such an output. */
  lemma ReturnIsNotPlain(c: Codecs, line: string)
    requires c.Sound() && '\n' !in line
    ensures !PlainOutput(c, c.utf8(line + "\r\n"))
  {
    var text := line + "\r\n";
    assert c.strict(c.utf8(text)) == Some(text);
    assert line + "\r" + "\n" == text;
    ReturnBeforeFeed(line + "\r", "");
    assert "" + (line + "\r") + "\n" == text;
  }

  lemma {:induction false} ReturnBeforeFeed(s: string, current: string)
    requires '\n' !in s && (current + s) != "" && (current + s)[|current + s| - 1] == '\r'
    ensures !PlainLines(s + "\n", current)
    decreases |s|
  {
    var text := s + "\n";
    if s == "" {
      assert text[0] == '\n' && current + s == current;
    } else {
      assert text[0] == s[0] && text[1..] == s[1..] + "\n";
      assert current + s == (current + [s[0]]) + s[1..];
      ReturnBeforeFeed(s[1..], current + [s[0]]);
    }
  }

  /** When Git fails at the start or at the end, the evidence is accepted exactly when Git printed something besides
      whitespace or a later error follows, provided that all that was recorded is in order otherwise. */
  lemma FailedGitAccepted(
    c: Codecs, m: Manifest, manifestSha: string, o: Options, w: World, gates: seq<Gate>, b: Bundle, files: Files)
    requires c.Sound() && IsRun(c, m, manifestSha, o, w, gates, b) && ValidOptions(o) && ProperWorld(c, o, gates, w)
    requires AllLogsVerify(c, files, b.gates) && GatesAcceptable(c, o, w, gates)
    requires o.attestCheckout && w.git.Ok?
    ensures var git := w.git.value.invocationPath;
            !Complete(c, w.before) && FailureOf(c, git, w.before).GitFailed? ==>
              (Accepts(c, m, manifestSha, files, b) <==> Trim(FailureOf(c, git, w.before).stderr) != "")
    ensures var git := w.git.value.invocationPath;
            Complete(c, w.before) && Plain(c, w.before) && !Complete(c, w.after) &&
                FailureOf(c, git, w.after).GitFailed? ==>
              (Accepts(c, m, manifestSha, files, b) <==>
               GitNotEmpty(c, w) &&
               (Trim(FailureOf(c, git, w.after).stderr) != "" ||
                (w.gitAfter.Ok? && w.gitAfter.value != w.git.value.before)))
  {
    hide IsRun, ProperWorld, AllLogsVerify, Accepts, Plain, ValidOptions, Complete, FailureOf, GatesAcceptable,
         Trim;
    Agreement(c, m, manifestSha, o, w, gates, b, files);
  }

  /** The digest of some other file than the gate's input. */
  const DIGEST: string := seq(64, _ => '0')

  const INPUT_GATE: Gate := Gate("g", Direct("p", []), [GateInput("data", DIGEST)], [])

  /** A manifest may name a program with whitespace around it. */
  const SPACED_GATE: Gate := Gate("g", Direct("./tool ", []), [], [])

  const ATTESTING: Options := Options([], [], false, 0, false, None, false, true)

  function OneGate(gate: Gate): Manifest {
    Manifest("project", "baseline", [], [gate], [])
  }

  function OneRecord(c: Codecs, gate: Gate, w: World): GateEvidence {
    var seen := SeenAt(c, w, gate);
    var logs := GateLogs(c, gate, true, seen);
    GateEvidence(
      gate.id, gate.execution, gate.inputs, gate.targets, StatusOf(gate, true, seen), ExitCode(gate, true, seen),
      ArtifactOf(c, logs[0], 0), ArtifactOf(c, logs[1], 0), ExecutableOf(gate, true, seen),
      LaunchError(gate, true, seen), InputError(seen), ExecutableError(gate, true, seen))
  }

  /** The evidence of a run of one gate. */
  function OneBundle(c: Codecs, manifestBytes: Bytes, gate: Gate, w: World): Bundle {
    var passed := StatusOf(gate, true, SeenAt(c, w, gate)) == Passed;
    Bundle(SCHEMA_VERSION, "project", "baseline", c.Sha256(manifestBytes), w.stamp, Policy(false, false, None, true),
           None, [gate.id], [], false, passed, [OneRecord(c, gate, w)])
  }

  function OneLogs(c: Codecs, gate: Gate, w: World): seq<Bytes> {
    GateLogs(c, gate, true, SeenAt(c, w, gate))
  }

  /** The file of the gate's input has another digest than the manifest says. */
  predicate InputChanged(c: Codecs, w: World) {
    var a := w.gates("g").inputsBefore;
    var file := a.file("data");
    && a.workdir.Ok? && file.link == Ok(false) && file.canonical.Ok? && Inside(file.canonical.value, a.workdir.value)
    && file.isFile && file.content.Ok? && c.Sha256(file.content.value) != DIGEST
  }

  /** One run of a gate with a changed input: the runner records it as failed and stores its logs, and the verifier
      refuses the record. */
  lemma ChangedInputRejected(c: Codecs, manifestBytes: Bytes, w: World)
    requires c.Sound() && InputChanged(c, w) && Storable(c, map[], OneLogs(c, INPUT_GATE, w))
    ensures Validation.WellFormed(OneGate(INPUT_GATE)) && ValidDigests(INPUT_GATE.inputs) && ValidOptions(ATTESTING)
    ensures var m, sha, b := OneGate(INPUT_GATE), c.Sha256(manifestBytes), OneBundle(c, manifestBytes, INPUT_GATE, w);
            var files := StoreLogs(c, map[], OneLogs(c, INPUT_GATE, w));
            && IsRun(c, m, sha, ATTESTING, w, [INPUT_GATE], b) && AllLogsVerify(c, files, b.gates)
            && !b.passed && !Accepts(c, m, sha, files, b)
  {
    hide GateLogs, ArtifactOf, Storable, StoreLogs, Accepts, IsRun, AllLogsVerify, Inside;
    var a := w.gates("g");
    assert INPUT_GATE.inputs[0] == GateInput("data", DIGEST);
    assert !InputMatches(c, a.inputsBefore.workdir.value, INPUT_GATE.inputs[0], a.inputsBefore.file("data"));
    InputProblemMeans(c, INPUT_GATE.inputs, a.inputsBefore);
    OneGateRun(c, manifestBytes, INPUT_GATE, w);
    RejectedRecord(c, OneGate(INPUT_GATE), c.Sha256(manifestBytes),
                   StoreLogs(c, map[], OneLogs(c, INPUT_GATE, w)), OneBundle(c, manifestBytes, INPUT_GATE, w));
  }

  /** The program is found, runs to exit code zero and stays the same. */
  predicate RunsCleanly(w: World) {
    var a := w.gates("g");
    && a.inputsBefore.workdir.Ok? && a.inputsAfter.workdir.Ok? && a.resolution.Ok?
    && a.launch == Exited(Some(0), false) && a.identityAfter == Ok(a.resolution.value.before)
  }

  /** One passed run of a gate whose program has a space at its end: the verifier refuses the evidence. */
  lemma UntrimmedProgramRejected(c: Codecs, manifestBytes: Bytes, w: World)
    requires c.Sound() && RunsCleanly(w) && Storable(c, map[], OneLogs(c, SPACED_GATE, w))
    ensures Validation.WellFormed(OneGate(SPACED_GATE)) && ValidOptions(ATTESTING)
    ensures var m, sha, b := OneGate(SPACED_GATE), c.Sha256(manifestBytes), OneBundle(c, manifestBytes, SPACED_GATE, w);
            var files := StoreLogs(c, map[], OneLogs(c, SPACED_GATE, w));
            && IsRun(c, m, sha, ATTESTING, w, [SPACED_GATE], b) && AllLogsVerify(c, files, b.gates)
            && b.passed && !Accepts(c, m, sha, files, b)
  {
    hide GateLogs, ArtifactOf, Storable, StoreLogs, Accepts, IsRun, AllLogsVerify;
    OneGateRun(c, manifestBytes, SPACED_GATE, w);
    assert !Trimmed("./tool ") by {
      assert "./tool "[6] == ' ' && |"./tool "| == 7;
    }
    RejectedRecord(c, OneGate(SPACED_GATE), c.Sha256(manifestBytes),
                   StoreLogs(c, map[], OneLogs(c, SPACED_GATE, w)), OneBundle(c, manifestBytes, SPACED_GATE, w));
  }

  /** The run of a manifest with one gate, and its logs. */
  lemma OneGateRun(c: Codecs, manifestBytes: Bytes, gate: Gate, w: World)
    requires c.Sound() && gate.targets == [] && Storable(c, map[], OneLogs(c, gate, w))
    ensures Validation.WellFormed(OneGate(gate))
    ensures var b := OneBundle(c, manifestBytes, gate, w);
            && IsRun(c, OneGate(gate), c.Sha256(manifestBytes), ATTESTING, w, [gate], b)
            && AllLogsVerify(c, StoreLogs(c, map[], OneLogs(c, gate, w)), b.gates)
  {
    hide GateLogs, ArtifactOf, Storable, StoreLogs, Verifies, IsSelection, StatusOf, ExitCode, ExecutableOf,
         LaunchError, InputError, ExecutableError, SeenAt, RanPrefix;
    var e, b := OneRecord(c, gate, w), OneBundle(c, manifestBytes, gate, w);
    OneGateWellFormed(gate);
    OneGateSelected(gate);
    assert GateOutcome(c, gate, ATTESTING, SeenAt(c, w, gate), e);
    OutcomeLogsVerify(c, map[], gate, ATTESTING, SeenAt(c, w, gate), e);
    OneGatePrefix(c, gate, w, e);
    assert GateIds([gate]) == [gate.id] && GateIds([gate][1..]) == [];
    assert b.gates == [e] && b.gates[0] == e && (e.status == Passed <==> b.passed);
  }

  lemma OneGatePrefix(c: Codecs, gate: Gate, w: World, e: GateEvidence)
    requires GateOutcome(c, gate, ATTESTING, SeenAt(c, w, gate), e)
    ensures RanPrefix(c, [gate], ATTESTING, w, [e])
  {
    hide GateOutcome;
  }

  lemma RejectedRecord(c: Codecs, m: Manifest, manifestSha: string, files: Files, b: Bundle)
    requires b.gates != [] && GateError(b.policy, b.gates[0]).Some?
    ensures !Accepts(c, m, manifestSha, files, b)
  {
    hide AllMatch, AllKnown, SetsConsistent, CheckoutConsistent, GateError;
  }

  lemma OneGateWellFormed(gate: Gate)
    requires gate.targets == []
    ensures Validation.WellFormed(OneGate(gate))
  {
    var m := OneGate(gate);
    assert Validation.ModuleGraph(m.modules, Validation.ModuleIds(m)) == map[];
    TopologicalIsAcyclic(map[], []);
    assert Validation.GateWellFormed(m, gate);
  }

  lemma OneGateSelected(gate: Gate)
    ensures IsSelection(OneGate(gate), ATTESTING, [gate])
  {
    var m := OneGate(gate);
    assert m.FindGate(gate.id) == Some(gate);
    assert [gate][0].id == gate.id;
    forall id ensures Requested(m, ATTESTING, id) <==> id == gate.id {
      assert m.gates[0] in m.gates;
    }
  }

  // ----- sequences of runs in one directory -----

  lemma {:induction false} MatchInExtension(c: Codecs, m: Manifest, files: Files, files': Files,
      gates: seq<GateEvidence>)
    requires Extends(files, files') && AllMatch(c, m, files, gates)
    ensures AllMatch(c, m, files', gates)
  {
    if gates != [] {
      MatchInExtension(c, m, files, files', gates[..|gates| - 1]);
      VerifiesInExtension(c, files, files', gates[|gates| - 1].stdout);
      VerifiesInExtension(c, files, files', gates[|gates| - 1].stderr);
    }
  }

  /** Accepted evidence stays accepted while the directory grows. */
  lemma AcceptedInExtension(c: Codecs, m: Manifest, manifestSha: string, files: Files, files': Files, b: Bundle)
    requires Extends(files, files') && Accepts(c, m, manifestSha, files, b)
    ensures Accepts(c, m, manifestSha, files', b)
  {
    hide AttestationError, SetsConsistent, AllKnown, AllMatch, Extends, ComputedPassed;
    MatchInExtension(c, m, files, files', b.gates);
  }

  datatype Request = Request(m: Manifest, manifestBytes: Bytes, o: Options, w: World)

  /** The evidence of a run stands in the directory under its digest, all its logs verify, and the verifier accepts it
      exactly when the run's checkout and gates allow it. */
  ghost predicate Stands(c: Codecs, files: Files, request: Request, gates: seq<Gate>, digest: string, b: Bundle) {
    var Request(m, manifestBytes, o, w) := request;
    && IsRun(c, m, c.Sha256(manifestBytes), o, w, gates, b) && ValidOptions(o)
    && digest == c.Sha256(c.encode(b)) && Holds(files, EvidenceFile(digest), c.encode(b))
    && c.decode(files[EvidenceFile(digest)]) == Some(b) && AllLogsVerify(c, files, b.gates)
    && (ProperWorld(c, o, gates, w) ==>
          (Accepts(c, m, c.Sha256(manifestBytes), files, b) <==>
           CheckoutAcceptable(c, o, w) && GatesAcceptable(c, o, w, gates)))
  }

  lemma StoredEvidenceStands(
    c: Codecs, files: Files, request: Request, gates: seq<Gate>, digest: string, b: Bundle)
    requires c.Sound() && ValidOptions(request.o)
    requires IsRun(c, request.m, c.Sha256(request.manifestBytes), request.o, request.w, gates, b)
    requires digest == c.Sha256(c.encode(b)) && Holds(files, EvidenceFile(digest), c.encode(b))
    requires AllLogsVerify(c, files, b.gates)
    ensures Stands(c, files, request, gates, digest, b)
  {
    hide IsRun, AllLogsVerify, Accepts, CheckoutAcceptable, GatesAcceptable, ProperWorld, ValidOptions;
    var Request(m, manifestBytes, o, w) := request;
    if ProperWorld(c, o, gates, w) {
      Agreement(c, m, c.Sha256(manifestBytes), o, w, gates, b, files);
    }
  }

  /** Evidence that stands keeps standing while the directory grows. */
  lemma StandsInExtension(
    c: Codecs, files: Files, files': Files, request: Request, gates: seq<Gate>, digest: string, b: Bundle)
    requires c.Sound() && Extends(files, files') && Stands(c, files, request, gates, digest, b)
    ensures Stands(c, files', request, gates, digest, b)
  {
    hide IsRun, AllLogsVerify, Accepts, CheckoutAcceptable, GatesAcceptable, ProperWorld, ValidOptions;
    LogsVerifyInExtension(c, files, files', b.gates);
    StoredEvidenceStands(c, files', request, gates, digest, b);
  }

  type RunResult = Result<(string, Bundle), RunError>

  ghost predicate ResultStands(c: Codecs, files: Files, request: Request, gates: seq<Gate>, result: RunResult) {
    result.Ok? ==> Stands(c, files, request, gates, result.value.0, result.value.1)
  }

  ghost predicate AllStand(
    c: Codecs, files: Files, requests: seq<Request>, gates: seq<seq<Gate>>, results: seq<RunResult>)
  {
    && |results| == |gates| <= |requests|
    && forall i :: 0 <= i < |results| ==> ResultStands(c, files, requests[i], gates[i], results[i])
  }

  lemma AllStandStep(
    c: Codecs, files: Files, files': Files, requests: seq<Request>, gates: seq<seq<Gate>>, results: seq<RunResult>,
    selected: seq<Gate>, result: RunResult)
    requires c.Sound() && Extends(files, files') && AllStand(c, files, requests, gates, results)
    requires |results| < |requests| && ResultStands(c, files', requests[|results|], selected, result)
    ensures AllStand(c, files', requests, gates + [selected], results + [result])
  {
    hide Stands, Extends;
    forall i | 0 <= i < |results| ensures ResultStands(c, files', requests[i], gates[i], results[i]) {
      assert ResultStands(c, files, requests[i], gates[i], results[i]);
      if results[i].Ok? {
        StandsInExtension(c, files, files', requests[i], gates[i], results[i].value.0, results[i].value.1);
      }
    }
  }

  /** Any runs one after the other in one directory: behind them all, the evidence of every run that succeeded
      stands, and what was accepted before is still accepted. */
  method RunSequence(dir: OutputDirectory, requests: seq<Request>)
    returns (results: seq<RunResult>, ghost gates: seq<seq<Gate>>)
    requires dir.codecs.Sound()
    modifies dir`files
    ensures Extends(old(dir.files), dir.files)
    ensures |results| == |requests| && AllStand(dir.codecs, dir.files, requests, gates, results)
    ensures forall i :: 0 <= i < |requests| && Runnable(requests[i].m, requests[i].o, requests[i].w) ==>
              IsSelection(requests[i].m, requests[i].o, gates[i])
    ensures forall i :: 0 <= i < |requests| && !Runnable(requests[i].m, requests[i].o, requests[i].w) ==>
            results[i].Err?
    ensures forall m, sha, b :: Accepts(dir.codecs, m, sha, old(dir.files), b) ==>
            Accepts(dir.codecs, m, sha, dir.files, b)
  {
    hide Stands, Extends, Accepts, IsRun, AllLogsVerify, IsSelection, Storable, ValidOptions, Selectable, Holds;
    ghost var start := dir.files;
    results, gates := [], [];
    ExtendsItself(start);
    for i := 0 to |requests|
      invariant |results| == i && AllStand(dir.codecs, dir.files, requests, gates, results) && Extends(start, dir.files)
      invariant forall j :: 0 <= j < i ==>
                  if Runnable(requests[j].m, requests[j].o, requests[j].w)
                  then IsSelection(requests[j].m, requests[j].o, gates[j])
                  else results[j].Err?
    {
      var Request(m, manifestBytes, o, w) := requests[i];
      ghost var before := dir.files;
      ghost var selected: seq<Gate>, bundle: Bundle;
      var result;
      result, selected, bundle := RunGates(dir, m, manifestBytes, o, w);
      if result.Ok? {
        StoredEvidenceStands(dir.codecs, dir.files, requests[i], selected, result.value.0, bundle);
      }
      AllStandStep(dir.codecs, before, dir.files, requests, gates, results, selected, result);
      ExtendsFurther(start, before, dir.files);
      results, gates := results + [result], gates + [selected];
    }
    forall m, sha, b | Accepts(dir.codecs, m, sha, start, b) ensures Accepts(dir.codecs, m, sha, dir.files, b) {
      AcceptedInExtension(dir.codecs, m, sha, start, dir.files, b);
    }
  }
}
