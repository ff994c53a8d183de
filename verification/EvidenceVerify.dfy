/** Verification of an evidence bundle against a manifest and the stored logs. */
module EvidenceVerify {
  import opened Wrappers
  import opened Ordering
  import opened ManifestModel
  import opened EvidenceModel
  import opened Texts
  import opened EvidenceStore
  import opened GitStatus

  datatype VerifyError =
    | DigestName
    | Undecodable
    | Schema
    | ManifestIdentity
    | ManifestDigest
    | CheckoutMismatch
    | ExecutableMismatch(gate: string)
    | PassStatus
    | GateSets
    | UnknownGate(gate: string)
    | GateDefinition(gate: string)
    | Artifact(error: ArtifactError)
    | LiveCheckout
    | LiveExecutable(gate: string)

  datatype Summary = Summary(
    digest: string, passed: bool, gateCount: nat, logCount: nat, passedGates: seq<string>,
    checkoutAttested: bool, executablesAttested: nat, liveVerified: bool)

  // ----- consistency of the attestations -----

  predicate TrimmedIfSome(s: Option<string>) {
    s.Some? ==> Trimmed(s.value)
  }

  /** An attested checkout without an error shows the same Git, the same clean-enough state and the expected
      revision. */
  predicate CheckoutUnchanged(p: Policy, a: CheckoutAttestation) {
    && a.git.Some? && a.before.Some? && a.after.Some?
    && a.git.value.before == a.git.value.after && a.before == a.after
    && (p.requireClean ==> !a.before.value.dirty)
    && (p.expectedRevision.Some? ==> p.expectedRevision.value == a.before.value.revision)
  }

  predicate CheckoutConsistent(c: Codecs, p: Policy, checkout: Option<CheckoutAttestation>) {
    if !p.checkout then checkout.None? && p.expectedRevision.None? && !p.requireClean
    else
      && checkout.Some?
      && var a := checkout.value;
      && TrimmedIfSome(a.error)
      && (a.git.Some? ==> ValidExecutable(a.git.value) && a.git.value.requestedProgram == "git")
      && (a.before.Some? ==> ValidSnapshot(c, a.before.value))
      && (a.after.Some? ==> ValidSnapshot(c, a.after.value))
      && (a.error.None? ==> CheckoutUnchanged(p, a))
  }

  /** The executable evidence of one gate, by the way it is executed. */
  predicate ExecutableConsistent(p: Policy, g: GateEvidence) {
    if g.execution.Shell? || !p.executables then g.executable.None? && g.executableError.None?
    else
      match g.executable
      case Some(e) =>
        && ValidExecutable(e) && e.requestedProgram == g.execution.program
        && (e.before != e.after ==> g.executableError.Some?)
      case None => g.executableError.Some?
  }

  predicate StatusConsistent(g: GateEvidence) {
    && (g.status == Passed ==>
          g.exitCode == Some(0) && g.launchError.None? && g.inputError.None? && g.executableError.None?)
    && (g.status == LaunchFailed ==> g.exitCode.None?)
  }

  function GateError(p: Policy, g: GateEvidence): Option<VerifyError> {
    if !TrimmedIfSome(g.launchError) || !TrimmedIfSome(g.inputError) || !TrimmedIfSome(g.executableError)
    then Some(ExecutableMismatch(g.gate))
    else if !StatusConsistent(g) then Some(PassStatus)
    else if !ExecutableConsistent(p, g) then Some(ExecutableMismatch(g.gate))
    else None
  }

  function FirstGateError(p: Policy, gates: seq<GateEvidence>): (r: Option<VerifyError>)
    ensures r.None? <==> forall i :: 0 <= i < |gates| ==> GateError(p, gates[i]).None?
  {
    if gates == [] then None
    else if GateError(p, gates[0]).Some? then GateError(p, gates[0])
    else FirstGateError(p, gates[1..])
  }

  function AttestationError(c: Codecs, b: Bundle): Option<VerifyError> {
    if !CheckoutConsistent(c, b.policy, b.checkout) then Some(CheckoutMismatch)
    else if FirstGateError(b.policy, b.gates).Some? then FirstGateError(b.policy, b.gates)
    else if b.passed && b.checkout.Some? && b.checkout.value.error.Some? then Some(CheckoutMismatch)
    else if b.passed && exists i :: 0 <= i < |b.gates| &&
                          (b.gates[i].inputError.Some? || b.gates[i].executableError.Some? ||
                           b.gates[i].launchError.Some?)
    then Some(PassStatus)
    else None
  }

  // ----- consistency of the gate sets -----

  function ExecutedIds(gates: seq<GateEvidence>): seq<string> {
    seq(|gates|, i requires 0 <= i < |gates| => gates[i].gate)
  }

  /** Selected gates are executed or skipped, each exactly once. */
  ghost predicate SetsConsistent(b: Bundle) {
    && NoDuplicates(b.selected) && NoDuplicates(ExecutedIds(b.gates)) && NoDuplicates(b.skipped)
    && (forall id :: id in b.selected <==> id in ExecutedIds(b.gates) || id in b.skipped)
    && (forall id :: !(id in ExecutedIds(b.gates) && id in b.skipped))
  }

  ghost predicate AllKnown(m: Manifest, ids: seq<string>) {
    forall id :: id in ids ==> m.FindGate(id).Some?
  }

  predicate SameDefinition(gate: Gate, g: GateEvidence) {
    g.execution == gate.execution && g.inputs == gate.inputs && g.declaredTargets == gate.targets
  }

  ghost predicate GateMatches(c: Codecs, m: Manifest, files: Files, g: GateEvidence) {
    && m.FindGate(g.gate).Some? && SameDefinition(m.FindGate(g.gate).value, g)
    && Verifies(c, files, g.stdout) && Verifies(c, files, g.stderr)
  }

  ghost predicate AllMatch(c: Codecs, m: Manifest, files: Files, gates: seq<GateEvidence>) {
    gates == [] || (AllMatch(c, m, files, gates[..|gates| - 1]) && GateMatches(c, m, files, gates[|gates| - 1]))
  }

  lemma {:induction false} AllMatchPrefix(c: Codecs, m: Manifest, files: Files, gates: seq<GateEvidence>, i: nat)
    requires i <= |gates| && AllMatch(c, m, files, gates)
    ensures AllMatch(c, m, files, gates[..i])
    decreases |gates|
  {
    hide GateMatches;
    if i < |gates| {
      var front := gates[..|gates| - 1];
      AllMatchPrefix(c, m, files, front, i);
      assert front[..i] == gates[..i];
    } else {
      assert gates[..i] == gates;
    }
  }

  lemma AllMatchElement(c: Codecs, m: Manifest, files: Files, gates: seq<GateEvidence>, i: nat)
    requires i < |gates| && AllMatch(c, m, files, gates)
    ensures GateMatches(c, m, files, gates[i])
  {
    hide GateMatches;
    AllMatchPrefix(c, m, files, gates, i + 1);
    assert gates[..i + 1][i] == gates[i];
  }

  lemma {:induction false} AllMatchFrom(c: Codecs, m: Manifest, files: Files, gates: seq<GateEvidence>)
    requires forall g :: g in gates ==> GateMatches(c, m, files, g)
    ensures AllMatch(c, m, files, gates)
  {
    if gates != [] {
      AllMatchFrom(c, m, files, gates[..|gates| - 1]);
    }
  }

  predicate ComputedPassed(b: Bundle) {
    && (b.checkout.Some? ==> b.checkout.value.error.None?)
    && b.skipped == [] && |b.gates| == |b.selected|
    && forall i :: 0 <= i < |b.gates| ==> b.gates[i].status == Passed
  }

  /** What acceptance of a bundle means. */
  ghost predicate Accepts(c: Codecs, m: Manifest, manifestSha: string, files: Files, b: Bundle) {
    && b.schemaVersion == SCHEMA_VERSION && b.project == m.project && b.baseline == m.baseline
    && b.manifestSha256 == manifestSha
    && AttestationError(c, b).None? && SetsConsistent(b)
    && AllKnown(m, b.selected) && AllMatch(c, m, files, b.gates)
    && (b.passed <==> ComputedPassed(b))
  }

  /** The evidence file is named by its digest and holds a bundle that is accepted. */
  ghost predicate Accepted(
    c: Codecs, m: Manifest, manifestBytes: Bytes, stem: string, encoded: Bytes, files: Files)
  {
    && stem == c.Sha256(encoded) && c.decode(encoded).Some?
    && Accepts(c, m, c.Sha256(manifestBytes), files, c.decode(encoded).value)
  }

  function Members(s: seq<string>): set<string> {
    set x | x in s
  }

  lemma {:induction false} DistinctSize(s: seq<string>)
    ensures |Members(s)| <= |s|
    ensures |Members(s)| == |s| <==> NoDuplicates(s)
  {
    if s != [] {
      var front, last := s[..|s| - 1], s[|s| - 1];
      DistinctSize(front);
      NoDuplicatesSnoc(front, last);
      assert s == front + [last];
      assert Members(s) == Members(front) + {last};
    }
  }

  lemma PartitionMeans(selected: seq<string>, executed: seq<string>, skipped: seq<string>)
    ensures (Members(executed) !! Members(skipped) && Members(executed) + Members(skipped) == Members(selected)) <==>
            ((forall id :: id in selected <==> id in executed || id in skipped) &&
             (forall id :: !(id in executed && id in skipped)))
  {
    assert forall id :: id in Members(selected) <==> id in selected;
    assert forall id :: id in Members(executed) <==> id in executed;
    assert forall id :: id in Members(skipped) <==> id in skipped;
  }

  method CheckSets(b: Bundle) returns (consistent: bool)
    ensures consistent <==> SetsConsistent(b)
  {
    var ids := ExecutedIds(b.gates);
    DistinctSize(b.selected);
    DistinctSize(ids);
    DistinctSize(b.skipped);
    PartitionMeans(b.selected, ids, b.skipped);
    return
      |Members(b.selected)| == |b.selected| && |Members(ids)| == |b.gates| && |Members(b.skipped)| == |b.skipped| &&
      Members(ids) !! Members(b.skipped) && Members(ids) + Members(b.skipped) == Members(b.selected);
  }

  // ----- gates and their logs -----

  function LogPaths(gates: seq<GateEvidence>): (paths: set<string>)
    ensures forall p :: p in paths <==>
              exists i :: 0 <= i < |gates| && (p == gates[i].stdout.path || p == gates[i].stderr.path)
  {
    if gates == [] then {}
    else
      var last := gates[|gates| - 1];
      LogPaths(gates[..|gates| - 1]) + {last.stdout.path, last.stderr.path}
  }

  function PassedIds(gates: seq<GateEvidence>): (ids: seq<string>)
    ensures forall id :: id in ids <==> exists i :: 0 <= i < |gates| && gates[i].gate == id && gates[i].status == Passed
  {
    if gates == [] then []
    else
      var last := gates[|gates| - 1];
      PassedIds(gates[..|gates| - 1]) + if last.status == Passed then [last.gate] else []
  }

  /** The positions of the gates with an executable. */
  function AttestingGates(gates: seq<GateEvidence>): set<int> {
    set i | 0 <= i < |gates| && gates[i].executable.Some?
  }

  function Attesting(gates: seq<GateEvidence>): (n: nat)
    ensures n == |AttestingGates(gates)|
  {
    if gates == [] then 0
    else
      var n := |gates| - 1;
      assert AttestingGates(gates) == AttestingGates(gates[..n]) + if gates[n].executable.Some? then {n} else {};
      Attesting(gates[..n]) + if gates[n].executable.Some? then 1 else 0
  }

  lemma AttestingPositive(gates: seq<GateEvidence>)
    ensures Attesting(gates) > 0 <==> exists i :: 0 <= i < |gates| && gates[i].executable.Some?
  {
    if i :| 0 <= i < |gates| && gates[i].executable.Some? {
      assert i in AttestingGates(gates);
    }
  }

  /** The first thing that is wrong with a gate: it is unknown, defined otherwise, or one of its logs does not match. */
  ghost predicate IsGateFault(c: Codecs, m: Manifest, files: Files, g: GateEvidence, e: VerifyError) {
    match e
    case UnknownGate(id) => id == g.gate && m.FindGate(id).None?
    case GateDefinition(id) => id == g.gate && m.FindGate(id).Some? && !SameDefinition(m.FindGate(id).value, g)
    case Artifact(problem) =>
      && m.FindGate(g.gate).Some? && SameDefinition(m.FindGate(g.gate).value, g)
      && (if Verifies(c, files, g.stdout) then CheckArtifact(c, files, g.stderr) == Some(problem)
          else CheckArtifact(c, files, g.stdout) == Some(problem))
    case _ => false
  }

  /** The gates before some gate match, and this is what is wrong with that gate. */
  ghost predicate IsFirstFault(c: Codecs, m: Manifest, files: Files, gates: seq<GateEvidence>, e: VerifyError) {
    exists i :: 0 <= i < |gates| && AllMatch(c, m, files, gates[..i]) && IsGateFault(c, m, files, gates[i], e)
  }

  /** An unknown gate, the first of all by name. */
  ghost predicate IsFirstUnknown(m: Manifest, ids: seq<string>, e: VerifyError) {
    && e.UnknownGate? && e.gate in ids && m.FindGate(e.gate).None?
    && forall id :: id in ids && m.FindGate(id).None? ==> StringLeq(e.gate, id)
  }

  method CheckGate(c: Codecs, m: Manifest, files: Files, g: GateEvidence) returns (error: Option<VerifyError>)
    ensures error.None? <==> GateMatches(c, m, files, g)
    ensures error.Some? ==> IsGateFault(c, m, files, g, error.value)
  {
    var gate := m.FindGate(g.gate);
    if gate.None? {
      return Some(UnknownGate(g.gate));
    }
    if !SameDefinition(gate.value, g) {
      return Some(GateDefinition(g.gate));
    }
    var stdout := CheckArtifact(c, files, g.stdout);
    if stdout.Some? {
      return Some(Artifact(stdout.value));
    }
    var stderr := CheckArtifact(c, files, g.stderr);
    if stderr.Some? {
      return Some(Artifact(stderr.value));
    }
    return None;
  }

  lemma NextGate(c: Codecs, m: Manifest, files: Files, gates: seq<GateEvidence>, i: nat)
    requires i < |gates|
    ensures LogPaths(gates[..i + 1]) == LogPaths(gates[..i]) + {gates[i].stdout.path, gates[i].stderr.path}
    ensures PassedIds(gates[..i + 1]) ==
            PassedIds(gates[..i]) + if gates[i].status == Passed then [gates[i].gate] else []
    ensures AllMatch(c, m, files, gates[..i + 1]) <==>
            AllMatch(c, m, files, gates[..i]) && GateMatches(c, m, files, gates[i])
  {
    assert gates[..i + 1][..i] == gates[..i];
  }

  method CheckGates(c: Codecs, m: Manifest, files: Files, gates: seq<GateEvidence>)
    returns (r: Result<(set<string>, seq<string>), VerifyError>)
    ensures r.Ok? <==> AllMatch(c, m, files, gates)
    ensures r.Ok? ==> r.value == (LogPaths(gates), PassedIds(gates))
    ensures r.Err? ==> IsFirstFault(c, m, files, gates, r.error)
  {
    hide GateMatches, IsGateFault;
    var logs: set<string>, passed: seq<string> := {}, [];
    for i := 0 to |gates|
      invariant AllMatch(c, m, files, gates[..i])
      invariant logs == LogPaths(gates[..i]) && passed == PassedIds(gates[..i])
    {
      NextGate(c, m, files, gates, i);
      var error := CheckGate(c, m, files, gates[i]);
      if error.Some? {
        if AllMatch(c, m, files, gates) {
          AllMatchPrefix(c, m, files, gates, i + 1);
        }
        return Err(error.value);
      }
      logs := logs + {gates[i].stdout.path, gates[i].stderr.path};
      if gates[i].status == Passed {
        passed := passed + [gates[i].gate];
      }
    }
    assert gates[..|gates|] == gates;
    return Ok((logs, passed));
  }

  // ----- the machine the evidence is compared with -----

  /** What a program is now, provided it still resolves by the same paths; and what Git answers now. */
  datatype Machine = Machine(
    current: (string, string, string) -> Result<FileIdentity, string>, git: string -> GitAnswers)

  predicate ExecutableCurrent(machine: Machine, requested: string, e: ExecutableAttestation) {
    machine.current(requested, e.invocationPath, e.resolvedPath) == Ok(e.after)
  }

  /** Git and the checkout are as they were recorded at the end of the run. */
  ghost predicate CheckoutCurrent(c: Codecs, machine: Machine, a: CheckoutAttestation) {
    && a.git.Some? && a.after.Some? && ExecutableCurrent(machine, "git", a.git.value)
    && Capture(c, a.git.value.invocationPath, machine.git(a.git.value.invocationPath)) == Ok(a.after.value)
  }

  predicate GateCurrent(machine: Machine, g: GateEvidence) {
    g.executable.Some? ==> ExecutableCurrent(machine, g.executable.value.requestedProgram, g.executable.value)
  }

  /** The machine is as the evidence says. */
  ghost predicate IsCurrent(c: Codecs, machine: Machine, b: Bundle) {
    && (b.checkout.Some? ==> CheckoutCurrent(c, machine, b.checkout.value))
    && forall i :: 0 <= i < |b.gates| ==> GateCurrent(machine, b.gates[i])
  }

  /** The checkout differs, or else the first gate whose executable does. */
  ghost predicate IsLiveFault(c: Codecs, machine: Machine, b: Bundle, e: VerifyError) {
    if b.checkout.Some? && !CheckoutCurrent(c, machine, b.checkout.value) then e == LiveCheckout
    else exists i :: 0 <= i < |b.gates| && !GateCurrent(machine, b.gates[i]) && e == LiveExecutable(b.gates[i].gate) &&
                     forall j :: 0 <= j < i ==> GateCurrent(machine, b.gates[j])
  }

  method CheckCurrentCheckout(c: Codecs, machine: Machine, a: CheckoutAttestation) returns (current: bool)
    ensures current <==> CheckoutCurrent(c, machine, a)
  {
    if a.git.None? || a.after.None? {
      return false;
    }
    var git := a.git.value;
    var identity := machine.current("git", git.invocationPath, git.resolvedPath);
    if identity.Err? || identity.value != git.after {
      return false;
    }
    var snapshot := CaptureSnapshot(c, git.invocationPath, machine.git(git.invocationPath));
    return snapshot.Ok? && snapshot.value == a.after.value;
  }

  method VerifyLive(c: Codecs, machine: Machine, b: Bundle) returns (error: Option<VerifyError>)
    ensures error.None? <==> IsCurrent(c, machine, b)
    ensures error.Some? ==> IsLiveFault(c, machine, b, error.value)
  {
    hide CheckoutCurrent;
    if b.checkout.Some? {
      var current := CheckCurrentCheckout(c, machine, b.checkout.value);
      if !current {
        return Some(LiveCheckout);
      }
    }
    for i := 0 to |b.gates|
      invariant forall j :: 0 <= j < i ==> GateCurrent(machine, b.gates[j])
    {
      if b.gates[i].executable.Some? {
        var e := b.gates[i].executable.value;
        var identity := machine.current(e.requestedProgram, e.invocationPath, e.resolvedPath);
        if identity.Err? || identity.value != e.after {
          return Some(LiveExecutable(b.gates[i].gate));
        }
      }
    }
    return None;
  }

  method CheckKnown(m: Manifest, ids: seq<string>) returns (error: Option<VerifyError>)
    ensures error.None? <==> AllKnown(m, ids)
    ensures error.Some? ==> IsFirstUnknown(m, ids, error.value)
  {
    var sorted := Sort(ids, StringLeq);
    StringOrder();
    SortCorrect(ids, StringLeq);
    SortKeepsMembers(ids, sorted);
    for i := 0 to |sorted|
      invariant AllKnown(m, sorted[..i])
    {
      assert sorted[..i + 1] == sorted[..i] + [sorted[i]];
      if m.FindGate(sorted[i]).None? {
        FirstUnknown(m, sorted, i);
        return Some(UnknownGate(sorted[i]));
      }
    }
    assert sorted[..|sorted|] == sorted;
    return None;
  }

  lemma SortKeepsMembers(ids: seq<string>, sorted: seq<string>)
    requires multiset(sorted) == multiset(ids)
    ensures forall id :: id in ids <==> id in sorted
  {
    assert forall id :: id in ids <==> id in multiset(ids);
    assert forall id :: id in sorted <==> id in multiset(sorted);
  }

  lemma FirstUnknown(m: Manifest, sorted: seq<string>, i: nat)
    requires SortedBy(sorted, StringLeq) && i < |sorted| && AllKnown(m, sorted[..i])
    ensures forall id :: id in sorted && m.FindGate(id).None? ==> StringLeq(sorted[i], id)
  {
    StringOrder();
    assert forall j :: 0 <= j < i ==> sorted[..i][j] == sorted[j] && m.FindGate(sorted[j]).Some?;
    forall id | id in sorted && m.FindGate(id).None? ensures StringLeq(sorted[i], id) {
      var j :| 0 <= j < |sorted| && sorted[j] == id;
    }
  }

  /** The error of a bundle that is decoded but not accepted: that of the first check that fails. */
  ghost predicate IsRefusal(
    c: Codecs, m: Manifest, manifestSha: string, files: Files, b: Bundle, live: Option<Machine>, e: VerifyError)
  {
    if b.schemaVersion != SCHEMA_VERSION then e == Schema
    else if b.project != m.project || b.baseline != m.baseline then e == ManifestIdentity
    else if b.manifestSha256 != manifestSha then e == ManifestDigest
    else if AttestationError(c, b).Some? then AttestationError(c, b) == Some(e)
    else if !SetsConsistent(b) then e == GateSets
    else if !AllKnown(m, b.selected) then IsFirstUnknown(m, b.selected, e)
    else if !AllMatch(c, m, files, b.gates) then IsFirstFault(c, m, files, b.gates, e)
    else if b.passed != ComputedPassed(b) then e == PassStatus
    else live.Some? && !IsCurrent(c, live.value, b) && IsLiveFault(c, live.value, b, e)
  }

  /** Verify the evidence file named `stem` with the given content, also against a machine when there is one; when it is
      refused, the error is that of the first check that fails. */
  method VerifyEvidence(
    c: Codecs, m: Manifest, manifestBytes: Bytes, stem: string, encoded: Bytes, files: Files, live: Option<Machine>)
    returns (r: Result<Summary, VerifyError>)
    ensures r.Ok? <==>
            && Accepted(c, m, manifestBytes, stem, encoded, files)
            && (live.Some? ==> IsCurrent(c, live.value, c.decode(encoded).value))
    ensures r.Ok? ==>
              var b := c.decode(encoded).value;
              && r.value.digest == stem && r.value.passed == b.passed && r.value.gateCount == |b.gates|
              && r.value.logCount == |LogPaths(b.gates)| && r.value.checkoutAttested == b.checkout.Some?
              && SortedBy(r.value.passedGates, StringLeq)
              && multiset(r.value.passedGates) == multiset(PassedIds(b.gates))
              && r.value.executablesAttested == |set i | 0 <= i < |b.gates| && b.gates[i].executable.Some?|
              && (r.value.liveVerified <==>
                  live.Some? && (b.checkout.Some? || exists i :: 0 <= i < |b.gates| && b.gates[i].executable.Some?))
    ensures r.Err? ==>
              if stem != c.Sha256(encoded) then r.error == DigestName
              else if c.decode(encoded).None? then r.error == Undecodable
              else IsRefusal(c, m, c.Sha256(manifestBytes), files, c.decode(encoded).value, live, r.error)
  {
    hide AttestationError, SetsConsistent, AllKnown, AllMatch, ComputedPassed, LogPaths, PassedIds, Attesting,
         IsFirstFault, IsFirstUnknown, IsCurrent, IsLiveFault, StringLeq, Sort;
    if stem != c.Sha256(encoded) {
      return Err(DigestName);
    }
    var decoded := c.decode(encoded);
    if decoded.None? {
      return Err(Undecodable);
    }
    var b := decoded.value;
    if b.schemaVersion != SCHEMA_VERSION {
      return Err(Schema);
    }
    if b.project != m.project || b.baseline != m.baseline {
      return Err(ManifestIdentity);
    }
    if b.manifestSha256 != c.Sha256(manifestBytes) {
      return Err(ManifestDigest);
    }
    var attestation := AttestationError(c, b);
    if attestation.Some? {
      return Err(attestation.value);
    }
    var consistent := CheckSets(b);
    if !consistent {
      return Err(GateSets);
    }
    var known := CheckKnown(m, b.selected);
    if known.Some? {
      return Err(known.value);
    }
    var checked := CheckGates(c, m, files, b.gates);
    if checked.Err? {
      return Err(checked.error);
    }
    if b.passed != ComputedPassed(b) {
      return Err(PassStatus);
    }
    if live.Some? {
      var differs := VerifyLive(c, live.value, b);
      if differs.Some? {
        return Err(differs.value);
      }
    }
    StringOrder();
    SortCorrect(checked.value.1, StringLeq);
    AttestingPositive(b.gates);
    return Ok(Summary(
      stem, b.passed, |b.gates|, |checked.value.0|, Sort(checked.value.1, StringLeq), b.checkout.Some?,
      Attesting(b.gates), live.Some? && (b.checkout.Some? || Attesting(b.gates) > 0)));
  }
}
