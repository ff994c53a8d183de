/** What an accepted bundle says, condition by condition, and what its refusal says. */
module EvidenceMeaning {
  import opened Wrappers
  import opened Ordering
  import opened ManifestModel
  import opened Texts
  import opened EvidenceModel
  import opened EvidenceStore
  import opened EvidenceVerify

  // ----- single records -----

  ghost predicate DigestSays(s: string) {
    |s| == 64 && forall i :: 0 <= i < 64 ==> s[i] in "0123456789abcdef"
  }

  ghost predicate IdentitySays(identity: FileIdentity) {
    DigestSays(identity.sha256) && identity.bytes > 0
  }

  ghost predicate TextSays(s: string) {
    |s| > 0 && !IsWhite(s[0]) && !IsWhite(s[|s| - 1])
  }

  ghost predicate ExecutableSays(e: ExecutableAttestation) {
    && TextSays(e.requestedProgram) && "/" <= e.invocationPath && "/" <= e.resolvedPath
    && IdentitySays(e.before) && IdentitySays(e.after)
  }

  ghost predicate SnapshotSays(c: Codecs, s: GitSnapshot) {
    && "/" <= s.root && |s.revision| in {40, 64}
    && (forall i :: 0 <= i < |s.revision| ==> s.revision[i] in "0123456789abcdef")
    && (s.branch.None? || TextSays(s.branch.value))
    && (s.dirty <==> s.statusEntries != 0) && DigestSays(s.statusSha256) && DigestSays(s.submoduleStatusSha256)
    && s.submoduleStatusSha256 == HexText(c.digest(c.utf8(JoinLines(s.submodules))))
  }

  lemma DigestMeans(s: string)
    ensures IsSha256(s) <==> DigestSays(s)
    ensures AllHex(s) <==> forall i :: 0 <= i < |s| ==> s[i] in "0123456789abcdef"
  {
    forall c: char ensures IsHex(c) <==> c in "0123456789abcdef" {
      HexMeans(c);
    }
  }

  lemma HexMeans(c: char)
    ensures IsHex(c) <==> c in "0123456789abcdef"
  {
    var digits := "0123456789abcdef";
    if '0' <= c <= '9' {
      assert digits[c as int - '0' as int] == c;
    } else if 'a' <= c <= 'f' {
      assert digits[c as int - 'a' as int + 10] == c;
    }
  }

  lemma ExecutableMeans(e: ExecutableAttestation)
    ensures ValidExecutable(e) <==> ExecutableSays(e)
  {
    hide IsSha256, DigestSays, IsWhite;
    DigestMeans(e.before.sha256);
    DigestMeans(e.after.sha256);
    PathMeans(e.invocationPath);
    PathMeans(e.resolvedPath);
  }

  lemma PathMeans(path: string)
    ensures ValidPath(path) <==> "/" <= path
  {
    if "/" <= path {
      assert TrimStart(path) == path;
      assert TrimEnd(path) != "" by {
        StartKept(path);
      }
    }
  }

  lemma {:induction false} StartKept(s: string)
    requires s != "" && !IsWhite(s[0])
    ensures TrimEnd(s) != ""
  {
    if |s| > 1 && IsWhite(s[|s| - 1]) {
      StartKept(s[..|s| - 1]);
    }
  }

  lemma SnapshotMeans(c: Codecs, s: GitSnapshot)
    ensures ValidSnapshot(c, s) <==> SnapshotSays(c, s)
  {
    hide IsSha256, DigestSays, IsWhite, AllHex, JoinLines, HexText;
    DigestMeans(s.revision);
    DigestMeans(s.statusSha256);
    DigestMeans(s.submoduleStatusSha256);
  }

  // ----- logs -----

  /** The log is the file of that digest in the directory, complete and with that end. */
  ghost predicate LogSays(c: Codecs, files: Files, a: OutputArtifact) {
    var path := ["logs", a.sha256 + ".log"];
    && !("/" <= a.path) && Components(a.path) == path && path in files
    && HexText(c.digest(files[path])) == a.sha256 && |files[path]| == a.bytes
    && a.tailStart <= |files[path]| && a.tail == c.lossy(files[path][a.tailStart..])
    && (a.tailTruncated <==> a.tailStart != 0)
  }

  lemma LogMeans(c: Codecs, files: Files, a: OutputArtifact)
    requires c.Sound()
    ensures Verifies(c, files, a) <==> LogSays(c, files, a)
  {
    hide HexText;
    var path := ["logs", a.sha256 + ".log"];
    if Verifies(c, files, a) {
      var bytes := files[Components(a.path)];
      Sha256IsSha256(c, bytes);
      LogComponents(a.sha256);
    }
    if LogSays(c, files, a) {
      Sha256IsSha256(c, files[path]);
      LogComponents(a.sha256);
      assert a.path != "";
    }
  }

  /** What is said to be wrong with a log. */
  ghost predicate LogFault(c: Codecs, files: Files, a: OutputArtifact, error: ArtifactError) {
    var path := Components(a.path);
    match error
    case UnsafePath =>
      a.path == "" || "/" <= a.path || ".." in path || path != Components("logs/" + a.sha256 + ".log")
    case Unreadable => path !in files
    case DigestMismatch =>
      path in files && (|files[path]| != a.bytes || HexText(c.digest(files[path])) != a.sha256)
    case MetadataMismatch =>
      && path in files && |files[path]| == a.bytes && HexText(c.digest(files[path])) == a.sha256
      && (a.tailStart > a.bytes || (a.tailTruncated && a.tailStart == 0) || (!a.tailTruncated && a.tailStart > 0) ||
          a.tail != c.lossy(files[path][a.tailStart..]))
  }

  lemma LogErrorMeans(c: Codecs, files: Files, a: OutputArtifact)
    requires CheckArtifact(c, files, a).Some?
    ensures LogFault(c, files, a, CheckArtifact(c, files, a).value)
  {
  }

  // ----- gates -----

  ghost predicate ErrorSays(error: Option<string>) {
    error.None? || TextSays(error.value)
  }

  ghost predicate StatusSays(g: GateEvidence) {
    && (g.status == Passed ==>
          g.exitCode == Some(0) && g.launchError == None && g.inputError == None && g.executableError == None)
    && (g.status == LaunchFailed ==> g.exitCode == None)
  }

  /** There is evidence of the executable exactly when it is attested and run directly; a change is an error. */
  ghost predicate ProgramSays(p: Policy, g: GateEvidence) {
    && (g.executable.Some? || g.executableError.Some? <==> p.executables && g.execution.Direct?)
    && (g.executable.Some? ==>
          && ExecutableSays(g.executable.value) && g.execution.Direct?
          && g.executable.value.requestedProgram == g.execution.program
          && (g.executable.value.before == g.executable.value.after || g.executableError.Some?))
  }

  ghost predicate GateSays(p: Policy, g: GateEvidence) {
    && ErrorSays(g.launchError) && ErrorSays(g.inputError) && ErrorSays(g.executableError)
    && StatusSays(g) && ProgramSays(p, g)
  }

  lemma GateMeans(p: Policy, g: GateEvidence)
    ensures ExecutableConsistent(p, g) <==> ProgramSays(p, g)
    ensures GateError(p, g).None? <==> GateSays(p, g)
    ensures GateError(p, g).Some? ==>
              if GateError(p, g) == Some(PassStatus) then !StatusSays(g)
              else GateError(p, g) == Some(ExecutableMismatch(g.gate)) &&
                   (!ErrorSays(g.launchError) || !ErrorSays(g.inputError) || !ErrorSays(g.executableError) ||
                    !ProgramSays(p, g))
  {
    if g.executable.Some? {
      ExecutableMeans(g.executable.value);
    }
    hide ValidExecutable, ExecutableSays, IsWhite;
  }

  // ----- the checkout -----

  /** Of an attested checkout every part that is there is valid, and without an error all parts are there, nothing
      changed, and the policy is met. */
  ghost predicate CheckoutSays(c: Codecs, p: Policy, checkout: Option<CheckoutAttestation>) {
    && (checkout.Some? <==> p.checkout)
    && (!p.checkout ==> p.expectedRevision == None && !p.requireClean)
    && (checkout.Some? ==>
          var a := checkout.value;
          && ErrorSays(a.error)
          && (a.git.Some? ==> ExecutableSays(a.git.value) && a.git.value.requestedProgram == "git")
          && (a.before.Some? ==> SnapshotSays(c, a.before.value))
          && (a.after.Some? ==> SnapshotSays(c, a.after.value))
          && (a.error == None ==>
                && a.git.Some? && a.git.value.before == a.git.value.after
                && a.before.Some? && a.after == a.before
                && !(p.requireClean && a.before.value.dirty)
                && (p.expectedRevision == None || p.expectedRevision == Some(a.before.value.revision))))
  }

  lemma CheckoutMeans(c: Codecs, p: Policy, checkout: Option<CheckoutAttestation>)
    ensures CheckoutConsistent(c, p, checkout) <==> CheckoutSays(c, p, checkout)
  {
    if checkout.Some? {
      var a := checkout.value;
      if a.git.Some? {
        ExecutableMeans(a.git.value);
      }
      if a.before.Some? {
        SnapshotMeans(c, a.before.value);
      }
      if a.after.Some? {
        SnapshotMeans(c, a.after.value);
      }
    }
    hide ValidExecutable, ExecutableSays, ValidSnapshot, SnapshotSays, IsWhite;
  }

  // ----- the bundle -----

  /** Passing evidence holds no error. */
  ghost predicate NoErrors(b: Bundle) {
    && (b.checkout.Some? ==> b.checkout.value.error == None)
    && forall i :: 0 <= i < |b.gates| ==>
         b.gates[i].inputError == None && b.gates[i].executableError == None && b.gates[i].launchError == None
  }

  ghost predicate GatesSay(b: Bundle) {
    forall i :: 0 <= i < |b.gates| ==> GateSays(b.policy, b.gates[i])
  }

  lemma {:induction false} FirstGateErrorAt(p: Policy, gates: seq<GateEvidence>) returns (i: nat)
    requires FirstGateError(p, gates).Some?
    ensures i < |gates| && FirstGateError(p, gates) == GateError(p, gates[i])
  {
    if GateError(p, gates[0]).Some? {
      i := 0;
    } else {
      i := FirstGateErrorAt(p, gates[1..]);
      i := i + 1;
    }
  }

  /** What is said to be wrong with the attestations. */
  ghost predicate AttestationFault(c: Codecs, b: Bundle, error: VerifyError) {
    match error
    case CheckoutMismatch =>
      || !CheckoutSays(c, b.policy, b.checkout)
      || (b.passed && b.checkout.Some? && b.checkout.value.error.Some?)
    case PassStatus =>
      (b.passed && !NoErrors(b)) || exists i :: 0 <= i < |b.gates| && !StatusSays(b.gates[i])
    case ExecutableMismatch(id) =>
      exists i :: 0 <= i < |b.gates| && b.gates[i].gate == id && !GateSays(b.policy, b.gates[i])
    case _ => false
  }

  /** What is said to be wrong with the attestations is, and nothing is wrong exactly when the checkout and the gates
      are as they should. */
  lemma AttestationMeans(c: Codecs, b: Bundle)
    ensures AttestationError(c, b).None? <==>
            CheckoutSays(c, b.policy, b.checkout) && GatesSay(b) && (b.passed ==> NoErrors(b))
    ensures AttestationError(c, b).Some? ==> AttestationFault(c, b, AttestationError(c, b).value)
  {
    CheckoutMeans(c, b.policy, b.checkout);
    forall i | 0 <= i < |b.gates|
      ensures GateError(b.policy, b.gates[i]).None? <==> GateSays(b.policy, b.gates[i])
    {
      GateMeans(b.policy, b.gates[i]);
    }
    hide CheckoutConsistent, CheckoutSays, GateError, GateSays, StatusSays;
    if CheckoutConsistent(c, b.policy, b.checkout) && FirstGateError(b.policy, b.gates).Some? {
      var i := FirstGateErrorAt(b.policy, b.gates);
      GateMeans(b.policy, b.gates[i]);
    }
  }

  // ----- acceptance -----

  /** Every selected gate is executed or skipped, none of them twice. */
  ghost predicate SetsSay(b: Bundle) {
    var executed := multiset(seq(|b.gates|, i requires 0 <= i < |b.gates| => b.gates[i].gate));
    && executed + multiset(b.skipped) == multiset(b.selected)
    && forall id :: multiset(b.selected)[id] <= 1
  }

  lemma SetsMean(b: Bundle)
    ensures SetsConsistent(b) <==> SetsSay(b)
  {
    var executed := ExecutedIds(b.gates);
    assert executed == seq(|b.gates|, i requires 0 <= i < |b.gates| => b.gates[i].gate);
    NoDuplicatesCounts(b.selected);
    NoDuplicatesCounts(executed);
    NoDuplicatesCounts(b.skipped);
    SplitOnce(b.selected, executed, b.skipped);
  }

  lemma SplitOnce(selected: seq<string>, executed: seq<string>, skipped: seq<string>)
    ensures (forall x :: multiset(selected)[x] <= 1) && (forall x :: multiset(executed)[x] <= 1) &&
            (forall x :: multiset(skipped)[x] <= 1) &&
            (forall id :: id in selected <==> id in executed || id in skipped) &&
            (forall id :: !(id in executed && id in skipped)) <==>
            (forall x :: multiset(selected)[x] <= 1) && multiset(executed) + multiset(skipped) == multiset(selected)
  {
    forall id
      ensures (id in selected <==> multiset(selected)[id] > 0) && (id in executed <==> multiset(executed)[id] > 0)
      ensures id in skipped <==> multiset(skipped)[id] > 0
    {
    }
    var both := multiset(executed) + multiset(skipped);
    assert forall x :: both[x] == multiset(executed)[x] + multiset(skipped)[x];
  }

  /** The first gate of this name in the manifest is defined as recorded. */
  ghost predicate DefinitionSays(m: Manifest, g: GateEvidence) {
    exists k ::
      && 0 <= k < |m.gates| && m.gates[k].id == g.gate && (forall j :: 0 <= j < k ==> m.gates[j].id != g.gate)
      && m.gates[k].execution == g.execution && m.gates[k].inputs == g.inputs
      && m.gates[k].targets == g.declaredTargets
  }

  lemma {:induction false} FirstGateAt(gates: seq<Gate>, id: string) returns (k: nat)
    requires FirstGate(gates, id).Some?
    ensures k < |gates| && gates[k] == FirstGate(gates, id).value && gates[k].id == id
    ensures forall j :: 0 <= j < k ==> gates[j].id != id
  {
    if gates[0].id == id {
      k := 0;
    } else {
      k := FirstGateAt(gates[1..], id);
      k := k + 1;
    }
  }

  lemma DefinitionMeans(m: Manifest, g: GateEvidence)
    ensures m.FindGate(g.gate).Some? && SameDefinition(m.FindGate(g.gate).value, g) <==> DefinitionSays(m, g)
  {
    if m.FindGate(g.gate).Some? {
      var k := FirstGateAt(m.gates, g.gate);
    }
  }

  /** Everything an accepted bundle says. */
  ghost predicate BundleSays(c: Codecs, m: Manifest, manifestSha: string, files: Files, b: Bundle) {
    && b.schemaVersion == 3 && b.project == m.project && b.baseline == m.baseline && b.manifestSha256 == manifestSha
    && CheckoutSays(c, b.policy, b.checkout) && GatesSay(b) && SetsSay(b)
    && (forall id :: id in b.selected ==> exists k :: 0 <= k < |m.gates| && m.gates[k].id == id)
    && (forall g :: g in b.gates ==> DefinitionSays(m, g) && LogSays(c, files, g.stdout) && LogSays(c, files, g.stderr))
    && (b.passed ==> NoErrors(b) && b.skipped == [])
    && (b.passed <==>
        && (b.checkout.Some? ==> b.checkout.value.error == None) && b.skipped == []
        && forall g :: g in b.gates ==> g.status == Passed)
  }

  lemma GatesMatch(c: Codecs, m: Manifest, files: Files, gates: seq<GateEvidence>)
    requires c.Sound()
    ensures AllMatch(c, m, files, gates) <==>
            forall g :: g in gates ==>
              DefinitionSays(m, g) && LogSays(c, files, g.stdout) && LogSays(c, files, g.stderr)
  {
    forall g
      ensures GateMatches(c, m, files, g) <==>
              DefinitionSays(m, g) && LogSays(c, files, g.stdout) && LogSays(c, files, g.stderr)
    {
      DefinitionMeans(m, g);
      LogMeans(c, files, g.stdout);
      LogMeans(c, files, g.stderr);
    }
    hide GateMatches, DefinitionSays, LogSays;
    if AllMatch(c, m, files, gates) {
      forall g | g in gates ensures GateMatches(c, m, files, g) {
        var i :| 0 <= i < |gates| && gates[i] == g;
        AllMatchElement(c, m, files, gates, i);
      }
    }
    if forall g :: g in gates ==> GateMatches(c, m, files, g) {
      AllMatchFrom(c, m, files, gates);
    }
  }

  lemma KnownMeans(m: Manifest, ids: seq<string>)
    ensures AllKnown(m, ids) <==>
            forall id :: id in ids ==> exists k :: 0 <= k < |m.gates| && m.gates[k].id == id
  {
    forall id ensures m.FindGate(id).Some? <==> exists k :: 0 <= k < |m.gates| && m.gates[k].id == id {
      assert m.FindGate(id).None? <==> forall k :: 0 <= k < |m.gates| ==> m.gates[k].id != id;
    }
  }

  lemma PassedMeans(b: Bundle)
    requires SetsSay(b)
    ensures ComputedPassed(b) <==>
            && (b.checkout.Some? ==> b.checkout.value.error == None) && b.skipped == []
            && forall g :: g in b.gates ==> g.status == Passed
  {
    var executed := seq(|b.gates|, i requires 0 <= i < |b.gates| => b.gates[i].gate);
    assert |multiset(b.selected)| == |multiset(executed)| + |multiset(b.skipped)|;
  }

  /** A bundle is accepted exactly when it says all this. */
  lemma AcceptsMeans(c: Codecs, m: Manifest, manifestSha: string, files: Files, b: Bundle)
    requires c.Sound()
    ensures Accepts(c, m, manifestSha, files, b) <==> BundleSays(c, m, manifestSha, files, b)
  {
    hide AttestationError, CheckoutSays, GatesSay, SetsSay, SetsConsistent, AllKnown, AllMatch, DefinitionSays, LogSays,
         ComputedPassed, NoErrors;
    AttestationMeans(c, b);
    SetsMean(b);
    KnownMeans(m, b.selected);
    GatesMatch(c, m, files, b.gates);
    if SetsSay(b) {
      PassedMeans(b);
    }
  }
}
