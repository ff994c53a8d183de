/** What a gate's record says, read directly from the answers of the system. */
module GateRecords {
  import opened Wrappers
  import opened ManifestModel
  import opened EvidenceModel
  import opened EvidenceStore
  import opened GateInputs
  import opened EvidenceRun

  /** The program of this gate is attested. */
  predicate MustAttest(gate: Gate, o: Options) {
    o.attestExecutables && gate.execution.Direct?
  }

  /** The program may be started: its inputs match, and it was found if it is attested. */
  predicate MayStart(c: Codecs, gate: Gate, o: Options, a: GateAnswers) {
    InputsMatch(c, gate.inputs, a.inputsBefore) && (MustAttest(gate, o) ==> a.resolution.Ok?)
  }

  predicate Started(c: Codecs, gate: Gate, o: Options, a: GateAnswers) {
    MayStart(c, gate, o, a) && a.launch.Exited?
  }

  /** The inputs still match at the end, and an attested program is still the same file. */
  predicate Steady(c: Codecs, gate: Gate, o: Options, a: GateAnswers) {
    && InputsMatch(c, gate.inputs, a.inputsAfter)
    && (MustAttest(gate, o) ==> a.resolution.Ok? && a.identityAfter == Ok(a.resolution.value.before))
  }

  /** A record gives the gate one of four states: not started, killed at the time limit, ended with zero in time with
      everything unchanged, or ended in time otherwise. */
  lemma StatusMeans(c: Codecs, gate: Gate, o: Options, a: GateAnswers, e: GateEvidence)
    requires GateOutcome(c, gate, o, Seen(c, gate, a), e)
    ensures e.status == LaunchFailed <==> !Started(c, gate, o, a)
    ensures e.status == TimedOut <==> Started(c, gate, o, a) && a.launch.timedOut
    ensures e.status == Passed <==>
            Started(c, gate, o, a) && !a.launch.timedOut && a.launch.code == Some(0) && Steady(c, gate, o, a)
    ensures e.status == Failed <==>
            Started(c, gate, o, a) && !a.launch.timedOut && !(a.launch.code == Some(0) && Steady(c, gate, o, a))
    ensures e.exitCode == if Started(c, gate, o, a) then a.launch.code else None
  {
    hide InputsMatch, InputProblemOf, GateLogs, ArtifactOf;
    InputProblemMeans(c, gate.inputs, a.inputsBefore);
    InputProblemMeans(c, gate.inputs, a.inputsAfter);
  }

  /** The errors of a record: of starting the program, of the inputs before or else after it, and of its file. */
  lemma ErrorsMean(c: Codecs, gate: Gate, o: Options, a: GateAnswers, e: GateEvidence, text: string)
    requires GateOutcome(c, gate, o, Seen(c, gate, a), e)
    ensures e.launchError == Some(text) <==> MayStart(c, gate, o, a) && a.launch == SpawnFailed(text)
    ensures e.inputError.None? <==>
            InputsMatch(c, gate.inputs, a.inputsBefore) && InputsMatch(c, gate.inputs, a.inputsAfter)
    ensures !InputsMatch(c, gate.inputs, a.inputsBefore) ==>
              exists p :: InputProblemOf(c, gate.inputs, a.inputsBefore) == Some(p) && e.inputError == Some(p.Text())
    ensures InputsMatch(c, gate.inputs, a.inputsBefore) && !InputsMatch(c, gate.inputs, a.inputsAfter) ==>
              exists p :: InputProblemOf(c, gate.inputs, a.inputsAfter) == Some(p) && e.inputError == Some(p.Text())
    ensures e.executableError == Some(text) <==>
            && MustAttest(gate, o) && InputsMatch(c, gate.inputs, a.inputsBefore)
            && (|| a.resolution == Err(text)
                || (a.resolution.Ok? && a.identityAfter == Err(text))
                || (a.resolution.Ok? && a.identityAfter.Ok? && a.identityAfter.value != a.resolution.value.before &&
                    text == "gate executable changed during execution"))
  {
    hide InputsMatch, InputProblemOf, GateLogs, ArtifactOf, InputProblem.Text;
    InputProblemMeans(c, gate.inputs, a.inputsBefore);
    InputProblemMeans(c, gate.inputs, a.inputsAfter);
  }

  /** An attested program is recorded when it was found and could be identified again, with both identities. */
  lemma ExecutableMeans(c: Codecs, gate: Gate, o: Options, a: GateAnswers, e: GateEvidence)
    requires GateOutcome(c, gate, o, Seen(c, gate, a), e)
    ensures e.executable.Some? <==>
            MustAttest(gate, o) && MayStart(c, gate, o, a) && a.resolution.Ok? && a.identityAfter.Ok?
    ensures e.executable.Some? ==>
              var x, p := e.executable.value, a.resolution.value;
              && x.requestedProgram == gate.execution.program && x.invocationPath == p.invocationPath
              && x.resolvedPath == p.resolvedPath && x.before == p.before && x.after == a.identityAfter.value
  {
    hide InputsMatch, InputProblemOf, GateLogs, ArtifactOf;
    InputProblemMeans(c, gate.inputs, a.inputsBefore);
  }

  // ----- the logs -----

  /** The error is the last line of the log behind it, and all before it is the log before. */
  ghost predicate AddsLine(c: Codecs, before: Bytes, error: Option<string>, after: Bytes) {
    match error
    case None => after == before
    case Some(text) =>
      var line := c.utf8(text);
      && before <= after && |line| <= |after| && after[|after| - |line|..] == line
      && |after| == |before| + |line| + (if before == [] then 0 else 1)
      && (before != [] ==> after[|before|] == 10)
  }

  lemma AppendAddsLine(c: Codecs, before: Bytes, error: Option<string>)
    ensures AddsLine(c, before, error, AppendError(c, before, error))
  {
  }

  /** Standard output is stored as it is; standard error with the recorded errors behind it, each on a line. */
  lemma LogsMean(c: Codecs, gate: Gate, o: Options, a: GateAnswers, e: GateEvidence)
    requires GateOutcome(c, gate, o, Seen(c, gate, a), e)
    ensures IsArtifact(c, a.stdout, o.maxTailBytes, e.stdout)
    ensures exists launched, checked, log ::
              && AddsLine(c, a.stderr, e.launchError, launched) && AddsLine(c, launched, e.inputError, checked)
              && AddsLine(c, checked, e.executableError, log) && IsArtifact(c, log, o.maxTailBytes, e.stderr)
  {
    hide AddsLine, AppendError, ArtifactOf, IsArtifact, LaunchError, InputError, ExecutableError, StatusOf,
         ExecutableOf;
    var launched := AppendError(c, a.stderr, e.launchError);
    var checked := AppendError(c, launched, e.inputError);
    var log := AppendError(c, checked, e.executableError);
    AppendAddsLine(c, a.stderr, e.launchError);
    AppendAddsLine(c, launched, e.inputError);
    AppendAddsLine(c, checked, e.executableError);
    ArtifactMeans(c, a.stdout, o.maxTailBytes);
    ArtifactMeans(c, log, o.maxTailBytes);
  }
}
