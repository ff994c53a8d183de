/** What the checkout record of a run says, read directly from what was found and captured. */
module CheckoutRecords {
  import opened Wrappers
  import opened EvidenceModel
  import opened GitStatus
  import opened EvidenceRun

  /** What is wrong with the checkout before any gate runs: the revision comes before the changes. */
  ghost predicate StartFault(o: Options, s: GitSnapshot, text: string) {
    if o.expectedRevision.None? || o.expectedRevision.value == s.revision then
      o.requireClean && s.dirty && text == "checkout is dirty"
    else
      text == "checkout revision " + s.revision + " does not match expected revision " + o.expectedRevision.value
  }

  lemma PreflightMeans(o: Options, s: GitSnapshot, text: string)
    ensures Preflight(s, o) == Some(text) <==> StartFault(o, s, text)
    ensures Preflight(s, o).None? <==>
            (o.expectedRevision.None? || o.expectedRevision == Some(s.revision)) && !(o.requireClean && s.dirty)
  {
  }

  /** Gates are kept from running exactly when the checkout is attested and Git is not found, the state cannot be
      captured, or it is not what is asked for. */
  lemma PreflightErrorMeans(c: Codecs, o: Options, w: World)
    ensures PreflightError(c, o, w).None? <==>
            (o.attestCheckout ==>
               && w.git.Ok? && Capture(c, w.git.value.invocationPath, w.before).Ok?
               && var s := Capture(c, w.git.value.invocationPath, w.before).value;
                  (o.expectedRevision.None? || o.expectedRevision == Some(s.revision)) && !(o.requireClean && s.dirty))
  {
    hide Complete, SnapshotOf, FailureOf, Capture;
  }

  /** All texts, one after the other with a semicolon and a space between them. */
  function Listed(texts: seq<string>): string {
    if texts == [] then "" else if |texts| == 1 then texts[0] else texts[0] + "; " + Listed(texts[1..])
  }

  lemma {:induction false} PushedListed(first: string, more: seq<string>)
    ensures PushErrors(Some(first), more) == Some(Listed([first] + more))
    decreases |more|
  {
    if more == [] {
      assert [first] + more == [first];
    } else {
      PushedListed(first + "; " + more[0], more[1..]);
      ListedFront(first, more[0], more[1..]);
      assert [first] + more == [first, more[0]] + more[1..];
    }
  }

  lemma {:induction false} ListedFront(a: string, b: string, more: seq<string>)
    ensures Listed([a + "; " + b] + more) == Listed([a, b] + more)
  {
    assert ([a, b] + more)[1..] == [b] + more && ([a + "; " + b] + more)[1..] == more && ([b] + more)[1..] == more;
    if more != [] {
      var rest := Listed(more);
      assert a + "; " + b + "; " + rest == a + "; " + (b + "; " + rest);
    }
  }

  /** Nothing but an error when Git or the state before the gates is missing; otherwise both states as captured, Git
      with the file it was found as and the file it is at the end, and no error exactly when everything is as asked
      for and unchanged. */
  ghost predicate CheckoutSays(c: Codecs, o: Options, w: World, a: CheckoutAttestation) {
    if w.git.Err? then a.git.None? && a.before.None? && a.after.None? && a.error == Some(w.git.error)
    else
      var git := w.git.value;
      var before, after := Capture(c, git.invocationPath, w.before), Capture(c, git.invocationPath, w.after);
      if before.Err? then
        a.git.None? && a.before.None? && a.after.None? && a.error == Some(before.error.Text())
      else
        && a.before == Some(before.value) && (a.after.Some? <==> after.Ok?)
        && (a.after.Some? ==> a.after == Some(after.value))
        && (a.git.Some? <==> w.gitAfter.Ok?)
        && (a.git.Some? ==>
              && a.git.value.requestedProgram == "git" && a.git.value.invocationPath == git.invocationPath
              && a.git.value.resolvedPath == git.resolvedPath && a.git.value.before == git.before
              && a.git.value.after == w.gitAfter.value)
        && (a.error.None? <==>
            && w.gitAfter == Ok(git.before) && after == Ok(before.value)
            && (o.expectedRevision.None? || o.expectedRevision == Some(before.value.revision))
            && !(o.requireClean && before.value.dirty))
        && a.error == Errors(o, before.value, git, w.gitAfter, after)
  }

  /** All that is wrong: at the start, with Git at the end, with the state at the end, and what changed. */
  ghost function Errors(
    o: Options, before: GitSnapshot, git: ResolvedProgram, gitAfter: Result<FileIdentity, string>,
    after: Result<GitSnapshot, CaptureError>)
    : Option<string>
  {
    var texts :=
      (if Preflight(before, o).Some? then [Preflight(before, o).value] else []) +
      (if gitAfter.Err? then [gitAfter.error] else []) + (if after.Err? then [after.error.Text()] else []) +
      (if gitAfter.Ok? && gitAfter.value != git.before then ["git executable changed during execution"] else []) +
      (if after.Ok? && after.value != before then ["checkout state changed during execution"] else []);
    if texts == [] then None else Some(Listed(texts))
  }

  lemma PushedAll(first: Option<string>, more: seq<string>)
    ensures PushErrors(first, more) ==
            var texts := (if first.Some? then [first.value] else []) + more;
            if texts == [] then None else Some(Listed(texts))
  {
    match first {
      case Some(text) => PushedListed(text, more);
      case None =>
        assert [] + more == more;
        if more != [] {
          PushedListed(more[0], more[1..]);
          assert [more[0]] + more[1..] == more;
        }
    }
  }

  lemma CheckoutMeans(c: Codecs, o: Options, w: World, a: CheckoutAttestation)
    requires CheckoutOutcome(c, o, w, a)
    ensures CheckoutSays(c, o, w, a)
  {
    hide Complete, SnapshotOf, FailureOf, Capture, CaptureError.Text;
    if w.git.Ok? && Capture(c, w.git.value.invocationPath, w.before).Ok? {
      var runtime := Begin(c, w).value;
      var after := AfterOf(c, runtime, w);
      var first, more := Preflight(runtime.before, o), FinishErrors(runtime, w.gitAfter, after);
      PushedAll(first, more);
      PreflightMeans(o, runtime.before, "");
      hide Preflight, Listed, PushErrors;
      ErrorsListed(o, runtime, w.gitAfter, after);
    }
  }

  lemma ErrorsListed(
    o: Options, runtime: CheckoutRuntime, gitAfter: Result<FileIdentity, string>,
    after: Result<GitSnapshot, CaptureError>)
    ensures var first := Preflight(runtime.before, o);
            var texts := (if first.Some? then [first.value] else []) + FinishErrors(runtime, gitAfter, after);
            && Errors(o, runtime.before, runtime.git, gitAfter, after) ==
               (if texts == [] then None else Some(Listed(texts)))
            && (texts == [] <==> first.None? && gitAfter == Ok(runtime.git.before) && after == Ok(runtime.before))
  {
    hide Preflight, Listed, CaptureError.Text;
    var first := if Preflight(runtime.before, o).Some? then [Preflight(runtime.before, o).value] else [];
    var a: seq<string> := if gitAfter.Err? then [gitAfter.error] else [];
    var b: seq<string> := if after.Err? then [after.error.Text()] else [];
    var d := if gitAfter.Ok? && gitAfter.value != runtime.git.before then [GIT_CHANGED] else [];
    var e := if after.Ok? && after.value != runtime.before then [CHECKOUT_CHANGED] else [];
    assert FinishErrors(runtime, gitAfter, after) == a + b + d + e;
    assert first + (a + b + d + e) == first + a + b + d + e;
  }
}
