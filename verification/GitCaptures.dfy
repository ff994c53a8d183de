/** What a snapshot of a checkout, or the failure to take one, says about the answers of Git. */
module GitCaptures {
  import opened Wrappers
  import opened EvidenceModel
  import opened Texts
  import opened GitStatus

  /** The commands in the order they are run, with their arguments. */
  function Commands(a: GitAnswers): seq<(string, Command)> {
    [("rev-parse --show-toplevel", a.root), ("rev-parse --verify HEAD", a.revision),
     ("symbolic-ref --short -q HEAD", a.branch),
     ("status --porcelain=v2 -z --untracked-files=all --ignore-submodules=none", a.status),
     ("submodule status --recursive", a.submodules)]
  }

  /** The command ended with 0; the one for the branch may also end with 1 and say nothing. */
  ghost predicate Answered(a: GitAnswers, i: nat)
    requires i < 5
  {
    var command := Commands(a)[i].1;
    command.Ended? &&
    (command.status.code == Some(0) ||
     (i == 2 && command.status.code == Some(1) && command.stdout == [] && command.stderr == []))
  }

  /** What a command printed. */
  function Output(command: Command): Bytes {
    match command
    case NotLaunched(_) => []
    case Ended(_, stdout, _) => stdout
  }

  /** Some command is the first without an answer, and it ended so. */
  ghost predicate FirstUnanswered(a: GitAnswers, args: string, command: Command) {
    exists i: nat :: i < 5 && !Answered(a, i) && (forall j: nat :: j < i ==> Answered(a, j)) &&
                     Commands(a)[i] == (args, command)
  }

  /** The text without the whitespace around it. */
  ghost predicate Within(text: string, whole: string) {
    Trimmed(text) && exists before, after :: whole == before + text + after && AllWhite(before) && AllWhite(after)
  }

  ghost predicate AllWhite(s: string) {
    forall i :: 0 <= i < |s| ==> IsWhite(s[i])
  }

  lemma {:induction false} StartWhite(s: string) returns (before: string)
    ensures s == before + TrimStart(s) && AllWhite(before)
  {
    if s != "" && IsWhite(s[0]) {
      var rest := StartWhite(s[1..]);
      before := [s[0]] + rest;
    } else {
      before := "";
    }
  }

  lemma {:induction false} EndWhite(s: string) returns (after: string)
    ensures s == TrimEnd(s) + after && AllWhite(after)
  {
    if s != "" && IsWhite(s[|s| - 1]) {
      var rest := EndWhite(s[..|s| - 1]);
      after := rest + [s[|s| - 1]];
      assert s == s[..|s| - 1] + [s[|s| - 1]];
    } else {
      after := "";
    }
  }

  lemma TrimMeans(s: string)
    ensures Trim(s) != "" ==> Within(Trim(s), s)
    ensures Trim(s) == "" <==> AllWhite(s)
  {
    var before := StartWhite(s);
    var after := EndWhite(TrimStart(s));
    assert s == before + Trim(s) + after;
    if Trim(s) != "" {
      TrimIsTrimmed(s);
      assert s[|before|] == Trim(s)[0];
    }
  }

  /** The root with slashes, and the trimmed revision and branch, each from its own command. */
  ghost predicate NamesMean(c: Codecs, a: GitAnswers, s: GitSnapshot) {
    && a.canonicalRoot.Ok? && a.workdir == a.canonicalRoot && |s.root| == |a.canonicalRoot.value|
    && (forall i :: 0 <= i < |s.root| ==>
          s.root[i] == if a.canonicalRoot.value[i] == '\\' then '/' else a.canonicalRoot.value[i])
    && c.strict(Output(a.revision)).Some? && Within(s.revision, c.strict(Output(a.revision)).value)
    && (s.branch.None? <==> a.branch.Ended? && a.branch.status.code == Some(1))
    && (s.branch.Some? ==>
          c.strict(Output(a.branch)).Some? && Within(s.branch.value, c.strict(Output(a.branch)).value))
  }

  /** The digest and the number of whole records of the status, and the digest and the lines of the submodules. */
  ghost predicate StatusMeans(c: Codecs, a: GitAnswers, s: GitSnapshot) {
    && (s.dirty <==> Output(a.status) != []) && s.statusSha256 == HexText(c.digest(Output(a.status)))
    && (exists records :: |records| == s.statusEntries && Whole(Fields(Output(a.status)), records))
    && s.submoduleStatusSha256 == HexText(c.digest(Output(a.submodules)))
    && s.submodules == Lines(c.lossy(Output(a.submodules)))
  }

  /** The failure is true of the answers. */
  ghost predicate FailureMeans(c: Codecs, git: string, a: GitAnswers, e: CaptureError) {
    match e
    case NoWorkdir(error) => a.workdir == Err(error)
    case NoLaunch(program, error) =>
      program == git && exists args :: FirstUnanswered(a, args, NotLaunched(error))
    case GitFailed(args, text, stderr) =>
      exists code, stdout, printed ::
        FirstUnanswered(a, args, Ended(ExitStatus(code, text), stdout, printed)) && stderr == c.lossy(printed)
    case NotUtf8(field) =>
      || (field == "git checkout root" && Answered(a, 0) && c.strict(Output(a.root)).None?)
      || (field == "git revision" && Answered(a, 1) && c.strict(Output(a.revision)).None?)
      || (field == "git branch" && Answered(a, 2) && c.strict(Output(a.branch)).None?)
    case Empty(field) =>
      || (field == "git revision" && Answered(a, 1) && c.strict(Output(a.revision)).Some? &&
          AllWhite(c.strict(Output(a.revision)).value))
      || (field == "git branch" && Answered(a, 2) && c.strict(Output(a.branch)).Some? &&
          AllWhite(c.strict(Output(a.branch)).value))
    case NoRoot(error) => a.canonicalRoot == Err(error)
    case OtherRoot(workdir, root) => a.workdir == Ok(workdir) && a.canonicalRoot == Ok(root) && workdir != root
    case BadRecord(problem) =>
      && (forall i: nat :: i < 5 ==> Answered(a, i))
      && exists records, k ::
           && 0 <= k <= |Fields(Output(a.status))|
           && Whole(Fields(Output(a.status))[..k], records) && Broken(Fields(Output(a.status))[k..], problem)
  }

  lemma CommandFailure(c: Codecs, git: string, a: GitAnswers, i: nat)
    requires i < 5 && !Answered(a, i) && forall j: nat :: j < i ==> Answered(a, j)
    ensures FailureMeans(c, git, a, CommandError(c, git, Commands(a)[i].0, Commands(a)[i].1))
  {
    var args, command := Commands(a)[i].0, Commands(a)[i].1;
    assert FirstUnanswered(a, args, command);
    match command {
      case NotLaunched(error) =>
      case Ended(status, stdout, stderr) => assert status == ExitStatus(status.code, status.text);
    }
  }

  lemma TextFailure(c: Codecs, git: string, a: GitAnswers, i: nat, field: string)
    requires (i == 1 && field == REVISION) || (i == 2 && field == BRANCH)
    requires Answered(a, i) && !Readable(c, Printed(Commands(a)[i].1))
    ensures FailureMeans(c, git, a, TextError(c, Printed(Commands(a)[i].1), field))
  {
    var bytes := Printed(Commands(a)[i].1);
    if c.strict(bytes).Some? {
      TrimMeans(c.strict(bytes).value);
    }
  }

  lemma RecordFailure(c: Codecs, git: string, a: GitAnswers)
    requires (forall i: nat :: i < 5 ==> Answered(a, i)) && Records(Fields(Printed(a.status))).Err?
    ensures FailureMeans(c, git, a, BadRecord(Records(Fields(Printed(a.status))).error))
  {
    assert Answered(a, 3);
    var records, k := RecordsBreak(Fields(Output(a.status)));
  }

  lemma AllAnswered(a: GitAnswers)
    ensures Answered(a, 0) <==> Succeeds(a.root)
    ensures Answered(a, 1) <==> Succeeds(a.revision)
    ensures Answered(a, 2) <==> Succeeds(a.branch) || NoBranch(a.branch)
    ensures Answered(a, 3) <==> Succeeds(a.status)
    ensures Answered(a, 4) <==> Succeeds(a.submodules)
    ensures Commands(a)[0] == (ROOT_ARGS, a.root) && Commands(a)[1] == (REVISION_ARGS, a.revision)
    ensures Commands(a)[2] == (BRANCH_ARGS, a.branch) && Commands(a)[3] == (STATUS_ARGS, a.status)
    ensures Commands(a)[4] == (SUBMODULE_ARGS, a.submodules)
  {
  }

  lemma FailureIsTrue(c: Codecs, git: string, a: GitAnswers)
    requires !Complete(c, a)
    ensures FailureMeans(c, git, a, FailureOf(c, git, a))
  {
    AllAnswered(a);
    hide Answered, Commands, Succeeds, NoBranch, Readable, Records, Fields, CommandError, TextError;
    if a.workdir.Err? {
    } else if !Answered(a, 0) {
      CommandFailure(c, git, a, 0);
    } else if c.strict(Printed(a.root)).None? {
      OutputPrinted(a.root);
    } else if a.canonicalRoot != a.workdir {
    } else if !Answered(a, 1) {
      CommandFailure(c, git, a, 1);
    } else if !Readable(c, Printed(a.revision)) {
      TextFailure(c, git, a, 1, REVISION);
    } else if !Answered(a, 2) {
      CommandFailure(c, git, a, 2);
    } else if Succeeds(a.branch) && !Readable(c, Printed(a.branch)) {
      TextFailure(c, git, a, 2, BRANCH);
    } else if !Answered(a, 3) {
      CommandFailure(c, git, a, 3);
    } else if !Answered(a, 4) {
      CommandFailure(c, git, a, 4);
    } else {
      RecordFailure(c, git, a);
    }
  }

  lemma OutputPrinted(command: Command)
    ensures Output(command) == Printed(command)
  {
  }

  lemma NamesAreTrue(c: Codecs, a: GitAnswers)
    requires Complete(c, a)
    ensures NamesMean(c, a, SnapshotOf(c, a))
  {
    hide Records, Fields, Within, Trim, HexText, Lines;
    OutputPrinted(a.revision);
    OutputPrinted(a.branch);
    TrimMeans(c.strict(Printed(a.revision)).value);
    if !NoBranch(a.branch) {
      TrimMeans(c.strict(Printed(a.branch)).value);
    }
  }

  lemma StatusIsTrue(c: Codecs, a: GitAnswers)
    requires Complete(c, a)
    ensures StatusMeans(c, a, SnapshotOf(c, a))
  {
    hide Records, Fields, Whole, Trim, HexText, Lines, Readable, DisplayPath;
    OutputPrinted(a.status);
    OutputPrinted(a.submodules);
    RecordsAreWhole(Fields(Printed(a.status)), Records(Fields(Printed(a.status))).value);
  }

  /** Taking a snapshot succeeds with what the commands printed or fails for a reason that is true of the answers. */
  lemma CaptureMeans(c: Codecs, git: string, a: GitAnswers)
    ensures var r := Capture(c, git, a);
            if r.Err? then FailureMeans(c, git, a, r.error)
            else NamesMean(c, a, r.value) && StatusMeans(c, a, r.value) && forall i: nat :: i < 5 ==> Answered(a, i)
  {
    hide FailureOf, FailureMeans, NamesMean, StatusMeans, SnapshotOf, Readable, Records, Fields;
    if Complete(c, a) {
      AllAnswered(a);
      hide Answered;
      NamesAreTrue(c, a);
      StatusIsTrue(c, a);
    } else {
      FailureIsTrue(c, git, a);
    }
  }
}
