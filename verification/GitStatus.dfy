/** Snapshots of a Git checkout, taken from the output of Git. */
module GitStatus {
  import opened Wrappers
  import opened EvidenceModel
  import opened Texts

  datatype RecordError = UnknownRecord(kind: Byte) | MissingPath

  // ----- porcelain status records -----

  type Field = f: Bytes | f != [] witness [1]

  /** The non-empty fields between NUL bytes. */
  function Fields(status: Bytes): seq<Field> {
    FieldsFrom(status, [])
  }

  function FieldsFrom(status: Bytes, current: Bytes): seq<Field> {
    if status == [] then (if current == [] then [] else [current])
    else if status[0] == 0 then (if current == [] then [] else [current]) + FieldsFrom(status[1..], [])
    else FieldsFrom(status[1..], current + [status[0]])
  }

  /** Every field ended by a NUL byte. */
  function Terminated(fields: seq<Field>): Bytes {
    if fields == [] then [] else fields[0] + [0] + Terminated(fields[1..])
  }

  /** Fields without NUL bytes are found again. */
  lemma {:induction false} FieldsFound(fields: seq<Field>)
    requires forall i :: 0 <= i < |fields| ==> 0 !in fields[i]
    ensures Fields(Terminated(fields)) == fields
  {
    if fields != [] {
      FieldsFound(fields[1..]);
      FieldFound([], fields[0], Terminated(fields[1..]));
      assert [] + fields[0] == fields[0];
      assert fields[0] + ([0] + Terminated(fields[1..])) == Terminated(fields);
    }
  }

  lemma {:induction false} FieldFound(current: Bytes, field: Bytes, rest: Bytes)
    requires 0 !in field && current + field != []
    ensures FieldsFrom(field + ([0] + rest), current) == [current + field] + FieldsFrom(rest, [])
    decreases |field|
  {
    var all := field + ([0] + rest);
    if field == [] {
      assert all == [0] + rest && all[1..] == rest && current + field == current;
    } else {
      assert all[0] == field[0] && all[1..] == field[1..] + ([0] + rest);
      assert (current + [field[0]]) + field[1..] == current + field;
      FieldFound(current + [field[0]], field[1..], rest);
    }
  }

  lemma {:induction false} FieldsEmpty(status: Bytes, current: Bytes)
    ensures FieldsFrom(status, current) == [] <==> current == [] && forall i :: 0 <= i < |status| ==> status[i] == 0
  {
    if status != [] {
      FieldsEmpty(status[1..], if status[0] == 0 then [] else current + [status[0]]);
      assert (forall i :: 0 <= i < |status| ==> status[i] == 0) <==>
             status[0] == 0 && forall i :: 0 <= i < |status[1..]| ==> status[1..][i] == 0 by {
        assert forall i :: 0 <= i < |status[1..]| ==> status[1..][i] == status[i + 1];
        assert forall i :: 1 <= i < |status| ==> status[i] == status[1..][i - 1];
      }
    }
  }

  /** Ordinary `1`, renamed `2`, unmerged `u`, untracked `?` and ignored `!` records. */
  predicate RecordKind(b: Byte) {
    b == '1' as int || b == '2' as int || b == 'u' as int || b == '?' as int || b == '!' as int
  }

  /** A renamed record is followed by its original path. */
  function RecordLength(field: Field): nat {
    if field[0] == '2' as int then 2 else 1
  }

  /** The number of records, or what is wrong with the first one that is not complete. */
  function Records(fields: seq<Field>): Result<nat, RecordError> {
    if fields == [] then Ok(0)
    else if !RecordKind(fields[0][0]) then Err(UnknownRecord(fields[0][0]))
    else if RecordLength(fields[0]) > |fields| then Err(MissingPath)
    else More(1, Records(fields[RecordLength(fields[0])..]))
  }

  function More(count: nat, records: Result<nat, RecordError>): Result<nat, RecordError> {
    match records
    case Ok(n) => Ok(count + n)
    case Err(e) => Err(e)
  }

  /** The records after the given position. */
  lemma NextRecord(fields: seq<Field>, index: nat)
    requires index < |fields| && RecordKind(fields[index][0])
    ensures var next := index + RecordLength(fields[index]);
            Records(fields[index..]) ==
            if next > |fields| then Err(MissingPath) else More(1, Records(fields[next..]))
  {
    var next := index + RecordLength(fields[index]);
    assert next <= |fields| ==> fields[index..][RecordLength(fields[index])..] == fields[next..];
  }

  method CountEntries(status: Bytes) returns (r: Result<nat, RecordError>)
    ensures r == Records(Fields(status))
  {
    var fields := Fields(status);
    var count, index := 0, 0;
    while index < |fields|
      invariant index <= |fields|
      invariant Records(fields) == More(count, Records(fields[index..]))
    {
      var kind := fields[index][0];
      if !RecordKind(kind) {
        return Err(UnknownRecord(kind));
      }
      NextRecord(fields, index);
      count := count + 1;
      index := index + if kind == '2' as int then 2 else 1;
      if index > |fields| {
        return Err(MissingPath);
      }
    }
    return Ok(count);
  }

  /** One field that starts with `1`, `u`, `?` or `!`, or two of which the first starts with `2`. */
  ghost predicate IsRecord(record: seq<Field>) {
    || (|record| == 1 && record[0][0] as char in {'1', 'u', '?', '!'})
    || (|record| == 2 && record[0][0] as char == '2')
  }

  /** The fields are these records, one after the other. */
  ghost predicate Whole(fields: seq<Field>, records: seq<seq<Field>>) {
    if records == [] then fields == []
    else
      && IsRecord(records[0]) && records[0] <= fields && Whole(fields[|records[0]|..], records[1..])
  }

  lemma FirstRecord(fields: seq<Field>, record: seq<Field>)
    requires IsRecord(record) && record <= fields
    ensures record != [] && fields != [] && RecordKind(fields[0][0]) && RecordLength(fields[0]) == |record|
  {
    assert fields[0] == record[0];
  }

  lemma RecordAhead(fields: seq<Field>)
    requires fields != [] && RecordKind(fields[0][0]) && RecordLength(fields[0]) <= |fields|
    ensures IsRecord(fields[..RecordLength(fields[0])])
  {
  }

  /** Entries are counted exactly when the fields are a sequence of whole records, and then they are its length. */
  lemma {:induction false} RecordsAreWhole(fields: seq<Field>, n: nat)
    ensures Records(fields) == Ok(n) <==> exists records :: |records| == n && Whole(fields, records)
    decreases |fields|
  {
    hide IsRecord, RecordKind, RecordLength;
    if records :| |records| == n && Whole(fields, records) {
      if records != [] {
        FirstRecord(fields, records[0]);
        assert |records[1..]| == n - 1;
        RecordsAreWhole(fields[|records[0]|..], n - 1);
      }
    }
    if Records(fields) == Ok(n) {
      if fields == [] {
        var none: seq<seq<Field>> := [];
        assert Whole(fields, none) && |none| == n;
      } else {
        var length := RecordLength(fields[0]);
        RecordsAreWhole(fields[length..], n - 1);
        var rest :| |rest| == n - 1 && Whole(fields[length..], rest);
        var records := [fields[..length]] + rest;
        RecordAhead(fields);
        assert records[1..] == rest;
        assert Whole(fields, records) && |records| == n;
      }
    }
  }

  /** What stands behind whole records is not one: its kind is unknown, or it lacks its second path. */
  ghost predicate Broken(rest: seq<Field>, e: RecordError) {
    rest != [] &&
    match e
    case UnknownRecord(kind) => kind == rest[0][0] && kind as char !in {'1', '2', 'u', '?', '!'}
    case MissingPath => |rest| == 1 && rest[0][0] as char == '2'
  }

  /** The fault found is that of the first record that is not whole. */
  lemma {:induction false} RecordsBreak(fields: seq<Field>) returns (records: seq<seq<Field>>, k: nat)
    requires Records(fields).Err?
    ensures k <= |fields| && Whole(fields[..k], records) && Broken(fields[k..], Records(fields).error)
    decreases |fields|
  {
    if !RecordKind(fields[0][0]) || RecordLength(fields[0]) > |fields| {
      return [], 0;
    }
    RecordAhead(fields);
    hide IsRecord, RecordKind;
    var length := RecordLength(fields[0]);
    var rest, n := RecordsBreak(fields[length..]);
    records, k := [fields[..length]] + rest, length + n;
    assert fields[k..] == fields[length..][n..];
    assert records[1..] == rest && fields[..k][length..] == fields[length..][..n];
    assert fields[..length] <= fields[..k];
  }

  /** Entries are counted exactly when the status holds something besides NUL bytes. */
  lemma EntriesPositive(status: Bytes)
    requires Records(Fields(status)).Ok?
    ensures Records(Fields(status)).value > 0 <==> exists i :: 0 <= i < |status| && status[i] != 0
  {
    FieldsEmpty(status, []);
  }

  // ----- lines -----

  /** The text ends its last line with a bare line feed, like every other. */
  predicate PlainLines(s: string, current: string) {
    if s == "" then current == ""
    else if s[0] == '\n' then (current == "" || current[|current| - 1] != '\r') && PlainLines(s[1..], "")
    else PlainLines(s[1..], current + [s[0]])
  }

  /** Joining the lines again gives the text back when every line ends plainly. */
  lemma {:induction false} JoinedLines(s: string, current: string)
    requires PlainLines(s, current)
    ensures JoinLines(LinesFrom(s, current)) == current + s
  {
    if s != "" {
      if s[0] == '\n' {
        JoinedLines(s[1..], "");
        assert LinesFrom(s, current)[1..] == LinesFrom(s[1..], "");
        assert s == "\n" + s[1..];
        assert "" + s[1..] == s[1..];
      } else {
        JoinedLines(s[1..], current + [s[0]]);
        assert (current + [s[0]]) + s[1..] == current + s;
      }
    } else {
      assert current + s == "";
    }
  }

  lemma OneLine(current: string)
    ensures JoinLines([current]) == current + "\n"
  {
    assert [current][1..] == [];
    assert current + "\n" + "" == current + "\n";
  }

  lemma ReturnLost(current: string, rest: string, s: string)
    requires DropReturn(current) != current
    ensures DropReturn(current) + "\n" + rest != current + s
  {
    var line := DropReturn(current);
    assert (line + "\n" + rest)[|line|] == '\n' && (current + s)[|line|] == '\r';
  }

  /** Only then. */
  lemma {:induction false} JoinedLinesOnly(s: string, current: string)
    requires JoinLines(LinesFrom(s, current)) == current + s
    ensures PlainLines(s, current)
    decreases |s|
  {
    if s == "" {
      OneLine(current);
      assert |current + s| == |current|;
    } else if s[0] == '\n' {
      var rest := JoinLines(LinesFrom(s[1..], ""));
      assert LinesFrom(s, current)[1..] == LinesFrom(s[1..], "");
      if DropReturn(current) != current {
        ReturnLost(current, rest, s);
      } else {
        assert (current + "\n" + rest)[|current| + 1..] == rest && (current + s)[|current| + 1..] == s[1..];
        assert "" + s[1..] == s[1..];
        JoinedLinesOnly(s[1..], "");
      }
    } else {
      assert (current + [s[0]]) + s[1..] == current + s;
      JoinedLinesOnly(s[1..], current + [s[0]]);
    }
  }

  // ----- Git commands -----

  datatype ExitStatus = ExitStatus(code: Option<int>, text: string)

  datatype Command = NotLaunched(error: string) | Ended(status: ExitStatus, stdout: Bytes, stderr: Bytes)

  /** What the file system and Git answer while a snapshot is taken. */
  datatype GitAnswers = GitAnswers(
    workdir: Result<string, string>, root: Command, canonicalRoot: Result<string, string>, revision: Command,
    branch: Command, status: Command, submodules: Command)

  datatype CaptureError =
    | NoWorkdir(error: string)
    | NoLaunch(git: string, error: string)
    | GitFailed(args: string, status: string, stderr: string)
    | NotUtf8(field: string)
    | Empty(field: string)
    | NoRoot(error: string)
    | OtherRoot(workdir: string, root: string)
    | BadRecord(problem: RecordError)
  {
    function Text(): string {
      match this
      case NoWorkdir(error) => "working directory could not be resolved: " + error
      case NoLaunch(git, error) => "failed to launch `" + git + "`: " + error
      case GitFailed(args, status, stderr) => "git " + args + " failed with status " + status + ": " + Trim(stderr)
      case NotUtf8(field) => field + " is not valid UTF-8"
      case Empty(field) => field + " is empty"
      case NoRoot(error) => "git checkout root could not be resolved: " + error
      case OtherRoot(workdir, root) =>
        "attested working directory `" + workdir + "` is not the Git checkout root `" + root + "`"
      case BadRecord(UnknownRecord(kind)) =>
        "git status" + " contained an unknown porcelain v2 record type `" + [kind as char] + "`"
      case BadRecord(MissingPath) => "git status" + " rename/copy record is missing" + " its original path"
    }

    /** A Git command failed and printed nothing about it. */
    predicate Silent() {
      GitFailed? && Trim(stderr) == ""
    }

    /** The answers of the operating system in it are proper texts. */
    predicate Proper() {
      match this
      case NoWorkdir(error) => Trimmed(error)
      case NoLaunch(_, error) => Trimmed(error)
      case NoRoot(error) => Trimmed(error)
      case NotUtf8(field) => field in FIELDS
      case Empty(field) => field in FIELDS
      case _ => true
    }
  }

  const ROOT: string := "git checkout root"
  const REVISION: string := "git revision"
  const BRANCH: string := "git branch"
  const FIELDS: seq<string> := [ROOT, REVISION, BRANCH]

  lemma GitFailedText(e: CaptureError)
    requires e.GitFailed?
    ensures Headed(e.Text())
    ensures Trimmed(e.Text()) <==> !e.Silent()
  {
    hide Headed, Trimmed;
    var start, printed := "git " + e.args + " failed with status " + e.status + ": ", Trim(e.stderr);
    GitStart(e.args, e.status);
    if printed == "" {
      assert e.Text() == start;
    } else {
      TrimIsTrimmed(e.stderr);
      TrimmedSolid(printed);
      SolidEnd(start, printed);
    }
  }

  lemma GitStart(args: string, status: string)
    ensures var start := "git " + args + " failed with status " + status + ": "; Headed(start) && !Trimmed(start)
  {
    HeadedStart("git ", args);
    HeadedStart("git " + args, " failed with status ");
    HeadedStart("git " + args + " failed with status ", status);
    TrimmedEnd("git " + args + " failed with status " + status, ": ");
  }

  /** What the operating system says is passed on. */
  lemma SystemErrorText(e: CaptureError)
    requires e.Proper() && (e.NoWorkdir? || e.NoLaunch? || e.NoRoot?)
    ensures Headed(e.Text()) && Trimmed(e.Text())
  {
    match e {
      case NoWorkdir(error) => SolidEnd("working directory could not be resolved: ", error);
      case NoRoot(error) => SolidEnd("git checkout root could not be resolved: ", error);
      case NoLaunch(git, error) =>
        HeadedStart("failed to launch `", git);
        HeadedStart("failed to launch `" + git, "`: ");
        SolidEnd("failed to launch `" + git + "`: ", error);
    }
  }

  lemma FieldErrorText(e: CaptureError)
    requires e.Proper() && (e.NotUtf8? || e.Empty?)
    ensures Headed(e.Text()) && Trimmed(e.Text())
  {
    match e {
      case NotUtf8(field) => SolidEnd(field, " is not valid UTF-8");
      case Empty(field) => SolidEnd(field, " is empty");
    }
  }

  lemma OtherErrorText(e: CaptureError)
    requires e.OtherRoot? || e.BadRecord?
    ensures Headed(e.Text()) && Trimmed(e.Text())
  {
    match e {
      case OtherRoot(workdir, root) =>
        QuotedEnd("attested working directory `", workdir, "` is not the Git checkout root `", root);
      case BadRecord(UnknownRecord(kind)) =>
        HeadedStart("git status", " contained an unknown porcelain v2 record type `");
        HeadedStart("git status" + " contained an unknown porcelain v2 record type `", [kind as char]);
        SolidEnd("git status" + " contained an unknown porcelain v2 record type `" + [kind as char], "`");
      case BadRecord(MissingPath) =>
        HeadedStart("git status", " rename/copy record is missing");
        SolidEnd("git status" + " rename/copy record is missing", " its original path");
    }
  }

  /** The text is trimmed but for a silent failure, which leaves a space at its end. */
  lemma CaptureErrorText(e: CaptureError)
    requires e.Proper()
    ensures Headed(e.Text())
    ensures Trimmed(e.Text()) <==> !e.Silent()
  {
    hide Headed, Trimmed, Trim;
    if e.GitFailed? {
      GitFailedText(e);
    } else if e.NoWorkdir? || e.NoLaunch? || e.NoRoot? {
      SystemErrorText(e);
    } else if e.NotUtf8? || e.Empty? {
      FieldErrorText(e);
    } else {
      OtherErrorText(e);
    }
  }

  function RunGit(c: Codecs, git: string, args: string, command: Command): Result<Bytes, CaptureError> {
    match command
    case NotLaunched(error) => Err(NoLaunch(git, error))
    case Ended(status, stdout, stderr) =>
      if status.code == Some(0) then Ok(stdout) else Err(GitFailed(args, status.text, c.lossy(stderr)))
  }

  /** Without a branch Git prints nothing and ends with 1. */
  function RunGitOptional(c: Codecs, git: string, args: string, command: Command): Result<Option<Bytes>, CaptureError> {
    match command
    case NotLaunched(error) => Err(NoLaunch(git, error))
    case Ended(status, stdout, stderr) =>
      if status.code == Some(0) then Ok(Some(stdout))
      else if status.code == Some(1) && stdout == [] && stderr == [] then Ok(None)
      else Err(GitFailed(args, status.text, c.lossy(stderr)))
  }

  function Utf8Trimmed(c: Codecs, bytes: Bytes, field: string): Result<string, CaptureError> {
    match c.strict(bytes)
    case None => Err(NotUtf8(field))
    case Some(value) => if Trim(value) == "" then Err(Empty(field)) else Ok(Trim(value))
  }

  function DisplayPath(path: string): (r: string)
    ensures |r| == |path| && forall i :: 0 <= i < |path| ==> r[i] == if path[i] == '\\' then '/' else path[i]
  {
    if path == "" then "" else [if path[0] == '\\' then '/' else path[0]] + DisplayPath(path[1..])
  }

  // ----- snapshots -----

  /** What a command prints when it succeeds. */
  function Printed(command: Command): Bytes {
    if command.Ended? then command.stdout else []
  }

  predicate Succeeds(command: Command) {
    command.Ended? && command.status.code == Some(0)
  }

  predicate NoBranch(command: Command) {
    command.Ended? && command.status.code == Some(1) && command.stdout == [] && command.stderr == []
  }

  ghost predicate Readable(c: Codecs, bytes: Bytes) {
    c.strict(bytes).Some? && Trim(c.strict(bytes).value) != ""
  }

  /** Every command succeeds, the working directory is the checkout root, and every answer can be read. */
  ghost predicate Complete(c: Codecs, a: GitAnswers) {
    && a.workdir.Ok? && Succeeds(a.root) && c.strict(Printed(a.root)).Some? && a.canonicalRoot == a.workdir
    && Succeeds(a.revision) && Readable(c, Printed(a.revision))
    && (NoBranch(a.branch) || (Succeeds(a.branch) && Readable(c, Printed(a.branch))))
    && Succeeds(a.status) && Records(Fields(Printed(a.status))).Ok? && Succeeds(a.submodules)
  }

  const ROOT_ARGS: string := "rev-parse --show-toplevel"
  const REVISION_ARGS: string := "rev-parse --verify HEAD"
  const BRANCH_ARGS: string := "symbolic-ref --short -q HEAD"
  const STATUS_ARGS: string := "status --porcelain=v2 -z --untracked-files=all --ignore-submodules=none"
  const SUBMODULE_ARGS: string := "submodule status --recursive"

  ghost function SnapshotOf(c: Codecs, a: GitAnswers): GitSnapshot
    requires Complete(c, a)
  {
    var status, submodules := Printed(a.status), Printed(a.submodules);
    GitSnapshot(
      DisplayPath(a.canonicalRoot.value), Trim(c.strict(Printed(a.revision)).value),
      if NoBranch(a.branch) then None else Some(Trim(c.strict(Printed(a.branch)).value)),
      status != [], c.Sha256(status), Records(Fields(status)).value, c.Sha256(submodules), Lines(c.lossy(submodules)))
  }

  /** What is wrong with the first answer that cannot be used. */
  ghost function FailureOf(c: Codecs, git: string, a: GitAnswers): CaptureError
    requires !Complete(c, a)
  {
    if a.workdir.Err? then NoWorkdir(a.workdir.error)
    else if !Succeeds(a.root) then CommandError(c, git, ROOT_ARGS, a.root)
    else if c.strict(Printed(a.root)).None? then NotUtf8(ROOT)
    else if a.canonicalRoot.Err? then NoRoot(a.canonicalRoot.error)
    else if a.canonicalRoot != a.workdir then OtherRoot(a.workdir.value, a.canonicalRoot.value)
    else if !Succeeds(a.revision) then CommandError(c, git, REVISION_ARGS, a.revision)
    else if !Readable(c, Printed(a.revision)) then TextError(c, Printed(a.revision), REVISION)
    else if !Succeeds(a.branch) && !NoBranch(a.branch) then CommandError(c, git, BRANCH_ARGS, a.branch)
    else if Succeeds(a.branch) && !Readable(c, Printed(a.branch)) then TextError(c, Printed(a.branch), BRANCH)
    else if !Succeeds(a.status) then CommandError(c, git, STATUS_ARGS, a.status)
    else if !Succeeds(a.submodules) then CommandError(c, git, SUBMODULE_ARGS, a.submodules)
    else BadRecord(Records(Fields(Printed(a.status))).error)
  }

  function CommandError(c: Codecs, git: string, args: string, command: Command): CaptureError {
    match command
    case NotLaunched(error) => NoLaunch(git, error)
    case Ended(status, _, stderr) => GitFailed(args, status.text, c.lossy(stderr))
  }

  function TextError(c: Codecs, bytes: Bytes, field: string): CaptureError {
    if c.strict(bytes).None? then NotUtf8(field) else Empty(field)
  }

  /** The snapshot when every answer can be used, and otherwise the failure of the first that cannot. */
  ghost function Capture(c: Codecs, git: string, a: GitAnswers): Result<GitSnapshot, CaptureError> {
    if Complete(c, a) then Ok(SnapshotOf(c, a)) else Err(FailureOf(c, git, a))
  }

  method CaptureSnapshot(c: Codecs, git: string, a: GitAnswers) returns (r: Result<GitSnapshot, CaptureError>)
    ensures r == Capture(c, git, a)
  {
    if a.workdir.Err? {
      return Err(NoWorkdir(a.workdir.error));
    }
    var root := RunGit(c, git, ROOT_ARGS, a.root);
    if root.Err? {
      return Err(root.error);
    }
    if c.strict(root.value).None? {
      return Err(NotUtf8(ROOT));
    }
    if a.canonicalRoot.Err? {
      return Err(NoRoot(a.canonicalRoot.error));
    }
    if a.canonicalRoot.value != a.workdir.value {
      return Err(OtherRoot(a.workdir.value, a.canonicalRoot.value));
    }
    var printed := RunGit(c, git, REVISION_ARGS, a.revision);
    if printed.Err? {
      return Err(printed.error);
    }
    var revision := Utf8Trimmed(c, printed.value, REVISION);
    if revision.Err? {
      return Err(revision.error);
    }
    var branchBytes := RunGitOptional(c, git, BRANCH_ARGS, a.branch);
    if branchBytes.Err? {
      return Err(branchBytes.error);
    }
    var branch: Option<string> := None;
    if branchBytes.value.Some? {
      var named := Utf8Trimmed(c, branchBytes.value.value, BRANCH);
      if named.Err? {
        return Err(named.error);
      }
      branch := Some(named.value);
    }
    var status := RunGit(c, git, STATUS_ARGS, a.status);
    if status.Err? {
      return Err(status.error);
    }
    var submodules := RunGit(c, git, SUBMODULE_ARGS, a.submodules);
    if submodules.Err? {
      return Err(submodules.error);
    }
    var entries := CountEntries(status.value);
    if entries.Err? {
      return Err(BadRecord(entries.error));
    }
    return Ok(GitSnapshot(
      DisplayPath(a.canonicalRoot.value), revision.value, branch, status.value != [], c.Sha256(status.value),
      entries.value, c.Sha256(submodules.value), Lines(c.lossy(submodules.value))));
  }

  // ----- what the verifier makes of a snapshot -----

  predicate FullRevision(s: string) {
    (|s| == 40 || |s| == 64) && AllHex(s)
  }

  /** The output decodes and all its lines end with a bare line feed. */
  predicate PlainOutput(c: Codecs, bytes: Bytes) {
    c.strict(bytes).Some? && PlainLines(c.strict(bytes).value, "")
  }

  /** Git printed a full revision, no status or one with a record, and plain submodule lines. */
  ghost predicate Plain(c: Codecs, a: GitAnswers) {
    && c.strict(Printed(a.revision)).Some? && FullRevision(Trim(c.strict(Printed(a.revision)).value))
    && (Printed(a.status) == [] || exists i :: 0 <= i < |Printed(a.status)| && Printed(a.status)[i] != 0)
    && PlainOutput(c, Printed(a.submodules))
  }

  /** The bytes the verifier hashes for the recorded submodule lines. */
  function Rejoined(c: Codecs, bytes: Bytes): Bytes {
    c.utf8(JoinLines(Lines(c.lossy(bytes))))
  }

  /** The submodule output and what its lines give back are not two texts of one digest. */
  predicate NoCollision(c: Codecs, a: GitAnswers) {
    var bytes := Printed(a.submodules);
    c.Sha256(Rejoined(c, bytes)) == c.Sha256(bytes) ==> Rejoined(c, bytes) == bytes
  }

  /** The recorded lines give the output back exactly when it decodes and its lines end plainly. */
  lemma RejoinedIsOutput(c: Codecs, bytes: Bytes)
    requires c.Sound()
    ensures Rejoined(c, bytes) == bytes <==> PlainOutput(c, bytes)
  {
    var text := c.lossy(bytes);
    var joined := JoinLines(Lines(text));
    assert "" + text == text;
    if Rejoined(c, bytes) == bytes {
      assert c.lossy(c.utf8(joined)) == joined;
      JoinedLinesOnly(text, "");
      assert c.strict(bytes) == Some(joined);
    }
    if PlainOutput(c, bytes) {
      var decoded := c.strict(bytes).value;
      assert c.utf8(decoded) == bytes && c.lossy(c.utf8(decoded)) == decoded;
      JoinedLines(text, "");
    }
  }

  /** A captured snapshot passes the verifier's checks exactly when Git printed plain answers. */
  lemma SnapshotValidity(c: Codecs, a: GitAnswers)
    requires c.Sound() && Complete(c, a) && IsAbsolute(a.canonicalRoot.value) && NoCollision(c, a)
    ensures ValidSnapshot(c, SnapshotOf(c, a)) <==> Plain(c, a)
  {
    EntriesPositive(Printed(a.status));
    if !NoBranch(a.branch) {
      TrimIsTrimmed(c.strict(Printed(a.branch)).value);
    }
    Sha256IsSha256(c, Printed(a.status));
    Sha256IsSha256(c, Printed(a.submodules));
    RejoinedIsOutput(c, Printed(a.submodules));
  }

  /** The operating system's answers are proper: absolute paths and trimmed errors. */
  predicate ProperAnswers(a: GitAnswers) {
    && ProperPath(a.workdir) && ProperPath(a.canonicalRoot)
    && ProperCommand(a.root) && ProperCommand(a.revision) && ProperCommand(a.branch) && ProperCommand(a.status)
    && ProperCommand(a.submodules)
  }

  predicate ProperPath(r: Result<string, string>) {
    match r case Ok(path) => IsAbsolute(path) case Err(e) => Trimmed(e)
  }

  predicate ProperCommand(command: Command) {
    command.NotLaunched? ==> Trimmed(command.error)
  }

  lemma FailureIsProper(c: Codecs, git: string, a: GitAnswers)
    requires ProperAnswers(a) && !Complete(c, a)
    ensures FailureOf(c, git, a).Proper()
  {
    assert FIELDS[0] == ROOT && FIELDS[1] == REVISION && FIELDS[2] == BRANCH;
  }
}
