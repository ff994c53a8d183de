/** The check of the input files of a gate, made before and after its program runs. */
module GateInputs {
  import opened Wrappers
  import opened ManifestModel
  import opened Texts
  import opened EvidenceModel

  /** What the file system answers about one input: is its entry a link, where does it lead, is there a file, what does
      the file hold. */
  datatype FileAnswer = FileAnswer(
    link: Result<bool, string>, canonical: Result<string, string>, isFile: bool, content: Result<Bytes, string>)

  datatype InputAnswers = InputAnswers(workdir: Result<string, string>, file: string -> FileAnswer)

  datatype InputProblem =
    | Nowhere(error: string)
    | NotInspected(path: string, error: string)
    | Link(path: string)
    | NotResolved(path: string, error: string)
    | Outside(path: string)
    | NotRead(path: string, error: string)
    | Changed(path: string, actual: string, expected: string)
  {
    function Text(): string {
      match this
      case Nowhere(error) => "working directory could not be resolved: " + error
      case NotInspected(path, error) => "gate input `" + path + "` could not be inspected: " + error
      case Link(path) => "gate input `" + path + "` must not be a symlink"
      case NotResolved(path, error) => "gate input `" + path + "` could not be resolved: " + error
      case Outside(path) =>
        "gate input `" + path + "` resolves outside the working directory " + "or is not a file"
      case NotRead(path, error) => "gate input `" + path + "` could not be read: " + error
      case Changed(path, actual, expected) =>
        "gate input `" + path + "` has SHA-256 " + actual + "; expected " + expected
    }

    /** What the text ends with when that is not part of the message itself. */
    function Last(): Option<string> {
      match this
      case Nowhere(error) => Some(error)
      case NotInspected(_, error) => Some(error)
      case NotResolved(_, error) => Some(error)
      case NotRead(_, error) => Some(error)
      case Changed(_, _, expected) => Some(expected)
      case _ => None
    }
  }

  /** The path is the directory or lies in it. */
  predicate Inside(path: string, directory: string) {
    IsAbsolute(path) == IsAbsolute(directory) && Components(directory) <= Components(path)
  }

  /** The input is no link, and the file it names lies in the working directory and has the digest of the manifest. */
  predicate InputMatches(c: Codecs, workdir: string, input: GateInput, a: FileAnswer) {
    && a.link == Ok(false) && a.canonical.Ok? && Inside(a.canonical.value, workdir) && a.isFile
    && a.content.Ok? && c.Sha256(a.content.value) == input.sha256
  }

  /** All inputs are as the manifest says. */
  predicate InputsMatch(c: Codecs, inputs: seq<GateInput>, a: InputAnswers) {
    a.workdir.Ok? &&
    forall i :: 0 <= i < |inputs| ==> InputMatches(c, a.workdir.value, inputs[i], a.file(inputs[i].path))
  }

  /** The first thing that is wrong with an input. */
  function ProblemOf(c: Codecs, workdir: string, input: GateInput, a: FileAnswer): InputProblem
    requires !InputMatches(c, workdir, input, a)
  {
    if a.link.Err? then NotInspected(input.path, a.link.error)
    else if a.link.value then Link(input.path)
    else if a.canonical.Err? then NotResolved(input.path, a.canonical.error)
    else if !Inside(a.canonical.value, workdir) || !a.isFile then Outside(input.path)
    else if a.content.Err? then NotRead(input.path, a.content.error)
    else Changed(input.path, c.Sha256(a.content.value), input.sha256)
  }

  /** What is wrong with the first input that does not match. */
  function ProblemFrom(c: Codecs, workdir: string, inputs: seq<GateInput>, a: InputAnswers): Option<InputProblem> {
    if inputs == [] then None
    else
      var answer := a.file(inputs[0].path);
      if InputMatches(c, workdir, inputs[0], answer) then ProblemFrom(c, workdir, inputs[1..], a)
      else Some(ProblemOf(c, workdir, inputs[0], answer))
  }

  function InputProblemOf(c: Codecs, inputs: seq<GateInput>, a: InputAnswers): Option<InputProblem> {
    match a.workdir
    case Err(e) => Some(Nowhere(e))
    case Ok(workdir) => ProblemFrom(c, workdir, inputs, a)
  }

  /** There is a problem exactly when some input does not match, and then it is that of the first such input. */
  lemma {:induction false} ProblemFromMeans(c: Codecs, workdir: string, inputs: seq<GateInput>, a: InputAnswers)
    ensures var problem := ProblemFrom(c, workdir, inputs, a);
            && (problem.None? <==>
                forall i :: 0 <= i < |inputs| ==> InputMatches(c, workdir, inputs[i], a.file(inputs[i].path)))
            && (problem.Some? ==>
                  exists i :: 0 <= i < |inputs| && !InputMatches(c, workdir, inputs[i], a.file(inputs[i].path)) &&
                              problem.value == ProblemOf(c, workdir, inputs[i], a.file(inputs[i].path)) &&
                              forall j :: 0 <= j < i ==> InputMatches(c, workdir, inputs[j], a.file(inputs[j].path)))
  {
    hide InputMatches, ProblemOf;
    if inputs != [] && InputMatches(c, workdir, inputs[0], a.file(inputs[0].path)) {
      var rest := inputs[1..];
      ProblemFromMeans(c, workdir, rest, a);
      assert forall i :: 0 < i < |inputs| ==> inputs[i] == rest[i - 1];
      if i :| 0 <= i < |rest| && !InputMatches(c, workdir, rest[i], a.file(rest[i].path)) &&
              ProblemFrom(c, workdir, rest, a) == Some(ProblemOf(c, workdir, rest[i], a.file(rest[i].path))) &&
              forall j :: 0 <= j < i ==> InputMatches(c, workdir, rest[j], a.file(rest[j].path))
      {
        assert inputs[i + 1] == rest[i];
        assert forall j :: 0 <= j < i + 1 ==> InputMatches(c, workdir, inputs[j], a.file(inputs[j].path)) by {
          forall j | 0 < j < i + 1 ensures InputMatches(c, workdir, inputs[j], a.file(inputs[j].path)) {
            assert inputs[j] == rest[j - 1];
          }
        }
      }
    }
  }

  lemma InputProblemMeans(c: Codecs, inputs: seq<GateInput>, a: InputAnswers)
    ensures InputProblemOf(c, inputs, a).None? <==> InputsMatch(c, inputs, a)
  {
    hide InputMatches;
    if a.workdir.Ok? {
      ProblemFromMeans(c, a.workdir.value, inputs, a);
    }
  }

  /** Look at the inputs in order, up to the first problem. */
  method VerifyGateInputs(c: Codecs, inputs: seq<GateInput>, a: InputAnswers) returns (r: Option<InputProblem>)
    ensures r == InputProblemOf(c, inputs, a)
    ensures r.None? <==> InputsMatch(c, inputs, a)
  {
    InputProblemMeans(c, inputs, a);
    if a.workdir.Err? {
      return Some(Nowhere(a.workdir.error));
    }
    for i := 0 to |inputs|
      invariant ProblemFrom(c, a.workdir.value, inputs, a) == ProblemFrom(c, a.workdir.value, inputs[i..], a)
    {
      var input := inputs[i];
      var answer := a.file(input.path);
      assert inputs[i..][0] == input && inputs[i..][1..] == inputs[i + 1..];
      if answer.link.Err? {
        return Some(NotInspected(input.path, answer.link.error));
      }
      if answer.link.value {
        return Some(Link(input.path));
      }
      if answer.canonical.Err? {
        return Some(NotResolved(input.path, answer.canonical.error));
      }
      if !Inside(answer.canonical.value, a.workdir.value) || !answer.isFile {
        return Some(Outside(input.path));
      }
      if answer.content.Err? {
        return Some(NotRead(input.path, answer.content.error));
      }
      var actual := c.Sha256(answer.content.value);
      if actual != input.sha256 {
        return Some(Changed(input.path, actual, input.sha256));
      }
    }
    return None;
  }

  // ----- the result in terms of the raw answers -----

  /** Every directory of the working directory comes first in the path, and both start at the root or neither does. */
  ghost predicate LiesIn(path: string, directory: string) {
    && ("/" <= path <==> "/" <= directory)
    && exists below :: Components(path) == Components(directory) + below
  }

  /** Inspected, no link, resolved to a file in the working directory, read, and of the expected digest. */
  ghost predicate Matches(c: Codecs, workdir: string, input: GateInput, a: FileAnswer) {
    && a.link.Ok? && !a.link.value && a.canonical.Ok? && LiesIn(a.canonical.value, workdir) && a.isFile
    && a.content.Ok? && HexText(c.digest(a.content.value)) == input.sha256
  }

  /** What is said about an input is true, and all that is looked at before is in order. */
  ghost predicate ProblemSays(c: Codecs, workdir: string, input: GateInput, a: FileAnswer, p: InputProblem) {
    match p
    case Nowhere(_) => false
    case NotInspected(path, error) => path == input.path && a.link == Err(error)
    case Link(path) => path == input.path && a.link == Ok(true)
    case NotResolved(path, error) => path == input.path && a.link == Ok(false) && a.canonical == Err(error)
    case Outside(path) =>
      && path == input.path && a.link == Ok(false) && a.canonical.Ok?
      && !(a.isFile && LiesIn(a.canonical.value, workdir))
    case NotRead(path, error) =>
      && path == input.path && a.link == Ok(false) && a.canonical.Ok? && LiesIn(a.canonical.value, workdir) && a.isFile
      && a.content == Err(error)
    case Changed(path, actual, expected) =>
      && path == input.path && expected == input.sha256 && actual != expected
      && Matches(c, workdir, GateInput(path, actual), a)
  }

  lemma InsideMeans(path: string, directory: string)
    ensures Inside(path, directory) <==> LiesIn(path, directory)
  {
    var a, b := Components(path), Components(directory);
    if b <= a {
      assert a == b + a[|b|..];
    }
  }

  /** The input matches, or the problem found with it is true. */
  lemma ProblemMeans(c: Codecs, workdir: string, input: GateInput, a: FileAnswer)
    ensures InputMatches(c, workdir, input, a) <==> Matches(c, workdir, input, a)
    ensures !InputMatches(c, workdir, input, a) ==>
              ProblemSays(c, workdir, input, a, ProblemOf(c, workdir, input, a))
  {
    if a.canonical.Ok? {
      InsideMeans(a.canonical.value, workdir);
    }
    hide Inside, LiesIn, HexText;
  }

  // ----- the text of a problem -----

  /** The digests are what a manifest must hold to be loaded. */
  predicate ValidDigests(inputs: seq<GateInput>) {
    forall input :: input in inputs ==> IsSha256(input.sha256)
  }

  predicate ProperFile(a: FileAnswer) {
    && (a.link.Err? ==> Trimmed(a.link.error)) && (a.canonical.Err? ==> Trimmed(a.canonical.error))
    && (a.content.Err? ==> Trimmed(a.content.error))
  }

  /** The errors of the operating system are trimmed. */
  predicate ProperInputs(inputs: seq<GateInput>, a: InputAnswers) {
    && (a.workdir.Err? ==> Trimmed(a.workdir.error))
    && forall input :: input in inputs ==> ProperFile(a.file(input.path))
  }

  lemma AboutEnd(path: string, message: string, end: string)
    requires end != "" && !IsWhite(end[|end| - 1])
    ensures Trimmed("gate input `" + path + message + end)
  {
    hide Trimmed;
    HeadedStart("gate input `", path);
    HeadedStart("gate input `" + path, message);
    SolidEnd("gate input `" + path + message, end);
  }

  lemma ChangedEnd(path: string, actual: string, end: string)
    requires end != "" && !IsWhite(end[|end| - 1])
    ensures Trimmed("gate input `" + path + "` has SHA-256 " + actual + "; expected " + end)
  {
    hide Trimmed;
    HeadedStart("gate input `", path);
    HeadedStart("gate input `" + path, "` has SHA-256 ");
    HeadedStart("gate input `" + path + "` has SHA-256 ", actual);
    HeadedStart("gate input `" + path + "` has SHA-256 " + actual, "; expected ");
    SolidEnd("gate input `" + path + "` has SHA-256 " + actual + "; expected ", end);
  }

  /** The text is trimmed when what it ends with is. */
  lemma ProblemText(p: InputProblem)
    requires p.Last().Some? ==> Trimmed(p.Last().value)
    ensures Trimmed(p.Text())
  {
    hide Trimmed;
    if p.Last().Some? {
      TrimmedSolid(p.Last().value);
    }
    match p {
      case Nowhere(error) => SolidEnd("working directory could not be resolved: ", error);
      case NotInspected(path, error) => AboutEnd(path, "` could not be inspected: ", error);
      case Link(path) => AboutEnd(path, "", "` must not be a symlink");
        assert "gate input `" + path + "" == "gate input `" + path;
      case NotResolved(path, error) => AboutEnd(path, "` could not be resolved: ", error);
      case Outside(path) => AboutEnd(path, "` resolves outside the working directory ", "or is not a file");
      case NotRead(path, error) => AboutEnd(path, "` could not be read: ", error);
      case Changed(path, actual, expected) => ChangedEnd(path, actual, expected);
    }
  }

  lemma DigestTrimmed(s: string)
    requires IsSha256(s)
    ensures Trimmed(s)
  {
    assert IsHex(s[0]) && IsHex(s[|s| - 1]);
  }

  /** With valid digests and proper answers every problem has a trimmed text. */
  lemma {:induction false} ProblemFromText(c: Codecs, workdir: string, inputs: seq<GateInput>, a: InputAnswers)
    requires ValidDigests(inputs) && ProperInputs(inputs, a)
    ensures ProblemFrom(c, workdir, inputs, a).Some? ==> Trimmed(ProblemFrom(c, workdir, inputs, a).value.Text())
  {
    hide Trimmed, IsSha256;
    if inputs != [] {
      var answer := a.file(inputs[0].path);
      if InputMatches(c, workdir, inputs[0], answer) {
        ProblemFromText(c, workdir, inputs[1..], a);
      } else {
        assert inputs[0] in inputs;
        DigestTrimmed(inputs[0].sha256);
        ProblemText(ProblemOf(c, workdir, inputs[0], answer));
      }
    }
  }

  lemma InputProblemText(c: Codecs, inputs: seq<GateInput>, a: InputAnswers)
    requires ValidDigests(inputs) && ProperInputs(inputs, a)
    ensures InputProblemOf(c, inputs, a).Some? ==> Trimmed(InputProblemOf(c, inputs, a).value.Text())
  {
    hide Trimmed;
    match a.workdir {
      case Err(e) => ProblemText(Nowhere(e));
      case Ok(workdir) => ProblemFromText(c, workdir, inputs, a);
    }
  }
}
