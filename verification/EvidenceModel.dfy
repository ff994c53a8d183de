/** Evidence records of gate runs, and the checks on single records. */
module EvidenceModel {
  import opened Wrappers
  import opened ManifestModel
  import opened Texts

  type Byte = b: nat | b < 256
  type Bytes = seq<Byte>

  const SCHEMA_VERSION: nat := 3

  // ----- digests -----

  predicate IsHex(c: char) {
    '0' <= c <= '9' || 'a' <= c <= 'f'
  }

  predicate AllHex(s: string) {
    forall i :: 0 <= i < |s| ==> IsHex(s[i])
  }

  predicate IsSha256(s: string) {
    |s| == 64 && AllHex(s)
  }

  function HexDigit(n: nat): (c: char)
    requires n < 16
    ensures IsHex(c)
  {
    if n < 10 then ('0' as int + n) as char else ('a' as int + n - 10) as char
  }

  /** Two lower-case hex digits for every byte. */
  function HexText(bytes: Bytes): (s: string)
    ensures |s| == 2 * |bytes| && AllHex(s)
  {
    if bytes == [] then "" else [HexDigit(bytes[0] / 16), HexDigit(bytes[0] % 16)] + HexText(bytes[1..])
  }

  // ----- records -----

  datatype FileIdentity = FileIdentity(sha256: string, bytes: nat)

  datatype ExecutableAttestation = ExecutableAttestation(
    requestedProgram: string, invocationPath: string, resolvedPath: string, before: FileIdentity, after: FileIdentity)

  datatype GitSnapshot = GitSnapshot(
    root: string, revision: string, branch: Option<string>, dirty: bool, statusSha256: string, statusEntries: nat,
    submoduleStatusSha256: string, submodules: seq<string>)

  datatype CheckoutAttestation = CheckoutAttestation(
    git: Option<ExecutableAttestation>, before: Option<GitSnapshot>, after: Option<GitSnapshot>, error: Option<string>)

  datatype GateStatus = Passed | Failed | TimedOut | LaunchFailed

  datatype OutputArtifact = OutputArtifact(
    sha256: string, bytes: nat, path: string, tailStart: nat, tail: string, tailTruncated: bool)

  datatype GateEvidence = GateEvidence(
    gate: string, execution: GateExecution, inputs: seq<GateInput>, declaredTargets: seq<string>,
    status: GateStatus, exitCode: Option<int>, stdout: OutputArtifact, stderr: OutputArtifact,
    executable: Option<ExecutableAttestation>,
    launchError: Option<string>, inputError: Option<string>, executableError: Option<string>)

  datatype Policy = Policy(checkout: bool, requireClean: bool, expectedRevision: Option<string>, executables: bool)

  /** Times, host and working directory: recorded, never compared. */
  datatype Stamp = Stamp(startedMs: nat, finishedMs: nat, host: string, workdir: string)

  datatype Bundle = Bundle(
    schemaVersion: nat, project: string, baseline: string, manifestSha256: string, stamp: Stamp, policy: Policy,
    checkout: Option<CheckoutAttestation>, selected: seq<string>, skipped: seq<string>, failFast: bool,
    passed: bool, gates: seq<GateEvidence>)

  /** Hashing, text decoding and the JSON form of a bundle. */
  datatype Codecs = Codecs(
    digest: Bytes -> Bytes, lossy: Bytes -> string, strict: Bytes -> Option<string>, utf8: string -> Bytes,
    encode: Bundle -> Bytes, decode: Bytes -> Option<Bundle>)
  {
    /** A digest has 32 bytes, decoding undoes encoding, and strict decoding takes exactly what encoding yields. No
        collision freedom is assumed. */
    ghost predicate Sound() {
      && (forall b :: |digest(b)| == 32) && (forall x :: decode(encode(x)) == Some(x))
      && (forall t :: lossy(utf8(t)) == t)
      && (forall b, t :: strict(b) == Some(t) <==> utf8(t) == b)
    }

    function Sha256(bytes: Bytes): string {
      HexText(digest(bytes))
    }
  }

  lemma Sha256IsSha256(c: Codecs, bytes: Bytes)
    requires c.Sound()
    ensures IsSha256(c.Sha256(bytes))
  {
  }

  // ----- relative paths -----

  /** The parts of a path between slashes, without empty ones and without `.` behind the first. */
  function Components(path: string): seq<string> {
    NormalParts(SplitOn(path, '/'), true)
  }

  function NormalParts(parts: seq<string>, leading: bool): seq<string> {
    if parts == [] then []
    else if parts[0] == "" || (parts[0] == "." && !leading) then NormalParts(parts[1..], false)
    else [parts[0]] + NormalParts(parts[1..], false)
  }

  /** Of the parts of a path the empty ones and the dots are left out, but for a dot at the start. */
  lemma {:induction false} PartsKept(parts: seq<string>, leading: bool)
    ensures forall part :: part in NormalParts(parts, leading) <==>
                           exists i :: 0 <= i < |parts| && parts[i] == part && part != "" &&
                                       (part != "." || (i == 0 && leading))
    ensures (forall i :: 0 <= i < |parts| ==> parts[i] != "" && (parts[i] != "." || (i == 0 && leading))) ==>
              NormalParts(parts, leading) == parts
  {
    if parts != [] {
      PartsKept(parts[1..], false);
      forall part
        ensures part in NormalParts(parts, leading) <==>
                exists i :: 0 <= i < |parts| && parts[i] == part && part != "" &&
                            (part != "." || (i == 0 && leading))
      {
        if part in NormalParts(parts[1..], false) {
          var i :| 0 <= i < |parts[1..]| && parts[1..][i] == part && part != "" && (part != "." || (i == 0 && false));
          assert parts[i + 1] == part;
        }
        if i :| 0 < i < |parts| && parts[i] == part && part != "" && part != "." {
          assert parts[1..][i - 1] == part;
        }
      }
    }
  }

  /** A path of proper names is split into them. */
  lemma ComponentsRead(parts: seq<string>)
    requires parts != []
    requires forall i :: 0 <= i < |parts| ==> '/' !in parts[i] && parts[i] != "" && parts[i] != "."
    ensures Components(JoinedBy(parts, '/')) == parts && Components("/" + JoinedBy(parts, '/')) == parts
  {
    SplitJoined(parts, '/');
    PartsKept(parts, true);
    PartsKept(parts, false);
    SplitFront("", JoinedBy(parts, '/'), '/');
    assert "" + "/" + JoinedBy(parts, '/') == "/" + JoinedBy(parts, '/');
    assert ([""] + parts)[1..] == parts;
  }

  predicate IsAbsolute(path: string) {
    path != "" && path[0] == '/'
  }

  function LogPath(sha256: string): string {
    "logs/" + sha256 + ".log"
  }

  function LogFile(sha256: string): seq<string> {
    ["logs", sha256 + ".log"]
  }

  /** A digest names the file one would expect. */
  lemma LogComponents(sha256: string)
    requires IsSha256(sha256)
    ensures Components(LogPath(sha256)) == LogFile(sha256)
    ensures ".." !in LogFile(sha256)
  {
    var name := sha256 + ".log";
    assert "logs/" == "logs" + "/";
    assert LogPath(sha256) == "logs" + "/" + name;
    assert |name| == 68;
    assert '/' !in name by {
      assert forall i :: 0 <= i < 64 ==> name[i] == sha256[i];
    }
    SplitTwo("logs", name, '/');
    assert [name][1..] == [];
    assert NormalParts([name], false) == [name];
    assert ["logs", name][1..] == [name];
  }

  // ----- checks on single records -----

  predicate ValidIdentity(identity: FileIdentity) {
    IsSha256(identity.sha256) && identity.bytes != 0
  }

  predicate ValidPath(path: string) {
    Trim(path) != "" && IsAbsolute(path)
  }

  predicate ValidExecutable(e: ExecutableAttestation) {
    && Trimmed(e.requestedProgram) && ValidPath(e.invocationPath) && ValidPath(e.resolvedPath)
    && ValidIdentity(e.before) && ValidIdentity(e.after)
  }

  function JoinLines(lines: seq<string>): string {
    if lines == [] then "" else lines[0] + "\n" + JoinLines(lines[1..])
  }

  predicate ValidSnapshot(c: Codecs, s: GitSnapshot) {
    && IsAbsolute(s.root)
    && (|s.revision| == 40 || |s.revision| == 64) && AllHex(s.revision)
    && (s.branch.Some? ==> Trimmed(s.branch.value))
    && s.dirty == (s.statusEntries > 0)
    && IsSha256(s.statusSha256) && IsSha256(s.submoduleStatusSha256)
    && c.Sha256(c.utf8(JoinLines(s.submodules))) == s.submoduleStatusSha256
  }
}
