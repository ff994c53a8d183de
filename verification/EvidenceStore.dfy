/** The content-addressed files of an output directory, and the check of one stored artifact. */
module EvidenceStore {
  import opened Wrappers
  import opened EvidenceModel

  /** The files by their path components. */
  type Files = map<seq<string>, Bytes>

  /** Every file of the first directory is in the second, unchanged. */
  ghost predicate Extends(files: Files, files': Files) {
    forall path :: path in files ==> path in files' && files'[path] == files[path]
  }

  lemma ExtendsItself(files: Files)
    ensures Extends(files, files)
  {
  }

  lemma ExtendsFurther(first: Files, second: Files, third: Files)
    requires Extends(first, second) && Extends(second, third)
    ensures Extends(first, third)
  {
  }

  datatype ArtifactError = UnsafePath | Unreadable | DigestMismatch | MetadataMismatch

  /** Why the artifact does not match the directory, if it does not. */
  function CheckArtifact(c: Codecs, files: Files, a: OutputArtifact): Option<ArtifactError> {
    if a.path == "" || IsAbsolute(a.path) || Components(a.path) != Components(LogPath(a.sha256)) ||
       ".." in Components(a.path)
    then Some(UnsafePath)
    else if Components(a.path) !in files then Some(Unreadable)
    else
      var bytes := files[Components(a.path)];
      if |bytes| != a.bytes || c.Sha256(bytes) != a.sha256 then Some(DigestMismatch)
      else if a.tailStart > |bytes| || a.tailTruncated != (a.tailStart > 0) || c.lossy(bytes[a.tailStart..]) != a.tail
      then Some(MetadataMismatch)
      else None
  }

  predicate Verifies(c: Codecs, files: Files, a: OutputArtifact) {
    CheckArtifact(c, files, a).None?
  }

  /** An artifact that verifies keeps verifying while the directory only grows. */
  lemma VerifiesInExtension(c: Codecs, files: Files, files': Files, a: OutputArtifact)
    requires Extends(files, files') && Verifies(c, files, a)
    ensures Verifies(c, files', a)
  {
  }

  // ----- storing logs -----

  /** How a log is described: its digest, its length and its last bytes. */
  function ArtifactOf(c: Codecs, bytes: Bytes, maxTailBytes: nat): OutputArtifact {
    var digest := c.Sha256(bytes);
    var start := if maxTailBytes < |bytes| then |bytes| - maxTailBytes else 0;
    OutputArtifact(digest, |bytes|, LogPath(digest), start, c.lossy(bytes[start..]), start > 0)
  }

  /** The artifact names the bytes by their digest and shows as many of the last of them as the limit allows. */
  ghost predicate IsArtifact(c: Codecs, bytes: Bytes, maxTailBytes: nat, a: OutputArtifact) {
    && a.sha256 == c.Sha256(bytes) && a.bytes == |bytes| && a.path == "logs/" + a.sha256 + ".log"
    && (a.tailTruncated <==> |bytes| > maxTailBytes)
    && exists skipped, shown ::
         && bytes == skipped + shown && |shown| == (if |bytes| > maxTailBytes then maxTailBytes else |bytes|)
         && a.tailStart == |skipped| && a.tail == c.lossy(shown)
  }

  lemma ArtifactMeans(c: Codecs, bytes: Bytes, maxTailBytes: nat)
    ensures IsArtifact(c, bytes, maxTailBytes, ArtifactOf(c, bytes, maxTailBytes))
  {
    var start := ArtifactOf(c, bytes, maxTailBytes).tailStart;
    assert bytes == bytes[..start] + bytes[start..];
  }

  function LogOf(c: Codecs, bytes: Bytes): seq<string> {
    LogFile(c.Sha256(bytes))
  }

  predicate Holds(files: Files, path: seq<string>, bytes: Bytes) {
    path in files && files[path] == bytes
  }

  /** The path already holds other bytes. */
  predicate Conflicts(files: Files, path: seq<string>, bytes: Bytes) {
    path in files && files[path] != bytes
  }

  function Written(files: Files, path: seq<string>, bytes: Bytes): (r: Files)
    ensures Extends(files, r)
    ensures !Conflicts(files, path, bytes) ==> Holds(r, path, bytes)
  {
    if path in files then files else files[path := bytes]
  }

  /** A stored log verifies, whatever the tail limit. */
  lemma StoredLogVerifies(c: Codecs, files: Files, bytes: Bytes, maxTailBytes: nat)
    requires c.Sound() && Holds(files, LogOf(c, bytes), bytes)
    ensures Verifies(c, files, ArtifactOf(c, bytes, maxTailBytes))
  {
    Sha256IsSha256(c, bytes);
    LogComponents(c.Sha256(bytes));
  }

  /** The directory behind storing some logs, one after the other. */
  function StoreLogs(c: Codecs, files: Files, logs: seq<Bytes>): (r: Files)
    decreases |logs|
  {
    if logs == [] then files else StoreLogs(c, Written(files, LogOf(c, logs[0]), logs[0]), logs[1..])
  }

  /** Each log in turn finds its path free or holding the same bytes. */
  predicate Storable(c: Codecs, files: Files, logs: seq<Bytes>)
    decreases |logs|
  {
    logs == [] ||
    (!Conflicts(files, LogOf(c, logs[0]), logs[0]) &&
     Storable(c, Written(files, LogOf(c, logs[0]), logs[0]), logs[1..]))
  }

  lemma {:induction false} StoreLogsAppend(c: Codecs, files: Files, a: seq<Bytes>, b: seq<Bytes>)
    ensures StoreLogs(c, files, a + b) == StoreLogs(c, StoreLogs(c, files, a), b)
    ensures Storable(c, files, a + b) <==> Storable(c, files, a) && Storable(c, StoreLogs(c, files, a), b)
    decreases |a|
  {
    if a == [] {
      assert a + b == b;
    } else {
      assert (a + b)[1..] == a[1..] + b;
      StoreLogsAppend(c, Written(files, LogOf(c, a[0]), a[0]), a[1..], b);
    }
  }

  lemma {:induction false} StoreLogsGrows(c: Codecs, files: Files, logs: seq<Bytes>)
    ensures Extends(files, StoreLogs(c, files, logs))
    ensures Storable(c, files, logs) ==> forall bytes :: bytes in logs ==>
            Holds(StoreLogs(c, files, logs), LogOf(c, bytes), bytes)
    decreases |logs|
  {
    if logs != [] {
      StoreLogsGrows(c, Written(files, LogOf(c, logs[0]), logs[0]), logs[1..]);
    }
  }

  /** Only paths of logs are written. */
  lemma {:induction false} StoreLogsElsewhere(c: Codecs, files: Files, logs: seq<Bytes>, path: seq<string>,
      bytes: Bytes)
    requires forall log :: log in logs ==> LogOf(c, log) != path
    ensures Conflicts(StoreLogs(c, files, logs), path, bytes) <==> Conflicts(files, path, bytes)
    decreases |logs|
  {
    if logs != [] {
      assert logs[0] in logs;
      StoreLogsElsewhere(c, Written(files, LogOf(c, logs[0]), logs[0]), logs[1..], path, bytes);
    }
  }

  lemma LogFileInjective(a: string, b: string)
    requires LogFile(a) == LogFile(b)
    ensures a == b
  {
    assert LogFile(a)[1] == a + ".log" && LogFile(b)[1] == b + ".log";
    assert a == (a + ".log")[..|a + ".log"| - 4] && b == (b + ".log")[..|b + ".log"| - 4];
  }

  /** Logs can be stored exactly when no path of theirs holds other bytes and no two of them collide. */
  lemma {:induction false} StorableMeans(c: Codecs, files: Files, logs: seq<Bytes>)
    ensures Storable(c, files, logs) <==>
            && (forall log :: log in logs ==> !Conflicts(files, LogOf(c, log), log))
            && (forall a, b :: a in logs && b in logs && c.Sha256(a) == c.Sha256(b) ==> a == b)
    decreases |logs|
  {
    if logs != [] {
      var first, rest := logs[0], logs[1..];
      var next := Written(files, LogOf(c, first), first);
      StorableMeans(c, next, rest);
      assert forall log :: log in logs <==> log == first || log in rest;
      forall log ensures Conflicts(next, LogOf(c, log), log) <==>
                         Conflicts(files, LogOf(c, log), log) ||
                         (LogOf(c, first) !in files && c.Sha256(log) == c.Sha256(first) && log != first)
      {
        if LogOf(c, log) == LogOf(c, first) {
          LogFileInjective(c.Sha256(log), c.Sha256(first));
        }
      }
    }
  }

  class OutputDirectory {
    const codecs: Codecs
    var files: Files

    constructor (codecs: Codecs)
      ensures this.codecs == codecs && files == map[]
    {
      this.codecs := codecs;
      files := map[];
    }

    /** Create the file, or accept it when it already holds the same bytes; nothing is ever overwritten. */
    method WriteContentAddressed(path: seq<string>, bytes: Bytes) returns (ok: bool)
      modifies this`files
      ensures ok <==> !Conflicts(old(files), path, bytes)
      ensures files == Written(old(files), path, bytes)
    {
      if path in files {
        return files[path] == bytes;
      }
      files := files[path := bytes];
      return true;
    }

    /** Store a log under its digest and describe it; what is described verifies at once, whatever the tail limit. */
    method PersistOutput(bytes: Bytes, maxTailBytes: nat) returns (artifact: Option<OutputArtifact>)
      requires codecs.Sound()
      modifies this`files
      ensures files == Written(old(files), LogOf(codecs, bytes), bytes)
      ensures artifact.None? <==> Conflicts(old(files), LogOf(codecs, bytes), bytes)
      ensures artifact.Some? ==>
                artifact.value == ArtifactOf(codecs, bytes, maxTailBytes) && Verifies(codecs, files, artifact.value)
    {
      var digest := codecs.Sha256(bytes);
      var ok := WriteContentAddressed(LogFile(digest), bytes);
      if !ok {
        return None;
      }
      StoredLogVerifies(codecs, files, bytes, maxTailBytes);
      var start := if maxTailBytes < |bytes| then |bytes| - maxTailBytes else 0;
      return Some(OutputArtifact(digest, |bytes|, LogPath(digest), start, codecs.lossy(bytes[start..]), start > 0));
    }
  }
}
