/** Which Rust sources of a package are compiled conditionally. */
module ConditionalModules {
  import opened Wrappers

  /** A function with the marks the export scan looks at. */
  datatype Fn = Fn(
    name: string, line: nat, exportName: bool, noMangle: bool, conditional: bool,
    isPublic: bool, abiC: bool, supported: bool)

  datatype Item =
    | Function(fn: Fn)
    | InlineModule(name: string, conditional: bool, content: seq<Item>)
    | ExternalModule(name: string, line: nat, conditional: bool, hasPath: bool)
    | OtherItem

  datatype SourceFile = SourceFile(conditional: bool, items: seq<Item>)

  type Sources = map<string, SourceFile>

  datatype AbiError =
    | ConditionalModulePath(mod: string, file: string, line: nat)
    | UnsupportedExportName(fn: Fn, file: string)
    | ConditionalExport(fn: Fn, file: string)
    | NonPublicExport(fn: Fn, file: string)
    | UnsupportedExportAbi(fn: Fn, file: string)
    | UnsupportedSignature(fn: Fn, file: string)
    | DuplicateExport(fn: Fn, first: Location, second: Location)

  datatype Location = Location(source: string, line: nat)

  // ----- paths -----

  /** The position of the last occurrence, or -1. */
  function LastIndex(s: string, c: char): (i: int)
    ensures -1 <= i < |s|
    ensures i >= 0 ==> s[i] == c
    ensures forall j :: i < j < |s| ==> s[j] != c
  {
    if s == "" then -1 else if s[|s| - 1] == c then |s| - 1 else LastIndex(s[..|s| - 1], c)
  }

  function Parent(path: string): string {
    var slash := LastIndex(path, '/');
    if slash < 0 then "" else path[..slash]
  }

  function FileName(path: string): string {
    path[LastIndex(path, '/') + 1..]
  }

  /** The name before its last dot; a name that only starts with a dot has no extension. */
  function FileStem(name: string): string {
    var dot := LastIndex(name, '.');
    if dot <= 0 then name else name[..dot]
  }

  function Join(base: string, name: string): string {
    if base == "" then name else base + "/" + name
  }

  function ModuleBaseDirectory(source: string): string {
    var stem := FileStem(FileName(source));
    if stem == "lib" || stem == "main" || stem == "mod" then Parent(source) else Join(Parent(source), stem)
  }

  lemma {:induction false} LastIndexAt(s: string, c: char, i: nat)
    requires i < |s| && s[i] == c && c !in s[i + 1..]
    ensures LastIndex(s, c) == i
  {
    if i < |s| - 1 {
      assert s[|s| - 1] == s[i + 1..][|s| - 2 - i];
      assert s[..|s| - 1][i + 1..] == s[i + 1..][..|s| - 2 - i];
      LastIndexAt(s[..|s| - 1], c, i);
    }
  }

  /** A path is split into the directory and the name it was made of. */
  lemma PathParts(directory: string, name: string)
    requires '/' !in name
    ensures Parent(Join(directory, name)) == directory && FileName(Join(directory, name)) == name
  {
    var path := Join(directory, name);
    if directory != "" {
      assert path[|directory| + 1..] == name;
      LastIndexAt(path, '/', |directory|);
      assert path[..|directory|] == directory;
    }
  }

  /** The name without its extension; a dot at the start begins none. */
  ghost predicate IsStem(stem: string, name: string) {
    stem != "" &&
    ((stem == name && '.' !in name[1..]) || exists extension :: '.' !in extension && name == stem + "." + extension)
  }

  lemma StemMeans(stem: string, name: string)
    requires IsStem(stem, name)
    ensures FileStem(name) == stem
  {
    if stem != name || '.' in name[1..] {
      var extension :| '.' !in extension && name == stem + "." + extension;
      assert name[|stem| + 1..] == extension;
      LastIndexAt(name, '.', |stem|);
      assert name[..|stem|] == stem;
    }
  }

  /** The modules that a file declares are looked for beside a `lib`, `main` or `mod` file, and otherwise in the
      directory named like the file. */
  lemma BaseDirectoryMeans(directory: string, name: string, stem: string)
    requires '/' !in name && IsStem(stem, name)
    ensures ModuleBaseDirectory(if directory == "" then name else directory + "/" + name) ==
            if stem == "lib" || stem == "main" || stem == "mod" then directory
            else if directory == "" then stem
            else directory + "/" + stem
  {
    hide Parent, FileName, FileStem, IsStem;
    PathParts(directory, name);
    StemMeans(stem, name);
  }

  // ----- external module declarations -----

  /** A module declared without content: where its file may be, and whether it is compiled conditionally. */
  datatype External = External(base: string, name: string, line: nat, conditional: bool, hasPath: bool)

  function Candidates(e: External): (paths: set<string>)
    ensures |e.base| > 0 ==> paths == {e.base + "/" + e.name + ".rs", e.base + "/" + e.name + "/mod.rs"}
    ensures |e.base| == 0 && |e.name| > 0 ==> paths == {e.name + ".rs", e.name + "/mod.rs"}
  {
    assert e.base + "/" + (e.name + ".rs") == e.base + "/" + e.name + ".rs";
    assert e.base + "/" + e.name + "/" + "mod.rs" == e.base + "/" + e.name + "/mod.rs";
    assert e.name + "/" + "mod.rs" == e.name + "/mod.rs";
    {Join(e.base, e.name + ".rs"), Join(Join(e.base, e.name), "mod.rs")}
  }

  function ItemExternals(item: Item, base: string, inherited: bool): seq<External>
    decreases item
  {
    match item
    case InlineModule(name, conditional, content) => Externals(content, Join(base, name), inherited || conditional)
    case ExternalModule(name, line, conditional, hasPath) =>
      [External(base, name, line, inherited || conditional, hasPath)]
    case _ => []
  }

  /** The external declarations of an item list in order, conditional by themselves or by an enclosing module. */
  function Externals(items: seq<Item>, base: string, inherited: bool): seq<External>
    decreases items
  {
    if items == [] then [] else ItemExternals(items[0], base, inherited) + Externals(items[1..], base, inherited)
  }

  function ExternalsOf(files: Sources, source: string, conditional: bool): seq<External>
    requires source in files
  {
    Externals(files[source].items, ModuleBaseDirectory(source), conditional)
  }

  predicate Conflicting(e: External) {
    e.conditional && e.hasPath
  }

  predicate HasConflict(es: seq<External>) {
    exists e :: e in es && Conflicting(e)
  }

  /** Where the conditionally declared modules may be. */
  ghost predicate ConditionallyDeclared(es: seq<External>, path: string) {
    exists e :: e in es && e.conditional && path in Candidates(e)
  }

  function Forced(es: seq<External>): (r: seq<External>)
    ensures |r| == |es| && forall i :: 0 <= i < |es| ==> r[i] == es[i].(conditional := true)
  {
    seq(|es|, i requires 0 <= i < |es| => es[i].(conditional := true))
  }

  lemma ForcedAppend(a: seq<External>, b: seq<External>)
    ensures Forced(a + b) == Forced(a) + Forced(b)
  {
  }

  /** A conditional parent makes every declaration conditional and changes nothing else. */
  lemma {:induction false} InheritedConditional(items: seq<Item>, base: string, inherited: bool)
    ensures Externals(items, base, true) == Forced(Externals(items, base, inherited))
    decreases items
  {
    if items != [] {
      var rest := Externals(items[1..], base, inherited);
      InheritedConditional(items[1..], base, inherited);
      match items[0] {
        case InlineModule(name, conditional, content) =>
          var nested := Externals(content, Join(base, name), inherited || conditional);
          InheritedConditional(content, Join(base, name), inherited || conditional);
          ForcedAppend(nested, rest);
        case ExternalModule(name, line, conditional, hasPath) =>
          ForcedAppend([External(base, name, line, inherited || conditional, hasPath)], rest);
        case _ =>
          ForcedAppend([], rest);
      }
    }
  }

  /** What is conditional stays conditional below a conditional parent. */
  lemma ConditionalMonotone(items: seq<Item>, base: string)
    ensures HasConflict(Externals(items, base, false)) ==> HasConflict(Externals(items, base, true))
    ensures forall e :: e in Externals(items, base, false) && e.conditional ==> e in Externals(items, base, true)
    ensures forall path :: ConditionallyDeclared(Externals(items, base, false), path) ==>
                           ConditionallyDeclared(Externals(items, base, true), path)
  {
    InheritedConditional(items, base, false);
    var free, forced := Externals(items, base, false), Externals(items, base, true);
    forall e | e in free && e.conditional ensures e in forced {
      var i :| 0 <= i < |free| && free[i] == e;
      assert forced[i] == e;
    }
  }

  // ----- the least set of conditional sources -----

  ghost predicate ClosedAt(files: Sources, s: set<string>, source: string)
    requires source in files
  {
    && (files[source].conditional ==> source in s)
    && (forall path :: path in files && ConditionallyDeclared(ExternalsOf(files, source, source in s), path) ==>
        path in s)
  }

  ghost predicate Closed(files: Sources, s: set<string>) {
    forall source :: source in files ==> ClosedAt(files, s, source)
  }

  /** Belongs to every closed set: compiled conditionally. */
  ghost predicate Conditional(files: Sources, source: string) {
    forall s :: Closed(files, s) ==> source in s
  }

  ghost predicate AllConditional(files: Sources, s: set<string>) {
    forall source :: source in s ==> source in files && Conditional(files, source)
  }

  lemma DeclaredIsConditional(files: Sources, source: string, conditional: bool, path: string)
    requires source in files && path in files && (conditional ==> Conditional(files, source))
    requires ConditionallyDeclared(ExternalsOf(files, source, conditional), path)
    ensures Conditional(files, path)
  {
    ConditionalMonotone(files[source].items, ModuleBaseDirectory(source));
    forall s | Closed(files, s) ensures path in s {
      assert ClosedAt(files, s, source);
      assert conditional ==> source in s;
    }
  }

  lemma MarkedIsConditional(files: Sources, source: string)
    requires source in files && files[source].conditional
    ensures Conditional(files, source)
  {
    forall s | Closed(files, s) ensures source in s {
      assert ClosedAt(files, s, source);
    }
  }

  /** Some file declares a module with an explicit path conditionally, by the least set. */
  ghost predicate PathConflict(files: Sources) {
    exists source :: source in files && HasConflict(ExternalsOf(files, source, Conditional(files, source)))
  }

  /** The error names such a declaration. */
  ghost predicate IsPathConflict(files: Sources, x: AbiError) {
    exists source, e ::
      && source in files && e in ExternalsOf(files, source, Conditional(files, source)) && e.conditional && e.hasPath
      && x == ConditionalModulePath(e.name, source, e.line)
  }

  // ----- the scan -----

  lemma NextItem(items: seq<Item>, base: string, inherited: bool, i: nat)
    requires i < |items|
    ensures Externals(items[..i + 1], base, inherited) ==
            Externals(items[..i], base, inherited) + Externals([items[i]], base, inherited)
  {
    assert items[..i + 1] == items[..i] + [items[i]];
    ExternalsAppend(items[..i], [items[i]], base, inherited);
  }

  lemma {:induction false} ExternalsAppend(a: seq<Item>, b: seq<Item>, base: string, inherited: bool)
    ensures Externals(a + b, base, inherited) == Externals(a, base, inherited) + Externals(b, base, inherited)
    decreases |a|
  {
    if a == [] {
      assert a + b == b;
    } else {
      assert (a + b)[1..] == a[1..] + b;
      ExternalsAppend(a[1..], b, base, inherited);
    }
  }

  lemma SingleItem(item: Item, base: string, inherited: bool)
    ensures Externals([item], base, inherited) == ItemExternals(item, base, inherited)
  {
    assert [item][1..] == [];
  }

  /** The set has grown by exactly the available files of the conditional declarations. */
  ghost predicate GrownBy(es: seq<External>, available: set<string>, before: set<string>, after: set<string>) {
    forall path :: path in after <==> path in before || (path in available && ConditionallyDeclared(es, path))
  }

  lemma GrownTwice(
    a: seq<External>, b: seq<External>, available: set<string>, s: set<string>, t: set<string>, u: set<string>)
    requires GrownBy(a, available, s, t) && GrownBy(b, available, t, u)
    ensures GrownBy(a + b, available, s, u)
  {
    forall path ensures ConditionallyDeclared(a + b, path) <==>
                        ConditionallyDeclared(a, path) || ConditionallyDeclared(b, path) {
      if e :| e in a && e.conditional && path in Candidates(e) {
        assert e in a + b;
      }
      if e :| e in b && e.conditional && path in Candidates(e) {
        assert e in a + b;
      }
    }
  }

  lemma ConflictAppend(a: seq<External>, b: seq<External>)
    ensures HasConflict(a + b) <==> HasConflict(a) || HasConflict(b)
  {
    assert forall e :: e in a + b <==> e in a || e in b;
  }

  method PropagateConditionalModules(
    items: seq<Item>, source: string, base: string, conditionalParent: bool, available: set<string>,
    before: set<string>) returns (r: Result<set<string>, AbiError>)
    ensures r.Ok? <==> !HasConflict(Externals(items, base, conditionalParent))
    ensures r.Ok? ==> GrownBy(Externals(items, base, conditionalParent), available, before, r.value)
    ensures r.Err? ==> exists e :: e in Externals(items, base, conditionalParent) && Conflicting(e) &&
                                   r.error == ConditionalModulePath(e.name, source, e.line)
    decreases items
  {
    var conditional := before;
    for i := 0 to |items|
      invariant !HasConflict(Externals(items[..i], base, conditionalParent))
      invariant GrownBy(Externals(items[..i], base, conditionalParent), available, before, conditional)
    {
      var item := items[i];
      var one := PropagateItem(item, source, base, conditionalParent, available, conditional);
      NextItem(items, base, conditionalParent, i);
      ghost var done, next := Externals(items[..i], base, conditionalParent),
          Externals([item], base, conditionalParent);
      ConflictAppend(done, next);
      if one.Err? {
        ExternalsAppend(items[..i + 1], items[i + 1..], base, conditionalParent);
        assert items[..i + 1] + items[i + 1..] == items;
        ConflictAppend(done + next, Externals(items[i + 1..], base, conditionalParent));
        return one;
      }
      GrownTwice(done, next, available, before, conditional, one.value);
      conditional := one.value;
    }
    assert items[..|items|] == items;
    return Ok(conditional);
  }

  method PropagateItem(
    item: Item, source: string, base: string, conditionalParent: bool, available: set<string>, conditional: set<string>)
    returns (r: Result<set<string>, AbiError>)
    ensures r.Ok? <==> !HasConflict(Externals([item], base, conditionalParent))
    ensures r.Ok? ==> GrownBy(Externals([item], base, conditionalParent), available, conditional, r.value)
    ensures r.Err? ==> exists e :: e in Externals([item], base, conditionalParent) && Conflicting(e) &&
                                   r.error == ConditionalModulePath(e.name, source, e.line)
    decreases item
  {
    SingleItem(item, base, conditionalParent);
    if item.Function? || item.OtherItem? {
      return Ok(conditional);
    }
    var moduleConditional := conditionalParent || item.conditional;
    if item.InlineModule? {
      r := PropagateConditionalModules(
        item.content, source, Join(base, item.name), moduleConditional, available, conditional);
      return;
    }
    ghost var e := External(base, item.name, item.line, moduleConditional, item.hasPath);
    assert Externals([item], base, conditionalParent) == [e];
    if !moduleConditional {
      return Ok(conditional);
    }
    if item.hasPath {
      assert e in [e] && Conflicting(e);
      return Err(ConditionalModulePath(item.name, source, item.line));
    }
    var found := {Join(base, item.name + ".rs"), Join(Join(base, item.name), "mod.rs")};
    assert e in [e] && found == Candidates(e);
    return Ok(conditional + (found * available));
  }

  // ----- the fixpoint -----

  lemma SubsetOfSize(a: set<string>, b: set<string>)
    requires a <= b && |a| == |b|
    ensures a == b
  {
    if a != b {
      var x :| x in b && x !in a;
      SizeOfSubset(a, b - {x});
    }
  }

  lemma {:induction false} SizeOfSubset(a: set<string>, b: set<string>)
    requires a <= b
    ensures |a| <= |b|
    decreases a
  {
    if x :| x in a {
      SizeOfSubset(a - {x}, b - {x});
    }
  }

  /** The set is closed at this file and the file has no path conflict. */
  ghost predicate StableAt(files: Sources, s: set<string>, source: string)
    requires source in files
  {
    ClosedAt(files, s, source) && !HasConflict(ExternalsOf(files, source, source in s))
  }

  ghost predicate Stable(files: Sources, s: set<string>) {
    forall source :: source in files ==> StableAt(files, s, source)
  }

  /** One file of one pass: the set grows only by conditional sources, and stays the same only if it is stable here. */
  method ScanFile(files: Sources, source: string, before: set<string>) returns (r: Result<set<string>, AbiError>)
    requires source in files && AllConditional(files, before)
    ensures r.Ok? ==> before <= r.value && AllConditional(files, r.value)
    ensures r.Ok? && r.value == before ==> StableAt(files, before, source)
    ensures r.Err? ==> IsPathConflict(files, r.error) && PathConflict(files)
  {
    var fileConditional := source in before || files[source].conditional;
    var conditional := before;
    if fileConditional {
      conditional := conditional + {source};
    }
    if files[source].conditional {
      MarkedIsConditional(files, source);
    }
    r := PropagateConditionalModules(
      files[source].items, source, ModuleBaseDirectory(source), fileConditional, files.Keys, conditional);
    if r.Ok? {
      forall path | path in r.value ensures path in files && Conditional(files, path) {
        if path !in conditional {
          DeclaredIsConditional(files, source, fileConditional, path);
        }
      }
      if r.value == before {
        assert fileConditional == (source in before);
      }
    } else {
      ConditionalMonotone(files[source].items, ModuleBaseDirectory(source));
      assert HasConflict(ExternalsOf(files, source, Conditional(files, source)));
      var e :| e in Externals(files[source].items, ModuleBaseDirectory(source), fileConditional) && Conflicting(e) &&
               r.error == ConditionalModulePath(e.name, source, e.line);
      assert e in ExternalsOf(files, source, Conditional(files, source));
    }
  }

  ghost predicate StableFor(files: Sources, s: set<string>, order: seq<string>) {
    forall i :: 0 <= i < |order| ==> order[i] in files && StableAt(files, s, order[i])
  }

  lemma StableEverywhere(files: Sources, s: set<string>, order: seq<string>)
    requires StableFor(files, s, order) && forall source :: source in files ==> source in order
    ensures Stable(files, s)
  {
  }

  /** One pass over the files in the given order. */
  method ScanAll(files: Sources, order: seq<string>, start: set<string>) returns (r: Result<set<string>, AbiError>)
    requires (forall i :: 0 <= i < |order| ==> order[i] in files) && AllConditional(files, start)
    ensures r.Ok? ==> start <= r.value && AllConditional(files, r.value)
    ensures r.Ok? && r.value == start ==> StableFor(files, start, order)
    ensures r.Err? ==> IsPathConflict(files, r.error) && PathConflict(files)
  {
    hide IsPathConflict;
    var conditional := start;
    for i := 0 to |order|
      invariant start <= conditional && AllConditional(files, conditional)
      invariant conditional == start ==> StableFor(files, start, order[..i])
    {
      var scanned := ScanFile(files, order[i], conditional);
      if scanned.Err? {
        return scanned;
      }
      assert order[..i + 1] == order[..i] + [order[i]];
      conditional := scanned.value;
    }
    assert order[..|order|] == order;
    return Ok(conditional);
  }

  lemma StableIsLeast(files: Sources, s: set<string>)
    requires Stable(files, s) && AllConditional(files, s)
    ensures Closed(files, s) && !PathConflict(files)
    ensures forall source :: source in s <==> Conditional(files, source)
  {
    assert Closed(files, s);
    forall source | source in files ensures !HasConflict(ExternalsOf(files, source, Conditional(files, source))) {
      assert StableAt(files, s, source);
      assert source in s <==> Conditional(files, source);
    }
  }

  /** The least closed set, whatever order the files are scanned in; an error exactly on a path conflict. */
  method ConditionalModuleSources(files: Sources, order: seq<string>) returns (r: Result<set<string>, AbiError>)
    requires forall source :: source in order <==> source in files
    ensures r.Ok? <==> !PathConflict(files)
    ensures r.Ok? ==> Closed(files, r.value) && r.value <= files.Keys
    ensures r.Ok? ==> forall source :: source in r.value <==> Conditional(files, source)
    ensures r.Err? ==> IsPathConflict(files, r.error)
  {
    hide IsPathConflict;
    var conditional: set<string> := {};
    var stable := false;
    while !stable
      invariant AllConditional(files, conditional)
      invariant stable ==> Stable(files, conditional)
      decreases files.Keys - conditional, !stable
    {
      var previous := conditional;
      var scanned := ScanAll(files, order, conditional);
      if scanned.Err? {
        return scanned;
      }
      conditional := scanned.value;
      if |conditional| == |previous| {
        SubsetOfSize(previous, conditional);
        StableEverywhere(files, conditional, order);
        stable := true;
      } else {
        Shrinks(files.Keys, previous, conditional);
      }
    }
    StableIsLeast(files, conditional);
    return Ok(conditional);
  }

  lemma Shrinks(all: set<string>, before: set<string>, after: set<string>)
    requires before <= after <= all && |after| != |before|
    ensures all - after < all - before
  {
    assert after != before;
    var x :| x in after && x !in before;
    assert x in all - before && x !in all - after;
  }
}
