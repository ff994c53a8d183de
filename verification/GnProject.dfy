/** The exported GN target graph: labels, aliases and how a dependency label resolves. */
module GnProject {
  import opened Wrappers

  datatype GnTarget = GnTarget(
    targetType: string, toolchain: string, sources: seq<string>, deps: seq<string>, testonly: bool,
    crateRoot: Option<string>)

  datatype Project = Project(defaultToolchain: string, targets: map<string, GnTarget>)

  datatype ImportError =
    | UnknownLabel(name: string)
    | AmbiguousLabel(name: string)
    | UnknownDependency(target: string, dependency: string)
    | ExcludedRootToolchain(name: string)
    | ExcludedRootTestonly(name: string)
    | MissingGateForInferredState
    | ManifestInvalid
  {
    /** The selection failed on a label, before any module was made. */
    predicate NamesLabel() {
      !MissingGateForInferredState? && !ManifestInvalid?
    }
  }

  /** An alias names one label, or is ambiguous. */
  type Aliases = map<string, Option<string>>

  function LastOpen(name: string): (i: nat)
    ensures i <= |name|
    ensures i < |name| ==> name[i] == '(' && '(' !in name[i + 1..]
    ensures i == |name| ==> '(' !in name
  {
    if name == "" then 0
    else
      assert name == [name[0]] + name[1..];
      var i := LastOpen(name[1..]);
      if i < |name| - 1 then 1 + i
      else if name[0] == '(' then 0
      else |name|
  }

  lemma {:induction false} LastOpenUnique(name: string, i: nat)
    requires i < |name| && name[i] == '(' && '(' !in name[i + 1..]
    ensures LastOpen(name) == i
  {
    if i > 0 {
      assert name[1..][i..] == name[i + 1..];
      LastOpenUnique(name[1..], i - 1);
    }
  }

  /** The label without its toolchain suffix, and the toolchain if there is one. */
  function SplitToolchain(name: string): (string, Option<string>) {
    var i := LastOpen(name);
    if i < |name| && name[|name| - 1] == ')' then (name[..i], Some(name[i + 1..|name| - 1])) else (name, None)
  }

  /** The label is a text with a toolchain in parentheses behind it. */
  predicate HasToolchain(name: string, base: string, toolchain: string) {
    '(' !in toolchain && name == base + "(" + toolchain + ")"
  }

  /** A label is split exactly when it is a text with a toolchain in parentheses behind it, and otherwise kept. */
  lemma SplitToolchainRoundTrip(name: string, base: string, toolchain: string)
    ensures SplitToolchain(name) == (base, Some(toolchain)) <==> HasToolchain(name, base, toolchain)
    ensures SplitToolchain(name).1.None? ==> SplitToolchain(name).0 == name
  {
    if HasToolchain(name, base, toolchain) {
      ToolchainSplit(name, base, toolchain);
    }
    if SplitToolchain(name) == (base, Some(toolchain)) {
      SplitHasToolchain(name);
    }
  }

  lemma ToolchainSplit(name: string, base: string, toolchain: string)
    requires HasToolchain(name, base, toolchain)
    ensures SplitToolchain(name) == (base, Some(toolchain))
  {
    hide LastOpen;
    assert name[|base| + 1..] == toolchain + ")";
    LastOpenUnique(name, |base|);
    assert name[..|base|] == base && name[|base| + 1..|name| - 1] == toolchain;
  }

  lemma SplitHasToolchain(name: string)
    requires SplitToolchain(name).1.Some?
    ensures HasToolchain(name, SplitToolchain(name).0, SplitToolchain(name).1.value)
  {
    hide LastOpen;
    var i := LastOpen(name);
    assert name == name[..i] + "(" + name[i + 1..|name| - 1] + ")";
    assert forall j :: i < j < |name| ==> name[j] == name[i + 1..][j - i - 1];
  }

  /** A target has the default toolchain when it says so, or says nothing and its label names that one or none. */
  lemma DefaultToolchainMeans(p: Project, name: string, target: GnTarget)
    ensures IsDefaultToolchainTarget(p, name, target) <==>
            || (target.toolchain == p.defaultToolchain && target.toolchain != "")
            || (target.toolchain == "" &&
                forall base, toolchain :: HasToolchain(name, base, toolchain) ==> toolchain == p.defaultToolchain)
  {
    forall base, toolchain
      ensures SplitToolchain(name) == (base, Some(toolchain)) <==> HasToolchain(name, base, toolchain)
    {
      SplitToolchainRoundTrip(name, base, toolchain);
    }
    hide SplitToolchain, HasToolchain;
    var split := SplitToolchain(name);
    if split.1.Some? {
      assert HasToolchain(name, split.0, split.1.value);
    }
  }

  predicate IsDefaultToolchainTarget(p: Project, name: string, target: GnTarget) {
    if target.toolchain != "" then target.toolchain == p.defaultToolchain
    else
      match SplitToolchain(name).1
      case None => true
      case Some(toolchain) => toolchain == p.defaultToolchain
  }

  // ----- aliases -----

  /** The target labelled `name` answers to this alias. */
  predicate AnswersTo(p: Project, name: string, alias: string) {
    && name in p.targets
    && (|| alias == name
        || (IsDefaultToolchainTarget(p, name, p.targets[name]) &&
            (alias == SplitToolchain(name).0 || alias == SplitToolchain(name).0 + "(" + p.defaultToolchain + ")")))
  }

  /** The label without its toolchain, or the label when it has none. */
  ghost predicate IsBase(name: string, base: string) {
    || (exists toolchain :: HasToolchain(name, base, toolchain))
    || (base == name && forall b, toolchain :: !HasToolchain(name, b, toolchain))
  }

  lemma BaseMeans(name: string, base: string)
    ensures IsBase(name, base) <==> SplitToolchain(name).0 == base
  {
    forall b, toolchain
      ensures SplitToolchain(name) == (b, Some(toolchain)) <==> HasToolchain(name, b, toolchain)
      ensures SplitToolchain(name).1.None? ==> SplitToolchain(name).0 == name
    {
      SplitToolchainRoundTrip(name, b, toolchain);
    }
    hide SplitToolchain, HasToolchain;
    var split := SplitToolchain(name);
    if split.1.Some? {
      assert HasToolchain(name, split.0, split.1.value);
    }
  }

  /** A target answers to its label, and one of the default toolchain also to its label without a toolchain and with
      the default one. */
  lemma AnswersMeans(p: Project, name: string, alias: string)
    ensures AnswersTo(p, name, alias) <==>
            && name in p.targets
            && (alias == name ||
                (IsDefaultToolchainTarget(p, name, p.targets[name]) &&
                 exists base :: IsBase(name, base) &&
                                (alias == base || alias == base + "(" + p.defaultToolchain + ")")))
  {
    forall base ensures IsBase(name, base) <==> SplitToolchain(name).0 == base {
      BaseMeans(name, base);
    }
    hide SplitToolchain, IsBase, IsDefaultToolchainTarget;
    assert IsBase(name, SplitToolchain(name).0);
  }

  /** Each alias of the labels in `done` names the only label that answers to it, and is ambiguous when two do. */
  ghost predicate AliasesOf(p: Project, done: set<string>, aliases: Aliases) {
    && (forall alias :: alias in aliases <==> exists l :: l in done && AnswersTo(p, l, alias))
    && (forall alias :: alias in aliases ==>
          match aliases[alias]
          case Some(l) =>
            l in done && AnswersTo(p, l, alias) && forall k :: k in done && AnswersTo(p, k, alias) ==> k == l
          case None =>
            exists l, k :: l in done && k in done && l != k && AnswersTo(p, l, alias) && AnswersTo(p, k, alias))
  }

  method InsertAlias(aliases: Aliases, alias: string, name: string) returns (updated: Aliases)
    ensures updated == aliases[alias := if alias !in aliases || aliases[alias] == Some(name) then Some(name) else None]
  {
    if alias in aliases {
      if aliases[alias] != Some(name) {
        return aliases[alias := None];
      }
      return aliases;
    }
    return aliases[alias := Some(name)];
  }

  /** No alias names this label yet. */
  ghost predicate Unnamed(base: Aliases, name: string) {
    forall alias :: alias in base ==> base[alias] != Some(name)
  }

  /** While one label is being added: its aliases among `added` are in, the rest are not. */
  ghost predicate PartlyAliased(name: string, added: set<string>, base: Aliases, aliases: Aliases) {
    && aliases.Keys == base.Keys + added
    && forall alias :: alias in aliases ==>
         aliases[alias] ==
         if alias !in added then base[alias]
         else if alias !in base then Some(name)
         else None
  }

  method InsertPartly(name: string, ghost added: set<string>, ghost base: Aliases, before: Aliases, alias: string)
    returns (aliases: Aliases)
    requires Unnamed(base, name) && PartlyAliased(name, added, base, before)
    ensures PartlyAliased(name, added + {alias}, base, aliases)
  {
    aliases := InsertAlias(before, alias, name);
  }

  lemma AliasesExtended(p: Project, done: set<string>, name: string, base: Aliases, aliases: Aliases,
      added: set<string>)
    requires AliasesOf(p, done, base) && name in p.targets && name !in done
    requires forall alias :: alias in added <==> AnswersTo(p, name, alias)
    requires PartlyAliased(name, added, base, aliases)
    ensures AliasesOf(p, done + {name}, aliases)
  {
    forall alias | alias in aliases
      ensures match aliases[alias]
              case Some(l) => l in done + {name} && AnswersTo(p, l, alias) &&
                              forall k :: k in done + {name} && AnswersTo(p, k, alias) ==> k == l
              case None => exists l, k :: l in done + {name} && k in done + {name} && l != k &&
                                          AnswersTo(p, l, alias) && AnswersTo(p, k, alias)
    {
      if alias in added && alias in base {
        var l :| l in done && AnswersTo(p, l, alias);
        assert l != name && AnswersTo(p, name, alias);
      } else if alias in base && base[alias].None? {
        var l, k :| l in done && k in done && l != k && AnswersTo(p, l, alias) && AnswersTo(p, k, alias);
        assert l in done + {name} && k in done + {name};
      }
    }
    forall alias ensures alias in aliases <==> exists l :: l in done + {name} && AnswersTo(p, l, alias) {
      if alias in aliases {
        if alias in base {
          var l :| l in done && AnswersTo(p, l, alias);
          assert l in done + {name};
        } else {
          assert name in done + {name};
        }
      }
    }
  }

  lemma NotYetNamed(p: Project, done: set<string>, name: string, base: Aliases)
    requires AliasesOf(p, done, base) && name !in done
    ensures Unnamed(base, name)
  {
    forall alias | alias in base ensures base[alias] != Some(name) {
      match base[alias] {
        case Some(l) => assert l in done;
        case None =>
      }
    }
  }

  method AddAliases(p: Project, ghost done: set<string>, name: string, base: Aliases) returns (aliases: Aliases)
    requires AliasesOf(p, done, base) && name in p.targets && name !in done
    ensures AliasesOf(p, done + {name}, aliases)
  {
    hide AliasesOf, Unnamed, SplitToolchain, IsDefaultToolchainTarget;
    ghost var added := {name};
    NotYetNamed(p, done, name, base);
    assert PartlyAliased(name, {}, base, base);
    aliases := InsertPartly(name, {}, base, base, name);
    if IsDefaultToolchainTarget(p, name, p.targets[name]) {
      var stem := SplitToolchain(name).0;
      aliases := InsertPartly(name, added, base, aliases, stem);
      added := added + {stem};
      aliases := InsertPartly(name, added, base, aliases, stem + "(" + p.defaultToolchain + ")");
      added := added + {stem + "(" + p.defaultToolchain + ")"};
    }
    AliasesExtended(p, done, name, base, aliases, added);
  }

  /** Collect the aliases of every target, in whatever order the targets come. */
  method BuildAliases(p: Project) returns (aliases: Aliases)
    ensures AliasesOf(p, p.targets.Keys, aliases)
  {
    aliases := map[];
    var todo := p.targets.Keys;
    ghost var done: set<string> := {};
    while todo != {}
      invariant todo + done == p.targets.Keys && todo !! done
      invariant AliasesOf(p, done, aliases)
      decreases |todo|
    {
      var name :| name in todo;
      aliases := AddAliases(p, done, name, aliases);
      todo := todo - {name};
      done := done + {name};
    }
    assert done == p.targets.Keys;
  }

  // ----- resolution -----

  function ResolveLabel(p: Project, aliases: Aliases, name: string): (r: Result<string, ImportError>)
    ensures r.Err? ==> r.error.NamesLabel()
  {
    if name in p.targets then Ok(name)
    else if name !in aliases then Err(UnknownLabel(name))
    else
      match aliases[name]
      case Some(resolved) => Ok(resolved)
      case None => Err(AmbiguousLabel(name))
  }

  function ResolveDependency(p: Project, aliases: Aliases, target: string, dependency: string)
    : (r: Result<string, ImportError>)
    ensures r.Err? ==> r.error.NamesLabel()
  {
    match ResolveLabel(p, aliases, dependency)
    case Err(UnknownLabel(_)) => Err(UnknownDependency(target, dependency))
    case other => other
  }

  /** No target is labelled so, and two answer to it. */
  ghost predicate Ambiguous(p: Project, name: string) {
    name !in p.targets &&
    exists l, k :: l in p.targets && k in p.targets && l != k && AnswersTo(p, l, name) && AnswersTo(p, k, name)
  }

  /** A label resolves to itself when exported, and otherwise to the one exported target that answers to it. */
  lemma ResolveLabelMeaning(p: Project, aliases: Aliases, name: string)
    requires AliasesOf(p, p.targets.Keys, aliases)
    ensures forall l :: ResolveLabel(p, aliases, name) == Ok(l) <==>
                        && l in p.targets
                        && (l == name ||
                            (name !in p.targets && AnswersTo(p, l, name) &&
                             forall k :: k in p.targets && AnswersTo(p, k, name) ==> k == l))
    ensures ResolveLabel(p, aliases, name) == Err(UnknownLabel(name)) <==>
            forall l :: l in p.targets ==> !AnswersTo(p, l, name)
    ensures forall t, l :: ResolveDependency(p, aliases, t, name) == Ok(l) <==> ResolveLabel(p, aliases, name) == Ok(l)
  {
    if name in p.targets {
      assert AnswersTo(p, name, name);
    } else if name in aliases && aliases[name].None? {
      var l, k :| l in p.targets && k in p.targets && l != k && AnswersTo(p, l, name) && AnswersTo(p, k, name);
    }
  }

  /** A label that does not resolve is unknown when no target answers to it and ambiguous when two do. */
  lemma ResolveErrors(p: Project, aliases: Aliases, name: string, target: string)
    requires AliasesOf(p, p.targets.Keys, aliases)
    ensures ResolveLabel(p, aliases, name) == Err(AmbiguousLabel(name)) <==> Ambiguous(p, name)
    ensures ResolveDependency(p, aliases, target, name) == Err(AmbiguousLabel(name)) <==> Ambiguous(p, name)
    ensures ResolveDependency(p, aliases, target, name) == Err(UnknownDependency(target, name)) <==>
            forall l :: l in p.targets ==> !AnswersTo(p, l, name)
  {
    if name in p.targets {
      assert AnswersTo(p, name, name);
    }
    hide AnswersTo;
    if name !in p.targets && name in aliases && aliases[name].Some? {
      var l := aliases[name].value;
      assert forall k :: k in p.targets && AnswersTo(p, k, name) ==> k == l;
    }
  }
}
