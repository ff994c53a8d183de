/** Target selection: eligibility, the closure of the roots, and the dependencies left out. */
module GnSelection {
  import opened Wrappers
  import opened Ordering
  import opened Listing
  import opened GnProject

  datatype Options = Options(
    roots: seq<string>, includeAllToolchains: bool, includeTestonly: bool, includeMetaTargets: bool, inferState: bool)

  /** b is what some dependency of the target a resolves to. */
  ghost predicate DependsOn(p: Project, aliases: Aliases, a: string, b: string) {
    a in p.targets && exists d :: d in p.targets[a].deps && ResolveLabel(p, aliases, d) == Ok(b)
  }

  ghost predicate DependenciesResolve(p: Project, aliases: Aliases, a: string)
    requires a in p.targets
  {
    forall d :: d in p.targets[a].deps ==> ResolveLabel(p, aliases, d).Ok?
  }

  // ----- eligibility -----

  predicate OtherToolchain(p: Project, o: Options, name: string)
    requires name in p.targets
  {
    !o.includeAllToolchains && !IsDefaultToolchainTarget(p, name, p.targets[name])
  }

  predicate ExcludedTestonly(p: Project, o: Options, name: string)
    requires name in p.targets
  {
    !o.includeTestonly && p.targets[name].testonly
  }

  predicate Eligible(p: Project, o: Options, name: string) {
    name in p.targets && !OtherToolchain(p, o, name) && !ExcludedTestonly(p, o, name)
  }

  /** Every target is eligible or counted under exactly one reason to skip it. */
  method SelectEligible(p: Project, o: Options) returns (eligible: set<string>, testonly: nat, otherToolchain: nat)
    ensures forall l :: l in eligible <==> Eligible(p, o, l)
    ensures forall l :: l in eligible <==>
              && l in p.targets && (o.includeAllToolchains || IsDefaultToolchainTarget(p, l, p.targets[l]))
              && (o.includeTestonly || !p.targets[l].testonly)
    ensures |eligible| + testonly + otherToolchain == |p.targets|
    ensures otherToolchain == |set l | l in p.targets && OtherToolchain(p, o, l)|
  {
    eligible, testonly, otherToolchain := {}, 0, 0;
    var todo := p.targets.Keys;
    ghost var skipped: set<string> := {};
    while todo != {}
      invariant todo <= p.targets.Keys
      invariant forall l :: l in eligible <==> l !in todo && Eligible(p, o, l)
      invariant |eligible| + testonly + otherToolchain + |todo| == |p.targets|
      invariant forall l :: l in skipped <==> l in p.targets && l !in todo && OtherToolchain(p, o, l)
      invariant otherToolchain == |skipped|
      decreases |todo|
    {
      var l :| l in todo;
      todo := todo - {l};
      if !o.includeAllToolchains && !IsDefaultToolchainTarget(p, l, p.targets[l]) {
        otherToolchain := otherToolchain + 1;
        skipped := skipped + {l};
      } else if !o.includeTestonly && p.targets[l].testonly {
        testonly := testonly + 1;
      } else {
        eligible := eligible + {l};
      }
    }
    assert skipped == set l | l in p.targets && OtherToolchain(p, o, l);
  }

  // ----- the closure of the roots -----

  /** s contains what the roots resolve to and every eligible dependency of its members. */
  ghost predicate RootClosed(p: Project, aliases: Aliases, eligible: set<string>, roots: seq<string>, s: set<string>) {
    && (forall r :: r in roots && ResolveLabel(p, aliases, r).Ok? ==> ResolveLabel(p, aliases, r).value in s)
    && (forall a, b :: a in s && b in eligible && DependsOn(p, aliases, a, b) ==> b in s)
  }

  /** Belongs to every root-closed set. */
  ghost predicate InClosure(p: Project, aliases: Aliases, eligible: set<string>, roots: seq<string>, a: string) {
    forall s :: RootClosed(p, aliases, eligible, roots, s) ==> a in s
  }

  ghost predicate RootEligible(p: Project, aliases: Aliases, eligible: set<string>, root: string) {
    ResolveLabel(p, aliases, root).Ok? && ResolveLabel(p, aliases, root).value in eligible
  }

  ghost predicate RootsEligible(p: Project, aliases: Aliases, eligible: set<string>, roots: seq<string>) {
    forall r :: r in roots ==> RootEligible(p, aliases, eligible, r)
  }

  lemma ClosureStep(p: Project, aliases: Aliases, eligible: set<string>, roots: seq<string>, a: string, b: string)
    requires InClosure(p, aliases, eligible, roots, a) && b in eligible && DependsOn(p, aliases, a, b)
    ensures InClosure(p, aliases, eligible, roots, b)
  {
    forall s | RootClosed(p, aliases, eligible, roots, s) ensures b in s {
      assert a in s;
    }
  }

  /** What the error says about a root or a dependency is true. */
  ghost predicate IsFault(p: Project, aliases: Aliases, o: Options, e: ImportError) {
    match e
    case UnknownLabel(name) => name in o.roots && forall l :: l in p.targets ==> !AnswersTo(p, l, name)
    case AmbiguousLabel(name) => Ambiguous(p, name)
    case UnknownDependency(target, name) =>
      && target in p.targets && name in p.targets[target].deps
      && forall l :: l in p.targets ==> !AnswersTo(p, l, name)
    case ExcludedRootToolchain(name) =>
      name in o.roots && exists l :: ResolveLabel(p, aliases, name) == Ok(l) && l in p.targets &&
                                     !o.includeAllToolchains && !IsDefaultToolchainTarget(p, l, p.targets[l])
    case ExcludedRootTestonly(name) =>
      name in o.roots && exists l :: ResolveLabel(p, aliases, name) == Ok(l) && l in p.targets &&
                                     (o.includeAllToolchains || IsDefaultToolchainTarget(p, l, p.targets[l])) &&
                                     !o.includeTestonly && p.targets[l].testonly
    case _ => false
  }

  lemma DependencyFault(p: Project, aliases: Aliases, o: Options, target: string, name: string)
    requires AliasesOf(p, p.targets.Keys, aliases) && target in p.targets && name in p.targets[target].deps
    requires ResolveLabel(p, aliases, name).Err?
    ensures ResolveDependency(p, aliases, target, name).Err?
    ensures IsFault(p, aliases, o, ResolveDependency(p, aliases, target, name).error)
  {
    hide AliasesOf, AnswersTo;
    ResolveLabelMeaning(p, aliases, name);
    ResolveErrors(p, aliases, name, target);
  }

  method ResolveRoot(p: Project, aliases: Aliases, o: Options, eligible: set<string>, root: string)
    returns (r: Result<string, ImportError>)
    requires AliasesOf(p, p.targets.Keys, aliases)
    requires forall l :: l in eligible <==> Eligible(p, o, l)
    requires root in o.roots
    ensures r.Err? ==> IsFault(p, aliases, o, r.error)
    ensures r.Ok? <==> RootEligible(p, aliases, eligible, root)
    ensures r.Ok? ==> ResolveLabel(p, aliases, root) == Ok(r.value)
  {
    hide AliasesOf, IsDefaultToolchainTarget, AnswersTo;
    ResolveLabelMeaning(p, aliases, root);
    ResolveErrors(p, aliases, root, root);
    r := ResolveLabel(p, aliases, root);
    if r.Ok? && r.value !in eligible {
      if OtherToolchain(p, o, r.value) {
        return Err(ExcludedRootToolchain(root));
      }
      return Err(ExcludedRootTestonly(root));
    }
  }

  lemma RootsListed(p: Project, aliases: Aliases, roots: seq<string>, pending: seq<string>)
    requires |pending| == |roots|
    requires forall j :: 0 <= j < |roots| ==> ResolveLabel(p, aliases, roots[j]) == Ok(pending[j])
    ensures forall l :: l in pending <==> exists root :: root in roots && ResolveLabel(p, aliases, root) == Ok(l)
  {
    hide ResolveLabel;
    forall l ensures l in pending <==> exists root :: root in roots && ResolveLabel(p, aliases, root) == Ok(l) {
      if root :| root in roots && ResolveLabel(p, aliases, root) == Ok(l) {
        var j :| 0 <= j < |roots| && roots[j] == root;
        assert pending[j] == l;
      }
    }
  }

  lemma RootsAllEligible(
    p: Project, aliases: Aliases, eligible: set<string>, roots: seq<string>, pending: seq<string>)
    requires |pending| == |roots|
    requires forall j :: 0 <= j < |roots| ==> RootEligible(p, aliases, eligible, roots[j])
    requires forall j :: 0 <= j < |roots| ==> ResolveLabel(p, aliases, roots[j]) == Ok(pending[j])
    ensures RootsEligible(p, aliases, eligible, roots)
    ensures forall l :: l in pending ==> l in eligible
  {
    hide ResolveLabel;
    forall l | l in pending ensures l in eligible {
      var j :| 0 <= j < |pending| && pending[j] == l;
      assert RootEligible(p, aliases, eligible, roots[j]);
    }
  }

  method ResolveRoots(p: Project, aliases: Aliases, o: Options, eligible: set<string>)
    returns (r: Result<seq<string>, ImportError>)
    requires AliasesOf(p, p.targets.Keys, aliases)
    requires forall l :: l in eligible <==> Eligible(p, o, l)
    ensures r.Err? ==> IsFault(p, aliases, o, r.error)
    ensures r.Ok? <==> RootsEligible(p, aliases, eligible, o.roots)
    ensures r.Ok? ==> forall l :: l in r.value <==>
                                  exists root :: root in o.roots && ResolveLabel(p, aliases, root) == Ok(l)
    ensures r.Ok? ==> forall l :: l in r.value ==> l in eligible
    ensures r == Ok([]) <==> o.roots == []
  {
    hide AliasesOf, ResolveLabel, RootEligible, Eligible;
    var pending: seq<string> := [];
    for i := 0 to |o.roots|
      invariant |pending| == i
      invariant forall j :: 0 <= j < i ==> RootEligible(p, aliases, eligible, o.roots[j])
      invariant forall j :: 0 <= j < i ==> ResolveLabel(p, aliases, o.roots[j]) == Ok(pending[j])
    {
      var resolved := ResolveRoot(p, aliases, o, eligible, o.roots[i]);
      if resolved.Err? {
        assert o.roots[i] in o.roots;
        return Err(resolved.error);
      }
      pending := pending + [resolved.value];
    }
    RootsAllEligible(p, aliases, eligible, o.roots, pending);
    RootsListed(p, aliases, o.roots, pending);
    return Ok(pending);
  }

  /** Push the eligible dependencies of one target. */
  method PushDependencies(
    p: Project, aliases: Aliases, ghost o: Options, eligible: set<string>, name: string, before: seq<string>)
    returns (r: Result<seq<string>, ImportError>)
    requires AliasesOf(p, p.targets.Keys, aliases) && name in p.targets
    ensures r.Err? ==> IsFault(p, aliases, o, r.error)
    ensures r.Ok? <==> DependenciesResolve(p, aliases, name)
    ensures r.Ok? ==> before <= r.value
    ensures r.Ok? ==> forall b :: b in r.value <==> b in before || (b in eligible && DependsOn(p, aliases, name, b))
  {
    hide AliasesOf, IsFault;
    var deps := p.targets[name].deps;
    var pending := before;
    for i := 0 to |deps|
      invariant before <= pending
      invariant forall d :: d in deps[..i] ==> ResolveLabel(p, aliases, d).Ok?
      invariant forall b :: b in pending <==>
                            (b in before ||
                             (b in eligible && exists d :: d in deps[..i] && ResolveLabel(p, aliases, d) == Ok(b)))
    {
      assert deps[..i + 1] == deps[..i] + [deps[i]];
      var resolved := ResolveDependency(p, aliases, name, deps[i]);
      if resolved.Err? {
        assert ResolveLabel(p, aliases, deps[i]).Err?;
        DependencyFault(p, aliases, o, name, deps[i]);
        return Err(resolved.error);
      }
      if resolved.value in eligible {
        pending := pending + [resolved.value];
      }
    }
    assert deps[..|deps|] == deps;
    return Ok(pending);
  }

  /** What the worklist keeps: everything selected or pending belongs, and nothing selected is left half done. */
  ghost predicate Progress(
    p: Project, aliases: Aliases, eligible: set<string>, roots: seq<string>, selected: set<string>,
    pending: seq<string>)
  {
    && selected <= eligible
    && (forall l :: l in pending ==> l in eligible)
    && (forall l :: l in selected || l in pending ==> InClosure(p, aliases, eligible, roots, l))
    && (forall r :: r in roots && ResolveLabel(p, aliases, r).Ok? ==>
          ResolveLabel(p, aliases, r).value in selected || ResolveLabel(p, aliases, r).value in pending)
    && (forall a :: a in selected ==> a in p.targets && DependenciesResolve(p, aliases, a))
    && (forall a, b :: a in selected && b in eligible && DependsOn(p, aliases, a, b) ==> b in selected || b in pending)
  }

  lemma ProgressStep(
    p: Project, aliases: Aliases, eligible: set<string>, roots: seq<string>, selected: set<string>,
    pending: seq<string>,
    name: string, next: seq<string>)
    requires Progress(p, aliases, eligible, roots, selected, pending + [name])
    requires name in p.targets && DependenciesResolve(p, aliases, name)
    requires forall b :: b in next <==> b in pending || (b in eligible && DependsOn(p, aliases, name, b))
    ensures Progress(p, aliases, eligible, roots, selected + {name}, next)
  {
    assert forall l :: l in pending + [name] <==> l in pending || l == name;
    forall b | b in eligible && DependsOn(p, aliases, name, b) ensures InClosure(p, aliases, eligible, roots, b) {
      ClosureStep(p, aliases, eligible, roots, name, b);
    }
  }

  lemma ProgressStart(p: Project, aliases: Aliases, eligible: set<string>, roots: seq<string>, pending: seq<string>)
    requires forall l :: l in pending <==> exists root :: root in roots && ResolveLabel(p, aliases, root) == Ok(l)
    requires forall l :: l in pending ==> l in eligible
    ensures Progress(p, aliases, eligible, roots, {}, pending)
  {
  }

  lemma SkipSelected(
    p: Project, aliases: Aliases, eligible: set<string>, roots: seq<string>, selected: set<string>, rest: seq<string>,
    name: string)
    requires Progress(p, aliases, eligible, roots, selected, rest + [name]) && name in selected
    ensures Progress(p, aliases, eligible, roots, selected, rest)
  {
    assert forall l :: l in rest + [name] <==> l in rest || l == name;
  }

  lemma PendingBelongs(
    p: Project, aliases: Aliases, eligible: set<string>, roots: seq<string>, selected: set<string>, rest: seq<string>,
    name: string)
    requires Progress(p, aliases, eligible, roots, selected, rest + [name])
    ensures name in eligible && InClosure(p, aliases, eligible, roots, name)
  {
    assert name in rest + [name];
  }

  lemma FinishedIsLeast(p: Project, aliases: Aliases, eligible: set<string>, roots: seq<string>, selected: set<string>)
    requires Progress(p, aliases, eligible, roots, selected, [])
    ensures selected <= eligible && RootClosed(p, aliases, eligible, roots, selected)
    ensures forall s :: RootClosed(p, aliases, eligible, roots, s) ==> selected <= s
    ensures forall a :: a in p.targets && InClosure(p, aliases, eligible, roots, a) ==>
            DependenciesResolve(p, aliases, a)
  {
    assert RootClosed(p, aliases, eligible, roots, selected);
  }

  /** The least set that holds the roots and is closed under eligible dependencies, or an error in it. */
  method SelectRootClosure(p: Project, aliases: Aliases, o: Options, eligible: set<string>)
    returns (r: Result<set<string>, ImportError>)
    requires AliasesOf(p, p.targets.Keys, aliases)
    requires forall l :: l in eligible <==> Eligible(p, o, l)
    ensures r.Err? ==> IsFault(p, aliases, o, r.error)
    ensures r.Ok? <==> (RootsEligible(p, aliases, eligible, o.roots) &&
                        forall a :: a in p.targets && InClosure(p, aliases, eligible, o.roots, a) ==>
                                    DependenciesResolve(p, aliases, a))
    ensures r.Ok? ==> r.value <= eligible && RootClosed(p, aliases, eligible, o.roots, r.value)
    ensures r.Ok? ==> forall s :: RootClosed(p, aliases, eligible, o.roots, s) ==> r.value <= s
  {
    hide Progress, InClosure, RootClosed, DependenciesResolve, AliasesOf, RootsEligible, IsFault;
    var start := ResolveRoots(p, aliases, o, eligible);
    if start.Err? {
      return Err(start.error);
    }
    var pending := start.value;
    var selected: set<string> := {};
    ProgressStart(p, aliases, eligible, o.roots, pending);
    while pending != []
      invariant Progress(p, aliases, eligible, o.roots, selected, pending)
      decreases eligible - selected, |pending|
    {
      var name := pending[|pending| - 1];
      var rest := pending[..|pending| - 1];
      assert pending == rest + [name];
      if name in selected {
        SkipSelected(p, aliases, eligible, o.roots, selected, rest, name);
        pending := rest;
        continue;
      }
      PendingBelongs(p, aliases, eligible, o.roots, selected, rest, name);
      var pushed := PushDependencies(p, aliases, o, eligible, name, rest);
      if pushed.Err? {
        return Err(pushed.error);
      }
      ProgressStep(p, aliases, eligible, o.roots, selected, rest, name, pushed.value);
      selected := selected + {name};
      pending := pushed.value;
    }
    FinishedIsLeast(p, aliases, eligible, o.roots, selected);
    return Ok(selected);
  }

  // ----- omitted dependencies -----

  datatype OmitReason = TestOnly | OtherToolchainTarget

  datatype Omitted = Omitted(target: string, dependency: string, reason: OmitReason)

  /** The dependency at this position of the label at this position leaves the selection. */
  ghost predicate OmittedAt(
    p: Project, aliases: Aliases, selected: set<string>, order: seq<string>, i: nat, k: nat, e: Omitted)
  {
    && i < |order| && order[i] in p.targets && k < |p.targets[order[i]].deps|
    && e.target == order[i] && ResolveLabel(p, aliases, p.targets[order[i]].deps[k]) == Ok(e.dependency)
    && e.dependency !in selected && e.dependency in p.targets
    && e.reason == if p.targets[e.dependency].testonly then TestOnly else OtherToolchainTarget
  }

  ghost function OmittedAll(p: Project, aliases: Aliases, selected: set<string>, order: seq<string>)
    : (Place, Omitted) -> bool
  {
    (at: Place, e: Omitted) => at == Place(at.a, at.b, 0, 0) && OmittedAt(p, aliases, selected, order, at.a, at.b, e)
  }

  /** The dependencies that leave the selection are listed label by label and in the order of each, one for each. */
  ghost predicate OmittedInOrder(
    p: Project, aliases: Aliases, selected: set<string>, order: seq<string>, bound: Place, places: seq<Place>,
    omitted: seq<Omitted>)
  {
    Lists(OmittedAll(p, aliases, selected, order), bound, places, omitted)
  }

  /** All of them, the labels in the order of their texts. */
  ghost predicate AllOmitted(p: Project, aliases: Aliases, selected: set<string>, omitted: seq<Omitted>) {
    exists order, places ::
      InTextOrder(order, selected) &&
      OmittedInOrder(p, aliases, selected, order, Place(|order|, 0, 0, 0), places, omitted)
  }

  function Omission(p: Project, target: string, dependency: string): Omitted
    requires dependency in p.targets
  {
    Omitted(target, dependency, if p.targets[dependency].testonly then TestOnly else OtherToolchainTarget)
  }

  lemma OmittedHere(
    p: Project, aliases: Aliases, selected: set<string>, order: seq<string>, i: nat, k: nat, dependency: string)
    requires i < |order| && order[i] in p.targets && k < |p.targets[order[i]].deps|
    requires ResolveLabel(p, aliases, p.targets[order[i]].deps[k]) == Ok(dependency) && dependency in p.targets
    ensures Adjacent(OmittedAll(p, aliases, selected, order), Place(i, k, 0, 0), Place(i, k + 1, 0, 0))
    ensures forall e :: OmittedAt(p, aliases, selected, order, i, k, e) <==>
                        dependency !in selected && e == Omission(p, order[i], dependency)
  {
    hide ResolveLabel;
  }

  lemma OmittedStep(
    p: Project, aliases: Aliases, selected: set<string>, order: seq<string>, from: Place, next: Place,
    places: seq<Place>, omitted: seq<Omitted>, e: Omitted, here: bool) returns (places': seq<Place>)
    requires OmittedInOrder(p, aliases, selected, order, from, places, omitted)
    requires Adjacent(OmittedAll(p, aliases, selected, order), from, next) && from == Place(from.a, from.b, 0, 0)
    requires forall x :: OmittedAt(p, aliases, selected, order, from.a, from.b, x) <==> here && x == e
    ensures OmittedInOrder(p, aliases, selected, order, next, places', omitted + Found(e, here))
  {
    hide Lists, Adjacent, OmittedAt;
    places' := ListsStep(OmittedAll(p, aliases, selected, order), from, next, places, omitted, e, here);
  }

  lemma OmittedNext(
    p: Project, aliases: Aliases, selected: set<string>, order: seq<string>, i: nat, places: seq<Place>,
    omitted: seq<Omitted>)
    requires i < |order| && order[i] in p.targets
    requires OmittedInOrder(p, aliases, selected, order, Place(i, |p.targets[order[i]].deps|, 0, 0), places, omitted)
    ensures OmittedInOrder(p, aliases, selected, order, Place(i + 1, 0, 0, 0), places, omitted)
  {
    hide ResolveLabel, Lists;
    var holds := OmittedAll(p, aliases, selected, order);
    assert Free(holds, Place(i, |p.targets[order[i]].deps|, 0, 0), Place(i + 1, 0, 0, 0));
    hide OmittedAt, Free;
    ListsOn(holds, Place(i, |p.targets[order[i]].deps|, 0, 0), Place(i + 1, 0, 0, 0), places, omitted);
  }

  lemma OmittedNothing(p: Project, aliases: Aliases, selected: set<string>, order: seq<string>)
    ensures OmittedInOrder(p, aliases, selected, order, Place(0, 0, 0, 0), [], [])
  {
    hide OmittedAt;
    ListsNothing(OmittedAll(p, aliases, selected, order));
  }

  method OmittedOf(
    p: Project, aliases: Aliases, ghost o: Options, selected: set<string>, name: string, before: seq<Omitted>,
    ghost order: seq<string>, ghost n: nat, ghost start: seq<Place>)
    returns (r: Result<seq<Omitted>, ImportError>, ghost places: seq<Place>)
    requires AliasesOf(p, p.targets.Keys, aliases) && name in p.targets
    requires n < |order| && name == order[n]
    requires OmittedInOrder(p, aliases, selected, order, Place(n, 0, 0, 0), start, before)
    ensures r.Ok? ==> OmittedInOrder(p, aliases, selected, order, Place(n + 1, 0, 0, 0), places, before + r.value)
    ensures r.Err? ==> IsFault(p, aliases, o, r.error)
    ensures r.Ok? <==> DependenciesResolve(p, aliases, name)
    ensures r.Ok? ==> forall e :: e in r.value <==> e.target == name && IsOmitted(p, aliases, selected, e)
  {
    hide AliasesOf, IsFault, OmittedInOrder, OmittedAt, Adjacent;
    var deps := p.targets[name].deps;
    var omitted: seq<Omitted> := [];
    places := start;
    assert before + omitted == before;
    for i := 0 to |deps|
      invariant OmittedInOrder(p, aliases, selected, order, Place(n, i, 0, 0), places, before + omitted)
      invariant forall d :: d in deps[..i] ==> ResolveLabel(p, aliases, d).Ok?
      invariant forall e :: e in omitted <==>
                            (e.target == name && e.dependency !in selected &&
                             (exists d :: d in deps[..i] && ResolveLabel(p, aliases, d) == Ok(e.dependency)) &&
                             e.dependency in p.targets &&
                             e.reason == if p.targets[e.dependency].testonly then TestOnly else OtherToolchainTarget)
    {
      assert deps[..i + 1] == deps[..i] + [deps[i]];
      ResolveLabelMeaning(p, aliases, deps[i]);
      var resolved := ResolveDependency(p, aliases, name, deps[i]);
      if resolved.Err? {
        assert ResolveLabel(p, aliases, deps[i]).Err?;
        DependencyFault(p, aliases, o, name, deps[i]);
        return Err(resolved.error), places;
      }
      var dependency := resolved.value;
      var omission := Omission(p, name, dependency);
      OmittedHere(p, aliases, selected, order, n, i, dependency);
      places := OmittedStep(
        p, aliases, selected, order, Place(n, i, 0, 0), Place(n, i + 1, 0, 0), places, before + omitted, omission,
        dependency !in selected);
      assert forall e :: before + omitted + [e] == before + (omitted + [e]);
      assert before + omitted + [] == before + omitted;
      if dependency !in selected {
        omitted := omitted + [omission];
      }
    }
    assert deps[..|deps|] == deps;
    OmittedNext(p, aliases, selected, order, n, places, before + omitted);
    return Ok(omitted), places;
  }

  ghost predicate IsOmitted(p: Project, aliases: Aliases, selected: set<string>, e: Omitted) {
    && DependsOn(p, aliases, e.target, e.dependency) && e.dependency !in selected && e.dependency in p.targets
    && e.reason == if p.targets[e.dependency].testonly then TestOnly else OtherToolchainTarget
  }

  /** Record exactly the dependencies that leave the selection; fails when one of them does not resolve. */
  method CollectOmitted(p: Project, aliases: Aliases, ghost o: Options, selected: set<string>)
    returns (r: Result<seq<Omitted>, ImportError>)
    requires AliasesOf(p, p.targets.Keys, aliases) && selected <= p.targets.Keys
    ensures r.Err? ==> IsFault(p, aliases, o, r.error)
    ensures r.Ok? <==> forall a :: a in selected ==> DependenciesResolve(p, aliases, a)
    ensures r.Ok? ==> AllOmitted(p, aliases, selected, r.value)
    ensures r.Ok? ==> forall e :: e in r.value <==> e.target in selected && IsOmitted(p, aliases, selected, e)
  {
    hide AliasesOf, IsFault, OmittedInOrder, InTextOrder, IsOmitted, DependenciesResolve;
    var order := SortedTexts(selected);
    SortedMembers(order, selected);
    var omitted: seq<Omitted> := [];
    ghost var places: seq<Place> := [];
    OmittedNothing(p, aliases, selected, order);
    for i := 0 to |order|
      invariant OmittedInOrder(p, aliases, selected, order, Place(i, 0, 0, 0), places, omitted)
      invariant forall a :: a in order[..i] ==> DependenciesResolve(p, aliases, a)
      invariant forall e :: e in omitted <==> e.target in order[..i] && IsOmitted(p, aliases, selected, e)
    {
      assert order[..i + 1] == order[..i] + [order[i]];
      assert order[i] in order;
      var more;
      more, places := OmittedOf(p, aliases, o, selected, order[i], omitted, order, i, places);
      if more.Err? {
        return Err(more.error);
      }
      omitted := omitted + more.value;
    }
    assert order[..|order|] == order;
    return Ok(omitted);
  }

  lemma SortedMembers(order: seq<string>, texts: set<string>)
    requires InTextOrder(order, texts)
    ensures forall l :: l in order <==> l in texts
  {
  }

  /** The reason given for an omitted dependency is a true one. */
  lemma OmitReasonIsTrue(p: Project, aliases: Aliases, o: Options, selected: set<string>, e: Omitted)
    requires AliasesOf(p, p.targets.Keys, aliases) && e.target in selected && IsOmitted(p, aliases, selected, e)
    requires forall a, b :: a in selected && Eligible(p, o, b) && DependsOn(p, aliases, a, b) ==> b in selected
    ensures e.reason == OtherToolchainTarget ==> OtherToolchain(p, o, e.dependency)
    ensures e.reason == TestOnly ==> p.targets[e.dependency].testonly
  {
    assert !Eligible(p, o, e.dependency);
  }
}
