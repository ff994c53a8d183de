/** Resolution of Cargo features: the enabled features and the optional dependencies they activate. */
module Features {
  import opened Wrappers

  datatype CargoDependency = CargoDependency(name: string, rename: Option<string>, optional: bool)

  datatype Package = Package(features: map<string, seq<string>>, dependencies: seq<CargoDependency>)

  datatype FeatureError = UnknownFeature(feature: string) | DependencyForwarding(feature: string, value: string)

  datatype Resolved = Resolved(enabled: set<string>, activeOptional: set<string>)

  function CargoName(d: CargoDependency): string {
    match d.rename case Some(r) => r case None => d.name
  }

  function OptionalNames(p: Package): set<string> {
    set d | d in p.dependencies && d.optional :: CargoName(d)
  }

  // ----- what one value of a feature asks for -----

  const DEP: string := "dep:"

  predicate HasDepPrefix(value: string) {
    DEP <= value
  }

  predicate IsForwarding(value: string) {
    !HasDepPrefix(value) && '/' in value
  }

  predicate NamesFeature(p: Package, value: string) {
    !HasDepPrefix(value) && '/' !in value && value in p.features
  }

  /** The value activates the optional dependency: by prefix, or by plain name when no feature has that name. */
  predicate NamesDependency(p: Package, value: string, dependency: string) {
    || value == DEP + dependency
    || (!HasDepPrefix(value) && '/' !in value && value !in p.features && value in OptionalNames(p) &&
        value == dependency)
  }

  /** A value names at most one dependency. */
  lemma NamesDependencyOf(p: Package, v: string)
    ensures forall d :: NamesDependency(p, v, d) <==>
                        if HasDepPrefix(v) then d == v[|DEP|..]
                        else '/' !in v && v !in p.features && v in OptionalNames(p) && d == v
  {
    forall d ensures v == DEP + d <==> HasDepPrefix(v) && d == v[|DEP|..] {
      if v == DEP + d {
        assert v[..|DEP|] == DEP && v[|DEP|..] == d;
      }
    }
  }

  // ----- the closure -----

  predicate Enables(p: Package, f: string, g: string) {
    f in p.features && g in p.features[f] && NamesFeature(p, g)
  }

  predicate Seed(p: Package, selected: seq<string>, noDefault: bool, f: string) {
    f in selected || (!noDefault && f == "default" && f in p.features)
  }

  ghost predicate FeatureClosed(p: Package, selected: seq<string>, noDefault: bool, s: set<string>) {
    && (forall f :: Seed(p, selected, noDefault, f) ==> f in s)
    && (forall f, g :: f in s && Enables(p, f, g) ==> g in s)
  }

  /** Belongs to every closed set. */
  ghost predicate Needed(p: Package, selected: seq<string>, noDefault: bool, f: string) {
    forall s :: FeatureClosed(p, selected, noDefault, s) ==> f in s
  }

  lemma NeededStep(p: Package, selected: seq<string>, noDefault: bool, f: string, g: string)
    requires Needed(p, selected, noDefault, f) && Enables(p, f, g)
    ensures Needed(p, selected, noDefault, g)
  {
    forall s | FeatureClosed(p, selected, noDefault, s) ensures g in s {
      assert f in s;
    }
  }

  /** The feature is undeclared or forwards to a feature of a dependency. */
  predicate Unsupported(p: Package, f: string) {
    f !in p.features || exists v :: v in p.features[f] && IsForwarding(v)
  }

  /** The enabled feature f activates the optional dependency: it has the same name or one of its values asks for it. */
  predicate Activates(p: Package, f: string, dependency: string) {
    f in p.features &&
    ((f in OptionalNames(p) && f == dependency) || exists v :: v in p.features[f] && NamesDependency(p, v, dependency))
  }

  ghost predicate ErrorFor(p: Package, e: FeatureError, f: string) {
    match e
    case UnknownFeature(g) => g == f && f !in p.features
    case DependencyForwarding(g, v) => g == f && f in p.features && v in p.features[f] && IsForwarding(v)
  }

  // ----- the worklist -----

  /** One enabled feature: its values are queued, activated or refused. */
  method ExpandFeature(p: Package, f: string, queue: seq<string>, active: set<string>)
    returns (r: Result<(seq<string>, set<string>), FeatureError>)
    ensures r.Ok? <==> !Unsupported(p, f)
    ensures r.Err? ==> ErrorFor(p, r.error, f)
    ensures r.Ok? ==> queue <= r.value.0
    ensures r.Ok? ==> forall g :: g in r.value.0 <==> g in queue || Enables(p, f, g)
    ensures r.Ok? ==> forall d :: d in r.value.1 <==> d in active || Activates(p, f, d)
  {
    if f !in p.features {
      return Err(UnknownFeature(f));
    }
    var values := p.features[f];
    var names := OptionalNames(p);
    var next, activated := queue, if f in names then active + {f} else active;
    ghost var own := activated;
    for i := 0 to |values|
      invariant queue <= next
      invariant forall v :: v in values[..i] ==> !IsForwarding(v)
      invariant forall g :: g in next <==> g in queue || (g in values[..i] && NamesFeature(p, g))
      invariant forall d :: d in activated <==> d in own || exists v :: v in values[..i] && NamesDependency(p, v, d)
    {
      assert values[..i + 1] == values[..i] + [values[i]];
      var v := values[i];
      assert v in values;
      NamesDependencyOf(p, v);
      ghost var before := activated;
      if HasDepPrefix(v) {
        activated := activated + {v[|DEP|..]};
      } else if '/' in v {
        return Err(DependencyForwarding(f, v));
      } else if v in p.features {
        next := next + [v];
      } else if v in names {
        activated := activated + {v};
      }
      forall d ensures d in activated <==> d in own || exists w :: w in values[..i + 1] && NamesDependency(p, w, d) {
        assert d in activated <==> d in before || NamesDependency(p, v, d);
        if w :| w in values[..i] && NamesDependency(p, w, d) {
          assert w in values[..i + 1];
        }
      }
    }
    assert values[..|values|] == values;
    return Ok((next, activated));
  }

  /** What the worklist keeps: everything enabled or queued is needed, and the enabled features are expanded. */
  ghost predicate Progress(
    p: Package, selected: seq<string>, noDefault: bool, enabled: set<string>, queue: seq<string>, active: set<string>)
  {
    && (forall f :: f in enabled || f in queue ==> Needed(p, selected, noDefault, f))
    && (forall f :: Seed(p, selected, noDefault, f) ==> f in enabled || f in queue)
    && (forall f :: f in enabled ==> !Unsupported(p, f))
    && (forall f, g :: f in enabled && Enables(p, f, g) ==> g in enabled || g in queue)
    && (forall d :: d in active <==> exists f :: f in enabled && Activates(p, f, d))
  }

  lemma ProgressStep(
    p: Package, selected: seq<string>, noDefault: bool, enabled: set<string>, f: string, rest: seq<string>,
    active: set<string>, next: seq<string>, active': set<string>)
    requires Progress(p, selected, noDefault, enabled, [f] + rest, active) && !Unsupported(p, f)
    requires forall g :: g in next <==> g in rest || Enables(p, f, g)
    requires forall d :: d in active' <==> d in active || Activates(p, f, d)
    ensures Progress(p, selected, noDefault, enabled + {f}, next, active')
  {
    assert forall g :: g in [f] + rest <==> g == f || g in rest;
    forall g | Enables(p, f, g) ensures Needed(p, selected, noDefault, g) {
      NeededStep(p, selected, noDefault, f, g);
    }
    forall d ensures d in active' <==> exists x :: x in enabled + {f} && Activates(p, x, d) {
      if x :| x in enabled && Activates(p, x, d) {
        assert x in enabled + {f};
      }
    }
  }

  lemma FinishedIsLeast(p: Package, selected: seq<string>, noDefault: bool, enabled: set<string>, active: set<string>)
    requires Progress(p, selected, noDefault, enabled, [], active)
    ensures FeatureClosed(p, selected, noDefault, enabled)
    ensures forall f :: f in enabled <==> Needed(p, selected, noDefault, f)
    ensures forall f :: Needed(p, selected, noDefault, f) ==> !Unsupported(p, f)
  {
    assert FeatureClosed(p, selected, noDefault, enabled);
  }

  lemma ProgressStart(p: Package, selected: seq<string>, noDefault: bool, queue: seq<string>)
    requires queue == (if !noDefault && "default" in p.features then ["default"] else []) + selected
    ensures Progress(p, selected, noDefault, {}, queue, {})
  {
    forall f | f in queue ensures Needed(p, selected, noDefault, f) {
      assert Seed(p, selected, noDefault, f);
    }
  }

  lemma SkipEnabled(
    p: Package, selected: seq<string>, noDefault: bool, enabled: set<string>, f: string, rest: seq<string>,
    active: set<string>)
    requires Progress(p, selected, noDefault, enabled, [f] + rest, active) && f in enabled
    ensures Progress(p, selected, noDefault, enabled, rest, active)
  {
    assert forall g :: g in [f] + rest <==> g == f || g in rest;
  }

  /** The least set of features, and exactly the optional dependencies it activates; an error exactly when an
      unsupported feature is needed. */
  method ResolveFeatures(p: Package, selected: seq<string>, noDefault: bool) returns (r: Result<Resolved, FeatureError>)
    ensures r.Ok? <==> forall f :: Needed(p, selected, noDefault, f) ==> !Unsupported(p, f)
    ensures r.Err? ==> exists f :: Needed(p, selected, noDefault, f) && ErrorFor(p, r.error, f)
    ensures r.Ok? ==> forall f :: f in r.value.enabled <==> Needed(p, selected, noDefault, f)
    ensures r.Ok? ==> FeatureClosed(p, selected, noDefault, r.value.enabled)
    ensures r.Ok? ==> forall d :: d in r.value.activeOptional <==>
            exists f :: f in r.value.enabled && Activates(p, f, d)
  {
    var queue: seq<string> := (if !noDefault && "default" in p.features then ["default"] else []) + selected;
    var enabled: set<string> := {};
    var active: set<string> := {};
    ProgressStart(p, selected, noDefault, queue);
    while queue != []
      invariant Progress(p, selected, noDefault, enabled, queue, active)
      decreases p.features.Keys - enabled, |queue|
    {
      var f := queue[0];
      var rest := queue[1..];
      assert queue == [f] + rest;
      if f in enabled {
        SkipEnabled(p, selected, noDefault, enabled, f, rest, active);
        queue := rest;
        continue;
      }
      var expanded := ExpandFeature(p, f, rest, active);
      if expanded.Err? {
        assert f in queue;
        return Err(expanded.error);
      }
      ProgressStep(p, selected, noDefault, enabled, f, rest, active, expanded.value.0, expanded.value.1);
      enabled := enabled + {f};
      queue, active := expanded.value.0, expanded.value.1;
    }
    FinishedIsLeast(p, selected, noDefault, enabled, active);
    return Ok(Resolved(enabled, active));
  }
}
