/** What the resolved features of a package are, in terms of the package itself. */
module FeatureMeaning {
  import opened Wrappers
  import opened Features

  /** Neither a `dep:` value nor one that forwards to a feature of a dependency. */
  predicate Plain(value: string) {
    !("dep:" <= value) && '/' !in value
  }

  /** Some optional dependency goes by this name in the package. */
  ghost predicate IsOptional(p: Package, name: string) {
    exists d :: d in p.dependencies && d.optional && name == (if d.rename.Some? then d.rename.value else d.name)
  }

  /** From a selected feature, or the declared default, to a feature, each listed as a plain declared value of the one
      before. */
  ghost predicate FeatureWalk(p: Package, selected: seq<string>, noDefault: bool, walk: seq<string>, f: string) {
    && walk != [] && walk[|walk| - 1] == f
    && (walk[0] in selected || (walk[0] == "default" && "default" in p.features && !noDefault))
    && forall i :: 0 <= i < |walk| - 1 ==> Lists(p, walk[i], walk[i + 1])
  }

  ghost predicate Lists(p: Package, f: string, g: string) {
    f in p.features && g in p.features[f] && g in p.features && Plain(g)
  }

  ghost predicate Reached(p: Package, selected: seq<string>, noDefault: bool, f: string) {
    exists walk :: FeatureWalk(p, selected, noDefault, walk, f)
  }

  /** The feature asks for the dependency: by its own name, by a `dep:` value, or by a plain value that is not the name
      of a feature. */
  ghost predicate AsksFor(p: Package, f: string, dependency: string) {
    && f in p.features
    && (|| (dependency == f && IsOptional(p, dependency))
        || "dep:" + dependency in p.features[f]
        || (dependency in p.features[f] && Plain(dependency) && dependency !in p.features &&
            IsOptional(p, dependency)))
  }

  lemma ListsMeans(p: Package, f: string, g: string)
    ensures Enables(p, f, g) <==> Lists(p, f, g)
  {
  }

  lemma WalkLonger(p: Package, selected: seq<string>, noDefault: bool, walk: seq<string>, f: string, g: string)
    requires FeatureWalk(p, selected, noDefault, walk, f) && Lists(p, f, g)
    ensures FeatureWalk(p, selected, noDefault, walk + [g], g)
  {
    hide Lists;
    var longer := walk + [g];
    forall i | 0 <= i < |longer| - 1 ensures Lists(p, longer[i], longer[i + 1]) {
      if i == |walk| - 1 {
        assert longer[i] == f && longer[i + 1] == g;
      } else {
        assert longer[i] == walk[i] && longer[i + 1] == walk[i + 1];
      }
    }
  }

  lemma {:induction false} WalkStays(
    p: Package, selected: seq<string>, noDefault: bool, walk: seq<string>, f: string, s: set<string>)
    requires FeatureWalk(p, selected, noDefault, walk, f) && FeatureClosed(p, selected, noDefault, s)
    ensures f in s
    decreases |walk|
  {
    if |walk| == 1 {
      assert Seed(p, selected, noDefault, f);
    } else {
      var front := walk[..|walk| - 1];
      assert Lists(p, walk[|walk| - 2], walk[|walk| - 1]);
      forall i | 0 <= i < |front| - 1 ensures Lists(p, front[i], front[i + 1]) {
        assert front[i] == walk[i] && front[i + 1] == walk[i + 1];
      }
      WalkStays(p, selected, noDefault, front, front[|front| - 1], s);
      ListsMeans(p, front[|front| - 1], f);
    }
  }

  lemma SeedReached(p: Package, selected: seq<string>, noDefault: bool, g: string)
    requires Seed(p, selected, noDefault, g)
    ensures Reached(p, selected, noDefault, g)
  {
    assert FeatureWalk(p, selected, noDefault, [g], g);
  }

  lemma ReachedClosed(
    p: Package, selected: seq<string>, noDefault: bool, enabled: set<string>, reached: set<string>)
    requires FeatureClosed(p, selected, noDefault, enabled)
    requires forall g :: g in reached <==> g in enabled && Reached(p, selected, noDefault, g)
    ensures FeatureClosed(p, selected, noDefault, reached)
  {
    hide FeatureWalk, Lists, Enables, Seed;
    forall g | Seed(p, selected, noDefault, g) ensures g in reached {
      SeedReached(p, selected, noDefault, g);
    }
    forall g, h | g in reached && Enables(p, g, h) ensures h in reached {
      var walk :| FeatureWalk(p, selected, noDefault, walk, g);
      ListsMeans(p, g, h);
      WalkLonger(p, selected, noDefault, walk, g, h);
    }
  }

  /** What every closed set holds is what is reached. */
  lemma NeededMeans(p: Package, selected: seq<string>, noDefault: bool, f: string)
    ensures Needed(p, selected, noDefault, f) <==> Reached(p, selected, noDefault, f)
  {
    if walk :| FeatureWalk(p, selected, noDefault, walk, f) {
      forall s | FeatureClosed(p, selected, noDefault, s) ensures f in s {
        WalkStays(p, selected, noDefault, walk, f, s);
      }
    }
    if Needed(p, selected, noDefault, f) {
      var named := p.features.Keys + set g | g in selected;
      assert FeatureClosed(p, selected, noDefault, named);
      var reached := set g | g in named && Reached(p, selected, noDefault, g);
      ReachedClosed(p, selected, noDefault, named, reached);
      assert f in reached;
    }
  }

  lemma OptionalMeans(p: Package, name: string)
    ensures name in OptionalNames(p) <==> IsOptional(p, name)
  {
  }

  lemma AsksMeans(p: Package, f: string, dependency: string)
    ensures Activates(p, f, dependency) <==> AsksFor(p, f, dependency)
  {
    OptionalMeans(p, dependency);
    hide OptionalNames, IsOptional;
    if f in p.features {
      if v :| v in p.features[f] && NamesDependency(p, v, dependency) {
        assert v == DEP + dependency || v == dependency;
      }
      if "dep:" + dependency in p.features[f] {
        assert NamesDependency(p, "dep:" + dependency, dependency);
      }
      if dependency in p.features[f] && Plain(dependency) && dependency !in p.features &&
         dependency in OptionalNames(p) {
        assert NamesDependency(p, dependency, dependency);
      }
    }
  }

  // ----- the outcome -----

  /** Every feature that is reached is declared and lists no value that forwards to a dependency. */
  ghost predicate Resolvable(p: Package, selected: seq<string>, noDefault: bool) {
    forall f :: Reached(p, selected, noDefault, f) ==>
      f in p.features && forall v :: v in p.features[f] && '/' in v ==> "dep:" <= v
  }

  /** The features that are reached and the dependencies they ask for, or a reached feature that is not declared or
      lists a value with a slash. */
  ghost predicate IsResolution(p: Package, selected: seq<string>, noDefault: bool, r: Result<Resolved, FeatureError>) {
    match r
    case Ok(resolved) =>
      && (forall f :: f in resolved.enabled <==> Reached(p, selected, noDefault, f))
      && (forall d :: d in resolved.activeOptional <==> exists f :: f in resolved.enabled && AsksFor(p, f, d))
    case Err(UnknownFeature(f)) => Reached(p, selected, noDefault, f) && f !in p.features
    case Err(DependencyForwarding(f, value)) =>
      && Reached(p, selected, noDefault, f) && f in p.features && value in p.features[f]
      && '/' in value && !("dep:" <= value)
  }

  lemma FaultMeans(p: Package, selected: seq<string>, noDefault: bool, e: FeatureError)
    requires exists f :: Needed(p, selected, noDefault, f) && ErrorFor(p, e, f)
    ensures IsResolution(p, selected, noDefault, Err(e))
  {
    hide Needed, Reached;
    var f :| Needed(p, selected, noDefault, f) && ErrorFor(p, e, f);
    NeededMeans(p, selected, noDefault, f);
  }

  lemma UnsupportedMeans(p: Package, f: string)
    ensures Unsupported(p, f) <==> !(f in p.features && forall v :: v in p.features[f] && '/' in v ==> "dep:" <= v)
  {
  }

  lemma ResolvableMeans(p: Package, selected: seq<string>, noDefault: bool)
    ensures Resolvable(p, selected, noDefault) <==>
            forall f :: Needed(p, selected, noDefault, f) ==> !Unsupported(p, f)
  {
    hide Needed, Reached, Unsupported;
    forall f ensures Needed(p, selected, noDefault, f) <==> Reached(p, selected, noDefault, f) {
      NeededMeans(p, selected, noDefault, f);
    }
    forall f
      ensures Unsupported(p, f) <==>
              !(f in p.features && forall v :: v in p.features[f] && '/' in v ==> "dep:" <= v)
    {
      UnsupportedMeans(p, f);
    }
  }

  /** The outcome of resolving the features, in terms of the package and the selected features. */
  lemma ResolutionMeans(p: Package, selected: seq<string>, noDefault: bool, r: Result<Resolved, FeatureError>)
    requires r.Ok? <==> forall f :: Needed(p, selected, noDefault, f) ==> !Unsupported(p, f)
    requires r.Err? ==> exists f :: Needed(p, selected, noDefault, f) && ErrorFor(p, r.error, f)
    requires r.Ok? ==> forall f :: f in r.value.enabled <==> Needed(p, selected, noDefault, f)
    requires r.Ok? ==> forall d :: d in r.value.activeOptional <==>
                                     exists f :: f in r.value.enabled && Activates(p, f, d)
    ensures IsResolution(p, selected, noDefault, r)
    ensures r.Ok? <==> Resolvable(p, selected, noDefault)
  {
    hide Needed, Reached, Unsupported, Activates, AsksFor, FeatureClosed, ErrorFor;
    ResolvableMeans(p, selected, noDefault);
    if r.Err? {
      FaultMeans(p, selected, noDefault, r.error);
    } else {
      forall f ensures Needed(p, selected, noDefault, f) <==> Reached(p, selected, noDefault, f) {
        NeededMeans(p, selected, noDefault, f);
      }
      forall f, d ensures Activates(p, f, d) <==> AsksFor(p, f, d) {
        AsksMeans(p, f, d);
      }
    }
  }
}
