/** Edges and metrics counted on the manifest itself: every number is the size of a set of positions. */
module ComponentCounts {
  import opened Ordering
  import opened ManifestModel
  import opened Components
  import opened ComponentEdges

  // ----- sums over chosen links, and positions in the manifest -----

  /** A choice by the components at both ends. */
  type Choice = (string, string) -> bool

  function SumWhere(links: seq<Link>, choice: Choice, f: Link -> nat): nat {
    if links == [] then 0
    else
      var last := links[|links| - 1];
      SumWhere(links[..|links| - 1], choice, f) + if choice(last.from, last.to) then f(last) else 0
  }

  predicate Chosen(place: Placement, mod: Module, d: Dependency, choice: Choice) {
    mod.id in place && d.target in place && choice(place[mod.id], place[d.target])
  }

  /** The items of the chosen dependencies: module, dependency and item, each by its position. */
  function Positions(place: Placement, modules: seq<Module>, choice: Choice, items: Dependency -> set<int>)
    : set<(int, int, int)>
  {
    set i, k, l | 0 <= i < |modules| && 0 <= k < |modules[i].dependencies| &&
                  l in items(modules[i].dependencies[k]) &&
                  Chosen(place, modules[i], modules[i].dependencies[k], choice) :: (i, k, l)
  }

  function ModulePositions(
    place: Placement, mod: Module, dependencies: seq<Dependency>, choice: Choice, items: Dependency -> set<int>)
    : set<(int, int)>
  {
    set k, l | 0 <= k < |dependencies| && l in items(dependencies[k]) && Chosen(place, mod, dependencies[k], choice)
      :: (k, l)
  }

  lemma {:induction false} SumWhereAppend(a: seq<Link>, b: seq<Link>, choice: Choice, f: Link -> nat)
    ensures SumWhere(a + b, choice, f) == SumWhere(a, choice, f) + SumWhere(b, choice, f)
  {
    if b == [] {
      assert a + b == a;
    } else {
      assert (a + b)[..|a + b| - 1] == a + b[..|b| - 1];
      SumWhereAppend(a, b[..|b| - 1], choice, f);
    }
  }

  function Tagged<A(==, !new), T(!new)>(n: A, s: set<T>): set<(A, T)> {
    set l | l in s :: (n, l)
  }

  lemma {:induction false} TaggedSize<A(!new), T(!new)>(n: A, s: set<T>)
    ensures |Tagged(n, s)| == |s|
  {
    if s != {} {
      var x :| x in s;
      TaggedSize(n, s - {x});
      assert Tagged(n, s) == Tagged(n, s - {x}) + {(n, x)};
    }
  }

  lemma {:induction false} TriplesSize(n: int, s: set<(int, int)>)
    ensures |set q | q in s :: (n, q.0, q.1)| == |s|
  {
    if x :| x in s {
      TriplesSize(n, s - {x});
      assert (set q | q in s :: (n, q.0, q.1)) == (set q | q in s - {x} :: (n, q.0, q.1)) + {(n, x.0, x.1)};
    }
  }

  /** The weight of the link of a dependency is its number of items. */
  ghost predicate Weighs(f: Link -> nat, items: Dependency -> set<int>) {
    forall from, to, d: Dependency ::
      f(Link(from, to, d.boundary, |d.evidence|, Unresolved(d.reviews))) == |items(d)|
  }

  lemma ModulePositionsSnoc(
    place: Placement, mod: Module, ds: seq<Dependency>, choice: Choice, items: Dependency -> set<int>)
    requires ds != []
    ensures var n, last := |ds| - 1, ds[|ds| - 1];
            |ModulePositions(place, mod, ds, choice, items)| ==
            |ModulePositions(place, mod, ds[..n], choice, items)| +
            if Chosen(place, mod, last, choice) then |items(last)| else 0
  {
    var n, last := |ds| - 1, ds[|ds| - 1];
    var added := if Chosen(place, mod, last, choice) then Tagged(n, items(last)) else {};
    var front := ModulePositions(place, mod, ds[..n], choice, items);
    forall k, l ensures (k, l) in ModulePositions(place, mod, ds, choice, items) <==>
                        (k, l) in front || (k, l) in added
    {
      assert (k, l) in Tagged(n, items(last)) <==> k == n && l in items(last);
      assert 0 <= k < n ==> ds[..n][k] == ds[k];
    }
    assert ModulePositions(place, mod, ds, choice, items) == front + added && front * added == {};
    TaggedSize(n, items(last));
  }

  lemma {:induction false} ModuleLinksSum(
    place: Placement, mod: Module, ds: seq<Dependency>, choice: Choice, items: Dependency -> set<int>, f: Link -> nat)
    requires Weighs(f, items)
    ensures SumWhere(ModuleLinks(place, mod, ds), choice, f) == |ModulePositions(place, mod, ds, choice, items)|
  {
    if ds != [] {
      hide ModulePositions;
      var n, last := |ds| - 1, ds[|ds| - 1];
      ModuleLinksSum(place, mod, ds[..n], choice, items, f);
      ModulePositionsSnoc(place, mod, ds, choice, items);
      SumWhereAppend(ModuleLinks(place, mod, ds[..n]), LinkOf(place, mod, last), choice, f);
      LinkOfSum(place, mod, last, choice, items, f);
    }
  }

  lemma LinkOfSum(
    place: Placement, mod: Module, d: Dependency, choice: Choice, items: Dependency -> set<int>, f: Link -> nat)
    requires Weighs(f, items)
    ensures SumWhere(LinkOf(place, mod, d), choice, f) == if Chosen(place, mod, d, choice) then |items(d)| else 0
  {
    var links := LinkOf(place, mod, d);
    if links != [] {
      assert links[..0] == [];
    }
  }

  lemma PositionsSnoc(place: Placement, modules: seq<Module>, choice: Choice, items: Dependency -> set<int>)
    requires modules != []
    ensures var n, last := |modules| - 1, modules[|modules| - 1];
            |Positions(place, modules, choice, items)| ==
            |Positions(place, modules[..n], choice, items)| +
            |ModulePositions(place, last, last.dependencies, choice, items)|
  {
    var n, last := |modules| - 1, modules[|modules| - 1];
    var inner := ModulePositions(place, last, last.dependencies, choice, items);
    var front, added := Positions(place, modules[..n], choice, items), set q | q in inner :: (n, q.0, q.1);
    forall i, k, l ensures (i, k, l) in Positions(place, modules, choice, items) <==>
                           (i, k, l) in front || (i, k, l) in added
    {
      assert (i, k, l) in added <==> i == n && (k, l) in inner;
      assert 0 <= i < n ==> modules[..n][i] == modules[i];
    }
    assert Positions(place, modules, choice, items) == front + added && front * added == {};
    TriplesSize(n, inner);
  }

  /** Summing the weights of chosen links is counting the items of the chosen dependencies. */
  lemma {:induction false} LinksSum(
    place: Placement, modules: seq<Module>, choice: Choice, items: Dependency -> set<int>, f: Link -> nat)
    requires Weighs(f, items)
    ensures SumWhere(Links(place, modules), choice, f) == |Positions(place, modules, choice, items)|
  {
    if modules != [] {
      hide Positions, ModulePositions;
      var n, last := |modules| - 1, modules[|modules| - 1];
      LinksSum(place, modules[..n], choice, items, f);
      PositionsSnoc(place, modules, choice, items);
      SumWhereAppend(Links(place, modules[..n]), ModuleLinks(place, last, last.dependencies), choice, f);
      ModuleLinksSum(place, last, last.dependencies, choice, items, f);
    }
  }
}
