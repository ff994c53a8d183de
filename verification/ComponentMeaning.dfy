/** What the edges and metrics say about the manifest itself: every number is the size of a set of positions. */
module ComponentMeaning {
  import opened Ordering
  import opened ManifestModel
  import opened Components
  import opened ComponentEdges
  import opened ComponentCounts

  // ----- what is counted -----

  function One(): Dependency -> set<int> {
    (d: Dependency) => {0}
  }

  /** The evidence items of a dependency. */
  function Items(): Dependency -> set<int> {
    (d: Dependency) => Below(|d.evidence|)
  }

  /** Its open reviews. */
  function Open(): Dependency -> set<int> {
    (d: Dependency) => OpenReviews(d.reviews)
  }

  function OfKind(b: Boundary): Dependency -> set<int> {
    (d: Dependency) => if d.boundary == b then {0} else {}
  }

  function UnitOf(): Link -> nat {
    (l: Link) => 1
  }

  function EvidenceOf(): Link -> nat {
    (l: Link) => l.evidence
  }

  function UnresolvedOf(): Link -> nat {
    (l: Link) => l.unresolved
  }

  function KindOf(b: Boundary): Link -> nat {
    (l: Link) => if l.boundary == b then 1 else 0
  }

  lemma Weights(b: Boundary)
    ensures Weighs(UnitOf(), One()) && Weighs(EvidenceOf(), Items()) && Weighs(UnresolvedOf(), Open())
    ensures Weighs(KindOf(b), OfKind(b))
  {
  }

  /** From one component to another. */
  function Joining(from: string, to: string): Choice {
    (a: string, b: string) => a == from && b == to
  }

  /** At a component, or inside of it. */
  function At(c: string): Choice {
    (a: string, b: string) => a == c || b == c
  }

  function Anywhere(): Choice {
    (a: string, b: string) => true
  }

  /** Inside of one component. */
  function Inside(): Choice {
    (a: string, b: string) => a == b
  }

  // ----- edges -----

  /** The numbers of an edge count the dependencies from one component to the other, their evidence items and their
      open reviews; its boundaries are those of these dependencies in the order of the kinds. */
  ghost predicate EdgeMeans(e: ComponentEdge, place: Placement, modules: seq<Module>, owners: map<string, string>) {
    && e.from != e.to
    && Positions(place, modules, Joining(e.from, e.to), One()) != {}
    && e.moduleEdges == |Positions(place, modules, Joining(e.from, e.to), One())|
    && e.evidence == |Positions(place, modules, Joining(e.from, e.to), Items())|
    && e.unresolved == |Positions(place, modules, Joining(e.from, e.to), Open())|
    && (forall b :: b in e.boundaries <==> Positions(place, modules, Joining(e.from, e.to), OfKind(b)) != {})
    && (forall i, j :: 0 <= i < j < |e.boundaries| ==> e.boundaries[i].Rank() < e.boundaries[j].Rank())
    && (e.crossesOwner <==>
        (e.from in owners) != (e.to in owners) ||
        (e.from in owners && e.to in owners && owners[e.from] != owners[e.to]))
  }

  /** By the component they leave and then by the one they enter, never two for the same pair. */
  ghost predicate InOrder(edges: seq<ComponentEdge>) {
    forall i, j :: 0 <= i < j < |edges| ==>
      if edges[i].from == edges[j].from then edges[i].to != edges[j].to && StringLeq(edges[i].to, edges[j].to)
      else StringLeq(edges[i].from, edges[j].from)
  }

  lemma {:induction false} BetweenSums(links: seq<Link>, p: Pair)
    ensures Count(links, p) == SumWhere(links, Joining(p.0, p.1), UnitOf())
    ensures EvidenceBetween(links, p) == SumWhere(links, Joining(p.0, p.1), EvidenceOf())
    ensures UnresolvedBetween(links, p) == SumWhere(links, Joining(p.0, p.1), UnresolvedOf())
  {
    if links != [] {
      BetweenSums(links[..|links| - 1], p);
    }
  }

  lemma {:induction false} BoundarySum(links: seq<Link>, p: Pair, b: Boundary)
    ensures b in BoundariesBetween(links, p) <==> SumWhere(links, Joining(p.0, p.1), KindOf(b)) > 0
  {
    if links != [] {
      BoundarySum(links[..|links| - 1], p, b);
    }
  }

  lemma PairCounts(place: Placement, modules: seq<Module>, p: Pair)
    ensures Count(Links(place, modules), p) == |Positions(place, modules, Joining(p.0, p.1), One())|
    ensures EvidenceBetween(Links(place, modules), p) == |Positions(place, modules, Joining(p.0, p.1), Items())|
    ensures UnresolvedBetween(Links(place, modules), p) == |Positions(place, modules, Joining(p.0, p.1), Open())|
  {
    hide Positions, Joining, Links;
    Weights(Rust);
    BetweenSums(Links(place, modules), p);
    LinksSum(place, modules, Joining(p.0, p.1), One(), UnitOf());
    LinksSum(place, modules, Joining(p.0, p.1), Items(), EvidenceOf());
    LinksSum(place, modules, Joining(p.0, p.1), Open(), UnresolvedOf());
  }

  lemma PairBoundary(place: Placement, modules: seq<Module>, p: Pair, b: Boundary)
    ensures b in BoundariesBetween(Links(place, modules), p) <==>
            Positions(place, modules, Joining(p.0, p.1), OfKind(b)) != {}
  {
    hide Positions, Joining, Links;
    Weights(b);
    BoundarySum(Links(place, modules), p, b);
    LinksSum(place, modules, Joining(p.0, p.1), OfKind(b), KindOf(b));
  }

  ghost predicate Ascending(bs: seq<Boundary>) {
    forall i, j :: 0 <= i < j < |bs| ==> bs[i].Rank() < bs[j].Rank()
  }

  lemma {:induction false} AmongAscending(all: seq<Boundary>, s: set<Boundary>)
    requires Ascending(all)
    ensures Ascending(Among(all, s))
  {
    if all != [] {
      AmongAscending(all[1..], s);
      forall b | b in Among(all[1..], s) ensures all[0].Rank() < b.Rank() {
        assert b in all[1..];
      }
    }
  }

  lemma EdgeCounted(e: ComponentEdge, p: Pair, place: Placement, modules: seq<Module>, owners: map<string, string>)
    requires p.0 != p.1 && Count(Links(place, modules), p) > 0
    requires e == EdgeOf(DraftOf(Links(place, modules), p), p, owners)
    ensures EdgeMeans(e, place, modules, owners)
  {
    hide Positions, Joining, Links, Count, EvidenceBetween, UnresolvedBetween, BoundariesBetween;
    PairCounts(place, modules, p);
    forall b ensures b in e.boundaries <==> Positions(place, modules, Joining(p.0, p.1), OfKind(b)) != {} {
      PairBoundary(place, modules, p, b);
    }
    AmongAscending(ALL_BOUNDARIES, BoundariesBetween(Links(place, modules), p));
  }

  /** Every edge means what it says, they are in order, and there is one wherever a dependency joins two components. */
  lemma EdgesCounted(
    modules: seq<Module>, place: Placement, owners: map<string, string>, edges: seq<ComponentEdge>, pairs: seq<Pair>)
    requires ListsPairs(pairs, Links(place, modules)) && ListsEdges(edges, pairs, Links(place, modules), owners)
    ensures InOrder(edges) && forall e :: e in edges ==> EdgeMeans(e, place, modules, owners)
    ensures forall from, to: string ::
              from != to && Positions(place, modules, Joining(from, to), One()) != {} ==>
                exists e :: e in edges && e.from == from && e.to == to
  {
    hide Positions, Joining, Links, Count, DraftOf, EdgeMeans;
    forall e | e in edges ensures EdgeMeans(e, place, modules, owners) {
      var i :| 0 <= i < |edges| && edges[i] == e;
      assert pairs[i] in pairs;
      EdgeCounted(e, pairs[i], place, modules, owners);
    }
    forall from, to: string | from != to && Positions(place, modules, Joining(from, to), One()) != {}
      ensures exists e :: e in edges && e.from == from && e.to == to
    {
      PairCounts(place, modules, (from, to));
      assert (from, to) in pairs;
      var i :| 0 <= i < |pairs| && pairs[i] == (from, to);
      assert edges[i] in edges;
    }
  }

  // ----- metrics -----

  /** The boundaries of some kinds on the edges at a component. */
  function EdgeKinds(edges: seq<ComponentEdge>, c: string, kinds: set<Boundary>): set<(ComponentEdge, Boundary)> {
    set e, b | e in edges && (e.from == c || e.to == c) && b in e.boundaries && b in kinds :: (e, b)
  }

  function OwnerCrossings(edges: seq<ComponentEdge>, c: string): set<ComponentEdge> {
    set e | e in edges && (e.from == c || e.to == c) && e.crossesOwner
  }

  /** The open reviews on the modules of a component. */
  function OwnReviews(place: Placement, modules: seq<Module>, c: string): set<(int, int)> {
    set i, k | 0 <= i < |modules| && modules[i].id in place && place[modules[i].id] == c &&
               k in OpenReviews(modules[i].reviews) :: (i, k)
  }

  /** The metrics of a component count the boundaries on its edges by their kind, the edges to other owners, and the
      open reviews and evidence items of its modules and of all dependencies that begin or end in it. */
  ghost predicate MetricMeans(
    m: IncidentMetrics, c: string, place: Placement, modules: seq<Module>, edges: seq<ComponentEdge>)
  {
    && m.outgoing == (set e | e in edges && e.from == c :: e.to)
    && m.incoming == (set e | e in edges && e.to == c :: e.from)
    && m.unaudited == |EdgeKinds(edges, c, {Unclassified, CppInternal})|
    && m.audited == |EdgeKinds(edges, c, {Cxx, CAbi, Mojo})|
    && m.rust == |EdgeKinds(edges, c, {Rust})|
    && m.externalOwner == |OwnerCrossings(edges, c)|
    && m.unresolved == |OwnReviews(place, modules, c)| + |Positions(place, modules, At(c), Open())|
    && m.evidence == |Positions(place, modules, At(c), Items())|
  }

  function KindsAmong(bs: seq<Boundary>, kinds: set<Boundary>): set<Boundary> {
    set b | b in bs && b in kinds
  }

  lemma KindsSnoc(bs: seq<Boundary>, kinds: set<Boundary>)
    requires bs != [] && Ascending(bs)
    ensures var n, last := |bs| - 1, bs[|bs| - 1];
            |KindsAmong(bs, kinds)| == |KindsAmong(bs[..n], kinds)| + if last in kinds then 1 else 0
  {
    var n, last := |bs| - 1, bs[|bs| - 1];
    var added := if last in kinds then {last} else {};
    assert bs == bs[..n] + [last] && last !in bs[..n];
    assert KindsAmong(bs, kinds) == KindsAmong(bs[..n], kinds) + added;
  }

  /** Distinct boundaries, counted one after the other. */
  lemma {:induction false} KindsListed(bs: seq<Boundary>)
    requires Ascending(bs)
    ensures Audited(bs) == |KindsAmong(bs, {Cxx, CAbi, Mojo})| && Rusty(bs) == |KindsAmong(bs, {Rust})|
    ensures |bs| - Audited(bs) - Rusty(bs) == |KindsAmong(bs, {Unclassified, CppInternal})|
  {
    if bs != [] {
      hide KindsAmong;
      KindsListed(bs[..|bs| - 1]);
      KindsSnoc(bs, {Cxx, CAbi, Mojo});
      KindsSnoc(bs, {Rust});
      KindsSnoc(bs, {Unclassified, CppInternal});
    }
  }

  lemma EdgeKindsSnoc(edges: seq<ComponentEdge>, c: string, kinds: set<Boundary>)
    requires edges != [] && edges[|edges| - 1] !in edges[..|edges| - 1]
    ensures var n, last := |edges| - 1, edges[|edges| - 1];
            |EdgeKinds(edges, c, kinds)| == |EdgeKinds(edges[..n], c, kinds)| +
            if last.from == c || last.to == c then |KindsAmong(last.boundaries, kinds)| else 0
  {
    var n, last := |edges| - 1, edges[|edges| - 1];
    var bs := KindsAmong(last.boundaries, kinds);
    var added := if last.from == c || last.to == c then Tagged(last, bs) else {};
    assert edges == edges[..n] + [last];
    forall e, b ensures (e, b) in EdgeKinds(edges, c, kinds) <==>
                        (e, b) in EdgeKinds(edges[..n], c, kinds) || (e, b) in added
    {
      assert (e, b) in Tagged(last, bs) <==> e == last && b in bs;
    }
    assert EdgeKinds(edges, c, kinds) == EdgeKinds(edges[..n], c, kinds) + added;
    assert EdgeKinds(edges[..n], c, kinds) * added == {};
    TaggedSize(last, bs);
  }

  lemma OwnerCrossingsSnoc(edges: seq<ComponentEdge>, c: string)
    requires edges != [] && edges[|edges| - 1] !in edges[..|edges| - 1]
    ensures var n, last := |edges| - 1, edges[|edges| - 1];
            |OwnerCrossings(edges, c)| ==
            |OwnerCrossings(edges[..n], c)| +
            if (last.from == c || last.to == c) && last.crossesOwner then 1 else 0
  {
    var n, last := |edges| - 1, edges[|edges| - 1];
    var added := if (last.from == c || last.to == c) && last.crossesOwner then {last} else {};
    assert edges == edges[..n] + [last];
    assert OwnerCrossings(edges, c) == OwnerCrossings(edges[..n], c) + added;
  }

  lemma {:induction false} KindsCounted(edges: seq<ComponentEdge>, c: string, base: IncidentMetrics)
    requires base.unaudited == base.audited == base.rust == base.externalOwner == 0
    requires NoDuplicates(edges) && forall e :: e in edges ==> Ascending(e.boundaries)
    ensures var m := MetricBehind(edges, c, base);
            && m.unaudited == |EdgeKinds(edges, c, {Unclassified, CppInternal})|
            && m.audited == |EdgeKinds(edges, c, {Cxx, CAbi, Mojo})|
            && m.rust == |EdgeKinds(edges, c, {Rust})|
            && m.externalOwner == |OwnerCrossings(edges, c)|
  {
    if edges != [] {
      hide EdgeKinds, OwnerCrossings, Ascending, KindsAmong, Audited, Rusty;
      var n, last := |edges| - 1, edges[|edges| - 1];
      KindsCounted(edges[..n], c, base);
      KindsListed(last.boundaries);
      EdgeKindsSnoc(edges, c, {Unclassified, CppInternal});
      EdgeKindsSnoc(edges, c, {Cxx, CAbi, Mojo});
      EdgeKindsSnoc(edges, c, {Rust});
      OwnerCrossingsSnoc(edges, c);
    } else {
      assert EdgeKinds(edges, c, {Unclassified, CppInternal}) == {} == EdgeKinds(edges, c, {Cxx, CAbi, Mojo});
      assert EdgeKinds(edges, c, {Rust}) == {} && OwnerCrossings(edges, c) == {};
    }
  }

  // ----- items at a component -----

  /** The weight of a pair where it is chosen. */
  function WeightOf(links: seq<Link>, at: Choice, f: Link -> nat, p: Pair): nat {
    if at(p.0, p.1) then SumWhere(links, Joining(p.0, p.1), f) else 0
  }

  function PairWeight(links: seq<Link>, at: Choice, f: Link -> nat): Pair -> nat {
    (p: Pair) => WeightOf(links, at, f, p)
  }

  function InsideOf(at: Choice): Choice {
    (a: string, b: string) => a == b && at(a, b)
  }

  /** What is chosen is on the chosen pairs, each once, or inside of chosen components. */
  lemma {:induction false} PairsCover(links: seq<Link>, pairs: seq<Pair>, at: Choice, f: Link -> nat)
    requires NoDuplicates(pairs) && forall p :: p in pairs ==> p.0 != p.1
    requires forall i :: 0 <= i < |links| && links[i].from != links[i].to ==> (links[i].from, links[i].to) in pairs
    ensures Sum(pairs, PairWeight(links, at, f)) + SumWhere(links, InsideOf(at), f) == SumWhere(links, at, f)
  {
    if links == [] {
      SumZero(pairs, PairWeight(links, at, f));
    } else {
      var front, last := links[..|links| - 1], links[|links| - 1];
      var key := (last.from, last.to);
      assert forall i :: 0 <= i < |front| ==> front[i] == links[i];
      PairsCover(front, pairs, at, f);
      if last.from == last.to {
        SumSame(pairs, PairWeight(front, at, f), PairWeight(links, at, f));
      } else {
        SumRaised(pairs, PairWeight(front, at, f), PairWeight(links, at, f), key,
                  if at(last.from, last.to) then f(last) else 0);
      }
    }
  }

  lemma {:induction false} SumSnoc<T(!new)>(keys: seq<T>, f: T -> nat)
    requires keys != []
    ensures Sum(keys, f) == Sum(keys[..|keys| - 1], f) + f(keys[|keys| - 1])
  {
    if |keys| > 1 {
      SumSnoc(keys[1..], f);
      assert keys[1..][..|keys| - 2] == keys[..|keys| - 1][1..];
    }
  }

  /** An edge carries what the links between its ends carry. */
  ghost predicate Carries(edges: seq<ComponentEdge>, pairs: seq<Pair>, links: seq<Link>) {
    |edges| == |pairs| && forall i :: 0 <= i < |edges| ==>
      && pairs[i] == (edges[i].from, edges[i].to) && edges[i].from != edges[i].to
      && edges[i].evidence == SumWhere(links, Joining(edges[i].from, edges[i].to), EvidenceOf())
      && edges[i].unresolved == SumWhere(links, Joining(edges[i].from, edges[i].to), UnresolvedOf())
  }

  lemma {:induction false} ItemsBehind(
    edges: seq<ComponentEdge>, pairs: seq<Pair>, links: seq<Link>, c: string, base: IncidentMetrics)
    requires Carries(edges, pairs, links)
    ensures MetricBehind(edges, c, base).unresolved ==
            base.unresolved + Sum(pairs, PairWeight(links, At(c), UnresolvedOf()))
    ensures MetricBehind(edges, c, base).evidence ==
            base.evidence + Sum(pairs, PairWeight(links, At(c), EvidenceOf()))
  {
    if edges != [] {
      hide SumWhere;
      var n := |edges| - 1;
      ItemsBehind(edges[..n], pairs[..n], links, c, base);
      SumSnoc(pairs, PairWeight(links, At(c), UnresolvedOf()));
      SumSnoc(pairs, PairWeight(links, At(c), EvidenceOf()));
    }
  }

  lemma {:induction false} SumWhereSame(links: seq<Link>, a: Choice, b: Choice, f: Link -> nat)
    requires forall x, y :: a(x, y) == b(x, y)
    ensures SumWhere(links, a, f) == SumWhere(links, b, f)
  {
    if links != [] {
      SumWhereSame(links[..|links| - 1], a, b, f);
    }
  }

  lemma OwnReviewsSnoc(place: Placement, modules: seq<Module>, c: string)
    requires modules != []
    ensures var n, last := |modules| - 1, modules[|modules| - 1];
            |OwnReviews(place, modules, c)| == |OwnReviews(place, modules[..n], c)| +
            if last.id in place && place[last.id] == c then |OpenReviews(last.reviews)| else 0
  {
    var n, last := |modules| - 1, modules[|modules| - 1];
    hide OpenReviews;
    var here := last.id in place && place[last.id] == c;
    var front, added := OwnReviews(place, modules[..n], c), if here then Tagged(n, OpenReviews(last.reviews)) else {};
    forall i, k ensures (i, k) in OwnReviews(place, modules, c) <==> (i, k) in front || (i, k) in added {
      assert (i, k) in Tagged(n, OpenReviews(last.reviews)) <==> i == n && k in OpenReviews(last.reviews);
      assert 0 <= i < n ==> modules[..n][i] == modules[i];
    }
    assert OwnReviews(place, modules, c) == front + added && front * added == {};
    TaggedSize(n, OpenReviews(last.reviews));
  }

  lemma {:induction false} OwnReviewsCounted(place: Placement, modules: seq<Module>, c: string)
    ensures LocalReviews(place, modules, c) == |OwnReviews(place, modules, c)|
  {
    if modules != [] {
      hide OwnReviews, OpenReviews;
      OwnReviewsCounted(place, modules[..|modules| - 1], c);
      OwnReviewsSnoc(place, modules, c);
    }
  }

  lemma EdgesCarry(modules: seq<Module>, place: Placement, owners: map<string, string>, edges: seq<ComponentEdge>,
      pairs: seq<Pair>)
    requires ListsPairs(pairs, Links(place, modules)) && ListsEdges(edges, pairs, Links(place, modules), owners)
    ensures Carries(edges, pairs, Links(place, modules))
    ensures NoDuplicates(edges) && forall e :: e in edges ==> Ascending(e.boundaries)
    ensures |edges| == |pairs| && forall i :: 0 <= i < |edges| ==> pairs[i] == (edges[i].from, edges[i].to)
  {
    hide SumWhere, Links, Count, BoundariesBetween, EvidenceBetween, UnresolvedBetween;
    var links := Links(place, modules);
    forall i | 0 <= i < |edges|
      ensures pairs[i] == (edges[i].from, edges[i].to) && edges[i].from != edges[i].to
      ensures edges[i].evidence == SumWhere(links, Joining(edges[i].from, edges[i].to), EvidenceOf())
      ensures edges[i].unresolved == SumWhere(links, Joining(edges[i].from, edges[i].to), UnresolvedOf())
    {
      assert pairs[i] in pairs;
      BetweenSums(links, pairs[i]);
    }
    forall e | e in edges ensures Ascending(e.boundaries) {
      var i :| 0 <= i < |edges| && edges[i] == e;
      AmongAscending(ALL_BOUNDARIES, BoundariesBetween(links, pairs[i]));
    }
  }

  /** Every link between components is on a listed pair. */
  lemma LinksListed(links: seq<Link>, pairs: seq<Pair>)
    requires ListsPairs(pairs, links)
    ensures forall i :: 0 <= i < |links| && links[i].from != links[i].to ==> (links[i].from, links[i].to) in pairs
  {
    forall i | 0 <= i < |links| && links[i].from != links[i].to ensures (links[i].from, links[i].to) in pairs {
      CountPositive(links, i);
    }
  }

  lemma ItemsAt(
    modules: seq<Module>, place: Placement, edges: seq<ComponentEdge>, pairs: seq<Pair>, c: string)
    requires ListsPairs(pairs, Links(place, modules)) && Carries(edges, pairs, Links(place, modules))
    ensures var m := MetricBehind(edges, c, BaseMetrics(place, modules, Links(place, modules), c));
            && m.unresolved == |OwnReviews(place, modules, c)| + |Positions(place, modules, At(c), Open())|
            && m.evidence == |Positions(place, modules, At(c), Items())|
  {
    hide Positions, OwnReviews, Links, SumWhere, Carries, MetricBehind, LocalReviews, EvidenceBetween,
         UnresolvedBetween;
    var links := Links(place, modules);
    ItemsBehind(edges, pairs, links, c, BaseMetrics(place, modules, links, c));
    OwnReviewsCounted(place, modules, c);
    BetweenSums(links, (c, c));
    LinksListed(links, pairs);
    Weights(Rust);
    forall f ensures SumWhere(links, Joining(c, c), f) == SumWhere(links, InsideOf(At(c)), f) {
      SumWhereSame(links, Joining(c, c), InsideOf(At(c)), f);
    }
    PairsCover(links, pairs, At(c), UnresolvedOf());
    PairsCover(links, pairs, At(c), EvidenceOf());
    LinksSum(place, modules, At(c), Open(), UnresolvedOf());
    LinksSum(place, modules, At(c), Items(), EvidenceOf());
  }

  lemma EdgeEnds(edges: seq<ComponentEdge>, pairs: seq<Pair>, c: string)
    requires |edges| == |pairs| && forall i :: 0 <= i < |edges| ==> pairs[i] == (edges[i].from, edges[i].to)
    ensures Outgoing(pairs, c) == set e | e in edges && e.from == c :: e.to
    ensures Incoming(pairs, c) == set e | e in edges && e.to == c :: e.from
  {
    forall e | e in edges ensures (e.from, e.to) in pairs {
      var i :| 0 <= i < |edges| && edges[i] == e;
      assert pairs[i] in pairs;
    }
    forall p | p in pairs ensures exists e :: e in edges && p == (e.from, e.to) {
      var i :| 0 <= i < |pairs| && pairs[i] == p;
      assert edges[i] in edges;
    }
  }

  /** The metrics of every component mean what they say. */
  lemma MetricsCounted(
    modules: seq<Module>, place: Placement, owners: map<string, string>, edges: seq<ComponentEdge>, pairs: seq<Pair>,
    incident: Incident, c: string)
    requires ListsPairs(pairs, Links(place, modules)) && ListsEdges(edges, pairs, Links(place, modules), owners)
    requires Measures(incident, modules, place, edges)
    ensures MetricMeans(Metric(incident, c), c, place, modules, edges)
  {
    hide Positions, OwnReviews, Links, Carries, MetricBehind, EdgeKinds, OwnerCrossings, ListsPairs, ListsEdges;
    NeighboursMeasured(modules, place, owners, edges, pairs, incident, c);
    EdgesCarry(modules, place, owners, edges, pairs);
    ItemsAt(modules, place, edges, pairs, c);
    KindsCounted(edges, c, BaseMetrics(place, modules, Links(place, modules), c));
    EdgeEnds(edges, pairs, c);
  }

  // ----- conservation -----

  /** The items of all dependencies: module, dependency and item, each by its position. */
  function Everywhere(modules: seq<Module>, items: Dependency -> set<int>): set<(int, int, int)> {
    set i, k, l | 0 <= i < |modules| && 0 <= k < |modules[i].dependencies| &&
                  l in items(modules[i].dependencies[k]) :: (i, k, l)
  }

  function EdgeEvidence(edges: seq<ComponentEdge>): nat {
    if edges == [] then 0 else EdgeEvidence(edges[..|edges| - 1]) + edges[|edges| - 1].evidence
  }

  function EdgeReviews(edges: seq<ComponentEdge>): nat {
    if edges == [] then 0 else EdgeReviews(edges[..|edges| - 1]) + edges[|edges| - 1].unresolved
  }

  lemma {:induction false} EdgeTotals(edges: seq<ComponentEdge>, pairs: seq<Pair>, links: seq<Link>)
    requires Carries(edges, pairs, links)
    ensures EdgeEvidence(edges) == Sum(pairs, PairWeight(links, Anywhere(), EvidenceOf()))
    ensures EdgeReviews(edges) == Sum(pairs, PairWeight(links, Anywhere(), UnresolvedOf()))
  {
    if edges != [] {
      hide SumWhere;
      var n := |edges| - 1;
      EdgeTotals(edges[..n], pairs[..n], links);
      SumSnoc(pairs, PairWeight(links, Anywhere(), EvidenceOf()));
      SumSnoc(pairs, PairWeight(links, Anywhere(), UnresolvedOf()));
    }
  }

  lemma AllPositions(place: Placement, modules: seq<Module>, items: Dependency -> set<int>)
    requires AllPlaced(place, modules)
    ensures Positions(place, modules, Anywhere(), items) == Everywhere(modules, items)
  {
    forall i, k, l
      ensures (i, k, l) in Positions(place, modules, Anywhere(), items) <==> (i, k, l) in Everywhere(modules, items)
    {
      if 0 <= i < |modules| && 0 <= k < |modules[i].dependencies| {
        assert modules[i] in modules && modules[i].dependencies[k] in modules[i].dependencies;
      }
    }
  }

  /** No evidence item and no open review of a dependency is lost or counted on two edges: they are on the edges and
      inside of components. */
  lemma ItemsConserved(
    modules: seq<Module>, place: Placement, owners: map<string, string>, edges: seq<ComponentEdge>, pairs: seq<Pair>)
    requires AllPlaced(place, modules)
    requires ListsPairs(pairs, Links(place, modules)) && ListsEdges(edges, pairs, Links(place, modules), owners)
    ensures EdgeEvidence(edges) + |Positions(place, modules, Inside(), Items())| == |Everywhere(modules, Items())|
    ensures EdgeReviews(edges) + |Positions(place, modules, Inside(), Open())| == |Everywhere(modules, Open())|
  {
    hide Positions, Everywhere, Links, SumWhere, Carries, AllPlaced;
    var links := Links(place, modules);
    EdgesCarry(modules, place, owners, edges, pairs);
    EdgeTotals(edges, pairs, links);
    LinksListed(links, pairs);
    Weights(Rust);
    forall f ensures SumWhere(links, Inside(), f) == SumWhere(links, InsideOf(Anywhere()), f) {
      SumWhereSame(links, Inside(), InsideOf(Anywhere()), f);
    }
    PairsCover(links, pairs, Anywhere(), EvidenceOf());
    PairsCover(links, pairs, Anywhere(), UnresolvedOf());
    LinksSum(place, modules, Inside(), Items(), EvidenceOf());
    LinksSum(place, modules, Inside(), Open(), UnresolvedOf());
    LinksSum(place, modules, Anywhere(), Items(), EvidenceOf());
    LinksSum(place, modules, Anywhere(), Open(), UnresolvedOf());
    AllPositions(place, modules, Items());
    AllPositions(place, modules, Open());
  }

  /** The open reviews on modules. */
  function ModuleReviews(modules: seq<Module>): set<(int, int)> {
    set i, k | 0 <= i < |modules| && k in OpenReviews(modules[i].reviews) :: (i, k)
  }

  lemma ModuleReviewsSnoc(modules: seq<Module>)
    requires modules != []
    ensures var n, last := |modules| - 1, modules[|modules| - 1];
            |ModuleReviews(modules)| == |ModuleReviews(modules[..n])| + |OpenReviews(last.reviews)|
  {
    var n, last := |modules| - 1, modules[|modules| - 1];
    var front, added := ModuleReviews(modules[..n]), Tagged(n, OpenReviews(last.reviews));
    forall i, k ensures (i, k) in ModuleReviews(modules) <==> (i, k) in front || (i, k) in added {
      assert (i, k) in added <==> i == n && k in OpenReviews(last.reviews);
      assert 0 <= i < n ==> modules[..n][i] == modules[i];
    }
    assert ModuleReviews(modules) == front + added && front * added == {};
    TaggedSize(n, OpenReviews(last.reviews));
  }

  function OwnCount(place: Placement, modules: seq<Module>): string -> nat {
    (c: string) => |OwnReviews(place, modules, c)|
  }

  /** Every open review on a module belongs to exactly one component. */
  lemma {:induction false} ModuleReviewsConserved(place: Placement, modules: seq<Module>, components: seq<string>)
    requires NoDuplicates(components)
    requires forall mod :: mod in modules ==> mod.id in place && place[mod.id] in components
    ensures Sum(components, OwnCount(place, modules)) == |ModuleReviews(modules)|
  {
    if modules == [] {
      SumZero(components, OwnCount(place, modules));
    } else {
      hide OwnReviews, ModuleReviews, OpenReviews;
      var n, last := |modules| - 1, modules[|modules| - 1];
      assert forall mod :: mod in modules[..n] ==> mod in modules;
      assert last in modules;
      ModuleReviewsConserved(place, modules[..n], components);
      ModuleReviewsSnoc(modules);
      forall c ensures |OwnReviews(place, modules, c)| == |OwnReviews(place, modules[..n], c)| +
                       if place[last.id] == c then |OpenReviews(last.reviews)| else 0
      {
        OwnReviewsSnoc(place, modules, c);
      }
      SumRaised(components, OwnCount(place, modules[..n]), OwnCount(place, modules), place[last.id],
                |OpenReviews(last.reviews)|);
    }
  }
}
