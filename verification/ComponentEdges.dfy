/** The edges between components and the metrics at each component. */
module ComponentEdges {
  import opened Wrappers
  import opened Ordering
  import opened ManifestModel
  import opened Components

  datatype EdgeDraft = EdgeDraft(moduleEdges: nat, boundaries: set<Boundary>, evidence: nat, unresolved: nat)

  datatype ComponentEdge = ComponentEdge(
    from: string, to: string, moduleEdges: nat, boundaries: seq<Boundary>, evidence: nat, unresolved: nat,
    crossesOwner: bool)

  datatype IncidentMetrics = IncidentMetrics(
    incoming: set<string>, outgoing: set<string>, unaudited: nat, audited: nat, rust: nat, unresolved: nat,
    evidence: nat, externalOwner: nat)

  const NO_METRICS: IncidentMetrics := IncidentMetrics({}, {}, 0, 0, 0, 0, 0, 0)

  const NO_DRAFT: EdgeDraft := EdgeDraft(0, {}, 0, 0)

  const ALL_BOUNDARIES: seq<Boundary> := [Unclassified, CppInternal, Cxx, CAbi, Mojo, Rust]

  // ----- boundaries of an edge -----

  function Among(all: seq<Boundary>, s: set<Boundary>): (bs: seq<Boundary>)
    ensures forall b :: b in bs <==> b in all && b in s
  {
    if all == [] then [] else (if all[0] in s then [all[0]] else []) + Among(all[1..], s)
  }

  /** The members in the order of the boundary kinds. */
  function BoundaryList(s: set<Boundary>): (bs: seq<Boundary>)
    ensures forall b :: b in bs <==> b in s
  {
    BoundaryCases();
    Among(ALL_BOUNDARIES, s)
  }

  lemma BoundaryCases()
    ensures forall b: Boundary :: b in ALL_BOUNDARIES
  {
    forall b: Boundary ensures b in ALL_BOUNDARIES {
      match b {
        case Unclassified => assert ALL_BOUNDARIES[0] == b;
        case CppInternal => assert ALL_BOUNDARIES[1] == b;
        case Cxx => assert ALL_BOUNDARIES[2] == b;
        case CAbi => assert ALL_BOUNDARIES[3] == b;
        case Mojo => assert ALL_BOUNDARIES[4] == b;
        case Rust => assert ALL_BOUNDARIES[5] == b;
      }
    }
  }

  function Audited(bs: seq<Boundary>): nat {
    if bs == [] then 0 else Audited(bs[..|bs| - 1]) + if bs[|bs| - 1].IsAuditedCrossLanguage() then 1 else 0
  }

  function Rusty(bs: seq<Boundary>): nat {
    if bs == [] then 0 else Rusty(bs[..|bs| - 1]) + if bs[|bs| - 1].Rust? then 1 else 0
  }

  /** Every boundary is audited, Rust or unaudited. */
  lemma {:induction false} BoundariesSplit(bs: seq<Boundary>)
    ensures Audited(bs) + Rusty(bs) <= |bs|
  {
    if bs != [] {
      BoundariesSplit(bs[..|bs| - 1]);
    }
  }

  /** The metrics of a component with one more edge. */
  function WithEdge(m: IncidentMetrics, e: ComponentEdge, outgoing: bool): IncidentMetrics {
    BoundariesSplit(e.boundaries);
    IncidentMetrics(
      if outgoing then m.incoming else m.incoming + {e.from}, if outgoing then m.outgoing + {e.to} else m.outgoing,
      m.unaudited + |e.boundaries| - Audited(e.boundaries) - Rusty(e.boundaries), m.audited + Audited(e.boundaries),
      m.rust + Rusty(e.boundaries), m.unresolved + e.unresolved, m.evidence + e.evidence,
      m.externalOwner + if e.crossesOwner then 1 else 0)
  }

  method ApplyIncidentEdge(metrics: IncidentMetrics, e: ComponentEdge, outgoing: bool) returns (m: IncidentMetrics)
    ensures m == WithEdge(metrics, e, outgoing)
  {
    m := if outgoing then metrics.(outgoing := metrics.outgoing + {e.to})
         else metrics.(incoming := metrics.incoming + {e.from});
    ghost var start := m;
    for i := 0 to |e.boundaries|
      invariant Audited(e.boundaries[..i]) + Rusty(e.boundaries[..i]) <= i
      invariant m == start.(unaudited := start.unaudited + i - Audited(e.boundaries[..i]) - Rusty(e.boundaries[..i]),
                            audited := start.audited + Audited(e.boundaries[..i]),
                            rust := start.rust + Rusty(e.boundaries[..i]))
    {
      assert e.boundaries[..i + 1][..i] == e.boundaries[..i];
      match e.boundaries[i] {
        case Unclassified => m := m.(unaudited := m.unaudited + 1);
        case CppInternal => m := m.(unaudited := m.unaudited + 1);
        case Cxx => m := m.(audited := m.audited + 1);
        case CAbi => m := m.(audited := m.audited + 1);
        case Mojo => m := m.(audited := m.audited + 1);
        case Rust => m := m.(rust := m.rust + 1);
      }
    }
    assert e.boundaries[..|e.boundaries|] == e.boundaries;
    m := m.(unresolved := m.unresolved + e.unresolved, evidence := m.evidence + e.evidence);
    if e.crossesOwner {
      m := m.(externalOwner := m.externalOwner + 1);
    }
  }

  // ----- drafts -----

  function DraftOf(links: seq<Link>, p: Pair): EdgeDraft {
    EdgeDraft(Count(links, p), BoundariesBetween(links, p), EvidenceBetween(links, p), UnresolvedBetween(links, p))
  }

  /** The drafts are exactly those of the pairs of different components with links. */
  ghost predicate Drafted(links: seq<Link>, drafts: map<Pair, EdgeDraft>) {
    && (forall p :: p in drafts <==> p.0 != p.1 && Count(links, p) > 0)
    && (forall p :: p in drafts ==> drafts[p] == DraftOf(links, p))
  }

  lemma {:induction false} NoLinksBetween(links: seq<Link>, p: Pair)
    requires Count(links, p) == 0
    ensures DraftOf(links, p) == NO_DRAFT
  {
    if links != [] {
      NoLinksBetween(links[..|links| - 1], p);
    }
  }

  function WithLink(draft: EdgeDraft, l: Link): EdgeDraft {
    EdgeDraft(draft.moduleEdges + 1, draft.boundaries + {l.boundary}, draft.evidence + l.evidence,
              draft.unresolved + l.unresolved)
  }

  lemma DraftSnoc(links: seq<Link>, l: Link, p: Pair)
    ensures DraftOf(links + [l], p) == if Between(l, p) then WithLink(DraftOf(links, p), l) else DraftOf(links, p)
  {
    assert (links + [l])[..|links + [l]| - 1] == links;
  }

  lemma DraftedStep(links: seq<Link>, l: Link, drafts: map<Pair, EdgeDraft>, drafts': map<Pair, EdgeDraft>)
    requires Drafted(links, drafts)
    requires drafts' == if l.from == l.to then drafts
                        else
                          var key := (l.from, l.to);
                          drafts[key := WithLink(if key in drafts then drafts[key] else NO_DRAFT, l)]
    ensures Drafted(links + [l], drafts')
  {
    forall p ensures p in drafts' <==> p.0 != p.1 && Count(links + [l], p) > 0 {
      DraftSnoc(links, l, p);
    }
    forall p | p in drafts' ensures drafts'[p] == DraftOf(links + [l], p) {
      DraftSnoc(links, l, p);
      if p !in drafts {
        NoLinksBetween(links, p);
      }
    }
  }

  // ----- metrics without edges -----

  type Incident = map<string, IncidentMetrics>

  function Metric(incident: Incident, c: string): IncidentMetrics {
    if c in incident then incident[c] else NO_METRICS
  }

  /** The unresolved reviews on the modules of a component. */
  function LocalReviews(place: Placement, modules: seq<Module>, c: string): nat {
    if modules == [] then 0
    else
      var last := modules[|modules| - 1];
      LocalReviews(place, modules[..|modules| - 1], c) +
      if last.id in place && place[last.id] == c then Unresolved(last.reviews) else 0
  }

  /** What reviews and links inside of a component contribute. */
  function BaseMetrics(place: Placement, modules: seq<Module>, links: seq<Link>, c: string): IncidentMetrics {
    NO_METRICS.(unresolved := LocalReviews(place, modules, c) + UnresolvedBetween(links, (c, c)),
                evidence := EvidenceBetween(links, (c, c)))
  }

  ghost predicate Based(incident: Incident, place: Placement, modules: seq<Module>, links: seq<Link>) {
    forall c :: Metric(incident, c) == BaseMetrics(place, modules, links, c)
  }

  lemma LocalStep(incident: Incident, place: Placement, modules: seq<Module>, links: seq<Link>, mod: Module,
      incident': Incident)
    requires Based(incident, place, modules, links)
    requires incident' == if mod.id in place then
                            var m := Metric(incident, place[mod.id]);
                            incident[place[mod.id] := m.(unresolved := m.unresolved + Unresolved(mod.reviews))]
                          else incident
    ensures Based(incident', place, modules + [mod], links)
  {
    assert (modules + [mod])[..|modules + [mod]| - 1] == modules;
    forall c ensures Metric(incident', c) == BaseMetrics(place, modules + [mod], links, c) {
      assert Metric(incident, c) == BaseMetrics(place, modules, links, c);
    }
  }

  lemma LinkStep(incident: Incident, place: Placement, modules: seq<Module>, links: seq<Link>, l: Link,
      incident': Incident)
    requires Based(incident, place, modules, links)
    requires incident' == if l.from == l.to then
                            var m := Metric(incident, l.from);
                            incident[l.from := m.(unresolved := m.unresolved + l.unresolved,
                                                  evidence := m.evidence + l.evidence)]
                          else incident
    ensures Based(incident', place, modules, links + [l])
  {
    assert (links + [l])[..|links + [l]| - 1] == links;
    forall c ensures Metric(incident', c) == BaseMetrics(place, modules, links + [l], c) {
      assert Metric(incident, c) == BaseMetrics(place, modules, links, c);
    }
  }

  // ----- scanning the modules -----

  lemma {:induction false} UnplacedModule(place: Placement, mod: Module, dependencies: seq<Dependency>)
    requires mod.id !in place
    ensures ModuleLinks(place, mod, dependencies) == []
  {
    if dependencies != [] {
      UnplacedModule(place, mod, dependencies[..|dependencies| - 1]);
    }
  }

  /** One dependency of a placed module. */
  method ScanDependency(
    mod: Module, d: Dependency, place: Placement, drafts: map<Pair, EdgeDraft>, incident: Incident,
    ghost modules: seq<Module>, ghost links: seq<Link>)
    returns (drafts': map<Pair, EdgeDraft>, incident': Incident)
    requires mod.id in place && Drafted(links, drafts) && Based(incident, place, modules, links)
    ensures Drafted(links + LinkOf(place, mod, d), drafts')
    ensures Based(incident', place, modules, links + LinkOf(place, mod, d))
  {
    drafts', incident' := drafts, incident;
    assert links + [] == links;
    if d.target !in place {
      return;
    }
    var from, to := place[mod.id], place[d.target];
    var l := Link(from, to, d.boundary, |d.evidence|, Unresolved(d.reviews));
    if from == to {
      var m := Metric(incident, from);
      incident' := incident[from := m.(unresolved := m.unresolved + l.unresolved, evidence := m.evidence + l.evidence)];
    } else {
      var draft := if (from, to) in drafts then drafts[(from, to)] else NO_DRAFT;
      drafts' := drafts[(from, to) := WithLink(draft, l)];
    }
    DraftedStep(links, l, drafts, drafts');
    LinkStep(incident, place, modules, links, l, incident');
  }

  method ScanModule(
    mod: Module, place: Placement, drafts: map<Pair, EdgeDraft>, incident: Incident,
    ghost modules: seq<Module>, ghost links: seq<Link>)
    returns (drafts': map<Pair, EdgeDraft>, incident': Incident)
    requires Drafted(links, drafts) && Based(incident, place, modules, links)
    ensures Drafted(links + ModuleLinks(place, mod, mod.dependencies), drafts')
    ensures Based(incident', place, modules + [mod], links + ModuleLinks(place, mod, mod.dependencies))
  {
    hide Drafted, Based, Unresolved, LinkOf;
    drafts', incident' := drafts, incident;
    if mod.id !in place {
      UnplacedModule(place, mod, mod.dependencies);
      assert links + [] == links;
      LocalStep(incident, place, modules, links, mod, incident);
      return;
    }
    var m := Metric(incident, place[mod.id]);
    incident' := incident[place[mod.id] := m.(unresolved := m.unresolved + Unresolved(mod.reviews))];
    LocalStep(incident, place, modules, links, mod, incident');
    ghost var all := modules + [mod];
    ghost var seen := links;
    for i := 0 to |mod.dependencies|
      invariant seen == links + ModuleLinks(place, mod, mod.dependencies[..i])
      invariant Drafted(seen, drafts') && Based(incident', place, all, seen)
    {
      drafts', incident' := ScanDependency(mod, mod.dependencies[i], place, drafts', incident', all, seen);
      assert mod.dependencies[..i + 1][..i] == mod.dependencies[..i];
      seen := seen + LinkOf(place, mod, mod.dependencies[i]);
    }
    assert mod.dependencies[..|mod.dependencies|] == mod.dependencies;
  }

  // ----- edges -----

  predicate PairLeq(a: Pair, b: Pair) {
    if a.0 == b.0 then StringLeq(a.1, b.1) else StringLeq(a.0, b.0)
  }

  predicate EdgeLeq(a: ComponentEdge, b: ComponentEdge) {
    PairLeq((a.from, a.to), (b.from, b.to))
  }

  lemma PairOrder()
    ensures TotalPreorder(PairLeq)
  {
    forall x: Pair, y: Pair ensures PairLeq(x, y) || PairLeq(y, x) {
      StringLeqTotal(x.0, y.0);
      StringLeqTotal(x.1, y.1);
    }
    forall x: Pair, y: Pair, z: Pair | PairLeq(x, y) && PairLeq(y, z) ensures PairLeq(x, z) {
      PairTransitive(x, y, z);
    }
  }

  lemma PairTransitive(x: Pair, y: Pair, z: Pair)
    requires PairLeq(x, y) && PairLeq(y, z)
    ensures PairLeq(x, z)
  {
    if x.0 == y.0 == z.0 {
      StringLeqTransitive(x.1, y.1, z.1);
    } else if x.0 == z.0 {
      StringLeqAntisymmetric(x.0, y.0);
    } else if x.0 != y.0 && y.0 != z.0 {
      StringLeqTransitive(x.0, y.0, z.0);
    }
  }

  function OwnerOf(owners: map<string, string>, c: string): Option<string> {
    if c in owners then Some(owners[c]) else None
  }

  function EdgeOf(draft: EdgeDraft, p: Pair, owners: map<string, string>): ComponentEdge {
    ComponentEdge(p.0, p.1, draft.moduleEdges, BoundaryList(draft.boundaries), draft.evidence, draft.unresolved,
                  OwnerOf(owners, p.0) != OwnerOf(owners, p.1))
  }

  /** The metrics of a component behind the given edges. */
  function MetricBehind(edges: seq<ComponentEdge>, c: string, base: IncidentMetrics): IncidentMetrics {
    if edges == [] then base
    else
      var last := edges[|edges| - 1];
      var m := MetricBehind(edges[..|edges| - 1], c, base);
      if last.from == c then WithEdge(m, last, true) else if last.to == c then WithEdge(m, last, false) else m
  }

  ghost predicate Metered(incident: Incident, before: Incident, edges: seq<ComponentEdge>) {
    forall c :: Metric(incident, c) == MetricBehind(edges, c, Metric(before, c))
  }

  lemma MeteredStep(incident: Incident, before: Incident, edges: seq<ComponentEdge>, e: ComponentEdge,
      incident': Incident)
    requires Metered(incident, before, edges) && e.from != e.to
    requires incident' == incident[e.from := WithEdge(Metric(incident, e.from), e, true)]
                          [e.to := WithEdge(Metric(incident, e.to), e, false)]
    ensures Metered(incident', before, edges + [e])
  {
    assert (edges + [e])[..|edges + [e]| - 1] == edges;
    forall c ensures Metric(incident', c) == MetricBehind(edges + [e], c, Metric(before, c)) {
      assert Metric(incident, c) == MetricBehind(edges, c, Metric(before, c));
    }
  }

  /** The pairs in order, each once. */
  ghost predicate ListsPairs(pairs: seq<Pair>, links: seq<Link>) {
    && NoDuplicates(pairs) && SortedBy(pairs, PairLeq)
    && forall p :: p in pairs <==> p.0 != p.1 && Count(links, p) > 0
  }

  ghost predicate ListsEdges(edges: seq<ComponentEdge>, pairs: seq<Pair>, links: seq<Link>,
      owners: map<string, string>)
  {
    |edges| == |pairs| && forall i :: 0 <= i < |edges| ==>
        edges[i] == EdgeOf(DraftOf(links, pairs[i]), pairs[i], owners)
  }

  method SortedPairs(s: set<Pair>) returns (pairs: seq<Pair>)
    ensures NoDuplicates(pairs) && SortedBy(pairs, PairLeq) && forall p :: p in pairs <==> p in s
  {
    var listed: seq<Pair> := [];
    var todo := s;
    while todo != {}
      invariant todo <= s && NoDuplicates(listed) && forall x :: x in listed <==> x in s - todo
      decreases |todo|
    {
      var x :| x in todo;
      NoDuplicatesSnoc(listed, x);
      listed := listed + [x];
      todo := todo - {x};
    }
    PairOrder();
    SortCorrect(listed, PairLeq);
    SortNoDuplicates(listed, PairLeq);
    pairs := Sort(listed, PairLeq);
  }

  method ApplyAtBothEnds(incident: Incident, e: ComponentEdge) returns (incident': Incident)
    requires e.from != e.to
    ensures incident' == incident[e.from := WithEdge(Metric(incident, e.from), e, true)]
                         [e.to := WithEdge(Metric(incident, e.to), e, false)]
  {
    var source := ApplyIncidentEdge(Metric(incident, e.from), e, true);
    incident' := incident[e.from := source];
    var target := ApplyIncidentEdge(Metric(incident', e.to), e, false);
    incident' := incident'[e.to := target];
  }

  lemma ListsEdgesStep(edges: seq<ComponentEdge>, keys: seq<Pair>, i: nat, links: seq<Link>,
      owners: map<string, string>)
    requires i < |keys| && ListsEdges(edges, keys[..i], links, owners)
    ensures ListsEdges(edges + [EdgeOf(DraftOf(links, keys[i]), keys[i], owners)], keys[..i + 1], links, owners)
  {
  }

  method EdgesFromDrafts(
    drafts: map<Pair, EdgeDraft>, owners: map<string, string>, before: Incident, ghost links: seq<Link>)
    returns (edges: seq<ComponentEdge>, incident: Incident, ghost pairs: seq<Pair>)
    requires Drafted(links, drafts)
    ensures ListsPairs(pairs, links) && ListsEdges(edges, pairs, links, owners) && Metered(incident, before, edges)
  {
    var keys := SortedPairs(drafts.Keys);
    pairs := keys;
    edges, incident := [], before;
    for i := 0 to |keys|
      invariant ListsEdges(edges, keys[..i], links, owners)
      invariant Metered(incident, before, edges)
    {
      assert keys[i] in drafts;
      var e := EdgeOf(drafts[keys[i]], keys[i], owners);
      ghost var seen := incident;
      incident := ApplyAtBothEnds(incident, e);
      MeteredStep(seen, before, edges, e, incident);
      ListsEdgesStep(edges, keys, i, links, owners);
      edges := edges + [e];
    }
    assert keys[..|keys|] == keys;
    EdgesSorted(edges, keys, links, owners);
    edges := Sort(edges, EdgeLeq);
  }

  lemma EdgesSorted(edges: seq<ComponentEdge>, pairs: seq<Pair>, links: seq<Link>, owners: map<string, string>)
    requires SortedBy(pairs, PairLeq) && ListsEdges(edges, pairs, links, owners)
    ensures Sort(edges, EdgeLeq) == edges
  {
    SortOfSorted(edges, EdgeLeq);
  }

  /** The metrics are those of the components' own reviews and links and of the edges at them. */
  ghost predicate Measures(incident: Incident, modules: seq<Module>, place: Placement, edges: seq<ComponentEdge>) {
    forall c :: Metric(incident, c) == MetricBehind(edges, c, BaseMetrics(place, modules, Links(place, modules), c))
  }

  /** The edges between components and the metrics at each of them, exactly as the links of the manifest give them. */
  method BuildComponentEdges(modules: seq<Module>, place: Placement, owners: map<string, string>)
    returns (edges: seq<ComponentEdge>, incident: Incident, ghost pairs: seq<Pair>)
    ensures ListsPairs(pairs, Links(place, modules)) && ListsEdges(edges, pairs, Links(place, modules), owners)
    ensures Measures(incident, modules, place, edges)
  {
    var drafts: map<Pair, EdgeDraft> := map[];
    var base: Incident := map[];
    for i := 0 to |modules|
      invariant Drafted(Links(place, modules[..i]), drafts)
      invariant Based(base, place, modules[..i], Links(place, modules[..i]))
    {
      assert modules[..i + 1] == modules[..i] + [modules[i]];
      assert modules[..i + 1][..i] == modules[..i];
      drafts, base := ScanModule(modules[i], place, drafts, base, modules[..i], Links(place, modules[..i]));
    }
    assert modules[..|modules|] == modules;
    edges, incident, pairs := EdgesFromDrafts(drafts, owners, base, Links(place, modules));
  }

  // ----- conservation -----

  function ModuleEdges(edges: seq<ComponentEdge>): nat {
    if edges == [] then 0 else edges[0].moduleEdges + ModuleEdges(edges[1..])
  }

  lemma {:induction false} ModuleEdgesSum(edges: seq<ComponentEdge>, pairs: seq<Pair>, links: seq<Link>)
    requires |edges| == |pairs| && forall i :: 0 <= i < |edges| ==> edges[i].moduleEdges == Count(links, pairs[i])
    ensures ModuleEdges(edges) == Sum(pairs, p => Count(links, p))
  {
    if edges != [] {
      ModuleEdgesSum(edges[1..], pairs[1..], links);
    }
  }

  /** No dependency is lost: those between components are on exactly one edge each, the others are inside of one. */
  lemma DependenciesConserved(
    modules: seq<Module>, place: Placement, owners: map<string, string>, edges: seq<ComponentEdge>, pairs: seq<Pair>)
    requires AllPlaced(place, modules)
    requires ListsPairs(pairs, Links(place, modules)) && ListsEdges(edges, pairs, Links(place, modules), owners)
    ensures ModuleEdges(edges) + Internal(Links(place, modules)) == DependencyCount(modules)
  {
    var links := Links(place, modules);
    forall i | 0 <= i < |links| && links[i].from != links[i].to ensures (links[i].from, links[i].to) in pairs {
      CountPositive(links, i);
    }
    ModuleEdgesSum(edges, pairs, links);
    CountsCover(links, pairs);
    LinksCount(place, modules);
  }

  lemma {:induction false} NeighboursBehind(
    edges: seq<ComponentEdge>, pairs: seq<Pair>, c: string, base: IncidentMetrics)
    requires |edges| == |pairs| && base.outgoing == {} && base.incoming == {}
    requires forall i :: 0 <= i < |edges| ==> pairs[i] == (edges[i].from, edges[i].to) && edges[i].from != edges[i].to
    ensures MetricBehind(edges, c, base).outgoing == Outgoing(pairs, c)
    ensures MetricBehind(edges, c, base).incoming == Incoming(pairs, c)
  {
    if edges != [] {
      var front, last := pairs[..|pairs| - 1], pairs[|pairs| - 1];
      NeighboursBehind(edges[..|edges| - 1], front, c, base);
      assert pairs == front + [last];
      OutgoingSnoc(front, last, c);
      IncomingSnoc(front, last, c);
    }
  }

  lemma NeighboursOf(
    modules: seq<Module>, place: Placement, owners: map<string, string>, edges: seq<ComponentEdge>, pairs: seq<Pair>,
    c: string)
    requires ListsPairs(pairs, Links(place, modules)) && ListsEdges(edges, pairs, Links(place, modules), owners)
    ensures var m := MetricBehind(edges, c, BaseMetrics(place, modules, Links(place, modules), c));
            m.outgoing == Outgoing(pairs, c) && m.incoming == Incoming(pairs, c)
  {
    forall i | 0 <= i < |edges| ensures pairs[i] == (edges[i].from, edges[i].to) && edges[i].from != edges[i].to {
      assert pairs[i] in pairs;
    }
    NeighboursBehind(edges, pairs, c, BaseMetrics(place, modules, Links(place, modules), c));
  }

  lemma NeighboursMeasured(
    modules: seq<Module>, place: Placement, owners: map<string, string>, edges: seq<ComponentEdge>, pairs: seq<Pair>,
    incident: Incident, c: string)
    requires ListsPairs(pairs, Links(place, modules)) && ListsEdges(edges, pairs, Links(place, modules), owners)
    requires Measures(incident, modules, place, edges)
    ensures Metric(incident, c).outgoing == Outgoing(pairs, c) && Metric(incident, c).incoming == Incoming(pairs, c)
  {
    NeighboursOf(modules, place, owners, edges, pairs, c);
  }

  /** Summed over all components, the outgoing neighbours and the incoming ones are both as many as the edges. */
  lemma NeighboursConserved(
    modules: seq<Module>, place: Placement, owners: map<string, string>, edges: seq<ComponentEdge>, pairs: seq<Pair>,
    incident: Incident, components: seq<string>)
    requires ListsPairs(pairs, Links(place, modules)) && ListsEdges(edges, pairs, Links(place, modules), owners)
    requires Measures(incident, modules, place, edges)
    requires NoDuplicates(components) && forall p :: p in pairs ==> p.0 in components && p.1 in components
    ensures Sum(components, c => |Metric(incident, c).outgoing|) == |edges|
    ensures Sum(components, c => |Metric(incident, c).incoming|) == |edges|
  {
    forall c ensures HasNeighbours(Metric(incident, c), pairs, c) {
      NeighboursMeasured(modules, place, owners, edges, pairs, incident, c);
    }
    NeighbourSums(incident, pairs, components);
  }

  ghost predicate HasNeighbours(m: IncidentMetrics, pairs: seq<Pair>, c: string) {
    m.outgoing == Outgoing(pairs, c) && m.incoming == Incoming(pairs, c)
  }

  lemma NeighbourSums(incident: Incident, pairs: seq<Pair>, components: seq<string>)
    requires forall c :: HasNeighbours(Metric(incident, c), pairs, c)
    requires NoDuplicates(pairs) && NoDuplicates(components)
    requires forall p :: p in pairs ==> p.0 in components && p.1 in components
    ensures Sum(components, c => |Metric(incident, c).outgoing|) == |pairs|
    ensures Sum(components, c => |Metric(incident, c).incoming|) == |pairs|
  {
    OutgoingCover(pairs, components);
    IncomingCover(pairs, components);
    forall c
      ensures Outgoing(pairs, c) == Metric(incident, c).outgoing && Incoming(pairs, c) == Metric(incident, c).incoming
    {
      assert HasNeighbours(Metric(incident, c), pairs, c);
    }
    SumSame(components, c => |Outgoing(pairs, c)|, c => |Metric(incident, c).outgoing|);
    SumSame(components, c => |Incoming(pairs, c)|, c => |Metric(incident, c).incoming|);
  }
}
