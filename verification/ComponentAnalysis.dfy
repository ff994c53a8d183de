/** The component graph of a whole manifest. */
module ComponentAnalysis {
  import opened Ordering
  import opened ManifestModel
  import opened Components
  import opened ComponentCounts
  import opened ComponentGroups
  import opened ComponentEdges
  import opened ComponentIds
  import opened ComponentMeaning
  import Validation

  function Owners(groups: seq<Group>, ids: seq<string>): (owners: map<string, string>)
    requires |ids| == |groups|
  {
    if groups == [] then map[]
    else
      var n := |groups| - 1;
      Owners(groups[..n], ids[..n])[ids[n] := groups[n].key.owner]
  }

  /** A component is owned by the owner of its group, the last one where components share an id. */
  lemma {:induction false} OwnerListed(groups: seq<Group>, ids: seq<string>, i: nat)
    requires |ids| == |groups| && i < |ids| && forall j :: i < j < |ids| ==> ids[j] != ids[i]
    ensures ids[i] in Owners(groups, ids) && Owners(groups, ids)[ids[i]] == groups[i].key.owner
  {
    var n := |groups| - 1;
    if i < n {
      OwnerListed(groups[..n], ids[..n], i);
    }
  }

  /** Groups, ids and places of a manifest belong together. */
  ghost predicate Placed(
    m: Manifest, keyOf: Module -> GroupKey, hash: Hash, groups: seq<Group>, ids: seq<string>, place: Placement)
  {
    && IsGrouping(m.modules, keyOf, groups) && |ids| == |groups| && AssignedIds(hash, groups, ids)
    && forall id :: id in place ==> ComponentGroups.Holds(groups, ids, id, place[id])
  }

  /** No dependency, no evidence item, no open review and no edge is lost: dependencies with their items and reviews
      are on one edge or inside of a component, and every edge is at one outgoing and at one incoming end. */
  ghost predicate Conserved(
    m: Manifest, ids: seq<string>, place: Placement, edges: seq<ComponentEdge>, incident: Incident)
  {
    && AllPlaced(place, m.modules)
    && ModuleEdges(edges) + Internal(Links(place, m.modules)) == DependencyCount(m.modules)
    && EdgeEvidence(edges) + |Positions(place, m.modules, Inside(), Items())| == |Everywhere(m.modules, Items())|
    && EdgeReviews(edges) + |Positions(place, m.modules, Inside(), Open())| == |Everywhere(m.modules, Open())|
    && forall components :: NoDuplicates(components) && (forall id :: id in ids ==> id in components) ==>
         Balanced(components, edges, incident) &&
         Sum(components, OwnCount(place, m.modules)) == |ModuleReviews(m.modules)|
  }

  /** Every edge leaves one component and enters one. */
  ghost predicate Balanced(components: seq<string>, edges: seq<ComponentEdge>, incident: Incident) {
    && Sum(components, c => |Metric(incident, c).outgoing|) == |edges|
    && Sum(components, c => |Metric(incident, c).incoming|) == |edges|
  }

  /** Links join components that have ids. */
  lemma {:induction false} LinksAmongIds(place: Placement, modules: seq<Module>, names: set<string>)
    requires forall id :: id in place ==> place[id] in names
    ensures forall l :: l in Links(place, modules) ==> l.from in names && l.to in names
  {
    if modules != [] {
      var last := modules[|modules| - 1];
      LinksAmongIds(place, modules[..|modules| - 1], names);
      ModuleLinksAmongIds(place, last, last.dependencies, names);
    }
  }

  lemma {:induction false} ModuleLinksAmongIds(
    place: Placement, mod: Module, dependencies: seq<Dependency>, names: set<string>)
    requires forall id :: id in place ==> place[id] in names
    ensures forall l :: l in ModuleLinks(place, mod, dependencies) ==> l.from in names && l.to in names
  {
    if dependencies != [] {
      ModuleLinksAmongIds(place, mod, dependencies[..|dependencies| - 1], names);
    }
  }

  lemma {:induction false} CountedPair(links: seq<Link>, p: Pair, names: set<string>)
    requires forall l :: l in links ==> l.from in names && l.to in names
    requires Count(links, p) > 0
    ensures p.0 in names && p.1 in names
  {
    var n := |links| - 1;
    if !Between(links[n], p) {
      assert forall l :: l in links[..n] ==> l in links;
      CountedPair(links[..n], p, names);
    } else {
      assert links[n] in links;
    }
  }

  lemma PairsAmongIds(
    m: Manifest, groups: seq<Group>, ids: seq<string>, place: Placement, pairs: seq<Pair>, components: seq<string>)
    requires forall id :: id in place ==> ComponentGroups.Holds(groups, ids, id, place[id])
    requires forall id :: id in ids ==> id in components
    requires ListsPairs(pairs, Links(place, m.modules))
    ensures forall p :: p in pairs ==> p.0 in components && p.1 in components
  {
    var names := set c | c in components;
    forall id | id in place ensures place[id] in names {
      var i, j :| 0 <= i < |groups| && i < |ids| && 0 <= j < |groups[i].modules| &&
                  groups[i].modules[j].id == id && ids[i] == place[id];
      assert ids[i] in ids;
    }
    LinksAmongIds(place, m.modules, names);
    forall p | p in pairs ensures p.0 in components && p.1 in components {
      CountedPair(Links(place, m.modules), p, names);
    }
  }

  lemma PlacedAmongIds(m: Manifest, groups: seq<Group>, ids: seq<string>, place: Placement, components: seq<string>)
    requires forall id :: id in place ==> ComponentGroups.Holds(groups, ids, id, place[id])
    requires forall id :: id in ids ==> id in components
    requires AllPlaced(place, m.modules)
    ensures forall mod :: mod in m.modules ==> mod.id in place && place[mod.id] in components
  {
    forall mod | mod in m.modules ensures place[mod.id] in components {
      var id := mod.id;
      var i, j :| 0 <= i < |groups| && i < |ids| && 0 <= j < |groups[i].modules| &&
                  groups[i].modules[j].id == id && ids[i] == place[id];
      assert ids[i] in ids;
    }
  }

  lemma BalancedOver(
    m: Manifest, groups: seq<Group>, ids: seq<string>, place: Placement, edges: seq<ComponentEdge>,
    incident: Incident, pairs: seq<Pair>, components: seq<string>)
    requires |ids| == |groups| && forall id :: id in place ==> ComponentGroups.Holds(groups, ids, id, place[id])
    requires AllPlaced(place, m.modules)
    requires ListsPairs(pairs, Links(place, m.modules))
    requires ListsEdges(edges, pairs, Links(place, m.modules), Owners(groups, ids))
    requires Measures(incident, m.modules, place, edges)
    requires NoDuplicates(components) && forall id :: id in ids ==> id in components
    ensures Balanced(components, edges, incident)
    ensures Sum(components, OwnCount(place, m.modules)) == |ModuleReviews(m.modules)|
  {
    hide AllPlaced, ListsPairs, ListsEdges, Measures, ComponentGroups.Holds, ModuleReviews, OwnCount, Owners;
    PlacedAmongIds(m, groups, ids, place, components);
    ModuleReviewsConserved(place, m.modules, components);
    PairsAmongIds(m, groups, ids, place, pairs, components);
    NeighboursConserved(m.modules, place, Owners(groups, ids), edges, pairs, incident, components);
  }

  lemma AnalysisConserved(
    m: Manifest, keyOf: Module -> GroupKey, hash: Hash, groups: seq<Group>, ids: seq<string>, place: Placement,
    edges: seq<ComponentEdge>, incident: Incident, pairs: seq<Pair>)
    requires Validation.WellFormed(m) && Placed(m, keyOf, hash, groups, ids, place)
    requires forall i, j :: 0 <= i < |groups| && i < |ids| && 0 <= j < |groups[i].modules| ==>
               groups[i].modules[j].id in place
    requires ListsPairs(pairs, Links(place, m.modules))
    requires ListsEdges(edges, pairs, Links(place, m.modules), Owners(groups, ids))
    requires Measures(incident, m.modules, place, edges)
    ensures Conserved(m, ids, place, edges, incident)
  {
    hide Validation.WellFormed, IsGrouping, AllPlaced, ListsPairs, ListsEdges, Measures, ComponentGroups.Holds,
         AssignedIds, Positions, Everywhere, ModuleReviews, OwnCount, Sum;
    PlacedWhenWellFormed(m, keyOf, groups, ids, place);
    ItemsConserved(m.modules, place, Owners(groups, ids), edges, pairs);
    DependenciesConserved(m.modules, place, Owners(groups, ids), edges, pairs);
    forall components | NoDuplicates(components) && (forall id :: id in ids ==> id in components)
      ensures Balanced(components, edges, incident)
      ensures Sum(components, OwnCount(place, m.modules)) == |ModuleReviews(m.modules)|
    {
      BalancedOver(m, groups, ids, place, edges, incident, pairs, components);
    }
  }

  method CollectOwners(groups: seq<Group>, ids: seq<string>) returns (owners: map<string, string>)
    requires |ids| == |groups|
    ensures owners == Owners(groups, ids)
  {
    owners := map[];
    for i := 0 to |groups|
      invariant owners == Owners(groups[..i], ids[..i])
    {
      assert groups[..i + 1][..i] == groups[..i] && ids[..i + 1][..i] == ids[..i];
      owners := owners[ids[i] := groups[i].key.owner];
    }
    assert groups[..|groups|] == groups && ids[..|ids|] == ids;
  }

  /** From the manifest to the edges between its components: whatever owners, paths and hashes there are, a
      well-formed manifest loses no module, no dependency and no edge. */
  method AnalyzeEdges(m: Manifest, keyOf: Module -> GroupKey, hash: Hash)
    returns (groups: seq<Group>, ids: seq<string>, place: Placement, edges: seq<ComponentEdge>, incident: Incident)
    ensures Placed(m, keyOf, hash, groups, ids, place)
    ensures GroupedCount(groups) == |m.modules| && GroupsInOrder(groups)
    ensures exists pairs :: ListsPairs(pairs, Links(place, m.modules)) &&
                            ListsEdges(edges, pairs, Links(place, m.modules), Owners(groups, ids))
    ensures Measures(incident, m.modules, place, edges)
    ensures InOrder(edges) && forall e :: e in edges ==> EdgeMeans(e, place, m.modules, Owners(groups, ids))
    ensures forall from, to: string ::
              from != to && Positions(place, m.modules, Joining(from, to), One()) != {} ==>
                exists e :: e in edges && e.from == from && e.to == to
    ensures forall c :: MetricMeans(Metric(incident, c), c, place, m.modules, edges)
    ensures Validation.WellFormed(m) ==> Conserved(m, ids, place, edges, incident)
  {
    hide Validation.WellFormed, IsGrouping, AssignedIds, ListsPairs, ListsEdges, Measures, Conserved,
         ComponentGroups.Holds, GroupsInOrder, EdgeMeans, InOrder, MetricMeans, Positions;
    groups := BuildGroups(m.modules, keyOf);
    GroupsPartition(m.modules, keyOf, groups);
    ids := AssignComponentIds(hash, groups);
    place := MapModulesToComponents(groups, ids);
    var owners := CollectOwners(groups, ids);
    ghost var pairs;
    edges, incident, pairs := BuildComponentEdges(m.modules, place, owners);
    EdgesCounted(m.modules, place, owners, edges, pairs);
    forall c ensures MetricMeans(Metric(incident, c), c, place, m.modules, edges) {
      MetricsCounted(m.modules, place, owners, edges, pairs, incident, c);
    }
    if Validation.WellFormed(m) {
      AnalysisConserved(m, keyOf, hash, groups, ids, place, edges, incident, pairs);
    }
  }
}
