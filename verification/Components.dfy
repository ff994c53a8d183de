/** Aggregation of module dependencies into edges between components. */
module Components {
  import opened Ordering
  import opened ManifestModel

  // ----- sums over a list -----

  function Sum<T(!new)>(keys: seq<T>, f: T -> nat): nat {
    if keys == [] then 0 else f(keys[0]) + Sum(keys[1..], f)
  }

  lemma {:induction false} SumSame<T(!new)>(keys: seq<T>, f: T -> nat, g: T -> nat)
    requires forall k :: k in keys ==> f(k) == g(k)
    ensures Sum(keys, f) == Sum(keys, g)
  {
    if keys != [] {
      SumSame(keys[1..], f, g);
    }
  }

  /** Raising the summand of one listed key raises the sum by as much. */
  lemma {:induction false} SumRaised<T(!new)>(keys: seq<T>, f: T -> nat, g: T -> nat, key: T, more: nat)
    requires NoDuplicates(keys) && key in keys && g(key) == f(key) + more
    requires forall k :: k in keys && k != key ==> f(k) == g(k)
    ensures Sum(keys, g) == Sum(keys, f) + more
  {
    if keys[0] == key {
      forall k | k in keys[1..] ensures f(k) == g(k) {
        var i :| 0 <= i < |keys[1..]| && keys[1..][i] == k;
        assert keys[i + 1] == k;
      }
      SumSame(keys[1..], f, g);
    } else {
      SumRaised(keys[1..], f, g, key, more);
    }
  }

  lemma {:induction false} SumZero<T(!new)>(keys: seq<T>, f: T -> nat)
    requires forall k :: k in keys ==> f(k) == 0
    ensures Sum(keys, f) == 0
  {
    if keys != [] {
      SumZero(keys[1..], f);
    }
  }

  /** The numbers from zero below another. */
  function Below(n: nat): (s: set<int>)
    ensures |s| == n && forall x :: x in s <==> 0 <= x < n
  {
    if n == 0 then {} else Below(n - 1) + {n - 1}
  }

  // ----- links: the dependencies between components -----

  /** A dependency whose two modules belong to components. */
  datatype Link = Link(from: string, to: string, boundary: Boundary, evidence: nat, unresolved: nat)

  type Pair = (string, string)

  /** The positions of the reviews that are not resolved. */
  function OpenReviews(reviews: seq<Review>): set<int> {
    set i | 0 <= i < |reviews| && !reviews[i].resolved
  }

  function Unresolved(reviews: seq<Review>): (n: nat)
    ensures n == |OpenReviews(reviews)|
  {
    if reviews == [] then 0
    else
      var n := |reviews| - 1;
      assert OpenReviews(reviews) == OpenReviews(reviews[..n]) + if reviews[n].resolved then {} else {n};
      Unresolved(reviews[..n]) + if reviews[n].resolved then 0 else 1
  }

  type Placement = map<string, string>

  function LinkOf(place: Placement, mod: Module, d: Dependency): seq<Link> {
    if mod.id in place && d.target in place then
      [Link(place[mod.id], place[d.target], d.boundary, |d.evidence|, Unresolved(d.reviews))]
    else []
  }

  function ModuleLinks(place: Placement, mod: Module, dependencies: seq<Dependency>): seq<Link> {
    if dependencies == [] then []
    else
      ModuleLinks(place, mod, dependencies[..|dependencies| - 1]) +
      LinkOf(place, mod, dependencies[|dependencies| - 1])
  }

  function Links(place: Placement, modules: seq<Module>): seq<Link> {
    if modules == [] then []
    else
      var last := modules[|modules| - 1];
      Links(place, modules[..|modules| - 1]) + ModuleLinks(place, last, last.dependencies)
  }

  function DependencyCount(modules: seq<Module>): nat {
    if modules == [] then 0
    else DependencyCount(modules[..|modules| - 1]) + |modules[|modules| - 1].dependencies|
  }

  /** Every module and every dependency target belongs to a component. */
  ghost predicate AllPlaced(place: Placement, modules: seq<Module>) {
    forall mod :: mod in modules ==>
                    mod.id in place && forall d :: d in mod.dependencies ==> d.target in place
  }

  lemma {:induction false} ModuleLinksCount(place: Placement, mod: Module, dependencies: seq<Dependency>)
    requires mod.id in place && forall d :: d in dependencies ==> d.target in place
    ensures |ModuleLinks(place, mod, dependencies)| == |dependencies|
  {
    if dependencies != [] {
      ModuleLinksCount(place, mod, dependencies[..|dependencies| - 1]);
    }
  }

  /** Of a placed manifest no dependency is lost. */
  lemma {:induction false} LinksCount(place: Placement, modules: seq<Module>)
    requires AllPlaced(place, modules)
    ensures |Links(place, modules)| == DependencyCount(modules)
  {
    if modules != [] {
      var last := modules[|modules| - 1];
      LinksCount(place, modules[..|modules| - 1]);
      ModuleLinksCount(place, last, last.dependencies);
    }
  }

  // ----- what the links between two components add up to -----

  predicate Between(l: Link, p: Pair) {
    l.from == p.0 && l.to == p.1
  }

  function Count(links: seq<Link>, p: Pair): nat {
    if links == [] then 0
    else Count(links[..|links| - 1], p) + if Between(links[|links| - 1], p) then 1 else 0
  }

  lemma {:induction false} CountPositive(links: seq<Link>, i: nat)
    requires i < |links|
    ensures Count(links, (links[i].from, links[i].to)) > 0
  {
    if i < |links| - 1 {
      CountPositive(links[..|links| - 1], i);
    }
  }

  function EvidenceBetween(links: seq<Link>, p: Pair): nat {
    if links == [] then 0
    else
      var last := links[|links| - 1];
      EvidenceBetween(links[..|links| - 1], p) + if Between(last, p) then last.evidence else 0
  }

  function UnresolvedBetween(links: seq<Link>, p: Pair): nat {
    if links == [] then 0
    else
      var last := links[|links| - 1];
      UnresolvedBetween(links[..|links| - 1], p) + if Between(last, p) then last.unresolved else 0
  }

  function BoundariesBetween(links: seq<Link>, p: Pair): set<Boundary> {
    if links == [] then {}
    else
      var last := links[|links| - 1];
      BoundariesBetween(links[..|links| - 1], p) + if Between(last, p) then {last.boundary} else {}
  }

  function Internal(links: seq<Link>): nat {
    if links == [] then 0
    else Internal(links[..|links| - 1]) + if links[|links| - 1].from == links[|links| - 1].to then 1 else 0
  }

  /** The pairs account for all links but the internal ones. */
  lemma {:induction false} CountsCover(links: seq<Link>, pairs: seq<Pair>)
    requires NoDuplicates(pairs) && forall p :: p in pairs ==> p.0 != p.1
    requires forall i :: 0 <= i < |links| && links[i].from != links[i].to ==> (links[i].from, links[i].to) in pairs
    ensures Sum(pairs, p => Count(links, p)) + Internal(links) == |links|
  {
    if links == [] {
      SumZero(pairs, p => Count(links, p));
    } else {
      var front, last := links[..|links| - 1], links[|links| - 1];
      var key := (last.from, last.to);
      assert forall i :: 0 <= i < |front| ==> front[i] == links[i];
      CountsCover(front, pairs);
      if last.from == last.to {
        SumSame(pairs, p => Count(front, p), p => Count(links, p));
      } else {
        SumRaised(pairs, p => Count(front, p), p => Count(links, p), key, 1);
      }
    }
  }

  // ----- neighbours -----

  function Outgoing(pairs: seq<Pair>, c: string): set<string> {
    set p | p in pairs && p.0 == c :: p.1
  }

  function Incoming(pairs: seq<Pair>, c: string): set<string> {
    set p | p in pairs && p.1 == c :: p.0
  }

  lemma OutgoingSnoc(pairs: seq<Pair>, p: Pair, c: string)
    ensures Outgoing(pairs + [p], c) == Outgoing(pairs, c) + if p.0 == c then {p.1} else {}
  {
    forall x ensures x in Outgoing(pairs + [p], c) <==> x in Outgoing(pairs, c) || (p.0 == c && x == p.1) {
      assert x in Outgoing(pairs + [p], c) <==> (c, x) in pairs + [p];
      assert x in Outgoing(pairs, c) <==> (c, x) in pairs;
    }
  }

  lemma IncomingSnoc(pairs: seq<Pair>, p: Pair, c: string)
    ensures Incoming(pairs + [p], c) == Incoming(pairs, c) + if p.1 == c then {p.0} else {}
  {
    forall x ensures x in Incoming(pairs + [p], c) <==> x in Incoming(pairs, c) || (p.1 == c && x == p.0) {
      assert x in Incoming(pairs + [p], c) <==> (x, c) in pairs + [p];
      assert x in Incoming(pairs, c) <==> (x, c) in pairs;
    }
  }

  lemma OutgoingSize(front: seq<Pair>, last: Pair, c: string)
    requires last !in front
    ensures |Outgoing(front + [last], c)| == |Outgoing(front, c)| + if last.0 == c then 1 else 0
  {
    OutgoingSnoc(front, last, c);
    if last.0 == c {
      assert last.1 !in Outgoing(front, c);
    }
  }

  /** Every edge is counted once at its source. */
  lemma {:induction false} OutgoingCover(pairs: seq<Pair>, components: seq<string>)
    requires NoDuplicates(pairs) && NoDuplicates(components) && forall p :: p in pairs ==> p.0 in components
    ensures Sum(components, c => |Outgoing(pairs, c)|) == |pairs|
  {
    if pairs == [] {
      SumZero(components, c => |Outgoing(pairs, c)|);
    } else {
      var front, last := pairs[..|pairs| - 1], pairs[|pairs| - 1];
      assert pairs == front + [last];
      NoDuplicatesSnoc(front, last);
      OutgoingCover(front, components);
      forall c ensures |Outgoing(pairs, c)| == |Outgoing(front, c)| + if last.0 == c then 1 else 0 {
        OutgoingSize(front, last, c);
      }
      SumRaised(components, c => |Outgoing(front, c)|, c => |Outgoing(pairs, c)|, last.0, 1);
    }
  }

  lemma IncomingSize(front: seq<Pair>, last: Pair, c: string)
    requires last !in front
    ensures |Incoming(front + [last], c)| == |Incoming(front, c)| + if last.1 == c then 1 else 0
  {
    IncomingSnoc(front, last, c);
    if last.1 == c {
      assert last.0 !in Incoming(front, c);
    }
  }

  /** Every edge is counted once at its target. */
  lemma {:induction false} IncomingCover(pairs: seq<Pair>, components: seq<string>)
    requires NoDuplicates(pairs) && NoDuplicates(components) && forall p :: p in pairs ==> p.1 in components
    ensures Sum(components, c => |Incoming(pairs, c)|) == |pairs|
  {
    if pairs == [] {
      SumZero(components, c => |Incoming(pairs, c)|);
    } else {
      var front, last := pairs[..|pairs| - 1], pairs[|pairs| - 1];
      assert pairs == front + [last];
      NoDuplicatesSnoc(front, last);
      IncomingCover(front, components);
      forall c ensures |Incoming(pairs, c)| == |Incoming(front, c)| + if last.1 == c then 1 else 0 {
        IncomingSize(front, last, c);
      }
      SumRaised(components, c => |Incoming(front, c)|, c => |Incoming(pairs, c)|, last.1, 1);
    }
  }
}
