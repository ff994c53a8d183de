/** Directed graphs over labels: edges, walks, cycles and topological orders. */
module Graphs {
  import opened Ordering

  /** Successor lists; a label that is not a key has no outgoing edge. */
  type Graph = map<string, seq<string>>

  predicate Edge(g: Graph, a: string, b: string) {
    a in g && b in g[a]
  }

  /** Consecutive elements are joined by edges. */
  ghost predicate Chain(g: Graph, w: seq<string>) {
    forall i, j :: 0 <= i && j == i + 1 && j < |w| ==> Edge(g, w[i], w[j])
  }

  ghost predicate IsCycle(g: Graph, w: seq<string>) {
    |w| >= 2 && w[0] == w[|w| - 1] && Chain(g, w)
  }

  ghost predicate Acyclic(g: Graph) {
    forall w :: !IsCycle(g, w)
  }

  ghost predicate Walk(g: Graph, from: string, w: seq<string>, to: string) {
    |w| >= 1 && w[0] == from && w[|w| - 1] == to && Chain(g, w)
  }

  /** b is reached from a by at least one edge. */
  ghost predicate Reaches(g: Graph, a: string, b: string) {
    exists w :: |w| >= 2 && Walk(g, a, w, b)
  }

  lemma ReachesEdge(g: Graph, a: string, b: string)
    requires Edge(g, a, b)
    ensures Reaches(g, a, b)
  {
    assert Walk(g, a, [a, b], b);
  }

  lemma ReachesTransitive(g: Graph, a: string, b: string, c: string)
    requires Reaches(g, a, b) && Reaches(g, b, c)
    ensures Reaches(g, a, c)
  {
    var v :| |v| >= 2 && Walk(g, a, v, b);
    var w :| |w| >= 2 && Walk(g, b, w, c);
    var u := v + w[1..];
    assert Chain(g, u) by {
      forall i, j | 0 <= i && j == i + 1 && j < |u| ensures Edge(g, u[i], u[j]) {
        if j < |v| {
          assert u[i] == v[i] && u[j] == v[j];
        } else {
          var k := i - |v| + 1;
          assert u[i] == w[k] && u[j] == w[k + 1];
        }
      }
    }
    assert Walk(g, a, u, c);
  }

  /** A graph is acyclic exactly when no label reaches itself. */
  lemma AcyclicMeansIrreflexive(g: Graph)
    ensures Acyclic(g) <==> forall a :: !Reaches(g, a, a)
  {
    if a :| Reaches(g, a, a) {
      var w :| |w| >= 2 && Walk(g, a, w, a);
      assert IsCycle(g, w);
    }
    if w :| IsCycle(g, w) {
      assert Walk(g, w[0], w, w[0]);
      assert Reaches(g, w[0], w[0]);
    }
  }

  /** Every successor of a listed label is listed earlier. */
  ghost predicate Topological(g: Graph, order: seq<string>) {
    && NoDuplicates(order)
    && forall i, b :: 0 <= i < |order| && Edge(g, order[i], b) ==> b in order[..i]
  }

  lemma {:induction false} WalkDescends(g: Graph, order: seq<string>, w: seq<string>, i: nat)
    requires Topological(g, order) && i < |order|
    requires |w| >= 2 && Chain(g, w) && w[0] == order[i]
    ensures w[|w| - 1] in order[..i]
    decreases |w|
  {
    assert Edge(g, w[0], w[1]);
    var j :| 0 <= j < i && order[j] == w[1];
    if |w| > 2 {
      assert Chain(g, w[1..]) by {
        forall x, y | 0 <= x && y == x + 1 && y < |w[1..]| ensures Edge(g, w[1..][x], w[1..][y]) {
          assert Edge(g, w[x + 1], w[y + 1]);
        }
      }
      WalkDescends(g, order, w[1..], j);
      var k :| 0 <= k < j && order[k] == w[|w| - 1];
    }
  }

  /** A topological order that lists every label with successors excludes cycles. */
  lemma TopologicalIsAcyclic(g: Graph, order: seq<string>)
    requires Topological(g, order)
    requires forall a :: a in g ==> a in order
    ensures Acyclic(g)
  {
    forall w | |w| >= 2 && Chain(g, w) ensures w[0] != w[|w| - 1] {
      assert Edge(g, w[0], w[1]);
      var i :| 0 <= i < |order| && order[i] == w[0];
      WalkDescends(g, order, w, i);
    }
  }

  /** f carries every edge of g to an edge of h. */
  ghost predicate Carries(g: Graph, h: Graph, f: map<string, string>) {
    forall a, b :: Edge(g, a, b) ==> a in f && b in f && Edge(h, f[a], f[b])
  }

  lemma CarriedAcyclic(g: Graph, h: Graph, f: map<string, string>)
    requires Carries(g, h, f) && Acyclic(h)
    ensures Acyclic(g)
  {
    forall w ensures !IsCycle(g, w) {
      if IsCycle(g, w) {
        var image := CarriedCycle(g, h, f, w);
        assert false;
      }
    }
  }

  lemma CarriedCycle(g: Graph, h: Graph, f: map<string, string>, w: seq<string>) returns (image: seq<string>)
    requires Carries(g, h, f) && IsCycle(g, w)
    ensures IsCycle(h, image)
  {
    forall i | 0 <= i < |w| ensures w[i] in f {
      if i == 0 {
        assert Edge(g, w[0], w[1]);
      } else {
        assert Edge(g, w[i - 1], w[i]);
      }
    }
    image := seq(|w|, i requires 0 <= i < |w| => f[w[i]]);
    forall i, j | 0 <= i && j == i + 1 && j < |image| ensures Edge(h, image[i], image[j]) {
      assert Edge(g, w[i], w[j]);
    }
  }
}
