/** Flattening a graph onto its imported labels: an edge stands for a walk through labels left out. */
module Flattening {
  import opened Graphs

  /** Only the ends of the walk may be imported. */
  ghost predicate InnerMeta(imported: set<string>, w: seq<string>) {
    forall i :: 0 < i < |w| - 1 ==> w[i] !in imported
  }

  /** b is reached from a by a walk of at least one edge whose inner labels are not imported. */
  ghost predicate ThroughMeta(g: Graph, imported: set<string>, a: string, b: string) {
    exists w :: |w| >= 2 && Walk(g, a, w, b) && InnerMeta(imported, w)
  }

  /** The flattened graph links an imported label to exactly the other imported labels reached through the rest. */
  ghost predicate IsFlattening(g: Graph, imported: set<string>, flat: Graph) {
    && flat.Keys == imported
    && forall a, b :: a in imported ==>
         (Edge(flat, a, b) <==> b in imported && b != a && ThroughMeta(g, imported, a, b))
  }

  lemma ThroughMetaEdge(g: Graph, imported: set<string>, a: string, b: string)
    requires Edge(g, a, b)
    ensures ThroughMeta(g, imported, a, b)
  {
    assert Walk(g, a, [a, b], b) && InnerMeta(imported, [a, b]);
  }

  lemma ThroughMetaPrepend(g: Graph, imported: set<string>, a: string, b: string, c: string)
    requires Edge(g, a, b) && b !in imported && ThroughMeta(g, imported, b, c)
    ensures ThroughMeta(g, imported, a, c)
  {
    var w :| |w| >= 2 && Walk(g, b, w, c) && InnerMeta(imported, w);
    var u := [a] + w;
    assert Chain(g, u) by {
      forall i, j | 0 <= i && j == i + 1 && j < |u| ensures Edge(g, u[i], u[j]) {
        if i > 0 {
          assert Edge(g, w[i - 1], w[j - 1]);
        }
      }
    }
    assert Walk(g, a, u, c) && InnerMeta(imported, u);
  }

  lemma WalkSuffix(g: Graph, w: seq<string>, i: nat)
    requires Chain(g, w) && i <= |w|
    ensures Chain(g, w[i..]) && Chain(g, w[..i])
  {
    forall x, y | 0 <= x && y == x + 1 && y < |w[i..]| ensures Edge(g, w[i..][x], w[i..][y]) {
      assert Edge(g, w[i + x], w[i + y]);
    }
  }

  lemma FirstImported(imported: set<string>, w: seq<string>) returns (i: nat)
    requires |w| >= 2 && w[|w| - 1] in imported
    ensures 1 <= i < |w| && w[i] in imported && InnerMeta(imported, w[..i + 1])
  {
    i := 1;
    while w[i] !in imported
      invariant 1 <= i < |w| && forall j :: 1 <= j < i ==> w[j] !in imported
      decreases |w| - i
    {
      i := i + 1;
    }
  }

  lemma {:induction false} WalkIsFlat(
    g: Graph, imported: set<string>, flat: Graph, a: string, w: seq<string>, b: string)
    requires IsFlattening(g, imported, flat)
    requires a in imported && b in imported && a != b && |w| >= 2 && Walk(g, a, w, b)
    ensures Reaches(flat, a, b)
    decreases |w|
  {
    var i := FirstImported(imported, w);
    var c := w[i];
    WalkSuffix(g, w, i);
    WalkSuffix(g, w, i + 1);
    assert Walk(g, a, w[..i + 1], c);
    assert ThroughMeta(g, imported, a, c);
    if c == b {
      ReachesEdge(flat, a, b);
    } else {
      assert Walk(g, c, w[i..], b);
      WalkIsFlat(g, imported, flat, c, w[i..], b);
      if c != a {
        ReachesEdge(flat, a, c);
        ReachesTransitive(flat, a, c, b);
      }
    }
  }

  lemma {:induction false} FlatIsWalk(g: Graph, imported: set<string>, flat: Graph, a: string, w: seq<string>,
      b: string)
    requires IsFlattening(g, imported, flat)
    requires |w| >= 2 && Walk(flat, a, w, b)
    ensures Reaches(g, a, b)
    decreases |w|
  {
    assert Edge(flat, w[0], w[1]);
    assert ThroughMeta(g, imported, a, w[1]);
    assert Reaches(g, a, w[1]);
    if |w| > 2 {
      WalkSuffix(flat, w, 1);
      assert Walk(flat, w[1], w[1..], b);
      FlatIsWalk(g, imported, flat, w[1], w[1..], b);
      ReachesTransitive(g, a, w[1], b);
    }
  }

  /** Between distinct imported labels, the flattened graph has exactly the reachability of the full one. */
  lemma FlatteningPreservesReachability(g: Graph, imported: set<string>, flat: Graph, a: string, b: string)
    requires IsFlattening(g, imported, flat)
    requires a in imported && b in imported && a != b
    ensures Reaches(flat, a, b) <==> Reaches(g, a, b)
  {
    if Reaches(flat, a, b) {
      var w :| |w| >= 2 && Walk(flat, a, w, b);
      FlatIsWalk(g, imported, flat, a, w, b);
    }
    if Reaches(g, a, b) {
      var w :| |w| >= 2 && Walk(g, a, w, b);
      WalkIsFlat(g, imported, flat, a, w, b);
    }
  }

  /** The flattened graph has a cycle exactly when two distinct imported labels lie on one cycle of the full graph. */
  lemma FlatteningCycles(g: Graph, imported: set<string>, flat: Graph)
    requires IsFlattening(g, imported, flat)
    ensures Acyclic(flat) <==>
            !exists a, b :: a in imported && b in imported && a != b && Reaches(g, a, b) && Reaches(g, b, a)
  {
    AcyclicMeansIrreflexive(flat);
    if a :| Reaches(flat, a, a) {
      var w :| |w| >= 2 && Walk(flat, a, w, a);
      var b := w[1];
      assert Edge(flat, w[0], b);
      WalkSuffix(flat, w, 1);
      assert |w| > 2;
      assert Walk(flat, b, w[1..], a);
      assert Edge(flat, w[1], w[2]);
      FlatIsWalk(g, imported, flat, b, w[1..], a);
      ReachesEdge(flat, a, b);
      FlatteningPreservesReachability(g, imported, flat, a, b);
    }
    if a, b :| a in imported && b in imported && a != b && Reaches(g, a, b) && Reaches(g, b, a) {
      FlatteningPreservesReachability(g, imported, flat, a, b);
      FlatteningPreservesReachability(g, imported, flat, b, a);
      ReachesTransitive(flat, a, b, a);
    }
  }

  // ----- the closure reached by the depth-first collection -----

  /** x has been dealt with: collected when imported, visited otherwise. */
  predicate Handled(selected: set<string>, imported: set<string>, visited: set<string>, result: set<string>,
      x: string)
  {
    x in selected ==> if x in imported then x in result else x in visited
  }

  /** When every visited label's successors are handled, so is everything reached through unimported labels. */
  lemma {:induction false} HandledClosure(
    g: Graph, selected: set<string>, imported: set<string>, visited: set<string>, result: set<string>,
    w: seq<string>)
    requires |w| >= 1 && Chain(g, w) && (forall i :: 0 <= i < |w| - 1 ==> w[i] !in imported)
    requires forall i :: 0 <= i < |w| ==> w[i] in selected
    requires forall v, b :: v in visited && Edge(g, v, b) ==> Handled(selected, imported, visited, result, b)
    requires Handled(selected, imported, visited, result, w[0])
    ensures Handled(selected, imported, visited, result, w[|w| - 1])
    decreases |w|
  {
    if |w| > 1 {
      assert Edge(g, w[0], w[1]);
      WalkSuffix(g, w, 1);
      HandledClosure(g, selected, imported, visited, result, w[1..]);
    }
  }
}
