/** The three-colour depth-first cycle finder of manifest validation and of the Mojo target graph. */
module CycleSearch {
  import opened Wrappers
  import opened Graphs
  import opened Ordering

  datatype Visit = Active | Complete

  /** Every label the search can meet. */
  ghost function Labels(g: Graph): set<string> {
    g.Keys + set a, b | a in g && b in g[a] :: b
  }

  /** Active labels are exactly the stack, which is a simple path; completed labels are topologically ordered. */
  ghost predicate Consistent(g: Graph, states: map<string, Visit>, stack: seq<string>, finished: seq<string>) {
    && NoDuplicates(stack) && Chain(g, stack)
    && Topological(g, finished)
    && (forall id :: id in states && states[id].Active? <==> id in stack)
    && (forall id :: id in states && states[id].Complete? <==> id in finished)
  }

  method Position(stack: seq<string>, id: string) returns (p: Option<nat>)
    ensures p.Some? ==> p.value < |stack| && stack[p.value] == id && id !in stack[..p.value]
    ensures p.None? ==> id !in stack
  {
    for k := 0 to |stack|
      invariant id !in stack[..k]
    {
      if stack[k] == id {
        return Some(k);
      }
    }
    return None;
  }

  class Search {
    const graph: Graph
    var states: map<string, Visit>
    var stack: seq<string>
    ghost var finished: seq<string>

    constructor (graph: Graph)
      ensures Valid() && this.graph == graph && stack == [] && finished == [] && states == map[]
    {
      this.graph := graph;
      states := map[];
      stack := [];
      finished := [];
    }

    ghost predicate Valid()
      reads this
    {
      Consistent(graph, states, stack, finished)
    }

    method Visit(id: string) returns (cycle: Option<seq<string>>)
      requires Valid() && id in Labels(graph)
      requires stack != [] ==> Edge(graph, stack[|stack| - 1], id)
      modifies this`states, this`stack, this`finished
      ensures Valid()
      ensures old(states.Keys) <= states.Keys
      ensures cycle.None? ==> stack == old(stack) && old(finished) <= finished && id in finished
      ensures cycle.Some? ==> IsCycle(graph, cycle.value) && NoDuplicates(cycle.value[1..])
      decreases Labels(graph) - states.Keys
    {
      hide Consistent, NoDuplicates, Chain, Topological, IsCycle;
      if id in states {
        SeenBefore(graph, states, stack, finished, id);
        if states[id].Complete? {
          return None;
        }
        var found := Position(stack, id);
        assert found.Some?;
        var start := match found { case Some(p) => p case None => 0 };
        var closed := stack[start..] + [id];
        CycleCloses(graph, stack, start, id);
        return Some(closed);
      }
      PushKeepsConsistent(graph, states, stack, finished, id);
      states := states[id := Active];
      stack := stack + [id];
      if id in graph {
        var dependencies := graph[id];
        for k := 0 to |dependencies|
          invariant Valid() && stack == old(stack) + [id] && old(finished) <= finished
          invariant old(states.Keys) + {id} <= states.Keys
          invariant forall j :: 0 <= j < k ==> dependencies[j] in finished
        {
          assert Edge(graph, id, dependencies[k]);
          cycle := Visit(dependencies[k]);
          if cycle.Some? {
            return;
          }
        }
      }
      FinishKeepsConsistent(graph, states, old(stack), finished, id);
      stack := stack[..|stack| - 1];
      states := states[id := Complete];
      finished := finished + [id];
      return None;
    }
  }

  lemma SeenBefore(g: Graph, states: map<string, Visit>, stack: seq<string>, finished: seq<string>, id: string)
    requires Consistent(g, states, stack, finished) && id in states
    ensures if states[id].Complete? then id in finished else id in stack
    ensures NoDuplicates(stack) && Chain(g, stack)
  {
  }

  lemma CycleCloses(g: Graph, stack: seq<string>, start: nat, id: string)
    requires start < |stack| && stack[start] == id && NoDuplicates(stack) && Chain(g, stack)
    requires Edge(g, stack[|stack| - 1], id)
    ensures IsCycle(g, stack[start..] + [id]) && NoDuplicates((stack[start..] + [id])[1..])
  {
    var w := stack[start..] + [id];
    forall i, j | 0 <= i && j == i + 1 && j < |w| ensures Edge(g, w[i], w[j]) {
      if j < |stack| - start {
        assert w[i] == stack[start + i] && w[j] == stack[start + j];
      }
    }
    forall i, j | 0 <= i < j < |w[1..]| ensures w[1..][i] != w[1..][j] {
      assert w[1..][i] == stack[start + 1 + i];
      if j < |w[1..]| - 1 {
        assert w[1..][j] == stack[start + 1 + j];
      }
    }
  }

  lemma PushKeepsConsistent(
    g: Graph, states: map<string, Visit>, stack: seq<string>, finished: seq<string>, id: string)
    requires Consistent(g, states, stack, finished) && id !in states
    requires stack != [] ==> Edge(g, stack[|stack| - 1], id)
    ensures Consistent(g, states[id := Active], stack + [id], finished)
  {
  }

  lemma FinishKeepsConsistent(
    g: Graph, states: map<string, Visit>, stack: seq<string>, finished: seq<string>, id: string)
    requires Consistent(g, states, stack + [id], finished)
    requires forall b :: Edge(g, id, b) ==> b in finished
    ensures Consistent(g, states[id := Complete], stack, finished + [id])
  {
    assert (stack + [id])[|stack|] == id;
    assert id in stack + [id];
    assert forall x :: x in stack + [id] <==> x in stack || x == id;
    assert forall x :: x in finished + [id] <==> x in finished || x == id;
    assert forall i :: 0 <= i < |stack| ==> (stack + [id])[i] == stack[i];
    forall i, b | 0 <= i < |finished + [id]| && Edge(g, (finished + [id])[i], b)
      ensures b in (finished + [id])[..i]
    {
      assert (finished + [id])[..i] == finished[..i];
    }
  }

  /** Search from every root: a simple cycle of real edges, or an order that proves there is none. */
  method FindCycle(graph: Graph, roots: seq<string>) returns (cycle: Option<seq<string>>, ghost order: seq<string>)
    requires forall r :: r in roots <==> r in graph
    ensures cycle.Some? ==> IsCycle(graph, cycle.value) && NoDuplicates(cycle.value[1..])
    ensures cycle.None? ==> Topological(graph, order) && forall a :: a in graph ==> a in order
    ensures cycle.None? <==> Acyclic(graph)
  {
    var search := new Search(graph);
    for k := 0 to |roots|
      invariant search.Valid() && search.stack == [] && search.graph == graph
      invariant fresh(search)
      invariant forall j :: 0 <= j < k ==> roots[j] in search.finished
    {
      cycle := search.Visit(roots[k]);
      if cycle.Some? {
        order := [];
        return;
      }
    }
    order := search.finished;
    TopologicalIsAcyclic(graph, order);
    return None, order;
  }
}
