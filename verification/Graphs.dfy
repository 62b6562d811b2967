/** Directed graphs over string ids, cycles, and the orders that rule them out. */
module Graphs {
  import opened Values

  type Id = string

  /** Each present node with its targets; targets need not be present. */
  type Graph = map<Id, seq<Id>>

  ghost predicate Edge(g: Graph, a: Id, b: Id) {
    a in g && b in g && b in g[a]
  }

  ghost predicate IsPath(g: Graph, p: seq<Id>) {
    p != [] && forall i :: 0 <= i < |p| - 1 ==> Edge(g, p[i], p[i + 1])
  }

  ghost predicate Cycle(g: Graph, p: seq<Id>) {
    |p| >= 2 && IsPath(g, p) && p[0] == p[|p| - 1]
  }

  ghost predicate CycleAt(g: Graph, id: Id) {
    exists p :: Cycle(g, p) && p[0] == id
  }

  ghost predicate Acyclic(g: Graph) {
    forall p :: !Cycle(g, p)
  }

  ghost predicate Reaches(g: Graph, a: Id, b: Id) {
    exists p :: IsPath(g, p) && p[0] == a && p[|p| - 1] == b
  }

  /** Every present target of a listed node is listed before it. */
  ghost predicate Ordered(g: Graph, order: seq<Id>) {
    forall i, b :: 0 <= i < |order| && Edge(g, order[i], b) ==> b in order[..i]
  }

  lemma OrderedMore(g: Graph, order: seq<Id>, id: Id)
    requires Ordered(g, order) && forall b :: Edge(g, id, b) ==> b in order
    ensures Ordered(g, order + [id])
  {
    var more := order + [id];
    forall i, b | 0 <= i < |more| && Edge(g, more[i], b) ensures b in more[..i] {
      assert more[..i] == order[..i];
    }
  }

  /** A path from the i-th node of an order stays among the nodes before it. */
  lemma {:induction false} PathDescends(g: Graph, order: seq<Id>, p: seq<Id>, i: nat)
    requires Ordered(g, order) && IsPath(g, p) && |p| >= 2 && i < |order| && p[0] == order[i]
    ensures p[|p| - 1] in order[..i]
  {
    assert Edge(g, p[0], p[1]);
    if |p| > 2 {
      var j :| 0 <= j < i && order[j] == p[1];
      forall k | 0 <= k < |p| - 2 ensures Edge(g, p[1..][k], p[1..][k + 1]) {
        assert Edge(g, p[k + 1], p[k + 2]);
      }
      PathDescends(g, order, p[1..], j);
      assert order[..j] <= order[..i];
    }
  }

  lemma OrderedHasNoCycle(g: Graph, order: seq<Id>)
    requires Ordered(g, order) && forall id :: id in g ==> id in order
    ensures Acyclic(g)
  {
    forall p ensures !Cycle(g, p) {
      if Cycle(g, p) {
        NoCycleFrom(g, order, p);
      }
    }
  }

  lemma {:induction false} NoCycleFrom(g: Graph, order: seq<Id>, p: seq<Id>)
    requires Ordered(g, order) && p != [] && forall id :: id in g ==> id in order
    ensures !Cycle(g, p)
  {
    if Cycle(g, p) {
      assert Edge(g, p[0], p[1]);
      var i := FirstIndex(order, p[0]);
      PathDescends(g, order, p, i);
    }
  }

  lemma FirstIndex(order: seq<Id>, id: Id) returns (i: nat)
    requires id in order
    ensures i < |order| && order[i] == id && id !in order[..i]
  {
    i := 0;
    while order[i] != id
      invariant 0 <= i < |order| && id !in order[..i] && id in order[i..]
      decreases |order| - i
    {
      assert order[..i + 1] == order[..i] + [order[i]];
      i := i + 1;
    }
  }

  /** The node being revisited closes a cycle through the tail of the current path. */
  lemma ClosedPath(g: Graph, stack: seq<Id>, id: Id)
    requires IsPath(g, stack) && id in stack && Edge(g, stack[|stack| - 1], id)
    ensures CycleAt(g, id)
  {
    var k := FirstIndex(stack, id);
    var p := stack[k..] + [id];
    forall i | 0 <= i < |p| - 1 ensures Edge(g, p[i], p[i + 1]) {
      if k + i + 1 < |stack| {
        assert Edge(g, stack[k + i], stack[k + i + 1]);
      }
    }
    assert Cycle(g, p);
  }

  lemma PathMore(g: Graph, stack: seq<Id>, id: Id)
    requires stack == [] || (IsPath(g, stack) && Edge(g, stack[|stack| - 1], id))
    ensures IsPath(g, stack + [id])
  {
    var p := stack + [id];
    forall i | 0 <= i < |p| - 1 ensures Edge(g, p[i], p[i + 1]) {
      if i + 1 < |stack| {
        assert Edge(g, stack[i], stack[i + 1]);
      }
    }
  }

  /** Depth-first search with the sets of open and finished nodes. */
  class DepthFirst {
    const graph: Graph
    var visiting: set<Id>
    var visited: set<Id>
    ghost var stack: seq<Id>
    ghost var order: seq<Id>

    constructor (g: Graph)
      ensures graph == g && Valid() && stack == [] && visited == {}
    {
      graph, visiting, visited, stack, order := g, {}, {}, [], [];
    }

    /** The open nodes form a path; the finished ones are closed under edges and ordered. */
    ghost predicate Valid()
      reads this
    {
      && (forall id :: id in visiting <==> id in stack)
      && (forall id :: id in visited <==> id in order)
      && visiting !! visited && visiting <= graph.Keys
      && (stack == [] || IsPath(graph, stack))
      && Ordered(graph, order)
    }

    /** Visits one node; a node found open again lies on a cycle. */
    method Visit(id: Id) returns (cycle: Option<Id>)
      requires Valid() && id in graph
      requires stack != [] ==> Edge(graph, stack[|stack| - 1], id)
      modifies this
      ensures cycle.None? ==> Valid() && stack == old(stack) && visiting == old(visiting)
      ensures cycle.None? ==> old(visited) <= visited && id in visited
      ensures cycle.Some? ==> CycleAt(graph, cycle.value)
      decreases graph.Keys - visiting - visited
    {
      if id in visiting {
        ClosedPath(graph, stack, id);
        return Some(id);
      }
      if id in visited {
        return None;
      }
      PathMore(graph, stack, id);
      ghost var outer := stack;
      visiting, stack := visiting + {id}, stack + [id];
      for i := 0 to |graph[id]|
        invariant Valid() && stack == outer + [id] && visiting == old(visiting) + {id} && old(visited) <= visited
        invariant forall k :: 0 <= k < i && graph[id][k] in graph ==> graph[id][k] in visited
      {
        var target := graph[id][i];
        if target in graph {
          assert id in graph.Keys - old(visiting) - old(visited);
          assert graph.Keys - visiting - visited <= graph.Keys - old(visiting) - old(visited);
          cycle := Visit(target);
          if cycle.Some? {
            return;
          }
        }
      }
      OrderedMore(graph, order, id);
      if outer != [] {
        assert forall i :: 0 <= i < |outer| - 1 ==> Edge(graph, stack[i], stack[i + 1]);
        assert IsPath(graph, outer);
      }
      visiting, visited, stack, order := visiting - {id}, visited + {id}, outer, order + [id];
      cycle := None;
    }
  }

  /** Throws, naming a node on a cycle, exactly when the present nodes contain one. */
  method AssertAcyclic(g: Graph) returns (cycle: Option<Id>)
    ensures cycle.None? <==> Acyclic(g)
    ensures cycle.Some? ==> CycleAt(g, cycle.value)
  {
    var search := new DepthFirst(g);
    var keys := g.Keys;
    while keys != {}
      invariant fresh(search) && search.graph == g && search.Valid() && search.stack == []
      invariant keys <= g.Keys && forall id :: id in g && id !in keys ==> id in search.visited
      decreases |keys|
    {
      var id :| id in keys;
      cycle := search.Visit(id);
      if cycle.Some? {
        return;
      }
      keys := keys - {id};
    }
    OrderedHasNoCycle(g, search.order);
    cycle := None;
  }

  // ---------------------------------------------------------------- one more edge

  ghost function WithEdge(g: Graph, a: Id, b: Id): Graph
    requires a in g
  {
    g[a := g[a] + [b]]
  }

  /** Adding an edge keeps a graph acyclic exactly when its target does not reach its source. */
  lemma AcyclicWithEdge(g: Graph, a: Id, b: Id)
    requires Acyclic(g) && a in g && b in g
    ensures Acyclic(WithEdge(g, a, b)) <==> !Reaches(g, b, a)
  {
    var h := WithEdge(g, a, b);
    if Reaches(g, b, a) {
      var p :| IsPath(g, p) && p[0] == b && p[|p| - 1] == a;
      forall i | 0 <= i < |p| - 1 ensures Edge(h, p[i], p[i + 1]) {
        assert Edge(g, p[i], p[i + 1]);
      }
      PathMore(h, p, b);
      assert Cycle(h, p + [b]);
    } else {
      forall p ensures !Cycle(h, p) {
        if Cycle(h, p) {
          CycleUsesEdge(g, a, b, p);
        }
      }
    }
  }

  /** A new cycle runs through the new edge, and its remainder is an old path back. */
  lemma CycleUsesEdge(g: Graph, a: Id, b: Id, p: seq<Id>)
    requires Acyclic(g) && a in g && b in g && Cycle(WithEdge(g, a, b), p)
    ensures Reaches(g, b, a)
  {
    var h := WithEdge(g, a, b);
    if forall i :: 0 <= i < |p| - 1 ==> Edge(g, p[i], p[i + 1]) {
      assert Cycle(g, p);
    } else {
      var k :| 0 <= k < |p| - 1 && !Edge(g, p[k], p[k + 1]);
      assert Edge(h, p[k], p[k + 1]);
      OldPath(g, a, b, Rotated(h, p, k));
    }
  }

  /** The cycle read from its k-th edge on: from that edge's target back to its source. */
  ghost function Rotated(g: Graph, p: seq<Id>, k: nat): (q: seq<Id>)
    requires Cycle(g, p) && k < |p| - 1
    ensures IsPath(g, q) && q[0] == p[k + 1] && q[|q| - 1] == p[k]
  {
    RotatedIsPath(g, p, k);
    seq(|p| - 1, i requires 0 <= i < |p| - 1 => p[RotatedIndex(|p|, k, i)])
  }

  /** The cycle ends where it starts, so that its last position is skipped for its first. */
  function RotatedIndex(length: nat, k: nat, i: nat): (j: nat)
    requires k < length - 1 && i < length - 1
    ensures j < length
  {
    if k + 1 + i < length then k + 1 + i else k + 2 + i - length
  }

  lemma RotatedIsPath(g: Graph, p: seq<Id>, k: nat)
    requires Cycle(g, p) && k < |p| - 1
    ensures forall i :: 0 <= i < |p| - 2 ==> Edge(g, p[RotatedIndex(|p|, k, i)], p[RotatedIndex(|p|, k, i + 1)])
    ensures p[RotatedIndex(|p|, k, |p| - 2)] == p[k]
  {
    forall i | 0 <= i < |p| - 2
      ensures Edge(g, p[RotatedIndex(|p|, k, i)], p[RotatedIndex(|p|, k, i + 1)])
    {
      var j := RotatedIndex(|p|, k, i);
      if j < |p| - 1 {
        assert RotatedIndex(|p|, k, i + 1) == j + 1;
      } else {
        assert RotatedIndex(|p|, k, i + 1) == 1 && p[j] == p[0];
      }
    }
  }

  lemma OldPath(g: Graph, a: Id, b: Id, q: seq<Id>)
    requires a in g && b in g && IsPath(WithEdge(g, a, b), q) && q[0] == b && q[|q| - 1] == a
    ensures Reaches(g, b, a)
  {
    var k := FirstIndex(q, a);
    var r := q[..k + 1];
    forall i | 0 <= i < |r| - 1 ensures Edge(g, r[i], r[i + 1]) {
      assert Edge(WithEdge(g, a, b), q[i], q[i + 1]);
      assert q[i] in q[..k];
    }
    assert IsPath(g, r) && r[0] == b && r[|r| - 1] == a;
  }
}
