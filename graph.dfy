/**
 * The city map: an undirected weighted graph kept as an adjacency list
 * (`graph` and `nodes` in app.py), and the loop that loads it from an
 * edge list at startup.
 */
module CityGraph {

  type Node = nat

  datatype Edge = Edge(u: Node, v: Node, w: nat)

  /** `adj` is the `defaultdict(list)`; a node without an entry has no neighbours. */
  datatype Graph = Graph(adj: map<Node, seq<(Node, nat)>>, nodes: set<Node>)

  const EmptyGraph := Graph(map[], {})

  /** `graph[u]`: the `(neighbour, weight)` pairs of `u`, in insertion order. */
  function Neighbors(g: Graph, u: Node): seq<(Node, nat)>
  {
    if u in g.adj then g.adj[u] else []
  }

  /** Every node with neighbours, and every neighbour, is a registered node. */
  ghost predicate WellFormed(g: Graph)
  {
    && g.adj.Keys <= g.nodes
    && forall u: Node, j :: 0 <= j < |Neighbors(g, u)| ==> Neighbors(g, u)[j].0 in g.nodes
  }

  /** Edges are traversable both ways with the same weight. */
  ghost predicate Symmetric(g: Graph)
  {
    forall u: Node, e :: e in Neighbors(g, u) ==> (u, e.1) in Neighbors(g, e.0)
  }

  /** `add_edge(u, v, w)`: append `(v, w)` to `u`'s list, then `(u, w)` to `v`'s list. */
  function AddEdge(g: Graph, u: Node, v: Node, w: nat): (g': Graph)
    ensures g'.nodes == g.nodes + {u, v}
    ensures u != v ==> Neighbors(g', u) == Neighbors(g, u) + [(v, w)]
    ensures u != v ==> Neighbors(g', v) == Neighbors(g, v) + [(u, w)]
    ensures u == v ==> Neighbors(g', u) == Neighbors(g, u) + [(u, w), (u, w)]
    ensures forall x :: x != u && x != v ==> Neighbors(g', x) == Neighbors(g, x)
  {
    var g1 := Graph(g.adj[u := Neighbors(g, u) + [(v, w)]], g.nodes);
    Graph(g1.adj[v := Neighbors(g1, v) + [(u, w)]], g.nodes + {u, v})
  }

  lemma AddEdgeWellFormed(g: Graph, u: Node, v: Node, w: nat)
    requires WellFormed(g)
    ensures WellFormed(AddEdge(g, u, v, w))
  {
    var g' := AddEdge(g, u, v, w);
    forall x, e | e in Neighbors(g', x) ensures e.0 in g'.nodes {
      if x != u && x != v {
        assert e in Neighbors(g, x);
      } else if e !in Neighbors(g, x) {
        assert e.0 == u || e.0 == v;
      }
    }
  }

  lemma AddEdgeSymmetric(g: Graph, u: Node, v: Node, w: nat)
    requires Symmetric(g)
    ensures Symmetric(AddEdge(g, u, v, w))
  {
    var g' := AddEdge(g, u, v, w);
    forall x, e | e in Neighbors(g', x) ensures (x, e.1) in Neighbors(g', e.0) {
      if e in Neighbors(g, x) {
        assert (x, e.1) in Neighbors(g, e.0);
      } else {
        assert (x == u && e == (v, w)) || (x == v && e == (u, w));
      }
    }
  }

  /** The graph the startup loop builds from an edge list. */
  function FromEdges(edges: seq<Edge>): Graph
  {
    if edges == [] then EmptyGraph
    else
      var e := edges[|edges| - 1];
      AddEdge(FromEdges(edges[..|edges| - 1]), e.u, e.v, e.w)
  }

  /** Loading one more edge adds it to the graph loaded so far. */
  lemma FromEdgesSnoc(edges: seq<Edge>, e: Edge)
    ensures FromEdges(edges + [e]) == AddEdge(FromEdges(edges), e.u, e.v, e.w)
  {
    assert (edges + [e])[..|edges|] == edges;
  }

  /** `for u, v, w in edges: add_edge(u, v, w)` */
  method BuildGraph(edges: seq<Edge>) returns (g: Graph)
    ensures g == FromEdges(edges)
    ensures WellFormed(g) && Symmetric(g)
  {
    g := EmptyGraph;
    for i := 0 to |edges|
      invariant g == FromEdges(edges[..i])
      invariant WellFormed(g) && Symmetric(g)
    {
      assert edges[..i + 1][..i] == edges[..i];
      AddEdgeWellFormed(g, edges[i].u, edges[i].v, edges[i].w);
      AddEdgeSymmetric(g, edges[i].u, edges[i].v, edges[i].w);
      g := AddEdge(g, edges[i].u, edges[i].v, edges[i].w);
    }
    assert edges[..|edges|] == edges;
  }

  /** Some listed edge has x as an endpoint. */
  ghost predicate Endpoint(edges: seq<Edge>, x: Node)
  {
    exists k :: 0 <= k < |edges| && (edges[k].u == x || edges[k].v == x)
  }

  lemma {:induction false} FromEdgesNode(edges: seq<Edge>, x: Node)
    ensures x in FromEdges(edges).nodes <==> Endpoint(edges, x)
    decreases |edges|
  {
    if edges != [] {
      var init := edges[..|edges| - 1];
      var last := edges[|edges| - 1];
      FromEdgesNode(init, x);
      if Endpoint(init, x) {
        var k :| 0 <= k < |init| && (init[k].u == x || init[k].v == x);
        assert edges[k] == init[k];
      }
      if Endpoint(edges, x) && last.u != x && last.v != x {
        var k :| 0 <= k < |edges| && (edges[k].u == x || edges[k].v == x);
        assert init[k] == edges[k];
      }
    }
  }

  /** The nodes are exactly the endpoints of the listed edges. */
  lemma FromEdgesNodes(edges: seq<Edge>)
    ensures forall x :: x in FromEdges(edges).nodes <==> Endpoint(edges, x)
  {
    forall x ensures x in FromEdges(edges).nodes <==> Endpoint(edges, x) {
      FromEdgesNode(edges, x);
    }
  }

  /** Every adjacency entry comes from a listed edge, read in one direction or the other. */
  ghost predicate FromSomeEdge(edges: seq<Edge>, x: Node, e: (Node, nat))
  {
    exists k :: 0 <= k < |edges| && edges[k].w == e.1 &&
      ((edges[k].u == x && edges[k].v == e.0) || (edges[k].v == x && edges[k].u == e.0))
  }

  lemma {:induction false} FromEdgesEntry(edges: seq<Edge>, x: Node, e: (Node, nat))
    requires e in Neighbors(FromEdges(edges), x)
    ensures FromSomeEdge(edges, x, e)
    decreases |edges|
  {
    var init := edges[..|edges| - 1];
    var last := edges[|edges| - 1];
    if e in Neighbors(FromEdges(init), x) {
      FromEdgesEntry(init, x, e);
      var k :| 0 <= k < |init| && init[k].w == e.1 &&
        ((init[k].u == x && init[k].v == e.0) || (init[k].v == x && init[k].u == e.0));
      assert edges[k] == init[k];
    } else {
      assert (x == last.u && e == (last.v, last.w)) || (x == last.v && e == (last.u, last.w));
    }
  }

  lemma FromEdgesEntries(edges: seq<Edge>)
    ensures forall x, e :: e in Neighbors(FromEdges(edges), x) ==> FromSomeEdge(edges, x, e)
  {
    forall x, e | e in Neighbors(FromEdges(edges), x) ensures FromSomeEdge(edges, x, e) {
      FromEdgesEntry(edges, x, e);
    }
  }
}
