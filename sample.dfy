/**
 * The sample city the server loads at startup (`edges` in app.py), with the
 * seven places A to G numbered 0 to 6, and the route the dispatcher finds on
 * it from A to E.
 */
module SampleCity {
  import opened Wrappers
  import opened CityGraph
  import opened ShortestPaths
  import opened Optimality
  import opened Routes
  import opened Fares

  const A: Node := 0
  const B: Node := 1
  const C: Node := 2
  const D: Node := 3
  const E: Node := 4
  const F: Node := 5
  const G: Node := 6

  const SampleEdges: seq<Edge> := [
    Edge(A, B, 4), Edge(A, C, 2), Edge(B, D, 5),
    Edge(C, D, 8), Edge(C, E, 10), Edge(D, E, 2),
    Edge(B, F, 3), Edge(E, G, 6), Edge(F, G, 7)
  ]

  /** The nine `add_edge` calls of the startup loop over the sample edges, applied to g. */
  function LoadSample(g: Graph): Graph
  {
    var g1 := AddEdge(g, A, B, 4);
    var g2 := AddEdge(g1, A, C, 2);
    var g3 := AddEdge(g2, B, D, 5);
    var g4 := AddEdge(g3, C, D, 8);
    var g5 := AddEdge(g4, C, E, 10);
    var g6 := AddEdge(g5, D, E, 2);
    var g7 := AddEdge(g6, B, F, 3);
    var g8 := AddEdge(g7, E, G, 6);
    AddEdge(g8, F, G, 7)
  }

  /** The startup loop over the sample edges builds the sample map. */
  lemma SampleLoad()
    ensures FromEdges(SampleEdges) == LoadSample(EmptyGraph)
  {
    var e1, e2, e3 := Edge(A, B, 4), Edge(A, C, 2), Edge(B, D, 5);
    var e4, e5, e6 := Edge(C, D, 8), Edge(C, E, 10), Edge(D, E, 2);
    var e7, e8, e9 := Edge(B, F, 3), Edge(E, G, 6), Edge(F, G, 7);
    assert [e1] + [e2] == [e1, e2];
    assert [e1, e2] + [e3] == [e1, e2, e3];
    assert [e1, e2, e3] + [e4] == [e1, e2, e3, e4];
    assert [e1, e2, e3, e4] + [e5] == [e1, e2, e3, e4, e5];
    assert [e1, e2, e3, e4, e5] + [e6] == [e1, e2, e3, e4, e5, e6];
    assert [e1, e2, e3, e4, e5, e6] + [e7] == [e1, e2, e3, e4, e5, e6, e7];
    assert [e1, e2, e3, e4, e5, e6, e7] + [e8] == [e1, e2, e3, e4, e5, e6, e7, e8];
    assert [e1, e2, e3, e4, e5, e6, e7, e8] + [e9] == SampleEdges;
    FromEdgesSnoc([], e1);
    assert [] + [e1] == [e1];
    FromEdgesSnoc([e1], e2);
    FromEdgesSnoc([e1, e2], e3);
    FromEdgesSnoc([e1, e2, e3], e4);
    FromEdgesSnoc([e1, e2, e3, e4], e5);
    FromEdgesSnoc([e1, e2, e3, e4, e5], e6);
    FromEdgesSnoc([e1, e2, e3, e4, e5, e6], e7);
    FromEdgesSnoc([e1, e2, e3, e4, e5, e6, e7], e8);
    FromEdgesSnoc([e1, e2, e3, e4, e5, e6, e7, e8], e9);
  }

  /** The adjacency lists of the places A to G, indexed by place; other nodes have none. */
  ghost predicate HasLists(g: Graph, lists: seq<seq<(Node, nat)>>)
  {
    && |lists| == 7
    && (forall x {:trigger Neighbors(g, x)} :: 0 <= x < 7 ==> Neighbors(g, x) == lists[x])
    && (forall x :: x >= 7 ==> Neighbors(g, x) == [])
  }

  /** `add_edge(u, v, w)` on the lists of places: append to u's list, then to v's. */
  function AddToLists(lists: seq<seq<(Node, nat)>>, u: Node, v: Node, w: nat): (r: seq<seq<(Node, nat)>>)
    requires |lists| == 7 && u < 7 && v < 7
    ensures |r| == 7
  {
    lists[u := lists[u] + [(v, w)]][v := lists[v] + [(u, w)]]
  }

  /** `add_edge(u, v, w)` between two places appends to both of their lists. */
  lemma AddEdgeLists(g: Graph, lists: seq<seq<(Node, nat)>>, u: Node, v: Node, w: nat)
    requires HasLists(g, lists) && u < 7 && v < 7 && u != v
    ensures HasLists(AddEdge(g, u, v, w), AddToLists(lists, u, v, w))
  {
  }

  /** The nine sample `add_edge` calls on the lists of places. */
  function LoadLists(l0: seq<seq<(Node, nat)>>): seq<seq<(Node, nat)>>
    requires |l0| == 7
  {
    var l1 := AddToLists(l0, A, B, 4);
    var l2 := AddToLists(l1, A, C, 2);
    var l3 := AddToLists(l2, B, D, 5);
    var l4 := AddToLists(l3, C, D, 8);
    var l5 := AddToLists(l4, C, E, 10);
    var l6 := AddToLists(l5, D, E, 2);
    var l7 := AddToLists(l6, B, F, 3);
    var l8 := AddToLists(l7, E, G, 6);
    AddToLists(l8, F, G, 7)
  }

  /** The adjacency lists of the sample map, in insertion order. */
  const SampleLists: seq<seq<(Node, nat)>> := [
    [(B, 4), (C, 2)],
    [(A, 4), (D, 5), (F, 3)],
    [(A, 2), (D, 8), (E, 10)],
    [(B, 5), (C, 8), (E, 2)],
    [(C, 10), (D, 2), (G, 6)],
    [(B, 3), (G, 7)],
    [(E, 6), (F, 7)]
  ]

  lemma SampleListsLoaded()
    ensures LoadLists([[], [], [], [], [], [], []]) == SampleLists
  {
    var l := LoadLists([[], [], [], [], [], [], []]);
    assert l[A] == SampleLists[A] && l[B] == SampleLists[B] && l[C] == SampleLists[C];
    assert l[D] == SampleLists[D] && l[E] == SampleLists[E];
    assert l[F] == SampleLists[F] && l[G] == SampleLists[G];
  }

  /** Loading the sample edges carries lists of places along. */
  lemma LoadSampleLists(g: Graph, lists: seq<seq<(Node, nat)>>)
    requires HasLists(g, lists)
    ensures HasLists(LoadSample(g), LoadLists(lists))
  {
    var g1 := AddEdge(g, A, B, 4);
    var g2 := AddEdge(g1, A, C, 2);
    var g3 := AddEdge(g2, B, D, 5);
    var g4 := AddEdge(g3, C, D, 8);
    var g5 := AddEdge(g4, C, E, 10);
    var g6 := AddEdge(g5, D, E, 2);
    var g7 := AddEdge(g6, B, F, 3);
    var g8 := AddEdge(g7, E, G, 6);
    var l1 := AddToLists(lists, A, B, 4);
    var l2 := AddToLists(l1, A, C, 2);
    var l3 := AddToLists(l2, B, D, 5);
    var l4 := AddToLists(l3, C, D, 8);
    var l5 := AddToLists(l4, C, E, 10);
    var l6 := AddToLists(l5, D, E, 2);
    var l7 := AddToLists(l6, B, F, 3);
    var l8 := AddToLists(l7, E, G, 6);
    AddEdgeLists(g, lists, A, B, 4);
    AddEdgeLists(g1, l1, A, C, 2);
    AddEdgeLists(g2, l2, B, D, 5);
    AddEdgeLists(g3, l3, C, D, 8);
    AddEdgeLists(g4, l4, C, E, 10);
    AddEdgeLists(g5, l5, D, E, 2);
    AddEdgeLists(g6, l6, B, F, 3);
    AddEdgeLists(g7, l7, E, G, 6);
    AddEdgeLists(g8, l8, F, G, 7);
  }

  lemma LoadSampleNodes(g: Graph)
    ensures LoadSample(g).nodes == g.nodes + {A, B, C, D, E, F, G}
  {
  }

  lemma EmptyLists()
    ensures HasLists(EmptyGraph, [[], [], [], [], [], [], []])
  {
    var none: seq<seq<(Node, nat)>> := [[], [], [], [], [], [], []];
    assert forall x :: 0 <= x < 7 ==> none[x] == [];
  }

  /** The map the server starts with: the places A to G and the sample adjacency lists. */
  lemma SampleMap()
    ensures FromEdges(SampleEdges).nodes == {A, B, C, D, E, F, G}
    ensures HasLists(FromEdges(SampleEdges), SampleLists)
  {
    SampleLoad();
    LoadSampleNodes(EmptyGraph);
    EmptyLists();
    LoadSampleLists(EmptyGraph, [[], [], [], [], [], [], []]);
    SampleListsLoaded();
  }

  // ---------------------------------------------------------------------
  // dijkstra("A") on the sample map
  // ---------------------------------------------------------------------

  /** The true distances from A: every walk from A to a place weighs at least its entry. */
  const SamplePotential: map<Node, nat> := map[A := 0, B := 4, C := 2, D := 9, E := 11, F := 7, G := 14]

  /** No entry of place u's list leads below the potential. */
  ghost predicate ListFeasible(u: Node, list: seq<(Node, nat)>)
  {
    && u in SamplePotential
    && forall j :: 0 <= j < |list| ==>
         list[j].0 in SamplePotential && SamplePotential[list[j].0] <= SamplePotential[u] + list[j].1
  }

  lemma SampleListsFeasible()
    ensures forall u :: 0 <= u < 7 ==> ListFeasible(u, SampleLists[u])
  {
    assert ListFeasible(A, SampleLists[A]) && ListFeasible(B, SampleLists[B]);
    assert ListFeasible(C, SampleLists[C]) && ListFeasible(D, SampleLists[D]);
    assert ListFeasible(E, SampleLists[E]) && ListFeasible(F, SampleLists[F]);
    assert ListFeasible(G, SampleLists[G]);
  }

  lemma SampleFeasible(g: Graph)
    requires HasLists(g, SampleLists)
    ensures Feasible(g, A, SamplePotential)
  {
    SampleListsFeasible();
    forall u: Node, j | 0 <= j < |Neighbors(g, u)|
      ensures u in SamplePotential && Neighbors(g, u)[j].0 in SamplePotential
      ensures SamplePotential[Neighbors(g, u)[j].0] <= SamplePotential[u] + Neighbors(g, u)[j].1
    {
      assert u < 7;
      assert ListFeasible(u, Neighbors(g, u));
    }
  }

  /** Any result of `dijkstra("A")` on the sample map has these distances. */
  lemma SampleDistances(g: Graph, dist: map<Node, Dist>, parent: map<Node, Option<Node>>, rank: map<Node, nat>)
    requires g.nodes == {A, B, C, D, E, F, G} && HasLists(g, SampleLists)
    requires ShortestPathTree(g, A, dist, parent, rank)
    ensures dist[A] == Fin(0) && dist[B] == Fin(4) && dist[C] == Fin(2) && dist[D] == Fin(9)
    ensures dist[E] == Fin(11) && dist[F] == Fin(7) && dist[G] == Fin(14)
  {
    assert Neighbors(g, A) == SampleLists[A] && Neighbors(g, B) == SampleLists[B];
    assert Neighbors(g, D) == SampleLists[D] && Neighbors(g, F) == SampleLists[F];
    assert RelaxedEdge(dist, dist[A].d, (B, 4)) && RelaxedEdge(dist, dist[A].d, (C, 2));
    assert RelaxedEdge(dist, dist[B].d, (D, 5)) && RelaxedEdge(dist, dist[B].d, (F, 3));
    assert RelaxedEdge(dist, dist[D].d, (E, 2)) && RelaxedEdge(dist, dist[F].d, (G, 7));
    SampleFeasible(g);
    DistAtLeastPotential(g, A, dist, parent, rank, SamplePotential, B);
    DistAtLeastPotential(g, A, dist, parent, rank, SamplePotential, C);
    DistAtLeastPotential(g, A, dist, parent, rank, SamplePotential, D);
    DistAtLeastPotential(g, A, dist, parent, rank, SamplePotential, E);
    DistAtLeastPotential(g, A, dist, parent, rank, SamplePotential, F);
    DistAtLeastPotential(g, A, dist, parent, rank, SamplePotential, G);
  }

  /** The only neighbour of v whose distance plus the edge weight gives v's distance is p. */
  lemma OnlyTreeEdge(g: Graph, dist: map<Node, Dist>, parent: map<Node, Option<Node>>, rank: map<Node, nat>,
                     v: Node, p: Node)
    requires g.nodes == {A, B, C, D, E, F, G} && HasLists(g, SampleLists)
    requires ShortestPathTree(g, A, dist, parent, rank)
    requires (v, p) in {(E, D), (D, B), (B, A)}
    ensures LinkedTo(parent, v, p)
  {
    SampleDistances(g, dist, parent, rank);
    var q := parent[v].value;
    assert LinkedTo(parent, v, q);
    assert TreeEdge(g, dist, q, v);
    assert q < 7;
    assert Neighbors(g, q) == SampleLists[q];
  }

  /** `shortest_path(parent, "E")` after `dijkstra("A")` on the sample map is A, B, D, E. */
  lemma SamplePath(g: Graph, dist: map<Node, Dist>, parent: map<Node, Option<Node>>, rank: map<Node, nat>)
    requires g.nodes == {A, B, C, D, E, F, G} && HasLists(g, SampleLists)
    requires ShortestPathTree(g, A, dist, parent, rank)
    ensures PathTo(parent, E, rank) == [A, B, D, E]
  {
    OnlyTreeEdge(g, dist, parent, rank, E, D);
    OnlyTreeEdge(g, dist, parent, rank, D, B);
    OnlyTreeEdge(g, dist, parent, rank, B, A);
    assert PathTo(parent, A, rank) == [A];
    assert PathTo(parent, B, rank) == [A, B];
    assert PathTo(parent, D, rank) == [A, B, D];
  }

  /** `compute_distance_on_graph(["A", "B", "D", "E"])` on the sample map is 4 + 5 + 2. */
  lemma SampleRouteWeight(g: Graph)
    requires HasLists(g, SampleLists)
    ensures PathWeight(g, [A, B, D, E]) == 11
  {
    assert [A, B, D, E][..3] == [A, B, D];
    assert [A, B, D][..2] == [A, B];
    assert [A, B][..1] == [A];
    assert Neighbors(g, A) == SampleLists[A] && Neighbors(g, B) == SampleLists[B];
    assert Neighbors(g, D) == SampleLists[D];
    FirstEntryWeight(Neighbors(g, A), B, 0);
    FirstEntryWeight(Neighbors(g, B), D, 1);
    FirstEntryWeight(Neighbors(g, D), E, 2);
    assert PathWeight(g, [A, B]) == 4;
    assert PathWeight(g, [A, B, D]) == PathWeight(g, [A, B]) + 5;
    assert PathWeight(g, [A, B, D, E]) == PathWeight(g, [A, B, D]) + 2;
  }

  /**
   * The startup map, `dijkstra("A")`, `shortest_path(parent, "E")`, its
   * length and its fare: E is 11 away from A, along A, B, D, E, for
   * 20.00 + 11 * 10.00 = 130.00.
   */
  method SampleRoute() returns (d: Dist, path: seq<Node>, distance: nat, fare: nat)
    ensures d == Fin(11) && path == [A, B, D, E] && distance == 11 && fare == 13000
  {
    var g := BuildGraph(SampleEdges);
    SampleMap();
    var dist, parent, rank := Dijkstra(g, A);
    SampleDistances(g, dist, parent, rank);
    SamplePath(g, dist, parent, rank);
    d := dist[E];
    path := ShortestPath(parent, E, rank);
    distance := ComputeDistance(g, path);
    SampleRouteWeight(g);
    fare := Fare(distance);
  }
}
