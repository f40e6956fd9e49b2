/**
 * Lazy-deletion Dijkstra (`dijkstra` in app.py) and the parent-link walk
 * that turns its parent map into a route (`shortest_path`).
 */
module ShortestPaths {
  import opened Wrappers
  import opened CityGraph

  /** A tentative distance; `Inf` stands for `float('inf')`. */
  datatype Dist = Inf | Fin(d: nat)

  /** `x > n`, where `float('inf') > n` for every n. */
  predicate Exceeds(x: Dist, n: nat)
  {
    x.Inf? || x.d > n
  }

  /** `n > x`, which never holds when x is `float('inf')`. */
  predicate Below(x: Dist, n: nat)
  {
    x.Fin? && x.d < n
  }

  /** A heap entry `(d, u)`: a tentative distance and the node it was pushed for. */
  type Entry = (nat, Node)

  /** Python's tuple order, the order `heapq` pops in. */
  predicate EntryLe(a: Entry, b: Entry)
  {
    a.0 < b.0 || (a.0 == b.0 && a.1 <= b.1)
  }

  /**
   * The entry `heapq.heappop` returns: the least one. The heap is kept as the
   * set of its entries; the run never pushes an entry that is already there
   * (Dijkstra asserts this at each push), so no duplicate is lost.
   */
  method HeapMin(pq: set<Entry>) returns (top: Entry)
    requires pq != {}
    ensures top in pq
    ensures forall e :: e in pq ==> EntryLe(top, e)
  {
    top :| top in pq;
    var rest := pq - {top};
    while rest != {}
      invariant rest <= pq && top in pq
      invariant forall e :: e in pq && e !in rest ==> EntryLe(top, e)
      decreases |rest|
    {
      var e :| e in rest;
      if !EntryLe(top, e) {
        top := e;
      }
      rest := rest - {e};
    }
  }

  // ---------------------------------------------------------------------
  // What the result of a run means
  // ---------------------------------------------------------------------

  /** Relaxing edge e out of a node at distance `from` would not improve it. */
  ghost predicate RelaxedEdge(dist: map<Node, Dist>, from: nat, e: (Node, nat))
  {
    e.0 in dist && dist[e.0].Fin? && dist[e.0].d <= from + e.1
  }

  /** Every edge out of every reached node is relaxed. */
  ghost predicate Relaxed(g: Graph, dist: map<Node, Dist>)
  {
    forall u, e :: u in dist && dist[u].Fin? && e in Neighbors(g, u) ==> RelaxedEdge(dist, dist[u].d, e)
  }

  /** p reaches v over an edge whose weight is exactly their difference in distance. */
  ghost predicate TreeEdge(g: Graph, dist: map<Node, Dist>, p: Node, v: Node)
  {
    && p in dist && v in dist && dist[p].Fin? && dist[v].Fin?
    && dist[p].d <= dist[v].d
    && (v, dist[v].d - dist[p].d) in Neighbors(g, p)
  }

  /** The parent link of v is p. */
  ghost predicate LinkedTo(parent: map<Node, Option<Node>>, v: Node, p: Node)
  {
    v in parent && parent[v] == Some(p)
  }

  /** Parent links are closed and strictly descend in `rank`, so they are acyclic. */
  ghost predicate Descending(parent: map<Node, Option<Node>>, rank: map<Node, nat>)
  {
    forall v, p {:trigger LinkedTo(parent, v, p)} :: LinkedTo(parent, v, p) ==>
      p in parent && v in rank && p in rank && rank[p] < rank[v]
  }

  /** The pair `(dist, parent)` that `dijkstra(start)` returns. */
  ghost predicate ShortestPathTree(g: Graph, start: Node, dist: map<Node, Dist>,
                                   parent: map<Node, Option<Node>>, rank: map<Node, nat>)
  {
    && dist.Keys == g.nodes + {start}
    && parent.Keys == g.nodes
    && dist[start] == Fin(0)
    && (start in parent ==> parent[start] == None)
    && Relaxed(g, dist)
    && (forall v, p {:trigger LinkedTo(parent, v, p)} :: LinkedTo(parent, v, p) ==> TreeEdge(g, dist, p, v))
    && (forall v {:trigger parent[v]} :: v in parent && v != start && dist[v].Fin? ==> parent[v].Some?)
    && Descending(parent, rank)
  }

  // ---------------------------------------------------------------------
  // Loop invariants of the run
  // ---------------------------------------------------------------------

  /**
   * Every heap entry is for a reached node and is no smaller than its distance
   * or than the last popped key; entries for settled nodes are stale.
   */
  ghost predicate QueueOk(dist: map<Node, Dist>, pq: set<Entry>, floor: nat, settled: set<Node>)
  {
    forall e :: e in pq ==>
      && e.1 in dist && dist[e.1].Fin?
      && dist[e.1].d <= e.0 && floor <= e.0
      && (e.1 in settled ==> dist[e.1].d < e.0)
  }

  /** Every reached node that is not settled has its current distance on the heap. */
  ghost predicate Frontier(dist: map<Node, Dist>, pq: set<Entry>, settled: set<Node>)
  {
    forall v :: v in dist && dist[v].Fin? && v !in settled ==> (dist[v].d, v) in pq
  }

  /** Settled nodes are reached, at most the last popped key away. */
  ghost predicate SettledBelow(dist: map<Node, Dist>, settled: set<Node>, floor: nat)
  {
    forall s :: s in settled ==> s in dist && dist[s].Fin? && dist[s].d <= floor
  }

  /** The edges out of the given nodes are relaxed. */
  ghost predicate RelaxedFrom(g: Graph, dist: map<Node, Dist>, done: set<Node>)
  {
    forall s, e :: s in done && s in dist && dist[s].Fin? && e in Neighbors(g, s) ==>
      RelaxedEdge(dist, dist[s].d, e)
  }

  /** Parent links point at settled nodes over tree edges, in settling order. */
  ghost predicate ParentsOk(g: Graph, start: Node, dist: map<Node, Dist>, parent: map<Node, Option<Node>>,
                            settled: set<Node>, order: map<Node, nat>, count: nat)
  {
    && (start in parent ==> parent[start] == None)
    && order.Keys == settled
    && (forall s :: s in order ==> order[s] < count)
    && (forall v, p {:trigger LinkedTo(parent, v, p)} :: LinkedTo(parent, v, p) ==>
          && p in settled
          && TreeEdge(g, dist, p, v)
          && (v in settled ==> order[p] < order[v]))
    && (forall v {:trigger parent[v]} :: v in parent && v != start && v in dist && dist[v].Fin? ==> parent[v].Some?)
  }

  /** The first k edges out of u, at distance `from`, are relaxed. */
  ghost predicate PrefixRelaxed(g: Graph, dist: map<Node, Dist>, u: Node, from: nat, k: nat)
  {
    forall j :: 0 <= j < k && j < |Neighbors(g, u)| ==> RelaxedEdge(dist, from, Neighbors(g, u)[j])
  }

  /** The invariant of the outer loop. */
  ghost predicate RunInv(g: Graph, start: Node, dist: map<Node, Dist>, parent: map<Node, Option<Node>>,
                         pq: set<Entry>, settled: set<Node>, floor: nat, order: map<Node, nat>, count: nat)
  {
    && WellFormed(g)
    && dist.Keys == g.nodes + {start} && parent.Keys == g.nodes
    && dist[start] == Fin(0)
    && QueueOk(dist, pq, floor, settled)
    && Frontier(dist, pq, settled)
    && SettledBelow(dist, settled, floor)
    && RelaxedFrom(g, dist, settled)
    && ParentsOk(g, start, dist, parent, settled, order, count)
  }

  /** The invariant of the inner loop, relaxing the edges of the node u just settled at distance floor. */
  ghost predicate RelaxInv(g: Graph, start: Node, dist: map<Node, Dist>, parent: map<Node, Option<Node>>,
                           pq: set<Entry>, settled: set<Node>, floor: nat, order: map<Node, nat>, count: nat,
                           u: Node, k: nat)
  {
    && WellFormed(g)
    && dist.Keys == g.nodes + {start} && parent.Keys == g.nodes
    && dist[start] == Fin(0)
    && u in settled && u in dist && dist[u] == Fin(floor)
    && k <= |Neighbors(g, u)|
    && QueueOk(dist, pq, floor, settled)
    && Frontier(dist, pq, settled)
    && SettledBelow(dist, settled, floor)
    && RelaxedFrom(g, dist, settled - {u})
    && PrefixRelaxed(g, dist, u, floor, k)
    && ParentsOk(g, start, dist, parent, settled, order, count)
  }

  /** `dist = {node: inf for node in nodes}; dist[start] = 0` */
  function InitialDist(g: Graph, start: Node): map<Node, Dist>
  {
    (map n | n in g.nodes :: Inf)[start := Fin(0)]
  }

  /** `parent = {node: None for node in nodes}` */
  function InitialParent(g: Graph): map<Node, Option<Node>>
  {
    map n | n in g.nodes :: None
  }

  lemma RunInvInit(g: Graph, start: Node)
    requires WellFormed(g)
    ensures RunInv(g, start, InitialDist(g, start), InitialParent(g), {(0, start)}, {}, 0, map[], 0)
  {
  }

  /** Popping a stale entry keeps the invariant (and relaxes nothing). */
  lemma PopStale(g: Graph, start: Node, dist: map<Node, Dist>, parent: map<Node, Option<Node>>,
                 pq: set<Entry>, settled: set<Node>, floor: nat, order: map<Node, nat>, count: nat, top: Entry)
    requires RunInv(g, start, dist, parent, pq, settled, floor, order, count)
    requires top in pq && Below(dist[top.1], top.0)
    ensures |pq - {top}| < |pq|
    ensures RunInv(g, start, dist, parent, pq - {top}, settled, floor, order, count)
  {
  }

  lemma PopSettleQueue(dist: map<Node, Dist>, pq: set<Entry>, settled: set<Node>, floor: nat, top: Entry)
    requires QueueOk(dist, pq, floor, settled)
    requires top in pq && forall e :: e in pq ==> EntryLe(top, e)
    requires !Below(dist[top.1], top.0)
    ensures top.1 !in settled && dist[top.1] == Fin(top.0) && floor <= top.0
    ensures QueueOk(dist, pq - {top}, top.0, settled + {top.1})
  {
    forall e | e in pq - {top}
      ensures top.0 <= e.0
      ensures e.1 in settled + {top.1} ==> dist[e.1].d < e.0
    {
      assert EntryLe(top, e);
    }
  }

  lemma PopSettleFrontier(dist: map<Node, Dist>, pq: set<Entry>, settled: set<Node>, top: Entry)
    requires Frontier(dist, pq, settled)
    ensures Frontier(dist, pq - {top}, settled + {top.1})
  {
  }

  lemma PopSettleParents(g: Graph, start: Node, dist: map<Node, Dist>, parent: map<Node, Option<Node>>,
                         settled: set<Node>, order: map<Node, nat>, count: nat, u: Node)
    requires ParentsOk(g, start, dist, parent, settled, order, count)
    requires u !in settled
    ensures ParentsOk(g, start, dist, parent, settled + {u}, order[u := count], count + 1)
  {
  }

  /** Settling one more node leaves fewer unsettled ones. */
  lemma SettleShrinks(all: set<Node>, settled: set<Node>, u: Node)
    requires u in all && u !in settled
    ensures |all - (settled + {u})| < |all - settled|
  {
    assert all - (settled + {u}) == (all - settled) - {u};
  }

  /** Popping the least entry when it is current settles its node, which was not settled before. */
  lemma PopSettle(g: Graph, start: Node, dist: map<Node, Dist>, parent: map<Node, Option<Node>>,
                  pq: set<Entry>, settled: set<Node>, floor: nat, order: map<Node, nat>, count: nat, top: Entry)
    requires RunInv(g, start, dist, parent, pq, settled, floor, order, count)
    requires top in pq && forall e :: e in pq ==> EntryLe(top, e)
    requires !Below(dist[top.1], top.0)
    ensures top.1 !in settled && top.1 in dist
    ensures |(g.nodes + {start}) - (settled + {top.1})| < |(g.nodes + {start}) - settled|
    ensures RelaxInv(g, start, dist, parent, pq - {top}, settled + {top.1}, top.0,
                     order[top.1 := count], count + 1, top.1, 0)
  {
    var u := top.1;
    PopSettleQueue(dist, pq, settled, floor, top);
    PopSettleFrontier(dist, pq, settled, top);
    PopSettleParents(g, start, dist, parent, settled, order, count, u);
    assert (settled + {u}) - {u} == settled;
    SettleShrinks(g.nodes + {start}, settled, u);
  }

  lemma RelaxQueue(dist: map<Node, Dist>, pq: set<Entry>, settled: set<Node>, floor: nat, v: Node, x: nat,
                    dist': map<Node, Dist>, pq': set<Entry>)
    requires QueueOk(dist, pq, floor, settled) && SettledBelow(dist, settled, floor)
    requires v in dist && Exceeds(dist[v], x) && floor <= x
    requires dist' == dist[v := Fin(x)] && pq' == pq + {(x, v)}
    ensures v !in settled && (x, v) !in pq
    ensures QueueOk(dist', pq', floor, settled) && SettledBelow(dist', settled, floor)
  {
  }

  lemma RelaxFrontier(dist: map<Node, Dist>, pq: set<Entry>, settled: set<Node>, v: Node, x: nat,
                      dist': map<Node, Dist>, pq': set<Entry>)
    requires Frontier(dist, pq, settled)
    requires dist' == dist[v := Fin(x)] && pq' == pq + {(x, v)}
    ensures Frontier(dist', pq', settled)
  {
    forall y | y in dist' && dist'[y].Fin? && y !in settled ensures (dist'[y].d, y) in pq' {
      if y != v {
        assert (dist[y].d, y) in pq;
      }
    }
  }

  lemma RelaxEdgesKept(g: Graph, dist: map<Node, Dist>, done: set<Node>, u: Node, floor: nat, k: nat, v: Node, x: nat,
                       dist': map<Node, Dist>)
    requires RelaxedFrom(g, dist, done)
    requires k < |Neighbors(g, u)| && PrefixRelaxed(g, dist, u, floor, k)
    requires v in dist && v !in done && Exceeds(dist[v], x)
    requires Neighbors(g, u)[k].0 == v && x == floor + Neighbors(g, u)[k].1
    requires dist' == dist[v := Fin(x)]
    ensures RelaxedFrom(g, dist', done)
    ensures PrefixRelaxed(g, dist', u, floor, k + 1)
  {
    forall s, e | s in done && s in dist' && dist'[s].Fin? && e in Neighbors(g, s)
      ensures RelaxedEdge(dist', dist'[s].d, e)
    {
      assert RelaxedEdge(dist, dist[s].d, e);
    }
    forall j | 0 <= j < k + 1 ensures RelaxedEdge(dist', floor, Neighbors(g, u)[j]) {
      if j < k {
        assert RelaxedEdge(dist, floor, Neighbors(g, u)[j]);
      }
    }
  }

  lemma RelaxParents(g: Graph, start: Node, dist: map<Node, Dist>, parent: map<Node, Option<Node>>,
                     settled: set<Node>, order: map<Node, nat>, count: nat, u: Node, floor: nat, k: nat,
                     dist': map<Node, Dist>, parent': map<Node, Option<Node>>)
    requires ParentsOk(g, start, dist, parent, settled, order, count)
    requires u in settled && u in dist && dist[u] == Fin(floor)
    requires k < |Neighbors(g, u)|
    requires Neighbors(g, u)[k].0 in dist && Neighbors(g, u)[k].0 in parent
    requires Neighbors(g, u)[k].0 !in settled && Neighbors(g, u)[k].0 != start
    requires Exceeds(dist[Neighbors(g, u)[k].0], floor + Neighbors(g, u)[k].1)
    requires dist' == dist[Neighbors(g, u)[k].0 := Fin(floor + Neighbors(g, u)[k].1)]
    requires parent' == parent[Neighbors(g, u)[k].0 := Some(u)]
    ensures ParentsOk(g, start, dist', parent', settled, order, count)
  {
    var v, w := Neighbors(g, u)[k].0, Neighbors(g, u)[k].1;
    forall x, p | LinkedTo(parent', x, p)
      ensures p in settled && TreeEdge(g, dist', p, x)
      ensures x in settled ==> order[p] < order[x]
    {
      if x != v {
        assert LinkedTo(parent, x, p);
      } else {
        assert Neighbors(g, u)[k] in Neighbors(g, u);
      }
    }
    forall x | x in parent' && x != start && x in dist' && dist'[x].Fin? ensures parent'[x].Some? {
      if x != v {
        assert parent[x].Some?;
      }
    }
  }

  lemma RelaxBasics(g: Graph, start: Node, dist: map<Node, Dist>, parent: map<Node, Option<Node>>,
                    floor: nat, u: Node, v: Node, x: nat, dist': map<Node, Dist>, parent': map<Node, Option<Node>>)
    requires dist.Keys == g.nodes + {start} && parent.Keys == g.nodes
    requires dist[start] == Fin(0) && u in dist && dist[u] == Fin(floor)
    requires v in parent && v != start && v != u
    requires dist' == dist[v := Fin(x)] && parent' == parent[v := Some(u)]
    ensures dist'.Keys == g.nodes + {start} && parent'.Keys == g.nodes
    ensures dist'[start] == Fin(0) && u in dist' && dist'[u] == Fin(floor)
  {
  }

  /** One relaxation step `if dist[v] > d + w: ...` that improves v. */
  lemma RelaxImproves(g: Graph, start: Node, dist: map<Node, Dist>, parent: map<Node, Option<Node>>,
                      pq: set<Entry>, settled: set<Node>, floor: nat, order: map<Node, nat>, count: nat,
                      u: Node, k: nat, dist': map<Node, Dist>, parent': map<Node, Option<Node>>, pq': set<Entry>)
    requires RelaxInv(g, start, dist, parent, pq, settled, floor, order, count, u, k)
    requires k < |Neighbors(g, u)|
    requires Neighbors(g, u)[k].0 in dist
    requires Exceeds(dist[Neighbors(g, u)[k].0], floor + Neighbors(g, u)[k].1)
    requires dist' == dist[Neighbors(g, u)[k].0 := Fin(floor + Neighbors(g, u)[k].1)]
    requires parent' == parent[Neighbors(g, u)[k].0 := Some(u)]
    requires pq' == pq + {(floor + Neighbors(g, u)[k].1, Neighbors(g, u)[k].0)}
    ensures (floor + Neighbors(g, u)[k].1, Neighbors(g, u)[k].0) !in pq
    ensures RelaxInv(g, start, dist', parent', pq', settled, floor, order, count, u, k + 1)
  {
    var v, w := Neighbors(g, u)[k].0, Neighbors(g, u)[k].1;
    assert Neighbors(g, u)[k] in Neighbors(g, u);
    RelaxQueue(dist, pq, settled, floor, v, floor + w, dist', pq');
    assert v != start && v != u && v in parent;
    RelaxBasics(g, start, dist, parent, floor, u, v, floor + w, dist', parent');
    RelaxFrontier(dist, pq, settled, v, floor + w, dist', pq');
    RelaxEdgesKept(g, dist, settled - {u}, u, floor, k, v, floor + w, dist');
    RelaxParents(g, start, dist, parent, settled, order, count, u, floor, k, dist', parent');
  }

  /** One relaxation step that leaves v alone. */
  lemma RelaxSkips(g: Graph, start: Node, dist: map<Node, Dist>, parent: map<Node, Option<Node>>,
                   pq: set<Entry>, settled: set<Node>, floor: nat, order: map<Node, nat>, count: nat,
                   u: Node, k: nat)
    requires RelaxInv(g, start, dist, parent, pq, settled, floor, order, count, u, k)
    requires k < |Neighbors(g, u)|
    requires Neighbors(g, u)[k].0 in dist
    requires !Exceeds(dist[Neighbors(g, u)[k].0], floor + Neighbors(g, u)[k].1)
    ensures RelaxInv(g, start, dist, parent, pq, settled, floor, order, count, u, k + 1)
  {
    forall j | 0 <= j < k + 1 ensures RelaxedEdge(dist, floor, Neighbors(g, u)[j]) {
    }
  }

  /** Once all edges of u are relaxed, the outer invariant holds again. */
  lemma RelaxDone(g: Graph, start: Node, dist: map<Node, Dist>, parent: map<Node, Option<Node>>,
                  pq: set<Entry>, settled: set<Node>, floor: nat, order: map<Node, nat>, count: nat, u: Node)
    requires RelaxInv(g, start, dist, parent, pq, settled, floor, order, count, u, |Neighbors(g, u)|)
    ensures RunInv(g, start, dist, parent, pq, settled, floor, order, count)
  {
    forall s, e | s in settled && s in dist && dist[s].Fin? && e in Neighbors(g, s)
      ensures RelaxedEdge(dist, dist[s].d, e)
    {
      if s == u {
        var j :| 0 <= j < |Neighbors(g, u)| && Neighbors(g, u)[j] == e;
      }
    }
  }

  /** With the heap empty, every reached node is settled: the run's result is a shortest-path tree. */
  lemma RunDone(g: Graph, start: Node, dist: map<Node, Dist>, parent: map<Node, Option<Node>>,
                settled: set<Node>, floor: nat, order: map<Node, nat>, count: nat)
    requires RunInv(g, start, dist, parent, {}, settled, floor, order, count)
    ensures ShortestPathTree(g, start, dist, parent, order)
  {
    assert forall v :: v in dist && dist[v].Fin? ==> v in settled;
    forall v, p | LinkedTo(parent, v, p)
      ensures p in parent && v in order && p in order && order[p] < order[v]
    {
      assert TreeEdge(g, dist, p, v);
      assert p in g.adj;
    }
  }

  /** The inner loop of `dijkstra`: relax every edge out of the node u just settled. */
  method RelaxEdges(g: Graph, start: Node, dist0: map<Node, Dist>, parent0: map<Node, Option<Node>>,
                    pq0: set<Entry>, ghost settled: set<Node>, ghost floor: nat, ghost order: map<Node, nat>,
                    ghost count: nat, u: Node)
    returns (dist: map<Node, Dist>, parent: map<Node, Option<Node>>, pq: set<Entry>)
    requires RelaxInv(g, start, dist0, parent0, pq0, settled, floor, order, count, u, 0)
    ensures RelaxInv(g, start, dist, parent, pq, settled, floor, order, count, u, |Neighbors(g, u)|)
  {
    dist, parent, pq := dist0, parent0, pq0;
    var d := dist[u].d;
    assert d == floor;
    var nbrs := Neighbors(g, u);
    for k := 0 to |nbrs|
      invariant RelaxInv(g, start, dist, parent, pq, settled, floor, order, count, u, k)
    {
      var v, w := nbrs[k].0, nbrs[k].1;
      assert nbrs[k] in Neighbors(g, u);
      if Exceeds(dist[v], d + w) {
        ghost var dist0, parent0, pq0 := dist, parent, pq;
        dist := dist[v := Fin(d + w)];
        parent := parent[v := Some(u)];
        pq := pq + {(d + w, v)};
        RelaxImproves(g, start, dist0, parent0, pq0, settled, floor, order, count, u, k, dist, parent, pq);
      } else {
        RelaxSkips(g, start, dist, parent, pq, settled, floor, order, count, u, k);
      }
    }
  }

  /**
   * `dijkstra(start)`: distances and parent links from `start`. The heap has
   * no decrease-key; an entry whose key exceeds the node's current distance
   * is stale and is skipped. The ghost `rank` is the order in which nodes
   * were settled; parent links descend in it.
   */
  method Dijkstra(g: Graph, start: Node)
    returns (dist: map<Node, Dist>, parent: map<Node, Option<Node>>, ghost rank: map<Node, nat>)
    requires WellFormed(g)
    ensures ShortestPathTree(g, start, dist, parent, rank)
    ensures dist.Keys == g.nodes + {start} && dist[start] == Fin(0) && Relaxed(g, dist)
    ensures forall v, p {:trigger LinkedTo(parent, v, p)} :: LinkedTo(parent, v, p) ==> TreeEdge(g, dist, p, v)
  {
    dist, parent := InitialDist(g, start), InitialParent(g);
    var pq: set<Entry> := {(0, start)};
    ghost var settled: set<Node> := {};
    ghost var floor: nat := 0;
    ghost var count: nat := 0;
    rank := map[];
    RunInvInit(g, start);
    while pq != {}
      invariant RunInv(g, start, dist, parent, pq, settled, floor, rank, count)
      decreases |(g.nodes + {start}) - settled|, |pq|
    {
      var top := HeapMin(pq);
      var d, u := top.0, top.1;
      if Below(dist[u], d) {
        PopStale(g, start, dist, parent, pq, settled, floor, rank, count, top);
        pq := pq - {top};
        continue;
      }
      PopSettle(g, start, dist, parent, pq, settled, floor, rank, count, top);
      pq := pq - {top};
      settled, floor := settled + {u}, d;
      rank, count := rank[u := count], count + 1;
      dist, parent, pq := RelaxEdges(g, start, dist, parent, pq, settled, floor, rank, count, u);
      RelaxDone(g, start, dist, parent, pq, settled, floor, rank, count, u);
    }
    RunDone(g, start, dist, parent, settled, floor, rank, count);
  }

  // ---------------------------------------------------------------------
  // shortest_path: walking the parent links back to the root
  // ---------------------------------------------------------------------

  /** `s[::-1]` */
  function Reversed<T>(s: seq<T>): (r: seq<T>)
    ensures |r| == |s|
    ensures forall i :: 0 <= i < |s| ==> r[i] == s[|s| - 1 - i]
  {
    if s == [] then [] else Reversed(s[1..]) + [s[0]]
  }

  /**
   * The route `shortest_path(parent, target)` returns: the parent links
   * followed from `target` back to a node without a parent, in forward order.
   */
  ghost function PathTo(parent: map<Node, Option<Node>>, target: Node, rank: map<Node, nat>): (path: seq<Node>)
    requires target in parent && Descending(parent, rank)
    ensures |path| >= 1 && path[|path| - 1] == target
    ensures path[0] in parent && parent[path[0]] == None
    ensures forall i :: 0 <= i < |path| ==> path[i] in parent
    ensures forall i :: 0 <= i < |path| - 1 ==> LinkedTo(parent, path[i + 1], path[i])
    decreases if target in rank then rank[target] else 0
  {
    match parent[target]
    case None => [target]
    case Some(p) =>
      assert LinkedTo(parent, target, p);
      PathTo(parent, p, rank) + [target]
  }

  /**
   * `shortest_path(parent, target)`: collect `target`, its parent, its
   * grandparent, ... until a node whose parent is `None`, then reverse.
   * Termination rests on the parent links descending in `rank`.
   */
  method ShortestPath(parent: map<Node, Option<Node>>, target: Node, ghost rank: map<Node, nat>)
    returns (path: seq<Node>)
    requires target in parent && Descending(parent, rank)
    ensures path == PathTo(parent, target, rank)
  {
    var collected: seq<Node> := [];
    var node: Option<Node> := Some(target);
    while node.Some?
      invariant node.Some? ==> node.value in parent
      invariant node.Some? ==> PathTo(parent, target, rank) == PathTo(parent, node.value, rank) + Reversed(collected)
      invariant node.None? ==> PathTo(parent, target, rank) == Reversed(collected)
      decreases if node.Some? then (if node.value in rank then rank[node.value] else 0) + 1 else 0
    {
      var n := node.value;
      ReversedSnoc(collected, n);
      if parent[n].Some? {
        assert LinkedTo(parent, n, parent[n].value);
      }
      collected := collected + [n];
      node := parent[n];
    }
    path := Reversed(collected);
  }

  lemma {:induction false} ReversedSnoc<T>(s: seq<T>, x: T)
    ensures Reversed(s + [x]) == [x] + Reversed(s)
  {
    if s != [] {
      assert (s + [x])[1..] == s[1..] + [x];
      ReversedSnoc(s[1..], x);
    }
  }
}
