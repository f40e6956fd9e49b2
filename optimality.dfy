/**
 * What a run of `dijkstra` guarantees about routes: no walk from the start
 * is shorter than `dist`, the route `shortest_path` rebuilds from the parent
 * links is a walk of exactly that length, and an unreachable node gets the
 * one-node route `[target]`.
 */
module Optimality {
  import opened Wrappers
  import opened CityGraph
  import opened ShortestPaths

  /** Total weight of a walk. */
  function Sum(ws: seq<nat>): nat
  {
    if ws == [] then 0 else Sum(ws[..|ws| - 1]) + ws[|ws| - 1]
  }

  /** `path` follows adjacency entries whose weights are `ws`. */
  ghost predicate IsWalk(g: Graph, path: seq<Node>, ws: seq<nat>)
  {
    |path| == |ws| + 1 &&
    forall i :: 0 <= i < |ws| ==> (path[i + 1], ws[i]) in Neighbors(g, path[i])
  }

  lemma WalkPrefix(g: Graph, path: seq<Node>, ws: seq<nat>)
    requires IsWalk(g, path, ws) && ws != []
    ensures IsWalk(g, path[..|path| - 1], ws[..|ws| - 1])
  {
  }

  lemma WalkExtend(g: Graph, path: seq<Node>, ws: seq<nat>, v: Node, w: nat)
    requires IsWalk(g, path, ws)
    requires (v, w) in Neighbors(g, path[|path| - 1])
    ensures IsWalk(g, path + [v], ws + [w])
    ensures Sum(ws + [w]) == Sum(ws) + w
  {
    assert (ws + [w])[..|ws|] == ws;
  }

  /** No walk from the start is shorter than the computed distance of where it ends. */
  lemma {:induction false} WalkBound(g: Graph, start: Node, dist: map<Node, Dist>,
                                     parent: map<Node, Option<Node>>, rank: map<Node, nat>,
                                     path: seq<Node>, ws: seq<nat>)
    requires ShortestPathTree(g, start, dist, parent, rank)
    requires IsWalk(g, path, ws) && path[0] == start
    ensures path[|path| - 1] in dist && dist[path[|path| - 1]].Fin?
    ensures dist[path[|path| - 1]].d <= Sum(ws)
  {
    if ws != [] {
      WalkPrefix(g, path, ws);
      WalkBound(g, start, dist, parent, rank, path[..|path| - 1], ws[..|ws| - 1]);
      var u, e := path[|path| - 2], (path[|path| - 1], ws[|ws| - 1]);
      assert e in Neighbors(g, u);
      assert RelaxedEdge(dist, dist[u].d, e);
    }
  }

  /** A node the run left at infinity cannot be reached by any walk from the start. */
  lemma Unreachable(g: Graph, start: Node, dist: map<Node, Dist>,
                    parent: map<Node, Option<Node>>, rank: map<Node, nat>, target: Node)
    requires ShortestPathTree(g, start, dist, parent, rank)
    requires target in dist && dist[target] == Inf
    ensures forall path, ws :: IsWalk(g, path, ws) && path[0] == start ==> path[|path| - 1] != target
  {
    forall path, ws | IsWalk(g, path, ws) && path[0] == start ensures path[|path| - 1] != target {
      WalkBound(g, start, dist, parent, rank, path, ws);
    }
  }

  /** `shortest_path(parent, target)` for an unreachable target is `[target]`. */
  lemma UnreachablePath(g: Graph, start: Node, dist: map<Node, Dist>,
                        parent: map<Node, Option<Node>>, rank: map<Node, nat>, target: Node)
    requires ShortestPathTree(g, start, dist, parent, rank)
    requires target in parent && dist[target] == Inf
    ensures PathTo(parent, target, rank) == [target]
  {
    if parent[target].Some? {
      assert LinkedTo(parent, target, parent[target].value);
    }
  }

  /**
   * The route rebuilt from the parent links of a reached node starts at the
   * start and is a walk whose weight is exactly the node's distance.
   */
  lemma {:induction false} TreePath(g: Graph, start: Node, dist: map<Node, Dist>,
                                    parent: map<Node, Option<Node>>, rank: map<Node, nat>, target: Node)
    returns (ws: seq<nat>)
    requires ShortestPathTree(g, start, dist, parent, rank)
    requires target in parent && dist[target].Fin?
    ensures PathTo(parent, target, rank)[0] == start
    ensures IsWalk(g, PathTo(parent, target, rank), ws)
    ensures Sum(ws) == dist[target].d
    decreases if target in rank then rank[target] else 0
  {
    match parent[target]
    case None =>
      ws := [];
    case Some(p) =>
      assert LinkedTo(parent, target, p);
      assert TreeEdge(g, dist, p, target);
      ws := TreePath(g, start, dist, parent, rank, p);
      WalkExtend(g, PathTo(parent, p, rank), ws, target, dist[target].d - dist[p].d);
      ws := ws + [dist[target].d - dist[p].d];
  }

  /** Hence that route is a shortest walk: no walk from the start to the target weighs less. */
  lemma TreePathShortest(g: Graph, start: Node, dist: map<Node, Dist>,
                         parent: map<Node, Option<Node>>, rank: map<Node, nat>, target: Node,
                         path: seq<Node>, ws: seq<nat>)
    returns (treeWs: seq<nat>)
    requires ShortestPathTree(g, start, dist, parent, rank)
    requires target in parent
    requires IsWalk(g, path, ws) && path[0] == start && path[|path| - 1] == target
    ensures IsWalk(g, PathTo(parent, target, rank), treeWs)
    ensures PathTo(parent, target, rank)[0] == start
    ensures Sum(treeWs) <= Sum(ws)
  {
    WalkBound(g, start, dist, parent, rank, path, ws);
    treeWs := TreePath(g, start, dist, parent, rank, target);
  }

  /**
   * A potential: a lower bound on distances that every edge respects. Any
   * walk from the start weighs at least the potential of where it ends.
   */
  ghost predicate Feasible(g: Graph, start: Node, pot: map<Node, nat>)
  {
    && start in pot && pot[start] == 0
    && forall u: Node, j :: 0 <= j < |Neighbors(g, u)| ==>
         u in pot && Neighbors(g, u)[j].0 in pot && pot[Neighbors(g, u)[j].0] <= pot[u] + Neighbors(g, u)[j].1
  }

  lemma {:induction false} PotentialBound(g: Graph, start: Node, pot: map<Node, nat>, path: seq<Node>, ws: seq<nat>)
    requires Feasible(g, start, pot)
    requires IsWalk(g, path, ws) && path[0] == start
    ensures path[|path| - 1] in pot && pot[path[|path| - 1]] <= Sum(ws)
  {
    if ws != [] {
      WalkPrefix(g, path, ws);
      PotentialBound(g, start, pot, path[..|path| - 1], ws[..|ws| - 1]);
      var u := path[|path| - 2];
      assert (path[|path| - 1], ws[|ws| - 1]) in Neighbors(g, u);
      var j :| 0 <= j < |Neighbors(g, u)| && Neighbors(g, u)[j] == (path[|path| - 1], ws[|ws| - 1]);
    }
  }

  /** The computed distance of a reached node is at least any feasible potential. */
  lemma DistAtLeastPotential(g: Graph, start: Node, dist: map<Node, Dist>,
                             parent: map<Node, Option<Node>>, rank: map<Node, nat>,
                             pot: map<Node, nat>, target: Node)
    requires ShortestPathTree(g, start, dist, parent, rank)
    requires Feasible(g, start, pot)
    requires target in parent && dist[target].Fin?
    ensures target in pot && pot[target] <= dist[target].d
  {
    var ws := TreePath(g, start, dist, parent, rank, target);
    PotentialBound(g, start, pot, PathTo(parent, target, rank), ws);
  }
}
