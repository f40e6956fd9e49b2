/**
 * `compute_distance_on_graph`: the length the dispatcher charges for a
 * route, found by summing, for each step, the weight of the first matching
 * entry in the adjacency list.
 */
module Routes {
  import opened Wrappers
  import opened CityGraph
  import opened ShortestPaths
  import opened Optimality

  /** Whether v occurs as a neighbour in `nbrs`. */
  predicate HasNeighbor(nbrs: seq<(Node, nat)>, v: Node)
  {
    exists j :: 0 <= j < |nbrs| && nbrs[j].0 == v
  }

  /**
   * The weight the inner `for neigh, w in graph[u]` loop adds for a step to
   * v: the weight of the first entry for v, or nothing when there is none.
   */
  function StepWeight(nbrs: seq<(Node, nat)>, v: Node): (w: nat)
    ensures !HasNeighbor(nbrs, v) ==> w == 0
    ensures HasNeighbor(nbrs, v) ==>
      exists j :: 0 <= j < |nbrs| && nbrs[j] == (v, w) && forall k :: 0 <= k < j ==> nbrs[k].0 != v
  {
    if nbrs == [] then 0
    else if nbrs[0].0 == v then nbrs[0].1
    else
      var w := StepWeight(nbrs[1..], v);
      assert HasNeighbor(nbrs, v) ==> HasNeighbor(nbrs[1..], v) by {
        if HasNeighbor(nbrs, v) {
          var j :| 0 <= j < |nbrs| && nbrs[j].0 == v;
          assert nbrs[1..][j - 1].0 == v;
        }
      }
      if HasNeighbor(nbrs[1..], v) then
        var j :| 0 <= j < |nbrs| - 1 && nbrs[1..][j] == (v, w) && forall k :: 0 <= k < j ==> nbrs[1..][k].0 != v;
        assert nbrs[j + 1] == (v, w);
        assert forall k :: 0 <= k < j + 1 ==> nbrs[k].0 != v by {
          forall k | 0 <= k < j + 1 ensures nbrs[k].0 != v {
            if k > 0 {
              assert nbrs[k] == nbrs[1..][k - 1];
            }
          }
        }
        w
      else
        w
  }

  /** The total `compute_distance_on_graph(path)` returns. */
  function PathWeight(g: Graph, path: seq<Node>): nat
  {
    if |path| <= 1 then 0
    else PathWeight(g, path[..|path| - 1]) + StepWeight(Neighbors(g, path[|path| - 2]), path[|path| - 1])
  }

  /** The first entry for v decides the step weight. */
  lemma {:induction false} FirstEntryWeight(nbrs: seq<(Node, nat)>, v: Node, j: nat)
    requires j < |nbrs| && nbrs[j].0 == v
    requires forall k :: 0 <= k < j ==> nbrs[k].0 != v
    ensures StepWeight(nbrs, v) == nbrs[j].1
  {
    if j > 0 {
      assert nbrs[0].0 != v;
      FirstEntryWeight(nbrs[1..], v, j - 1);
    }
  }

  /** A step to a node with no entry weighs nothing. */
  lemma NoEntryWeight(nbrs: seq<(Node, nat)>, v: Node)
    requires forall k :: 0 <= k < |nbrs| ==> nbrs[k].0 != v
    ensures StepWeight(nbrs, v) == 0
  {
    assert !HasNeighbor(nbrs, v);
  }

  /** The inner loop of `compute_distance_on_graph`: scan u's list for the first entry to v. */
  method ScanStep(nbrs: seq<(Node, nat)>, v: Node) returns (w: nat)
    ensures w == StepWeight(nbrs, v)
  {
    w := 0;
    var j := 0;
    while j < |nbrs|
      invariant 0 <= j <= |nbrs|
      invariant forall k :: 0 <= k < j ==> nbrs[k].0 != v
    {
      if nbrs[j].0 == v {
        FirstEntryWeight(nbrs, v, j);
        w := nbrs[j].1;
        return;
      }
      j := j + 1;
    }
    NoEntryWeight(nbrs, v);
  }

  /** Extending a route by one node adds the weight of that step. */
  lemma PathWeightSnoc(g: Graph, path: seq<Node>, i: nat)
    requires i + 1 < |path|
    ensures PathWeight(g, path[..i + 2]) == PathWeight(g, path[..i + 1]) + StepWeight(Neighbors(g, path[i]), path[i + 1])
  {
    assert path[..i + 2][..i + 1] == path[..i + 1];
  }

  /** `compute_distance_on_graph(path)` */
  method ComputeDistance(g: Graph, path: seq<Node>) returns (total: nat)
    ensures total == PathWeight(g, path)
  {
    total := 0;
    if |path| <= 1 {
      return;
    }
    assert path[..|path|] == path;
    for i := 0 to |path| - 1
      invariant total == PathWeight(g, path[..i + 1])
    {
      var w := ScanStep(Neighbors(g, path[i]), path[i + 1]);
      PathWeightSnoc(g, path, i);
      total := total + w;
    }
  }

  /** Between any two nodes all adjacency entries carry the same weight (no parallel edges of different lengths). */
  ghost predicate SingleWeights(g: Graph)
  {
    forall u: Node, i, j ::
      0 <= i < |Neighbors(g, u)| && 0 <= j < |Neighbors(g, u)| && Neighbors(g, u)[i].0 == Neighbors(g, u)[j].0
      ==> Neighbors(g, u)[i].1 == Neighbors(g, u)[j].1
  }

  /** With single weights, the charged length of a walk is its weight. */
  lemma {:induction false} WalkWeight(g: Graph, path: seq<Node>, ws: seq<nat>)
    requires SingleWeights(g) && IsWalk(g, path, ws)
    ensures PathWeight(g, path) == Sum(ws)
  {
    if ws != [] {
      WalkPrefix(g, path, ws);
      WalkWeight(g, path[..|path| - 1], ws[..|ws| - 1]);
      var u, v, w := path[|path| - 2], path[|path| - 1], ws[|ws| - 1];
      assert (v, w) in Neighbors(g, u);
      assert HasNeighbor(Neighbors(g, u), v);
    }
  }

  /** Joining two routes that meet, dropping the repeated meeting node, adds their charged lengths. */
  lemma {:induction false} JoinWeight(g: Graph, p: seq<Node>, q: seq<Node>)
    requires p != [] && q != [] && p[|p| - 1] == q[0]
    ensures PathWeight(g, p + q[1..]) == PathWeight(g, p) + PathWeight(g, q)
  {
    if |q| > 1 {
      var q' := q[..|q| - 1];
      JoinWeight(g, p, q');
      var r := p + q[1..];
      var last := StepWeight(Neighbors(g, q[|q| - 2]), q[|q| - 1]);
      assert r[..|r| - 1] == p + q'[1..];
      assert r[|r| - 1] == q[|q| - 1];
      assert r[|r| - 2] == q[|q| - 2] by {
        if |q| == 2 {
          assert r[|r| - 2] == p[|p| - 1];
        } else {
          assert r[|r| - 2] == q[1..][|q| - 3];
        }
      }
      assert PathWeight(g, r) == PathWeight(g, p + q'[1..]) + last;
      assert PathWeight(g, q) == PathWeight(g, q') + last;
    } else {
      assert p + q[1..] == p;
    }
  }

  /**
   * With single weights, the route `shortest_path` rebuilds from a run of
   * `dijkstra` to a reached node is charged exactly that node's distance.
   */
  lemma TreeRouteWeight(g: Graph, start: Node, dist: map<Node, Dist>, parent: map<Node, Option<Node>>,
                        rank: map<Node, nat>, target: Node)
    requires SingleWeights(g)
    requires ShortestPathTree(g, start, dist, parent, rank)
    requires target in parent && dist[target].Fin?
    ensures PathWeight(g, PathTo(parent, target, rank)) == dist[target].d
  {
    var ws := TreePath(g, start, dist, parent, rank, target);
    WalkWeight(g, PathTo(parent, target, rank), ws);
  }

  /**
   * The route the dispatcher charges for, `path_to_passenger +
   * path_to_dest[1:]`, weighs the driver-to-passenger distance plus the
   * passenger-to-destination distance when both are reachable.
   */
  lemma CombinedRouteWeight(g: Graph, loc: Node, src: Node, dst: Node,
                            distA: map<Node, Dist>, parentA: map<Node, Option<Node>>, rankA: map<Node, nat>,
                            distB: map<Node, Dist>, parentB: map<Node, Option<Node>>, rankB: map<Node, nat>)
    requires SingleWeights(g)
    requires ShortestPathTree(g, loc, distA, parentA, rankA) && ShortestPathTree(g, src, distB, parentB, rankB)
    requires src in parentA && distA[src].Fin? && dst in parentB && distB[dst].Fin?
    ensures PathWeight(g, PathTo(parentA, src, rankA) + PathTo(parentB, dst, rankB)[1..]) ==
            distA[src].d + distB[dst].d
  {
    var wsA := TreePath(g, loc, distA, parentA, rankA, src);
    var wsB := TreePath(g, src, distB, parentB, rankB, dst);
    WalkWeight(g, PathTo(parentA, src, rankA), wsA);
    WalkWeight(g, PathTo(parentB, dst, rankB), wsB);
    JoinWeight(g, PathTo(parentA, src, rankA), PathTo(parentB, dst, rankB));
  }
}
