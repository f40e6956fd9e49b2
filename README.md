# Ride-hailing dispatch: a verified model

This project models the dispatch core of a small ride-hailing simulator (`app.py`).
The server keeps a fixed city map: an undirected, weighted adjacency list loaded from an edge list at startup.
Drivers register at places on the map and passengers queue ride requests.
An assignment takes the oldest request and picks the idle driver nearest the pickup, using lazy-deletion Dijkstra from the pickup.
It routes the driver to the pickup and on to the destination along parent-link shortest paths, prices the route and records an ongoing ride.
A finished trip moves the driver, pays the fare and frees the driver; a finished ride can then be rated.

Modules, leaf first:

- `Wrappers` (wrappers.dfy): `Option`, `Result` and `Outcome`.
- `CityGraph` (graph.dfy): the adjacency list, `add_edge`, and the startup loading loop.
- `ShortestPaths` (dijkstra.dfy): `dijkstra` as a method with its two loops, and `shortest_path`.
  - The heap is kept as the set of its entries. The run never pushes an entry that is already queued, so no duplicate is lost.
  - The heap pop returns the least entry in Python tuple order.
  - The result is proved to be a `ShortestPathTree`: the start is at 0, every edge out of a reached node is relaxed, and every parent link is a tree edge. Parent links descend in the order nodes were settled.
- `Optimality` (optimality.dfy): what such a tree guarantees.
  - No walk from the start is shorter than `dist`.
  - The route rebuilt from the parent links is a walk of exactly that length, so it is a shortest walk.
  - A node left at infinity is unreachable, and its route is `[target]`.
- `Routes` (route.dfy): `compute_distance_on_graph`, with its first-matching-entry lookup, and the weight of a joined route.
- `Fares` (fare.dfy): `compute_fare` in integer cents.
- `Dispatch` (dispatch.dfy): the dispatcher's state as a class `Dispatcher`. Its atomic methods are the locked sections of the endpoints and of `run_trip`, and they preserve the state invariant `Consistent`.
- `SampleCity` (sample.dfy): the seven-place startup map.
  - The startup loop builds exactly these adjacency lists.
  - `dijkstra("A")` gives the distances A 0, B 4, C 2, D 9, E 11, F 7, G 14.
  - The route to E is A, B, D, E, of length 11 and fare 130.00.

Representation choices:

- Place names are numbers: A..G are 0..6.
- Driver ids are naturals, so the heap's tie-break on `driver_id` is the order on ids.
- `float('inf')` is the `Inf` case of `Dist`.
- Weights are naturals. Fares and earnings are integer cents, in which `round(..., 2)` is exact.

Behaviour of the code worth knowing:

- A missing ride and a ride that is not yet completed get the same rating error, `RideNotCompletedOrNotFound` (app.py:231-232).
- The heap of idle drivers compares `(dist, driver_id, loc)` (app.py:152), so a distance tie goes to the smaller driver id. Unreachable idle drivers stay eligible at distance infinity.

## Model

| member | source | states |
|---|---|---|
| CityGraph.AddEdge | app.py:15-18 | the node set gains u and v; `(v, w)` is appended to u's list and `(u, w)` to v's (twice to u's list for a loop); every other list is unchanged |
| CityGraph.AddEdgeWellFormed | app.py:15-18 | adding an edge keeps every listed neighbour a registered node |
| CityGraph.AddEdgeSymmetric | app.py:15-18 | adding an edge keeps the lists symmetric: each entry `(v, w)` of u has a partner `(u, w)` in v's list |
| CityGraph.FromEdgesSnoc | app.py:26-27 | loading one more edge is one more `add_edge` on the graph loaded so far |
| CityGraph.BuildGraph | app.py:26-27 | the startup loop returns the graph `FromEdges(edges)`, which is well formed and symmetric |
| CityGraph.FromEdgesNodes | app.py:13-27 | a node is in `nodes` if and only if it is an endpoint of some listed edge |
| CityGraph.FromEdgesEntries | app.py:15-27 | every adjacency entry comes from a listed edge, read one way or the other, with that edge's weight |
| ShortestPaths.HeapMin | app.py:44 | the popped entry is in the heap and is least in `(d, u)` tuple order |
| ShortestPaths.RunInvInit | app.py:39-42 | the initial `dist` (infinity everywhere, 0 at start), `parent` (all `None`) and heap `[(0, start)]` satisfy the loop invariant |
| ShortestPaths.PopStale | app.py:44-45 | popping an entry whose key exceeds the node's distance (the `continue`) keeps the invariant and shrinks the heap |
| ShortestPaths.PopSettle | app.py:44-45 | popping a current least entry settles a node not settled before, at its final distance, and the unsettled set shrinks |
| ShortestPaths.RelaxImproves | app.py:47-50 | an improving relaxation pushes an entry not already queued and keeps the inner invariant |
| ShortestPaths.RelaxSkips | app.py:47 | a relaxation that does not improve keeps the inner invariant with one more edge relaxed |
| ShortestPaths.RelaxEdges | app.py:46-50 | the inner loop leaves every edge out of the settled node relaxed |
| ShortestPaths.RelaxDone | app.py:43-50 | after all of u's edges are relaxed the outer invariant holds again |
| ShortestPaths.RunDone | app.py:43-51 | when the heap is empty the maps form a shortest-path tree |
| ShortestPaths.Dijkstra | app.py:38-51 | the result is a `ShortestPathTree`: keys are all nodes, start at 0 with no parent, every edge out of a reached node relaxed, every parent link a tree edge with `dist[v] == dist[p] + w`, every reached non-start node has a parent, and the links are acyclic |
| ShortestPaths.Reversed | app.py:59 | `s[::-1]`: same length, element i is element `len - 1 - i` of s |
| ShortestPaths.PathTo | app.py:53-59 | the rebuilt route is non-empty, ends at the target, starts at a node with no parent, and each consecutive pair is a parent link |
| ShortestPaths.ShortestPath | app.py:53-59 | the append-then-reverse loop returns `PathTo(parent, target)`; it terminates because links descend in settle order |
| ShortestPaths.ReversedSnoc | app.py:57-59 | reversing after one more append puts that node first |
| Optimality.WalkBound | app.py:38-51 | after a run, every walk from the start ends at a reached node whose distance is at most the walk's weight |
| Optimality.Unreachable | app.py:38-51 | a node left at infinity is the end of no walk from the start |
| Optimality.UnreachablePath | app.py:53-59 | `shortest_path` for a node left at infinity is `[target]` |
| Optimality.TreePath | app.py:38-59 | for a reached node the rebuilt route starts at the start and is a walk weighing exactly `dist[target]` |
| Optimality.TreePathShortest | app.py:38-59 | the rebuilt route weighs no more than any walk from the start to the target |
| Optimality.PotentialBound | app.py:38-51 | a walk from the start weighs at least any feasible potential of its end |
| Optimality.DistAtLeastPotential | app.py:38-51 | a computed distance is at least any feasible potential |
| Routes.StepWeight | app.py:86-88 | the step weight is the weight of the first entry for v in u's list, or 0 when v is not listed |
| Routes.FirstEntryWeight | app.py:86-88 | the first entry for v decides the step weight |
| Routes.NoEntryWeight | app.py:86-88 | a step with no entry adds nothing |
| Routes.ScanStep | app.py:86-88 | the inner scan returns the step weight |
| Routes.PathWeightSnoc | app.py:83-88 | extending a route by one node adds that step's weight |
| Routes.ComputeDistance | app.py:79-89 | the accumulator loop returns `PathWeight(g, path)`, which is 0 for an empty or one-node path |
| Routes.WalkWeight | app.py:79-89 | without parallel edges of different weights, the charged length of a walk is its weight |
| Routes.TreeRouteWeight | app.py:53-89 | without parallel edges of different weights, the route rebuilt from a run's parent links to a reached node is charged exactly that node's distance |
| Routes.JoinWeight | app.py:164-166 | joining two routes that share the meeting node, dropping the repeat, charges the sum of their lengths |
| Routes.CombinedRouteWeight | app.py:159-166 | the combined route weighs the driver-to-pickup distance plus the pickup-to-destination distance when both are reachable |
| Fares.Fare | app.py:91-92 | the fare is at least the base fare and determines the distance charged |
| Fares.FareOfNoDistance | app.py:70-71 | a zero-length trip costs exactly the base fare, 20.00 |
| Fares.FareStrictlyIncreasing | app.py:91-92 | a longer trip costs strictly more, and conversely |
| Dispatch.NearestUnique | app.py:146-157 | at most one idle driver is least in `(dist, driver_id)` order, so the choice does not depend on visiting order |
| Dispatch.NearestIdleDriver | app.py:146-157 | no driver is returned exactly when no driver is idle; otherwise the returned driver is idle and least in `(dist, driver_id)` order among all idle drivers, with unreachable ones at infinity |
| Dispatch.PlanRoute | app.py:159-167 | the route is `path_to_passenger + path_to_dest[1:]` from runs of Dijkstra from the driver and from the pickup; the distance is its charged length and the fare its price |
| Dispatch.PlannedRouteDistance | app.py:159-166 | a planned route is charged the two shortest distances added |
| Dispatch.LocateRide | app.py:200-201 | the first ride with the id (as in the loops of `run_trip` and `api_rate_ride`), or none exactly when no ride has it |
| Dispatch.RideIdsUnique | app.py:171 | in a consistent state no two rides share an id |
| Dispatch.AddDriverKeeps | app.py:121 | registering a driver at a node keeps the invariant |
| Dispatch.RequestKeeps | app.py:133 | queueing a valid request keeps the invariant |
| Dispatch.AssignKeeps | app.py:142-187 | dequeuing, putting the driver on the trip and appending the ride keeps the invariant |
| Dispatch.CompleteKeeps | app.py:196-202 | completing a ride keeps the invariant |
| Dispatch.CompletedOnce | app.py:200-204 | after a completion no ride with that id is ongoing, so a ride is paid for once |
| Dispatch.RateKeeps | app.py:234-235 | updating a driver's rating keeps the invariant |
| Dispatch.MatchDriver | app.py:144-157 | from a run of Dijkstra from the pickup, the nearest idle driver, or none exactly when none is idle |
| Dispatch.AssignFirst | app.py:140-187 | an empty queue fails with nothing changed; with no idle driver the request is put back at the head, so nothing changes; with a request and an idle driver it succeeds, and on success `Assigned` holds: the head is dequeued, the driver is the nearest idle one and goes on the trip, the route and fare are planned, and a ride with the old counter value is appended as ongoing while the counter goes up by 1 |
| Dispatch.Dispatcher.constructor | app.py:64-67 | no drivers, no requests, no rides, next ride id 1 |
| Dispatch.Dispatcher.AddDriver | app.py:116-121 | a missing id or a place off the map fails with nothing changed; otherwise the driver is (re)registered idle there with no earnings and no ratings |
| Dispatch.Dispatcher.RequestRide | app.py:127-133 | a missing passenger or a place off the map fails with nothing changed; otherwise the request joins the back of the queue |
| Dispatch.Dispatcher.AssignNext | app.py:136-187 | the three outcomes of `AssignFirst` on the dispatcher's state: failure exactly when the queue is empty or no driver is idle, with nothing changed; otherwise `Assigned`; `Consistent` is kept |
| Dispatch.Dispatcher.CompleteTrip | app.py:194-204 | for an ongoing ride: the driver moves to the destination, earns the fare and is idle; the first ride with the id goes from ongoing to completed; nothing else changes |
| Dispatch.Dispatcher.RateRide | app.py:223-236 | a missing id, or an id with no completed ride, fails with nothing changed; otherwise the ride's driver gains the rating in `rating_sum` and one in `rating_count` |
| SampleCity.SampleLoad | app.py:21-27 | loading the sample edges is the nine `add_edge` calls in order |
| SampleCity.SampleMap | app.py:13-27 | the sample map has the places A..G and the expected adjacency lists |
| SampleCity.SampleDistances | app.py:38-51 | any result of `dijkstra("A")` on the sample map has A 0, B 4, C 2, D 9, E 11, F 7, G 14 |
| SampleCity.SamplePath | app.py:53-59 | `shortest_path` to E after `dijkstra("A")` is A, B, D, E |
| SampleCity.SampleRouteWeight | app.py:79-89 | `compute_distance_on_graph([A, B, D, E])` is 11 |
| SampleCity.SampleRoute | app.py:21-92 | end to end: E is 11 from A, along A, B, D, E, for a fare of 130.00 |

## Left out

- The Flask layer: routing, `request.json`, `jsonify`, HTTP status codes, `index` and `api_state`. Each endpoint is modelled by its outcome (pass, or an error kind) and its effect on the state. The browser front end (`static/app.js`) is not part of this model.
- Threads, `state_lock` and `time.sleep`: each locked section is one atomic method. The trip thread's locked end is `CompleteTrip`, which callers invoke with the id of an ongoing ride, as the one trip thread per ride does; interleavings between trips are not modelled.
- `time.time()` timestamps (`timestamp`, `completed_at`): wall-clock values, dropped from the ride record.
- Floating point: distances use `Inf`/`Fin`, and fares and earnings are integer cents.
- Dispatch.Dispatcher.RateRide: the rating is an integer. The caller supplies 0 when the request has none. Non-numeric ratings, which Python would reject or add differently, are not modelled.
- Ids: driver ids are naturals, ride ids are naturals, and passenger ids are strings. Ids of other JSON types, or mixed types where Python's comparison would raise, are not modelled.
- `city_coords`: only its key set matters, for the validation of places. The model checks places against the graph's nodes, which are the same seven places.
- `graph[u]` on a `defaultdict` inserts an empty list for a node without edges. The model reads an absent list as empty and does not record that insertion, which changes no result.
- ShortestPaths.HeapMin: the heap is a set of entries, not an array heap. Only the order in which entries come out is modelled, not the array layout `heapq` keeps.
- Routes.WalkWeight: relates the charged length to a walk's weight only for graphs without parallel edges of different weights (`SingleWeights`). With such edges, `compute_distance_on_graph` takes the first listed weight, which is what `PathWeight` models, and the two can differ.
- Routes.TreeRouteWeight: the same restriction to `SingleWeights`, for the same reason.
- Routes.CombinedRouteWeight: the same restriction to `SingleWeights`, and both legs must be reachable.
- Dispatch.PlannedRouteDistance: the same restriction to `SingleWeights`, and both legs must be reachable.
- Dispatch.AssignFirst: when the pickup cannot be reached from the driver, the route starts at the pickup, as `shortest_path` returns `[target]`. The model keeps this behaviour and does not flag it.
