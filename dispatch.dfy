/**
 * The dispatcher's state (`drivers`, `requests_q`, `ride_history`,
 * `next_ride_id` in app.py) and the operations that change it: registering a
 * driver, queueing a ride request, assigning the oldest request to the
 * nearest idle driver, finishing a trip and rating a finished ride. Each
 * method is one locked section of the original endpoints.
 */
module Dispatch {
  import opened Wrappers
  import opened CityGraph
  import opened ShortestPaths
  import opened Routes
  import opened Fares

  /** Driver ids are ordered: the heap of `(dist, driver_id, loc)` breaks distance ties by id. */
  type DriverId = nat

  type PassengerId = string

  datatype DriverStatus = Idle | OnTrip

  /** `{loc, earnings, rating_sum, rating_count, status}`; earnings in cents. */
  datatype Driver = Driver(loc: Node, earnings: nat, ratingSum: int, ratingCount: nat, status: DriverStatus)

  /** A queued request `(passenger_id, source, destination)`. */
  datatype Request = Request(passenger: PassengerId, source: Node, destination: Node)

  datatype RideStatus = Ongoing | Completed

  /** A `ride_history` entry (its wall-clock timestamps are not modelled). */
  datatype Ride = Ride(id: nat, passenger: PassengerId, driver: DriverId, source: Node, destination: Node,
                       path: seq<Node>, distance: nat, fare: nat, status: RideStatus)

  /** The `ride` object `api_assign_next` answers with. */
  datatype Assignment = Assignment(rideId: nat, driver: DriverId, driverLoc: Node, path: seq<Node>,
                                   distance: nat, fare: nat)

  /** The failure answers of the endpoints. */
  datatype Error =
    | InvalidDriverOrLocation
    | InvalidRequest
    | NoRequests
    | NoAvailableDrivers
    | MissingRideId
    | RideNotCompletedOrNotFound

  /** One run of `dijkstra`: its distances and parent links, and the ghost settle order. */
  datatype Tree = Tree(dist: map<Node, Dist>, parent: map<Node, Option<Node>>, rank: map<Node, nat>)

  // ---------------------------------------------------------------------
  // Choosing the driver
  // ---------------------------------------------------------------------

  /** `dist_from_src.get(loc, float('inf'))` */
  function DistOf(dist: map<Node, Dist>, loc: Node): Dist
  {
    if loc in dist then dist[loc] else Inf
  }

  /** Float order on distances, where `inf` exceeds every number. */
  predicate DistLess(a: Dist, b: Dist)
  {
    a.Fin? && (b.Inf? || a.d < b.d)
  }

  /** Python's order on `(dist, driver_id)`: by distance, then by id. */
  predicate PicksBefore(da: Dist, a: DriverId, db: Dist, b: DriverId)
  {
    DistLess(da, db) || (da == db && a <= b)
  }

  /** `id` is the idle driver `heapq.heappop(heap)` returns. */
  ghost predicate Nearest(drivers: map<DriverId, Driver>, dist: map<Node, Dist>, id: DriverId)
  {
    && id in drivers && drivers[id].status == Idle
    && forall o :: o in drivers && drivers[o].status == Idle ==>
         PicksBefore(DistOf(dist, drivers[id].loc), id, DistOf(dist, drivers[o].loc), o)
  }

  /** The choice does not depend on the order drivers are visited: at most one driver is nearest. */
  lemma NearestUnique(drivers: map<DriverId, Driver>, dist: map<Node, Dist>, a: DriverId, b: DriverId)
    requires Nearest(drivers, dist, a) && Nearest(drivers, dist, b)
    ensures a == b
  {
    var da, db := DistOf(dist, drivers[a].loc), DistOf(dist, drivers[b].loc);
    assert PicksBefore(da, a, db, b) && PicksBefore(db, b, da, a);
  }

  /**
   * The heap of idle drivers and its first pop: every idle driver goes in,
   * reachable or not, and the least `(dist, driver_id)` comes out.
   */
  method NearestIdleDriver(drivers: map<DriverId, Driver>, dist: map<Node, Dist>) returns (pick: Option<DriverId>)
    ensures pick.None? <==> forall o :: o in drivers ==> drivers[o].status != Idle
    ensures pick.Some? ==> Nearest(drivers, dist, pick.value)
  {
    pick := None;
    var todo := drivers.Keys;
    while todo != {}
      invariant todo <= drivers.Keys
      invariant pick.None? <==> forall o :: o in drivers && o !in todo ==> drivers[o].status != Idle
      invariant pick.Some? ==> pick.value in drivers && pick.value !in todo && drivers[pick.value].status == Idle
      invariant pick.Some? ==> forall o :: o in drivers && o !in todo && drivers[o].status == Idle ==>
        PicksBefore(DistOf(dist, drivers[pick.value].loc), pick.value, DistOf(dist, drivers[o].loc), o)
      decreases |todo|
    {
      var id :| id in todo;
      var info := drivers[id];
      if info.status == Idle {
        if pick.None? || !PicksBefore(DistOf(dist, drivers[pick.value].loc), pick.value, DistOf(dist, info.loc), id) {
          pick := Some(id);
        }
      }
      todo := todo - {id};
    }
  }

  /**
   * The route of an assignment: `path_to_passenger` from the run of
   * `dijkstra(driver_loc)`, joined without repeating the pickup node to
   * `path_to_dest` from a run of `dijkstra(source)`.
   */
  ghost predicate PlannedRoute(g: Graph, loc: Node, source: Node, destination: Node,
                               toPassenger: Tree, toDestination: Tree, path: seq<Node>)
  {
    && ShortestPathTree(g, loc, toPassenger.dist, toPassenger.parent, toPassenger.rank)
    && ShortestPathTree(g, source, toDestination.dist, toDestination.parent, toDestination.rank)
    && source in toPassenger.parent && destination in toDestination.parent
    && path == PathTo(toPassenger.parent, source, toPassenger.rank) +
               PathTo(toDestination.parent, destination, toDestination.rank)[1..]
  }

  /** The routing and pricing steps of `api_assign_next`, once the driver is chosen. */
  method PlanRoute(g: Graph, loc: Node, source: Node, destination: Node)
    returns (path: seq<Node>, distance: nat, fare: nat, ghost toPassenger: Tree, ghost toDestination: Tree)
    requires WellFormed(g) && source in g.nodes && destination in g.nodes
    ensures PlannedRoute(g, loc, source, destination, toPassenger, toDestination, path)
    ensures distance == PathWeight(g, path) && fare == Fare(distance)
  {
    var distD, parentD, rankD := Dijkstra(g, loc);
    toPassenger := Tree(distD, parentD, rankD);
    var pathToPassenger := ShortestPath(parentD, source, rankD);
    var distS, parentS, rankS := Dijkstra(g, source);
    toDestination := Tree(distS, parentS, rankS);
    var pathToDest := ShortestPath(parentS, destination, rankS);
    path := pathToPassenger + pathToDest[1..];
    distance := ComputeDistance(g, path);
    fare := Fare(distance);
  }

  /**
   * With single edge weights, an assignment is charged for the driver's
   * distance to the passenger plus the passenger's distance to the
   * destination, when both are reachable.
   */
  lemma PlannedRouteDistance(g: Graph, loc: Node, source: Node, destination: Node,
                             toPassenger: Tree, toDestination: Tree, path: seq<Node>)
    requires PlannedRoute(g, loc, source, destination, toPassenger, toDestination, path)
    requires SingleWeights(g)
    requires toPassenger.dist[source].Fin? && toDestination.dist[destination].Fin?
    ensures PathWeight(g, path) == toPassenger.dist[source].d + toDestination.dist[destination].d
  {
    CombinedRouteWeight(g, loc, source, destination,
                        toPassenger.dist, toPassenger.parent, toPassenger.rank,
                        toDestination.dist, toDestination.parent, toDestination.rank);
  }

  /** The first ride in the history with the given id, as the `for r in ride_history` loops find it. */
  method LocateRide(history: seq<Ride>, rideId: nat) returns (found: Option<nat>)
    ensures found.None? <==> forall i :: 0 <= i < |history| ==> history[i].id != rideId
    ensures found.Some? ==> found.value < |history| && history[found.value].id == rideId
    ensures found.Some? ==> forall i :: 0 <= i < found.value ==> history[i].id != rideId
  {
    found := None;
    for i := 0 to |history|
      invariant forall j :: 0 <= j < i ==> history[j].id != rideId
    {
      if history[i].id == rideId {
        return Some(i);
      }
    }
  }

  // ---------------------------------------------------------------------
  // The invariant of the dispatcher's state, and the updates that keep it
  // ---------------------------------------------------------------------

  /**
   * Locations are nodes of the map, each ride's driver is registered, ride
   * ids are issued in increasing order below the counter, and a driver on a
   * trip has an ongoing ride.
   */
  ghost predicate Consistent(g: Graph, drivers: map<DriverId, Driver>, requests: seq<Request>,
                             history: seq<Ride>, nextRideId: nat)
  {
    && WellFormed(g)
    && nextRideId >= 1
    && (forall id :: id in drivers ==> drivers[id].loc in g.nodes)
    && (forall i :: 0 <= i < |requests| ==> requests[i].source in g.nodes && requests[i].destination in g.nodes)
    && (forall i :: 0 <= i < |history| ==>
          history[i].driver in drivers && history[i].destination in g.nodes && 1 <= history[i].id < nextRideId)
    && (forall i, j :: 0 <= i < j < |history| ==> history[i].id < history[j].id)
    && (forall id :: id in drivers && drivers[id].status == OnTrip ==>
          exists i :: 0 <= i < |history| && history[i].driver == id && history[i].status == Ongoing)
  }

  /** Ride ids are unique, so the first ride with an id is the only one. */
  lemma RideIdsUnique(g: Graph, drivers: map<DriverId, Driver>, requests: seq<Request>,
                      history: seq<Ride>, nextRideId: nat)
    requires Consistent(g, drivers, requests, history, nextRideId)
    ensures forall i, j :: 0 <= i < |history| && 0 <= j < |history| && history[i].id == history[j].id ==> i == j
  {
  }

  /** (Re)registering an idle driver at a node of the map. */
  lemma AddDriverKeeps(g: Graph, drivers: map<DriverId, Driver>, requests: seq<Request>,
                       history: seq<Ride>, nextRideId: nat, id: DriverId, loc: Node)
    requires Consistent(g, drivers, requests, history, nextRideId) && loc in g.nodes
    ensures Consistent(g, drivers[id := Driver(loc, 0, 0, 0, Idle)], requests, history, nextRideId)
  {
  }

  /** Queueing a request between nodes of the map. */
  lemma RequestKeeps(g: Graph, drivers: map<DriverId, Driver>, requests: seq<Request>,
                     history: seq<Ride>, nextRideId: nat, req: Request)
    requires Consistent(g, drivers, requests, history, nextRideId)
    requires req.source in g.nodes && req.destination in g.nodes
    ensures Consistent(g, drivers, requests + [req], history, nextRideId)
  {
  }

  /** Serving the head request: the driver goes on a trip and a new ongoing ride gets the next id. */
  lemma AssignKeeps(g: Graph, drivers: map<DriverId, Driver>, requests: seq<Request>,
                    history: seq<Ride>, nextRideId: nat, id: DriverId, ride: Ride)
    requires Consistent(g, drivers, requests, history, nextRideId)
    requires requests != [] && id in drivers
    requires ride.id == nextRideId && ride.driver == id && ride.status == Ongoing
    requires ride.destination == requests[0].destination
    ensures Consistent(g, drivers[id := drivers[id].(status := OnTrip)], requests[1..], history + [ride],
                       nextRideId + 1)
  {
    var drivers', history' := drivers[id := drivers[id].(status := OnTrip)], history + [ride];
    forall x | x in drivers' && drivers'[x].status == OnTrip
      ensures exists i :: 0 <= i < |history'| && history'[i].driver == x && history'[i].status == Ongoing
    {
      if x == id {
        assert history'[|history|] == ride;
      } else {
        var i :| 0 <= i < |history| && history[i].driver == x && history[i].status == Ongoing;
        assert history'[i] == history[i];
      }
    }
    assert requests[0].destination in g.nodes;
  }

  /** The end of a trip: its driver becomes idle at the destination and the ride is completed. */
  lemma CompleteKeeps(g: Graph, drivers: map<DriverId, Driver>, requests: seq<Request>,
                      history: seq<Ride>, nextRideId: nat, i: nat, earnings: nat)
    requires Consistent(g, drivers, requests, history, nextRideId) && i < |history|
    ensures var ride := history[i];
      Consistent(g, drivers[ride.driver := drivers[ride.driver].(loc := ride.destination, earnings := earnings,
                                                                 status := Idle)],
                 requests, history[i := ride.(status := Completed)], nextRideId)
  {
    var ride := history[i];
    var drivers' := drivers[ride.driver := drivers[ride.driver].(loc := ride.destination, earnings := earnings,
                                                                 status := Idle)];
    var history' := history[i := ride.(status := Completed)];
    forall x | x in drivers' && drivers'[x].status == OnTrip
      ensures exists j :: 0 <= j < |history'| && history'[j].driver == x && history'[j].status == Ongoing
    {
      var j :| 0 <= j < |history| && history[j].driver == x && history[j].status == Ongoing;
      assert history'[j] == history[j];
    }
  }

  /** Rating touches only the rating fields of one registered driver. */
  lemma RateKeeps(g: Graph, drivers: map<DriverId, Driver>, requests: seq<Request>,
                  history: seq<Ride>, nextRideId: nat, d: DriverId, ratingSum: int, ratingCount: nat)
    requires Consistent(g, drivers, requests, history, nextRideId) && d in drivers
    ensures Consistent(g, drivers[d := drivers[d].(ratingSum := ratingSum, ratingCount := ratingCount)],
                       requests, history, nextRideId)
  {
  }

  /**
   * Ride i of `history0`, which was ongoing, has ended: its driver and its
   * record are updated as `run_trip` does.
   */
  ghost predicate TripCompleted(drivers0: map<DriverId, Driver>, history0: seq<Ride>, i: nat,
                                drivers: map<DriverId, Driver>, history: seq<Ride>)
  {
    && i < |history0|
    && var ride := history0[i];
    && ride.status == Ongoing
    && ride.driver in drivers0
    && history == history0[i := ride.(status := Completed)]
    && drivers == drivers0[ride.driver := drivers0[ride.driver].(
         loc := ride.destination, earnings := drivers0[ride.driver].earnings + ride.fare, status := Idle)]
  }

  /**
   * A ride is completed once: afterwards no ride with its id is ongoing, so
   * `CompleteTrip`, which needs an ongoing ride, cannot pay for it again.
   */
  lemma CompletedOnce(g: Graph, drivers0: map<DriverId, Driver>, requests: seq<Request>, history0: seq<Ride>,
                      nextRideId: nat, i: nat, drivers: map<DriverId, Driver>, history: seq<Ride>)
    requires Consistent(g, drivers0, requests, history0, nextRideId)
    requires TripCompleted(drivers0, history0, i, drivers, history)
    ensures forall j :: 0 <= j < |history| && history[j].id == history0[i].id ==> history[j].status == Completed
  {
    RideIdsUnique(g, drivers0, requests, history0, nextRideId);
  }

  /** Some ride with this id is completed. */
  ghost predicate HasCompletedRide(history: seq<Ride>, rideId: nat)
  {
    exists i :: 0 <= i < |history| && history[i].id == rideId && history[i].status == Completed
  }

  /** Driver d received one more rating, of the given value; no other driver changed. */
  ghost predicate Rated(drivers0: map<DriverId, Driver>, d: DriverId, rating: int, drivers: map<DriverId, Driver>)
  {
    && d in drivers0
    && drivers == drivers0[d := drivers0[d].(ratingSum := drivers0[d].ratingSum + rating,
                                             ratingCount := drivers0[d].ratingCount + 1)]
  }

  /**
   * The state `assign_next` leaves after assigning the first queued request:
   * the request is dequeued, the driver is the idle driver nearest to the
   * pickup (by shortest-path distance from it, ties to the smaller driver
   * id), the route runs along shortest paths to the pickup and on to
   * the destination, the driver is on a trip and the ride is recorded.
   */
  ghost predicate Assigned(g: Graph, drivers0: map<DriverId, Driver>, requests0: seq<Request>,
                           history0: seq<Ride>, nextRideId0: nat, pick: Tree, toPassenger: Tree,
                           toDestination: Tree, a: Assignment, drivers: map<DriverId, Driver>,
                           requests: seq<Request>, history: seq<Ride>, nextRideId: nat)
  {
    && requests0 != []
    && var req := requests0[0];
    && requests == requests0[1..]
    && ShortestPathTree(g, req.source, pick.dist, pick.parent, pick.rank)
    && Nearest(drivers0, pick.dist, a.driver)
    && a.driverLoc == drivers0[a.driver].loc
    && PlannedRoute(g, a.driverLoc, req.source, req.destination, toPassenger, toDestination, a.path)
    && a.distance == PathWeight(g, a.path)
    && a.fare == Fare(a.distance)
    && a.rideId == nextRideId0 && nextRideId == nextRideId0 + 1
    && drivers == drivers0[a.driver := drivers0[a.driver].(status := OnTrip)]
    && history == history0 + [Ride(a.rideId, req.passenger, a.driver, req.source, req.destination,
                                   a.path, a.distance, a.fare, Ongoing)]
  }

  /** The first half of `assign_next`: shortest paths from the pickup, then the nearest idle driver. */
  method MatchDriver(g: Graph, drivers: map<DriverId, Driver>, source: Node)
    returns (chosen: Option<DriverId>, ghost pick: Tree)
    requires WellFormed(g)
    ensures ShortestPathTree(g, source, pick.dist, pick.parent, pick.rank)
    ensures chosen.None? <==> forall o :: o in drivers ==> drivers[o].status != Idle
    ensures chosen.Some? ==> Nearest(drivers, pick.dist, chosen.value)
  {
    var distFromSource, parentFromSource, rankFromSource := Dijkstra(g, source);
    pick := Tree(distFromSource, parentFromSource, rankFromSource);
    chosen := NearestIdleDriver(drivers, distFromSource);
  }

  /**
   * `assign_next` on the dispatcher's state as values: the new state, or the
   * reason nothing was assigned (in which case the state is returned as it was).
   */
  method AssignFirst(g: Graph, drivers0: map<DriverId, Driver>, requests0: seq<Request>,
                     history0: seq<Ride>, nextRideId0: nat)
    returns (r: Result<Assignment, Error>, drivers: map<DriverId, Driver>, requests: seq<Request>,
             history: seq<Ride>, nextRideId: nat, ghost pick: Tree, ghost toPassenger: Tree,
             ghost toDestination: Tree)
    requires Consistent(g, drivers0, requests0, history0, nextRideId0)
    ensures Consistent(g, drivers, requests, history, nextRideId)
    ensures requests0 == [] ==> r == Failure(NoRequests)
    ensures requests0 != [] && (forall o :: o in drivers0 ==> drivers0[o].status != Idle) ==>
      r == Failure(NoAvailableDrivers)
    ensures requests0 != [] && (exists o :: o in drivers0 && drivers0[o].status == Idle) ==> r.Success?
    ensures r.Failure? ==>
      drivers == drivers0 && requests == requests0 && history == history0 && nextRideId == nextRideId0
    ensures r.Success? ==>
      Assigned(g, drivers0, requests0, history0, nextRideId0, pick, toPassenger, toDestination, r.value,
               drivers, requests, history, nextRideId)
  {
    drivers, requests, history, nextRideId := drivers0, requests0, history0, nextRideId0;
    pick, toPassenger, toDestination := Tree(map[], map[], map[]), Tree(map[], map[], map[]), Tree(map[], map[], map[]);
    if requests == [] {
      return Failure(NoRequests), drivers, requests, history, nextRideId, pick, toPassenger, toDestination;
    }
    var req := requests[0];
    requests := requests[1..];
    var chosen;
    chosen, pick := MatchDriver(g, drivers, req.source);
    if chosen.None? {
      requests := [req] + requests;
      assert requests == requests0;
      return Failure(NoAvailableDrivers), drivers, requests, history, nextRideId, pick, toPassenger, toDestination;
    }
    var driverId := chosen.value;
    var driverLoc := drivers[driverId].loc;
    var path, distance, fare;
    path, distance, fare, toPassenger, toDestination := PlanRoute(g, driverLoc, req.source, req.destination);
    var rideId := nextRideId;
    var ride := Ride(rideId, req.passenger, driverId, req.source, req.destination, path, distance, fare, Ongoing);
    AssignKeeps(g, drivers, requests0, history, nextRideId, driverId, ride);
    drivers := drivers[driverId := drivers[driverId].(status := OnTrip)];
    nextRideId := nextRideId + 1;
    history := history + [ride];
    r := Success(Assignment(rideId, driverId, driverLoc, path, distance, fare));
  }

  // ---------------------------------------------------------------------
  // The dispatcher
  // ---------------------------------------------------------------------

  class Dispatcher {
    /** The city map, fixed at startup; its node set stands for the keys of `city_coords`. */
    const g: Graph
    var drivers: map<DriverId, Driver>
    var requests: seq<Request>
    var history: seq<Ride>
    var nextRideId: nat

    /** The invariant every locked section keeps. */
    ghost predicate Valid()
      reads this
    {
      Consistent(g, drivers, requests, history, nextRideId)
    }

    /** The state at startup: no drivers, no requests, no rides, ride ids from 1. */
    constructor (city: Graph)
      requires WellFormed(city)
      ensures Valid()
      ensures g == city && drivers == map[] && requests == [] && history == [] && nextRideId == 1
    {
      g := city;
      drivers := map[];
      requests := [];
      history := [];
      nextRideId := 1;
    }

    /**
     * `api_add_driver`: a missing id or an unknown location is refused;
     * otherwise the driver is (re)registered there, idle, with no earnings
     * and no ratings, replacing any earlier entry for the same id.
     */
    method AddDriver(id: Option<DriverId>, loc: Option<Node>) returns (r: Outcome<Error>)
      requires Valid()
      modifies this
      ensures Valid()
      ensures id.None? || loc.None? || loc.value !in g.nodes ==>
        r == Fail(InvalidDriverOrLocation) && unchanged(this)
      ensures id.Some? && loc.Some? && loc.value in g.nodes ==>
        && r == Pass
        && drivers == old(drivers)[id.value := Driver(loc.value, 0, 0, 0, Idle)]
        && requests == old(requests) && history == old(history) && nextRideId == old(nextRideId)
    {
      if id.None? || loc.None? || loc.value !in g.nodes {
        return Fail(InvalidDriverOrLocation);
      }
      AddDriverKeeps(g, drivers, requests, history, nextRideId, id.value, loc.value);
      drivers := drivers[id.value := Driver(loc.value, 0, 0, 0, Idle)];
      r := Pass;
    }

    /** `api_request_ride`: a missing passenger or an unknown place is refused; otherwise the request joins the back of the queue. */
    method RequestRide(passenger: Option<PassengerId>, source: Option<Node>, destination: Option<Node>)
      returns (r: Outcome<Error>)
      requires Valid()
      modifies this
      ensures Valid()
      ensures passenger.None? || source.None? || source.value !in g.nodes ||
              destination.None? || destination.value !in g.nodes ==>
        r == Fail(InvalidRequest) && unchanged(this)
      ensures passenger.Some? && source.Some? && source.value in g.nodes &&
              destination.Some? && destination.value in g.nodes ==>
        && r == Pass
        && requests == old(requests) + [Request(passenger.value, source.value, destination.value)]
        && drivers == old(drivers) && history == old(history) && nextRideId == old(nextRideId)
    {
      if passenger.None? || source.None? || source.value !in g.nodes ||
         destination.None? || destination.value !in g.nodes {
        return Fail(InvalidRequest);
      }
      RequestKeeps(g, drivers, requests, history, nextRideId, Request(passenger.value, source.value, destination.value));
      requests := requests + [Request(passenger.value, source.value, destination.value)];
      r := Pass;
    }

    /**
     * `api_assign_next`: take the oldest request; choose the idle driver
     * nearest its source (by the first run of `dijkstra(source)`); route the
     * driver to the passenger (`dijkstra(driver_loc)`) and the passenger to
     * the destination (a second `dijkstra(source)`); price the joined route,
     * put the driver on the trip and record an ongoing ride. The ghost
     * results are the three runs.
     */
    method AssignNext() returns (r: Result<Assignment, Error>, ghost pick: Tree, ghost toPassenger: Tree,
                                 ghost toDestination: Tree)
      requires Valid()
      modifies this
      ensures Valid()
      ensures old(requests) == [] ==> r == Failure(NoRequests) && unchanged(this)
      ensures old(requests) != [] && (forall o :: o in old(drivers) ==> old(drivers)[o].status != Idle) ==>
        r == Failure(NoAvailableDrivers) && unchanged(this)
      ensures old(requests) != [] && (exists o :: o in old(drivers) && old(drivers)[o].status == Idle) ==>
        r.Success?
      ensures r.Failure? ==> unchanged(this)
      ensures r.Success? ==>
        Assigned(g, old(drivers), old(requests), old(history), old(nextRideId), pick, toPassenger, toDestination,
                 r.value, drivers, requests, history, nextRideId)
    {
      r, drivers, requests, history, nextRideId, pick, toPassenger, toDestination :=
        AssignFirst(g, drivers, requests, history, nextRideId);
    }

    /**
     * The locked end of `run_trip` for the ride `rideId`: the driver moves to
     * the destination, is paid the fare and becomes idle, and the ride is
     * marked completed. Each recorded ride has one trip thread, and only that
     * thread completes it, so the ride is still ongoing when it runs.
     */
    method CompleteTrip(rideId: nat)
      requires Valid()
      requires exists i :: 0 <= i < |history| && history[i].id == rideId && history[i].status == Ongoing
      modifies this
      ensures Valid()
      ensures exists i :: 0 <= i < |old(history)| && old(history)[i].id == rideId &&
                          TripCompleted(old(drivers), old(history), i, drivers, history)
      ensures requests == old(requests) && nextRideId == old(nextRideId)
    {
      var found := LocateRide(history, rideId);
      var i := found.value;
      var ride := history[i];
      RideIdsUnique(g, drivers, requests, history, nextRideId);
      var info := drivers[ride.driver];
      CompleteKeeps(g, drivers, requests, history, nextRideId, i, info.earnings + ride.fare);
      drivers := drivers[ride.driver := info.(loc := ride.destination, earnings := info.earnings + ride.fare,
                                              status := Idle)];
      history := history[i := ride.(status := Completed)];
    }

    /**
     * `api_rate_ride`: without a ride id, or for a ride that is missing or
     * not completed, nothing changes; otherwise the rating is added to the
     * ride's driver.
     */
    method RateRide(rideId: Option<nat>, rating: int) returns (r: Outcome<Error>)
      requires Valid()
      modifies this
      ensures Valid()
      ensures rideId.None? ==> r == Fail(MissingRideId) && unchanged(this)
      ensures rideId.Some? && !HasCompletedRide(history, rideId.value) ==>
        r == Fail(RideNotCompletedOrNotFound) && unchanged(this)
      ensures rideId.Some? && HasCompletedRide(history, rideId.value) ==> r == Pass
      ensures r == Pass ==> exists i :: 0 <= i < |history| && history[i].id == rideId.value &&
                                       history[i].status == Completed &&
                                       Rated(old(drivers), history[i].driver, rating, drivers)
      ensures r.Fail? ==> unchanged(this)
      ensures requests == old(requests) && history == old(history) && nextRideId == old(nextRideId)
    {
      if rideId.None? {
        return Fail(MissingRideId);
      }
      var found := LocateRide(history, rideId.value);
      if found.None? || history[found.value].status != Completed {
        return Fail(RideNotCompletedOrNotFound);
      }
      var d := history[found.value].driver;
      var info := drivers[d];
      RateKeeps(g, drivers, requests, history, nextRideId, d, info.ratingSum + rating, info.ratingCount + 1);
      drivers := drivers[d := info.(ratingSum := info.ratingSum + rating, ratingCount := info.ratingCount + 1)];
      r := Pass;
    }
  }
}
