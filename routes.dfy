/**
 * Routes (itineraries) and their priced output: the visited-airport list a route keeps,
 * its endpoints and travel time, the no-revisit test used while extending it, and the
 * total price and bag allowance reported for it.
 */
module Routes {
  import opened Flights

  /** The airports a list of flights touches: each flight's origin, then its destination. */
  function VisitedAirports(nodes: seq<Flight>): (v: seq<Airport>)
    ensures |v| == 2 * |nodes|
    ensures forall i :: 0 <= i < |nodes| ==> v[2 * i] == nodes[i].origin && v[2 * i + 1] == nodes[i].destination
  {
    if nodes == [] then []
    else
      var n := |nodes| - 1;
      VisitedAirports(nodes[..n]) + [nodes[n].origin, nodes[n].destination]
  }

  /** An airport is visited exactly when some flight starts or ends there. */
  lemma {:induction false} VisitedAirportsMember(nodes: seq<Flight>, a: Airport)
    ensures a in VisitedAirports(nodes) <==>
              exists i :: 0 <= i < |nodes| && (nodes[i].origin == a || nodes[i].destination == a)
  {
    var v := VisitedAirports(nodes);
    if a in v {
      var j :| 0 <= j < |v| && v[j] == a;
      var i := j / 2;
      assert 0 <= i < |nodes|;
      if j % 2 == 0 {
        assert j == 2 * i;
        assert nodes[i].origin == a;
      } else {
        assert j == 2 * i + 1;
        assert nodes[i].destination == a;
      }
    }
    if exists i :: 0 <= i < |nodes| && (nodes[i].origin == a || nodes[i].destination == a) {
      var i :| 0 <= i < |nodes| && (nodes[i].origin == a || nodes[i].destination == a);
      assert v[2 * i] == nodes[i].origin && v[2 * i + 1] == nodes[i].destination;
    }
  }

  /** The visited list of a concatenation is the concatenation of the visited lists. */
  lemma {:induction false} VisitedAirportsAppend(a: seq<Flight>, b: seq<Flight>)
    ensures VisitedAirports(a + b) == VisitedAirports(a) + VisitedAirports(b)
  {
    if b == [] {
      assert a + b == a;
    } else {
      var n := |b| - 1;
      assert (a + b)[..|a + b| - 1] == a + b[..n];
      VisitedAirportsAppend(a, b[..n]);
    }
  }

  /**
   * A route as `Route.__init__` leaves it: its flights, the visited-airport list built
   * from them and the travel time, last arrival minus first departure.
   */
  datatype Route = Route(nodes: seq<Flight>, visitedAirports: seq<Airport>, travelTime: int) {

    /** What the initialiser establishes; a route is never built from an empty list. */
    predicate Valid() {
      |nodes| > 0 &&
      visitedAirports == VisitedAirports(nodes) &&
      travelTime == nodes[|nodes| - 1].arrival - nodes[0].departure
    }

    /** The `origin` property: the first airport of the visited list. */
    function Origin(): (a: Airport)
      requires Valid()
      ensures a == visitedAirports[0]
    {
      nodes[0].origin
    }

    /** The `destination` property: the last airport of the visited list. */
    function Destination(): (a: Airport)
      requires Valid()
      ensures a == visitedAirports[|visitedAirports| - 1]
    {
      nodes[|nodes| - 1].destination
    }

    /**
     * The `last_node` property: the flight of the route that lands at its destination,
     * and whose arrival ends the travel time.
     */
    function LastNode(): (n: Flight)
      requires Valid()
      ensures n in nodes
      ensures n.destination == visitedAirports[|visitedAirports| - 1]
      ensures n.arrival == nodes[0].departure + travelTime
    {
      nodes[|nodes| - 1]
    }

    /**
     * `is_valid_node`: a flight may extend the route exactly when it lands at an airport
     * that no flight of the route departs from or arrives at.
     */
    function IsValidNode(node: Flight): (ok: bool)
      requires Valid()
      ensures ok <==> forall i :: 0 <= i < |nodes| ==>
                        nodes[i].origin != node.destination && nodes[i].destination != node.destination
    {
      VisitedAirportsMember(nodes, node.destination);
      node.destination !in visitedAirports
    }
  }

  /** The route value `Route(nodes)` produces. */
  function RouteOf(nodes: seq<Flight>): (r: Route)
    requires |nodes| > 0
    ensures r.Valid() && r.nodes == nodes
  {
    Route(nodes, VisitedAirports(nodes), nodes[|nodes| - 1].arrival - nodes[0].departure)
  }

  /** A valid route is determined by its flights. */
  lemma ValidRouteOf(r: Route)
    requires r.Valid()
    ensures r == RouteOf(r.nodes)
  {
  }

  /** `Route.__init__`: the travel time first, then the visited list, appended flight by flight. */
  method NewRoute(nodes: seq<Flight>) returns (r: Route)
    requires |nodes| > 0
    ensures r.Valid() && r.nodes == nodes
  {
    var travelTime := nodes[|nodes| - 1].arrival - nodes[0].departure;
    var visited: seq<Airport> := [];
    for i := 0 to |nodes|
      invariant visited == VisitedAirports(nodes[..i])
    {
      assert nodes[..i + 1][..i] == nodes[..i];
      visited := visited + [nodes[i].origin, nodes[i].destination];
    }
    assert nodes[..|nodes|] == nodes;
    r := Route(nodes, visited, travelTime);
  }

  /**
   * Joining two routes (as the round trip does) keeps the first one's origin and the
   * second one's destination; the travel time is recomputed from the ends, so it is the
   * two legs' travel times plus the stay between them, not their sum.
   */
  lemma ConcatRoute(outbound: seq<Flight>, inbound: seq<Flight>)
    requires |outbound| > 0 && |inbound| > 0
    ensures RouteOf(outbound + inbound).Origin() == RouteOf(outbound).Origin()
    ensures RouteOf(outbound + inbound).Destination() == RouteOf(inbound).Destination()
    ensures RouteOf(outbound + inbound).visitedAirports ==
              RouteOf(outbound).visitedAirports + RouteOf(inbound).visitedAirports
    ensures RouteOf(outbound + inbound).travelTime ==
              RouteOf(outbound).travelTime
              + (inbound[0].departure - outbound[|outbound| - 1].arrival)
              + RouteOf(inbound).travelTime
  {
    VisitedAirportsAppend(outbound, inbound);
  }

  /** Sum of the base prices of the flights. */
  function SumBasePrice(nodes: seq<Flight>): int
  {
    if nodes == [] then 0
    else
      var n := |nodes| - 1;
      SumBasePrice(nodes[..n]) + nodes[n].basePrice
  }

  /** Sum of the per-bag prices of the flights. */
  function SumBagPrice(nodes: seq<Flight>): int
  {
    if nodes == [] then 0
    else
      var n := |nodes| - 1;
      SumBagPrice(nodes[..n]) + nodes[n].bagPrice
  }

  /** Sum over the flights of base price plus bag price times the bag count. */
  function SumPriceWithBags(nodes: seq<Flight>, bagCount: int): int
  {
    if nodes == [] then 0
    else
      var n := |nodes| - 1;
      SumPriceWithBags(nodes[..n], bagCount) + (nodes[n].basePrice + nodes[n].bagPrice * bagCount)
  }

  /** The per-flight sum with bags is the base total plus the bag count times the bag total. */
  lemma {:induction false} SumPriceWithBagsSplits(nodes: seq<Flight>, bagCount: int)
    ensures SumPriceWithBags(nodes, bagCount) == SumBasePrice(nodes) + bagCount * SumBagPrice(nodes)
  {
    if nodes != [] {
      var n := |nodes| - 1;
      SumPriceWithBagsSplits(nodes[..n], bagCount);
      assert bagCount * (SumBagPrice(nodes[..n]) + nodes[n].bagPrice)
          == bagCount * SumBagPrice(nodes[..n]) + nodes[n].bagPrice * bagCount;
    }
  }

  /**
   * `_get_route_total_price`: with no bags only base prices are summed; otherwise each
   * flight contributes its base price plus its bag price per bag. Both branches price the
   * route at base total plus bag count times bag total.
   */
  function TotalPrice(route: Route, bagCount: int): (price: int)
    ensures price == SumBasePrice(route.nodes) + bagCount * SumBagPrice(route.nodes)
  {
    if bagCount == 0 then
      SumBasePrice(route.nodes)
    else
      SumPriceWithBagsSplits(route.nodes, bagCount);
      SumPriceWithBags(route.nodes, bagCount)
  }

  /** The output's bag allowance: the smallest `bagsAllowed` among the flights. */
  function MinBagsAllowed(nodes: seq<Flight>): (m: int)
    requires |nodes| > 0
    ensures forall i :: 0 <= i < |nodes| ==> m <= nodes[i].bagsAllowed
    ensures exists i :: 0 <= i < |nodes| && nodes[i].bagsAllowed == m
  {
    if |nodes| == 1 then nodes[0].bagsAllowed
    else
      var n := |nodes| - 1;
      var m := MinBagsAllowed(nodes[..n]);
      if nodes[n].bagsAllowed < m then nodes[n].bagsAllowed else m
  }

  /** A route with a requested bag count; origin and destination come from the route. */
  datatype RouteOutput = RouteOutput(route: Route, origin: Airport, destination: Airport, bagCount: int)

  /** `RouteOutput(route, bag_count)`: the endpoints are taken from the route's first and last flights. */
  function NewRouteOutput(route: Route, bagCount: int): (o: RouteOutput)
    requires route.Valid()
    ensures o.route == route && o.bagCount == bagCount
    ensures o.origin == route.nodes[0].origin
    ensures o.destination == route.nodes[|route.nodes| - 1].destination
  {
    RouteOutput(route, route.Origin(), route.Destination(), bagCount)
  }

  /** The record `as_dict` returns (flight details kept as flight values; travel time in seconds). */
  datatype PricedResult = PricedResult(
    flights: seq<Flight>,
    origin: Airport,
    destination: Airport,
    bagsAllowed: int,
    bagsCount: int,
    totalPrice: int,
    travelTime: int)

  /**
   * `RouteOutput.as_dict`: the flights in order, the endpoints, the bag allowance (no
   * more than any flight allows, and what one of them allows), the requested bag count,
   * the total price and the route's travel time.
   */
  function AsDict(output: RouteOutput): (d: PricedResult)
    requires output.route.Valid()
    ensures d.flights == output.route.nodes && d.bagsCount == output.bagCount
    ensures d.origin == output.origin && d.destination == output.destination
    ensures forall i :: 0 <= i < |d.flights| ==> d.bagsAllowed <= d.flights[i].bagsAllowed
    ensures exists i :: 0 <= i < |d.flights| && d.flights[i].bagsAllowed == d.bagsAllowed
    ensures d.totalPrice == SumBasePrice(d.flights) + d.bagsCount * SumBagPrice(d.flights)
    ensures d.travelTime == d.flights[|d.flights| - 1].arrival - d.flights[0].departure
  {
    PricedResult(
      output.route.nodes,
      output.origin,
      output.destination,
      MinBagsAllowed(output.route.nodes),
      output.bagCount,
      TotalPrice(output.route, output.bagCount),
      output.route.travelTime)
  }
}
