/**
 * The connection graph: its nodes (one per flight, in input order), each node's ordered
 * edge list, the breadth-first route search over it and `find_routes`, which prices the
 * routes it finds, one way or as round trips. Nodes are named by their index; edge list
 * `edges[a]` is node `a`'s `_edges`.
 */
module ConnectionGraph {
  import opened Flights
  import opened Routes
  import opened Edges
  import opened Search
  import opened Trips

  /** The route objects for a list of index paths, in order. */
  function RoutesOf(nodes: seq<Flight>, ps: seq<seq<nat>>): (rs: seq<Route>)
    requires ArePaths(nodes, ps)
    ensures |rs| == |ps| && forall i :: 0 <= i < |rs| ==> rs[i].Valid() && rs[i].nodes == FlightsOf(nodes, ps[i])
  {
    seq(|ps|, i requires 0 <= i < |ps| => RouteOf(FlightsOf(nodes, ps[i])))
  }

  lemma RoutesOfSnoc(nodes: seq<Flight>, ps: seq<seq<nat>>, p: seq<nat>)
    requires ArePaths(nodes, ps) && IsPath(nodes, p)
    ensures ArePaths(nodes, ps + [p])
    ensures RoutesOf(nodes, ps + [p]) == RoutesOf(nodes, ps) + [RouteOf(FlightsOf(nodes, p))]
  {
    assert forall i :: 0 <= i < |ps| ==> (ps + [p])[i] == ps[i];
  }

  /** One more return route joined to outbound route `o` adds the joined route object. */
  lemma JoinStep(nodes: seq<Flight>, before: seq<seq<nat>>, o: seq<nat>, rets: seq<seq<nat>>, j: nat,
                 trips: seq<Route>)
    requires IsPath(nodes, o) && ArePaths(nodes, rets) && j < |rets|
    requires ArePaths(nodes, before + PairWith(o, rets[..j]))
    requires trips == RoutesOf(nodes, before + PairWith(o, rets[..j]))
    ensures ArePaths(nodes, before + PairWith(o, rets[..j + 1]))
    ensures trips + [RouteOf(FlightsOf(nodes, o) + FlightsOf(nodes, rets[j]))] ==
            RoutesOf(nodes, before + PairWith(o, rets[..j + 1]))
  {
    assert rets[..j + 1] == rets[..j] + [rets[j]];
    assert PairWith(o, rets[..j + 1]) == PairWith(o, rets[..j]) + [o + rets[j]];
    assert before + PairWith(o, rets[..j + 1]) == (before + PairWith(o, rets[..j])) + [o + rets[j]];
    FlightsOfAppend(nodes, o, rets[j]);
    RoutesOfSnoc(nodes, before + PairWith(o, rets[..j]), o + rets[j]);
  }

  /** The `as_dict` records of `RouteOutput(route, bags)` for each route, in order. */
  function Priced(rs: seq<Route>, bags: int): seq<PricedResult>
    requires forall i :: 0 <= i < |rs| ==> rs[i].Valid()
  {
    seq(|rs|, i requires 0 <= i < |rs| => AsDict(NewRouteOutput(rs[i], bags)))
  }

  /**
   * Every record of a one-way search: from the origin to the destination as asked, the
   * requested bag count, a bag allowance that covers it, flights that connect one after
   * the other, and the price of the route for that many bags.
   */
  lemma OneWayRecord(nodes: seq<Flight>, edges: seq<seq<Edge>>, maxLayover: int,
                     origin: Airport, destination: Airport, bags: int, k: nat)
    requires Built(nodes, edges, maxLayover) && WellFormed(nodes, edges)
    requires k < |SearchRoutes(nodes, edges, origin, destination, bags, None)|
    ensures var d := Priced(RoutesOf(nodes, SearchRoutes(nodes, edges, origin, destination, bags, None)), bags)[k];
            d.origin == origin && d.destination == destination &&
            d.bagsCount == bags && d.bagsAllowed >= bags &&
            |d.flights| > 0 && d.flights[0].origin == origin && d.flights[|d.flights| - 1].destination == destination &&
            (forall j :: 1 <= j < |d.flights| ==> Connects(d.flights[j - 1], d.flights[j], maxLayover)) &&
            d.totalPrice == SumBasePrice(d.flights) + bags * SumBagPrice(d.flights)
  {
    var xs := SearchRoutes(nodes, edges, origin, destination, bags, None);
    var x := xs[k];
    SearchRoutesSound(nodes, edges, maxLayover, origin, destination, bags, None, x);
    var r := RoutesOf(nodes, xs)[k];
    assert r.nodes == FlightsOf(nodes, x);
    var d := Priced(RoutesOf(nodes, xs), bags)[k];
    assert d == AsDict(NewRouteOutput(r, bags));
    var i :| 0 <= i < |d.flights| && d.flights[i].bagsAllowed == d.bagsAllowed;
    assert d.flights[i] == nodes[x[i]];
  }

  /**
   * Every record of a round-trip search: from the origin back to the origin, the
   * requested bag count and a bag allowance that covers it; its flights split at `j` into
   * an outbound part that reaches the destination and a return part that leaves the
   * destination no earlier than the stay after the outbound arrival.
   */
  lemma RoundTripRecord(nodes: seq<Flight>, edges: seq<seq<Edge>>, maxLayover: int,
                        origin: Airport, destination: Airport, bags: int, stayTime: int, k: nat) returns (j: nat)
    requires Built(nodes, edges, maxLayover) && WellFormed(nodes, edges)
    requires k < |RoundTrips(nodes, edges, origin, destination, bags, stayTime)|
    ensures var d := Priced(RoutesOf(nodes, RoundTrips(nodes, edges, origin, destination, bags, stayTime)), bags)[k];
            d.origin == origin && d.destination == origin &&
            d.bagsCount == bags && d.bagsAllowed >= bags &&
            0 < j < |d.flights| && d.flights[0].origin == origin &&
            d.flights[j - 1].destination == destination && d.flights[j].origin == destination &&
            d.flights[j].departure >= d.flights[j - 1].arrival + stayTime * Hour &&
            d.totalPrice == SumBasePrice(d.flights) + bags * SumBagPrice(d.flights)
  {
    var xs := RoundTrips(nodes, edges, origin, destination, bags, stayTime);
    var x := xs[k];
    j := RoundTripSound(nodes, edges, maxLayover, origin, destination, bags, stayTime, x);
    var r := RoutesOf(nodes, xs)[k];
    assert r.nodes == FlightsOf(nodes, x);
    var d := Priced(RoutesOf(nodes, xs), bags)[k];
    assert d == AsDict(NewRouteOutput(r, bags));
    var i :| 0 <= i < |d.flights| && d.flights[i].bagsAllowed == d.bagsAllowed;
    assert d.flights[i] == nodes[x[i]];
  }

  class Graph {
    /** The typed flight records `_parse_input_data` leaves in `_flights`. */
    var flights: seq<Flight>
    /** `_nodes`: one node per flight. */
    var nodes: seq<Flight>
    /** Each node's `_edges`, by node index. */
    var edges: seq<seq<Edge>>
    /** The layover bound the graph was built with. */
    ghost var maxLayover: int

    /** The graph is the one `_create_graph(maxLayover)` builds from the flights. */
    ghost predicate Valid()
      reads this
    {
      nodes == flights && Built(nodes, edges, maxLayover) && WellFormed(nodes, edges)
    }

    /** `Graph(flights, max_layover)`, with the flight records already parsed. */
    constructor (flights: seq<Flight>, maxLayover: int)
      ensures Valid() && this.flights == flights && this.maxLayover == maxLayover
    {
      this.flights := flights;
      nodes := [];
      edges := [];
      this.maxLayover := maxLayover;
      new;
      CreateGraph(maxLayover);
      BuiltWellFormed(nodes, edges, maxLayover);
    }

    /** `Node.add_nbr`: append an edge from node `a` to node `b` to `a`'s list, and touch nothing else. */
    method AddNbr(a: nat, b: nat)
      requires a < |nodes| == |edges| && b < |nodes|
      modifies this`edges
      ensures edges == old(edges)[a := old(edges)[a] + [MakeEdge(nodes, a, b)]]
    {
      edges := edges[a := edges[a] + [MakeEdge(nodes, a, b)]];
    }

    /** `_add_edge`: link `a` to `b` exactly when `b` connects to `a`; otherwise nothing changes. */
    method AddEdge(a: nat, b: nat, maxLayover: int)
      requires a < |nodes| == |edges| && b < |nodes|
      modifies this`edges
      ensures Connects(nodes[a], nodes[b], maxLayover) ==>
                edges == old(edges)[a := old(edges)[a] + [MakeEdge(nodes, a, b)]]
      ensures !Connects(nodes[a], nodes[b], maxLayover) ==> edges == old(edges)
    {
      var td := nodes[b].departure - nodes[a].arrival;
      if Hour <= td <= maxLayover * Hour && nodes[a].destination == nodes[b].origin {
        AddNbr(a, b);
      }
    }

    /**
     * `_create_graph`: one node per flight, with an empty edge list, then every ordered
     * pair of nodes offered to `_add_edge`, `a` in the outer loop and `b` in the inner one.
     */
    method CreateGraph(maxLayover: int)
      requires nodes == [] && edges == []
      modifies this`nodes, this`edges
      ensures nodes == flights && Built(nodes, edges, maxLayover)
    {
      for i := 0 to |flights|
        invariant nodes == flights[..i] && |edges| == i
        invariant forall a :: 0 <= a < i ==> edges[a] == []
      {
        nodes := nodes + [flights[i]];
        edges := edges + [[]];
      }
      assert nodes == flights;
      for a := 0 to |nodes|
        invariant nodes == flights && |edges| == |nodes|
        invariant BuiltUpTo(nodes, edges, maxLayover, a)
        invariant forall a' :: a <= a' < |nodes| ==> edges[a'] == []
      {
        for b := 0 to |nodes|
          invariant nodes == flights && |edges| == |nodes|
          invariant BuiltUpTo(nodes, edges, maxLayover, a)
          invariant edges[a] == SuccessorsUpTo(nodes, a, maxLayover, b)
          invariant forall a' :: a < a' < |nodes| ==> edges[a'] == []
        {
          ghost var before := edges;
          AddEdge(a, b, maxLayover);
          BuiltUpToFrame(nodes, before, edges, maxLayover, a);
        }
      }
    }

    /**
     * `_bfs(origin, destination, bags, dep_date)`: the routes it yields, in yield order.
     * The queue holds routes as lists of node indices; a dequeued route's `Route` object
     * is built when it is taken off the queue.
     */
    method Bfs(origin: Airport, destination: Airport, bags: int, depDate: Option<int>) returns (routes: seq<Route>)
      requires Valid()
      ensures routes == RoutesOf(nodes, SearchRoutes(nodes, edges, origin, destination, bags, depDate))
    {
      ghost var query := Query(origin, bags, depDate);
      var q: seq<seq<nat>> := [];
      for n := 0 to |nodes|
        invariant q == Starts(nodes, query, n)
      {
        var f := nodes[n];
        if depDate.None? {
          if f.origin == origin && f.bagsAllowed >= bags {
            q := q + [[n]];
          }
        } else if f.origin == origin && f.departure >= depDate.value && f.bagsAllowed >= bags {
          q := q + [[n]];
        }
      }
      ghost var k: nat := 0;
      ghost var i: nat := 0;
      ghost var yielded: seq<seq<nat>> := [];
      routes := [];
      QueueStart(nodes, edges, query, destination);
      while q != []
        invariant QueueAt(nodes, edges, query, destination, k, i, q, yielded)
        invariant ArePaths(nodes, yielded) && routes == RoutesOf(nodes, yielded)
        decreases |nodes| - k, |Level(nodes, edges, query, k)| - i
      {
        ghost var queue, before := q, yielded;
        var p := q[0];
        q := q[1..];
        var route := NewRoute(FlightsOf(nodes, p));
        ValidRouteOf(route);
        if route.Destination() == destination {
          RoutesOfSnoc(nodes, yielded, p);
          routes := routes + [route];
          yielded := yielded + [p];
        }
        q := PushExtensions(q, p, route, bags);
        k, i := QueueStep(nodes, edges, maxLayover, query, destination, k, i, queue, before);
      }
      QueueDone(nodes, edges, query, destination, k, i, yielded);
    }

    /**
     * The inner loop of `_bfs`: for each edge of the dequeued route's last node, in order,
     * append the route extended by the edge's target when the route has not visited the
     * airport the target lands at and the edge allows the bags.
     */
    method PushExtensions(q: seq<seq<nat>>, p: seq<nat>, route: Route, bags: int) returns (q': seq<seq<nat>>)
      requires Valid() && IsPath(nodes, p) && route == RouteOf(FlightsOf(nodes, p))
      ensures q' == q + Extensions(nodes, edges, bags, p)
    {
      var es := edges[Last(p)];
      q' := q;
      for j := 0 to |es|
        invariant q' == q + ExtendAlong(nodes, bags, p, es[..j])
      {
        var e := es[j];
        AcceptsIsValidNode(nodes, bags, p, e);
        ExtendAlongStep(nodes, bags, p, es, j, q, q');
        if route.IsValidNode(nodes[e.nodeTo]) && e.bagsAllowed >= bags {
          q' := q' + [p + [e.nodeTo]];
        }
      }
      assert es[..|es|] == es;
    }

    /**
     * The round-trip loop of `find_routes`: for each outbound route, search back from the
     * destination no earlier than its last arrival plus the stay, and join the two.
     */
    method FindRoundTrips(origin: Airport, destination: Airport, stayTime: int, bags: int) returns (trips: seq<Route>)
      requires Valid()
      ensures trips == RoutesOf(nodes, RoundTrips(nodes, edges, origin, destination, bags, stayTime))
    {
      ghost var outPaths := SearchRoutes(nodes, edges, origin, destination, bags, None);
      ghost var rss := ReturnsOf(nodes, edges, origin, destination, bags, stayTime, outPaths);
      var outs := Bfs(origin, destination, bags, None);
      trips := [];
      assert outPaths[..0] == [] && rss[..0] == [];
      for i := 0 to |outs|
        invariant ArePaths(nodes, JoinAll(outPaths[..i], rss[..i]))
        invariant trips == RoutesOf(nodes, JoinAll(outPaths[..i], rss[..i]))
      {
        var route := outs[i];
        ghost var o := outPaths[i];
        var depDate := route.LastNode().arrival + stayTime * Hour;
        assert depDate == EarliestReturn(nodes, o, stayTime);
        ghost var retPaths := rss[i];
        var rets := Bfs(destination, origin, bags, Some(depDate));
        ValidRouteOf(route);
        trips := JoinReturns(nodes, trips, route, rets, JoinAll(outPaths[..i], rss[..i]), o, retPaths);
        JoinAllSnoc(outPaths, rss, i);
      }
      assert outPaths[..|outs|] == outPaths && rss[..|outs|] == rss;
    }

    /**
     * `find_routes`: the priced records of every route from `origin` to `destination`, or,
     * with a return flight, of every round trip; each priced for `bags` bags.
     */
    method FindRoutes(origin: Airport, destination: Airport, returnFlight: bool, stayTime: int, bags: int)
      returns (out: seq<PricedResult>)
      requires Valid()
      ensures !returnFlight ==>
                out == Priced(RoutesOf(nodes, SearchRoutes(nodes, edges, origin, destination, bags, None)), bags)
      ensures returnFlight ==>
                out == Priced(RoutesOf(nodes, RoundTrips(nodes, edges, origin, destination, bags, stayTime)), bags)
    {
      if !returnFlight {
        var routes := Bfs(origin, destination, bags, None);
        out := Priced(routes, bags);
      } else {
        var routes := FindRoundTrips(origin, destination, stayTime, bags);
        out := Priced(routes, bags);
      }
    }
  }

  /**
   * The inner loop of the round-trip search: one new route per return route, in order,
   * made of the outbound route's flights followed by the return route's.
   */
  method JoinReturns(nodes: seq<Flight>, trips: seq<Route>, route: Route, rets: seq<Route>,
                     ghost before: seq<seq<nat>>, ghost o: seq<nat>, ghost retPaths: seq<seq<nat>>)
    returns (trips': seq<Route>)
    requires IsPath(nodes, o) && route == RouteOf(FlightsOf(nodes, o))
    requires ArePaths(nodes, retPaths) && rets == RoutesOf(nodes, retPaths)
    requires ArePaths(nodes, before) && trips == RoutesOf(nodes, before)
    ensures ArePaths(nodes, before + PairWith(o, retPaths))
    ensures trips' == RoutesOf(nodes, before + PairWith(o, retPaths))
  {
    trips' := trips;
    assert before + PairWith(o, retPaths[..0]) == before;
    for j := 0 to |rets|
      invariant ArePaths(nodes, before + PairWith(o, retPaths[..j]))
      invariant trips' == RoutesOf(nodes, before + PairWith(o, retPaths[..j]))
    {
      var t := NewRoute(route.nodes + rets[j].nodes);
      ValidRouteOf(t);
      JoinStep(nodes, before, o, retPaths, j, trips');
      trips' := trips' + [t];
    }
    assert retPaths[..|rets|] == retPaths;
  }

  /** Offering node `a` an edge changes no earlier node's list. */
  lemma {:induction false} BuiltUpToFrame(nodes: seq<Flight>, e1: seq<seq<Edge>>, e2: seq<seq<Edge>>,
                                          maxLayover: int, n: nat)
    requires n <= |nodes| == |e1| == |e2|
    requires forall a :: 0 <= a < n ==> e1[a] == e2[a]
    requires BuiltUpTo(nodes, e1, maxLayover, n)
    ensures BuiltUpTo(nodes, e2, maxLayover, n)
  {
    if n > 0 {
      BuiltUpToFrame(nodes, e1, e2, maxLayover, n - 1);
    }
  }
}
