/**
 * The round trips `find_routes` builds when a return flight is asked for: every route
 * from the origin to the destination, joined with every route back that leaves no
 * earlier than the stay after the outbound route lands.
 */
module Trips {
  import opened Flights
  import opened Routes
  import opened Edges
  import opened Search

  /**
   * The earliest departure the return search is given: the `last_node` arrival of the
   * outbound route plus the stay in hours.
   */
  function EarliestReturn(nodes: seq<Flight>, o: seq<nat>, stayTime: int): (dep: int)
    requires IsPath(nodes, o)
    ensures dep == RouteOf(FlightsOf(nodes, o)).LastNode().arrival + stayTime * Hour
  {
    nodes[Last(o)].arrival + stayTime * Hour
  }

  /** The return routes the search offers after outbound route `o`. */
  function Returns(nodes: seq<Flight>, edges: seq<seq<Edge>>, origin: Airport, destination: Airport,
                   bags: int, stayTime: int, o: seq<nat>): (rs: seq<seq<nat>>)
    requires WellFormed(nodes, edges) && IsPath(nodes, o)
    ensures ArePaths(nodes, rs)
  {
    SearchRoutes(nodes, edges, destination, origin, bags, Some(EarliestReturn(nodes, o, stayTime)))
  }

  /** The return routes of each outbound route of `outs`, in order. */
  function ReturnsOf(nodes: seq<Flight>, edges: seq<seq<Edge>>, origin: Airport, destination: Airport,
                     bags: int, stayTime: int, outs: seq<seq<nat>>): (rss: seq<seq<seq<nat>>>)
    requires WellFormed(nodes, edges) && ArePaths(nodes, outs)
    ensures |rss| == |outs|
  {
    seq(|outs|, i requires 0 <= i < |outs| => Returns(nodes, edges, origin, destination, bags, stayTime, outs[i]))
  }

  /** Route `o` joined with each of `rs`, in order. */
  function PairWith(o: seq<nat>, rs: seq<seq<nat>>): (xs: seq<seq<nat>>)
    ensures |xs| == |rs| && forall i :: 0 <= i < |rs| ==> xs[i] == o + rs[i]
  {
    if rs == [] then []
    else
      var n := |rs| - 1;
      PairWith(o, rs[..n]) + [o + rs[n]]
  }

  /** Joining a route with routes gives routes. */
  lemma PairWithPaths(nodes: seq<Flight>, o: seq<nat>, rs: seq<seq<nat>>)
    requires IsPath(nodes, o) && ArePaths(nodes, rs)
    ensures ArePaths(nodes, PairWith(o, rs))
  {
    forall i | 0 <= i < |rs| ensures IsPath(nodes, PairWith(o, rs)[i]) {
      FlightsOfAppend(nodes, o, rs[i]);
    }
  }

  lemma PairWithCovers(o: seq<nat>, rs: seq<seq<nat>>, r: seq<nat>)
    requires r in rs
    ensures o + r in PairWith(o, rs)
  {
    var k :| 0 <= k < |rs| && rs[k] == r;
    assert PairWith(o, rs)[k] == o + r;
  }

  /**
   * The nested loop of the round-trip search: each outbound route `outs[i]`, in order,
   * joined with each of its return routes `rss[i]`, in order.
   */
  function JoinAll(outs: seq<seq<nat>>, rss: seq<seq<seq<nat>>>): seq<seq<nat>>
    requires |rss| == |outs|
  {
    if outs == [] then []
    else
      var n := |outs| - 1;
      JoinAll(outs[..n], rss[..n]) + PairWith(outs[n], rss[n])
  }

  /** Working through one more outbound route appends its pairs with its returns. */
  lemma JoinAllSnoc(outs: seq<seq<nat>>, rss: seq<seq<seq<nat>>>, i: nat)
    requires |rss| == |outs| && i < |outs|
    ensures JoinAll(outs[..i + 1], rss[..i + 1]) == JoinAll(outs[..i], rss[..i]) + PairWith(outs[i], rss[i])
  {
    assert outs[..i + 1][..i] == outs[..i] && rss[..i + 1][..i] == rss[..i];
  }

  /** Joining routes with routes gives routes. */
  lemma {:induction false} JoinAllPaths(nodes: seq<Flight>, outs: seq<seq<nat>>, rss: seq<seq<seq<nat>>>)
    requires |rss| == |outs| && ArePaths(nodes, outs)
    requires forall i :: 0 <= i < |rss| ==> ArePaths(nodes, rss[i])
    ensures ArePaths(nodes, JoinAll(outs, rss))
  {
    if outs != [] {
      var n := |outs| - 1;
      JoinAllPaths(nodes, outs[..n], rss[..n]);
      PairWithPaths(nodes, outs[n], rss[n]);
    }
  }

  /** Every joined route is one of `outs` followed by one of its returns. */
  lemma {:induction false} JoinAllSource(outs: seq<seq<nat>>, rss: seq<seq<seq<nat>>>, x: seq<nat>)
    returns (i: nat, r: seq<nat>)
    requires |rss| == |outs| && x in JoinAll(outs, rss)
    ensures i < |outs| && r in rss[i] && x == outs[i] + r
  {
    var n := |outs| - 1;
    var rest := JoinAll(outs[..n], rss[..n]);
    if x in rest {
      i, r := JoinAllSource(outs[..n], rss[..n], x);
      assert outs[..n][i] == outs[i] && rss[..n][i] == rss[i];
    } else {
      assert x in PairWith(outs[n], rss[n]);
      var k :| 0 <= k < |rss[n]| && PairWith(outs[n], rss[n])[k] == x;
      i, r := n, rss[n][k];
    }
  }

  /** Every one of `outs` followed by any of its returns is joined. */
  lemma {:induction false} JoinAllCovers(outs: seq<seq<nat>>, rss: seq<seq<seq<nat>>>, i: nat, r: seq<nat>)
    requires |rss| == |outs| && i < |outs| && r in rss[i]
    ensures outs[i] + r in JoinAll(outs, rss)
  {
    var n := |outs| - 1;
    var rest := JoinAll(outs[..n], rss[..n]);
    if i < n {
      assert outs[..n][i] == outs[i] && rss[..n][i] == rss[i];
      JoinAllCovers(outs[..n], rss[..n], i, r);
      assert outs[i] + r in rest;
    } else {
      assert i == n;
      PairWithCovers(outs[n], rss[n], r);
      assert outs[i] + r in PairWith(outs[n], rss[n]);
    }
  }

  /** The round trips of `find_routes(origin, destination, True, stay_time, bags)`, in the order built. */
  function RoundTrips(nodes: seq<Flight>, edges: seq<seq<Edge>>, origin: Airport, destination: Airport,
                      bags: int, stayTime: int): (xs: seq<seq<nat>>)
    requires WellFormed(nodes, edges)
    ensures ArePaths(nodes, xs)
  {
    var outs := SearchRoutes(nodes, edges, origin, destination, bags, None);
    var rss := ReturnsOf(nodes, edges, origin, destination, bags, stayTime, outs);
    JoinAllPaths(nodes, outs, rss);
    JoinAll(outs, rss)
  }

  /**
   * Every outbound route the search yields, joined with every return route the search
   * yields from the earliest return time on, is a round trip.
   */
  lemma RoundTripComplete(nodes: seq<Flight>, edges: seq<seq<Edge>>, origin: Airport, destination: Airport,
                          bags: int, stayTime: int, o: seq<nat>, r: seq<nat>)
    requires WellFormed(nodes, edges)
    ensures (o in SearchRoutes(nodes, edges, origin, destination, bags, None) &&
             r in Returns(nodes, edges, origin, destination, bags, stayTime, o))
            ==> o + r in RoundTrips(nodes, edges, origin, destination, bags, stayTime)
  {
    var outs := SearchRoutes(nodes, edges, origin, destination, bags, None);
    var rss := ReturnsOf(nodes, edges, origin, destination, bags, stayTime, outs);
    if o in outs && r in Returns(nodes, edges, origin, destination, bags, stayTime, o) {
      var i :| 0 <= i < |outs| && outs[i] == o;
      assert rss[i] == Returns(nodes, edges, origin, destination, bags, stayTime, o);
      JoinAllCovers(outs, rss, i, r);
    }
  }

  /** Every round trip is an outbound route the search yields followed by one of its returns. */
  lemma RoundTripSplit(nodes: seq<Flight>, edges: seq<seq<Edge>>, origin: Airport, destination: Airport,
                       bags: int, stayTime: int, x: seq<nat>) returns (o: seq<nat>, r: seq<nat>)
    requires WellFormed(nodes, edges)
    requires x in RoundTrips(nodes, edges, origin, destination, bags, stayTime)
    ensures o in SearchRoutes(nodes, edges, origin, destination, bags, None) && IsPath(nodes, o)
    ensures r in Returns(nodes, edges, origin, destination, bags, stayTime, o)
    ensures x == o + r
  {
    var outs := SearchRoutes(nodes, edges, origin, destination, bags, None);
    var rss := ReturnsOf(nodes, edges, origin, destination, bags, stayTime, outs);
    var i;
    i, r := JoinAllSource(outs, rss, x);
    o := outs[i];
    assert rss[i] == Returns(nodes, edges, origin, destination, bags, stayTime, o);
  }

  /**
   * Every round trip splits into an outbound part the search yields and a return part
   * the search yields: it starts and ends at the origin, turns round at the destination,
   * the return leaves no earlier than the stay after the outbound arrival, and every
   * flight allows the bags.
   */
  lemma RoundTripSound(nodes: seq<Flight>, edges: seq<seq<Edge>>, maxLayover: int, origin: Airport,
                       destination: Airport, bags: int, stayTime: int, x: seq<nat>) returns (j: nat)
    requires Built(nodes, edges, maxLayover) && WellFormed(nodes, edges)
    requires x in RoundTrips(nodes, edges, origin, destination, bags, stayTime)
    ensures 0 < j < |x| && InRange(nodes, x)
    ensures x[..j] in SearchRoutes(nodes, edges, origin, destination, bags, None)
    ensures x[j..] in Returns(nodes, edges, origin, destination, bags, stayTime, x[..j])
    ensures nodes[x[0]].origin == origin && nodes[x[j - 1]].destination == destination
    ensures nodes[x[j]].origin == destination && nodes[x[|x| - 1]].destination == origin
    ensures nodes[x[j]].departure >= nodes[x[j - 1]].arrival + stayTime * Hour
    ensures forall k :: 0 <= k < |x| ==> nodes[x[k]].bagsAllowed >= bags
  {
    var o, r := RoundTripSplit(nodes, edges, origin, destination, bags, stayTime, x);
    j := |o|;
    assert x[..j] == o && x[j..] == r;
    assert x[0] == o[0] && x[j - 1] == o[j - 1] && x[j] == r[0] && x[|x| - 1] == r[|r| - 1];
    var dep := EarliestReturn(nodes, o, stayTime);
    SearchRoutesSound(nodes, edges, maxLayover, origin, destination, bags, None, o);
    SearchRoutesSound(nodes, edges, maxLayover, destination, origin, bags, Some(dep), r);
    forall k | 0 <= k < |x| ensures nodes[x[k]].bagsAllowed >= bags {
      if k < j { assert x[k] == o[k]; } else { assert x[k] == r[k - j]; }
    }
  }

  /** When no flight leaves the destination there is no return route, so there are no round trips. */
  lemma NoReturnNoTrip(nodes: seq<Flight>, edges: seq<seq<Edge>>, maxLayover: int, origin: Airport,
                       destination: Airport, bags: int, stayTime: int)
    requires Built(nodes, edges, maxLayover) && WellFormed(nodes, edges)
    requires forall i :: 0 <= i < |nodes| ==> nodes[i].origin != destination
    ensures RoundTrips(nodes, edges, origin, destination, bags, stayTime) == []
  {
    var xs := RoundTrips(nodes, edges, origin, destination, bags, stayTime);
    if xs != [] {
      var j := RoundTripSound(nodes, edges, maxLayover, origin, destination, bags, stayTime, xs[0]);
    }
  }
}
