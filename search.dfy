/**
 * What the breadth-first route search yields, as functions of the flights and their
 * adjacency lists. A partial route is a list of node indices. The search starts from one
 * single-flight route per acceptable first flight (in node order); a route is extended
 * along the edges of its last flight (in edge order) when the new flight lands at an
 * airport the route has not visited and the edge's bag allowance covers the request.
 * Routes leave the queue level by level: `Level(k)` is the list of routes with `k + 1`
 * flights in the order the queue holds them, and the search yields every dequeued route
 * whose last flight lands at the destination, and keeps extending it.
 */
module Search {
  import opened Flights
  import opened Routes
  import opened Edges

  /** The origin, bag count and optional earliest departure a search is asked for. */
  datatype Query = Query(origin: Airport, bags: int, depDate: Option<int>)

  predicate InRange(nodes: seq<Flight>, p: seq<nat>)
  {
    forall i :: 0 <= i < |p| ==> p[i] < |nodes|
  }

  /** A route as a list of node indices: never empty. */
  predicate IsPath(nodes: seq<Flight>, p: seq<nat>)
  {
    |p| > 0 && InRange(nodes, p)
  }

  predicate ArePaths(nodes: seq<Flight>, ps: seq<seq<nat>>)
  {
    forall i :: 0 <= i < |ps| ==> IsPath(nodes, ps[i])
  }

  /** Every edge of the adjacency lists points at a node of the graph. */
  predicate WellFormed(nodes: seq<Flight>, edges: seq<seq<Edge>>)
  {
    |edges| == |nodes| &&
    forall a, k :: 0 <= a < |edges| && 0 <= k < |edges[a]| ==> edges[a][k].nodeTo < |nodes|
  }

  /** The adjacency lists are the ones `_create_graph` builds for the layover bound. */
  predicate Built(nodes: seq<Flight>, edges: seq<seq<Edge>>, maxLayover: int)
  {
    |edges| == |nodes| && BuiltUpTo(nodes, edges, maxLayover, |nodes|)
  }

  /** Nodes `[0, n)` have their full successor lists. */
  predicate BuiltUpTo(nodes: seq<Flight>, edges: seq<seq<Edge>>, maxLayover: int, n: nat)
    requires n <= |nodes| == |edges|
  {
    n == 0 || (BuiltUpTo(nodes, edges, maxLayover, n - 1) && edges[n - 1] == Successors(nodes, n - 1, maxLayover))
  }

  lemma {:induction false} BuiltUpToAt(nodes: seq<Flight>, edges: seq<seq<Edge>>, maxLayover: int, n: nat, a: nat)
    requires n <= |nodes| == |edges| && BuiltUpTo(nodes, edges, maxLayover, n) && a < n
    ensures edges[a] == Successors(nodes, a, maxLayover)
  {
    if a < n - 1 {
      BuiltUpToAt(nodes, edges, maxLayover, n - 1, a);
    }
  }

  /** In a built graph, node `a`'s edge list is its successor list. */
  lemma BuiltAt(nodes: seq<Flight>, edges: seq<seq<Edge>>, maxLayover: int, a: nat)
    requires Built(nodes, edges, maxLayover) && a < |nodes|
    ensures edges[a] == SuccessorsUpTo(nodes, a, maxLayover, |nodes|)
  {
    BuiltUpToAt(nodes, edges, maxLayover, |nodes|, a);
  }

  lemma BuiltWellFormed(nodes: seq<Flight>, edges: seq<seq<Edge>>, maxLayover: int)
    requires Built(nodes, edges, maxLayover)
    ensures WellFormed(nodes, edges)
  {
    forall a, k | 0 <= a < |edges| && 0 <= k < |edges[a]| ensures edges[a][k].nodeTo < |nodes| {
      BuiltAt(nodes, edges, maxLayover, a);
    }
  }

  function Last(p: seq<nat>): nat
    requires |p| > 0
  {
    p[|p| - 1]
  }

  /** The flights a list of node indices stands for. */
  function FlightsOf(nodes: seq<Flight>, p: seq<nat>): (fs: seq<Flight>)
    requires InRange(nodes, p)
    ensures |fs| == |p| && forall i :: 0 <= i < |p| ==> fs[i] == nodes[p[i]]
  {
    seq(|p|, i requires 0 <= i < |p| => nodes[p[i]])
  }

  // ---------------------------------------------------------------------------------
  // The search, level by level
  // ---------------------------------------------------------------------------------

  /** The filter on first flights: right origin, late enough, enough bags. */
  predicate StartOk(f: Flight, q: Query)
  {
    f.origin == q.origin && (q.depDate.Some? ==> f.departure >= q.depDate.value) && f.bagsAllowed >= q.bags
  }

  /** The initial queue, built from the nodes `[0, n)` in order. */
  function Starts(nodes: seq<Flight>, q: Query, n: nat): (ps: seq<seq<nat>>)
    requires n <= |nodes|
    ensures forall i :: 0 <= i < |ps| ==> |ps[i]| == 1 && ps[i][0] < n && StartOk(nodes[ps[i][0]], q)
    ensures forall i, j :: 0 <= i < j < |ps| ==> ps[i][0] < ps[j][0]
  {
    if n == 0 then []
    else Starts(nodes, q, n - 1) + (if StartOk(nodes[n - 1], q) then [[n - 1]] else [])
  }

  /** No flight of `p` departs from or lands at airport `a`. */
  predicate Unvisited(nodes: seq<Flight>, p: seq<nat>, a: Airport)
    requires InRange(nodes, p)
  {
    p == [] ||
    var n := |p| - 1;
    Unvisited(nodes, p[..n], a) && nodes[p[n]].origin != a && nodes[p[n]].destination != a
  }

  lemma {:induction false} UnvisitedIff(nodes: seq<Flight>, p: seq<nat>, a: Airport)
    requires InRange(nodes, p)
    ensures Unvisited(nodes, p, a) <==>
              forall i :: 0 <= i < |p| ==> nodes[p[i]].origin != a && nodes[p[i]].destination != a
  {
    if p != [] {
      var n := |p| - 1;
      UnvisitedIff(nodes, p[..n], a);
      assert forall i :: 0 <= i < n ==> p[..n][i] == p[i];
    }
  }

  /**
   * The test the search makes before it extends route `p` along edge `e`: the new flight
   * lands at an airport the route has not visited, and the edge allows the bags.
   */
  predicate Accepts(nodes: seq<Flight>, bags: int, p: seq<nat>, e: Edge)
    requires IsPath(nodes, p) && e.nodeTo < |nodes|
  {
    Unvisited(nodes, p, nodes[e.nodeTo].destination) && e.bagsAllowed >= bags
  }

  /** `Accepts` is `Route(nodes).is_valid_node(nbr)` together with the edge's bag test. */
  lemma AcceptsIsValidNode(nodes: seq<Flight>, bags: int, p: seq<nat>, e: Edge)
    requires IsPath(nodes, p) && e.nodeTo < |nodes|
    ensures Accepts(nodes, bags, p, e) <==>
              RouteOf(FlightsOf(nodes, p)).IsValidNode(nodes[e.nodeTo]) && e.bagsAllowed >= bags
  {
    var fs := FlightsOf(nodes, p);
    var a := nodes[e.nodeTo].destination;
    UnvisitedIff(nodes, p, a);
    assert RouteOf(fs).IsValidNode(nodes[e.nodeTo]) <==>
           forall i :: 0 <= i < |fs| ==> fs[i].origin != a && fs[i].destination != a;
  }

  /** The extensions of `p` the edges `es` produce, in edge order. */
  function ExtendAlong(nodes: seq<Flight>, bags: int, p: seq<nat>, es: seq<Edge>): (ps: seq<seq<nat>>)
    requires IsPath(nodes, p)
    requires forall k :: 0 <= k < |es| ==> es[k].nodeTo < |nodes|
    ensures ArePaths(nodes, ps)
    ensures forall i :: 0 <= i < |ps| ==> |ps[i]| == |p| + 1 && ps[i][..|p|] == p
  {
    if es == [] then []
    else
      var n := |es| - 1;
      var ext := p + [es[n].nodeTo];
      assert ext[..|p|] == p;
      ExtendAlong(nodes, bags, p, es[..n]) + (if Accepts(nodes, bags, p, es[n]) then [ext] else [])
  }

  /** Offering one more edge to the inner loop appends at most that edge's extension to the queue. */
  lemma ExtendAlongStep(nodes: seq<Flight>, bags: int, p: seq<nat>, es: seq<Edge>, j: nat,
                        q0: seq<seq<nat>>, queue: seq<seq<nat>>)
    requires IsPath(nodes, p) && j < |es|
    requires forall k :: 0 <= k < |es| ==> es[k].nodeTo < |nodes|
    requires queue == q0 + ExtendAlong(nodes, bags, p, es[..j])
    ensures (if Accepts(nodes, bags, p, es[j]) then queue + [p + [es[j].nodeTo]] else queue) ==
            q0 + ExtendAlong(nodes, bags, p, es[..j + 1])
  {
    assert es[..j + 1][..j] == es[..j];
  }

  /** What the inner loop appends to the queue for a dequeued route `p`. */
  function Extensions(nodes: seq<Flight>, edges: seq<seq<Edge>>, bags: int, p: seq<nat>): (ps: seq<seq<nat>>)
    requires WellFormed(nodes, edges) && IsPath(nodes, p)
    ensures ArePaths(nodes, ps)
  {
    ExtendAlong(nodes, bags, p, edges[Last(p)])
  }

  /** The extensions of a list of routes, one route after the other. */
  function Expand(nodes: seq<Flight>, edges: seq<seq<Edge>>, bags: int, ps: seq<seq<nat>>): (xs: seq<seq<nat>>)
    requires WellFormed(nodes, edges) && ArePaths(nodes, ps)
    ensures ArePaths(nodes, xs)
  {
    if ps == [] then []
    else
      var n := |ps| - 1;
      Expand(nodes, edges, bags, ps[..n]) + Extensions(nodes, edges, bags, ps[n])
  }

  /** The routes with `k + 1` flights, in the order the queue holds them. */
  function Level(nodes: seq<Flight>, edges: seq<seq<Edge>>, q: Query, k: nat): (ps: seq<seq<nat>>)
    requires WellFormed(nodes, edges)
    ensures ArePaths(nodes, ps)
  {
    if k == 0 then Starts(nodes, q, |nodes|)
    else Expand(nodes, edges, q.bags, Level(nodes, edges, q, k - 1))
  }

  /** Every route dequeued while the first `k` levels are worked through, in dequeue order. */
  function Enumerated(nodes: seq<Flight>, edges: seq<seq<Edge>>, q: Query, k: nat): (ps: seq<seq<nat>>)
    requires WellFormed(nodes, edges)
    ensures ArePaths(nodes, ps)
  {
    if k == 0 then []
    else Enumerated(nodes, edges, q, k - 1) + Level(nodes, edges, q, k - 1)
  }

  /** The routes of `ps` whose last flight lands at `destination`, in order. */
  function Filter(nodes: seq<Flight>, destination: Airport, ps: seq<seq<nat>>): (rs: seq<seq<nat>>)
    requires ArePaths(nodes, ps)
    ensures ArePaths(nodes, rs)
    ensures forall i :: 0 <= i < |rs| ==> nodes[Last(rs[i])].destination == destination
  {
    if ps == [] then []
    else
      var n := |ps| - 1;
      Filter(nodes, destination, ps[..n]) + (if nodes[Last(ps[n])].destination == destination then [ps[n]] else [])
  }

  /**
   * The routes `_bfs(origin, destination, bags, dep_date)` yields, in yield order. No
   * route has more flights than the graph has nodes, so `|nodes|` levels are all there are.
   */
  function SearchRoutes(nodes: seq<Flight>, edges: seq<seq<Edge>>, origin: Airport, destination: Airport,
                        bags: int, depDate: Option<int>): (rs: seq<seq<nat>>)
    requires WellFormed(nodes, edges)
    ensures ArePaths(nodes, rs)
  {
    Filter(nodes, destination, Enumerated(nodes, edges, Query(origin, bags, depDate), |nodes|))
  }

  lemma FlightsOfAppend(nodes: seq<Flight>, p: seq<nat>, r: seq<nat>)
    requires InRange(nodes, p) && InRange(nodes, r)
    ensures InRange(nodes, p + r) && FlightsOf(nodes, p + r) == FlightsOf(nodes, p) + FlightsOf(nodes, r)
  {
    assert forall i :: 0 <= i < |p + r| ==> (p + r)[i] == if i < |p| then p[i] else r[i - |p|];
  }

  /** Working through one more dequeued route appends its extensions. */
  lemma ExpandSnoc(nodes: seq<Flight>, edges: seq<seq<Edge>>, bags: int, ps: seq<seq<nat>>, i: nat)
    requires WellFormed(nodes, edges) && ArePaths(nodes, ps) && i < |ps|
    ensures Expand(nodes, edges, bags, ps[..i + 1]) ==
            Expand(nodes, edges, bags, ps[..i]) + Extensions(nodes, edges, bags, ps[i])
  {
    assert ps[..i + 1][..i] == ps[..i];
  }

  /** Filtering one more route appends it when it ends at the destination. */
  lemma FilterSnoc(nodes: seq<Flight>, destination: Airport, ps: seq<seq<nat>>, p: seq<nat>)
    requires ArePaths(nodes, ps) && IsPath(nodes, p)
    ensures Filter(nodes, destination, ps + [p]) ==
            Filter(nodes, destination, ps) + (if nodes[Last(p)].destination == destination then [p] else [])
  {
    assert (ps + [p])[..|ps|] == ps;
  }

  // ---------------------------------------------------------------------------------
  // The same routes, described without the queue
  // ---------------------------------------------------------------------------------

  /**
   * Flight `b` may follow route `p`: it connects to the last flight, the edge between them
   * allows the bags, and it lands at an airport no flight of `p` starts or ends at.
   */
  predicate StepOk(nodes: seq<Flight>, maxLayover: int, bags: int, p: seq<nat>, b: nat)
    requires IsPath(nodes, p) && b < |nodes|
  {
    Connects(nodes[Last(p)], nodes[b], maxLayover) &&
    GetBagsAllowed(nodes[Last(p)], nodes[b]) >= bags &&
    forall i :: 0 <= i < |p| ==>
      nodes[p[i]].origin != nodes[b].destination && nodes[p[i]].destination != nodes[b].destination
  }

  /** A route the search reaches: an acceptable first flight, then acceptable steps. */
  predicate IsSearchPath(nodes: seq<Flight>, maxLayover: int, q: Query, p: seq<nat>)
  {
    IsPath(nodes, p) && StartOk(nodes[p[0]], q) &&
    forall j :: 1 <= j < |p| ==> StepOk(nodes, maxLayover, q.bags, p[..j], p[j])
  }

  lemma {:induction false} StartsComplete(nodes: seq<Flight>, q: Query, n: nat, b: nat)
    requires b < n <= |nodes| && StartOk(nodes[b], q)
    ensures [b] in Starts(nodes, q, n)
  {
    if b < n - 1 {
      StartsComplete(nodes, q, n - 1, b);
    } else {
      assert Starts(nodes, q, n) == Starts(nodes, q, n - 1) + [[b]];
    }
  }

  /** An extension of `p` by `b` is produced exactly when some edge to `b` is accepted. */
  lemma {:induction false} ExtendAlongMember(nodes: seq<Flight>, bags: int, p: seq<nat>, es: seq<Edge>, b: nat)
    requires IsPath(nodes, p)
    requires forall k :: 0 <= k < |es| ==> es[k].nodeTo < |nodes|
    ensures p + [b] in ExtendAlong(nodes, bags, p, es) <==>
              exists k :: 0 <= k < |es| && es[k].nodeTo == b && Accepts(nodes, bags, p, es[k])
  {
    if es != [] {
      var n := |es| - 1;
      ExtendAlongMember(nodes, bags, p, es[..n], b);
      var rest := ExtendAlong(nodes, bags, p, es[..n]);
      if p + [b] in rest {
        var k :| 0 <= k < n && es[..n][k].nodeTo == b && Accepts(nodes, bags, p, es[..n][k]);
        assert es[k] == es[..n][k];
      }
      if exists k :: 0 <= k < |es| && es[k].nodeTo == b && Accepts(nodes, bags, p, es[k]) {
        var k :| 0 <= k < |es| && es[k].nodeTo == b && Accepts(nodes, bags, p, es[k]);
        if k < n {
          assert es[..n][k] == es[k];
        } else {
          assert p + [es[n].nodeTo] == p + [b];
        }
      }
    }
  }

  /**
   * Along an edge of a built graph, the acceptance test the search makes is the step
   * condition: the edge's allowance is the smaller of the two flights' allowances, and
   * the airport test is the no-revisit condition.
   */
  lemma AcceptsStep(nodes: seq<Flight>, maxLayover: int, bags: int, p: seq<nat>, e: Edge)
    requires IsPath(nodes, p) && e.nodeTo < |nodes|
    requires Connects(nodes[Last(p)], nodes[e.nodeTo], maxLayover)
    requires e.bagsAllowed == GetBagsAllowed(nodes[Last(p)], nodes[e.nodeTo])
    ensures Accepts(nodes, bags, p, e) <==> StepOk(nodes, maxLayover, bags, p, e.nodeTo)
  {
    UnvisitedIff(nodes, p, nodes[e.nodeTo].destination);
  }

  /** Every extension of `p` is `p` plus one acceptable step. */
  lemma ExtensionsSound(nodes: seq<Flight>, edges: seq<seq<Edge>>, maxLayover: int, bags: int,
                        p: seq<nat>, x: seq<nat>)
    requires Built(nodes, edges, maxLayover) && WellFormed(nodes, edges) && IsPath(nodes, p)
    requires x in Extensions(nodes, edges, bags, p)
    ensures |x| == |p| + 1 && x == p + [x[|p|]] && x[|p|] < |nodes| && StepOk(nodes, maxLayover, bags, p, x[|p|])
  {
    var es := edges[Last(p)];
    BuiltAt(nodes, edges, maxLayover, Last(p));
    var b := x[|p|];
    assert x == p + [b];
    ExtendAlongMember(nodes, bags, p, es, b);
    var k :| 0 <= k < |es| && es[k].nodeTo == b && Accepts(nodes, bags, p, es[k]);
    AcceptsStep(nodes, maxLayover, bags, p, es[k]);
  }

  /** Every acceptable step from `p` gives an extension of `p`. */
  lemma ExtensionsComplete(nodes: seq<Flight>, edges: seq<seq<Edge>>, maxLayover: int, bags: int,
                           p: seq<nat>, b: nat)
    requires Built(nodes, edges, maxLayover) && WellFormed(nodes, edges) && IsPath(nodes, p)
    requires b < |nodes| && StepOk(nodes, maxLayover, bags, p, b)
    ensures p + [b] in Extensions(nodes, edges, bags, p)
  {
    var es := edges[Last(p)];
    BuiltAt(nodes, edges, maxLayover, Last(p));
    assert es == Successors(nodes, Last(p), maxLayover);
    SuccessorsExactly(nodes, Last(p), maxLayover, b);
    var k :| 0 <= k < |es| && es[k].nodeTo == b;
    AcceptsStep(nodes, maxLayover, bags, p, es[k]);
    ExtendAlongMember(nodes, bags, p, es, b);
  }

  /** In a built graph a route's extensions are exactly the routes one acceptable step longer. */
  lemma ExtensionsMember(nodes: seq<Flight>, edges: seq<seq<Edge>>, maxLayover: int, bags: int,
                         p: seq<nat>, x: seq<nat>)
    requires Built(nodes, edges, maxLayover) && IsPath(nodes, p)
    ensures WellFormed(nodes, edges)
    ensures x in Extensions(nodes, edges, bags, p) <==>
              |x| == |p| + 1 && x[..|p|] == p && x[|p|] < |nodes| &&
              StepOk(nodes, maxLayover, bags, p, x[|p|])
  {
    BuiltWellFormed(nodes, edges, maxLayover);
    if x in Extensions(nodes, edges, bags, p) {
      ExtensionsSound(nodes, edges, maxLayover, bags, p, x);
    } else if |x| == |p| + 1 && x[..|p|] == p && x[|p|] < |nodes| &&
              StepOk(nodes, maxLayover, bags, p, x[|p|]) {
      assert x == p + [x[|p|]];
      ExtensionsComplete(nodes, edges, maxLayover, bags, p, x[|p|]);
    }
  }

  /** Every route of `Expand(ps)` comes from one of `ps`. */
  lemma {:induction false} ExpandSource(nodes: seq<Flight>, edges: seq<seq<Edge>>, bags: int,
                                        ps: seq<seq<nat>>, x: seq<nat>) returns (i: nat)
    requires WellFormed(nodes, edges) && ArePaths(nodes, ps)
    requires x in Expand(nodes, edges, bags, ps)
    ensures i < |ps| && x in Extensions(nodes, edges, bags, ps[i])
  {
    var n := |ps| - 1;
    var rest := Expand(nodes, edges, bags, ps[..n]);
    var ext := Extensions(nodes, edges, bags, ps[n]);
    assert Expand(nodes, edges, bags, ps) == rest + ext;
    if x in rest {
      i := ExpandSource(nodes, edges, bags, ps[..n], x);
      assert ps[..n][i] == ps[i];
    } else {
      i := n;
    }
  }

  /** Every extension of one of `ps` is in `Expand(ps)`. */
  lemma {:induction false} ExpandCovers(nodes: seq<Flight>, edges: seq<seq<Edge>>, bags: int,
                                        ps: seq<seq<nat>>, i: nat, x: seq<nat>)
    requires WellFormed(nodes, edges) && ArePaths(nodes, ps)
    requires i < |ps| && x in Extensions(nodes, edges, bags, ps[i])
    ensures x in Expand(nodes, edges, bags, ps)
  {
    var n := |ps| - 1;
    var rest := Expand(nodes, edges, bags, ps[..n]);
    var ext := Extensions(nodes, edges, bags, ps[n]);
    assert Expand(nodes, edges, bags, ps) == rest + ext;
    if i < n {
      assert ps[..n][i] == ps[i];
      ExpandCovers(nodes, edges, bags, ps[..n], i, x);
    }
  }

  /** A route is in `Expand(ps)` exactly when it extends one of `ps`. */
  lemma ExpandMember(nodes: seq<Flight>, edges: seq<seq<Edge>>, bags: int, ps: seq<seq<nat>>, x: seq<nat>)
    requires WellFormed(nodes, edges) && ArePaths(nodes, ps)
    ensures x in Expand(nodes, edges, bags, ps) <==>
              exists i :: 0 <= i < |ps| && x in Extensions(nodes, edges, bags, ps[i])
  {
    if x in Expand(nodes, edges, bags, ps) {
      var i := ExpandSource(nodes, edges, bags, ps, x);
    }
    if exists i :: 0 <= i < |ps| && x in Extensions(nodes, edges, bags, ps[i]) {
      var i :| 0 <= i < |ps| && x in Extensions(nodes, edges, bags, ps[i]);
      ExpandCovers(nodes, edges, bags, ps, i, x);
    }
  }

  lemma SnocPrefix(x: seq<nat>, k: nat)
    requires |x| == k + 1
    ensures x == x[..k] + [x[k]]
  {
  }

  /** A search path one flight longer is a search path followed by an acceptable step. */
  lemma SearchPathSnoc(nodes: seq<Flight>, maxLayover: int, q: Query, p: seq<nat>, b: nat)
    requires IsPath(nodes, p) && b < |nodes|
    ensures IsSearchPath(nodes, maxLayover, q, p + [b]) <==>
              IsSearchPath(nodes, maxLayover, q, p) && StepOk(nodes, maxLayover, q.bags, p, b)
  {
    var x := p + [b];
    assert x[..|p|] == p;
    assert forall j :: 1 <= j <= |p| ==> x[..j] == p[..j];
  }

  /** Extending a search path gives a search path one flight longer. */
  lemma ExtendSearchPath(nodes: seq<Flight>, edges: seq<seq<Edge>>, maxLayover: int, q: Query, p: seq<nat>, x: seq<nat>)
    requires Built(nodes, edges, maxLayover) && WellFormed(nodes, edges)
    requires IsSearchPath(nodes, maxLayover, q, p) && x in Extensions(nodes, edges, q.bags, p)
    ensures IsSearchPath(nodes, maxLayover, q, x) && |x| == |p| + 1
  {
    ExtensionsSound(nodes, edges, maxLayover, q.bags, p, x);
    SearchPathSnoc(nodes, maxLayover, q, p, x[|p|]);
  }

  /** Every route of `Level(k)` is a search path with `k + 1` flights. */
  lemma {:induction false} LevelSound(nodes: seq<Flight>, edges: seq<seq<Edge>>, maxLayover: int,
                                      q: Query, k: nat, x: seq<nat>)
    requires Built(nodes, edges, maxLayover) && WellFormed(nodes, edges)
    requires x in Level(nodes, edges, q, k)
    ensures IsSearchPath(nodes, maxLayover, q, x) && |x| == k + 1
  {
    if k == 0 {
      StartsSound(nodes, maxLayover, q, x);
    } else {
      var p := LevelParent(nodes, edges, q, k, x);
      LevelSound(nodes, edges, maxLayover, q, k - 1, p);
      ExtendSearchPath(nodes, edges, maxLayover, q, p, x);
    }
  }

  /** Every initial route is a search path of one flight. */
  lemma StartsSound(nodes: seq<Flight>, maxLayover: int, q: Query, x: seq<nat>)
    requires x in Starts(nodes, q, |nodes|)
    ensures IsSearchPath(nodes, maxLayover, q, x) && |x| == 1
  {
    assert x == [x[0]];
  }

  /** Every route of a later level extends a route of the level before. */
  lemma LevelParent(nodes: seq<Flight>, edges: seq<seq<Edge>>, q: Query, k: nat, x: seq<nat>) returns (p: seq<nat>)
    requires WellFormed(nodes, edges) && k > 0 && x in Level(nodes, edges, q, k)
    ensures p in Level(nodes, edges, q, k - 1) && IsPath(nodes, p) && x in Extensions(nodes, edges, q.bags, p)
  {
    var prev := Level(nodes, edges, q, k - 1);
    var i := ExpandSource(nodes, edges, q.bags, prev, x);
    p := prev[i];
  }

  /** Every search path with `k + 1` flights is in `Level(k)`. */
  lemma {:induction false} LevelComplete(nodes: seq<Flight>, edges: seq<seq<Edge>>, maxLayover: int,
                                         q: Query, k: nat, x: seq<nat>)
    requires Built(nodes, edges, maxLayover) && WellFormed(nodes, edges)
    requires IsSearchPath(nodes, maxLayover, q, x) && |x| == k + 1
    ensures x in Level(nodes, edges, q, k)
  {
    if k == 0 {
      StartsComplete(nodes, q, |nodes|, x[0]);
      assert x == [x[0]];
    } else {
      var p := x[..k];
      SnocPrefix(x, k);
      SearchPathSnoc(nodes, maxLayover, q, p, x[k]);
      LevelComplete(nodes, edges, maxLayover, q, k - 1, p);
      LevelChild(nodes, edges, maxLayover, q, k, p, x[k]);
    }
  }

  /** An acceptable step from a route of one level gives a route of the next. */
  lemma LevelChild(nodes: seq<Flight>, edges: seq<seq<Edge>>, maxLayover: int, q: Query, k: nat,
                   p: seq<nat>, b: nat)
    requires Built(nodes, edges, maxLayover) && WellFormed(nodes, edges) && k > 0
    requires p in Level(nodes, edges, q, k - 1) && b < |nodes| && StepOk(nodes, maxLayover, q.bags, p, b)
    ensures p + [b] in Level(nodes, edges, q, k)
  {
    var prev := Level(nodes, edges, q, k - 1);
    var i :| 0 <= i < |prev| && prev[i] == p;
    ExtensionsComplete(nodes, edges, maxLayover, q.bags, p, b);
    ExpandCovers(nodes, edges, q.bags, prev, i, p + [b]);
  }


  /** In a built graph `Level(k)` holds exactly the search paths with `k + 1` flights. */
  lemma LevelMember(nodes: seq<Flight>, edges: seq<seq<Edge>>, maxLayover: int, q: Query, k: nat, x: seq<nat>)
    requires Built(nodes, edges, maxLayover)
    ensures WellFormed(nodes, edges)
    ensures x in Level(nodes, edges, q, k) <==> IsSearchPath(nodes, maxLayover, q, x) && |x| == k + 1
  {
    BuiltWellFormed(nodes, edges, maxLayover);
    if x in Level(nodes, edges, q, k) {
      LevelSound(nodes, edges, maxLayover, q, k, x);
    } else if IsSearchPath(nodes, maxLayover, q, x) && |x| == k + 1 {
      LevelComplete(nodes, edges, maxLayover, q, k, x);
    }
  }

  /** Distinct numbers below `n` are at most `n` many. */
  lemma {:induction false} DistinctBounded(s: seq<nat>, n: nat)
    requires forall i :: 0 <= i < |s| ==> s[i] < n
    requires forall i, j :: 0 <= i < j < |s| ==> s[i] != s[j]
    ensures |s| <= n
  {
    if s != [] {
      assert s[0] < n;
      var m := n - 1;
      if j :| 0 <= j < |s| && s[j] == m {
        var t := s[..j] + s[j + 1..];
        assert |t| == |s| - 1;
        forall i | 0 <= i < |t| ensures t[i] < m {
          if i < j { assert t[i] == s[i]; } else { assert t[i] == s[i + 1]; }
        }
        forall i, i' | 0 <= i < i' < |t| ensures t[i] != t[i'] {
          var a := if i < j then i else i + 1;
          var a' := if i' < j then i' else i' + 1;
          assert t[i] == s[a] && t[i'] == s[a'] && a < a';
        }
        DistinctBounded(t, m);
      } else {
        DistinctBounded(s, m);
      }
    }
  }

  /**
   * A search path never uses a flight twice (each flight lands somewhere new), so it has
   * at most as many flights as the graph has nodes.
   */
  lemma SearchPathBound(nodes: seq<Flight>, maxLayover: int, q: Query, x: seq<nat>)
    requires IsSearchPath(nodes, maxLayover, q, x)
    ensures |x| <= |nodes|
  {
    forall i, j | 0 <= i < j < |x| ensures x[i] != x[j] {
      assert StepOk(nodes, maxLayover, q.bags, x[..j], x[j]);
      assert x[..j][i] == x[i];
    }
    DistinctBounded(x, |nodes|);
  }

  /** A non-empty level holds routes no longer than the graph has nodes. */
  lemma LevelBound(nodes: seq<Flight>, edges: seq<seq<Edge>>, maxLayover: int, q: Query, k: nat)
    requires Built(nodes, edges, maxLayover) && WellFormed(nodes, edges)
    requires Level(nodes, edges, q, k) != []
    ensures k < |nodes|
  {
    var x := Level(nodes, edges, q, k)[0];
    LevelSound(nodes, edges, maxLayover, q, k, x);
    SearchPathBound(nodes, maxLayover, q, x);
  }

  /** Once a level is empty, so are all later ones. */
  lemma {:induction false} LevelEmptyAfter(nodes: seq<Flight>, edges: seq<seq<Edge>>, q: Query, k: nat, m: nat)
    requires WellFormed(nodes, edges)
    requires k <= m && Level(nodes, edges, q, k) == []
    ensures Level(nodes, edges, q, m) == []
  {
    if k < m {
      LevelEmptyAfter(nodes, edges, q, k, m - 1);
      assert Level(nodes, edges, q, m) == Expand(nodes, edges, q.bags, []);
    }
  }

  /** Levels past an empty one add nothing to the enumeration. */
  lemma {:induction false} EnumeratedStable(nodes: seq<Flight>, edges: seq<seq<Edge>>, q: Query, k: nat, m: nat)
    requires WellFormed(nodes, edges)
    requires k <= m && Level(nodes, edges, q, k) == []
    ensures Enumerated(nodes, edges, q, m + 1) == Enumerated(nodes, edges, q, k)
  {
    if k < m {
      EnumeratedStable(nodes, edges, q, k, m - 1);
      LevelEmptyAfter(nodes, edges, q, k, m);
      assert Enumerated(nodes, edges, q, m + 1)
          == Enumerated(nodes, edges, q, m) + Level(nodes, edges, q, m);
    } else {
      assert Enumerated(nodes, edges, q, m + 1)
          == Enumerated(nodes, edges, q, k) + Level(nodes, edges, q, k);
    }
  }

  /** Every route dequeued in the first `m` levels is a search path of at most `m` flights. */
  lemma {:induction false} EnumeratedSound(nodes: seq<Flight>, edges: seq<seq<Edge>>, maxLayover: int,
                                           q: Query, m: nat, x: seq<nat>)
    requires Built(nodes, edges, maxLayover) && WellFormed(nodes, edges)
    requires x in Enumerated(nodes, edges, q, m)
    ensures IsSearchPath(nodes, maxLayover, q, x) && |x| <= m
  {
    assert m > 0;
    var e := Enumerated(nodes, edges, q, m - 1);
    var l := Level(nodes, edges, q, m - 1);
    assert Enumerated(nodes, edges, q, m) == e + l;
    if x in e {
      EnumeratedSound(nodes, edges, maxLayover, q, m - 1, x);
    } else {
      assert x in l;
      LevelSound(nodes, edges, maxLayover, q, m - 1, x);
    }
  }

  /** Every search path of at most `m` flights is dequeued in the first `m` levels. */
  lemma {:induction false} EnumeratedComplete(nodes: seq<Flight>, edges: seq<seq<Edge>>, maxLayover: int,
                                              q: Query, m: nat, x: seq<nat>)
    requires Built(nodes, edges, maxLayover) && WellFormed(nodes, edges)
    requires IsSearchPath(nodes, maxLayover, q, x) && |x| <= m
    ensures x in Enumerated(nodes, edges, q, m)
  {
    LevelComplete(nodes, edges, maxLayover, q, |x| - 1, x);
    EnumeratedHasLevel(nodes, edges, q, m, |x| - 1, x);
  }

  /** The first `m` levels include every route of level `k < m`. */
  lemma {:induction false} EnumeratedHasLevel(nodes: seq<Flight>, edges: seq<seq<Edge>>, q: Query,
                                              m: nat, k: nat, x: seq<nat>)
    requires WellFormed(nodes, edges) && k < m && x in Level(nodes, edges, q, k)
    ensures x in Enumerated(nodes, edges, q, m)
  {
    if k < m - 1 {
      EnumeratedHasLevel(nodes, edges, q, m - 1, k, x);
      InAppend(Enumerated(nodes, edges, q, m - 1), Level(nodes, edges, q, m - 1), x);
    } else {
      InAppend(Enumerated(nodes, edges, q, k), Level(nodes, edges, q, k), x);
    }
  }

  lemma InAppend<T>(a: seq<T>, b: seq<T>, x: T)
    requires x in a || x in b
    ensures x in a + b
  {
  }

  /** In a built graph the first `m` levels hold exactly the search paths of at most `m` flights. */
  lemma EnumeratedMember(nodes: seq<Flight>, edges: seq<seq<Edge>>, maxLayover: int, q: Query, m: nat, x: seq<nat>)
    requires Built(nodes, edges, maxLayover)
    ensures WellFormed(nodes, edges)
    ensures x in Enumerated(nodes, edges, q, m) <==> IsSearchPath(nodes, maxLayover, q, x) && |x| <= m
  {
    BuiltWellFormed(nodes, edges, maxLayover);
    if x in Enumerated(nodes, edges, q, m) {
      EnumeratedSound(nodes, edges, maxLayover, q, m, x);
    } else if IsSearchPath(nodes, maxLayover, q, x) && |x| <= m {
      EnumeratedComplete(nodes, edges, maxLayover, q, m, x);
    }
  }

  lemma {:induction false} FilterMember(nodes: seq<Flight>, destination: Airport, ps: seq<seq<nat>>, x: seq<nat>)
    requires ArePaths(nodes, ps)
    ensures x in Filter(nodes, destination, ps) <==> x in ps && nodes[Last(x)].destination == destination
  {
    if ps != [] {
      var n := |ps| - 1;
      FilterMember(nodes, destination, ps[..n], x);
      assert ps == ps[..n] + [ps[n]];
    }
  }

  /**
   * In a built graph the search yields exactly the search paths from the origin that end
   * at the destination: nothing else, and nothing is missed.
   */
  lemma SearchRoutesMember(nodes: seq<Flight>, edges: seq<seq<Edge>>, maxLayover: int,
                           origin: Airport, destination: Airport, bags: int, depDate: Option<int>, x: seq<nat>)
    requires Built(nodes, edges, maxLayover)
    ensures WellFormed(nodes, edges)
    ensures x in SearchRoutes(nodes, edges, origin, destination, bags, depDate) <==>
              IsSearchPath(nodes, maxLayover, Query(origin, bags, depDate), x) &&
              nodes[Last(x)].destination == destination
  {
    BuiltWellFormed(nodes, edges, maxLayover);
    var q := Query(origin, bags, depDate);
    var all := Enumerated(nodes, edges, q, |nodes|);
    FilterMember(nodes, destination, all, x);
    EnumeratedMember(nodes, edges, maxLayover, q, |nodes|, x);
    if IsSearchPath(nodes, maxLayover, q, x) {
      SearchPathBound(nodes, maxLayover, q, x);
    }
  }

  /**
   * What every yielded route satisfies: it starts at the origin (no earlier than the
   * requested departure), ends at the destination, every flight allows the bags, every
   * consecutive pair is a legal connection, and no flight lands at an airport an earlier
   * flight of the route started or ended at.
   */
  lemma SearchRoutesSound(nodes: seq<Flight>, edges: seq<seq<Edge>>, maxLayover: int,
                          origin: Airport, destination: Airport, bags: int, depDate: Option<int>, x: seq<nat>)
    requires Built(nodes, edges, maxLayover)
    requires WellFormed(nodes, edges) && x in SearchRoutes(nodes, edges, origin, destination, bags, depDate)
    ensures |x| > 0 && InRange(nodes, x)
    ensures nodes[x[0]].origin == origin && nodes[Last(x)].destination == destination
    ensures depDate.Some? ==> nodes[x[0]].departure >= depDate.value
    ensures forall j :: 0 <= j < |x| ==> nodes[x[j]].bagsAllowed >= bags
    ensures forall j :: 1 <= j < |x| ==> Connects(nodes[x[j - 1]], nodes[x[j]], maxLayover)
    ensures forall i, j :: 0 <= i < j < |x| ==>
              nodes[x[j]].destination != nodes[x[i]].origin && nodes[x[j]].destination != nodes[x[i]].destination
  {
    SearchRoutesMember(nodes, edges, maxLayover, origin, destination, bags, depDate, x);
    forall j | 1 <= j < |x|
      ensures nodes[x[j]].bagsAllowed >= bags && Connects(nodes[x[j - 1]], nodes[x[j]], maxLayover)
    {
      assert StepOk(nodes, maxLayover, bags, x[..j], x[j]);
      assert Last(x[..j]) == x[j - 1];
    }
    forall i, j | 0 <= i < j < |x|
      ensures nodes[x[j]].destination != nodes[x[i]].origin && nodes[x[j]].destination != nodes[x[i]].destination
    {
      assert StepOk(nodes, maxLayover, bags, x[..j], x[j]);
      assert x[..j][i] == x[i];
    }
  }

  /**
   * Search continues past the destination, yet never yields a longer route through it:
   * once a route has reached the destination, no later flight may land there again.
   */
  lemma NoExtensionYielded(nodes: seq<Flight>, edges: seq<seq<Edge>>, maxLayover: int,
                           origin: Airport, destination: Airport, bags: int, depDate: Option<int>,
                           x: seq<nat>, s: seq<nat>)
    requires Built(nodes, edges, maxLayover)
    requires WellFormed(nodes, edges) && x in SearchRoutes(nodes, edges, origin, destination, bags, depDate)
    requires |s| > 0
    ensures x + s !in SearchRoutes(nodes, edges, origin, destination, bags, depDate)
  {
    var y := x + s;
    var q := Query(origin, bags, depDate);
    SearchRoutesSound(nodes, edges, maxLayover, origin, destination, bags, depDate, x);
    if IsSearchPath(nodes, maxLayover, q, y) {
      var j := |y| - 1;
      assert StepOk(nodes, maxLayover, bags, y[..j], y[j]);
      assert y[..j][|x| - 1] == Last(x);
      assert nodes[Last(y)].destination != destination;
    }
    SearchRoutesMember(nodes, edges, maxLayover, origin, destination, bags, depDate, y);
  }

  /** An airport that no flight leaves from, or lands at, gives no routes (and no error). */
  lemma UnknownAirportNoRoutes(nodes: seq<Flight>, edges: seq<seq<Edge>>, maxLayover: int,
                               origin: Airport, destination: Airport, bags: int, depDate: Option<int>)
    requires Built(nodes, edges, maxLayover) && WellFormed(nodes, edges)
    requires (forall i :: 0 <= i < |nodes| ==> nodes[i].origin != origin) ||
             (forall i :: 0 <= i < |nodes| ==> nodes[i].destination != destination)
    ensures SearchRoutes(nodes, edges, origin, destination, bags, depDate) == []
  {
    var rs := SearchRoutes(nodes, edges, origin, destination, bags, depDate);
    if rs != [] {
      SearchRoutesSound(nodes, edges, maxLayover, origin, destination, bags, depDate, rs[0]);
    }
  }

  // ---------------------------------------------------------------------------------
  // The queue of `_bfs`, one dequeued route at a time
  // ---------------------------------------------------------------------------------

  /**
   * The queue after the first `k` levels and `i` routes of level `k` have been dequeued:
   * the rest of level `k`, then the extensions of the routes of level `k` taken so far;
   * `yielded` is what has been yielded, the dequeued routes that end at the destination.
   */
  ghost predicate QueueAt(nodes: seq<Flight>, edges: seq<seq<Edge>>, q: Query, destination: Airport,
                          k: nat, i: nat, queue: seq<seq<nat>>, yielded: seq<seq<nat>>)
    requires WellFormed(nodes, edges)
  {
    var level := Level(nodes, edges, q, k);
    k <= |nodes| && i <= |level| && (i < |level| || level == []) &&
    queue == level[i..] + Expand(nodes, edges, q.bags, level[..i]) &&
    ArePaths(nodes, Enumerated(nodes, edges, q, k) + level[..i]) &&
    yielded == Filter(nodes, destination, Enumerated(nodes, edges, q, k) + level[..i])
  }

  /** The initial queue is level 0, and nothing has been yielded. */
  lemma QueueStart(nodes: seq<Flight>, edges: seq<seq<Edge>>, q: Query, destination: Airport)
    requires WellFormed(nodes, edges)
    ensures QueueAt(nodes, edges, q, destination, 0, 0, Starts(nodes, q, |nodes|), [])
  {
    var level := Level(nodes, edges, q, 0);
    assert level[..0] == [] && level[0..] == level;
    assert Enumerated(nodes, edges, q, 0) + level[..0] == [];
  }

  /**
   * Dequeuing the front route `p`, yielding it when it ends at the destination, and
   * appending its extensions moves the queue to the next position; the position
   * `(k, i)` advances, so the loop terminates.
   */
  lemma QueueStep(nodes: seq<Flight>, edges: seq<seq<Edge>>, maxLayover: int, q: Query, destination: Airport,
                  k: nat, i: nat, queue: seq<seq<nat>>, yielded: seq<seq<nat>>) returns (k': nat, i': nat)
    requires Built(nodes, edges, maxLayover) && WellFormed(nodes, edges)
    requires QueueAt(nodes, edges, q, destination, k, i, queue, yielded) && queue != []
    ensures IsPath(nodes, queue[0])
    ensures QueueAt(nodes, edges, q, destination, k', i',
                    queue[1..] + Extensions(nodes, edges, q.bags, queue[0]),
                    yielded + (if nodes[Last(queue[0])].destination == destination then [queue[0]] else []))
    ensures k < k' <= |nodes| || (k' == k && i' == i + 1)
  {
    QueuePop(nodes, edges, q, destination, k, i, queue, yielded);
    if i + 1 < |Level(nodes, edges, q, k)| {
      k', i' := k, i + 1;
    } else {
      LevelBound(nodes, edges, maxLayover, q, k);
      QueueNextLevel(nodes, edges, q, destination, k, i + 1,
                     queue[1..] + Extensions(nodes, edges, q.bags, queue[0]),
                     yielded + (if nodes[Last(queue[0])].destination == destination then [queue[0]] else []));
      k', i' := k + 1, 0;
    }
  }

  /** The queue and the yielded routes once the front route of position `(k, i)` is dealt with. */
  lemma QueuePop(nodes: seq<Flight>, edges: seq<seq<Edge>>, q: Query, destination: Airport,
                 k: nat, i: nat, queue: seq<seq<nat>>, yielded: seq<seq<nat>>)
    requires WellFormed(nodes, edges)
    requires QueueAt(nodes, edges, q, destination, k, i, queue, yielded) && queue != []
    ensures i < |Level(nodes, edges, q, k)| && queue[0] == Level(nodes, edges, q, k)[i]
    ensures IsPath(nodes, queue[0])
    ensures queue[1..] + Extensions(nodes, edges, q.bags, queue[0]) ==
            Level(nodes, edges, q, k)[i + 1..] + Expand(nodes, edges, q.bags, Level(nodes, edges, q, k)[..i + 1])
    ensures ArePaths(nodes, Enumerated(nodes, edges, q, k) + Level(nodes, edges, q, k)[..i + 1])
    ensures yielded + (if nodes[Last(queue[0])].destination == destination then [queue[0]] else []) ==
            Filter(nodes, destination, Enumerated(nodes, edges, q, k) + Level(nodes, edges, q, k)[..i + 1])
    ensures i + 1 < |Level(nodes, edges, q, k)| ==>
              QueueAt(nodes, edges, q, destination, k, i + 1,
                      queue[1..] + Extensions(nodes, edges, q.bags, queue[0]),
                      yielded + (if nodes[Last(queue[0])].destination == destination then [queue[0]] else []))
  {
    var level := Level(nodes, edges, q, k);
    var before := Enumerated(nodes, edges, q, k);
    assert i < |level|;
    var rest := Expand(nodes, edges, q.bags, level[..i]);
    SliceStep(before, level, i, rest, queue);
    ExpandSnoc(nodes, edges, q.bags, level, i);
    FilterSnoc(nodes, destination, before + level[..i], level[i]);
  }

  /** Sequence bookkeeping for taking element `i` of `s` off the front of `s[i..] + rest`. */
  lemma SliceStep<T>(before: seq<T>, s: seq<T>, i: nat, rest: seq<T>, queue: seq<T>)
    requires i < |s| && queue == s[i..] + rest
    ensures queue[0] == s[i] && queue[1..] == s[i + 1..] + rest
    ensures (before + s[..i]) + [s[i]] == before + s[..i + 1]
  {
    assert s[i..] == [s[i]] + s[i + 1..];
    assert s[..i + 1] == s[..i] + [s[i]];
  }

  /** Once level `k` is worked through, the queue is exactly level `k + 1`. */
  lemma QueueNextLevel(nodes: seq<Flight>, edges: seq<seq<Edge>>, q: Query, destination: Airport,
                       k: nat, n: nat, queue: seq<seq<nat>>, yielded: seq<seq<nat>>)
    requires WellFormed(nodes, edges) && k < |nodes| && n == |Level(nodes, edges, q, k)|
    requires queue == Level(nodes, edges, q, k)[n..] + Expand(nodes, edges, q.bags, Level(nodes, edges, q, k)[..n])
    requires ArePaths(nodes, Enumerated(nodes, edges, q, k) + Level(nodes, edges, q, k)[..n])
    requires yielded == Filter(nodes, destination, Enumerated(nodes, edges, q, k) + Level(nodes, edges, q, k)[..n])
    ensures QueueAt(nodes, edges, q, destination, k + 1, 0, queue, yielded)
  {
    var level := Level(nodes, edges, q, k);
    assert level[..n] == level && level[n..] == [];
    var next := Level(nodes, edges, q, k + 1);
    assert next == Expand(nodes, edges, q.bags, level);
    assert next[..0] == [] && next[0..] == next;
    assert Expand(nodes, edges, q.bags, next[..0]) == [];
    assert Enumerated(nodes, edges, q, k + 1) + next[..0] == Enumerated(nodes, edges, q, k) + level;
  }

  /** When the queue is empty, everything the search yields has been yielded. */
  lemma QueueDone(nodes: seq<Flight>, edges: seq<seq<Edge>>, q: Query, destination: Airport,
                  k: nat, i: nat, yielded: seq<seq<nat>>)
    requires WellFormed(nodes, edges)
    requires QueueAt(nodes, edges, q, destination, k, i, [], yielded)
    ensures yielded == SearchRoutes(nodes, edges, q.origin, destination, q.bags, q.depDate)
  {
    var level := Level(nodes, edges, q, k);
    assert level == [];
    assert level[..i] == [];
    assert Enumerated(nodes, edges, q, k) + level[..i] == Enumerated(nodes, edges, q, k);
    if k < |nodes| {
      EnumeratedStable(nodes, edges, q, k, |nodes| - 1);
    }
  }
}
