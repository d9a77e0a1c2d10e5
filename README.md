# Flight route finder: connection graph, breadth-first route search, round trips, pricing

This project models the core of a small flight-route finder written in Python. It answers
"which itineraries take me from airport A to airport B (and back)?" over a list of flights.
Here is what it does:

- **Routes and pricing (`routes.py`).** A `Route` is a non-empty list of flights. It keeps
  the list of airports it visited (each flight's origin, then its destination) and its
  travel time (last arrival minus first departure). `is_valid_node` accepts a flight only
  when it lands at an airport the route has not visited. `RouteOutput.as_dict` reports two
  more figures:
  - the smallest bag allowance among the flights;
  - the total price, with a separate branch for zero bags.
- **The connection graph (`graph.py`).** `_create_graph` makes one node per flight. It then
  offers every ordered pair of nodes to `_add_edge`. That adds an edge from A to B when
  B leaves from the airport A lands at, between one hour and `max_layover` hours after A
  arrives. Each edge carries the smaller bag allowance of its two flights.
- **The search (`graph.py`).** `_bfs` is a first-in-first-out queue of partial routes.
  - It starts from every flight out of the origin that allows the bags and, when a date
    is given, leaves no earlier than it.
  - It yields each dequeued route that ends at the destination, and keeps extending it.
  - It extends a route along each edge of its last flight, when the edge allows the bags
    and the new flight lands at an unvisited airport.
- **`find_routes`.** It prices every route found. With a return flight, it first joins each
  outbound route with each return route found from the destination, no earlier than the
  outbound arrival plus the stay in hours.

## Model structure

The Dafny modules follow the program's structure.

- **`Flights`** (`flights.dfy`): the typed flight record and `Hour`. Times are whole
  seconds.
- **`Routes`** (`routes.dfy`): the `Route` datatype and `Route.__init__` (`NewRoute`, a loop
  that builds the visited list). Also the price sums, `TotalPrice`, `MinBagsAllowed`, and
  `AsDict` with its `PricedResult` record.
- **`Edges`** (`edges.dfy`): the edge record, `get_bags_allowed`, and the connection test.
  `SuccessorsUpTo` is the successor list a node has after being offered nodes `[0, b)`.
- **`Search`** (`search.dfy`): the route search level by level, as functions.
  - `Level(k)` is the list of routes with `k + 1` flights in queue order.
  - `Enumerated(k)` is every route dequeued while the first `k` levels are processed.
  - `SearchRoutes` is what `_bfs` yields.
  - The lemmas tie these to `IsSearchPath`, a declarative description: an acceptable
    first flight, then steps that connect, allow the bags and land at unvisited airports.
  - The `Queue*` lemmas describe the FIFO queue one dequeued route at a time. They are
    the loop invariant of `Graph.Bfs`.
- **`Trips`** (`trips.dfy`): the round trips. `JoinAll(outs, rss)` is the nested
  joining loop over plain lists. `RoundTrips` is `JoinAll` applied to the search results.
- **`ConnectionGraph`** (`graph.dfy`): the `Graph` class.
  - Its fields are `flights`, `nodes` and the per-node edge lists `edges`.
  - Its methods are `AddNbr`, `AddEdge`, `CreateGraph` with its nested loops, `Bfs` with its
    `while` loop over the queue, `FindRoundTrips` and `FindRoutes`.
  - Each method is proved against the functions above.

Nodes are named by their index in the node list, and an edge stores the index of its
target.

## Model

| member | source | states |
|---|---|---|
| Routes.VisitedAirports | routes.py:53-56 | the visited list has two entries per flight: entry `2i` is flight `i`'s origin and entry `2i+1` its destination |
| Routes.VisitedAirportsMember | routes.py:53-56 | an airport is in the visited list exactly when some flight of the route leaves from it or lands at it |
| Routes.VisitedAirportsAppend | routes.py:53-56 | the visited list of two flight lists joined is the two visited lists joined |
| Routes.Route.Origin | routes.py:68-70 | a route's origin is the first airport of its visited list |
| Routes.Route.Destination | routes.py:64-66 | a route's destination is the last airport of its visited list |
| Routes.Route.LastNode | routes.py:72-74 | the last node is a flight of the route, lands at the last airport of the visited list, and arrives the travel time after the first departure |
| Routes.Route.IsValidNode | routes.py:47-51 | a flight is accepted exactly when no flight of the route leaves from, or lands at, the airport it lands at |
| Routes.RouteOf | routes.py:39-45 | the route built from a non-empty flight list keeps those flights, their visited list and last arrival minus first departure |
| Routes.NewRoute | routes.py:40-62 | the initialiser's loop produces a valid route over exactly the given flights |
| Routes.ConcatRoute | graph.py:182 | a joined round-trip route keeps the outbound origin and the return destination; its visited list is the two lists joined; its travel time is both legs' times plus the wait between them, not their sum |
| Routes.SumPriceWithBagsSplits | routes.py:23-25 | the per-flight sum of base price plus bag price times bags is the base total plus bags times the bag total |
| Routes.TotalPrice | routes.py:17-25 | both branches price a route at base total plus bag count times bag total, so the zero-bag branch agrees with the general one |
| Routes.MinBagsAllowed | routes.py:32 | the reported allowance is no more than any flight's allowance and equals one of them |
| Routes.NewRouteOutput | routes.py:10-14 | the output keeps the route and the bag count, and takes its origin from the first flight and its destination from the last |
| Routes.AsDict | routes.py:27-36 | the record holds the route's flights, endpoints, the requested bag count, the minimum allowance, the price formula and the travel time |
| Edges.GetBagsAllowed | graph.py:57-59 | an edge's allowance is at most both flights' allowances and equals one of them |
| Edges.MakeEdge | graph.py:48-51 | the edge goes from node `a` to node `b` and carries the smaller of the two flights' allowances |
| Edges.SuccessorsUpTo | graph.py:131-134 | after node `a` has been offered the nodes `[0, b)`, every edge on its list goes to a connecting node below `b` and carries the smaller allowance; targets strictly increase, so none repeats |
| Edges.SuccessorsUpToComplete | graph.py:131-134 | every connecting node among those offered has an edge |
| Edges.SuccessorsExactly | graph.py:141-146 | in a built graph, node `a` has an edge to `b` exactly when `b` leaves where `a` lands, between one hour and `max_layover` hours after `a` arrives |
| Search.Starts | graph.py:152-156 | the initial queue holds single-flight routes, in node order, each from the origin with enough bags and, when a date is given, departing no earlier |
| Search.StartsComplete | graph.py:152-156 | every acceptable first flight is in the initial queue |
| Search.AcceptsIsValidNode | graph.py:162-163 | the test used to extend a route is `Route(nodes).is_valid_node(edge.node_to)` and the edge's bag test |
| Search.ExtendAlongMember | graph.py:161-165 | the inner loop appends `p + [b]` exactly when some edge of the last flight goes to `b` and passes the test |
| Search.AcceptsStep | graph.py:142-146 | along an edge of the built graph, the extension test is the step condition: connection, minimum allowance of the two flights, unvisited airport |
| Search.ExtensionsMember | graph.py:161-165 | in a built graph a route's extensions are exactly the routes one acceptable step longer |
| Search.ExpandMember | graph.py:157-165 | the next level is exactly the routes that extend a route of the current level |
| Search.LevelMember | graph.py:152-165 | level `k` holds exactly the search paths with `k + 1` flights |
| Search.SearchPathBound | graph.py:162-163 | no search path has more flights than the graph has nodes, because no two of its flights land at the same airport |
| Search.LevelBound | graph.py:157-165 | a non-empty level `k` has `k` below the number of nodes, so the queue runs empty |
| Search.EnumeratedStable | graph.py:157-165 | once the levels run out, later levels add nothing to the routes dequeued |
| Search.EnumeratedMember | graph.py:157-165 | the first `m` levels hold exactly the search paths of at most `m` flights |
| Search.FilterMember | graph.py:159-160 | a dequeued route is yielded exactly when its last flight lands at the destination |
| Search.SearchRoutesMember | graph.py:148-165 | the search yields exactly the search paths from the origin that end at the destination |
| Search.SearchRoutesSound | graph.py:152-165 | every yielded route is non-empty, starts at the origin (no earlier than the date), ends at the destination, allows the bags on every flight, connects every consecutive pair of flights and never lands twice at a visited airport |
| Search.NoExtensionYielded | graph.py:159-165 | although the search goes on after yielding, it never yields a longer route that begins with a yielded one |
| Search.UnknownAirportNoRoutes | graph.py:152-160 | an origin no flight leaves from, or a destination no flight lands at, gives no routes |
| Search.QueueStart | graph.py:152-156 | the initial queue is level 0 and nothing is yielded yet |
| Search.QueueStep | graph.py:157-165 | dequeuing the front route, yielding it if it ends at the destination and appending its extensions moves the queue to the next position, and the position advances |
| Search.QueueDone | graph.py:157 | when the queue is empty, exactly the search's routes have been yielded |
| Trips.EarliestReturn | graph.py:180 | the return search starts at the outbound route's `last_node` arrival plus the stay in hours |
| Trips.JoinAllSource | graph.py:178-182 | every joined route is an outbound route followed by one of its return routes |
| Trips.JoinAllCovers | graph.py:178-182 | every outbound route followed by any of its return routes is joined |
| Trips.RoundTripComplete | graph.py:178-182 | every outbound route joined with every return route found after the stay is a round trip |
| Trips.RoundTripSplit | graph.py:178-182 | every round trip is an outbound route the search yields followed by one of its return routes |
| Trips.RoundTripSound | graph.py:178-182 | a round trip starts and ends at the origin and turns round at the destination; the return leaves no earlier than the outbound arrival plus the stay in hours; every flight allows the bags |
| Trips.NoReturnNoTrip | graph.py:178-182 | with no flight out of the destination there are no round trips |
| ConnectionGraph.OneWayRecord | graph.py:167-170 | each one-way record goes from the origin to the destination as asked, reports the requested bags and an allowance that covers them, has connecting flights and the route's price |
| ConnectionGraph.RoundTripRecord | graph.py:177-185 | each round-trip record goes from the origin back to the origin, reports the bags and an allowance that covers them, and splits into an outbound part and a return part leaving no earlier than the stay |
| ConnectionGraph.Graph.constructor | graph.py:63-67 | the graph built from the flight records is the one `_create_graph(max_layover)` produces |
| ConnectionGraph.Graph.AddNbr | graph.py:25-26 | appends one edge to node `a`'s list and changes no other list |
| ConnectionGraph.Graph.AddEdge | graph.py:142-146 | adds the edge exactly when the flights connect, and otherwise changes nothing |
| ConnectionGraph.Graph.CreateGraph | graph.py:126-134 | one node per flight in input order, then every node's edge list is its full successor list |
| ConnectionGraph.Graph.Bfs | graph.py:148-165 | the routes the queue loop yields are, in order, the route objects of `SearchRoutes` |
| ConnectionGraph.Graph.PushExtensions | graph.py:161-165 | the inner loop appends exactly the extensions of the dequeued route, in edge order |
| ConnectionGraph.JoinReturns | graph.py:181-182 | the inner round-trip loop appends, in order, the outbound flights followed by each return route's flights |
| ConnectionGraph.Graph.FindRoundTrips | graph.py:177-182 | the round-trip loop builds, in order, the route objects of `RoundTrips` |
| ConnectionGraph.Graph.FindRoutes | graph.py:167-189 | the records are those of the one-way routes, or of the round trips, priced for the requested bags, in the order found |

## Left out

- Input parsing in `_parse_input_data` (graph.py:69-124) is left out. That is the CSV
  reader, the regular-expression checks, `strptime` and the number conversions. The graph
  is built from already-typed flight records.
- Times are integer seconds, not `datetime` objects, so `timedelta(hours=h)` is `h * 3600`.
- Prices are integers: floating-point sums and their rounding are not modelled.
- Printing, JSON encoding, the "No flights found" message and sorting by `total_price`
  (graph.py:171-189) are left out. `FindRoutes` returns the records in the order found.
- `Node.as_dict`'s date formatting (graph.py:32-42) is left out: a record keeps the flight
  values themselves.
- `solution.py` (the command-line front end) is not part of this model.
- `Edge.get_layover_time` (graph.py:54-55) and `Graph._add_node` (graph.py:136-139) are left
  out because nothing calls them. `Node.__iter__` (graph.py:22-23) has no member of its own:
  `PushExtensions` iterates the node's edge list in order. `Node.__repr__` is not modelled.
- The default `max_layover = 6` of `Graph.__init__` is not modelled: the constructor takes
  the bound as an argument.
- `_bfs` is a generator. `Graph.Bfs` returns the whole list of yielded routes, in yield
  order, and does not model the laziness.
- Queue representation: the queue holds routes as lists of node indices. The `Route` object
  of a dequeued route is built when it is taken off the queue, not when it is appended,
  which gives the same values.
- `route.last_airport` (graph.py:159): `Route` defines no such attribute, so as written
  `_bfs` raises `AttributeError` on the first route it dequeues. The model departs from
  this on purpose and reads the test as the destination of the route's last flight, the
  value of the `destination` property (routes.py:64-66).
- `RouteOutput` is called with four arguments (graph.py:169, graph.py:185), but its
  constructor takes `(route, bag_count)` (routes.py:10), so as written `find_routes`
  raises `TypeError` on the first route it finds. The model departs from this on purpose.
  - The model follows the two-argument constructor: origin and destination come from
    the route.
  - `OneWayRecord` and `RoundTripRecord` show these equal what the four-argument calls
    pass: `(origin, destination)` one way, `(origin, origin)` for round trips.
- The model follows the code as written:
  - the stay is in hours (the `--stay` help text, solution.py:16; graph.py:180);
  - a joined round trip's travel time is recomputed from its ends (routes.py:58-62);
  - the search keeps extending a route after yielding it (graph.py:159-165);
  - the extension test uses the edge's allowance, the smaller of the two flights'
    (graph.py:163);
  - the graph is built by the all-pairs loop (graph.py:132-134).
- Routes.TotalPrice: states the price over unbounded integers, not the floating-point sum
  the code computes.
