/**
 * Connections between flights: the edge record with its bag allowance, the layover rule
 * `_add_edge` tests, and the successor list every node ends up with once the graph is built.
 * Nodes are named by their index in the graph's node list.
 */
module Edges {
  import opened Flights

  /** An edge from node `nodeFrom` to node `nodeTo`, with the bag allowance fixed when it is made. */
  datatype Edge = Edge(nodeFrom: nat, nodeTo: nat, bagsAllowed: int)

  /** `Edge.get_bags_allowed`: the smaller allowance of the two flights. */
  function GetBagsAllowed(nodeFrom: Flight, nodeTo: Flight): (bags: int)
    ensures bags <= nodeFrom.bagsAllowed && bags <= nodeTo.bagsAllowed
    ensures bags == nodeFrom.bagsAllowed || bags == nodeTo.bagsAllowed
  {
    if nodeFrom.bagsAllowed <= nodeTo.bagsAllowed then nodeFrom.bagsAllowed else nodeTo.bagsAllowed
  }

  /**
   * The test `_add_edge` makes: `nbr` may follow `node` when it departs from the airport
   * `node` lands at, between one hour and `maxLayover` hours after `node` arrives.
   */
  predicate Connects(node: Flight, nbr: Flight, maxLayover: int)
  {
    Hour <= nbr.departure - node.arrival <= maxLayover * Hour && node.destination == nbr.origin
  }

  /** `Edge(node_from, node_to)` between two nodes of the graph, with the smaller allowance of the two. */
  function MakeEdge(nodes: seq<Flight>, a: nat, b: nat): (e: Edge)
    requires a < |nodes| && b < |nodes|
    ensures e.nodeFrom == a && e.nodeTo == b
    ensures e.bagsAllowed <= nodes[a].bagsAllowed && e.bagsAllowed <= nodes[b].bagsAllowed
    ensures e.bagsAllowed == nodes[a].bagsAllowed || e.bagsAllowed == nodes[b].bagsAllowed
  {
    Edge(a, b, GetBagsAllowed(nodes[a], nodes[b]))
  }

  /**
   * The edge list of node `a` once `_create_graph` has offered it the nodes `[0, b)`, in
   * order: exactly the nodes that connect, each once, in increasing index order, each
   * edge carrying the smaller bag allowance of its two ends.
   */
  function SuccessorsUpTo(nodes: seq<Flight>, a: nat, maxLayover: int, b: nat): (es: seq<Edge>)
    requires a < |nodes| && b <= |nodes|
    ensures forall k :: 0 <= k < |es| ==>
              es[k].nodeFrom == a && es[k].nodeTo < b &&
              Connects(nodes[a], nodes[es[k].nodeTo], maxLayover) &&
              es[k].bagsAllowed == GetBagsAllowed(nodes[a], nodes[es[k].nodeTo])
    ensures forall k, l :: 0 <= k < l < |es| ==> es[k].nodeTo < es[l].nodeTo
  {
    if b == 0 then []
    else
      var es := SuccessorsUpTo(nodes, a, maxLayover, b - 1);
      if Connects(nodes[a], nodes[b - 1], maxLayover) then es + [MakeEdge(nodes, a, b - 1)] else es
  }

  /** No connecting node among the first `b` is missed. */
  lemma {:induction false} SuccessorsUpToComplete(nodes: seq<Flight>, a: nat, maxLayover: int, b: nat, c: nat)
    requires a < |nodes| && c < b <= |nodes|
    requires Connects(nodes[a], nodes[c], maxLayover)
    ensures exists k :: 0 <= k < |SuccessorsUpTo(nodes, a, maxLayover, b)| &&
                        SuccessorsUpTo(nodes, a, maxLayover, b)[k].nodeTo == c
  {
    var es := SuccessorsUpTo(nodes, a, maxLayover, b - 1);
    if c == b - 1 {
      assert SuccessorsUpTo(nodes, a, maxLayover, b)[|es|].nodeTo == c;
    } else {
      SuccessorsUpToComplete(nodes, a, maxLayover, b - 1, c);
      var k :| 0 <= k < |es| && es[k].nodeTo == c;
      assert SuccessorsUpTo(nodes, a, maxLayover, b)[k] == es[k];
    }
  }

  /** The full successor list of node `a`. */
  function Successors(nodes: seq<Flight>, a: nat, maxLayover: int): seq<Edge>
    requires a < |nodes|
  {
    SuccessorsUpTo(nodes, a, maxLayover, |nodes|)
  }

  /**
   * Edge-level statement of the layover rule: every edge of a built graph joins flights
   * that connect, and every connecting pair has an edge.
   */
  lemma SuccessorsExactly(nodes: seq<Flight>, a: nat, maxLayover: int, b: nat)
    requires a < |nodes| && b < |nodes|
    ensures (exists k :: 0 <= k < |Successors(nodes, a, maxLayover)| &&
                         Successors(nodes, a, maxLayover)[k].nodeTo == b)
            <==> Connects(nodes[a], nodes[b], maxLayover)
  {
    var es := Successors(nodes, a, maxLayover);
    assert es == SuccessorsUpTo(nodes, a, maxLayover, |nodes|);
    if Connects(nodes[a], nodes[b], maxLayover) {
      SuccessorsUpToComplete(nodes, a, maxLayover, |nodes|, b);
    }
  }
}
