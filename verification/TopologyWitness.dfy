/**
  The border of the deployment order: a machine that relays on a short chain and is the entry of a long one takes the
  larger distance, so that the order is not downstream first on the short chain.
*/
module TopologyWitness {
  import opened Common
  import opened TopologyGraph
  import opened TopologyChains
  import opened TopologyOrder

  const RELAY := Inbound(11, 1, Relay, ChainMode)
  const LONG_ENTRY := Inbound(12, 1, Entry, ChainMode)
  const SHORT_ENTRY := Inbound(21, 2, Entry, ChainMode)
  const LAST := Inbound(31, 3, Landing, DirectMode)
  const SECOND := Inbound(41, 4, Relay, ChainMode)
  const THIRD := Inbound(51, 5, Relay, ChainMode)

  // 21 -> 11 -> 31 is the short chain, and 12 -> 41 -> 51 -> 31 the long one; 11 and 12 are on one machine.
  function Crossing(): Graph {
    Graph(
      [GraphNode(1, [RELAY, LONG_ENTRY]), GraphNode(2, [SHORT_ENTRY]), GraphNode(3, [LAST]), GraphNode(4, [SECOND]), GraphNode(5, [THIRD])],
      [GraphEdge(21, 1, 11, 1), GraphEdge(11, 3, 31, 1), GraphEdge(12, 4, 41, 1), GraphEdge(41, 5, 51, 1), GraphEdge(51, 3, 31, 1)])
  }

  function Vertices(): map<int, Inbound> {
    map[11 := RELAY, 12 := LONG_ENTRY, 21 := SHORT_ENTRY, 31 := LAST, 41 := SECOND, 51 := THIRD]
  }

  function Hops(): map<int, int> { map[21 := 11, 11 := 31, 12 := 41, 41 := 51, 51 := 31] }

  lemma OneMoreNode(front: seq<GraphNode>, last: GraphNode)
    ensures AllInbounds(front + [last]) == AllInbounds(front) + last.inbounds
  {
    assert (front + [last])[..|front|] == front;
  }

  lemma OneMoreVertex(front: seq<Inbound>, last: Inbound)
    ensures VerticesOf(front + [last]) == VerticesOf(front)[last.id := last]
  {
    assert (front + [last])[..|front|] == front;
  }

  lemma OneMoreHop(front: seq<GraphEdge>, last: GraphEdge)
    ensures NextOf(front + [last]) == NextOf(front)[last.from := last.to]
  {
    assert (front + [last])[..|front|] == front;
  }

  lemma CrossingInbounds()
    ensures AllInbounds(Crossing().nodes) == [RELAY, LONG_ENTRY, SHORT_ENTRY, LAST, SECOND, THIRD]
  {
    var n := Crossing().nodes;
    var s1 := [] + [n[0]];
    OneMoreNode([], n[0]);
    var s2 := s1 + [n[1]];
    OneMoreNode(s1, n[1]);
    var s3 := s2 + [n[2]];
    OneMoreNode(s2, n[2]);
    var s4 := s3 + [n[3]];
    OneMoreNode(s3, n[3]);
    var s5 := s4 + [n[4]];
    OneMoreNode(s4, n[4]);
    assert n == s5;
  }

  lemma CrossingVertices()
    ensures VerticesOf([RELAY, LONG_ENTRY, SHORT_ENTRY, LAST, SECOND, THIRD]) == Vertices()
  {
    var s1 := [] + [RELAY];
    OneMoreVertex([], RELAY);
    var s2 := s1 + [LONG_ENTRY];
    OneMoreVertex(s1, LONG_ENTRY);
    var s3 := s2 + [SHORT_ENTRY];
    OneMoreVertex(s2, SHORT_ENTRY);
    var s4 := s3 + [LAST];
    OneMoreVertex(s3, LAST);
    var s5 := s4 + [SECOND];
    OneMoreVertex(s4, SECOND);
    var s6 := s5 + [THIRD];
    OneMoreVertex(s5, THIRD);
    assert [RELAY, LONG_ENTRY, SHORT_ENTRY, LAST, SECOND, THIRD] == s6;
  }

  lemma CrossingHops()
    ensures NextOf(Crossing().edges) == Hops()
  {
    var e := Crossing().edges;
    var s1 := [] + [e[0]];
    OneMoreHop([], e[0]);
    var s2 := s1 + [e[1]];
    OneMoreHop(s1, e[1]);
    var s3 := s2 + [e[2]];
    OneMoreHop(s2, e[2]);
    var s4 := s3 + [e[3]];
    OneMoreHop(s3, e[3]);
    var s5 := s4 + [e[4]];
    OneMoreHop(s4, e[4]);
    assert e == s5;
  }

  lemma CrossingNodes()
    ensures GoodNodes(Crossing().nodes)
  {
    CrossingInbounds();
    var g := Crossing();
    forall i | 0 <= i < |g.nodes| ensures GoodNode(g.nodes[i]) {}
  }

  lemma CrossingEdges()
    ensures forall i :: 0 <= i < |Crossing().edges| ==> GoodEdge(Vertices(), Crossing().edges[i])
    ensures Unbranched(Vertices(), Crossing().edges)
  {
  }

  lemma CrossingNet()
    ensures NetOf(Crossing()) == Net(Vertices(), Hops()) && WellFormed(Crossing())
  {
    CrossingInbounds();
    CrossingVertices();
    CrossingHops();
    CrossingNodes();
    CrossingEdges();
  }

  // Where every walk is after each hop.
  lemma Walks(net: Net)
    requires net == Net(Vertices(), Hops())
    ensures Walk(net, 21, 1) == Some(11) && Walk(net, 21, 2) == Some(31) && Walk(net, 21, 3).None?
    ensures Walk(net, 11, 1) == Some(31) && Walk(net, 11, 2).None?
    ensures Walk(net, 12, 1) == Some(41) && Walk(net, 12, 2) == Some(51) && Walk(net, 12, 3) == Some(31) && Walk(net, 12, 4).None?
    ensures Walk(net, 41, 1) == Some(51) && Walk(net, 41, 2) == Some(31) && Walk(net, 41, 3).None?
    ensures Walk(net, 51, 1) == Some(31) && Walk(net, 51, 2).None? && Walk(net, 31, 1).None?
  {
    assert Walk(net, 21, 0) == Some(21) && Walk(net, 11, 0) == Some(11) && Walk(net, 12, 0) == Some(12);
    assert Walk(net, 41, 0) == Some(41) && Walk(net, 51, 0) == Some(51) && Walk(net, 31, 0) == Some(31);
  }

  lemma EndsBy(net: Net, u: int, k: nat, j: nat)
    requires Walk(net, u, k).None? && j >= k
    ensures Walk(net, u, j).None?
  {
    if Walk(net, u, j).Some? {
      WalkPrefix(net, u, k, j);
      assert false;
    }
  }

  lemma CrossingNoReentry(net: Net)
    requires net == Net(Vertices(), Hops())
    ensures NoReentry(net)
  {
    Walks(net);
    forall u, i: nat, j: nat | u in net.vertices && i < j && Walk(net, u, i).Some? && Walk(net, u, j).Some?
      ensures !SameMachine(net, Walk(net, u, i).value, Walk(net, u, j).value)
    {
      var last := if u == 12 then 3 else if u == 21 || u == 41 then 2 else if u == 31 then 0 else 1;
      if j > last { EndsBy(net, u, last + 1, j); }
      assert Walk(net, u, 0) == Some(u);
    }
  }

  lemma CrossingComplete(net: Net)
    requires net == Net(Vertices(), Hops())
    ensures Complete(net)
  {
    Walks(net);
    forall u | Chained(net, u) ensures LandsInTime(net, u) && (net.vertices[u].role == Relay ==> HasPrevious(net, u)) {
      var k := if u == 12 then 3 else if u == 21 || u == 41 then 2 else 1;
      assert Lands(net, u, k);
      assert net.next[21] == 11 && net.next[12] == 41 && net.next[41] == 51;
      assert u == 11 ==> HasPrevious(net, 11);
    }
  }

  // The publishing validator accepts the graph.
  lemma CrossingValid()
    ensures Valid(Crossing()) && SoundNet(NetOf(Crossing())) && NetOf(Crossing()) == Net(Vertices(), Hops())
  {
    CrossingNet();
    CrossingNoReentry(NetOf(Crossing()));
    CrossingComplete(NetOf(Crossing()));
    WellFormedSound(Crossing());
  }

  // Machine 1 is three hops away, by the long chain, and machine 2 only two.
  lemma CrossingDistances(net: Net, d: int, e: int)
    requires net == Net(Vertices(), Hops()) && SoundNet(net)
    requires LargestDistance(net, 1, d) && LargestDistance(net, 2, e)
    ensures d >= 3 && e == 2
  {
    Walks(net);
    assert Walk(net, 12, 0) == Some(12);
    assert Reaches(net, 12, 0, 12) && Chained(net, 12);
    assert Participates(net, 12) && OnNode(net, 12, 1) && Lands(net, 12, 3);
    var v :| Participates(net, v) && OnNode(net, v, 2) && Lands(net, v, e);
    assert v == 21 && Lands(net, 21, 2);
    LandsOnce(net, 21, 2, e);
  }

  // In every order of this accepted graph, machine 2 of inbound 21 comes before machine 1 of inbound 11, although the
  // hop 21 -> 11 goes downstream.
  lemma NotAlwaysDownstreamFirst(distances: map<int, int>, order: seq<int>, p: nat, q: nat)
    requires IsOrder(NetOf(Crossing()), distances, order) && p < |order| && q < |order| && order[p] == 1 && order[q] == 2
    ensures q < p
  {
    CrossingValid();
    UpstreamFirst(NetOf(Crossing()), distances, order, p, q);
  }

  lemma UpstreamFirst(net: Net, distances: map<int, int>, order: seq<int>, p: nat, q: nat)
    requires net == Net(Vertices(), Hops()) && SoundNet(net)
    requires IsOrder(net, distances, order) && p < |order| && q < |order| && order[p] == 1 && order[q] == 2
    ensures q < p
  {
    ListedDistance(net, distances, order, p);
    ListedDistance(net, distances, order, q);
    CrossingDistances(net, DistanceIn(distances, 1), DistanceIn(distances, 2));
    Earlier(distances, order, q, p);
  }
}
