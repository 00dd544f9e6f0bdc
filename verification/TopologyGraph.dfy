/** The graph of inbounds that the topology validator sees, and its structural rules. */
module TopologyGraph {
  import opened Common

  datatype Role = Entry | Relay | Landing | UnknownRole

  datatype Mode = DirectMode | ChainMode | UnknownMode

  datatype Inbound = Inbound(id: int, node: int, role: Role, mode: Mode)

  datatype GraphNode = GraphNode(id: int, inbounds: seq<Inbound>)

  datatype GraphEdge = GraphEdge(from: int, toNode: int, to: int, weight: int)

  datatype Graph = Graph(nodes: seq<GraphNode>, edges: seq<GraphEdge>)

  const MAX_INBOUNDS := 2000
  const MAX_EDGES := 2000
  const MIN_CHAIN := 2
  const MAX_CHAIN := 8

  // ---- The rules ----

  function AllInbounds(nodes: seq<GraphNode>): seq<Inbound> {
    if nodes == [] then [] else AllInbounds(nodes[..|nodes| - 1]) + nodes[|nodes| - 1].inbounds
  }

  function VerticesOf(inbounds: seq<Inbound>): (r: map<int, Inbound>)
    ensures forall id :: id in r ==> r[id].id == id && r[id] in inbounds
  {
    if inbounds == [] then map[] else
      var last := inbounds[|inbounds| - 1];
      VerticesOf(inbounds[..|inbounds| - 1])[last.id := last]
  }

  predicate GoodRoleMode(i: Inbound) {
    match i.role
    case Entry => i.mode == DirectMode || i.mode == ChainMode
    case Relay => i.mode == ChainMode
    case Landing => i.mode == DirectMode
    case UnknownRole => false
  }

  predicate GoodInbound(i: Inbound, node: int) { i.id > 0 && i.node == node && GoodRoleMode(i) }

  predicate GoodNode(n: GraphNode) {
    n.id > 0 && forall i :: 0 <= i < |n.inbounds| ==> GoodInbound(n.inbounds[i], n.id)
  }

  predicate DistinctIds(inbounds: seq<Inbound>) {
    forall i, j :: 0 <= i < j < |inbounds| ==> inbounds[i].id != inbounds[j].id
  }

  predicate DistinctNodeIds(nodes: seq<GraphNode>) {
    forall i, j :: 0 <= i < j < |nodes| ==> nodes[i].id != nodes[j].id
  }

  predicate GoodNodes(nodes: seq<GraphNode>) {
    && (forall i :: 0 <= i < |nodes| ==> GoodNode(nodes[i]))
    && DistinctNodeIds(nodes)
    && |AllInbounds(nodes)| <= MAX_INBOUNDS && DistinctIds(AllInbounds(nodes))
  }

  predicate GoodEdge(vertices: map<int, Inbound>, e: GraphEdge) {
    && e.weight == 1 && e.from in vertices && e.to in vertices && vertices[e.to].node == e.toNode && e.from != e.to
    && vertices[e.from].role in {Entry, Relay} && vertices[e.from].mode == ChainMode
    && vertices[e.to].role in {Relay, Landing}
  }

  // At most one next hop, and for a relay at most one previous hop.
  predicate Unbranched(vertices: map<int, Inbound>, edges: seq<GraphEdge>) {
    forall i, j :: 0 <= i < j < |edges| ==>
      && edges[i].from != edges[j].from
      && (edges[i].to == edges[j].to ==> edges[i].to !in vertices || vertices[edges[i].to].role != Relay)
  }

  predicate WellFormed(g: Graph) {
    var vertices := VerticesOf(AllInbounds(g.nodes));
    && |g.edges| <= MAX_EDGES
    && GoodNodes(g.nodes)
    && (forall i :: 0 <= i < |g.edges| ==> GoodEdge(vertices, g.edges[i]))
    && Unbranched(vertices, g.edges)
  }

  // ---- The check ----

  // The edges of every vertex that has some.
  datatype Index = Index(vertices: map<int, Inbound>, outgoing: map<int, seq<GraphEdge>>, incoming: map<int, seq<GraphEdge>>)

  function Filed(m: map<int, seq<GraphEdge>>, key: int, e: GraphEdge): map<int, seq<GraphEdge>> {
    m[key := (if key in m then m[key] else []) + [e]]
  }

  function ByFrom(edges: seq<GraphEdge>): map<int, seq<GraphEdge>> {
    if edges == [] then map[] else Filed(ByFrom(edges[..|edges| - 1]), edges[|edges| - 1].from, edges[|edges| - 1])
  }

  function ByTo(edges: seq<GraphEdge>): map<int, seq<GraphEdge>> {
    if edges == [] then map[] else Filed(ByTo(edges[..|edges| - 1]), edges[|edges| - 1].to, edges[|edges| - 1])
  }

  function IndexOf(g: Graph): Index {
    Index(VerticesOf(AllInbounds(g.nodes)), ByFrom(g.edges), ByTo(g.edges))
  }

  method ValidateStructure(g: Graph) returns (r: Option<Index>)
    ensures r.Some? <==> WellFormed(g)
    ensures r.Some? ==> r.value == IndexOf(g)
  {
    if |g.edges| > MAX_EDGES { return None; }
    var vertices := ValidateNodes(g.nodes);
    if vertices.None? { return None; }
    var edges := ValidateEdges(vertices.value, g.edges);
    if edges.None? { return None; }
    var (outgoing, incoming) := edges.value;
    return Some(Index(vertices.value, outgoing, incoming));
  }

  ghost predicate SeenIds(nodes: seq<GraphNode>, i: nat, ids: set<int>) {
    i <= |nodes| && forall id :: id in ids <==> exists j :: 0 <= j < i && nodes[j].id == id
  }

  lemma IdsGrow(nodes: seq<GraphNode>, i: nat, ids: set<int>)
    requires SeenIds(nodes, i, ids) && i < |nodes| && DistinctNodeIds(nodes[..i])
    ensures SeenIds(nodes, i + 1, ids + {nodes[i].id})
    ensures DistinctNodeIds(nodes[..i + 1]) <==> nodes[i].id !in ids
  {
    var more := nodes[..i + 1];
    assert more[i] == nodes[i] && forall j :: 0 <= j < i ==> more[j] == nodes[j] && nodes[..i][j] == nodes[j];
    if nodes[i].id in ids {
      var j :| 0 <= j < i && nodes[j].id == nodes[i].id;
      assert more[j].id == more[i].id;
    }
  }

  method ValidateNodes(nodes: seq<GraphNode>) returns (r: Option<map<int, Inbound>>)
    ensures r.Some? <==> GoodNodes(nodes)
    ensures r.Some? ==> r.value == VerticesOf(AllInbounds(nodes))
  {
    var vertices: map<int, Inbound> := map[];
    var ids: set<int> := {};
    var count := 0;
    var i := 0;
    while i < |nodes|
      invariant i <= |nodes| && GoodNodes(nodes[..i])
      invariant vertices == VerticesOf(AllInbounds(nodes[..i])) && count == |AllInbounds(nodes[..i])|
      invariant SeenIds(nodes, i, ids)
    {
      var node := nodes[i];
      assert nodes[..i + 1][..i] == nodes[..i];
      IdsGrow(nodes, i, ids);
      if node.id <= 0 || node.id in ids {
        BadPrefix(nodes, i + 1);
        return None;
      }
      ids := ids + {node.id};
      count := count + |node.inbounds|;
      if count > MAX_INBOUNDS {
        BadPrefix(nodes, i + 1);
        return None;
      }
      var more := ValidateInbounds(vertices, node, AllInbounds(nodes[..i]));
      if more.None? {
        BadPrefix(nodes, i + 1);
        return None;
      }
      vertices := more.value;
      i := i + 1;
    }
    assert nodes[..i] == nodes;
    return Some(vertices);
  }

  method ValidateInbounds(known: map<int, Inbound>, node: GraphNode, ghost earlier: seq<Inbound>) returns (r: Option<map<int, Inbound>>)
    requires known == VerticesOf(earlier) && DistinctIds(earlier)
    ensures r.Some? <==> (forall i :: 0 <= i < |node.inbounds| ==> GoodInbound(node.inbounds[i], node.id)) && DistinctIds(earlier + node.inbounds)
    ensures r.Some? ==> r.value == VerticesOf(earlier + node.inbounds)
  {
    var vertices := known;
    assert earlier + node.inbounds[..0] == earlier;
    var j := 0;
    while j < |node.inbounds|
      invariant j <= |node.inbounds|
      invariant forall k :: 0 <= k < j ==> GoodInbound(node.inbounds[k], node.id)
      invariant DistinctIds(earlier + node.inbounds[..j])
      invariant vertices == VerticesOf(earlier + node.inbounds[..j])
    {
      var inbound := node.inbounds[j];
      OneMoreInbound(earlier, node.inbounds, j);
      if !GoodInbound(inbound, node.id) || inbound.id in vertices { return None; }
      vertices := vertices[inbound.id := inbound];
      j := j + 1;
    }
    assert node.inbounds[..j] == node.inbounds;
    return Some(vertices);
  }

  // A bad prefix cannot be mended by what follows.
  lemma BadPrefix(nodes: seq<GraphNode>, k: nat)
    requires k <= |nodes|
    ensures GoodNodes(nodes) ==> GoodNodes(nodes[..k])
  {
    if GoodNodes(nodes) {
      PrefixInbounds(nodes, k);
    }
  }

  lemma {:induction false} PrefixInbounds(nodes: seq<GraphNode>, k: nat)
    requires k <= |nodes|
    ensures |AllInbounds(nodes[..k])| <= |AllInbounds(nodes)|
    ensures AllInbounds(nodes[..k]) == AllInbounds(nodes)[..|AllInbounds(nodes[..k])|]
  {
    if k < |nodes| {
      PrefixInbounds(nodes[..|nodes| - 1], k);
      assert nodes[..|nodes| - 1][..k] == nodes[..k];
    } else {
      assert nodes[..k] == nodes;
    }
  }

  lemma VertexIds(inbounds: seq<Inbound>, id: int)
    ensures id in VerticesOf(inbounds) <==> exists i :: 0 <= i < |inbounds| && inbounds[i].id == id
  {
    if inbounds != [] {
      var front := inbounds[..|inbounds| - 1];
      VertexIds(front, id);
      if exists i :: 0 <= i < |inbounds| && inbounds[i].id == id {
        var i :| 0 <= i < |inbounds| && inbounds[i].id == id;
        assert i < |front| ==> front[i].id == id;
      }
      if exists i :: 0 <= i < |front| && front[i].id == id {
        var i :| 0 <= i < |front| && front[i].id == id;
        assert inbounds[i].id == id;
      }
    }
  }

  lemma OneMoreInbound(earlier: seq<Inbound>, inbounds: seq<Inbound>, j: nat)
    requires j < |inbounds| && DistinctIds(earlier + inbounds[..j])
    ensures earlier + inbounds[..j + 1] == earlier + inbounds[..j] + [inbounds[j]]
    ensures VerticesOf(earlier + inbounds[..j + 1]) == VerticesOf(earlier + inbounds[..j])[inbounds[j].id := inbounds[j]]
    ensures DistinctIds(earlier + inbounds[..j + 1]) <==> inbounds[j].id !in VerticesOf(earlier + inbounds[..j])
    ensures DistinctIds(earlier + inbounds) ==> DistinctIds(earlier + inbounds[..j + 1])
  {
    var before := earlier + inbounds[..j];
    var after := earlier + inbounds[..j + 1];
    assert after == before + [inbounds[j]];
    assert after[..|after| - 1] == before;
    VertexIds(before, inbounds[j].id);
    assert (earlier + inbounds)[..|after|] == after;
  }

  method ValidateEdges(vertices: map<int, Inbound>, edges: seq<GraphEdge>) returns (r: Option<(map<int, seq<GraphEdge>>, map<int, seq<GraphEdge>>)>)
    ensures r.Some? <==> (forall i :: 0 <= i < |edges| ==> GoodEdge(vertices, edges[i])) && Unbranched(vertices, edges)
    ensures r.Some? ==> r.value == (ByFrom(edges), ByTo(edges))
  {
    var outgoing: map<int, seq<GraphEdge>>, incoming: map<int, seq<GraphEdge>> := map[], map[];
    var seen: set<(int, int, int)> := {};
    var i := 0;
    while i < |edges|
      invariant i <= |edges| && forall j :: 0 <= j < i ==> GoodEdge(vertices, edges[j])
      invariant outgoing == ByFrom(edges[..i]) && incoming == ByTo(edges[..i])
      invariant seen == set j | 0 <= j < i :: (edges[j].from, edges[j].toNode, edges[j].to)
    {
      var e := edges[i];
      assert edges[..i + 1][..i] == edges[..i];
      if !GoodEdge(vertices, e) { return None; }
      if (e.from, e.toNode, e.to) in seen { return None; }
      seen := seen + {(e.from, e.toNode, e.to)};
      outgoing := Filed(outgoing, e.from, e);
      incoming := Filed(incoming, e.to, e);
      i := i + 1;
    }
    assert edges[..i] == edges;
    Branches(vertices, edges);
    if !Short(outgoing, vertices, false) || !Short(incoming, vertices, true) { return None; }
    return Some((outgoing, incoming));
  }

  // ---- What the index says ----

  // Every list holds edges with its key, and every edge is in the list of its key.
  ghost predicate FiledUnder(m: map<int, seq<GraphEdge>>, edges: seq<GraphEdge>, key: GraphEdge -> int) {
    && (forall id :: id in m ==> |m[id]| > 0)
    && (forall id, k :: id in m && 0 <= k < |m[id]| ==> m[id][k] in edges && key(m[id][k]) == id)
    && (forall i :: 0 <= i < |edges| ==> key(edges[i]) in m && edges[i] in m[key(edges[i])])
  }

  ghost predicate Shared(edges: seq<GraphEdge>, key: GraphEdge -> int, id: int) {
    exists i, j :: 0 <= i < j < |edges| && key(edges[i]) == id && key(edges[j]) == id
  }

  // A list is longer than one exactly when two edges share its key.
  ghost predicate LongWhenShared(m: map<int, seq<GraphEdge>>, edges: seq<GraphEdge>, key: GraphEdge -> int) {
    forall id :: (id in m && |m[id]| > 1) <==> Shared(edges, key, id)
  }

  lemma FileOne(m: map<int, seq<GraphEdge>>, edges: seq<GraphEdge>, key: GraphEdge -> int, e: GraphEdge)
    requires FiledUnder(m, edges, key)
    ensures FiledUnder(Filed(m, key(e), e), edges + [e], key)
  {
    var more, all := Filed(m, key(e), e), edges + [e];
    forall i | 0 <= i < |all| ensures key(all[i]) in more && all[i] in more[key(all[i])] {
      if i < |edges| {
        assert all[i] == edges[i];
      } else {
        assert more[key(e)][|more[key(e)]| - 1] == e;
      }
    }
  }

  lemma FileOneLong(m: map<int, seq<GraphEdge>>, edges: seq<GraphEdge>, key: GraphEdge -> int, e: GraphEdge)
    requires FiledUnder(m, edges, key) && LongWhenShared(m, edges, key)
    ensures LongWhenShared(Filed(m, key(e), e), edges + [e], key)
  {
    forall id ensures (id in Filed(m, key(e), e) && |Filed(m, key(e), e)[id]| > 1) <==> Shared(edges + [e], key, id) {
      SharedOneMore(edges, key, e, id);
      if id == key(e) && id in m {
        assert m[id][0] in edges;
        var i :| 0 <= i < |edges| && edges[i] == m[id][0];
        assert key(edges[i]) == id;
      }
    }
  }

  lemma SharedOneMore(edges: seq<GraphEdge>, key: GraphEdge -> int, e: GraphEdge, id: int)
    ensures Shared(edges + [e], key, id) <==> Shared(edges, key, id) || (key(e) == id && exists i :: 0 <= i < |edges| && key(edges[i]) == id)
  {
    var all := edges + [e];
    assert all[|edges|] == e && forall i :: 0 <= i < |edges| ==> all[i] == edges[i];
    if Shared(edges, key, id) {
      var i, j :| 0 <= i < j < |edges| && key(edges[i]) == id && key(edges[j]) == id;
      assert key(all[i]) == id && key(all[j]) == id;
    }
    if key(e) == id && exists i :: 0 <= i < |edges| && key(edges[i]) == id {
      var i :| 0 <= i < |edges| && key(edges[i]) == id;
      assert key(all[i]) == id && key(all[|edges|]) == id;
    }
    if Shared(all, key, id) {
      var i, j :| 0 <= i < j < |all| && key(all[i]) == id && key(all[j]) == id;
      assert key(edges[i]) == id;
      assert j < |edges| ==> key(edges[j]) == id;
    }
  }

  const FROM := (e: GraphEdge) => e.from
  const TO := (e: GraphEdge) => e.to

  lemma {:induction false} FromFiled(edges: seq<GraphEdge>)
    ensures FiledUnder(ByFrom(edges), edges, FROM) && LongWhenShared(ByFrom(edges), edges, FROM)
  {
    if edges != [] {
      var front, e := edges[..|edges| - 1], edges[|edges| - 1];
      FromFiled(front);
      FileOne(ByFrom(front), front, FROM, e);
      FileOneLong(ByFrom(front), front, FROM, e);
      assert front + [e] == edges;
    }
  }

  lemma {:induction false} ToFiled(edges: seq<GraphEdge>)
    ensures FiledUnder(ByTo(edges), edges, TO) && LongWhenShared(ByTo(edges), edges, TO)
  {
    if edges != [] {
      var front, e := edges[..|edges| - 1], edges[|edges| - 1];
      ToFiled(front);
      FileOne(ByTo(front), front, TO, e);
      FileOneLong(ByTo(front), front, TO, e);
      assert front + [e] == edges;
    }
  }

  // Two edges branch exactly when they share a source, or a relay as their target.
  lemma BranchedShares(vertices: map<int, Inbound>, edges: seq<GraphEdge>)
    ensures Unbranched(vertices, edges) <==>
      (forall id :: !Shared(edges, FROM, id)) && (forall id :: id in vertices && vertices[id].role == Relay ==> !Shared(edges, TO, id))
  {
    if !Unbranched(vertices, edges) {
      var i, j :| 0 <= i < j < |edges| && !(&& edges[i].from != edges[j].from
                                            && (edges[i].to == edges[j].to ==> edges[i].to !in vertices || vertices[edges[i].to].role != Relay));
      assert edges[i].from == edges[j].from ==> FROM(edges[i]) == FROM(edges[j]) && Shared(edges, FROM, edges[i].from);
      assert edges[i].to == edges[j].to ==> TO(edges[i]) == TO(edges[j]) && Shared(edges, TO, edges[i].to);
    }
  }

  // No list that matters is longer than one.
  predicate Short(m: map<int, seq<GraphEdge>>, vertices: map<int, Inbound>, relaysOnly: bool) {
    forall id :: id in m && (relaysOnly ==> id in vertices && vertices[id].role == Relay) ==> |m[id]| <= 1
  }

  lemma ShortWhenUnshared(m: map<int, seq<GraphEdge>>, edges: seq<GraphEdge>, key: GraphEdge -> int, vertices: map<int, Inbound>, relaysOnly: bool)
    requires LongWhenShared(m, edges, key)
    ensures Short(m, vertices, relaysOnly) <==>
      forall id :: (relaysOnly ==> id in vertices && vertices[id].role == Relay) ==> !Shared(edges, key, id)
  {
    if Short(m, vertices, relaysOnly) {
      forall id | relaysOnly ==> id in vertices && vertices[id].role == Relay ensures !Shared(edges, key, id) {
        assert (id in m && |m[id]| > 1) <==> Shared(edges, key, id);
      }
    } else {
      var id :| id in m && (relaysOnly ==> id in vertices && vertices[id].role == Relay) && |m[id]| > 1;
      assert Shared(edges, key, id);
    }
  }

  lemma Branches(vertices: map<int, Inbound>, edges: seq<GraphEdge>)
    ensures Unbranched(vertices, edges) <==> Short(ByFrom(edges), vertices, false) && Short(ByTo(edges), vertices, true)
  {
    FromFiled(edges);
    ToFiled(edges);
    BranchedShares(vertices, edges);
    ShortWhenUnshared(ByFrom(edges), edges, FROM, vertices, false);
    ShortWhenUnshared(ByTo(edges), edges, TO, vertices, true);
  }
}
