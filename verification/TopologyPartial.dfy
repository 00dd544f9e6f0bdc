/** The part of an accepted graph on one component is accepted too, and its deployment order covers the component. */
module TopologyPartial {
  import opened Common
  import opened TopologyGraph
  import opened TopologyChains
  import opened TopologyValidate
  import opened TopologyOrder
  import opened TopologyPreview

  // Every edge is filed under the machine of its source.
  ghost predicate Filed(s: seq<SnapshotNode>) {
    forall i, j :: 0 <= i < |s| && 0 <= j < |s[i].edges| ==>
      var vertices := VerticesOf(AllInbounds(NodesOf(s)));
      s[i].edges[j].from in vertices ==> vertices[s[i].edges[j].from].node == s[i].node.id
  }

  // No edge of the graph leaves the selected machines or enters them.
  ghost predicate EdgesClosed(g: Graph, selected: set<int>) {
    var vertices := VerticesOf(AllInbounds(g.nodes));
    forall e :: e in g.edges && e.from in vertices ==> (vertices[e.from].node in selected <==> e.toNode in selected)
  }

  lemma {:induction false} EdgeOf(s: seq<SnapshotNode>, e: GraphEdge) returns (i: nat, j: nat)
    requires e in EdgesOf(s)
    ensures i < |s| && j < |s[i].edges| && s[i].edges[j] == e
  {
    var k := |s| - 1;
    if e in s[k].edges {
      i := k;
      j :| 0 <= j < |s[k].edges| && s[k].edges[j] == e;
    } else {
      i, j := EdgeOf(s[..k], e);
    }
  }

  lemma ComponentEdgesClosed(s: seq<SnapshotNode>, selected: set<int>)
    requires Filed(s) && Closed(s, selected)
    ensures EdgesClosed(GraphValue(s), selected)
  {
    var vertices := VerticesOf(AllInbounds(NodesOf(s)));
    forall e | e in EdgesOf(s) && e.from in vertices ensures vertices[e.from].node in selected <==> e.toNode in selected {
      var i, j := EdgeOf(s, e);
      assert Edged(s, s[i].node.id, s[i].edges[j].toNode);
    }
  }

  // Keeping edges by their target keeps exactly the edges within the component.
  lemma KeepsComponentEdges(s: seq<SnapshotNode>, selected: set<int>, e: GraphEdge)
    requires Filed(s) && Closed(s, selected) && WellFormed(GraphValue(s))
    ensures var g := GraphValue(s);
            e in Partial(g, selected).edges <==> e in g.edges && VerticesOf(AllInbounds(g.nodes))[e.from].node in selected && e.toNode in selected
  {
    var g := GraphValue(s);
    KeptEdge(g.edges, selected, e);
    ComponentEdgesClosed(s, selected);
    if e in g.edges {
      var i :| 0 <= i < |g.edges| && g.edges[i] == e;
      assert GoodEdge(VerticesOf(AllInbounds(g.nodes)), g.edges[i]);
    }
  }

  // ---- The inbounds of the kept machines ----

  function KeptInbounds(inbounds: seq<Inbound>, selected: set<int>): seq<Inbound> {
    if inbounds == [] then [] else
      var last := inbounds[|inbounds| - 1];
      KeptInbounds(inbounds[..|inbounds| - 1], selected) + if last.node in selected then [last] else []
  }

  lemma {:induction false} KeptAppend(x: seq<Inbound>, y: seq<Inbound>, selected: set<int>)
    ensures KeptInbounds(x + y, selected) == KeptInbounds(x, selected) + KeptInbounds(y, selected)
    decreases |y|
  {
    if y == [] {
      assert x + y == x;
    } else {
      var k := |y| - 1;
      KeptAppend(x, y[..k], selected);
      assert (x + y)[..|x + y| - 1] == x + y[..k];
    }
  }

  lemma {:induction false} KeptOfOne(inbounds: seq<Inbound>, node: int, selected: set<int>)
    requires forall i :: 0 <= i < |inbounds| ==> inbounds[i].node == node
    ensures KeptInbounds(inbounds, selected) == if node in selected then inbounds else []
  {
    if inbounds != [] {
      var k := |inbounds| - 1;
      KeptOfOne(inbounds[..k], node, selected);
      assert inbounds == inbounds[..k] + [inbounds[k]];
    }
  }

  lemma {:induction false} InboundsKept(nodes: seq<GraphNode>, selected: set<int>)
    requires forall i :: 0 <= i < |nodes| ==> GoodNode(nodes[i])
    ensures AllInbounds(KeptNodes(nodes, selected)) == KeptInbounds(AllInbounds(nodes), selected)
  {
    if nodes != [] {
      var front, last := nodes[..|nodes| - 1], nodes[|nodes| - 1];
      InboundsKept(front, selected);
      assert forall i :: 0 <= i < |last.inbounds| ==> GoodInbound(last.inbounds[i], last.id);
      KeptAppend(AllInbounds(front), last.inbounds, selected);
      KeptOfOne(last.inbounds, last.id, selected);
      var kept := KeptNodes(front, selected);
      assert (kept + [last])[..|kept|] == kept;
      assert kept + [] == kept;
    }
  }

  lemma {:induction false} KeptDistinct(inbounds: seq<Inbound>, selected: set<int>)
    requires DistinctIds(inbounds)
    ensures DistinctIds(KeptInbounds(inbounds, selected)) && |KeptInbounds(inbounds, selected)| <= |inbounds|
    ensures forall x :: x in KeptInbounds(inbounds, selected) <==> x in inbounds && x.node in selected
  {
    if inbounds != [] {
      var front, last := inbounds[..|inbounds| - 1], inbounds[|inbounds| - 1];
      KeptDistinct(front, selected);
      assert inbounds == front + [last];
      forall i | 0 <= i < |KeptInbounds(front, selected)| ensures KeptInbounds(front, selected)[i].id != last.id {
        assert KeptInbounds(front, selected)[i] in front;
      }
    }
  }

  function KeptVertices(vertices: map<int, Inbound>, selected: set<int>): map<int, Inbound> {
    map id | id in vertices && vertices[id].node in selected :: vertices[id]
  }

  lemma {:induction false} VerticesKept(inbounds: seq<Inbound>, selected: set<int>)
    requires DistinctIds(inbounds)
    ensures VerticesOf(KeptInbounds(inbounds, selected)) == KeptVertices(VerticesOf(inbounds), selected)
  {
    if inbounds != [] {
      var front, last := inbounds[..|inbounds| - 1], inbounds[|inbounds| - 1];
      VerticesKept(front, selected);
      VertexIds(front, last.id);
      var kept := KeptInbounds(front, selected);
      assert (kept + [last])[..|kept|] == kept;
      assert kept + [] == kept;
      KeptVerticesOneMore(VerticesOf(front), last, selected);
    }
  }

  lemma KeptVerticesOneMore(vertices: map<int, Inbound>, last: Inbound, selected: set<int>)
    requires last.id !in vertices
    ensures KeptVertices(vertices[last.id := last], selected)
         == if last.node in selected then KeptVertices(vertices, selected)[last.id := last] else KeptVertices(vertices, selected)
  {
  }

  lemma {:induction false} NodesKept(nodes: seq<GraphNode>, selected: set<int>)
    requires DistinctNodeIds(nodes)
    ensures DistinctNodeIds(KeptNodes(nodes, selected))
  {
    if nodes != [] {
      var front, last := nodes[..|nodes| - 1], nodes[|nodes| - 1];
      NodesKept(front, selected);
      var kept := KeptNodes(front, selected);
      forall i | 0 <= i < |kept| ensures kept[i].id != last.id {
        KeptNode(front, selected, kept[i]);
        assert kept[i] in front;
        var j :| 0 <= j < |front| && front[j] == kept[i];
        assert nodes[j] == front[j];
      }
    }
  }

  lemma PartialNodes(g: Graph, selected: set<int>)
    requires GoodNodes(g.nodes)
    ensures GoodNodes(Partial(g, selected).nodes)
    ensures VerticesOf(AllInbounds(Partial(g, selected).nodes)) == KeptVertices(VerticesOf(AllInbounds(g.nodes)), selected)
  {
    var kept := KeptNodes(g.nodes, selected);
    InboundsKept(g.nodes, selected);
    KeptDistinct(AllInbounds(g.nodes), selected);
    VerticesKept(AllInbounds(g.nodes), selected);
    NodesKept(g.nodes, selected);
    forall i | 0 <= i < |kept| ensures GoodNode(kept[i]) {
      KeptNode(g.nodes, selected, kept[i]);
      assert kept[i] in g.nodes;
    }
  }

  // ---- The edges ----

  lemma {:induction false} UnbranchedKept(vertices: map<int, Inbound>, edges: seq<GraphEdge>, selected: set<int>)
    requires Unbranched(vertices, edges)
    ensures Unbranched(KeptVertices(vertices, selected), KeptEdges(edges, selected)) && |KeptEdges(edges, selected)| <= |edges|
  {
    if edges != [] {
      var front, last := edges[..|edges| - 1], edges[|edges| - 1];
      UnbranchedKept(vertices, front, selected);
      var kept := KeptEdges(front, selected);
      forall i | 0 <= i < |kept|
        ensures kept[i].from != last.from
        ensures kept[i].to == last.to ==> last.to !in vertices || vertices[last.to].role != Relay
      {
        KeptEdge(front, selected, kept[i]);
        assert kept[i] in front;
        var j :| 0 <= j < |front| && front[j] == kept[i];
        assert edges[j] == front[j];
      }
    }
  }

  lemma PartialEdges(g: Graph, selected: set<int>)
    requires WellFormed(g) && EdgesClosed(g, selected)
    ensures var vertices, kept := KeptVertices(VerticesOf(AllInbounds(g.nodes)), selected), KeptEdges(g.edges, selected);
            forall i :: 0 <= i < |kept| ==> GoodEdge(vertices, kept[i])
  {
    var whole, kept := VerticesOf(AllInbounds(g.nodes)), KeptEdges(g.edges, selected);
    forall i | 0 <= i < |kept| ensures GoodEdge(KeptVertices(whole, selected), kept[i]) {
      var e := kept[i];
      KeptEdge(g.edges, selected, e);
      assert e in kept && e in g.edges;
      var j :| 0 <= j < |g.edges| && g.edges[j] == e;
      assert GoodEdge(whole, g.edges[j]);
    }
  }

  lemma PartialWellFormed(g: Graph, selected: set<int>)
    requires WellFormed(g) && EdgesClosed(g, selected)
    ensures WellFormed(Partial(g, selected))
  {
    PartialNodes(g, selected);
    PartialEdges(g, selected);
    UnbranchedKept(VerticesOf(AllInbounds(g.nodes)), g.edges, selected);
  }

  // ---- Walks inside the component ----

  // The chains of the part are those of the whole that start on selected machines.
  ghost predicate PartOf(part: Net, whole: Net, selected: set<int>) {
    && part.vertices == KeptVertices(whole.vertices, selected)
    && (forall u :: u in part.vertices ==> (u in part.next <==> u in whole.next))
    && (forall u :: u in part.vertices && u in whole.next ==> part.next[u] == whole.next[u] && whole.next[u] in part.vertices)
    && (forall u :: u in whole.next && whole.next[u] in part.vertices ==> u in part.vertices)
  }

  lemma PartialNet(g: Graph, selected: set<int>)
    requires WellFormed(g) && EdgesClosed(g, selected)
    ensures PartOf(NetOf(Partial(g, selected)), NetOf(g), selected)
  {
    var p := Partial(g, selected);
    var whole, part := NetOf(g), NetOf(p);
    PartialNodes(g, selected);
    PartialWellFormed(g, selected);
    WellFormedSound(g);
    WellFormedSound(p);
    forall u | u in whole.next
      ensures u in whole.vertices && (u in part.vertices <==> whole.next[u] in part.vertices)
      ensures u in part.vertices ==> u in part.next && part.next[u] == whole.next[u]
    {
      HopKept(g, selected, u);
    }
    forall u | u in part.next ensures u in whole.next {
      HopFromWhole(g, selected, u);
    }
  }

  lemma HopFromWhole(g: Graph, selected: set<int>, u: int)
    requires FromEdges(NetOf(g).next, g.edges) && FromEdges(NetOf(Partial(g, selected)).next, Partial(g, selected).edges)
    requires u in NetOf(Partial(g, selected)).next
    ensures u in NetOf(g).next
  {
    var p := Partial(g, selected);
    var i := HopEdge(NetOf(p).next, p.edges, u);
    KeptEdge(g.edges, selected, p.edges[i]);
    assert p.edges[i] in p.edges;
    var j :| 0 <= j < |g.edges| && g.edges[j] == p.edges[i];
  }

  lemma HopKept(g: Graph, selected: set<int>, u: int)
    requires WellFormed(g) && EdgesClosed(g, selected) && u in NetOf(g).next
    requires FromEdges(NetOf(g).next, g.edges)
    requires NetOf(Partial(g, selected)).vertices == KeptVertices(NetOf(g).vertices, selected)
    requires FromEdges(NetOf(Partial(g, selected)).next, Partial(g, selected).edges)
    ensures var whole, part := NetOf(g), NetOf(Partial(g, selected));
            && u in whole.vertices && (u in part.vertices <==> whole.next[u] in part.vertices)
            && (u in part.vertices ==> u in part.next && part.next[u] == whole.next[u])
  {
    var whole, p := NetOf(g), Partial(g, selected);
    var i := HopEdge(whole.next, g.edges, u);
    var e := g.edges[i];
    assert GoodEdge(whole.vertices, e) && e in g.edges;
    KeptEdge(g.edges, selected, e);
    if e.toNode in selected {
      var j :| 0 <= j < |p.edges| && p.edges[j] == e;
    }
  }

  lemma {:induction false} SameWalk(part: Net, whole: Net, selected: set<int>, u: int, k: nat)
    requires PartOf(part, whole, selected) && u in part.vertices
    ensures Walk(part, u, k) == Walk(whole, u, k)
    ensures Walk(part, u, k).Some? ==> Walk(part, u, k).value in part.vertices
  {
    if k > 0 {
      SameWalk(part, whole, selected, u, k - 1);
    }
  }

  lemma PartNoReentry(part: Net, whole: Net, selected: set<int>)
    requires PartOf(part, whole, selected) && NoReentry(whole)
    ensures NoReentry(part)
  {
    forall u, i: nat, j: nat | u in part.vertices && i < j && Walk(part, u, i).Some? && Walk(part, u, j).Some?
      ensures !SameMachine(part, Walk(part, u, i).value, Walk(part, u, j).value)
    {
      SameWalk(part, whole, selected, u, i);
      SameWalk(part, whole, selected, u, j);
      assert !SameMachine(whole, Walk(whole, u, i).value, Walk(whole, u, j).value);
    }
  }

  lemma PartComplete(part: Net, whole: Net, selected: set<int>)
    requires PartOf(part, whole, selected) && Complete(whole)
    ensures Complete(part)
  {
    forall u | Chained(part, u) ensures LandsInTime(part, u) && (part.vertices[u].role == Relay ==> HasPrevious(part, u)) {
      assert Chained(whole, u);
      var k :| MIN_CHAIN - 1 <= k <= MAX_CHAIN - 1 && Lands(whole, u, k);
      SameWalk(part, whole, selected, u, k);
      assert Lands(part, u, k);
      if part.vertices[u].role == Relay {
        assert HasPrevious(whole, u);
        var p :| p in whole.next && whole.next[p] == u;
        assert p in part.next && part.next[p] == u;
      }
    }
  }

  // If the whole graph may be published, so may its part on the component.
  lemma PartIsValid(s: seq<SnapshotNode>, selected: set<int>)
    requires Filed(s) && Closed(s, selected) && Valid(GraphValue(s))
    ensures Valid(Partial(GraphValue(s), selected))
  {
    var g := GraphValue(s);
    ComponentEdgesClosed(s, selected);
    PartialWellFormed(g, selected);
    PartialNet(g, selected);
    PartNoReentry(NetOf(Partial(g, selected)), NetOf(g), selected);
    PartComplete(NetOf(Partial(g, selected)), NetOf(g), selected);
  }

  // ---- The order of the component ----

  datatype Step = Step(node: int, applyOrder: int)

  lemma {:induction false} InboundOnNode(nodes: seq<GraphNode>, i: Inbound) returns (k: nat)
    requires (forall n :: 0 <= n < |nodes| ==> GoodNode(nodes[n])) && i in AllInbounds(nodes)
    ensures k < |nodes| && nodes[k].id == i.node
  {
    var last := nodes[|nodes| - 1];
    if i in last.inbounds {
      k := |nodes| - 1;
      var j :| 0 <= j < |last.inbounds| && last.inbounds[j] == i;
      assert GoodInbound(last.inbounds[j], last.id);
    } else {
      k := InboundOnNode(nodes[..|nodes| - 1], i);
    }
  }

  ghost predicate HasMachine(nodes: seq<GraphNode>, n: int) {
    exists k :: 0 <= k < |nodes| && nodes[k].id == n
  }

  // The machines of chains are machines of the graph.
  lemma MachineIsNode(g: Graph, n: int)
    requires WellFormed(g) && MachineParticipates(NetOf(g), n)
    ensures HasMachine(g.nodes, n)
  {
    var net := NetOf(g);
    var v :| v in net.vertices && Participates(net, v) && net.vertices[v].node == n;
    var k := InboundOnNode(g.nodes, net.vertices[v]);
  }

  ghost predicate NumberedOnce(steps: seq<Step>, machines: set<int>) {
    && (forall i :: 0 <= i < |steps| ==> steps[i].applyOrder == i && steps[i].node in machines)
    && (forall i, j :: 0 <= i < j < |steps| ==> steps[i].node != steps[j].node)
    && (forall n :: n in machines ==> exists i :: 0 <= i < |steps| && steps[i].node == n)
  }

  ghost function MachinesIn(s: seq<SnapshotNode>, selected: set<int>): set<int> {
    set i | 0 <= i < |s| && s[i].node.id in selected :: s[i].node.id
  }

  // How the steps of two machines compare: with chains, by largest distance and then identity; a machine with a chain comes
  // before one without; and without chains, as they come in the graph.
  ghost predicate Compared(g: Graph, x: Step, y: Step) {
    var net := NetOf(g);
    && (MachineParticipates(net, x.node) && MachineParticipates(net, y.node) ==>
          forall d, e :: LargestDistance(net, x.node, d) && LargestDistance(net, y.node, e) ==>
            (x.applyOrder < y.applyOrder <==> d < e || (d == e && x.node < y.node)))
    && (MachineParticipates(net, x.node) && !MachineParticipates(net, y.node) ==> x.applyOrder < y.applyOrder)
    && (!MachineParticipates(net, x.node) && !MachineParticipates(net, y.node) ==>
          forall k, l :: 0 <= k < |g.nodes| && 0 <= l < |g.nodes| && g.nodes[k].id == x.node && g.nodes[l].id == y.node ==>
            (x.applyOrder < y.applyOrder <==> k < l))
  }

  ghost predicate Deploys(g: Graph, steps: seq<Step>) {
    forall i, j :: 0 <= i < |steps| && 0 <= j < |steps| ==> Compared(g, steps[i], steps[j])
  }

  // The machine of the hop's target is applied before the machine of its source.
  ghost predicate TargetApplied(net: Net, steps: seq<Step>, u: int)
    requires IsHop(net, u)
  {
    exists i, j :: && 0 <= i < |steps| && 0 <= j < |steps| && steps[i].applyOrder < steps[j].applyOrder
                   && steps[i].node == net.vertices[net.next[u]].node && steps[j].node == net.vertices[u].node
  }

  // A hop is applied downstream first exactly if it descends.
  ghost predicate Downstream(g: Graph, steps: seq<Step>) {
    forall u :: u in NetOf(g).next ==> IsHop(NetOf(g), u) && (TargetApplied(NetOf(g), steps, u) <==> Descends(NetOf(g), u))
  }

  // The machines of the component, in deployment order, numbered from zero; machines without a chain come last.
  method PreviewChain(s: seq<SnapshotNode>, root: int) returns (r: Option<seq<Step>>, selected: set<int>)
    ensures Closed(s, selected) && forall n :: n in selected <==> Connected(s, root, n)
    ensures r.Some? <==> Valid(Partial(GraphValue(s), selected))
    ensures r.Some? ==> NumberedOnce(r.value, MachinesIn(s, selected))
    ensures r.Some? ==> Deploys(Partial(GraphValue(s), selected), r.value) && Downstream(Partial(GraphValue(s), selected), r.value)
  {
    var whole := GraphValue(s);
    var component := Select(s, root);
    selected := component;
    var partial := BuildPartial(whole, component);
    var order, distances := DeploymentOrder(partial);
    if order.None? { return None, selected; }
    var all := Appended(partial, order.value, distances);
    var steps := Numbered(all);
    PartialIds(s, component);
    AllNumbered(all, steps, MachinesIn(s, component));
    AllDeploys(partial, distances, order.value, all, steps);
    HopsApplied(partial, distances, order.value, all, steps);
    return Some(steps), selected;
  }

  method Appended(partial: Graph, order: seq<int>, ghost distances: map<int, int>) returns (all: seq<int>)
    requires WellFormed(partial) && IsOrder(NetOf(partial), distances, order)
    ensures (forall i, j :: 0 <= i < j < |all| ==> all[i] != all[j])
    ensures forall n :: n in all <==> HasMachine(partial.nodes, n)
    ensures |order| <= |all| && all[..|order|] == order && AsInGraph(partial.nodes, all[|order|..])
  {
    all := order;
    forall i, j | 0 <= i < j < |all| ensures all[i] != all[j] {
      assert Comes(distances, order[i], order[j]);
    }
    forall n | n in order ensures HasMachine(partial.nodes, n) {
      MachineIsNode(partial, n);
    }
    var i := 0;
    while i < |partial.nodes|
      invariant i <= |partial.nodes|
      invariant forall x, y :: 0 <= x < y < |all| ==> all[x] != all[y]
      invariant forall n :: n in all <==> n in order || exists k :: 0 <= k < i && partial.nodes[k].id == n
      invariant |order| <= |all| && all[..|order|] == order && AsInGraph(partial.nodes[..i], all[|order|..])
    {
      var id := partial.nodes[i].id;
      LaterInGraph(partial.nodes, i, all[|order|..]);
      if id !in order {
        NotYetListed(partial, order, all, i);
        assert (all + [id])[|order|..] == all[|order|..] + [id];
        all := all + [id];
      }
      i := i + 1;
    }
    assert partial.nodes[..i] == partial.nodes;
  }

  // The machines are listed in the order that they have in the graph.
  ghost predicate AsInGraph(nodes: seq<GraphNode>, ids: seq<int>) {
    && (forall i :: 0 <= i < |ids| ==> HasMachine(nodes, ids[i]))
    && (forall i, j, k, l :: 0 <= i < j < |ids| && 0 <= k < |nodes| && 0 <= l < |nodes| && nodes[k].id == ids[i] && nodes[l].id == ids[j] ==> k < l)
  }

  lemma LaterInGraph(nodes: seq<GraphNode>, i: nat, ids: seq<int>)
    requires i < |nodes| && AsInGraph(nodes[..i], ids) && forall k, l :: 0 <= k < l < |nodes| ==> nodes[k].id != nodes[l].id
    ensures AsInGraph(nodes[..i + 1], ids) && AsInGraph(nodes[..i + 1], ids + [nodes[i].id])
  {
    var front, more := nodes[..i], nodes[..i + 1];
    forall x | 0 <= x < |ids| ensures HasMachine(more, ids[x]) {
      var k :| 0 <= k < |front| && front[k].id == ids[x];
      assert more[k].id == ids[x];
    }
    assert more[i].id == nodes[i].id;
    forall x, y, k, l | 0 <= x < y < |ids| + 1 && 0 <= k < |more| && 0 <= l < |more| && more[k].id == ids[x] && more[l].id == (ids + [nodes[i].id])[y]
      ensures k < l
    {
      var m :| 0 <= m < |front| && front[m].id == ids[x];
      assert m == k;
      if y < |ids| {
        var n :| 0 <= n < |front| && front[n].id == ids[y];
        assert n == l;
        assert front[k].id == ids[x] && front[l].id == ids[y];
      }
    }
  }

  lemma AllDeploys(g: Graph, distances: map<int, int>, order: seq<int>, all: seq<int>, steps: seq<Step>)
    requires DistinctNodeIds(g.nodes)
    requires IsOrder(NetOf(g), distances, order) && |order| <= |all| && all[..|order|] == order && AsInGraph(g.nodes, all[|order|..])
    requires (forall i, j :: 0 <= i < j < |all| ==> all[i] != all[j])
    requires |steps| == |all| && forall i :: 0 <= i < |all| ==> steps[i] == Step(all[i], i)
    ensures Deploys(g, steps)
  {
    forall i, j | 0 <= i < |steps| && 0 <= j < |steps| ensures Compared(g, steps[i], steps[j]) {
      StepsCompared(g, distances, order, all, i, j);
    }
  }

  lemma ListedFirst(net: Net, distances: map<int, int>, order: seq<int>, all: seq<int>, i: nat)
    requires IsOrder(net, distances, order) && |order| <= |all| && all[..|order|] == order && i < |all|
    requires (forall i, j :: 0 <= i < j < |all| ==> all[i] != all[j])
    ensures MachineParticipates(net, all[i]) <==> i < |order|
    ensures i < |order| ==> order[i] == all[i]
  {
    assert i < |order| ==> all[i] == order[i];
    if all[i] in order {
      var k :| 0 <= k < |order| && order[k] == all[i];
      assert all[k] == order[k];
    }
  }

  lemma StepsCompared(g: Graph, distances: map<int, int>, order: seq<int>, all: seq<int>, i: nat, j: nat)
    requires DistinctNodeIds(g.nodes)
    requires IsOrder(NetOf(g), distances, order) && |order| <= |all| && all[..|order|] == order && AsInGraph(g.nodes, all[|order|..])
    requires (forall i, j :: 0 <= i < j < |all| ==> all[i] != all[j]) && i < |all| && j < |all|
    ensures Compared(g, Step(all[i], i), Step(all[j], j))
  {
    var net := NetOf(g);
    ListedFirst(net, distances, order, all, i);
    ListedFirst(net, distances, order, all, j);
    if i < |order| && j < |order| {
      forall d, e | LargestDistance(net, all[i], d) && LargestDistance(net, all[j], e)
        ensures i < j <==> d < e || (d == e && all[i] < all[j])
      {
        EarlierExactly(net, distances, order, i, j, d, e);
      }
    } else if |order| <= i && |order| <= j {
      var rest, x, y := all[|order|..], i - |order|, j - |order|;
      assert rest[x] == all[i] && rest[y] == all[j];
      forall k, l | 0 <= k < |g.nodes| && 0 <= l < |g.nodes| && g.nodes[k].id == all[i] && g.nodes[l].id == all[j]
        ensures i < j <==> k < l
      {
        assert g.nodes[k].id == rest[x] && g.nodes[l].id == rest[y];
      }
    }
  }

  lemma HopApplied(net: Net, distances: map<int, int>, order: seq<int>, all: seq<int>, steps: seq<Step>, u: int)
    requires SoundNet(net) && u in net.next && IsOrder(net, distances, order) && |order| <= |all| && all[..|order|] == order
    requires (forall i, j :: 0 <= i < j < |all| ==> all[i] != all[j])
    requires |steps| == |all| && forall i :: 0 <= i < |all| ==> steps[i] == Step(all[i], i)
    ensures IsHop(net, u) && (TargetApplied(net, steps, u) <==> Descends(net, u))
  {
    HopExactly(net, distances, order, u);
    var p, q := HopsAreListed(net, distances, order, u);
    assert steps[p] == Step(order[p], p) && steps[q] == Step(order[q], q);
    if TargetApplied(net, steps, u) {
      var i, j :| 0 <= i < |steps| && 0 <= j < |steps| && steps[i].applyOrder < steps[j].applyOrder
        && steps[i].node == net.vertices[net.next[u]].node && steps[j].node == net.vertices[u].node;
      assert i == p && j == q;
    }
    forall i, j | 0 <= i < j < |order| && order[i] == net.vertices[net.next[u]].node && order[j] == net.vertices[u].node
      ensures TargetApplied(net, steps, u)
    {
      assert steps[i] == Step(order[i], i) && steps[j] == Step(order[j], j);
    }
  }

  lemma HopsApplied(g: Graph, distances: map<int, int>, order: seq<int>, all: seq<int>, steps: seq<Step>)
    requires Valid(g) && IsOrder(NetOf(g), distances, order) && |order| <= |all| && all[..|order|] == order
    requires (forall i, j :: 0 <= i < j < |all| ==> all[i] != all[j])
    requires |steps| == |all| && forall i :: 0 <= i < |all| ==> steps[i] == Step(all[i], i)
    ensures Downstream(g, steps)
  {
    WellFormedSound(g);
    forall u | u in NetOf(g).next ensures IsHop(NetOf(g), u) && (TargetApplied(NetOf(g), steps, u) <==> Descends(NetOf(g), u)) {
      HopApplied(NetOf(g), distances, order, all, steps, u);
    }
  }

  lemma NotYetListed(partial: Graph, order: seq<int>, all: seq<int>, i: nat)
    requires WellFormed(partial) && i < |partial.nodes| && partial.nodes[i].id !in order
    requires forall n :: n in all <==> n in order || exists k :: 0 <= k < i && partial.nodes[k].id == n
    ensures partial.nodes[i].id !in all
  {
  }

  method Numbered(order: seq<int>) returns (steps: seq<Step>)
    ensures |steps| == |order| && forall i :: 0 <= i < |order| ==> steps[i] == Step(order[i], i)
  {
    steps := [];
    var i := 0;
    while i < |order|
      invariant i <= |order| && |steps| == i && forall j :: 0 <= j < i ==> steps[j] == Step(order[j], j)
    {
      steps := steps + [Step(order[i], i)];
      i := i + 1;
    }
  }

  lemma {:induction false} NodeIn(s: seq<SnapshotNode>, n: GraphNode)
    ensures n in NodesOf(s) <==> exists i :: 0 <= i < |s| && s[i].node == n
  {
    if s != [] {
      var k := |s| - 1;
      NodeIn(s[..k], n);
      if exists i :: 0 <= i < |s| && s[i].node == n {
        var i :| 0 <= i < |s| && s[i].node == n;
        assert i < k ==> s[..k][i].node == n;
      }
    }
  }

  lemma PartialIds(s: seq<SnapshotNode>, selected: set<int>)
    ensures forall n :: HasMachine(KeptNodes(NodesOf(s), selected), n) <==> n in MachinesIn(s, selected)
  {
    forall n ensures HasMachine(KeptNodes(NodesOf(s), selected), n) <==> n in MachinesIn(s, selected) {
      PartialId(s, selected, n);
    }
  }

  lemma PartialId(s: seq<SnapshotNode>, selected: set<int>, n: int)
    ensures HasMachine(KeptNodes(NodesOf(s), selected), n) <==> n in MachinesIn(s, selected)
  {
    var nodes := NodesOf(s);
    var kept := KeptNodes(nodes, selected);
    if HasMachine(kept, n) {
      var k :| 0 <= k < |kept| && kept[k].id == n;
      KeptNode(nodes, selected, kept[k]);
      NodeIn(s, kept[k]);
    }
    if n in MachinesIn(s, selected) {
      var i :| 0 <= i < |s| && s[i].node.id in selected && s[i].node.id == n;
      NodeIn(s, s[i].node);
      KeptNode(nodes, selected, s[i].node);
      var k :| 0 <= k < |kept| && kept[k] == s[i].node;
    }
  }

  lemma AllNumbered(order: seq<int>, steps: seq<Step>, machines: set<int>)
    requires |steps| == |order| && forall i :: 0 <= i < |order| ==> steps[i] == Step(order[i], i)
    requires (forall i, j :: 0 <= i < j < |order| ==> order[i] != order[j]) && forall n :: n in order <==> n in machines
    ensures NumberedOnce(steps, machines)
  {
    forall i | 0 <= i < |steps| ensures steps[i].node in machines {
      assert order[i] in order;
    }
    forall n | n in machines ensures exists i :: 0 <= i < |steps| && steps[i].node == n {
      var i :| 0 <= i < |order| && order[i] == n;
      assert steps[i].node == n;
    }
  }
}
