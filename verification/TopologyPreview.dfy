/**
  The preview of a chain deployment: the machines connected to the root, the part of the graph on them, and the order
  in which they are deployed.
*/
module TopologyPreview {
  import opened TopologyGraph

  // A machine with its inbounds and the edges that are filed under it.
  datatype SnapshotNode = SnapshotNode(node: GraphNode, edges: seq<GraphEdge>)

  function NodesOf(s: seq<SnapshotNode>): seq<GraphNode> {
    if s == [] then [] else NodesOf(s[..|s| - 1]) + [s[|s| - 1].node]
  }

  function EdgesOf(s: seq<SnapshotNode>): seq<GraphEdge> {
    if s == [] then [] else EdgesOf(s[..|s| - 1]) + s[|s| - 1].edges
  }

  function GraphValue(s: seq<SnapshotNode>): Graph { Graph(NodesOf(s), EdgesOf(s)) }

  // ---- The component of the root ----

  // Two machines are linked by an edge in either direction.
  ghost predicate Edged(s: seq<SnapshotNode>, a: int, b: int) {
    exists i, j :: 0 <= i < |s| && 0 <= j < |s[i].edges| && s[i].node.id == a && s[i].edges[j].toNode == b
  }

  ghost predicate Linked(s: seq<SnapshotNode>, a: int, b: int) { Edged(s, a, b) || Edged(s, b, a) }

  ghost predicate Trail(s: seq<SnapshotNode>, p: seq<int>) {
    |p| > 0 && forall i :: 0 <= i < |p| - 1 ==> Linked(s, p[i], p[i + 1])
  }

  ghost predicate Connected(s: seq<SnapshotNode>, a: int, b: int) {
    exists p :: Trail(s, p) && p[0] == a && p[|p| - 1] == b
  }

  ghost predicate Closed(s: seq<SnapshotNode>, selected: set<int>) {
    forall a, b :: Edged(s, a, b) ==> (a in selected <==> b in selected)
  }

  lemma ConnectedStep(s: seq<SnapshotNode>, root: int, a: int, b: int)
    requires Connected(s, root, a) && Linked(s, a, b)
    ensures Connected(s, root, b)
  {
    var p :| Trail(s, p) && p[0] == root && p[|p| - 1] == a;
    var q := p + [b];
    assert Trail(s, q) && q[0] == root && q[|q| - 1] == b;
  }

  lemma {:induction false} ClosedFollows(s: seq<SnapshotNode>, selected: set<int>, p: seq<int>)
    requires Closed(s, selected) && Trail(s, p) && p[0] in selected
    ensures p[|p| - 1] in selected
  {
    if |p| > 1 {
      var front := p[..|p| - 1];
      ClosedFollows(s, selected, front);
      assert Linked(s, p[|p| - 2], p[|p| - 1]);
    }
  }

  // A closed set around the root that holds only connected machines is the component.
  lemma IsComponent(s: seq<SnapshotNode>, root: int, selected: set<int>)
    requires Closed(s, selected) && root in selected && forall n :: n in selected ==> Connected(s, root, n)
    ensures forall n :: n in selected <==> Connected(s, root, n)
  {
    forall n | Connected(s, root, n) ensures n in selected {
      var p :| Trail(s, p) && p[0] == root && p[|p| - 1] == n;
      ClosedFollows(s, selected, p);
    }
  }

  ghost function Universe(s: seq<SnapshotNode>, root: int): set<int> {
    {root} + (set i | 0 <= i < |s| :: s[i].node.id) + (set i, j | 0 <= i < |s| && 0 <= j < |s[i].edges| :: s[i].edges[j].toNode)
  }

  ghost predicate Within(s: seq<SnapshotNode>, root: int, selected: set<int>) {
    root in selected && selected <= Universe(s, root) && forall n :: n in selected ==> Connected(s, root, n)
  }

  // The edges up to here leave the set alone.
  ghost predicate ClosedTo(s: seq<SnapshotNode>, selected: set<int>, i: nat, j: nat) {
    forall x, y :: 0 <= x < |s| && 0 <= y < |s[x].edges| && (x < i || (x == i && y < j)) ==>
      (s[x].node.id in selected <==> s[x].edges[y].toNode in selected)
  }

  method Select(s: seq<SnapshotNode>, root: int) returns (selected: set<int>)
    ensures Closed(s, selected) && forall n :: n in selected <==> Connected(s, root, n)
  {
    selected := {root};
    assert Trail(s, [root]) && [root][0] == root;
    var changed := true;
    while changed
      invariant Within(s, root, selected)
      invariant !changed ==> ClosedTo(s, selected, |s|, 0)
      decreases |Universe(s, root) - selected|, changed
    {
      ghost var before := selected;
      changed, selected := Pass(s, root, selected);
      Shrinks(Universe(s, root), before, selected);
    }
    IsComponent(s, root, selected);
  }

  lemma Shrinks(all: set<int>, before: set<int>, after: set<int>)
    requires before <= after <= all
    ensures |all - after| <= |all - before|
    ensures before != after ==> |all - after| < |all - before|
  {
    assert all - before == (all - after) + (after - before);
  }

  // One pass over all edges.
  method Pass(s: seq<SnapshotNode>, root: int, before: set<int>) returns (changed: bool, selected: set<int>)
    requires Within(s, root, before)
    ensures Within(s, root, selected) && before <= selected && (changed ==> before != selected)
    ensures !changed ==> selected == before && ClosedTo(s, selected, |s|, 0)
  {
    changed, selected := false, before;
    var i := 0;
    while i < |s|
      invariant i <= |s| && Within(s, root, selected) && before <= selected && (changed ==> before != selected)
      invariant !changed ==> selected == before && ClosedTo(s, selected, i, 0)
    {
      var j := 0;
      while j < |s[i].edges|
        invariant j <= |s[i].edges| && Within(s, root, selected) && before <= selected && (changed ==> before != selected)
        invariant !changed ==> selected == before && ClosedTo(s, selected, i, j)
      {
        var a, b := s[i].node.id, s[i].edges[j].toNode;
        assert Edged(s, a, b);
        if a in selected || b in selected {
          if a !in selected || b !in selected {
            changed := true;
            BothConnected(s, root, selected, a, b);
          }
          selected := selected + {a, b};
        }
        j := j + 1;
      }
      i := i + 1;
    }
  }

  lemma BothConnected(s: seq<SnapshotNode>, root: int, selected: set<int>, a: int, b: int)
    requires Within(s, root, selected) && Edged(s, a, b) && (a in selected || b in selected)
    ensures Within(s, root, selected + {a, b})
  {
    if a in selected {
      ConnectedStep(s, root, a, b);
    } else {
      ConnectedStep(s, root, b, a);
    }
    var i, j :| 0 <= i < |s| && 0 <= j < |s[i].edges| && s[i].node.id == a && s[i].edges[j].toNode == b;
    assert a in Universe(s, root) && b in Universe(s, root);
  }

  // ---- The part of the graph on the component ----

  function KeptNodes(nodes: seq<GraphNode>, selected: set<int>): seq<GraphNode> {
    if nodes == [] then [] else
      var last := nodes[|nodes| - 1];
      KeptNodes(nodes[..|nodes| - 1], selected) + if last.id in selected then [last] else []
  }

  function KeptEdges(edges: seq<GraphEdge>, selected: set<int>): seq<GraphEdge> {
    if edges == [] then [] else
      var last := edges[|edges| - 1];
      KeptEdges(edges[..|edges| - 1], selected) + if last.toNode in selected then [last] else []
  }

  function Partial(g: Graph, selected: set<int>): Graph {
    Graph(KeptNodes(g.nodes, selected), KeptEdges(g.edges, selected))
  }

  // Machines are kept when selected, and edges by their target.
  method BuildPartial(g: Graph, selected: set<int>) returns (partial: Graph)
    ensures partial == Partial(g, selected)
  {
    var nodes: seq<GraphNode>, edges: seq<GraphEdge> := [], [];
    var i := 0;
    while i < |g.nodes|
      invariant i <= |g.nodes| && nodes == KeptNodes(g.nodes[..i], selected)
    {
      assert g.nodes[..i + 1][..i] == g.nodes[..i];
      if g.nodes[i].id in selected { nodes := nodes + [g.nodes[i]]; }
      i := i + 1;
    }
    assert g.nodes[..i] == g.nodes;
    i := 0;
    while i < |g.edges|
      invariant i <= |g.edges| && edges == KeptEdges(g.edges[..i], selected)
    {
      assert g.edges[..i + 1][..i] == g.edges[..i];
      if g.edges[i].toNode in selected { edges := edges + [g.edges[i]]; }
      i := i + 1;
    }
    assert g.edges[..i] == g.edges;
    partial := Graph(nodes, edges);
  }

  lemma {:induction false} KeptEdge(edges: seq<GraphEdge>, selected: set<int>, e: GraphEdge)
    ensures e in KeptEdges(edges, selected) <==> e in edges && e.toNode in selected
  {
    if edges != [] {
      KeptEdge(edges[..|edges| - 1], selected, e);
      assert edges == edges[..|edges| - 1] + [edges[|edges| - 1]];
    }
  }

  lemma {:induction false} KeptNode(nodes: seq<GraphNode>, selected: set<int>, n: GraphNode)
    ensures n in KeptNodes(nodes, selected) <==> n in nodes && n.id in selected
  {
    if nodes != [] {
      KeptNode(nodes[..|nodes| - 1], selected, n);
      assert nodes == nodes[..|nodes| - 1] + [nodes[|nodes| - 1]];
    }
  }
}
