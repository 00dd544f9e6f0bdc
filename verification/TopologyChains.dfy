/** Chains of inbounds in a well-formed graph: every inbound has at most one next hop, so a chain is a walk. */
module TopologyChains {
  import opened Common
  import opened TopologyGraph
  import DepthFirst

  datatype Net = Net(vertices: map<int, Inbound>, next: map<int, int>)

  function NextOf(edges: seq<GraphEdge>): map<int, int> {
    if edges == [] then map[] else
      var last := edges[|edges| - 1];
      NextOf(edges[..|edges| - 1])[last.from := last.to]
  }

  function NetOf(g: Graph): Net { Net(VerticesOf(AllInbounds(g.nodes)), NextOf(g.edges)) }

  // ---- What a well-formed graph gives ----

  ghost predicate GoodHop(net: Net, u: int) {
    && u in net.next && u in net.vertices && net.next[u] in net.vertices
    && net.vertices[u].role in {Entry, Relay} && net.vertices[u].mode == ChainMode
    && net.vertices[net.next[u]].role in {Relay, Landing}
  }

  ghost predicate GoodHops(net: Net) {
    forall u :: u in net.next ==> GoodHop(net, u)
  }

  ghost predicate RelaysUnshared(net: Net) {
    forall u, v :: u in net.next && v in net.next && net.next[u] == net.next[v] && net.next[u] in net.vertices && net.vertices[net.next[u]].role == Relay ==>
      u == v
  }

  ghost predicate GoodVertices(net: Net) {
    forall u :: u in net.vertices ==> net.vertices[u].id == u && GoodRoleMode(net.vertices[u])
  }

  ghost predicate SoundNet(net: Net) {
    GoodHops(net) && RelaysUnshared(net) && GoodVertices(net)
  }

  // The next hops are those of the edges.
  ghost predicate FromEdges(next: map<int, int>, edges: seq<GraphEdge>) {
    && (forall i :: 0 <= i < |edges| ==> edges[i].from in next && next[edges[i].from] == edges[i].to)
    && (forall u :: u in next ==> Leads(edges, u, next[u]))
  }

  ghost predicate Leads(edges: seq<GraphEdge>, u: int, v: int) {
    exists i :: 0 <= i < |edges| && edges[i].from == u && edges[i].to == v
  }

  lemma {:induction false} NextFromEdges(edges: seq<GraphEdge>)
    requires forall i, j :: 0 <= i < j < |edges| ==> edges[i].from != edges[j].from
    ensures FromEdges(NextOf(edges), edges)
  {
    if edges != [] {
      var front, last := edges[..|edges| - 1], edges[|edges| - 1];
      NextFromEdges(front);
      forall u | u in NextOf(edges) ensures Leads(edges, u, NextOf(edges)[u]) {
        if u == last.from {
          assert edges[|edges| - 1].from == u;
        } else {
          assert Leads(front, u, NextOf(front)[u]);
          var i :| 0 <= i < |front| && front[i].from == u && front[i].to == NextOf(front)[u];
          assert edges[i] == front[i];
        }
      }
    }
  }

  lemma {:induction false} VerticesGood(nodes: seq<GraphNode>)
    requires forall i :: 0 <= i < |nodes| ==> GoodNode(nodes[i])
    ensures forall i :: 0 <= i < |AllInbounds(nodes)| ==> GoodRoleMode(AllInbounds(nodes)[i])
  {
    if nodes != [] {
      var front, last := nodes[..|nodes| - 1], nodes[|nodes| - 1];
      VerticesGood(front);
      assert forall k :: 0 <= k < |last.inbounds| ==> GoodInbound(last.inbounds[k], last.id);
    }
  }

  lemma WellFormedSound(g: Graph)
    requires WellFormed(g)
    ensures SoundNet(NetOf(g)) && FromEdges(NetOf(g).next, g.edges)
  {
    var net := NetOf(g);
    NextFromEdges(g.edges);
    VerticesGood(g.nodes);
    forall u | u in net.next ensures GoodHop(net, u) {
      var i := HopEdge(net.next, g.edges, u);
      assert GoodEdge(net.vertices, g.edges[i]);
    }
    forall u, v | u in net.next && v in net.next && net.next[u] == net.next[v] && net.next[u] in net.vertices && net.vertices[net.next[u]].role == Relay ensures u == v {
      var i := HopEdge(net.next, g.edges, u);
      var j := HopEdge(net.next, g.edges, v);
      SameTarget(net.vertices, g.edges, i, j);
    }
    forall u | u in net.vertices ensures net.vertices[u].id == u && GoodRoleMode(net.vertices[u]) {
      var inbounds := AllInbounds(g.nodes);
      var i :| 0 <= i < |inbounds| && inbounds[i] == net.vertices[u];
    }
  }

  lemma HopEdge(next: map<int, int>, edges: seq<GraphEdge>, u: int) returns (i: nat)
    requires FromEdges(next, edges) && u in next
    ensures i < |edges| && edges[i].from == u && edges[i].to == next[u]
  {
    assert Leads(edges, u, next[u]);
    i :| 0 <= i < |edges| && edges[i].from == u && edges[i].to == next[u];
  }

  lemma SameTarget(vertices: map<int, Inbound>, edges: seq<GraphEdge>, i: nat, j: nat)
    requires Unbranched(vertices, edges) && i < |edges| && j < |edges|
    requires edges[i].to == edges[j].to && edges[i].to in vertices && vertices[edges[i].to].role == Relay
    ensures i == j
  {
  }

  // ---- Walks ----

  function Walk(net: Net, start: int, k: nat): Option<int> {
    if k == 0 then Some(start)
    else
      match Walk(net, start, k - 1)
      case None => None
      case Some(u) => if u in net.next then Some(net.next[u]) else None
  }

  ghost predicate Reaches(net: Net, u: int, k: nat, v: int) { Walk(net, u, k) == Some(v) }

  lemma {:induction false} WalkShift(net: Net, u: int, k: nat)
    requires u in net.next
    ensures Walk(net, u, k + 1) == Walk(net, net.next[u], k)
  {
    if k > 0 {
      WalkShift(net, u, k - 1);
    }
  }

  lemma {:induction false} WalkOn(net: Net, u: int, i: nat, j: nat)
    requires Walk(net, u, i).Some?
    ensures Walk(net, u, i + j) == Walk(net, Walk(net, u, i).value, j)
  {
    if j > 0 {
      WalkOn(net, u, i, j - 1);
    }
  }

  lemma {:induction false} WalkInside(net: Net, u: int, k: nat)
    requires SoundNet(net) && u in net.vertices
    ensures Walk(net, u, k).Some? ==> Walk(net, u, k).value in net.vertices
  {
    if k > 0 {
      WalkInside(net, u, k - 1);
      var v := Walk(net, u, k - 1);
      assert v.Some? && v.value in net.next ==> GoodHop(net, v.value);
    }
  }

  // A walk that goes on has gone through everything before.
  lemma {:induction false} WalkPrefix(net: Net, u: int, i: nat, k: nat)
    requires i <= k && Walk(net, u, k).Some?
    ensures Walk(net, u, i).Some?
  {
    if i < k {
      WalkPrefix(net, u, i, k - 1);
    }
  }

  // ---- The three conditions beyond the structure ----

  ghost predicate Chained(net: Net, u: int) {
    u in net.vertices && net.vertices[u].role in {Entry, Relay} && net.vertices[u].mode == ChainMode
  }

  ghost predicate ChainEntry(net: Net, u: int) {
    u in net.vertices && net.vertices[u].role == Entry && net.vertices[u].mode == ChainMode
  }

  // The walk from u is at a landing after k hops.
  ghost predicate Lands(net: Net, u: int, k: nat) {
    Walk(net, u, k).Some? && Walk(net, u, k).value in net.vertices && net.vertices[Walk(net, u, k).value].role == Landing
  }

  ghost predicate LandsInTime(net: Net, u: int) {
    exists k :: MIN_CHAIN - 1 <= k <= MAX_CHAIN - 1 && Lands(net, u, k)
  }

  ghost predicate HasPrevious(net: Net, u: int) { exists p :: p in net.next && net.next[p] == u }

  ghost predicate ChainsLand(net: Net) {
    forall u :: Chained(net, u) ==> LandsInTime(net, u)
  }

  ghost predicate RelaysFollow(net: Net) {
    forall u :: Chained(net, u) && net.vertices[u].role == Relay ==> HasPrevious(net, u)
  }

  ghost predicate Complete(net: Net) { ChainsLand(net) && RelaysFollow(net) }

  ghost predicate SameMachine(net: Net, u: int, v: int) {
    u in net.vertices && v in net.vertices && net.vertices[u].node == net.vertices[v].node
  }

  // No walk comes back to a physical node.
  ghost predicate NoReentry(net: Net) {
    forall u, i, j :: u in net.vertices && 0 <= i < j && Walk(net, u, i).Some? && Walk(net, u, j).Some? ==>
      !SameMachine(net, Walk(net, u, i).value, Walk(net, u, j).value)
  }

  // The graphs that may be published.
  ghost predicate Valid(g: Graph) {
    WellFormed(g) && NoReentry(NetOf(g)) && Complete(NetOf(g))
  }

  // ---- The check for re-entry rejects every cycle ----

  function Successors(net: Net): map<int, seq<int>> {
    map u | u in net.vertices :: if u in net.next then [net.next[u]] else []
  }

  lemma {:induction false} PathWalks(net: Net, p: seq<int>, k: nat)
    requires DepthFirst.Path(Successors(net), p) && k < |p|
    ensures Walk(net, p[0], k) == Some(p[k])
  {
    if k > 0 {
      PathWalks(net, p, k - 1);
      assert DepthFirst.Edge(Successors(net), p[k - 1], p[k]);
    }
  }

  lemma ReentryRejectsCycles(net: Net)
    requires NoReentry(net)
    ensures !DepthFirst.Cyclic(Successors(net))
  {
    if DepthFirst.Cyclic(Successors(net)) {
      var p :| DepthFirst.Cycle(Successors(net), p);
      PathWalks(net, p, |p| - 1);
      assert DepthFirst.Edge(Successors(net), p[0], p[1]);
      assert Walk(net, p[0], 0) == Some(p[0]);
      assert SameMachine(net, p[0], p[|p| - 1]);
      assert false;
    }
  }

  // ---- Landings end walks ----

  lemma LandingEnds(net: Net, u: int, k: nat, j: nat)
    requires SoundNet(net) && Lands(net, u, k) && j > 0
    ensures Walk(net, u, k + j).None?
  {
    var l := Walk(net, u, k).value;
    assert l in net.next ==> GoodHop(net, l);
    assert Walk(net, l, 0) == Some(l);
    assert Walk(net, l, 1).None?;
    if Walk(net, u, k + j).Some? {
      WalkPrefix(net, u, k + 1, k + j);
      WalkOn(net, u, k, 1);
      assert false;
    }
  }

  lemma LandsOnce(net: Net, u: int, i: nat, j: nat)
    requires SoundNet(net) && Lands(net, u, i) && Lands(net, u, j)
    ensures i == j
  {
    if i < j {
      LandingEnds(net, u, i, j - i);
    } else if j < i {
      LandingEnds(net, u, j, i - j);
    }
  }

  // Every inbound of an accepted graph is at most seven hops from the end of its walk.
  lemma WalksAreShort(net: Net, u: int, k: nat)
    requires SoundNet(net) && Complete(net) && u in net.vertices && Walk(net, u, k).Some?
    ensures k <= MAX_CHAIN - 1
  {
    if k > 0 {
      WalkPrefix(net, u, 1, k);
      assert Walk(net, u, 0) == Some(u);
      assert GoodHop(net, u) && Chained(net, u);
      ShortBy(net, u, k);
    }
  }

  lemma ShortBy(net: Net, u: int, k: nat)
    requires SoundNet(net) && LandsInTime(net, u) && Walk(net, u, k).Some?
    ensures k <= MAX_CHAIN - 1
  {
    var n :| MIN_CHAIN - 1 <= n <= MAX_CHAIN - 1 && Lands(net, u, n);
    if k > n {
      LandingEnds(net, u, n, k - n);
    }
  }

  // ---- Every relay is on the chain of exactly one entry ----

  lemma PreviousOf(net: Net, r: int) returns (p: int)
    requires SoundNet(net) && Complete(net) && Chained(net, r) && net.vertices[r].role == Relay
    ensures p in net.next && net.next[p] == r && Chained(net, p)
  {
    assert HasPrevious(net, r);
    p :| p in net.next && net.next[p] == r;
    SourceChained(net, p);
  }

  lemma PreviousLands(net: Net, r: int, k: nat) returns (p: int)
    requires SoundNet(net) && Complete(net) && Chained(net, r) && Lands(net, r, k) && net.vertices[r].role == Relay
    ensures p in net.next && net.next[p] == r && Chained(net, p) && Lands(net, p, k + 1) && k + 1 <= MAX_CHAIN - 1
  {
    p := PreviousOf(net, r);
    LandsShift(net, p, k);
    WalksAreShort(net, p, k + 1);
  }

  lemma LandsShift(net: Net, p: int, k: nat)
    requires p in net.next && Lands(net, net.next[p], k)
    ensures Lands(net, p, k + 1)
  {
    WalkShift(net, p, k);
  }

  lemma SourceChained(net: Net, p: int)
    requires SoundNet(net) && p in net.next
    ensures Chained(net, p)
  {
    assert GoodHop(net, p);
  }

  lemma {:induction false} RelayHasEntry(net: Net, r: int, k: nat) returns (entry: int, i: nat)
    requires SoundNet(net) && Complete(net) && Chained(net, r) && Lands(net, r, k) && k <= MAX_CHAIN - 1
    ensures ChainEntry(net, entry) && Reaches(net, entry, i, r)
    decreases MAX_CHAIN - k
  {
    if net.vertices[r].role == Entry {
      entry, i := r, 0;
    } else {
      var p := PreviousLands(net, r, k);
      entry, i := RelayHasEntry(net, p, k + 1);
      i := i + 1;
    }
  }

  // Walking back from a relay leads to one place only.
  lemma {:induction false} OneWayBack(net: Net, e: int, i: nat, f: int, j: nat, r: int)
    requires SoundNet(net) && ChainEntry(net, e) && ChainEntry(net, f)
    requires Reaches(net, e, i, r) && Reaches(net, f, j, r) && r in net.vertices && net.vertices[r].role in {Entry, Relay}
    ensures e == f && i == j
    decreases i
  {
    if i == 0 {
      NothingBefore(net, f, j, r);
    } else if j == 0 {
      NothingBefore(net, e, i, r);
    } else {
      var x, y := Walk(net, e, i - 1).value, Walk(net, f, j - 1).value;
      assert GoodHop(net, x) && GoodHop(net, y);
      assert net.vertices[r].role == Relay && x == y;
      OneWayBack(net, e, i - 1, f, j - 1, x);
    }
  }

  // An entry has no previous hop.
  lemma NothingBefore(net: Net, f: int, j: nat, r: int)
    requires SoundNet(net) && Reaches(net, f, j, r) && r in net.vertices && net.vertices[r].role == Entry
    ensures j == 0 && f == r
  {
    if j > 0 {
      HopTarget(net, f, j, r);
      assert false;
    }
  }

  lemma HopTarget(net: Net, f: int, j: nat, r: int)
    requires SoundNet(net) && Reaches(net, f, j, r) && j > 0
    ensures r in net.vertices && net.vertices[r].role in {Relay, Landing}
  {
    assert GoodHop(net, Walk(net, f, j - 1).value);
  }

  lemma RelayOnOneChain(g: Graph, r: int)
    requires Valid(g) && r in NetOf(g).vertices && NetOf(g).vertices[r].role == Relay
    ensures exists e, i :: ChainEntry(NetOf(g), e) && Reaches(NetOf(g), e, i, r)
    ensures forall e, i, f, j :: ChainEntry(NetOf(g), e) && ChainEntry(NetOf(g), f) && Reaches(NetOf(g), e, i, r) && Reaches(NetOf(g), f, j, r) ==>
              e == f && i == j
  {
    var net := NetOf(g);
    WellFormedSound(g);
    assert Chained(net, r);
    var k :| MIN_CHAIN - 1 <= k <= MAX_CHAIN - 1 && Lands(net, r, k);
    var entry, i := RelayHasEntry(net, r, k);
    forall e, i, f, j | ChainEntry(net, e) && ChainEntry(net, f) && Reaches(net, e, i, r) && Reaches(net, f, j, r) ensures e == f && i == j {
      OneWayBack(net, e, i, f, j, r);
    }
  }

  // Chains of different entries meet at a landing, if they meet at all.
  lemma ChainsMeetAtLandings(g: Graph, e: int, i: nat, f: int, j: nat, v: int)
    requires WellFormed(g) && ChainEntry(NetOf(g), e) && ChainEntry(NetOf(g), f) && e != f
    requires Reaches(NetOf(g), e, i, v) && Reaches(NetOf(g), f, j, v)
    ensures v in NetOf(g).vertices && NetOf(g).vertices[v].role == Landing
  {
    var net := NetOf(g);
    WellFormedSound(g);
    WalkInside(net, e, i);
    assert GoodRoleMode(net.vertices[v]);
    if net.vertices[v].role in {Entry, Relay} {
      OneWayBack(net, e, i, f, j, v);
      assert false;
    }
  }

  // The inbounds that take part in a chain.
  ghost predicate Participates(net: Net, v: int) {
    exists u, k :: Chained(net, u) && Reaches(net, u, k, v)
  }

  lemma ReachedFromEntry(g: Graph, v: int)
    requires Valid(g) && Participates(NetOf(g), v)
    ensures exists e, i :: ChainEntry(NetOf(g), e) && Reaches(NetOf(g), e, i, v)
  {
    var net := NetOf(g);
    WellFormedSound(g);
    var u, k :| Chained(net, u) && Reaches(net, u, k, v);
    var n :| MIN_CHAIN - 1 <= n <= MAX_CHAIN - 1 && Lands(net, u, n);
    var e, i := RelayHasEntry(net, u, n);
    WalkOn(net, e, i, k);
    assert Reaches(net, e, i + k, v);
  }
}
