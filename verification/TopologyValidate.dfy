/** The validators of the topology: what a draft must satisfy, and what a graph must satisfy to be published. */
module TopologyValidate {
  import opened Common
  import opened TopologyGraph
  import opened TopologyChains
  import DepthFirst

  datatype Summary = Summary(chainCount: nat, maxDepth: nat, inbounds: seq<int>, nodes: seq<int>)

  // ---- The index and the chains ----

  ghost predicate OutgoingMatch(ix: Index, net: Net) {
    forall id :: (id in ix.outgoing <==> id in net.next) && (id in ix.outgoing ==> |ix.outgoing[id]| == 1 && ix.outgoing[id][0].to == net.next[id])
  }

  ghost predicate IncomingMatch(ix: Index, net: Net) {
    forall id :: id in ix.incoming <==> HasPrevious(net, id)
  }

  ghost predicate Matches(ix: Index, net: Net) {
    ix.vertices == net.vertices && SoundNet(net) && OutgoingMatch(ix, net) && IncomingMatch(ix, net)
  }

  lemma IndexMatches(g: Graph)
    requires WellFormed(g)
    ensures Matches(IndexOf(g), NetOf(g))
  {
    var ix, net := IndexOf(g), NetOf(g);
    WellFormedSound(g);
    FromFiled(g.edges);
    ToFiled(g.edges);
    Branches(ix.vertices, g.edges);
    forall id ensures id in ix.outgoing <==> id in net.next {
      OutgoingMatches(g, id);
    }
    forall id | id in ix.outgoing ensures |ix.outgoing[id]| == 1 && ix.outgoing[id][0].to == net.next[id] {
      OutgoingMatches(g, id);
    }
    forall id ensures id in ix.incoming <==> HasPrevious(net, id) {
      IncomingMatches(g, id);
    }
  }

  lemma OutgoingMatches(g: Graph, id: int)
    requires WellFormed(g) && FromEdges(NetOf(g).next, g.edges) && FiledUnder(ByFrom(g.edges), g.edges, FROM)
    requires Short(ByFrom(g.edges), NetOf(g).vertices, false)
    ensures id in ByFrom(g.edges) <==> id in NetOf(g).next
    ensures id in ByFrom(g.edges) ==> |ByFrom(g.edges)[id]| == 1 && ByFrom(g.edges)[id][0].to == NetOf(g).next[id]
  {
    var m, next := ByFrom(g.edges), NetOf(g).next;
    if id in m {
      var e := m[id][0];
      assert e in g.edges && FROM(e) == id;
      var i :| 0 <= i < |g.edges| && g.edges[i] == e;
    }
    if id in next {
      var i := HopEdge(next, g.edges, id);
      assert FROM(g.edges[i]) == id;
    }
  }

  lemma IncomingMatches(g: Graph, id: int)
    requires WellFormed(g) && FromEdges(NetOf(g).next, g.edges) && FiledUnder(ByTo(g.edges), g.edges, TO)
    ensures id in ByTo(g.edges) <==> HasPrevious(NetOf(g), id)
  {
    var net, m := NetOf(g), ByTo(g.edges);
    if id in m {
      var e := m[id][0];
      assert e in g.edges && TO(e) == id;
      var i :| 0 <= i < |g.edges| && g.edges[i] == e;
      assert g.edges[i].from in net.next && net.next[g.edges[i].from] == id;
    }
    if HasPrevious(net, id) {
      var p :| p in net.next && net.next[p] == id;
      var i := HopEdge(net.next, g.edges, p);
      assert TO(g.edges[i]) == id;
    }
  }

  // ---- Sorting identities ----

  ghost predicate Increasing(s: seq<int>) {
    forall i, j :: 0 <= i < j < |s| ==> s[i] < s[j]
  }

  method SortedIds(values: set<int>) returns (ids: seq<int>)
    ensures Increasing(ids) && forall x :: x in ids <==> x in values
  {
    ids := [];
    var left := values;
    while left != {}
      invariant left <= values && Increasing(ids)
      invariant forall x :: x in ids <==> x in values && x !in left
      decreases |left|
    {
      var x := Pick(left);
      ids := InsertId(ids, x);
      left := left - {x};
    }
  }

  method InsertId(ids: seq<int>, x: int) returns (r: seq<int>)
    requires Increasing(ids) && x !in ids
    ensures Increasing(r) && forall y :: y in r <==> y in ids || y == x
  {
    var i := 0;
    while i < |ids| && ids[i] < x
      invariant i <= |ids| && forall j :: 0 <= j < i ==> ids[j] < x
    {
      i := i + 1;
    }
    r := ids[..i] + [x] + ids[i..];
    Inserted(ids, x, i, r);
  }

  lemma Inserted(ids: seq<int>, x: int, i: nat, r: seq<int>)
    requires Increasing(ids) && x !in ids && i <= |ids| && r == ids[..i] + [x] + ids[i..]
    requires (forall j :: 0 <= j < i ==> ids[j] < x) && (i < |ids| ==> ids[i] >= x)
    ensures Increasing(r) && forall y :: y in r <==> y in ids || y == x
  {
    assert ids == ids[..i] + ids[i..];
    forall j, k | 0 <= j < k < |r| ensures r[j] < r[k] {
      InOrder(ids, x, i, j, k);
    }
  }

  lemma InOrder(ids: seq<int>, x: int, i: nat, j: nat, k: nat)
    requires Increasing(ids) && x !in ids && i <= |ids| && j < k <= |ids|
    requires (forall l :: 0 <= l < i ==> ids[l] < x) && (i < |ids| ==> ids[i] >= x)
    ensures var r := ids[..i] + [x] + ids[i..]; r[j] < r[k]
  {
    assert i < |ids| ==> ids[i] in ids;
  }

  // ---- Cycles ----

  function Targets(edges: seq<GraphEdge>): seq<int> {
    if edges == [] then [] else [edges[0].to] + Targets(edges[1..])
  }

  function AllTargets(ix: Index): map<int, seq<int>> {
    map id | id in ix.vertices :: if id in ix.outgoing then Targets(ix.outgoing[id]) else []
  }

  lemma SameSuccessors(ix: Index, net: Net)
    requires Matches(ix, net)
    ensures AllTargets(ix) == Successors(net)
  {
    forall id | id in ix.vertices ensures AllTargets(ix)[id] == Successors(net)[id] {
      if id in ix.outgoing {
        var edges := ix.outgoing[id];
        assert Targets(edges[1..]) == [];
      }
    }
  }

  method DetectCycle(ix: Index, ghost net: Net) returns (ok: bool)
    requires Matches(ix, net)
    ensures ok <==> !DepthFirst.Cyclic(Successors(net))
  {
    var successors := AllTargets(ix);
    SameSuccessors(ix, net);
    ok := DepthFirst.IsAcyclic(successors);
  }

  // ---- Re-entry ----

  ghost predicate NoReentryFrom(net: Net, u: int) {
    forall i, j :: 0 <= i < j && Walk(net, u, i).Some? && Walk(net, u, j).Some? ==> !SameMachine(net, Walk(net, u, i).value, Walk(net, u, j).value)
  }

  // The machines of the first hops are all different.
  ghost predicate DistinctSoFar(net: Net, u: int, k: nat) {
    forall i, j :: 0 <= i < j <= k && Walk(net, u, i).Some? && Walk(net, u, j).Some? ==> !SameMachine(net, Walk(net, u, i).value, Walk(net, u, j).value)
  }

  ghost predicate SeenTo(net: Net, u: int, k: nat, seen: set<int>) {
    forall n :: n in seen <==> exists i :: 0 <= i <= k && OnMachine(net, u, i, n)
  }

  ghost predicate OnMachine(net: Net, u: int, i: nat, n: int) {
    Walk(net, u, i).Some? && Walk(net, u, i).value in net.vertices && net.vertices[Walk(net, u, i).value].node == n
  }

  method WalkMachines(ix: Index, start: int, ghost net: Net) returns (ok: bool)
    requires Matches(ix, net) && start in ix.vertices
    ensures ok <==> NoReentryFrom(net, start)
  {
    var seen := {ix.vertices[start].node};
    var current := start;
    ghost var machines := set v | v in ix.vertices :: ix.vertices[v].node;
    ghost var k: nat := 0;
    assert OnMachine(net, start, 0, ix.vertices[start].node);
    while current in ix.outgoing
      invariant Walk(net, start, k) == Some(current) && current in ix.vertices
      invariant DistinctSoFar(net, start, k) && SeenTo(net, start, k, seen) && seen <= machines
      decreases |machines - seen|
    {
      assert GoodHop(net, current);
      var target := ix.vertices[ix.outgoing[current][0].to];
      assert Walk(net, start, k + 1) == Some(target.id);
      if target.node in seen {
        ghost var i :| 0 <= i <= k && OnMachine(net, start, i, target.node);
        assert SameMachine(net, Walk(net, start, i).value, Walk(net, start, k + 1).value);
        return false;
      }
      NextMachine(net, start, k, seen, target);
      assert machines - (seen + {target.node}) < machines - seen;
      FewerLeft(machines, seen, target.node);
      seen := seen + {target.node};
      current := target.id;
      k := k + 1;
    }
    EndOfWalk(net, start, k);
    return true;
  }

  lemma MachineSeen(net: Net, u: int, k: nat, seen: set<int>, i: nat)
    requires SeenTo(net, u, k, seen) && i <= k && Walk(net, u, i).Some?
    ensures Walk(net, u, i).value in net.vertices ==> net.vertices[Walk(net, u, i).value].node in seen
  {
    var v := Walk(net, u, i).value;
    assert v in net.vertices ==> OnMachine(net, u, i, net.vertices[v].node);
  }

  lemma NextMachine(net: Net, u: int, k: nat, seen: set<int>, target: Inbound)
    requires SoundNet(net) && DistinctSoFar(net, u, k) && SeenTo(net, u, k, seen)
    requires Walk(net, u, k + 1) == Some(target.id) && target.id in net.vertices && net.vertices[target.id] == target && target.node !in seen
    ensures DistinctSoFar(net, u, k + 1) && SeenTo(net, u, k + 1, seen + {target.node})
  {
    forall i | 0 <= i <= k && Walk(net, u, i).Some? ensures !SameMachine(net, Walk(net, u, i).value, target.id) {
      MachineSeen(net, u, k, seen, i);
    }
    assert OnMachine(net, u, k + 1, target.node);
    forall n | n in seen ensures exists i :: 0 <= i <= k + 1 && OnMachine(net, u, i, n) {
      var i :| 0 <= i <= k && OnMachine(net, u, i, n);
    }
  }

  // After an inbound without a next hop there is nothing.
  lemma EndOfWalk(net: Net, u: int, k: nat)
    requires Walk(net, u, k).Some? && Walk(net, u, k).value !in net.next
    ensures forall j :: j > k ==> Walk(net, u, j).None?
  {
    forall j | j > k ensures Walk(net, u, j).None? {
      assert Walk(net, u, k + 1).None?;
      if Walk(net, u, j).Some? {
        WalkPrefix(net, u, k + 1, j);
        assert false;
      }
    }
  }

  method DetectPhysicalReentry(ix: Index, ghost net: Net) returns (ok: bool)
    requires Matches(ix, net)
    ensures ok <==> NoReentry(net)
  {
    var ids := SortedIds(ix.vertices.Keys);
    var i := 0;
    while i < |ids|
      invariant i <= |ids| && forall j :: 0 <= j < i ==> NoReentryFrom(net, ids[j])
    {
      assert ids[i] in ids;
      ok := WalkMachines(ix, ids[i], net);
      if !ok { return; }
      i := i + 1;
    }
    forall u | u in net.vertices ensures NoReentryFrom(net, u) {
      assert u in ids;
    }
    ok := true;
  }

  // ---- Landing paths ----

  method RequireLandingPath(ix: Index, start: int, participating: set<int>, ghost net: Net) returns (ok: bool, more: set<int>)
    requires Matches(ix, net) && start in ix.vertices
    ensures ok <==> LandsInTime(net, start)
    ensures ok ==> forall v :: v in more <==> v in participating || exists k :: Reaches(net, start, k, v)
  {
    more := participating;
    var depth := 0;
    var current := start;
    while true
      invariant 0 <= depth <= MAX_CHAIN && Walk(net, start, depth) == Some(current) && current in net.vertices
      invariant forall k :: 0 <= k < depth ==> !Lands(net, start, k)
      invariant forall v :: v in more <==> v in participating || exists k :: 0 <= k < depth && Reaches(net, start, k, v)
      decreases MAX_CHAIN - depth
    {
      ghost var before := more;
      if depth + 1 > MAX_CHAIN { return false, more; }
      more := more + {current};
      OneMoreReached(net, start, depth, participating, before, more, current);
      depth := depth + 1;
      var inbound := ix.vertices[current];
      if inbound.role == Landing {
        assert Lands(net, start, depth - 1);
        LandingReached(net, start, depth - 1);
        if depth < MIN_CHAIN {
          OnlyLanding(net, start, depth - 1);
          return false, more;
        }
        return true, more;
      }
      if current !in ix.outgoing {
        EndOfWalk(net, start, depth - 1);
        return false, more;
      }
      assert GoodHop(net, current);
      current := ix.outgoing[current][0].to;
    }
  }

  lemma OneMoreReached(net: Net, start: int, depth: nat, participating: set<int>, before: set<int>, more: set<int>, current: int)
    requires Walk(net, start, depth) == Some(current) && more == before + {current}
    requires forall v :: v in before <==> v in participating || exists k :: 0 <= k < depth && Reaches(net, start, k, v)
    ensures forall v :: v in more <==> v in participating || exists k :: 0 <= k < depth + 1 && Reaches(net, start, k, v)
  {
    assert Reaches(net, start, depth, current);
    forall v | v in before ensures v in participating || exists k :: 0 <= k < depth + 1 && Reaches(net, start, k, v) {
      if v !in participating {
        var k :| 0 <= k < depth && Reaches(net, start, k, v);
      }
    }
  }

  lemma LandingReached(net: Net, start: int, k: nat)
    requires SoundNet(net) && Lands(net, start, k)
    ensures forall j: nat, v: int :: Reaches(net, start, j, v) ==> j <= k
  {
    forall j: nat, v: int | Reaches(net, start, j, v) ensures j <= k {
      if j > k {
        LandingEnds(net, start, k, j - k);
        assert false;
      }
    }
  }

  lemma OnlyLanding(net: Net, start: int, k: nat)
    requires SoundNet(net) && Lands(net, start, k)
    ensures forall j :: Lands(net, start, j) ==> j == k
  {
    forall j | Lands(net, start, j) ensures j == k {
      LandsOnce(net, start, k, j);
    }
  }

  // ---- Summary ----

  ghost predicate InDraft(net: Net, u: int) {
    u in net.vertices && ((net.vertices[u].role in {Entry, Relay} && u in net.next) || HasPrevious(net, u))
  }

  // The number of inbounds on the walk from u.
  ghost predicate HasDepth(net: Net, u: int, depth: nat) {
    depth >= 1 && Walk(net, u, depth - 1).Some? && Walk(net, u, depth - 1).value !in net.next
  }

  ghost predicate SeenBefore(net: Net, start: int, k: nat, seen: set<int>) {
    seen <= net.vertices.Keys && forall v :: v in seen <==> exists i :: 0 <= i < k && Reaches(net, start, i, v)
  }

  // The walk has come to `current`, and these inbounds lie before it.
  ghost predicate Walked(net: Net, start: int, k: nat, current: int, seen: set<int>) {
    Reaches(net, start, k, current) && current in net.vertices && SeenBefore(net, start, k, seen)
  }

  method Depth(ix: Index, start: int, ghost net: Net) returns (depth: nat)
    requires Matches(ix, net) && start in ix.vertices && NoReentry(net)
    ensures HasDepth(net, start, depth)
  {
    depth := 1;
    var current := start;
    var seen: set<int> := {};
    while current in ix.outgoing && current !in seen
      invariant depth >= 1 && Walked(net, start, depth - 1, current, seen)
      decreases |net.vertices.Keys - seen|
    {
      WalkOneMore(ix, net, start, depth - 1, current, seen);
      seen := seen + {current};
      current := ix.outgoing[current][0].to;
      depth := depth + 1;
    }
    NeverAgain(net, start, depth - 1, current);
  }

  lemma WalkOneMore(ix: Index, net: Net, start: int, k: nat, current: int, seen: set<int>)
    requires Matches(ix, net) && Walked(net, start, k, current, seen) && current in ix.outgoing && current !in seen
    ensures |ix.outgoing[current]| == 1
    ensures Walked(net, start, k + 1, ix.outgoing[current][0].to, seen + {current})
    ensures |net.vertices.Keys - (seen + {current})| < |net.vertices.Keys - seen|
  {
    assert GoodHop(net, current);
    FewerLeft(net.vertices.Keys, seen, current);
    SeenOneMore(net, start, k + 1, seen, seen + {current}, current);
  }

  lemma SeenOneMore(net: Net, start: int, depth: nat, before: set<int>, seen: set<int>, current: int)
    requires depth >= 1 && Walk(net, start, depth - 1) == Some(current) && seen == before + {current}
    requires forall v :: v in before <==> exists i :: 0 <= i < depth - 1 && Reaches(net, start, i, v)
    ensures forall v :: v in seen <==> exists i :: 0 <= i < depth && Reaches(net, start, i, v)
  {
    assert Reaches(net, start, depth - 1, current);
    forall v | v in before ensures exists i :: 0 <= i < depth && Reaches(net, start, i, v) {
      var i :| 0 <= i < depth - 1 && Reaches(net, start, i, v);
    }
  }

  // Without re-entry a walk does not come back to an inbound.
  lemma NeverAgain(net: Net, start: int, k: nat, current: int)
    requires SoundNet(net) && NoReentry(net) && start in net.vertices && Walk(net, start, k) == Some(current)
    ensures !exists i :: 0 <= i < k && Reaches(net, start, i, current)
  {
    WalkInside(net, start, k);
    forall i | 0 <= i < k ensures !Reaches(net, start, i, current) {
      assert Reaches(net, start, i, current) ==> SameMachine(net, Walk(net, start, i).value, current);
    }
  }

  // The deepest walk of the draft, or zero if nothing takes part.
  ghost predicate Deepest(net: Net, depth: nat) {
    && (forall u: int, d: nat :: InDraft(net, u) && HasDepth(net, u, d) ==> d <= depth)
    && (depth == 0 || exists u :: InDraft(net, u) && HasDepth(net, u, depth))
  }

  lemma OneDepth(net: Net, u: int, d: nat, e: nat)
    requires HasDepth(net, u, d) && HasDepth(net, u, e)
    ensures d == e
  {
    EndOfWalk(net, u, d - 1);
    EndOfWalk(net, u, e - 1);
  }

  method SummarizeDraft(ix: Index, ghost net: Net) returns (chainCount: nat, maxDepth: nat)
    requires Matches(ix, net) && NoReentry(net)
    ensures chainCount == |set u | u in ix.vertices && ix.vertices[u].role == Entry && ix.vertices[u].mode == ChainMode|
    ensures Deepest(net, maxDepth)
  {
    var entries := set u | u in ix.vertices && ix.vertices[u].role == Entry && ix.vertices[u].mode == ChainMode;
    chainCount := |entries|;
    var left := set u | u in ix.vertices && ((ix.vertices[u].role in {Entry, Relay} && u in ix.outgoing) || u in ix.incoming);
    ghost var all := left;
    assert forall u :: u in all <==> InDraft(net, u);
    maxDepth := 0;
    while left != {}
      invariant left <= all
      invariant forall u: int, d: nat :: u in all && u !in left && HasDepth(net, u, d) ==> d <= maxDepth
      invariant maxDepth == 0 || exists u :: u in all && HasDepth(net, u, maxDepth)
      decreases |left|
    {
      var u := Pick(left);
      var depth := Depth(ix, u, net);
      forall d: nat | HasDepth(net, u, d) ensures d == depth {
        OneDepth(net, u, d, depth);
      }
      if depth > maxDepth {
        maxDepth := depth;
      }
      left := left - {u};
    }
  }

  // ---- Validating ----

  // What a draft must satisfy: its chains may still be incomplete.
  ghost predicate ValidDraft(g: Graph) { WellFormed(g) && NoReentry(NetOf(g)) }

  method ValidateDraftGraph(g: Graph) returns (r: Option<(nat, nat)>)
    ensures r.Some? <==> ValidDraft(g)
    ensures r.Some? ==> Deepest(NetOf(g), r.value.1)
  {
    var ix := ValidateStructure(g);
    if ix.None? { return None; }
    ghost var net := NetOf(g);
    IndexMatches(g);
    var acyclic := DetectCycle(ix.value, net);
    if !acyclic {
      ReentryFindsCycles(net);
      return None;
    }
    var distinct := DetectPhysicalReentry(ix.value, net);
    if !distinct { return None; }
    var chainCount, maxDepth := SummarizeDraft(ix.value, net);
    return Some((chainCount, maxDepth));
  }

  lemma ReentryFindsCycles(net: Net)
    ensures DepthFirst.Cyclic(Successors(net)) ==> !NoReentry(net)
  {
    if NoReentry(net) {
      ReentryRejectsCycles(net);
    }
  }

  // The inbounds that take part, and their machines, in increasing order.
  ghost predicate Lists(net: Net, inbounds: seq<int>, nodes: seq<int>) {
    && Increasing(inbounds) && Increasing(nodes)
    && (forall v :: v in inbounds <==> Participates(net, v))
    && (forall n :: n in nodes <==> MachineParticipates(net, n))
  }

  ghost predicate MachineParticipates(net: Net, n: int) {
    exists v :: v in net.vertices && Participates(net, v) && net.vertices[v].node == n
  }

  // A graph may be published exactly when it is valid.
  method ValidateGraph(g: Graph) returns (r: Option<Summary>)
    ensures r.Some? <==> Valid(g)
    ensures r.Some? ==> Deepest(NetOf(g), r.value.maxDepth) && r.value.maxDepth <= MAX_CHAIN && Lists(NetOf(g), r.value.inbounds, r.value.nodes)
  {
    var draft := ValidateDraftGraph(g);
    if draft.None? { return None; }
    var index := ValidateStructure(g);
    var ix := index.value;
    ghost var net := NetOf(g);
    IndexMatches(g);
    var complete, participating := CheckChains(ix, net);
    if !complete { return None; }
    var inbounds := SortedIds(participating);
    var nodes := SortedIds(set v | v in participating :: ix.vertices[v].node);
    NodesListed(net, participating, nodes);
    DepthBounded(net, draft.value.1);
    return Some(Summary(draft.value.0, draft.value.1, inbounds, nodes));
  }

  lemma NodesListed(net: Net, participating: set<int>, nodes: seq<int>)
    requires forall v :: v in participating <==> Participates(net, v)
    requires forall v :: v in participating ==> v in net.vertices
    requires forall n :: n in nodes <==> n in set v | v in participating :: net.vertices[v].node
    ensures forall n :: n in nodes <==> MachineParticipates(net, n)
  {
    forall n ensures n in nodes <==> MachineParticipates(net, n) {
      if n in nodes {
        var v :| v in participating && net.vertices[v].node == n;
        assert Participates(net, v);
      }
      if MachineParticipates(net, n) {
        var v :| v in net.vertices && Participates(net, v) && net.vertices[v].node == n;
        assert v in participating;
      }
    }
  }

  lemma DepthBounded(net: Net, depth: nat)
    requires SoundNet(net) && Complete(net) && Deepest(net, depth)
    ensures depth <= MAX_CHAIN
  {
    if depth > 0 {
      var u :| InDraft(net, u) && HasDepth(net, u, depth);
      DepthShort(net, u, depth);
    }
  }

  lemma DepthShort(net: Net, u: int, depth: nat)
    requires SoundNet(net) && Complete(net) && u in net.vertices && HasDepth(net, u, depth)
    ensures depth <= MAX_CHAIN
  {
    WalksAreShort(net, u, depth - 1);
  }

  ghost predicate ChainedFrom(net: Net, left: set<int>, v: int) {
    exists u, k :: u !in left && Chained(net, u) && Reaches(net, u, k, v)
  }

  method CheckChains(ix: Index, ghost net: Net) returns (ok: bool, participating: set<int>)
    requires Matches(ix, net)
    ensures ok <==> Complete(net)
    ensures ok ==> forall v :: v in participating <==> Participates(net, v)
    ensures ok ==> forall v :: v in participating ==> v in net.vertices
  {
    participating := {};
    var left := ix.vertices.Keys;
    while left != {}
      invariant left <= ix.vertices.Keys
      invariant forall u :: Chained(net, u) && u !in left ==> LandsInTime(net, u) && (net.vertices[u].role == Relay ==> HasPrevious(net, u))
      invariant forall v :: v in participating <==> ChainedFrom(net, left, v)
      decreases |left|
    {
      var u := Pick(left);
      var inbound := ix.vertices[u];
      ghost var before, todo := participating, left;
      left := left - {u};
      if (inbound.role == Entry || inbound.role == Relay) && inbound.mode == ChainMode {
        assert Chained(net, u);
        if u !in ix.incoming && inbound.role == Relay { return false, participating; }
        if u !in ix.outgoing {
          NoHopNoLanding(net, u);
          return false, participating;
        }
        ok, participating := RequireLandingPath(ix, u, participating, net);
        if !ok { return; }
        OneMoreChain(net, todo, left, u, before, participating);
      } else {
        SameChains(net, todo, left, u);
      }
    }
    forall v | v in participating ensures v in net.vertices {
      var u, k :| u !in left && Chained(net, u) && Reaches(net, u, k, v);
      WalkInside(net, u, k);
    }
    forall v ensures ChainedFrom(net, {}, v) <==> Participates(net, v) {
      EveryChain(net, v);
    }
    ok := true;
  }

  lemma EveryChain(net: Net, v: int)
    ensures ChainedFrom(net, {}, v) <==> Participates(net, v)
  {
  }

  lemma NoHopNoLanding(net: Net, u: int)
    requires SoundNet(net) && u !in net.next
    ensures !LandsInTime(net, u)
  {
    EndOfWalk(net, u, 0);
  }

  lemma SameChains(net: Net, todo: set<int>, left: set<int>, u: int)
    requires left == todo - {u} && !Chained(net, u)
    ensures forall v :: ChainedFrom(net, left, v) <==> ChainedFrom(net, todo, v)
  {
  }

  lemma OneMoreChain(net: Net, todo: set<int>, left: set<int>, u: int, before: set<int>, after: set<int>)
    requires left == todo - {u} && u in todo && Chained(net, u)
    requires forall v :: v in before <==> ChainedFrom(net, todo, v)
    requires forall v :: v in after <==> v in before || exists k :: Reaches(net, u, k, v)
    ensures forall v :: v in after <==> ChainedFrom(net, left, v)
  {
    forall v ensures v in after <==> ChainedFrom(net, left, v) {
      if ChainedFrom(net, left, v) {
        var w, k :| w !in left && Chained(net, w) && Reaches(net, w, k, v);
        assert w != u ==> ChainedFrom(net, todo, v);
      }
    }
  }
}
