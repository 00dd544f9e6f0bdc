/**
  The order in which the machines of an accepted graph are deployed: by their largest distance to a landing, then by
  identity. It is downstream first wherever the downstream inbound attains the distance of its own machine.
*/
module TopologyOrder {
  import opened Common
  import opened TopologyGraph
  import opened TopologyChains
  import opened TopologyValidate

  function DistanceIn(distances: map<int, int>, n: int): int {
    if n in distances then distances[n] else 0
  }

  // ---- What the distances mean ----

  ghost predicate OnNode(net: Net, v: int, n: int) { v in net.vertices && net.vertices[v].node == n }

  // Some inbound of the machine is this many hops from its landing.
  ghost predicate Attains(net: Net, n: int, d: int) {
    d >= 0 && exists v :: Participates(net, v) && OnNode(net, v, n) && Lands(net, v, d)
  }

  ghost predicate AtMost(net: Net, n: int, d: int) {
    forall v: int, k: nat :: Participates(net, v) && OnNode(net, v, n) && Lands(net, v, k) ==> k <= d
  }

  // The distance of a machine is the largest among its inbounds.
  ghost predicate LargestDistance(net: Net, n: int, d: int) { Attains(net, n, d) && AtMost(net, n, d) }

  ghost predicate Comes(distances: map<int, int>, m: int, n: int) {
    DistanceIn(distances, m) < DistanceIn(distances, n) || (DistanceIn(distances, m) == DistanceIn(distances, n) && m < n)
  }

  ghost predicate SortedBy(distances: map<int, int>, order: seq<int>) {
    forall i, j :: 0 <= i < j < |order| ==> Comes(distances, order[i], order[j])
  }

  // The specification of the deployment order.
  ghost predicate IsOrder(net: Net, distances: map<int, int>, order: seq<int>) {
    && SortedBy(distances, order)
    && (forall n :: n in order <==> MachineParticipates(net, n))
    && (forall n :: MachineParticipates(net, n) ==> LargestDistance(net, n, DistanceIn(distances, n)))
  }

  // ---- Computing the distances ----

  // The distances so far are attained, and the walks of the entries that are done are accounted for.
  ghost predicate Sofar(net: Net, distances: map<int, int>, left: set<int>) {
    AllAttained(net, distances) && AllAccounted(net, distances, left)
  }

  ghost predicate AllAttained(net: Net, distances: map<int, int>) {
    forall n :: n in distances ==> distances[n] > 0 && Attains(net, n, distances[n])
  }

  ghost predicate AllAccounted(net: Net, distances: map<int, int>, left: set<int>) {
    forall e, i, v :: ChainEntry(net, e) && e !in left ==> Accounted(net, distances, e, i, v)
  }

  ghost predicate Accounted(net: Net, distances: map<int, int>, e: int, i: nat, v: int) {
    Reaches(net, e, i, v) && v in net.vertices ==>
      forall k: nat :: Lands(net, v, k) ==> DistanceIn(distances, net.vertices[v].node) >= k
  }

  function Raised(distances: map<int, int>, n: int, d: int): map<int, int> {
    if d > DistanceIn(distances, n) then distances[n := d] else distances
  }

  method PathDepth(ix: Index, start: int, ghost net: Net) returns (depth: nat)
    requires Matches(ix, net) && Complete(net) && Chained(net, start)
    ensures depth >= 1 && Lands(net, start, depth - 1)
  {
    depth := 1;
    var current := start;
    while ix.vertices[current].role != Landing
      invariant 1 <= depth <= MAX_CHAIN && Reaches(net, start, depth - 1, current) && current in ix.vertices
      decreases MAX_CHAIN - depth
    {
      HopInIndex(ix, net, start, depth - 1, current);
      current := ix.outgoing[current][0].to;
      depth := depth + 1;
    }
  }

  lemma HopInIndex(ix: Index, net: Net, start: int, k: nat, current: int)
    requires Matches(ix, net) && Complete(net) && Chained(net, start) && Reaches(net, start, k, current)
    requires current in ix.vertices && ix.vertices[current].role != Landing
    ensures current in ix.outgoing && |ix.outgoing[current]| == 1
    ensures Reaches(net, start, k + 1, ix.outgoing[current][0].to) && ix.outgoing[current][0].to in ix.vertices && k + 1 < MAX_CHAIN
  {
    HopsOn(net, start, k, current);
    WalksAreShort(net, start, k + 1);
  }

  // Before its landing, a walk from a chain goes on.
  lemma HopsOn(net: Net, start: int, k: nat, current: int)
    requires SoundNet(net) && Complete(net) && Chained(net, start) && Reaches(net, start, k, current)
    requires current in net.vertices && net.vertices[current].role != Landing
    ensures current in net.next && GoodHop(net, current) && Reaches(net, start, k + 1, net.next[current])
  {
    var n :| MIN_CHAIN - 1 <= n <= MAX_CHAIN - 1 && Lands(net, start, n);
    if current !in net.next {
      StopsAtLanding(net, start, k, n, current);
      assert false;
    }
  }

  lemma StopsAtLanding(net: Net, start: int, k: nat, n: nat, current: int)
    requires SoundNet(net) && Lands(net, start, n) && Reaches(net, start, k, current) && current !in net.next
    ensures k == n
  {
    EndOfWalk(net, start, k);
    if n < k {
      LandingEnds(net, start, n, k - n);
    }
  }

  // The walk of an entry has been measured up to its hop k, which is at `current`.
  ghost predicate Measuring(net: Net, r: map<int, int>, entry: int, k: nat, n: nat, current: int, left: set<int>) {
    && k <= n && Lands(net, entry, n) && Reaches(net, entry, k, current) && current in net.vertices
    && Sofar(net, r, left) && MeasuredTo(net, r, entry, k, n)
  }

  method MeasureEntry(ix: Index, entry: int, distances: map<int, int>, ghost net: Net, ghost left: set<int>) returns (r: map<int, int>)
    requires Matches(ix, net) && Complete(net) && ChainEntry(net, entry) && Sofar(net, distances, left + {entry})
    ensures Sofar(net, r, left)
  {
    var depth := PathDepth(ix, entry, net);
    r := Raised(distances, ix.vertices[entry].node, depth - 1);
    FirstHop(net, distances, r, entry, depth - 1, left + {entry});
    r := MeasureWalk(ix, entry, depth - 1, r, net, left);
  }

  method MeasureWalk(ix: Index, entry: int, n: nat, first: map<int, int>, ghost net: Net, ghost left: set<int>) returns (r: map<int, int>)
    requires Matches(ix, net) && ChainEntry(net, entry) && Measuring(net, first, entry, 0, n, entry, left + {entry})
    ensures Sofar(net, r, left)
  {
    r := first;
    var distance := n;
    var current := entry;
    var done := false;
    while !done && current in ix.outgoing
      invariant 0 <= distance <= n && Measuring(net, r, entry, n - distance, n, current, left + {entry})
      invariant done ==> ix.vertices[current].role == Landing
      decreases distance
    {
      HopTaken(ix, net, r, entry, n - distance, n, current, left + {entry});
      var target := ix.vertices[ix.outgoing[current][0].to];
      NextHop(ix, net, r, Raised(r, target.node, distance - 1), entry, n - distance, n, current, target, left + {entry});
      distance := distance - 1;
      r := Raised(r, target.node, distance);
      current := target.id;
      done := target.role == Landing;
    }
    LastHop(ix, net, r, entry, n - distance, n, current, left);
  }

  lemma LastHop(ix: Index, net: Net, r: map<int, int>, entry: int, k: nat, n: nat, current: int, left: set<int>)
    requires Matches(ix, net) && Measuring(net, r, entry, k, n, current, left + {entry})
    requires current !in ix.outgoing || ix.vertices[current].role == Landing
    ensures Sofar(net, r, left)
  {
    EndsAtLanding(net, entry, k, n, current);
    AllMeasured(net, r, left, entry, n);
  }

  ghost predicate MeasuredTo(net: Net, distances: map<int, int>, entry: int, k: nat, n: nat) {
    forall i: nat :: i <= k ==> Measured(net, distances, entry, i, n)
  }

  lemma FirstHop(net: Net, before: map<int, int>, r: map<int, int>, entry: int, n: nat, left: set<int>)
    requires SoundNet(net) && Sofar(net, before, left) && ChainEntry(net, entry) && Lands(net, entry, n)
    requires r == Raised(before, net.vertices[entry].node, n)
    ensures Measuring(net, r, entry, 0, n, entry, left)
  {
    assert Reaches(net, entry, 0, entry);
    RaisedKeeps(net, before, net.vertices[entry].node, entry, entry, 0, n, left);
  }

  lemma HopTaken(ix: Index, net: Net, before: map<int, int>, entry: int, k: nat, n: nat, current: int, left: set<int>)
    requires Matches(ix, net) && Measuring(net, before, entry, k, n, current, left) && current in ix.outgoing
    ensures k < n && |ix.outgoing[current]| == 1 && ix.outgoing[current][0].to in ix.vertices
  {
    assert GoodHop(net, current);
    NotYet(net, entry, k, n);
  }

  lemma NextHop(ix: Index, net: Net, before: map<int, int>, r: map<int, int>, entry: int, k: nat, n: nat, current: int, target: Inbound, left: set<int>)
    requires Matches(ix, net) && ChainEntry(net, entry) && Measuring(net, before, entry, k, n, current, left) && current in ix.outgoing
    requires |ix.outgoing[current]| == 1 && ix.outgoing[current][0].to in ix.vertices && target == ix.vertices[ix.outgoing[current][0].to]
    requires k < n && r == Raised(before, target.node, n - (k + 1))
    ensures Measuring(net, r, entry, k + 1, n, target.id, left)
  {
    assert GoodHop(net, current);
    NextMeasured(net, before, entry, k, n, current, left);
  }

  lemma NextMeasured(net: Net, before: map<int, int>, entry: int, k: nat, n: nat, current: int, left: set<int>)
    requires SoundNet(net) && ChainEntry(net, entry) && Measuring(net, before, entry, k, n, current, left) && k < n && GoodHop(net, current)
    ensures Measuring(net, Raised(before, net.vertices[net.next[current]].node, n - (k + 1)), entry, k + 1, n, net.next[current], left)
  {
    var target := net.next[current];
    assert Reaches(net, entry, k + 1, target);
    var machine := net.vertices[target].node;
    RaisedKeeps(net, before, machine, entry, target, k + 1, n, left);
    var r := Raised(before, machine, n - (k + 1));
    forall i: nat | i <= k ensures Measured(net, r, entry, i, n) {
      assert Measured(net, before, entry, i, n);
    }
  }

  // The inbound after i of the n hops has its distance accounted for.
  ghost predicate Measured(net: Net, distances: map<int, int>, entry: int, i: nat, n: nat) {
    forall v :: Reaches(net, entry, i, v) && v in net.vertices ==> DistanceIn(distances, net.vertices[v].node) >= n - i
  }

  lemma NotYet(net: Net, entry: int, k: nat, n: nat)
    requires SoundNet(net) && Lands(net, entry, n) && k <= n && Walk(net, entry, k).Some? && Walk(net, entry, k).value in net.next
    ensures k < n
  {
    assert GoodHop(net, Walk(net, entry, k).value);
  }

  lemma EndsAtLanding(net: Net, entry: int, k: nat, n: nat, current: int)
    requires SoundNet(net) && Lands(net, entry, n) && k <= n && Reaches(net, entry, k, current) && current in net.vertices
    requires current !in net.next || net.vertices[current].role == Landing
    ensures k == n
  {
    if current !in net.next {
      StopsAtLanding(net, entry, k, n, current);
    } else {
      LandsOnce(net, entry, k, n);
    }
  }

  // Raising the distance of a machine to that of an inbound on it.
  lemma RaisedKeeps(net: Net, before: map<int, int>, machine: int, entry: int, v: int, i: nat, n: nat, left: set<int>)
    requires SoundNet(net) && Sofar(net, before, left) && ChainEntry(net, entry) && Lands(net, entry, n) && i <= n
    requires Reaches(net, entry, i, v) && OnNode(net, v, machine)
    ensures Sofar(net, Raised(before, machine, n - i), left)
    ensures forall m :: DistanceIn(Raised(before, machine, n - i), m) >= DistanceIn(before, m)
    ensures Measured(net, Raised(before, machine, n - i), entry, i, n)
  {
    var after := Raised(before, machine, n - i);
    LandsFrom(net, entry, i, n, v);
    assert Chained(net, entry) && Participates(net, v);
    forall m | m in after ensures after[m] > 0 && Attains(net, m, after[m]) {
      if m !in before || after[m] != before[m] {
        assert Lands(net, v, n - i);
      }
    }
    forall e, j, w | ChainEntry(net, e) && e !in left ensures Accounted(net, after, e, j, w) {
      assert Accounted(net, before, e, j, w);
    }
  }

  lemma LandsFrom(net: Net, entry: int, i: nat, n: nat, v: int)
    requires Lands(net, entry, n) && i <= n && Reaches(net, entry, i, v)
    ensures Lands(net, v, n - i)
  {
    WalkOn(net, entry, i, n - i);
  }

  lemma AllMeasured(net: Net, r: map<int, int>, left: set<int>, entry: int, n: nat)
    requires SoundNet(net) && Sofar(net, r, left + {entry}) && Lands(net, entry, n)
    requires MeasuredTo(net, r, entry, n, n)
    ensures Sofar(net, r, left)
  {
    forall e, i: nat, v | ChainEntry(net, e) && e !in left ensures Accounted(net, r, e, i, v) {
      if e == entry {
        EntryAccounted(net, r, entry, i, v, n);
      }
    }
  }

  lemma EntryAccounted(net: Net, r: map<int, int>, entry: int, i: nat, v: int, n: nat)
    requires SoundNet(net) && Lands(net, entry, n)
    requires MeasuredTo(net, r, entry, n, n)
    ensures Accounted(net, r, entry, i, v)
  {
    if Reaches(net, entry, i, v) && v in net.vertices {
      if i > n {
        LandingEnds(net, entry, n, i - n);
      } else {
        assert Measured(net, r, entry, i, n);
        LandsFrom(net, entry, i, n, v);
        forall k: nat | Lands(net, v, k) ensures k == n - i {
          LandsOnce(net, v, k, n - i);
        }
      }
    }
  }

  method Distances(ix: Index, ghost net: Net) returns (distances: map<int, int>)
    requires Matches(ix, net) && Complete(net)
    ensures Sofar(net, distances, {})
  {
    distances := map[];
    var left := ix.vertices.Keys;
    while left != {}
      invariant left <= ix.vertices.Keys && Sofar(net, distances, left)
      decreases |left|
    {
      var u := Pick(left);
      var inbound := ix.vertices[u];
      assert left == left - {u} + {u};
      if inbound.role == Entry && inbound.mode == ChainMode {
        distances := MeasureEntry(ix, u, distances, net, left - {u});
      }
      left := left - {u};
    }
  }

  // ---- The order ----

  lemma DistancesLargest(g: Graph, distances: map<int, int>)
    requires Valid(g) && Sofar(NetOf(g), distances, {})
    ensures forall n :: MachineParticipates(NetOf(g), n) ==> LargestDistance(NetOf(g), n, DistanceIn(distances, n))
  {
    var net := NetOf(g);
    WellFormedSound(g);
    forall n | MachineParticipates(net, n) ensures LargestDistance(net, n, DistanceIn(distances, n)) {
      forall v: int, k: nat | Participates(net, v) && OnNode(net, v, n) && Lands(net, v, k) ensures k <= DistanceIn(distances, n) {
        EntryReaches(g, distances, v, k);
      }
      if n !in distances {
        NoDistance(g, n, distances);
      }
    }
  }

  lemma EntryReaches(g: Graph, distances: map<int, int>, v: int, k: nat)
    requires Valid(g) && Sofar(NetOf(g), distances, {}) && Participates(NetOf(g), v) && v in NetOf(g).vertices && Lands(NetOf(g), v, k)
    ensures k <= DistanceIn(distances, NetOf(g).vertices[v].node)
  {
    var net := NetOf(g);
    ReachedFromEntry(g, v);
    var e, i :| ChainEntry(net, e) && Reaches(net, e, i, v);
    assert Accounted(net, distances, e, i, v);
  }

  // A machine without a distance only has landings.
  lemma NoDistance(g: Graph, n: int, distances: map<int, int>)
    requires Valid(g) && MachineParticipates(NetOf(g), n) && AtMost(NetOf(g), n, 0)
    ensures Attains(NetOf(g), n, 0)
  {
    var net := NetOf(g);
    var v :| v in net.vertices && Participates(net, v) && net.vertices[v].node == n;
    var k := LandsSomewhere(g, v);
    assert OnNode(net, v, n) && Lands(net, v, 0);
  }

  lemma LandsSomewhere(g: Graph, v: int) returns (k: nat)
    requires Valid(g) && Participates(NetOf(g), v)
    ensures Lands(NetOf(g), v, k)
  {
    var net := NetOf(g);
    WellFormedSound(g);
    var u, i :| Chained(net, u) && Reaches(net, u, i, v);
    var n :| MIN_CHAIN - 1 <= n <= MAX_CHAIN - 1 && Lands(net, u, n);
    k := LandsAfter(net, u, i, n, v);
  }

  lemma LandsAfter(net: Net, u: int, i: nat, n: nat, v: int) returns (k: nat)
    requires SoundNet(net) && Lands(net, u, n) && Reaches(net, u, i, v)
    ensures Lands(net, v, k)
  {
    if i > n {
      LandingEnds(net, u, n, i - n);
    }
    LandsFrom(net, u, i, n, v);
    k := n - i;
  }

  method DeploymentOrder(g: Graph) returns (r: Option<seq<int>>, ghost distances: map<int, int>)
    ensures r.Some? <==> Valid(g)
    ensures r.Some? ==> IsOrder(NetOf(g), distances, r.value)
  {
    distances := map[];
    var summary := ValidateGraph(g);
    if summary.None? { return None, distances; }
    var index := ValidateStructure(g);
    ghost var net := NetOf(g);
    IndexMatches(g);
    var measured := Distances(index.value, net);
    DistancesLargest(g, measured);
    var order := SortByDistance(summary.value.nodes, measured);
    return Some(order), measured;
  }

  method SortByDistance(nodes: seq<int>, distances: map<int, int>) returns (order: seq<int>)
    requires Increasing(nodes)
    ensures SortedBy(distances, order) && forall n :: n in order <==> n in nodes
  {
    order := [];
    var i := 0;
    while i < |nodes|
      invariant i <= |nodes| && SortedBy(distances, order)
      invariant forall n :: n in order <==> n in nodes[..i]
    {
      var before := order;
      assert nodes[i] !in nodes[..i];
      order := Place(order, nodes[i], distances);
      assert nodes[..i + 1] == nodes[..i] + [nodes[i]];
      i := i + 1;
    }
    assert nodes[..i] == nodes;
  }

  method Place(order: seq<int>, n: int, distances: map<int, int>) returns (r: seq<int>)
    requires SortedBy(distances, order) && n !in order
    ensures SortedBy(distances, r) && forall m :: m in r <==> m in order || m == n
  {
    var i := 0;
    while i < |order| && (DistanceIn(distances, order[i]) < DistanceIn(distances, n)
                          || (DistanceIn(distances, order[i]) == DistanceIn(distances, n) && order[i] < n))
      invariant i <= |order| && forall j :: 0 <= j < i ==> Comes(distances, order[j], n)
    {
      i := i + 1;
    }
    r := order[..i] + [n] + order[i..];
    Placed(order, n, i, distances, r);
  }

  lemma Placed(order: seq<int>, n: int, i: nat, distances: map<int, int>, r: seq<int>)
    requires SortedBy(distances, order) && n !in order && i <= |order| && r == order[..i] + [n] + order[i..]
    requires (forall j :: 0 <= j < i ==> Comes(distances, order[j], n)) && (i < |order| ==> !Comes(distances, order[i], n))
    ensures SortedBy(distances, r) && forall m :: m in r <==> m in order || m == n
  {
    assert order == order[..i] + order[i..];
    forall j | i <= j < |order| ensures Comes(distances, n, order[j]) {
      assert order[j] in order && order[i] in order;
      assert i < j ==> Comes(distances, order[i], order[j]);
    }
    forall j, k | 0 <= j < k < |r| ensures Comes(distances, r[j], r[k]) {
      assert r[j] == if j < i then order[j] else if j == i then n else order[j - 1];
      assert r[k] == if k < i then order[k] else if k == i then n else order[k - 1];
    }
  }

  // ---- What the order promises ----

  // Every machine that takes part is listed exactly once.
  lemma ListedOnce(net: Net, distances: map<int, int>, order: seq<int>, i: nat, j: nat)
    requires IsOrder(net, distances, order) && i < |order| && j < |order| && order[i] == order[j]
    ensures i == j && MachineParticipates(net, order[i])
  {
    assert order[i] in order;
  }

  lemma Earlier(distances: map<int, int>, order: seq<int>, p: nat, q: nat)
    requires SortedBy(distances, order) && p < |order| && q < |order| && Comes(distances, order[p], order[q])
    ensures p < q
  {
  }

  // A hop goes down: when its target attains the distance of its own machine, that machine is deployed first.
  lemma DownstreamFirst(g: Graph, distances: map<int, int>, order: seq<int>, u: int, k: nat, p: nat, q: nat)
    requires Valid(g) && IsOrder(NetOf(g), distances, order) && p < |order| && q < |order|
    requires u in NetOf(g).next && OnNode(NetOf(g), u, order[q]) && OnNode(NetOf(g), NetOf(g).next[u], order[p])
    requires Lands(NetOf(g), NetOf(g).next[u], k) && LargestDistance(NetOf(g), order[p], k)
    ensures p < q
  {
    var net := NetOf(g);
    WellFormedSound(g);
    SourceChained(net, u);
    LandsShift(net, u, k);
    assert Reaches(net, u, 0, u) && Participates(net, u);
    assert order[p] in order && order[q] in order;
    assert MachineParticipates(net, order[q]) && MachineParticipates(net, order[p]);
    OneLargest(net, order[p], k, DistanceIn(distances, order[p]));
    assert AtMost(net, order[q], DistanceIn(distances, order[q]));
    Earlier(distances, order, p, q);
  }

  lemma OneLargest(net: Net, n: int, d: int, e: int)
    requires LargestDistance(net, n, d) && LargestDistance(net, n, e)
    ensures d == e
  {
  }

  // ---- Exactly when a hop goes to a machine that is deployed earlier ----

  lemma ListedDistance(net: Net, distances: map<int, int>, order: seq<int>, i: nat)
    requires IsOrder(net, distances, order) && i < |order|
    ensures LargestDistance(net, order[i], DistanceIn(distances, order[i]))
  {
    assert order[i] in order;
    assert MachineParticipates(net, order[i]);
  }

  ghost predicate Precedes(m: int, d: int, n: int, e: int) {
    d < e || (d == e && m < n)
  }

  // For a hop between listed machines: the target's machine comes first exactly when its largest distance is smaller, or
  // the same and its identity is.
  lemma EarlierExactly(net: Net, distances: map<int, int>, order: seq<int>, p: nat, q: nat, d: int, e: int)
    requires IsOrder(net, distances, order) && p < |order| && q < |order|
    requires LargestDistance(net, order[p], d) && LargestDistance(net, order[q], e)
    ensures p < q <==> Precedes(order[p], d, order[q], e)
  {
    ListedDistance(net, distances, order, p);
    ListedDistance(net, distances, order, q);
    OneLargest(net, order[p], d, DistanceIn(distances, order[p]));
    OneLargest(net, order[q], e, DistanceIn(distances, order[q]));
    if p < q {
      assert Comes(distances, order[p], order[q]);
    } else if q < p {
      assert Comes(distances, order[q], order[p]);
    }
  }

  ghost predicate IsHop(net: Net, u: int) {
    u in net.next && u in net.vertices && net.next[u] in net.vertices
  }

  // The machine of the hop's target is deployed before the machine of its source.
  ghost predicate TargetEarlier(net: Net, order: seq<int>, u: int)
    requires IsHop(net, u)
  {
    exists p, q :: 0 <= p < q < |order| && order[p] == net.vertices[net.next[u]].node && order[q] == net.vertices[u].node
  }

  // What the graph alone says: the machine of the target is closer to its farthest landing, or as close and of smaller identity.
  ghost predicate Descends(net: Net, u: int)
    requires IsHop(net, u)
  {
    exists d, e :: && LargestDistance(net, net.vertices[net.next[u]].node, d) && LargestDistance(net, net.vertices[u].node, e)
                   && Precedes(net.vertices[net.next[u]].node, d, net.vertices[u].node, e)
  }

  lemma HopsAreListed(net: Net, distances: map<int, int>, order: seq<int>, u: int) returns (p: nat, q: nat)
    requires SoundNet(net) && u in net.next && IsOrder(net, distances, order)
    ensures IsHop(net, u) && p < |order| && q < |order|
    ensures order[p] == net.vertices[net.next[u]].node && order[q] == net.vertices[u].node
  {
    var v := net.next[u];
    SourceChained(net, u);
    assert GoodHop(net, u);
    assert Reaches(net, u, 0, u) && Reaches(net, u, 1, v);
    assert Participates(net, u) && Participates(net, v);
    assert MachineParticipates(net, net.vertices[u].node) && MachineParticipates(net, net.vertices[v].node);
    assert net.vertices[v].node in order && net.vertices[u].node in order;
    p :| 0 <= p < |order| && order[p] == net.vertices[v].node;
    q :| 0 <= q < |order| && order[q] == net.vertices[u].node;
  }

  lemma HopExactly(net: Net, distances: map<int, int>, order: seq<int>, u: int)
    requires SoundNet(net) && u in net.next && IsOrder(net, distances, order)
    ensures IsHop(net, u) && (TargetEarlier(net, order, u) <==> Descends(net, u))
  {
    var p, q := HopsAreListed(net, distances, order, u);
    ListedDistance(net, distances, order, p);
    ListedDistance(net, distances, order, q);
    var d, e := DistanceIn(distances, order[p]), DistanceIn(distances, order[q]);
    EarlierExactly(net, distances, order, p, q, d, e);
    if TargetEarlier(net, order, u) {
      var i, j :| 0 <= i < j < |order| && order[i] == net.vertices[net.next[u]].node && order[j] == net.vertices[u].node;
      ListedOnce(net, distances, order, i, p);
      ListedOnce(net, distances, order, j, q);
    }
    if Descends(net, u) {
      var d', e' :| LargestDistance(net, order[p], d') && LargestDistance(net, order[q], e') && Precedes(order[p], d', order[q], e');
      EarlierExactly(net, distances, order, p, q, d', e');
    }
  }

  // The order of an accepted graph is downstream first throughout, if and only if every hop of the graph descends.
  lemma DownstreamFirstExactly(g: Graph, distances: map<int, int>, order: seq<int>)
    requires Valid(g) && IsOrder(NetOf(g), distances, order)
    ensures forall u :: u in NetOf(g).next ==> IsHop(NetOf(g), u)
    ensures (forall u :: u in NetOf(g).next ==> TargetEarlier(NetOf(g), order, u)) <==>
            (forall u :: u in NetOf(g).next ==> Descends(NetOf(g), u))
  {
    var net := NetOf(g);
    WellFormedSound(g);
    forall u | u in net.next ensures IsHop(net, u) && (TargetEarlier(net, order, u) <==> Descends(net, u)) {
      HopExactly(net, distances, order, u);
    }
  }
}
