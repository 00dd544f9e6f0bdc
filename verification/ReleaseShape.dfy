/**
  The shape that every release keeps, whatever acknowledgements arrive: in apply order come `b` nodes that run the
  candidate, then the nodes that were switched back, then the nodes that were only prepared. `m` counts the first two.
*/
module ReleaseShape {
  import opened Messages
  import opened ReleaseModel

  ghost predicate NodeShape(n: ReleaseNode, i: int, b: int, m: int) {
    && (i < b ==> n.phase == Apply && n.status in {Active, Applied, RollbackPending} && n.version == n.candidateVersion)
    && (b <= i < m ==> n.phase == Rollback && n.status in {Active, RolledBack, Failed})
    && (m <= i ==> n.phase == Prepare && n.status in {Pending, Prepared, Failed} && n.version == n.candidateVersion)
    && n.generation == n.candidate.previousGeneration + if b <= i < m then 2 else 1
  }

  ghost predicate Frame(nodes: seq<ReleaseNode>, b: nat, m: nat) {
    && b <= m <= |nodes|
    && DistinctNodes(nodes)
    && forall i {:trigger nodes[i]} :: 0 <= i < |nodes| ==> NodeShape(nodes[i], i, b, m)
  }

  ghost predicate Unwinding(nodes: seq<ReleaseNode>, b: nat)
    requires b <= |nodes|
  {
    forall i :: 0 <= i < b ==> nodes[i].status == RollbackPending
  }

  // Before any rollback: all activated nodes have acknowledged, except perhaps the last.
  ghost predicate Climbing(nodes: seq<ReleaseNode>, b: nat, m: nat)
    requires b <= m <= |nodes|
  {
    b == m && forall i :: 0 <= i < m ==> nodes[i].status == if i < m - 1 then Applied else Active
  }

  ghost predicate Shape(r: Release, b: nat, m: nat) {
    && Frame(r.nodes, b, m)
    && match r.status {
         case Preparing => m == 0 && forall i :: 0 <= i < |r.nodes| ==> r.nodes[i].status in {Pending, Prepared}
         case Ready => false
         case Applying => m > 0 && Climbing(r.nodes, b, m) && forall i :: m <= i < |r.nodes| ==> r.nodes[i].status == Prepared
         case Succeeded => b == m == |r.nodes| && forall i :: 0 <= i < m ==> r.nodes[i].status == Applied
         case RollingBack => b < m && Unwinding(r.nodes, b)
         case RolledBackRelease => b == 0
         case FailedRelease => Unwinding(r.nodes, b) || Climbing(r.nodes, b, m)
         case ManualRequired => Unwinding(r.nodes, b) || Climbing(r.nodes, b, m)
       }
  }

  // The candidates of a release never change.
  ghost predicate SameCandidates(old_: seq<ReleaseNode>, new_: seq<ReleaseNode>) {
    && |old_| == |new_|
    && forall i :: 0 <= i < |old_| ==> new_[i].candidate == old_[i].candidate && new_[i].candidateVersion == old_[i].candidateVersion
  }

  lemma PositionSame(old_: seq<ReleaseNode>, new_: seq<ReleaseNode>, node: int)
    requires SameCandidates(old_, new_)
    ensures Position(new_, node) == Position(old_, node)
  {
    var p, q := Position(old_, node), Position(new_, node);
    assert p < |old_| ==> new_[p].candidate.node == node;
    assert q < |new_| ==> old_[q].candidate.node == node;
  }

  lemma PositionOf(nodes: seq<ReleaseNode>, p: nat)
    requires DistinctNodes(nodes) && p < |nodes|
    ensures Position(nodes, nodes[p].candidate.node) == p
  {
    assert Position(nodes, nodes[p].candidate.node) <= p;
  }

  // A successful step of a rollback: the last standing node was switched back, or none was left.
  ghost predicate SteppedBack(before: seq<ReleaseNode>, release: int, reply: Reply, b: nat, m: nat)
    requires b <= m <= |before|
  {
    && release in reply.panel.releases
    && SameCandidates(before, reply.panel.releases[release].nodes)
    && var after := reply.panel.releases[release];
       if b == 0 then reply.events == [] && after.status == RolledBackRelease && Shape(after, 0, m)
       else reply.events == [Back(release, before[b - 1].candidate.node)] && after.status == RollingBack && Shape(after, b - 1, m)
  }

  // A successful step forward: position m was activated, or all nodes have applied.
  ghost predicate SteppedForward(before: seq<ReleaseNode>, release: int, reply: Reply, m: nat)
    requires m <= |before|
  {
    && release in reply.panel.releases
    && SameCandidates(before, reply.panel.releases[release].nodes)
    && var after := reply.panel.releases[release];
       if m == |before| then reply.events == [] && after.status == Succeeded && Shape(after, m, m)
       else reply.events == [Forward(release, before[m].candidate.node)] && after.status == Applying && Shape(after, m + 1, m + 1)
  }

  // Switching back takes the last node that still runs the candidate, or finishes the rollback.
  lemma ActivateBack(panel: Panel, release: int, b: nat, m: nat)
    requires release in panel.releases
    requires Frame(panel.releases[release].nodes, b, m) && Unwinding(panel.releases[release].nodes, b)
    ensures var reply := ActivateNext(panel, release, true);
            reply.error.None? ==> SteppedBack(panel.releases[release].nodes, release, reply, b, m)
  {
    var nodes := panel.releases[release].nodes;
    var p := PastLastWith(nodes, RollbackPending);
    assert p == b by {
      assert p > 0 ==> NodeShape(nodes[p - 1], p - 1, b, m);
      assert b > 0 ==> nodes[b - 1].status == RollbackPending;
    }
    var reply := ActivateNext(panel, release, true);
    if b > 0 && reply.error.None? {
      var after := reply.panel.releases[release].nodes;
      forall i | 0 <= i < |after| ensures NodeShape(after[i], i, b - 1, m) {
        assert NodeShape(nodes[i], i, b, m);
      }
    }
  }

  lemma Unwind(r: Release, b: nat, m: nat)
    requires Frame(r.nodes, b, m)
    ensures Frame(UnwoundNodes(r.nodes), b, m) && Unwinding(UnwoundNodes(r.nodes), b)
    ensures SameCandidates(r.nodes, UnwoundNodes(r.nodes))
    ensures forall i :: b <= i < |r.nodes| ==> UnwoundNodes(r.nodes)[i] == r.nodes[i]
  {
    var nodes := UnwoundNodes(r.nodes);
    forall i | 0 <= i < |nodes| ensures NodeShape(nodes[i], i, b, m) && (i < b ==> nodes[i].status == RollbackPending) {
      assert NodeShape(r.nodes[i], i, b, m);
    }
    forall i | b <= i < |r.nodes| ensures nodes[i] == r.nodes[i] {
      assert NodeShape(r.nodes[i], i, b, m);
    }
  }

  // Going forward activates position m once every earlier node has applied and every later one has prepared.
  lemma ActivateForward(panel: Panel, release: int, m: nat)
    requires release in panel.releases
    requires Frame(panel.releases[release].nodes, m, m)
    requires forall i :: 0 <= i < |panel.releases[release].nodes| ==>
               panel.releases[release].nodes[i].status == if i < m then Applied else Prepared
    ensures var reply := ActivateNext(panel, release, false);
            reply.error.None? ==> SteppedForward(panel.releases[release].nodes, release, reply, m)
  {
    var nodes := panel.releases[release].nodes;
    var p := FirstWith(nodes, Prepared);
    assert p == m by {
      assert m < |nodes| ==> nodes[m].status == Prepared;
    }
    var reply := ActivateNext(panel, release, false);
    if m < |nodes| && reply.error.None? {
      var after := reply.panel.releases[release].nodes;
      forall i | 0 <= i < |after| ensures NodeShape(after[i], i, m + 1, m + 1) {
        assert NodeShape(nodes[i], i, m, m);
      }
    }
  }

  lemma BeginRollbackShape(panel: Panel, release: int, b: nat, m: nat)
    requires release in panel.releases && Frame(panel.releases[release].nodes, b, m)
    ensures var reply := BeginRollback(panel, release);
            reply.error.None? ==> SteppedBack(panel.releases[release].nodes, release, reply, b, m)
  {
    var r := panel.releases[release];
    Unwind(r, b, m);
    ActivateBack(panel.(releases := panel.releases[release := r.(nodes := UnwoundNodes(r.nodes))]), release, b, m);
  }
}
