/**
  One ladder for the nodes of a release. When an agent acknowledges a preparation only once, every transaction moves
  nodes up the ladder, and only the acknowledgement of a node moves it off its first rung.
*/
module ReleaseClimb {
  import opened Messages
  import opened ReleaseModel
  import opened ReleaseShape
  import opened ReleaseHistory

  function Stage(n: ReleaseNode): nat {
    match n.phase
    case Prepare => if n.status == Pending then 0 else 1
    case Apply => if n.status == Active then 2 else if n.status == Applied then 3 else 4
    case Rollback => if n.status == Active then 5 else 6
  }

  // The number of acknowledgements that a node can have taken to get where it is.
  function Rank(n: ReleaseNode): nat {
    var s := Stage(n);
    if s == 0 then 0 else if s <= 2 then 1 else if s <= 5 then 2 else 3
  }

  function TotalRank(nodes: seq<ReleaseNode>): nat {
    if nodes == [] then 0 else TotalRank(nodes[..|nodes| - 1]) + Rank(nodes[|nodes| - 1])
  }

  ghost predicate DeadEnd(n: ReleaseNode) {
    n.phase == Prepare && n.status == Failed
  }

  ghost predicate Climbs(x: ReleaseNode, y: ReleaseNode) {
    && y.candidate == x.candidate && y.candidateVersion == x.candidateVersion
    && Stage(x) <= Stage(y)
    && (Stage(x) == Stage(y) || DeadEnd(x) ==> y == x)
  }

  ghost predicate AllClimb(before: seq<ReleaseNode>, after: seq<ReleaseNode>) {
    && |before| == |after|
    && forall i :: 0 <= i < |before| ==> Climbs(before[i], after[i])
  }

  // Nodes other than p stay on the first rung, and p leaves its rung.
  ghost predicate Only(before: seq<ReleaseNode>, after: seq<ReleaseNode>, p: nat)
    requires |before| == |after|
  {
    && (forall i :: 0 <= i < |before| && i != p && Stage(before[i]) == 0 ==> Stage(after[i]) == 0)
    && (p < |before| ==> Stage(before[p]) in {0, 2, 5} && Stage(before[p]) < Stage(after[p]))
  }

  lemma {:induction false} RankMonotone(before: seq<ReleaseNode>, after: seq<ReleaseNode>)
    requires AllClimb(before, after)
    ensures TotalRank(before) <= TotalRank(after)
  {
    if before != [] {
      var k := |before| - 1;
      assert Climbs(before[k], after[k]);
      RankMonotone(before[..k], after[..k]);
    }
  }

  lemma {:induction false} RankRises(before: seq<ReleaseNode>, after: seq<ReleaseNode>, p: nat)
    requires AllClimb(before, after) && p < |before|
    requires Stage(before[p]) in {0, 2, 5} && Stage(before[p]) < Stage(after[p])
    ensures TotalRank(before) + 1 <= TotalRank(after)
  {
    var k := |before| - 1;
    assert Climbs(before[k], after[k]);
    if p == k {
      RankMonotone(before[..k], after[..k]);
    } else {
      RankRises(before[..k], after[..k], p);
    }
  }

  lemma {:induction false} RankBound(nodes: seq<ReleaseNode>)
    ensures TotalRank(nodes) <= 3 * |nodes|
  {
    if nodes != [] {
      RankBound(nodes[..|nodes| - 1]);
    }
  }

  // ---- How a release behaves when preparations are acknowledged once ----

  // Once somebody has been activated, everybody else stays prepared; a failed release has activated nobody.
  ghost predicate Tidy(r: Release) {
    && (r.status == FailedRelease ==> forall i :: 0 <= i < |r.nodes| ==> r.nodes[i].phase == Prepare)
    && forall i, j :: 0 <= i < |r.nodes| && 0 <= j < |r.nodes| && r.nodes[i].phase != Prepare && r.nodes[j].phase == Prepare ==>
         r.nodes[j].status == Prepared
  }

  // What a transaction does to the deployment rows and generations: it may switch one node of its release.
  ghost predicate Switches(before: Panel, after: Panel, release: int, p: nat)
    requires release in before.releases && release in after.releases
    requires |after.releases[release].nodes| == |before.releases[release].nodes|
  {
    var old_, new_ := before.releases[release].nodes, after.releases[release].nodes;
    if p >= |old_| then
      && after.rows == before.rows && after.generations == before.generations
      && forall i :: 0 <= i < |old_| ==> new_[i].phase == old_[i].phase
    else
      var node := new_[p].candidate.node;
      && after.rows == before.rows[node := Row(Target(new_[p], new_[p].phase), release, new_[p].generation)]
      && after.generations == before.generations[node := new_[p].generation]
      && old_[p].phase != new_[p].phase
      && (new_[p].phase == Apply ==> after.releases[release].status == Applying)
      && forall i :: 0 <= i < |old_| && i != p ==> new_[i].phase == old_[i].phase
  }

  // The effect of a transaction on a live release: nodes climb, node p by acknowledgement, and node q switches.
  ghost predicate Climb(before: Panel, reply: Reply, release: int, p: nat, q: nat) {
    && Moves(before, reply, release)
    && before.releases[release].status in LIVE
    && var old_, new_ := before.releases[release].nodes, reply.panel.releases[release].nodes;
       AllClimb(old_, new_) && Only(old_, new_, p) && Switches(before, reply.panel, release, q)
  }

  ghost predicate SamePhases(before: seq<ReleaseNode>, after: seq<ReleaseNode>)
    requires |before| == |after|
  {
    forall i :: 0 <= i < |before| ==> after[i].phase == before[i].phase
  }

  lemma ClimbTransitive(x: seq<ReleaseNode>, y: seq<ReleaseNode>, z: seq<ReleaseNode>)
    requires AllClimb(x, y) && AllClimb(y, z)
    ensures AllClimb(x, z)
  {
    forall i | 0 <= i < |x| ensures Climbs(x[i], z[i]) {
      assert Climbs(x[i], y[i]) && Climbs(y[i], z[i]);
    }
  }

  lemma OneClimbs(nodes: seq<ReleaseNode>, p: nat, n: ReleaseNode)
    requires p < |nodes| && Climbs(nodes[p], n)
    ensures AllClimb(nodes, nodes[p := n])
  {
  }

  lemma UnwindClimbs(r: Release, b: nat, m: nat)
    requires Frame(r.nodes, b, m)
    ensures AllClimb(r.nodes, UnwoundNodes(r.nodes))
  {
    var nodes := UnwoundNodes(r.nodes);
    forall i | 0 <= i < |nodes| ensures Climbs(r.nodes[i], nodes[i]) {
      assert NodeShape(r.nodes[i], i, b, m) && nodes[i] == Unwound(r.nodes[i]);
    }
  }

  // Activating the next node, seen from an earlier state of the same transaction.
  lemma ActivateClimbs(before: Panel, told: Panel, release: int, rollback: bool, b: nat, m: nat) returns (q: nat)
    requires release in before.releases && release in told.releases
    requires told == before.(releases := before.releases[release := told.releases[release]])
    requires Frame(told.releases[release].nodes, b, m)
    requires AllClimb(before.releases[release].nodes, told.releases[release].nodes)
    requires SamePhases(before.releases[release].nodes, told.releases[release].nodes)
    requires rollback ==> Unwinding(told.releases[release].nodes, b)
    ensures var reply := ActivateNext(told, release, rollback);
            reply.error.None? ==>
              && Moves(before, reply, release)
              && AllClimb(before.releases[release].nodes, reply.panel.releases[release].nodes)
              && AllClimb(told.releases[release].nodes, reply.panel.releases[release].nodes)
              && Switches(before, reply.panel, release, q)
              && (q < |told.releases[release].nodes| ==>
                    && reply.panel.releases[release].nodes == told.releases[release].nodes[q := reply.panel.releases[release].nodes[q]]
                    && reply.panel.releases[release].nodes[q].phase == (if rollback then Rollback else Apply)
                    && Stage(told.releases[release].nodes[q]) == if rollback then 4 else 1)
              && (q >= |told.releases[release].nodes| ==> reply.panel.releases[release].nodes == told.releases[release].nodes)
  {
    var nodes := told.releases[release].nodes;
    var reply := ActivateNext(told, release, rollback);
    if rollback {
      var p := PastLastWith(nodes, RollbackPending);
      q := if p == 0 then |nodes| else p - 1;
    } else {
      q := FirstWith(nodes, Prepared);
    }
    if reply.error.None? {
      SwitchMoves(told, release, rollback);
      MovesAfter(before, told, reply, release);
      if q < |nodes| {
        assert NodeShape(nodes[q], q, b, m);
        OneClimbs(nodes, q, reply.panel.releases[release].nodes[q]);
        ClimbTransitive(before.releases[release].nodes, nodes, reply.panel.releases[release].nodes);
      }
    }
  }

  ghost predicate Unrolled(before: Panel, reply: Reply, release: int, q: nat) {
    && Moves(before, reply, release)
    && var old_, new_ := before.releases[release].nodes, reply.panel.releases[release].nodes;
       && AllClimb(old_, new_) && Switches(before, reply.panel, release, q)
       && (forall i :: 0 <= i < |old_| && old_[i].phase != Apply ==> new_[i] == old_[i])
       && (forall i :: 0 <= i < |old_| && old_[i].phase == Apply ==> Stage(new_[i]) >= 4)
       && reply.panel.releases[release].status in {RollingBack, RolledBackRelease}
  }

  lemma UnwoundClimbs(before: Panel, unwound: Panel, release: int, b: nat, m: nat) returns (q: nat)
    requires release in before.releases && release in unwound.releases
    requires unwound == before.(releases := before.releases[release := unwound.releases[release]])
    requires Frame(before.releases[release].nodes, b, m)
    requires unwound.releases[release].nodes == UnwoundNodes(before.releases[release].nodes)
    ensures var reply := ActivateNext(unwound, release, true);
            reply.error.None? ==> Unrolled(before, reply, release, q)
  {
    var r := before.releases[release];
    Unwind(r, b, m);
    UnwindClimbs(r, b, m);
    q := ActivateClimbs(before, unwound, release, true, b, m);
    var reply := ActivateNext(unwound, release, true);
    if reply.error.None? {
      RollbackStages(r.nodes, reply.panel.releases[release].nodes, q, b, m);
    }
  }

  lemma RollbackClimbs(before: Panel, told: Panel, release: int, b: nat, m: nat) returns (q: nat)
    requires release in before.releases && release in told.releases
    requires told == before.(releases := before.releases[release := told.releases[release]])
    requires Frame(before.releases[release].nodes, b, m)
    requires UnwoundNodes(told.releases[release].nodes) == UnwoundNodes(before.releases[release].nodes)
    ensures var reply := BeginRollback(told, release);
            reply.error.None? ==> Unrolled(before, reply, release, q)
  {
    var r := told.releases[release];
    q := UnwoundClimbs(before, told.(releases := told.releases[release := r.(nodes := UnwoundNodes(r.nodes))]), release, b, m);
  }

  lemma RollbackStages(old_: seq<ReleaseNode>, new_: seq<ReleaseNode>, q: nat, b: nat, m: nat)
    requires Frame(old_, b, m) && AllClimb(UnwoundNodes(old_), new_)
    requires new_ == UnwoundNodes(old_) || (q < |old_| && new_ == UnwoundNodes(old_)[q := new_[q]] && Stage(UnwoundNodes(old_)[q]) == 4)
    ensures forall i :: 0 <= i < |old_| && old_[i].phase != Apply ==> new_[i] == old_[i]
    ensures forall i :: 0 <= i < |old_| && old_[i].phase == Apply ==> Stage(new_[i]) >= 4
  {
    forall i | 0 <= i < |old_|
      ensures (old_[i].phase != Apply ==> new_[i] == old_[i]) && (old_[i].phase == Apply ==> Stage(new_[i]) >= 4)
    {
      assert NodeShape(old_[i], i, b, m) && UnwoundNodes(old_)[i] == Unwound(old_[i]);
      assert Climbs(UnwoundNodes(old_)[i], new_[i]);
    }
  }

  // An acknowledgement that passes its guards, and comes from a node that has not answered this phase before.
  ghost predicate FirstAnswer(panel: Panel, release: int, p: nat, ack: Ack) {
    Admitted(panel, release, p, ack) && (panel.releases[release].nodes[p].phase == Prepare ==> panel.releases[release].nodes[p].status == Pending)
  }

  ghost predicate Climbed(panel: Panel, reply: Reply, release: int, p: nat, q: nat) {
    reply.error.None? ==> Climb(panel, reply, release, p, q) && Tidy(reply.panel.releases[release])
  }

  lemma AdvanceClimbs(panel: Panel, release: int, p: nat, ack: Ack, b: nat, m: nat) returns (q: nat)
    requires FirstAnswer(panel, release, p, ack)
    requires Shape(panel.releases[release], b, m) && Tidy(panel.releases[release])
    ensures Climbed(panel, Advance(panel, release, p, ack), release, p, q)
  {
    var n := panel.releases[release].nodes[p];
    assert NodeShape(n, p, b, m);
    if ack.status == Failed {
      q := FailedClimbs(panel, release, p, ack, b, m);
    } else if n.phase == Prepare {
      q := PrepareClimbs(panel, release, p, ack, b, m);
    } else if n.phase == Apply {
      q := ApplyClimbs(panel, release, p, ack, b, m);
    } else {
      q := BackClimbs(panel, release, p, ack, b, m);
    }
  }

  lemma FailedClimbs(panel: Panel, release: int, p: nat, ack: Ack, b: nat, m: nat) returns (q: nat)
    requires FirstAnswer(panel, release, p, ack) && ack.status == Failed
    requires Shape(panel.releases[release], b, m) && Tidy(panel.releases[release])
    ensures Climbed(panel, Advance(panel, release, p, ack), release, p, q)
  {
    var r := panel.releases[release];
    var n := r.nodes[p];
    assert NodeShape(n, p, b, m);
    if n.phase == Apply {
      q := ApplyFailedClimbs(panel, release, p, ack, b, m);
    } else {
      q := |r.nodes|;
      if n.phase == Prepare {
        NobodyActivated(r, p);
      }
      SettledFailure(panel, release, p, ack, if n.phase == Prepare then FailedRelease else ManualRequired);
    }
  }

  // A failure that switches nobody: the release stops in a resting status.
  lemma SettledFailure(panel: Panel, release: int, p: nat, ack: Ack, status: ReleaseStatus)
    requires FirstAnswer(panel, release, p, ack) && ack.status == Failed && Tidy(panel.releases[release])
    requires var n := panel.releases[release].nodes[p];
             if n.phase == Prepare then status == FailedRelease && Stage(n) == 0
             else n.phase == Rollback && status == ManualRequired && Stage(n) == 5
    requires panel.releases[release].nodes[p].phase == Prepare ==>
               forall i :: 0 <= i < |panel.releases[release].nodes| ==> panel.releases[release].nodes[i].phase == Prepare
    ensures Climbed(panel, Advance(panel, release, p, ack), release, p, |panel.releases[release].nodes|)
  {
    var r := panel.releases[release];
    var n := r.nodes[p].(status := Failed);
    OneClimbs(r.nodes, p, n);
    var reply := Advance(panel, release, p, ack);
    AdvanceMoves(panel, release, p, ack);
    assert reply.panel == SetStatus(SetNode(panel, release, p, n), release, status);
    assert reply.panel.releases[release] == Release(status, r.nodes[p := n]);
    var nodes := r.nodes[p := n];
    forall i, j | 0 <= i < |nodes| && 0 <= j < |nodes| && nodes[i].phase != Prepare && nodes[j].phase == Prepare
      ensures nodes[j].status == Prepared
    {
      assert r.nodes[i].phase != Prepare && r.nodes[j].phase == Prepare;
    }
  }

  lemma ApplyFailedClimbs(panel: Panel, release: int, p: nat, ack: Ack, b: nat, m: nat) returns (q: nat)
    requires FirstAnswer(panel, release, p, ack) && ack.status == Failed && panel.releases[release].nodes[p].phase == Apply
    requires Shape(panel.releases[release], b, m) && Tidy(panel.releases[release])
    ensures Climbed(panel, Advance(panel, release, p, ack), release, p, q)
  {
    var r := panel.releases[release];
    var n := r.nodes[p];
    var told := SetNode(panel, release, p, n.(status := Failed));
    assert NodeShape(n, p, b, m);
    assert UnwoundNodes(told.releases[release].nodes) == UnwoundNodes(r.nodes);
    q := RollbackClimbs(panel, told, release, b, m);
    var reply := BeginRollback(told, release);
    if reply.error.None? {
      UnrolledClimbs(panel, reply, release, p, q);
    }
  }

  lemma UnrolledClimbs(panel: Panel, reply: Reply, release: int, p: nat, q: nat)
    requires Unrolled(panel, reply, release, q)
    requires panel.releases[release].status in LIVE && Tidy(panel.releases[release])
    requires p < |panel.releases[release].nodes| ==> Stage(panel.releases[release].nodes[p]) == 2
    ensures Climb(panel, reply, release, p, q) && Tidy(reply.panel.releases[release])
  {
    PhasesUp(panel.releases[release], reply.panel.releases[release]);
  }

  // While a node is pending, nobody has been activated.
  lemma NobodyActivated(r: Release, p: nat)
    requires Tidy(r) && p < |r.nodes| && r.nodes[p].phase == Prepare && r.nodes[p].status == Pending
    ensures forall i :: 0 <= i < |r.nodes| ==> r.nodes[i].phase == Prepare
  {
  }

  lemma PhasesUp(before: Release, after: Release)
    requires Tidy(before) && |before.nodes| == |after.nodes| && after.status != FailedRelease
    requires forall i :: 0 <= i < |before.nodes| ==>
               if before.nodes[i].phase == Prepare then after.nodes[i] == before.nodes[i] else after.nodes[i].phase != Prepare
    ensures Tidy(after)
  {
  }

  lemma PrepareClimbs(panel: Panel, release: int, p: nat, ack: Ack, b: nat, m: nat) returns (q: nat)
    requires FirstAnswer(panel, release, p, ack) && ack.status == Prepared && panel.releases[release].nodes[p].phase == Prepare
    requires Shape(panel.releases[release], b, m) && Tidy(panel.releases[release])
    ensures Climbed(panel, Advance(panel, release, p, ack), release, p, q)
  {
    var r := panel.releases[release];
    var n := r.nodes[p].(status := Prepared);
    var nodes := r.nodes[p := n];
    NobodyActivated(r, p);
    PreparedShape(r, p, Prepared, b, m);
    var told := SetNode(panel, release, p, n);
    if forall i :: 0 <= i < |nodes| ==> nodes[i].status == Prepared {
      assert Advance(panel, release, p, ack) == ActivateNext(SetStatus(told, release, Ready), release, false);
      q := LastPrepareClimbs(panel, release, p, b, m);
    } else {
      q := |r.nodes|;
      assert Advance(panel, release, p, ack) == Accepted(told, []);
      assert told.releases[release] == Release(r.status, nodes);
      OneClimbs(r.nodes, p, n);
    }
  }

  lemma LastPrepareClimbs(panel: Panel, release: int, p: nat, b: nat, m: nat) returns (q: nat)
    requires release in panel.releases && p < |panel.releases[release].nodes| && panel.releases[release].status in LIVE
    requires Stage(panel.releases[release].nodes[p]) == 0
    requires var nodes := panel.releases[release].nodes[p := panel.releases[release].nodes[p].(status := Prepared)];
             Frame(nodes, b, m) && forall i :: 0 <= i < |nodes| ==> nodes[i].status == Prepared
    ensures var told := SetNode(panel, release, p, panel.releases[release].nodes[p].(status := Prepared));
            Climbed(panel, ActivateNext(SetStatus(told, release, Ready), release, false), release, p, q)
  {
    var r := panel.releases[release];
    var n := r.nodes[p].(status := Prepared);
    OneClimbs(r.nodes, p, n);
    var ready := SetStatus(SetNode(panel, release, p, n), release, Ready);
    q := ActivateClimbs(panel, ready, release, false, b, m);
    var reply := ActivateNext(ready, release, false);
    if reply.error.None? {
      AllButOne(r.nodes[p := n], reply.panel.releases[release], q);
    }
  }

  // After an activation the release is tidy: everybody else was already prepared.
  lemma AllButOne(nodes: seq<ReleaseNode>, after: Release, q: nat)
    requires forall i :: 0 <= i < |nodes| && nodes[i].phase == Prepare ==> nodes[i].status == Prepared
    requires |after.nodes| == |nodes|
    requires after.nodes == nodes || (q < |nodes| && after.nodes == nodes[q := after.nodes[q]] && after.nodes[q].phase == Apply)
    requires after.status != FailedRelease
    ensures Tidy(after)
  {
  }

  lemma ApplyClimbs(panel: Panel, release: int, p: nat, ack: Ack, b: nat, m: nat) returns (q: nat)
    requires FirstAnswer(panel, release, p, ack) && ack.status == Applied && panel.releases[release].nodes[p].phase == Apply
    requires Shape(panel.releases[release], b, m) && Tidy(panel.releases[release])
    ensures Climbed(panel, Advance(panel, release, p, ack), release, p, q)
  {
    var r := panel.releases[release];
    var n := r.nodes[p].(status := Applied);
    var told := SetNode(panel, release, p, n);
    var nodes := r.nodes[p := n];
    OneClimbs(r.nodes, p, n);
    assert NodeShape(r.nodes[p], p, b, m);
    forall i | 0 <= i < |nodes| ensures NodeShape(nodes[i], i, b, m) { assert NodeShape(r.nodes[i], i, b, m); }
    q := ActivateClimbs(panel, told, release, false, b, m);
    var reply := Advance(panel, release, p, ack);
    if reply.error.None? {
      assert reply == ActivateNext(told, release, false);
      AllButOne(nodes, reply.panel.releases[release], q);
    }
  }

  lemma BackClimbs(panel: Panel, release: int, p: nat, ack: Ack, b: nat, m: nat) returns (q: nat)
    requires FirstAnswer(panel, release, p, ack) && ack.status == RolledBack && panel.releases[release].nodes[p].phase == Rollback
    requires Shape(panel.releases[release], b, m) && Tidy(panel.releases[release])
    ensures Climbed(panel, Advance(panel, release, p, ack), release, p, q)
  {
    var r := panel.releases[release];
    var n := r.nodes[p].(status := RolledBack);
    var told := SetNode(panel, release, p, n);
    var nodes := r.nodes[p := n];
    OneClimbs(r.nodes, p, n);
    assert NodeShape(r.nodes[p], p, b, m);
    forall i | 0 <= i < |nodes| ensures NodeShape(nodes[i], i, b, m) { assert NodeShape(r.nodes[i], i, b, m); }
    q := ActivateClimbs(panel, told, release, true, b, m);
    var reply := Advance(panel, release, p, ack);
    if reply.error.None? {
      BackTidy(r, told.releases[release], reply.panel.releases[release], q);
    }
  }

  lemma BackTidy(before: Release, told: Release, after: Release, q: nat)
    requires Tidy(before) && |before.nodes| == |told.nodes| == |after.nodes| && after.status != FailedRelease
    requires forall i :: 0 <= i < |told.nodes| ==>
               told.nodes[i].phase == before.nodes[i].phase && (told.nodes[i].phase == Prepare ==> told.nodes[i] == before.nodes[i])
    requires after.nodes == told.nodes
          || (q < |told.nodes| && Stage(told.nodes[q]) == 4 && after.nodes == told.nodes[q := after.nodes[q]] && AllClimb(before.nodes, after.nodes))
    ensures Tidy(after)
  {
    forall i | 0 <= i < |before.nodes|
      ensures if before.nodes[i].phase == Prepare then after.nodes[i] == before.nodes[i] else after.nodes[i].phase != Prepare
    {
      assert AllClimb(before.nodes, after.nodes) ==> Climbs(before.nodes[i], after.nodes[i]);
    }
    PhasesUp(before, after);
  }
}
