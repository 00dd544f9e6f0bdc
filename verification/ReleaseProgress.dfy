/** A release that is under way always has work for one of its nodes. */
module ReleaseProgress {
  import opened Messages
  import opened ReleaseModel
  import opened ReleaseShape
  import opened ReleaseSystem
  import opened ReleaseHistory
  import opened ReleaseRuns

  // The release waits for this node to prepare, to apply, or to go back.
  ghost predicate Turn(r: Release, i: int) {
    && 0 <= i < |r.nodes|
    && match r.status
       case Preparing => r.nodes[i].phase == Prepare && r.nodes[i].status == Pending
       case Applying => r.nodes[i].phase == Apply && r.nodes[i].status == Active
       case RollingBack => r.nodes[i].phase == Rollback && r.nodes[i].status == Active
       case _ => false
  }

  // A release under way waits for one of its nodes; only one without nodes waits for nobody.
  ghost predicate Waiting(r: Release) {
    r.status in RUNNING ==> r.nodes == [] || exists i :: Turn(r, i)
  }

  ghost predicate AllWaiting(panel: Panel) {
    forall release :: release in panel.releases ==> Waiting(panel.releases[release])
  }

  // With its shape, a release that prepares waits as soon as some node has not prepared, and one that applies always.
  lemma ShapeWaits(r: Release, b: nat, m: nat)
    requires Shape(r, b, m)
    ensures r.status == Applying ==> Waiting(r)
    ensures r.status == Preparing && !AllPrepared(r.nodes) ==> Waiting(r)
  {
    if r.status == Applying {
      assert NodeShape(r.nodes[m - 1], m - 1, b, m);
      assert Turn(r, m - 1);
    }
    if r.status == Preparing && !AllPrepared(r.nodes) {
      var i :| 0 <= i < |r.nodes| && r.nodes[i].status != Prepared;
      assert NodeShape(r.nodes[i], i, b, m);
      assert Turn(r, i);
    }
  }

  // A step back makes a node active, or is the last.
  lemma BackWaits(panel: Panel, release: int)
    requires release in panel.releases && ActivateNext(panel, release, true).error.None?
    ensures var after := ActivateNext(panel, release, true).panel;
            release in after.releases && after.releases[release].status in {RollingBack, RolledBackRelease} && Waiting(after.releases[release])
  {
    var nodes := panel.releases[release].nodes;
    var p := PastLastWith(nodes, RollbackPending);
    if p > 0 {
      assert Turn(ActivateNext(panel, release, true).panel.releases[release], p - 1);
    }
  }

  lemma BeginRollbackWaits(panel: Panel, release: int)
    requires release in panel.releases && BeginRollback(panel, release).error.None?
    ensures var after := BeginRollback(panel, release).panel; release in after.releases && Waiting(after.releases[release])
  {
    var r := panel.releases[release];
    BackWaits(panel.(releases := panel.releases[release := r.(nodes := UnwoundNodes(r.nodes))]), release);
  }

  // A step forward leaves the release applying, or succeeded.
  lemma ForwardApplies(panel: Panel, release: int)
    requires release in panel.releases && ActivateNext(panel, release, false).error.None?
    ensures var after := ActivateNext(panel, release, false).panel;
            release in after.releases && after.releases[release].status in {Applying, Succeeded}
  {
  }

  // An effective acknowledgement leaves the release waiting, given its shape afterwards.
  lemma AdvanceWaits(panel: Panel, release: int, p: nat, ack: Ack, b: nat, m: nat)
    requires Admitted(panel, release, p, ack) && Waiting(panel.releases[release])
    requires var reply := Advance(panel, release, p, ack);
             reply.error.None? && release in reply.panel.releases && Shape(reply.panel.releases[release], b, m)
    ensures Waiting(Advance(panel, release, p, ack).panel.releases[release])
  {
    var n := panel.releases[release].nodes[p];
    var told := SetNode(panel, release, p, n.(status := ack.status));
    var after := Advance(panel, release, p, ack).panel.releases[release];
    if ack.status == Failed {
      if n.phase == Apply { BeginRollbackWaits(told, release); }
    } else if n.phase == Rollback {
      BackWaits(told, release);
    } else if n.phase == Apply {
      ForwardApplies(told, release);
      ShapeWaits(after, b, m);
    } else if AllPrepared(told.releases[release].nodes) {
      ForwardApplies(SetStatus(told, release, Ready), release);
      ShapeWaits(after, b, m);
    } else {
      ToldWaits(panel, release, p, after, b, m);
    }
  }

  lemma ToldWaits(panel: Panel, release: int, p: nat, after: Release, b: nat, m: nat)
    requires Shape(after, b, m) && !AllPrepared(after.nodes)
    requires release in panel.releases && p < |panel.releases[release].nodes|
    requires panel.releases[release].nodes[p].phase == Prepare && |after.nodes| == |panel.releases[release].nodes|
    requires after == panel.releases[release].(nodes := panel.releases[release].nodes[p := after.nodes[p]])
    requires after.status == RollingBack ==> Waiting(panel.releases[release])
    ensures Waiting(after)
  {
    ShapeWaits(after, b, m);
    var before := panel.releases[release];
    if after.status == RollingBack {
      var i :| Turn(before, i);
      assert i != p && Turn(after, i);
    }
  }

  // What an acknowledgement does to the shape of its release.
  lemma EffectShape(panel: Panel, ack: Ack, reply: Reply, forward: seq<int>, back: seq<int>) returns (b: nat, m: nat)
    requires Effective(panel, ack, reply) && History(panel.releases[ack.release], forward, back)
    ensures Moves(panel, reply, ack.release) && Shape(reply.panel.releases[ack.release], b, m)
  {
    EffectKeepsHistory(panel, ack, reply);
    var f, k := forward + ForwardOf(reply.events, ack.release), back + BackOf(reply.events, ack.release);
    assert History(reply.panel.releases[ack.release], f, k);
    b, m := |f| - |k|, |f|;
  }

  lemma EffectWaits(panel: Panel, ack: Ack, reply: Reply, b: nat, m: nat)
    requires Effective(panel, ack, reply) && Waiting(panel.releases[ack.release])
    requires Moves(panel, reply, ack.release) && Shape(reply.panel.releases[ack.release], b, m)
    ensures Waiting(reply.panel.releases[ack.release])
  {
    if reply.error.None? {
      AdvanceWaits(panel, ack.release, Position(panel.releases[ack.release].nodes, ack.node), ack, b, m);
    }
  }

  lemma AcknowledgeWaits(s: System, ack: Ack)
    requires Consistent(s) && AllWaiting(s.panel)
    ensures AllWaiting(Acknowledge(s.panel, ack).panel)
  {
    var reply := Acknowledge(s.panel, ack);
    AcknowledgeEffects(s.panel, ack);
    if !Unchanged(s.panel, reply) {
      var forward, back := ForwardOf(s.log, ack.release), BackOf(s.log, ack.release);
      assert History(s.panel.releases[ack.release], forward, back);
      var b, m := EffectShape(s.panel, ack, reply, forward, back);
      EffectWaits(s.panel, ack, reply, b, m);
      OneWaits(s.panel, reply, ack.release);
    }
  }

  lemma OneWaits(before: Panel, reply: Reply, release: int)
    requires AllWaiting(before) && Moves(before, reply, release) && Waiting(reply.panel.releases[release])
    ensures AllWaiting(reply.panel)
  {
  }

  lemma CreateWaits(panel: Panel, current: bool, capable: set<int>, candidates: seq<Candidate>)
    requires AllWaiting(panel)
    ensures AllWaiting(CreateTopologyRelease(panel, current, capable, candidates).panel)
  {
    if CreationRefusal(panel, current, capable, candidates).None? && candidates != [] {
      var nodes := FreshNodes(panel, candidates);
      assert Turn(Release(Preparing, nodes), 0);
    }
  }

  lemma RollbackWaits(panel: Panel, release: int)
    requires AllWaiting(panel)
    ensures AllWaiting(RollbackRelease(panel, release).panel)
  {
    var reply := RollbackRelease(panel, release);
    if reply.panel != panel {
      BeginRollbackMoves(panel, release);
      BeginRollbackWaits(panel, release);
      OneWaits(panel, reply, release);
    }
  }

  // A release that keeps its nodes waits as before, or is not under way.
  lemma StoppedWaits(before: Panel, after: Panel)
    requires AllWaiting(before) && after.releases.Keys == before.releases.Keys
    requires forall r :: r in before.releases ==>
               after.releases[r] == before.releases[r] || after.releases[r].status in {FailedRelease, ManualRequired}
    ensures AllWaiting(after)
  {
  }

  lemma FetchWaits(s: System, node: int)
    requires AllWaiting(s.panel)
    ensures AllWaiting(Fetching(s, node).panel)
  {
    StoppedWaits(s.panel, Fetching(s, node).panel);
  }

  lemma StepWaits(s: System, step: Step)
    requires Consistent(s) && AllWaiting(s.panel)
    ensures AllWaiting(Next(s, step).panel)
  {
    match step
    case Create(current, capable, candidates) => CreateWaits(s.panel, current, capable, candidates);
    case Fetch(node) => FetchWaits(s, node);
    case Deliver(ack) => AcknowledgeWaits(s, ack);
    case Recover(overdue) => StoppedWaits(s.panel, RecoverReleases(s.panel, overdue));
    case AdministratorRollback(release) => RollbackWaits(s.panel, release);
    case AuthorizationChange(managed) => StoppedWaits(s.panel, InvalidateTopologyAuthorization(s.panel, managed));
    case _ =>
  }

  lemma {:induction false} RunWaits(s: System, steps: seq<Step>)
    requires Started(s)
    ensures AllWaiting(Execute(s, steps).panel)
  {
    if steps != [] {
      var front := steps[..|steps| - 1];
      RunWaits(s, front);
      RunConsistent(s, front);
      StepWaits(Execute(s, front), steps[|steps| - 1]);
    }
  }

  // No release gets stuck: in every run, a release that is under way has work on offer for one of its nodes, unless it
  // has no nodes at all; and only an administrator's release, or one that is over, offers nothing.
  lemma NeverStuck(s: System, steps: seq<Step>, release: int)
    requires Started(s) && release in Execute(s, steps).panel.releases
    ensures var panel := Execute(s, steps).panel;
            var r := panel.releases[release];
            r.nodes != [] ==>
              (r.status in {Preparing, Ready, Applying, RollingBack} <==> exists node :: OffersTo(panel, release, node))
  {
    RunWaits(s, steps);
    RunConsistent(s, steps);
    var end := Execute(s, steps);
    var r := end.panel.releases[release];
    var forward, back := ForwardOf(end.log, release), BackOf(end.log, release);
    assert History(r, forward, back);
    if r.status in RUNNING && r.nodes != [] {
      var i :| Turn(r, i);
      PositionOf(r.nodes, i);
      assert OffersTo(end.panel, release, r.nodes[i].candidate.node);
    }
  }
}
