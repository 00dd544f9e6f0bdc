/**
  What the status of a rolled-back release says about its agents. The panel also ends a rollback when an administrator
  resumes it and nobody is left to switch back, or when one of two active nodes answers; then some agent may never have
  confirmed. The tables tell which: the status of such a node is still active or failed.
*/
module ReleaseConfirmed {
  import opened Messages
  import opened ReleaseModel
  import opened ReleaseShape
  import opened ReleaseSystem
  import opened ReleaseHistory
  import opened ReleaseRuns
  import opened ReleaseOrder
  import opened ReleaseBorders

  // The nodes that count as rolled back are exactly those that have said so.
  ghost predicate Confirmed(nodes: seq<ReleaseNode>, release: int, log: seq<Event>) {
    forall i :: 0 <= i < |nodes| ==>
      (nodes[i].status == RolledBack <==> HasAcked(log, release, nodes[i].candidate.node, RolledBack))
  }

  ghost predicate Confirms(before: seq<ReleaseNode>, after: seq<ReleaseNode>, release: int, events: seq<Event>) {
    && SameCandidates(before, after)
    && forall i :: 0 <= i < |before| ==>
         (after[i].status == RolledBack <==> before[i].status == RolledBack || HasAcked(events, release, before[i].candidate.node, RolledBack))
  }

  ghost predicate AcksKnown(panel: Panel, log: seq<Event>) {
    forall e :: e in log && e.Acked? ==> e.ack.release in panel.releases
  }

  ghost predicate AllConfirmed(s: System) {
    && AcksKnown(s.panel, s.log)
    && forall r :: r in s.panel.releases ==> Confirmed(s.panel.releases[r].nodes, r, s.log)
  }

  lemma HasAckedConcat(log: seq<Event>, more: seq<Event>, release: int, node: int, status: NodeStatus)
    ensures HasAcked(log + more, release, node, status) <==> HasAcked(log, release, node, status) || HasAcked(more, release, node, status)
  {
    var all := log + more;
    forall i | 0 <= i < |log| ensures all[i] == log[i] {}
    forall i | 0 <= i < |more| ensures all[|log| + i] == more[i] {}
    if HasAcked(all, release, node, status) {
      var i :| 0 <= i < |all| && all[i].Acked? && all[i].ack.release == release && all[i].ack.node == node && all[i].ack.status == status;
      assert if i < |log| then all[i] == log[i] else all[i] == more[i - |log|];
    }
  }

  lemma ConfirmedGrows(before: seq<ReleaseNode>, after: seq<ReleaseNode>, release: int, log: seq<Event>, events: seq<Event>)
    requires Confirmed(before, release, log) && Confirms(before, after, release, events)
    ensures Confirmed(after, release, log + events)
  {
    forall i | 0 <= i < |after|
      ensures after[i].status == RolledBack <==> HasAcked(log + events, release, after[i].candidate.node, RolledBack)
    {
      HasAckedConcat(log, events, release, after[i].candidate.node, RolledBack);
    }
  }

  // Events that are about other things, or other releases.
  lemma ConfirmedElsewhere(nodes: seq<ReleaseNode>, release: int, log: seq<Event>, events: seq<Event>)
    requires Confirmed(nodes, release, log) && forall e :: e in events && e.Acked? ==> e.ack.release != release
    ensures Confirmed(nodes, release, log + events)
  {
    ConfirmedGrows(nodes, nodes, release, log, events);
  }

  // ---- The transactions ----

  // Switching makes a node active that was prepared or waited to be switched back.
  lemma ActivateConfirms(panel: Panel, release: int, rollback: bool)
    requires release in panel.releases
    ensures var reply := ActivateNext(panel, release, rollback);
            reply.error.None? ==>
              && release in reply.panel.releases
              && Confirms(panel.releases[release].nodes, reply.panel.releases[release].nodes, release, reply.events)
              && forall e :: e in reply.events ==> !e.Acked?
  {
    var p := ActivateNextNodes(panel, release, rollback);
    SwitchMoves(panel, release, rollback);
  }

  lemma BeginConfirms(panel: Panel, release: int)
    requires release in panel.releases
    ensures var reply := BeginRollback(panel, release);
            reply.error.None? ==>
              && release in reply.panel.releases
              && Confirms(panel.releases[release].nodes, reply.panel.releases[release].nodes, release, reply.events)
              && forall e :: e in reply.events ==> !e.Acked?
  {
    var r := panel.releases[release];
    var unwound := panel.(releases := panel.releases[release := r.(nodes := UnwoundNodes(r.nodes))]);
    ActivateConfirms(unwound, release, true);
    var reply := ActivateNext(unwound, release, true);
    assert BeginRollback(panel, release) == reply;
    if reply.error.None? {
      UnwoundConfirms(r.nodes, reply.panel.releases[release].nodes, release, reply.events);
    }
  }

  // Unwinding leaves alone whoever is rolled back.
  lemma UnwoundConfirms(before: seq<ReleaseNode>, after: seq<ReleaseNode>, release: int, events: seq<Event>)
    requires Confirms(UnwoundNodes(before), after, release, events)
    ensures Confirms(before, after, release, events)
  {
    forall i | 0 <= i < |before|
      ensures before[i].candidate == UnwoundNodes(before)[i].candidate && (before[i].status == RolledBack <==> UnwoundNodes(before)[i].status == RolledBack)
    {
      assert UnwoundNodes(before)[i] == Unwound(before[i]);
    }
  }

  // What comes after the status of the acknowledging node was written.
  lemma AfterConfirms(told: Panel, release: int, phase: Phase, status: NodeStatus)
    requires release in told.releases
    ensures var reply := AfterAnswer(told, release, phase, status);
            reply.error.None? ==>
              && release in reply.panel.releases
              && Confirms(told.releases[release].nodes, reply.panel.releases[release].nodes, release, reply.events)
              && forall e :: e in reply.events ==> !e.Acked?
  {
    if status == Failed {
      BeginConfirms(told, release);
    } else if phase == Prepare {
      ActivateConfirms(SetStatus(told, release, Ready), release, false);
    } else {
      ActivateConfirms(told, release, phase == Rollback);
    }
  }

  lemma AckConfirms(before: seq<ReleaseNode>, after: seq<ReleaseNode>, release: int, p: nat, ack: Ack, events: seq<Event>)
    requires DistinctNodes(before) && p < |before| && ack.node == before[p].candidate.node && ack.release == release
    requires before[p].status != RolledBack
    requires Confirms(before[p := before[p].(status := ack.status)], after, release, events)
    requires forall e :: e in events ==> !e.Acked?
    ensures Confirms(before, after, release, [Acked(ack)] + events)
  {
    var all := [Acked(ack)] + events;
    forall i | 0 <= i < |before|
      ensures after[i].status == RolledBack <==> before[i].status == RolledBack || HasAcked(all, release, before[i].candidate.node, RolledBack)
    {
      HasAckedConcat([Acked(ack)], events, release, before[i].candidate.node, RolledBack);
      assert [Acked(ack)][0] == Acked(ack);
    }
  }

  lemma AdvanceConfirms(panel: Panel, release: int, p: nat, ack: Ack, b: nat, m: nat)
    requires Admitted(panel, release, p, ack) && Shape(panel.releases[release], b, m)
    requires ack.release == release && ack.node == panel.releases[release].nodes[p].candidate.node
    ensures var reply := Advance(panel, release, p, ack);
            reply.error.None? ==>
              release in reply.panel.releases
              && Confirms(panel.releases[release].nodes, reply.panel.releases[release].nodes, release, [Acked(ack)] + reply.events)
  {
    var nodes := panel.releases[release].nodes;
    var told := SetNode(panel, release, p, nodes[p].(status := ack.status));
    AfterConfirms(told, release, nodes[p].phase, ack.status);
    assert NodeShape(nodes[p], p, b, m);
    var reply := Advance(panel, release, p, ack);
    if reply.error.None? {
      AckConfirms(nodes, reply.panel.releases[release].nodes, release, p, ack, reply.events);
    }
  }

  lemma MovesConfirmed(s: System, reply: Reply, release: int)
    requires AllConfirmed(s) && Moves(s.panel, reply, release)
    requires Confirms(s.panel.releases[release].nodes, reply.panel.releases[release].nodes, release, reply.events)
    ensures AllConfirmed(WithReply(s, reply))
  {
    ConfirmedGrows(s.panel.releases[release].nodes, reply.panel.releases[release].nodes, release, s.log, reply.events);
    forall r | r in reply.panel.releases && r != release ensures Confirmed(reply.panel.releases[r].nodes, r, s.log + reply.events) {
      ConfirmedElsewhere(s.panel.releases[r].nodes, r, s.log, reply.events);
    }
  }

  // A transaction that leaves the nodes alone, and whose events are no acknowledgements.
  lemma QuietConfirmed(s: System, after: Panel, events: seq<Event>)
    requires AllConfirmed(s) && KeepsNodes(s.panel, after) && forall e :: e in events ==> !e.Acked?
    ensures AllConfirmed(s.(panel := after, log := s.log + events))
  {
    forall r | r in after.releases ensures Confirmed(after.releases[r].nodes, r, s.log + events) {
      ConfirmedElsewhere(s.panel.releases[r].nodes, r, s.log, events);
    }
  }

  lemma DeliverConfirmed(s: System, ack: Ack)
    requires Consistent(s) && AllConfirmed(s)
    ensures AllConfirmed(Delivered(s, ack))
  {
    var reply := Acknowledge(s.panel, ack);
    AcknowledgeEffects(s.panel, ack);
    if Unchanged(s.panel, reply) {
      assert s.log + reply.events == s.log;
    } else if reply.error.None? {
      var b, m := ShapeAt(s, ack.release);
      var p := Position(s.panel.releases[ack.release].nodes, ack.node);
      AdvanceConfirms(s.panel, ack.release, p, ack, b, m);
      EffectKeepsHistory(s.panel, ack, reply);
      MovesConfirmed(s, reply, ack.release);
    } else {
      QuietConfirmed(s, reply.panel, reply.events);
    }
  }

  lemma AdministratorConfirmed(s: System, release: int)
    requires AllConfirmed(s)
    ensures AllConfirmed(WithReply(s, RollbackRelease(s.panel, release)))
  {
    var reply := RollbackRelease(s.panel, release);
    if Unchanged(s.panel, reply) {
      assert s.log + reply.events == s.log;
    } else {
      BeginConfirms(s.panel, release);
      BeginRollbackMoves(s.panel, release);
      MovesConfirmed(s, reply, release);
    }
  }

  lemma CreateConfirmed(s: System, current: bool, capable: set<int>, candidates: seq<Candidate>)
    requires Consistent(s) && AllConfirmed(s)
    ensures AllConfirmed(WithReply(s, CreateTopologyRelease(s.panel, current, capable, candidates)))
  {
    var reply := CreateTopologyRelease(s.panel, current, capable, candidates);
    assert s.log + reply.events == s.log;
    var id := s.panel.lastRelease + 1;
    if reply.error.None? {
      assert id !in s.panel.releases;
      var nodes := FreshNodes(s.panel, candidates);
      forall i | 0 <= i < |nodes| ensures nodes[i].status == Pending && !HasAcked(s.log, id, nodes[i].candidate.node, RolledBack) {}
    }
  }

  lemma StepConfirmed(s: System, step: Step)
    requires Consistent(s) && AllConfirmed(s)
    ensures AllConfirmed(Next(s, step))
  {
    match step
    case Create(current, capable, candidates) => CreateConfirmed(s, current, capable, candidates);
    case Fetch(node) => FetchConfirmed(s, node);
    case Deliver(ack) => DeliverConfirmed(s, ack);
    case Recover(overdue) => QuietConfirmed(s, RecoverReleases(s.panel, overdue), [Escalated(Overdue(s.panel, overdue), Timeout)]);
    case AdministratorRollback(release) => AdministratorConfirmed(s, release);
    case AuthorizationChange(managed) =>
      QuietConfirmed(s, InvalidateTopologyAuthorization(s.panel, managed), [Escalated(RunningReleases(s.panel), Authorization)]);
    case _ =>
  }

  lemma FetchConfirmed(s: System, node: int)
    requires AllConfirmed(s)
    ensures AllConfirmed(Fetching(s, node))
  {
    var agent := AgentOf(s, node);
    if agent.session.Offered? && !Fenced(agent.stored, agent.session.pending) {
      var fetched := GetAgentDeployment(s.panel, node, agent.session.pending.release, agent.session.pending.phase);
      FetchKeepsNodes(s, node);
      QuietConfirmed(s, fetched.panel, fetched.events);
    }
  }

  lemma {:induction false} RunConfirmed(s: System, steps: seq<Step>)
    requires Started(s)
    ensures AllConfirmed(Execute(s, steps))
  {
    if steps != [] {
      RunConfirmed(s, steps[..|steps| - 1]);
      RunConsistent(s, steps[..|steps| - 1]);
      StepConfirmed(Execute(s, steps[..|steps| - 1]), steps[|steps| - 1]);
    }
  }

  // ---- The main result ----

  // Every node that a rolled-back release had switched has confirmed its rollback, if and only if the tables show no node
  // of it that is still active or has failed to go back.
  lemma RolledBackMeansConfirmed(s: System, steps: seq<Step>, release: int)
    requires Started(s) && release in Execute(s, steps).panel.releases
    requires Execute(s, steps).panel.releases[release].status == RolledBackRelease
    ensures var end := Execute(s, steps);
            var nodes := end.panel.releases[release].nodes;
            (forall node :: node in ForwardOf(end.log, release) ==> HasAcked(end.log, release, node, RolledBack)) <==>
            (forall i :: 0 <= i < |nodes| && nodes[i].phase == Rollback ==> nodes[i].status !in {Active, Failed})
  {
    RunConsistent(s, steps);
    RunConfirmed(s, steps);
    var end := Execute(s, steps);
    var nodes := end.panel.releases[release].nodes;
    var forward, back := ForwardOf(end.log, release), BackOf(end.log, release);
    assert History(end.panel.releases[release], forward, back);
    SwitchedConfirm(nodes, release, forward, end.log);
  }

  lemma SwitchedConfirm(nodes: seq<ReleaseNode>, release: int, forward: seq<int>, log: seq<Event>)
    requires Frame(nodes, 0, |forward|) && Confirmed(nodes, release, log)
    requires forall i :: 0 <= i < |forward| ==> forward[i] == nodes[i].candidate.node
    ensures (forall node :: node in forward ==> HasAcked(log, release, node, RolledBack)) <==>
            (forall i :: 0 <= i < |nodes| && nodes[i].phase == Rollback ==> nodes[i].status !in {Active, Failed})
  {
    forall i | 0 <= i < |nodes|
      ensures (nodes[i].phase == Rollback <==> i < |forward|) && (i < |forward| ==> forward[i] in forward)
      ensures i < |forward| ==> (nodes[i].status !in {Active, Failed} <==> HasAcked(log, release, forward[i], RolledBack))
    {
      assert NodeShape(nodes[i], i, 0, |forward|);
    }
  }
}
