/** The steps of a disciplined run, one by one, and what every disciplined run guarantees. */
module ReleaseDisciplinedRuns {
  import opened Common
  import opened Messages
  import opened ReleaseModel
  import opened ReleaseShape
  import opened ReleaseSystem
  import opened ReleaseHistory
  import opened ReleaseRuns
  import opened ReleaseClimb
  import opened ReleaseSession
  import opened ReleaseDiscipline

  // What the state knows about one of its releases.
  lemma ShapeOf(s: System, release: int) returns (b: nat, m: nat)
    requires Orderly(s) && release in s.panel.releases
    ensures Shape(s.panel.releases[release], b, m) && Tidy(s.panel.releases[release])
  {
    var forward, back := ForwardOf(s.log, release), BackOf(s.log, release);
    assert History(s.panel.releases[release], forward, back);
    b, m := |forward| - |back|, |forward|;
  }

  // ---- An administrator is called ----

  lemma EscalateOrderly(s: System, release: int, nodes: set<int>)
    requires Orderly(s) && release in s.panel.releases && s.panel.releases[release].status in RUNNING
    requires forall n :: n in nodes ==> Has(s.panel, release, n)
    ensures Orderly(s.(panel := Escalate(s.panel, release, nodes), log := s.log + [Escalated({release}, Material)]))
  {
    var after := Escalate(s.panel, release, nodes);
    var e := Escalated({release}, Material);
    SweepConsistent(s, after, e);
    SameNodesKeep(s.panel, after, s.log, s.agents, [e]);
    FewerLiveKeep(s.panel, after);
    BoundedKeep(s.panel, after);
    forall r | r in after.releases ensures Tidy(after.releases[r]) {
      assert Tidy(s.panel.releases[r]);
    }
    EscalateUnescalated(s.panel, release, nodes, s.log);
  }

  lemma EscalateUnescalated(before: Panel, release: int, nodes: set<int>, log: seq<Event>)
    requires Unescalated(before, log) && Exclusive(before)
    requires release in before.releases && before.releases[release].status in RUNNING
    requires forall n :: n in nodes ==> Has(before, release, n)
    ensures Unescalated(Escalate(before, release, nodes), log + [Escalated({release}, Material)])
  {
    var after := Escalate(before, release, nodes);
    var e := Escalated({release}, Material);
    forall r ensures EverEscalated(log + [e], r) <==> EverEscalated(log, r) || r == release {
      EverGrows(log, [e], r);
      assert [e][0] == e;
    }
    forall r | Live(after, r) && !EverEscalated(log + [e], r) ensures InStep(after, r) {
      assert InStep(before, r) && Live(before, r) && Live(before, release);
      forall n | Has(after, r, n) ensures n in after.generations && after.generations[n] == NodeOf(after, r, n).generation {
        assert Has(before, r, n) && NodeOf(after, r, n) == NodeOf(before, r, n);
        if n in nodes {
          Unshared(before, release, r, n);
        }
      }
    }
  }

  // ---- Acknowledgements ----

  // A retry changes nothing: the node has moved on.
  lemma SettledInert(panel: Panel, ack: Ack)
    requires Settled(panel, ack) && Timed(panel)
    ensures Unchanged(panel, Acknowledge(panel, ack))
  {
    var x := NodeOf(panel, ack.release, ack.node);
    assert x.generation == x.candidate.previousGeneration + if x.phase == Rollback then 2 else 1;
  }

  lemma DeliverOrderly(s: System, ack: Ack)
    requires Orderly(s) && Disciplined(s, Deliver(ack))
    ensures Orderly(Delivered(s, ack))
  {
    var reply := Acknowledge(s.panel, ack);
    AcknowledgeEffects(s.panel, ack);
    if Acked(ack) in s.log {
      var j :| 0 <= j < |s.log| && s.log[j] == Acked(ack);
      assert Settled(s.panel, ack);
      SettledInert(s.panel, ack);
    }
    if Unchanged(s.panel, reply) {
      assert s.log + reply.events == s.log;
    } else {
      EffectiveOrderly(s, ack);
    }
  }

  lemma EffectiveOrderly(s: System, ack: Ack)
    requires Orderly(s) && AgentOf(s, ack.node).session == Answering(ack) && ack.node in s.agents
    requires Effective(s.panel, ack, Acknowledge(s.panel, ack))
    ensures Orderly(Delivered(s, ack))
  {
    var reply := Acknowledge(s.panel, ack);
    assert AgentOk(s.panel, ack.node, s.agents[ack.node]);
    if reply.error.None? {
      AcceptedOrderly(s, ack, reply);
    } else {
      EscalateOrderly(s, ack.release, ReleaseNodes(s.panel.releases[ack.release]));
      IdleOk(reply.panel, s.agents, ack.node);
    }
  }

  lemma IdleOk(panel: Panel, agents: map<int, Agent>, node: int)
    requires Sessions(panel, agents) && node in agents
    ensures Sessions(panel, agents[node := agents[node].(session := Idle)])
  {
    var idle := agents[node := agents[node].(session := Idle)];
    forall n | n in idle ensures AgentOk(panel, n, idle[n]) {
      assert AgentOk(panel, n, agents[n]);
    }
  }

  lemma AcceptedOrderly(s: System, ack: Ack, reply: Reply)
    requires Orderly(s) && ack.node in s.agents && s.agents[ack.node].session == Answering(ack)
    requires AgentOk(s.panel, ack.node, s.agents[ack.node])
    requires Effective(s.panel, ack, reply) && reply.error.None?
    ensures Orderly(WithAgent(WithReply(s, reply), ack.node, s.agents[ack.node].(session := Idle)))
  {
    var p := Position(s.panel.releases[ack.release].nodes, ack.node);
    var b, m := ShapeOf(s, ack.release);
    var q := ReportedBy(s.panel, ack, reply, b, m);
    EffectKeepsHistory(s.panel, ack, reply);
    EffectOrderly(s, reply, ack.release, p, q, Some(ack));
    SessionsClimb(s.panel, reply, ack.release, p, q, s.agents, ack.node);
  }

  // The acknowledging agent is done; everybody else's work is still in progress.
  lemma SessionsClimb(before: Panel, reply: Reply, release: int, p: nat, q: nat, agents: map<int, Agent>, node: int)
    requires Climb(before, reply, release, p, q) && Sessions(before, agents) && node in agents
    requires p < |before.releases[release].nodes| && before.releases[release].nodes[p].candidate.node == node
    ensures Sessions(reply.panel, agents[node := agents[node].(session := Idle)])
  {
    IdleOk(before, agents, node);
    var idle := agents[node := agents[node].(session := Idle)];
    forall n | n in idle ensures AgentOk(reply.panel, n, idle[n]) {
      assert AgentOk(before, n, idle[n]);
      AgentClimbs(before, reply, release, p, q, n, idle[n]);
    }
  }

  // ---- An administrator rolls back ----

  lemma AdministratorOrderly(s: System, release: int)
    requires Orderly(s)
    ensures Orderly(WithReply(s, RollbackRelease(s.panel, release)))
  {
    var reply := RollbackRelease(s.panel, release);
    if Unchanged(s.panel, reply) {
      assert s.log + reply.events == s.log;
    } else {
      var b, m := ShapeOf(s, release);
      var r := s.panel.releases[release];
      if r.status == ManualRequired {
        ResumeOrderly(s, release, b, m);
      } else {
        CloseFailed(s, release, b, m);
      }
    }
  }

  lemma ResumeEffect(panel: Panel, release: int, b: nat, m: nat) returns (q: nat)
    requires release in panel.releases && panel.releases[release].status == ManualRequired
    requires Shape(panel.releases[release], b, m) && Tidy(panel.releases[release])
    requires !Unchanged(panel, RollbackRelease(panel, release))
    ensures Effect(panel, RollbackRelease(panel, release), release, |panel.releases[release].nodes|, q, None)
  {
    var reply := BeginRollback(panel, release);
    assert RollbackRelease(panel, release) == reply;
    q := RollbackClimbs(panel, panel, release, b, m);
    UnrolledEffect(panel, reply, release, q);
  }

  lemma UnrolledEffect(panel: Panel, reply: Reply, release: int, q: nat)
    requires Unrolled(panel, reply, release, q) && reply == BeginRollback(panel, release) && reply.error.None?
    requires panel.releases[release].status in LIVE && Tidy(panel.releases[release])
    ensures Effect(panel, reply, release, |panel.releases[release].nodes|, q, None)
  {
    UnrolledClimbs(panel, reply, release, |panel.releases[release].nodes|, q);
    BeginRollbackStatus(panel, release);
    NoAcks(reply.events, release);
  }

  lemma ResumeOrderly(s: System, release: int, b: nat, m: nat)
    requires Orderly(s) && release in s.panel.releases && s.panel.releases[release].status == ManualRequired
    requires Shape(s.panel.releases[release], b, m) && Tidy(s.panel.releases[release])
    requires !Unchanged(s.panel, RollbackRelease(s.panel, release))
    ensures Orderly(WithReply(s, RollbackRelease(s.panel, release)))
  {
    var r := s.panel.releases[release];
    var reply := RollbackRelease(s.panel, release);
    RollbackKeepsHistory(s.panel, release);
    var q := ResumeEffect(s.panel, release, b, m);
    EffectOrderly(s, reply, release, |r.nodes|, q, None);
    AllSessionsClimb(s.panel, reply, release, q, s.agents);
  }

  lemma AllSessionsClimb(before: Panel, reply: Reply, release: int, q: nat, agents: map<int, Agent>)
    requires release in before.releases && Climb(before, reply, release, |before.releases[release].nodes|, q) && Sessions(before, agents)
    ensures Sessions(reply.panel, agents)
  {
    forall n | n in agents ensures AgentOk(reply.panel, n, agents[n]) {
      AgentClimbs(before, reply, release, |before.releases[release].nodes|, q, n, agents[n]);
    }
  }

  // A failed release has activated nobody, so that rolling it back only closes it.
  lemma ClosingReply(panel: Panel, release: int, b: nat, m: nat)
    requires release in panel.releases && panel.releases[release].status == FailedRelease
    requires Shape(panel.releases[release], b, m) && Tidy(panel.releases[release])
    ensures RollbackRelease(panel, release) == Accepted(SetStatus(panel, release, RolledBackRelease), [])
  {
    var r := panel.releases[release];
    forall i | 0 <= i < |r.nodes| ensures Unwound(r.nodes[i]) == r.nodes[i] && r.nodes[i].status != RollbackPending {
      assert NodeShape(r.nodes[i], i, b, m);
    }
    assert UnwoundNodes(r.nodes) == r.nodes;
    assert PastLastWith(r.nodes, RollbackPending) == 0;
    assert panel.(releases := panel.releases[release := r.(nodes := UnwoundNodes(r.nodes))]) == panel;
  }

  lemma CloseFailed(s: System, release: int, b: nat, m: nat)
    requires Orderly(s) && release in s.panel.releases && s.panel.releases[release].status == FailedRelease
    requires Shape(s.panel.releases[release], b, m) && Tidy(s.panel.releases[release])
    ensures Orderly(WithReply(s, RollbackRelease(s.panel, release)))
  {
    assert s.log + [] == s.log;
    ClosingReply(s.panel, release, b, m);
    ClosedConsistent(s, release);
    ClosedPieces(s.panel, release, s.log, s.agents);
  }

  lemma ClosedConsistent(s: System, release: int)
    requires Consistent(s) && release in s.panel.releases
    requires RollbackRelease(s.panel, release) == Accepted(SetStatus(s.panel, release, RolledBackRelease), [])
    ensures Consistent(s.(panel := SetStatus(s.panel, release, RolledBackRelease)))
  {
    RollbackKeepsHistory(s.panel, release);
    EffectConsistent(s, RollbackRelease(s.panel, release), release);
    assert s.log + [] == s.log;
  }

  lemma ClosedPieces(before: Panel, release: int, log: seq<Event>, agents: map<int, Agent>)
    requires OrderlyPanel(before, log) && Sessions(before, agents) && release in before.releases
    ensures OrderlyPanel(SetStatus(before, release, RolledBackRelease), log)
    ensures Sessions(SetStatus(before, release, RolledBackRelease), agents)
  {
    var after := SetStatus(before, release, RolledBackRelease);
    assert log + [] == log;
    SameNodesKeep(before, after, log, agents, []);
    FewerLiveKeep(before, after);
    BoundedKeep(before, after);
    CloseUnescalated(before, release, log);
    CloseTidied(before, release);
  }

  lemma CloseTidied(before: Panel, release: int)
    requires Tidied(before) && release in before.releases
    ensures Tidied(SetStatus(before, release, RolledBackRelease))
  {
    var after := SetStatus(before, release, RolledBackRelease);
    forall x | x in after.releases ensures Tidy(after.releases[x]) {
      assert Tidy(before.releases[x]);
    }
  }

  lemma CloseUnescalated(before: Panel, release: int, log: seq<Event>)
    requires Unescalated(before, log) && release in before.releases
    ensures Unescalated(SetStatus(before, release, RolledBackRelease), log)
  {
    var after := SetStatus(before, release, RolledBackRelease);
    forall r | Live(after, r) && !EverEscalated(log, r) ensures InStep(after, r) {
      assert InStep(before, r);
      assert forall n :: Has(after, r, n) ==> Has(before, r, n) && NodeOf(after, r, n) == NodeOf(before, r, n);
    }
  }

  // ---- The other steps ----

  lemma FetchOrderly(s: System, node: int)
    requires Orderly(s)
    ensures Orderly(Fetching(s, node))
  {
    var agent := AgentOf(s, node);
    if agent.session.Offered? {
      assert AgentOk(s.panel, node, agent);
      if Fenced(agent.stored, agent.session.pending) {
        WithAgentOk(s, node, agent.(session := Idle));
      } else {
        FetchedOrderly(s, node, agent);
      }
    }
  }

  lemma WithAgentOk(s: System, node: int, agent: Agent)
    requires Orderly(s) && AgentOk(s.panel, node, agent)
    ensures Orderly(WithAgent(s, node, agent))
  {
  }

  lemma FetchCases(panel: Panel, node: int, release: int, phase: Phase)
    ensures var fetched := GetAgentDeployment(panel, node, release, phase);
            || (fetched.panel == panel && fetched.events == [])
            || (release in panel.releases && panel.releases[release].status in RUNNING && Has(panel, release, node) && fetched.document.Err?
                && fetched.panel == Escalate(panel, release, {node}) && fetched.events == [Escalated({release}, Material)])
    ensures var document := GetAgentDeployment(panel, node, release, phase).document;
            document.Ok? ==> document.value.release == release && document.value.phase == phase
  {
  }

  lemma FetchedOrderly(s: System, node: int, agent: Agent)
    requires Orderly(s) && agent == AgentOf(s, node) && agent.session.Offered? && AgentOk(s.panel, node, agent)
    requires !Fenced(agent.stored, agent.session.pending)
    ensures Orderly(Fetching(s, node))
  {
    var pending := agent.session.pending;
    var fetched := GetAgentDeployment(s.panel, node, pending.release, pending.phase);
    FetchCases(s.panel, node, pending.release, pending.phase);
    if fetched.panel == s.panel && fetched.events == [] {
      assert s.log + fetched.events == s.log;
      var bound := fetched.document.Ok? && fetched.document.value.generation == pending.generation;
      WithAgentOk(s, node, agent.(session := if bound then Holding(fetched.document.value) else Idle));
    } else {
      EscalatedFetch(s, node, agent, pending.release);
    }
  }

  lemma EscalatedFetch(s: System, node: int, agent: Agent, release: int)
    requires Orderly(s) && AgentOk(s.panel, node, agent)
    requires release in s.panel.releases && s.panel.releases[release].status in RUNNING && Has(s.panel, release, node)
    ensures Orderly(WithAgent(s.(panel := Escalate(s.panel, release, {node}), log := s.log + [Escalated({release}, Material)]),
                      node, agent.(session := Idle)))
  {
    EscalateOrderly(s, release, {node});
    EscalateAgentOk(s.panel, release, {node}, node, agent.(session := Idle));
    WithAgentOk(s.(panel := Escalate(s.panel, release, {node}), log := s.log + [Escalated({release}, Material)]),
      node, agent.(session := Idle));
  }

  lemma EscalateAgentOk(panel: Panel, release: int, nodes: set<int>, node: int, agent: Agent)
    requires release in panel.releases && AgentOk(panel, node, agent)
    ensures AgentOk(Escalate(panel, release, nodes), node, agent)
  {
    var after := Escalate(panel, release, nodes);
    assert forall r, n :: Has(panel, r, n) ==> Has(after, r, n) && NodeOf(after, r, n) == NodeOf(panel, r, n);
  }

  // An offer of the panel is work in progress.
  lemma OfferOk(panel: Panel, node: int)
    requires Timed(panel)
    ensures var pending := PendingFor(panel, node);
            pending.Some? ==> InProgress(panel, node, pending.value.release, pending.value.phase, pending.value.generation)
  {
    var pending := PendingFor(panel, node);
    if pending.Some? {
      var x := NodeOf(panel, pending.value.release, node);
      assert x.generation == x.candidate.previousGeneration + if x.phase == Rollback then 2 else 1;
    }
  }

  lemma HeartbeatOrderly(s: System, node: int)
    requires Orderly(s)
    ensures Orderly(Next(s, Heartbeat(node)))
  {
    var agent := AgentOf(s, node).(session := Heard(s, node));
    OfferOk(s.panel, node);
    assert AgentOk(s.panel, node, agent) by {
      assert node in s.agents ==> AgentOk(s.panel, node, s.agents[node]);
    }
    WithAgentOk(s, node, agent);
  }

  lemma ActedOk(panel: Panel, node: int, agent: Agent, outcome: Outcome)
    requires AgentOk(panel, node, agent) && agent.session.Holding?
    ensures AgentOk(panel, node, Acted(node, agent, agent.session.document, outcome))
  {
  }

  lemma ActOrderly(s: System, node: int, outcome: Outcome)
    requires Orderly(s)
    ensures Orderly(Next(s, Act(node, outcome)))
  {
    var agent := AgentOf(s, node);
    if agent.session.Holding? {
      assert AgentOk(s.panel, node, agent);
      ActedOk(s.panel, node, agent, outcome);
      WithAgentOk(s, node, Acted(node, agent, agent.session.document, outcome));
    }
  }

  lemma RecoverOrderly(s: System, overdue: set<int>)
    requires Orderly(s)
    ensures Orderly(Next(s, Recover(overdue)))
  {
    assert Announces(s.panel, RecoverReleases(s.panel, overdue), Overdue(s.panel, overdue), s.log) by {
      RecoverAnnounces(s.panel, overdue, s.log);
    }
    SweepOrderly(s, RecoverReleases(s.panel, overdue), Overdue(s.panel, overdue), Timeout);
  }

  lemma RecoverAnnounces(panel: Panel, overdue: set<int>, log: seq<Event>)
    ensures Announces(panel, RecoverReleases(panel, overdue), Overdue(panel, overdue), log)
  {
  }

  lemma AuthorizationAnnounces(panel: Panel, managed: set<int>, log: seq<Event>)
    requires Unescalated(panel, log)
    ensures Announces(panel, InvalidateTopologyAuthorization(panel, managed), RunningReleases(panel), log)
  {
    var after := InvalidateTopologyAuthorization(panel, managed);
    forall r | Live(after, r) && r !in RunningReleases(panel) ensures EverEscalated(log, r) {
      assert panel.releases[r].status == ManualRequired;
    }
  }

  lemma AuthorizationOrderly(s: System, managed: set<int>)
    requires Orderly(s)
    ensures Orderly(Next(s, AuthorizationChange(managed)))
  {
    AuthorizationAnnounces(s.panel, managed, s.log);
    SweepOrderly(s, InvalidateTopologyAuthorization(s.panel, managed), RunningReleases(s.panel), Authorization);
  }

  lemma RosterOrderly(s: System, material: map<Topology, Version>)
    requires Orderly(s)
    ensures Orderly(Next(s, RosterChange(material)))
  {
    MaterialOrderly(s, Reroster(s.panel.material, material));
  }

  lemma MaterialOrderly(s: System, material: map<Topology, Version>)
    requires Orderly(s)
    ensures Orderly(s.(panel := s.panel.(material := material)))
  {
    var after := s.panel.(material := material);
    SameNodesKeep(s.panel, after, s.log, s.agents, []);
    assert s.log + [] == s.log;
    FewerLiveKeep(s.panel, after);
    BoundedKeep(s.panel, after);
    RosterUnescalated(s.panel, after, s.log);
  }

  lemma RosterUnescalated(before: Panel, after: Panel, log: seq<Event>)
    requires Unescalated(before, log) && after == before.(material := after.material)
    ensures Unescalated(after, log)
  {
    forall r | Live(after, r) && !EverEscalated(log, r) ensures InStep(after, r) {
      assert InStep(before, r);
      assert forall n :: Has(after, r, n) ==> Has(before, r, n) && NodeOf(after, r, n) == NodeOf(before, r, n);
    }
  }

  lemma NextOrderly(s: System, step: Step)
    requires Orderly(s) && Disciplined(s, step)
    ensures Orderly(Next(s, step))
  {
    match step
    case Create(current, capable, candidates) => CreateOrderly(s, current, capable, candidates);
    case Heartbeat(node) => HeartbeatOrderly(s, node);
    case Fetch(node) => FetchOrderly(s, node);
    case Act(node, outcome) => ActOrderly(s, node, outcome);
    case Deliver(ack) => DeliverOrderly(s, ack);
    case Recover(overdue) => RecoverOrderly(s, overdue);
    case AdministratorRollback(release) => AdministratorOrderly(s, release);
    case AuthorizationChange(managed) => AuthorizationOrderly(s, managed);
    case RosterChange(material) => RosterOrderly(s, material);
  }

  lemma {:induction false} RunOrderly(s: System, steps: seq<Step>)
    requires Started(s) && DisciplinedRun(s, steps)
    ensures Orderly(Execute(s, steps))
  {
    if steps == [] {
      assert Unescalated(s.panel, s.log);
    } else {
      var front := steps[..|steps| - 1];
      forall i | 0 <= i < |front| ensures Disciplined(Execute(s, front[..i]), front[i]) {
        assert front[..i] == steps[..i] && front[i] == steps[i];
      }
      RunOrderly(s, front);
      assert Disciplined(Execute(s, steps[..|steps| - 1]), steps[|steps| - 1]);
      NextOrderly(Execute(s, front), steps[|steps| - 1]);
    }
  }
}
