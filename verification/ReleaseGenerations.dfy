/**
  When a node's generation can go back: exactly when a rollback reaches a node whose generation has been moved past the
  one it would get. That takes two changes of runtime material in one release, or a change of authorization.
*/
module ReleaseGenerations {
  import opened Common
  import opened Messages
  import opened ReleaseModel
  import opened ReleaseShape
  import opened ReleaseSystem
  import opened ReleaseHistory
  import opened ReleaseRuns
  import opened ReleaseClimb
  import opened ReleaseSession
  import opened ReleaseDiscipline
  import opened ReleaseDisciplinedRuns
  import opened ReleaseBorders

  // What a transaction of the protocol can do to a panel.
  ghost predicate Case(before: Panel, reply: Reply, release: int, p: nat, q: nat, ack: Option<Ack>) {
    || Unchanged(before, reply)
    || Effect(before, reply, release, p, q, ack)
    || Escalation(before, reply, release)
    || (release in before.releases && reply == Accepted(SetStatus(before, release, RolledBackRelease), []))
  }

  ghost predicate Escalation(before: Panel, reply: Reply, release: int) {
    && release in before.releases && before.releases[release].status in RUNNING
    && reply.events == [Escalated({release}, Material)]
    && exists nodes: set<int> :: reply.panel == Escalate(before, release, nodes) && forall n :: n in nodes ==> Has(before, release, n)
  }

  lemma DeliverCase(s: System, ack: Ack) returns (p: nat, q: nat)
    requires Orderly(s) && Disciplined(s, Deliver(ack))
    ensures Case(s.panel, Acknowledge(s.panel, ack), ack.release, p, q, Some(ack))
  {
    var reply := Acknowledge(s.panel, ack);
    AcknowledgeEffects(s.panel, ack);
    if Acked(ack) in s.log {
      var j :| 0 <= j < |s.log| && s.log[j] == Acked(ack);
      assert Settled(s.panel, ack);
      SettledInert(s.panel, ack);
      p, q := 0, 0;
    } else if Unchanged(s.panel, reply) {
      p, q := 0, 0;
    } else {
      p, q := EffectiveCase(s, ack);
    }
  }

  lemma EffectiveCase(s: System, ack: Ack) returns (p: nat, q: nat)
    requires Orderly(s) && AgentOf(s, ack.node).session == Answering(ack) && Effective(s.panel, ack, Acknowledge(s.panel, ack))
    ensures Case(s.panel, Acknowledge(s.panel, ack), ack.release, p, q, Some(ack))
  {
    var reply := Acknowledge(s.panel, ack);
    p, q := Position(s.panel.releases[ack.release].nodes, ack.node), 0;
    if reply.error.None? {
      var b, m := ShapeOf(s, ack.release);
      assert AgentOk(s.panel, ack.node, s.agents[ack.node]);
      q := ReportedBy(s.panel, ack, reply, b, m);
    } else {
      assert reply.panel == Escalate(s.panel, ack.release, ReleaseNodes(s.panel.releases[ack.release]));
    }
  }

  lemma AdministratorCase(s: System, release: int) returns (p: nat, q: nat)
    requires Orderly(s)
    ensures Case(s.panel, RollbackRelease(s.panel, release), release, p, q, None)
  {
    var reply := RollbackRelease(s.panel, release);
    p, q := 0, 0;
    if !Unchanged(s.panel, reply) {
      var b, m := ShapeOf(s, release);
      if s.panel.releases[release].status == ManualRequired {
        p := |s.panel.releases[release].nodes|;
        q := ResumeEffect(s.panel, release, b, m);
      } else {
        ClosingReply(s.panel, release, b, m);
      }
    }
  }

  lemma FetchCase(panel: Panel, node: int, release: int, phase: Phase)
    ensures var fetched := GetAgentDeployment(panel, node, release, phase);
            Case(panel, Reply(fetched.panel, fetched.events, None), release, 0, 0, None)
  {
    FetchCases(panel, node, release, phase);
    var fetched := GetAgentDeployment(panel, node, release, phase);
    if fetched.panel != panel || fetched.events != [] {
      assert fetched.panel == Escalate(panel, release, {node});
    }
  }

  // ---- One step ----

  // The next node that a rollback of the release switches back is this one, its previous topology renders, and its
  // generation is already past the one that it would get.
  predicate Overtaken(panel: Panel, release: int, node: int) {
    && release in panel.releases && SwitchesBack(panel, release)
    && var n := panel.releases[release].nodes[PastLastStanding(panel.releases[release].nodes) - 1];
       n.candidate.node == node && node in panel.generations && panel.generations[node] > n.generation + 1
  }

  // The acknowledgement passes every guard.
  predicate Admits(panel: Panel, ack: Ack) {
    && ValidAck(ack) && Has(panel, ack.release, ack.node)
    && var r := panel.releases[ack.release];
       var n := r.nodes[Position(r.nodes, ack.node)];
       && n.generation == ack.generation && (ack.version == n.version || ack.status == Failed)
       && !Settles(n, ack) && n.phase == ack.phase
       && r.status in {Preparing, Applying, RollingBack} && (n.phase == Prepare || n.status == Active)
       && ack.node in panel.generations && panel.generations[ack.node] == n.generation
       && RuntimeDocument(panel, n, n.phase) == Some(n.version)
  }

  // What a caller can tell before the step: the rollback of an escalated release is resumed, or a node that was switched
  // back says so, and the next node to switch back has been overtaken.
  predicate Lowers(panel: Panel, step: Step, node: int) {
    match step
    case AdministratorRollback(release) => Overtaken(panel, release, node) && panel.releases[release].status == ManualRequired
    case Deliver(ack) => Overtaken(panel, ack.release, node) && Admits(panel, ack) && ack.status == RolledBack
    case _ => false
  }

  ghost predicate LoweredExactly(before: Panel, after: Panel, step: Step) {
    && before.generations.Keys <= after.generations.Keys
    && forall n :: n in before.generations ==> (after.generations[n] < before.generations[n] <==> Lowers(before, step, n))
  }

  lemma RisesExactly(before: Panel, after: Panel, step: Step)
    requires GenerationsRise(before, after) && forall n :: !Lowers(before, step, n)
    ensures LoweredExactly(before, after, step)
  {
    forall n | n in before.generations.Keys ensures n in after.generations.Keys {}
  }

  // A step that switches back the last standing node, if there is one that renders.
  lemma BackLowers(before: Panel, after: Panel, release: int, step: Step, b: nat)
    requires release in before.releases && PastLastStanding(before.releases[release].nodes) == b
    requires after.generations ==
      if SwitchesBack(before, release) then NextGeneration(before.generations, before.releases[release].nodes[b - 1]) else before.generations
    requires forall n :: Lowers(before, step, n) <==> Overtaken(before, release, n)
    ensures LoweredExactly(before, after, step)
  {
    forall n | n in before.generations
      ensures n in after.generations && (after.generations[n] < before.generations[n] <==> Overtaken(before, release, n))
    {
    }
  }

  lemma AdministratorLowers(s: System, release: int)
    requires Orderly(s)
    ensures LoweredExactly(s.panel, RollbackRelease(s.panel, release).panel, AdministratorRollback(release))
  {
    var step := AdministratorRollback(release);
    var after := RollbackRelease(s.panel, release).panel;
    if release in s.panel.releases && s.panel.releases[release].status == ManualRequired {
      var b, m := ShapeOf(s, release);
      RollbackExactly(s.panel, release, b, m);
      StandingIs(s.panel.releases[release], b, m);
      BackLowers(s.panel, after, release, step, b);
    } else {
      if release in s.panel.releases && s.panel.releases[release].status == FailedRelease {
        var b, m := ShapeOf(s, release);
        ClosingReply(s.panel, release, b, m);
      }
      RisesExactly(s.panel, after, step);
    }
  }

  // An acknowledgement that does not pass every guard can only move generations on.
  lemma NotAdmitted(panel: Panel, ack: Ack)
    requires !Admits(panel, ack)
    ensures GenerationsRise(panel, Acknowledge(panel, ack).panel)
  {
  }

  lemma IsAdmitted(panel: Panel, ack: Ack)
    requires Admits(panel, ack)
    ensures var p := Position(panel.releases[ack.release].nodes, ack.node);
            && Acknowledge(panel, ack) == Committed(panel, Told(ack, Advance(panel, ack.release, p, ack)))
            && Admitted(panel, ack.release, p, ack)
  {
  }

  // While a rollback is under way, only a node that was switched back can move another one.
  lemma RollingLowers(panel: Panel, ack: Ack, b: nat, m: nat)
    requires Admits(panel, ack) && panel.releases[ack.release].status == RollingBack && Shape(panel.releases[ack.release], b, m)
    ensures LoweredExactly(panel, Acknowledge(panel, ack).panel, Deliver(ack))
  {
    IsAdmitted(panel, ack);
    var r := panel.releases[ack.release];
    var p := Position(r.nodes, ack.node);
    var after := Acknowledge(panel, ack).panel;
    assert NodeShape(r.nodes[p], p, b, m);
    if ack.status == RolledBack {
      SwitchedBackNext(panel, ack, p, b, m);
      BackLowers(panel, after, ack.release, Deliver(ack), b);
    } else {
      if ack.status == Prepared {
        assert NodeShape(r.nodes[b], b, b, m);
      }
      RisesExactly(panel, after, Deliver(ack));
    }
  }

  // An answer to having been switched back leaves the next node to switch back in its place.
  lemma AnsweredPast(r: Release, p: nat, b: nat, m: nat)
    requires Frame(r.nodes, b, m) && Unwinding(r.nodes, b) && p < |r.nodes| && r.nodes[p].phase == Rollback
    ensures var nodes := r.nodes[p := r.nodes[p].(status := RolledBack)];
            PastLastWith(nodes, RollbackPending) == b && (b > 0 ==> nodes[b - 1] == r.nodes[b - 1])
  {
    var nodes := r.nodes[p := r.nodes[p].(status := RolledBack)];
    var q := PastLastWith(nodes, RollbackPending);
    assert NodeShape(r.nodes[p], p, b, m);
    assert q > 0 ==> NodeShape(r.nodes[q - 1], q - 1, b, m);
    assert b > 0 ==> nodes[b - 1] == r.nodes[b - 1];
  }

  lemma SwitchedBackNext(panel: Panel, ack: Ack, p: nat, b: nat, m: nat)
    requires Admitted(panel, ack.release, p, ack) && ack.status == RolledBack && panel.releases[ack.release].nodes[p].phase == Rollback
    requires panel.releases[ack.release].status == RollingBack && Shape(panel.releases[ack.release], b, m)
    ensures PastLastStanding(panel.releases[ack.release].nodes) == b
    ensures Committed(panel, Told(ack, Advance(panel, ack.release, p, ack))).panel.generations ==
      if SwitchesBack(panel, ack.release) then NextGeneration(panel.generations, panel.releases[ack.release].nodes[b - 1])
      else panel.generations
  {
    var r := panel.releases[ack.release];
    StandingIs(r, b, m);
    AnsweredPast(r, p, b, m);
    var told := SetNode(panel, ack.release, p, r.nodes[p].(status := RolledBack));
    assert Advance(panel, ack.release, p, ack) == ActivateNext(told, ack.release, true);
    ToldBack(panel, told, ack, b);
  }

  lemma ToldBack(panel: Panel, told: Panel, ack: Ack, b: nat)
    requires told.generations == panel.generations && told.material == panel.material
    requires ack.release in panel.releases && ack.release in told.releases
    requires PastLastStanding(panel.releases[ack.release].nodes) == b && b <= |told.releases[ack.release].nodes|
    requires PastLastWith(told.releases[ack.release].nodes, RollbackPending) == b
    requires b > 0 ==> told.releases[ack.release].nodes[b - 1] == panel.releases[ack.release].nodes[b - 1]
    ensures Committed(panel, Told(ack, ActivateNext(told, ack.release, true))).panel.generations ==
      if SwitchesBack(panel, ack.release) then NextGeneration(panel.generations, panel.releases[ack.release].nodes[b - 1])
      else panel.generations
  {
    BackExactly(told, ack.release, b);
  }

  // A release that is not rolling back is in step, so that whatever moves a generation moves it on.
  lemma InStepRises(before: Panel, reply: Reply, release: int, p: nat, q: nat)
    requires Climb(before, reply, release, p, q) && Timed(before) && Timed(reply.panel) && InStep(before, release)
    requires DistinctNodes(before.releases[release].nodes)
    ensures GenerationsRise(before, reply.panel)
  {
    var nodes := before.releases[release].nodes;
    if q < |nodes| {
      var node := nodes[q].candidate.node;
      PositionOf(nodes, q);
      NodeClimbs(before, reply, release, p, q, release, node);
      HasSame(before, reply, release, release, node);
      var x, y := NodeOf(before, release, node), NodeOf(reply.panel, release, node);
      assert x.generation == x.candidate.previousGeneration + if x.phase == Rollback then 2 else 1;
      assert y.generation == y.candidate.previousGeneration + if y.phase == Rollback then 2 else 1;
    }
  }

  lemma CaseRises(s: System, reply: Reply, release: int, p: nat, q: nat, ack: Option<Ack>)
    requires Orderly(s) && Case(s.panel, reply, release, p, q, ack) && Timed(reply.panel)
    requires release in s.panel.releases && s.panel.releases[release].status in {Preparing, Applying}
    ensures GenerationsRise(s.panel, reply.panel)
  {
    if Effect(s.panel, reply, release, p, q, ack) {
      ConsistentTimed(s);
      ApplyingInStep(s.panel, s.log, release);
      InStepRises(s.panel, reply, release, p, q);
    }
  }

  lemma ApplyingInStep(panel: Panel, log: seq<Event>, release: int)
    requires Unescalated(panel, log) && release in panel.releases && panel.releases[release].status in {Preparing, Applying}
    ensures InStep(panel, release)
  {
    assert Live(panel, release) && !EverEscalated(log, release);
  }

  lemma DeliverLowers(s: System, ack: Ack)
    requires Orderly(s) && Disciplined(s, Deliver(ack)) && Timed(Acknowledge(s.panel, ack).panel)
    ensures LoweredExactly(s.panel, Acknowledge(s.panel, ack).panel, Deliver(ack))
  {
    var after := Acknowledge(s.panel, ack).panel;
    if !Admits(s.panel, ack) {
      NotAdmitted(s.panel, ack);
      RisesExactly(s.panel, after, Deliver(ack));
    } else {
      var b, m := ShapeOf(s, ack.release);
      if s.panel.releases[ack.release].status == RollingBack {
        RollingLowers(s.panel, ack, b, m);
      } else {
        var p, q := DeliverCase(s, ack);
        CaseRises(s, Acknowledge(s.panel, ack), ack.release, p, q, Some(ack));
        NotRolledBack(s.panel, ack, b, m);
        RisesExactly(s.panel, after, Deliver(ack));
      }
    }
  }

  lemma NotRolledBack(panel: Panel, ack: Ack, b: nat, m: nat)
    requires Admits(panel, ack) && panel.releases[ack.release].status != RollingBack && Shape(panel.releases[ack.release], b, m)
    ensures ack.status != RolledBack
  {
    var nodes := panel.releases[ack.release].nodes;
    assert NodeShape(nodes[Position(nodes, ack.node)], Position(nodes, ack.node), b, m);
  }

  lemma ExtensionRises(before: Panel, after: Panel, id: int)
    requires Extends(before, after, id)
    ensures GenerationsRise(before, after)
  {
    forall n | n in before.generations ensures n in after.generations && before.generations[n] <= after.generations[n] {
      assert if Has(after, id, n) then NewNode(before, after, id, n) else SameGeneration(before, after, n);
    }
  }

  lemma CreateRises(s: System, current: bool, capable: set<int>, candidates: seq<Candidate>)
    requires Consistent(s)
    ensures GenerationsRise(s.panel, CreateTopologyRelease(s.panel, current, capable, candidates).panel)
  {
    var reply := CreateTopologyRelease(s.panel, current, capable, candidates);
    if reply.error.None? {
      NewExtends(s, current, capable, candidates);
      ExtensionRises(s.panel, reply.panel, s.panel.lastRelease + 1);
    }
  }

  lemma FetchRises(s: System, node: int)
    ensures GenerationsRise(s.panel, Fetching(s, node).panel)
  {
    var agent := AgentOf(s, node);
    if agent.session.Offered? {
      FetchCases(s.panel, node, agent.session.pending.release, agent.session.pending.phase);
    }
  }

  lemma StepLowers(s: System, step: Step)
    requires Orderly(s) && Disciplined(s, step)
    ensures LoweredExactly(s.panel, Next(s, step).panel, step)
  {
    match step
    case Create(current, capable, candidates) =>
      CreateRises(s, current, capable, candidates);
      RisesExactly(s.panel, Next(s, step).panel, step);
    case Fetch(node) =>
      FetchRises(s, node);
      RisesExactly(s.panel, Next(s, step).panel, step);
    case Deliver(ack) =>
      DeliverOrderly(s, ack);
      DeliverLowers(s, ack);
    case AdministratorRollback(release) => AdministratorLowers(s, release);
    case _ => RisesExactly(s.panel, Next(s, step).panel, step);
  }

  // A step lowers the generation of a node if and only if an administrator resumes an escalated release, or a node that
  // was switched back acknowledges it, and the next node to switch back is this one, renders, and has been overtaken.
  lemma GenerationLoweredExactly(s: System, steps: seq<Step>, step: Step, node: int)
    requires Started(s) && DisciplinedRun(s, steps) && Disciplined(Execute(s, steps), step)
    requires node in Execute(s, steps).panel.generations
    ensures var before, after := Execute(s, steps).panel, Next(Execute(s, steps), step).panel;
            && node in after.generations
            && (after.generations[node] < before.generations[node] <==> Lowers(before, step, node))
  {
    RunOrderly(s, steps);
    StepLowers(Execute(s, steps), step);
    assert node in Execute(s, steps).panel.generations.Keys;
  }

  // ---- Whole runs ----

  // The generation of a node is ahead of its live release by at most the changes of runtime material in that release.
  ghost predicate Ahead(panel: Panel, log: seq<Event>) {
    forall r, n :: Live(panel, r) && Has(panel, r, n) ==>
      n in panel.generations && panel.generations[n] <= NodeOf(panel, r, n).generation + EscalationCount(log, r, Material)
  }

  lemma EffectAhead(s: System, reply: Reply, release: int, p: nat, q: nat, ack: Option<Ack>)
    requires Orderly(s) && Effect(s.panel, reply, release, p, q, ack) && Timed(reply.panel) && Ahead(s.panel, s.log)
    requires DistinctNodes(s.panel.releases[release].nodes)
    ensures Ahead(reply.panel, s.log + reply.events)
  {
    forall r, n | Live(reply.panel, r) && Has(reply.panel, r, n)
      ensures n in reply.panel.generations
      ensures reply.panel.generations[n] <= NodeOf(reply.panel, r, n).generation + EscalationCount(s.log + reply.events, r, Material)
    {
      EscalationConcat(s.log, reply.events, r, Material);
      HasSame(s.panel, reply, release, r, n);
      var nodes := s.panel.releases[release].nodes;
      if q < |nodes| && nodes[q].candidate.node == n {
        PositionOf(nodes, q);
        Unshared(s.panel, release, r, n);
      } else if r == release {
        UnswitchedSame(s.panel, reply, release, p, q, n);
      }
    }
  }

  lemma EscalationAhead(before: Panel, reply: Reply, release: int, log: seq<Event>)
    requires Escalation(before, reply, release) && Exclusive(before) && Ahead(before, log)
    ensures Ahead(reply.panel, log + reply.events)
  {
    var after := reply.panel;
    assert reply.events[..0] == [];
    forall r, n | Live(after, r) && Has(after, r, n)
      ensures n in after.generations && after.generations[n] <= NodeOf(after, r, n).generation + EscalationCount(log + reply.events, r, Material)
    {
      EscalationConcat(log, reply.events, r, Material);
      assert Has(before, r, n) && Live(before, r) && NodeOf(after, r, n) == NodeOf(before, r, n);
      if Has(before, release, n) {
        Unshared(before, release, r, n);
      }
    }
  }

  lemma QuietAhead(before: Panel, after: Panel, log: seq<Event>, more: seq<Event>)
    requires SameNodes(before, after) && FewerLive(before, after) && after.generations == before.generations && Ahead(before, log)
    ensures Ahead(after, log + more)
  {
    forall r, n | Live(after, r) && Has(after, r, n)
      ensures n in after.generations && after.generations[n] <= NodeOf(after, r, n).generation + EscalationCount(log + more, r, Material)
    {
      EscalationConcat(log, more, r, Material);
      assert Has(before, r, n) && Live(before, r) && NodeOf(after, r, n) == NodeOf(before, r, n);
    }
  }

  lemma CaseAhead(s: System, reply: Reply, release: int, p: nat, q: nat, ack: Option<Ack>)
    requires Orderly(s) && Case(s.panel, reply, release, p, q, ack) && Timed(reply.panel) && Ahead(s.panel, s.log)
    ensures Ahead(reply.panel, s.log + reply.events)
  {
    if Effect(s.panel, reply, release, p, q, ack) {
      ConsistentTimed(s);
      EffectAhead(s, reply, release, p, q, ack);
    } else if Escalation(s.panel, reply, release) {
      EscalationAhead(s.panel, reply, release, s.log);
    } else {
      QuietAhead(s.panel, reply.panel, s.log, reply.events);
    }
  }

  lemma CreateAhead(s: System, current: bool, capable: set<int>, candidates: seq<Candidate>)
    requires Consistent(s) && Ahead(s.panel, s.log)
    ensures Ahead(CreateTopologyRelease(s.panel, current, capable, candidates).panel, s.log)
  {
    var reply := CreateTopologyRelease(s.panel, current, capable, candidates);
    if reply.error.None? {
      NewExtends(s, current, capable, candidates);
      ExtensionAhead(s.panel, reply.panel, s.panel.lastRelease + 1, s.log);
    }
  }

  lemma ExtensionAhead(before: Panel, after: Panel, id: int, log: seq<Event>)
    requires Extends(before, after, id) && Ahead(before, log)
    ensures Ahead(after, log)
  {
    forall r, n | Live(after, r) && Has(after, r, n)
      ensures n in after.generations && after.generations[n] <= NodeOf(after, r, n).generation + EscalationCount(log, r, Material)
    {
      if r == id {
        assert NewNode(before, after, id, n);
      } else {
        assert Live(before, r) && Has(before, r, n) && Busy(before, n);
        BusySame(before, after, id, n);
      }
    }
  }

  lemma BusySame(before: Panel, after: Panel, id: int, n: int)
    requires Extends(before, after, id) && Busy(before, n)
    ensures SameGeneration(before, after, n)
  {
  }

  lemma FetchAhead(s: System, node: int)
    requires Orderly(s) && Timed(Fetching(s, node).panel) && Ahead(s.panel, s.log)
    ensures Ahead(Fetching(s, node).panel, Fetching(s, node).log)
  {
    var agent := AgentOf(s, node);
    if agent.session.Offered? && !Fenced(agent.stored, agent.session.pending) {
      var pending := agent.session.pending;
      FetchCase(s.panel, node, pending.release, pending.phase);
      var fetched := GetAgentDeployment(s.panel, node, pending.release, pending.phase);
      CaseAhead(s, Reply(fetched.panel, fetched.events, None), pending.release, 0, 0, None);
    }
  }

  // The steps that no agent and no administrator takes.
  lemma EnvironmentAhead(s: System, step: Step)
    requires Ahead(s.panel, s.log) && (step.Heartbeat? || step.Act? || step.Recover? || step.RosterChange?)
    ensures Ahead(Next(s, step).panel, Next(s, step).log)
  {
    match step
    case Heartbeat(node) =>
    case Act(node, outcome) =>
    case Recover(overdue) => QuietAhead(s.panel, RecoverReleases(s.panel, overdue), s.log, [Escalated(Overdue(s.panel, overdue), Timeout)]);
    case RosterChange(material) =>
      assert s.log + [] == s.log;
      QuietAhead(s.panel, s.panel.(material := Reroster(s.panel.material, material)), s.log, []);
  }

  lemma DeliverAhead(s: System, ack: Ack)
    requires Orderly(s) && Disciplined(s, Deliver(ack)) && Timed(Delivered(s, ack).panel) && Ahead(s.panel, s.log)
    ensures Ahead(Delivered(s, ack).panel, Delivered(s, ack).log)
  {
    var p, q := DeliverCase(s, ack);
    CaseAhead(s, Acknowledge(s.panel, ack), ack.release, p, q, Some(ack));
  }

  lemma AdministratorAhead(s: System, release: int)
    requires Orderly(s) && Timed(RollbackRelease(s.panel, release).panel) && Ahead(s.panel, s.log)
    ensures Ahead(RollbackRelease(s.panel, release).panel, s.log + RollbackRelease(s.panel, release).events)
  {
    var p, q := AdministratorCase(s, release);
    CaseAhead(s, RollbackRelease(s.panel, release), release, p, q, None);
  }

  lemma StepAhead(s: System, step: Step)
    requires Orderly(s) && Disciplined(s, step) && !step.AuthorizationChange? && Ahead(s.panel, s.log)
    ensures Ahead(Next(s, step).panel, Next(s, step).log)
  {
    NextOrderly(s, step);
    match step
    case Create(current, capable, candidates) =>
      assert s.log + CreateTopologyRelease(s.panel, current, capable, candidates).events == s.log;
      CreateAhead(s, current, capable, candidates);
    case Fetch(node) => FetchAhead(s, node);
    case Deliver(ack) => DeliverAhead(s, ack);
    case AdministratorRollback(release) => AdministratorAhead(s, release);
    case _ => EnvironmentAhead(s, step);
  }

  lemma {:induction false} RunAhead(s: System, steps: seq<Step>)
    requires Started(s) && DisciplinedRun(s, steps) && forall step :: step in steps ==> !step.AuthorizationChange?
    ensures Ahead(Execute(s, steps).panel, Execute(s, steps).log)
  {
    if steps != [] {
      var k := |steps| - 1;
      DisciplinedPrefix(s, steps, k);
      RunAhead(s, steps[..k]);
      LastAhead(s, steps);
    }
  }

  lemma LastAhead(s: System, steps: seq<Step>)
    requires Started(s) && DisciplinedRun(s, steps) && |steps| > 0 && !steps[|steps| - 1].AuthorizationChange?
    requires DisciplinedRun(s, steps[..|steps| - 1])
    requires var before := Execute(s, steps[..|steps| - 1]); Ahead(before.panel, before.log)
    ensures Ahead(Execute(s, steps).panel, Execute(s, steps).log)
  {
    var k := |steps| - 1;
    RunOrderly(s, steps[..k]);
    assert Disciplined(Execute(s, steps[..k]), steps[k]);
    StepAhead(Execute(s, steps[..k]), steps[k]);
  }

  lemma DisciplinedPrefix(s: System, steps: seq<Step>, k: nat)
    requires DisciplinedRun(s, steps) && k <= |steps|
    ensures DisciplinedRun(s, steps[..k])
  {
    forall i | 0 <= i < k ensures Disciplined(Execute(s, steps[..k][..i]), steps[..k][i]) {
      assert steps[..k][..i] == steps[..i];
    }
  }

  // A node of a live release can be overtaken only by two changes of material.
  lemma OvertakenTwice(panel: Panel, log: seq<Event>, release: int, node: int)
    requires Ahead(panel, log) && Overtaken(panel, release, node) && Live(panel, release)
    requires DistinctNodes(panel.releases[release].nodes)
    ensures EscalationCount(log, release, Material) > 1
  {
    var nodes := panel.releases[release].nodes;
    PositionOf(nodes, PastLastStanding(nodes) - 1);
    assert Has(panel, release, node);
  }

  // Without authorization changes, a generation never goes back as long as the runtime material of no release has
  // changed twice by then.
  lemma GenerationsNeverGoBack(s: System, steps: seq<Step>, step: Step)
    requires Started(s) && DisciplinedRun(s, steps) && Disciplined(Execute(s, steps), step)
    requires !step.AuthorizationChange? && forall x :: x in steps ==> !x.AuthorizationChange?
    requires forall r :: r in Execute(s, steps).panel.releases ==> EscalationCount(Execute(s, steps).log, r, Material) <= 1
    ensures GenerationsRise(Execute(s, steps).panel, Next(Execute(s, steps), step).panel)
  {
    RunOrderly(s, steps);
    RunAhead(s, steps);
    var end := Execute(s, steps);
    StepLowers(end, step);
    ConsistentTimed(end);
    forall n | n in end.panel.generations
      ensures n in Next(end, step).panel.generations && end.panel.generations[n] <= Next(end, step).panel.generations[n]
    {
      assert n in end.panel.generations.Keys;
      if Lowers(end.panel, step, n) {
        OvertakenTwice(end.panel, end.log, if step.Deliver? then step.ack.release else step.release, n);
      }
    }
  }

  // ---- Release steps only ----

  // The node was last told the version that its document still has.
  predicate Current(material: map<Topology, Version>, n: ReleaseNode) {
    var topology := Target(n, n.phase); topology in material && material[topology] == n.version
  }

  ghost predicate AllCurrent(material: map<Topology, Version>, nodes: seq<ReleaseNode>) {
    forall i :: 0 <= i < |nodes| ==> Current(material, nodes[i])
  }

  ghost predicate UpToDate(panel: Panel) {
    forall r :: r in panel.releases ==> AllCurrent(panel.material, panel.releases[r].nodes)
  }

  ghost predicate Immaterial(events: seq<Event>) {
    forall e :: e in events ==> !(e.Escalated? && e.reason == Material)
  }

  ghost predicate StaysCurrent(reply: Reply, release: int) {
    && release in reply.panel.releases
    && AllCurrent(reply.panel.material, reply.panel.releases[release].nodes) && Immaterial(reply.events)
  }

  lemma ActivateCurrent(panel: Panel, release: int, rollback: bool)
    requires release in panel.releases && AllCurrent(panel.material, panel.releases[release].nodes)
    ensures var reply := ActivateNext(panel, release, rollback); reply.error.None? ==> StaysCurrent(reply, release)
  {
  }

  lemma BeginCurrent(panel: Panel, release: int)
    requires release in panel.releases && AllCurrent(panel.material, panel.releases[release].nodes)
    ensures var reply := BeginRollback(panel, release); reply.error.None? ==> StaysCurrent(reply, release)
  {
    var r := panel.releases[release];
    ActivateCurrent(panel.(releases := panel.releases[release := r.(nodes := UnwoundNodes(r.nodes))]), release, true);
  }

  lemma AdvanceCurrent(panel: Panel, release: int, p: nat, ack: Ack)
    requires release in panel.releases && p < |panel.releases[release].nodes| && AllCurrent(panel.material, panel.releases[release].nodes)
    ensures var reply := Advance(panel, release, p, ack); reply.error.None? ==> StaysCurrent(reply, release)
  {
    var n := panel.releases[release].nodes[p];
    var told := SetNode(panel, release, p, n.(status := ack.status));
    if ack.status == Failed {
      BeginCurrent(told, release);
    } else if n.phase == Prepare {
      ActivateCurrent(SetStatus(told, release, Ready), release, false);
    } else {
      ActivateCurrent(told, release, n.phase == Rollback);
    }
  }

  lemma MovesUpToDate(panel: Panel, reply: Reply, release: int)
    requires UpToDate(panel) && Moves(panel, reply, release) && StaysCurrent(reply, release)
    ensures UpToDate(reply.panel)
  {
  }

  // While every node is up to date, no acknowledgement finds changed material.
  lemma AcknowledgeUpToDate(panel: Panel, ack: Ack)
    requires UpToDate(panel)
    ensures UpToDate(Acknowledge(panel, ack).panel) && Immaterial(Acknowledge(panel, ack).events)
  {
    if Admits(panel, ack) {
      IsAdmitted(panel, ack);
      var p := Position(panel.releases[ack.release].nodes, ack.node);
      var advanced := Advance(panel, ack.release, p, ack);
      AdvanceCurrent(panel, ack.release, p, ack);
      AdvanceMoves(panel, ack.release, p, ack);
      if advanced.error.None? {
        MovesUpToDate(panel, advanced, ack.release);
      }
    } else {
      NothingChanged(panel, ack);
    }
  }

  lemma NothingChanged(panel: Panel, ack: Ack)
    requires UpToDate(panel) && !Admits(panel, ack)
    ensures Unchanged(panel, Acknowledge(panel, ack))
  {
    if Has(panel, ack.release, ack.node) {
      var nodes := panel.releases[ack.release].nodes;
      assert Current(panel.material, nodes[Position(nodes, ack.node)]);
    }
  }

  lemma RollbackUpToDate(panel: Panel, release: int)
    requires UpToDate(panel)
    ensures UpToDate(RollbackRelease(panel, release).panel) && Immaterial(RollbackRelease(panel, release).events)
  {
    if release in panel.releases {
      var reply := BeginRollback(panel, release);
      BeginCurrent(panel, release);
      BeginRollbackMoves(panel, release);
      if reply.error.None? {
        MovesUpToDate(panel, reply, release);
      }
    }
  }

  lemma FetchUpToDate(s: System, node: int)
    requires UpToDate(s.panel)
    ensures Fetching(s, node).panel == s.panel && Fetching(s, node).log == s.log
  {
    var agent := AgentOf(s, node);
    assert s.log + [] == s.log;
    if agent.session.Offered? && Has(s.panel, agent.session.pending.release, node) {
      var nodes := s.panel.releases[agent.session.pending.release].nodes;
      assert Current(s.panel.material, nodes[Position(nodes, node)]);
    }
  }

  lemma CreateUpToDate(panel: Panel, current: bool, capable: set<int>, candidates: seq<Candidate>)
    requires UpToDate(panel)
    ensures UpToDate(CreateTopologyRelease(panel, current, capable, candidates).panel)
  {
    if CreateTopologyRelease(panel, current, capable, candidates).error.None? {
      var nodes := FreshNodes(panel, candidates);
      forall i | 0 <= i < |nodes| ensures Current(panel.material, nodes[i]) {}
    }
  }

  lemma StepUpToDate(s: System, step: Step)
    requires UpToDate(s.panel) && Immaterial(s.log) && !step.RosterChange?
    ensures UpToDate(Next(s, step).panel) && Immaterial(Next(s, step).log)
  {
    match step
    case Create(current, capable, candidates) => CreateUpToDate(s.panel, current, capable, candidates);
    case Fetch(node) => FetchUpToDate(s, node);
    case Deliver(ack) => AcknowledgeUpToDate(s.panel, ack);
    case AdministratorRollback(release) => RollbackUpToDate(s.panel, release);
    case _ =>
  }

  lemma {:induction false} RunUpToDate(s: System, steps: seq<Step>)
    requires Started(s) && forall step :: step in steps ==> !step.RosterChange?
    ensures UpToDate(Execute(s, steps).panel) && Immaterial(Execute(s, steps).log)
  {
    if steps != [] {
      RunUpToDate(s, steps[..|steps| - 1]);
      StepUpToDate(Execute(s, steps[..|steps| - 1]), steps[|steps| - 1]);
    }
  }

  lemma {:induction false} NeverMaterial(log: seq<Event>, release: int)
    requires Immaterial(log)
    ensures EscalationCount(log, release, Material) == 0
  {
    if log != [] {
      assert log[|log| - 1] in log;
      NeverMaterial(log[..|log| - 1], release);
    }
  }

  ghost predicate ReleaseStepsOnly(steps: seq<Step>) {
    forall step :: step in steps ==> !step.AuthorizationChange? && !step.RosterChange?
  }

  lemma DisciplinedAt(s: System, steps: seq<Step>, k: nat)
    requires DisciplinedRun(s, steps) && k < |steps|
    ensures Disciplined(Execute(s, steps[..k]), steps[k])
  {
  }

  lemma DisciplinedLast(s: System, steps: seq<Step>)
    requires DisciplinedRun(s, steps) && |steps| > 0
    ensures DisciplinedRun(s, steps[..|steps| - 1])
    ensures Disciplined(Execute(s, steps[..|steps| - 1]), steps[|steps| - 1])
  {
    DisciplinedPrefix(s, steps, |steps| - 1);
    DisciplinedAt(s, steps, |steps| - 1);
  }

  lemma RiseTransitive(x: Panel, y: Panel, z: Panel)
    requires GenerationsRise(x, y) && GenerationsRise(y, z)
    ensures GenerationsRise(x, z)
  {
  }

  lemma LastNeverLowers(s: System, steps: seq<Step>)
    requires Started(s) && DisciplinedRun(s, steps) && ReleaseStepsOnly(steps) && |steps| > 0
    ensures GenerationsRise(Execute(s, steps[..|steps| - 1]).panel, Execute(s, steps).panel)
  {
    var front, step := steps[..|steps| - 1], steps[|steps| - 1];
    DisciplinedLast(s, steps);
    RunUpToDate(s, front);
    forall r ensures EscalationCount(Execute(s, front).log, r, Material) <= 1 {
      NeverMaterial(Execute(s, front).log, r);
    }
    GenerationsNeverGoBack(s, front, step);
  }

  ghost predicate Risen(s: System, steps: seq<Step>, i: nat)
    requires i <= |steps|
  {
    GenerationsRise(Execute(s, steps[..i]).panel, Execute(s, steps).panel)
  }

  lemma RisenFurther(s: System, steps: seq<Step>, i: nat)
    requires i < |steps| && Risen(s, steps[..|steps| - 1], i)
    requires GenerationsRise(Execute(s, steps[..|steps| - 1]).panel, Execute(s, steps).panel)
    ensures Risen(s, steps, i)
  {
    var front := steps[..|steps| - 1];
    assert front[..i] == steps[..i];
    RiseTransitive(Execute(s, front[..i]).panel, Execute(s, front).panel, Execute(s, steps).panel);
  }

  lemma {:induction false} RunRises(s: System, steps: seq<Step>, i: nat)
    requires Started(s) && DisciplinedRun(s, steps) && i <= |steps| && ReleaseStepsOnly(steps)
    ensures Risen(s, steps, i)
    decreases |steps|
  {
    if i == |steps| {
      assert steps[..i] == steps;
    } else {
      DisciplinedLast(s, steps);
      RunRises(s, steps[..|steps| - 1], i);
      LastNeverLowers(s, steps);
      RisenFurther(s, steps, i);
    }
  }

  // While no authorization and no credential changes, no generation ever goes back, over any mix of failures, time-outs,
  // retries and resumed rollbacks.
  lemma ReleaseStepsNeverLower(s: System, steps: seq<Step>, i: nat, node: int)
    requires Started(s) && DisciplinedRun(s, steps) && i <= |steps|
    requires forall step :: step in steps ==> !step.AuthorizationChange? && !step.RosterChange?
    requires node in Execute(s, steps[..i]).panel.generations
    ensures node in Execute(s, steps).panel.generations
    ensures Execute(s, steps[..i]).panel.generations[node] <= Execute(s, steps).panel.generations[node]
  {
    RunRises(s, steps, i);
    assert Risen(s, steps, i);
  }
}
