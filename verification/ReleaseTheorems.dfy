/** The promises of the release protocol under the session assumption, over every disciplined run. */
module ReleaseTheorems {
  import opened Messages
  import opened ReleaseModel
  import opened ReleaseShape
  import opened ReleaseSystem
  import opened ReleaseHistory
  import opened ReleaseClimb
  import opened ReleaseSession
  import opened ReleaseDisciplinedRuns
  import opened ReleaseRows

  // ---- Mutual exclusion ----

  // No node is ever in two live releases, and only the newest release of a node can be live.
  lemma NodeInOneLiveRelease(s: System, steps: seq<Step>, r1: int, r2: int, node: int)
    requires Started(s) && DisciplinedRun(s, steps)
    requires Has(Execute(s, steps).panel, r1, node) && Has(Execute(s, steps).panel, r2, node) && r1 < r2
    ensures Execute(s, steps).panel.releases[r1].status !in LIVE
  {
    RunOrderly(s, steps);
    var panel := Execute(s, steps).panel;
    assert Exclusive(panel);
    assert !Live(panel, r1);
  }

  // A failed release has activated nobody, so that an administrator who rolls it back only closes it.
  lemma FailedNeverActivated(s: System, steps: seq<Step>, release: int)
    requires Started(s) && DisciplinedRun(s, steps) && release in Execute(s, steps).panel.releases
    requires Execute(s, steps).panel.releases[release].status == FailedRelease
    ensures ForwardOf(Execute(s, steps).log, release) == []
    ensures RollbackRelease(Execute(s, steps).panel, release)
         == Accepted(SetStatus(Execute(s, steps).panel, release, RolledBackRelease), [])
  {
    RunOrderly(s, steps);
    var end := Execute(s, steps);
    var forward, back := ForwardOf(end.log, release), BackOf(end.log, release);
    var r := end.panel.releases[release];
    assert History(r, forward, back) && Tidy(r);
    assert |forward| == 0 by {
      assert |r.nodes| > 0 ==> NodeShape(r.nodes[0], 0, |forward| - |back|, |forward|);
    }
    ClosingReply(end.panel, release, 0, 0);
  }

  // ---- Rollback restores ----

  // Under the assumption the row of such a node names the release until a newer one takes the node. So once a release is
  // rolled back, every node that it had switched has its row back at the candidate's previous topology, or at the empty
  // direct one, and keeps it until then.
  lemma RollbackRestores(s: System, steps: seq<Step>, release: int, node: int)
    requires Started(s) && DisciplinedRun(s, steps) && release in Execute(s, steps).panel.releases
    requires Execute(s, steps).panel.releases[release].status == RolledBackRelease
    requires node in ForwardOf(Execute(s, steps).log, release)
    requires Newest(Execute(s, steps).panel, release, node)
    ensures var panel := Execute(s, steps).panel;
            var candidate := NodeOf(panel, release, node).candidate;
            && node in panel.rows
            && panel.rows[node].release == release
            && panel.rows[node].topology == (if candidate.previous.Some? then candidate.previous.value else Direct(node))
  {
    RunOrderly(s, steps);
    var end := Execute(s, steps);
    SwitchedPhase(end, release, node);
    assert RowsHeld(end.panel);
    RowOfEndedRelease(s, steps, release, node);
  }

  // A successful release leaves every one of its nodes on its candidate, until a newer release takes the node.
  lemma SuccessDeploys(s: System, steps: seq<Step>, release: int, node: int)
    requires Started(s) && DisciplinedRun(s, steps) && release in Execute(s, steps).panel.releases
    requires Execute(s, steps).panel.releases[release].status == Succeeded
    requires Newest(Execute(s, steps).panel, release, node)
    ensures var panel := Execute(s, steps).panel;
            node in panel.rows && panel.rows[node].topology == NodeOf(panel, release, node).candidate.topology
  {
    RunOrderly(s, steps);
    var end := Execute(s, steps);
    var forward, back := ForwardOf(end.log, release), BackOf(end.log, release);
    var r := end.panel.releases[release];
    assert History(r, forward, back);
    assert forward[Position(r.nodes, node)] == node;
    SwitchedPhase(end, release, node);
    assert RowsHeld(end.panel);
    RowOfEndedRelease(s, steps, release, node);
  }

  // ---- Retries ----

  // An acknowledgement that took effect once changes nothing when it arrives again, at any later time.
  lemma ReplayChangesNothing(s: System, steps: seq<Step>, ack: Ack)
    requires Started(s) && DisciplinedRun(s, steps) && Acked(ack) in Execute(s, steps).log
    ensures var end := Execute(s, steps);
            Delivered(end, ack).panel == end.panel && Delivered(end, ack).log == end.log
  {
    RunOrderly(s, steps);
    var end := Execute(s, steps);
    var j :| 0 <= j < |end.log| && end.log[j] == Acked(ack);
    assert Settled(end.panel, ack);
    SettledInert(end.panel, ack);
    assert end.log + [] == end.log;
  }

  // A release of k nodes takes at most 3k acknowledgements that have an effect.
  lemma AtMostThreeAcksPerNode(s: System, steps: seq<Step>, release: int)
    requires Started(s) && DisciplinedRun(s, steps) && release in Execute(s, steps).panel.releases
    ensures AckCount(Execute(s, steps).log, release) <= 3 * |Execute(s, steps).panel.releases[release].nodes|
  {
    RunOrderly(s, steps);
    RankBound(Execute(s, steps).panel.releases[release].nodes);
  }

  // ---- Generations ----

  // A live release that was never handed to an administrator expects exactly the generations its nodes have.
  lemma LiveReleaseInStep(s: System, steps: seq<Step>, release: int, node: int)
    requires Started(s) && DisciplinedRun(s, steps) && Has(Execute(s, steps).panel, release, node)
    requires Live(Execute(s, steps).panel, release) && !EverEscalated(Execute(s, steps).log, release)
    ensures var panel := Execute(s, steps).panel;
            node in panel.generations && panel.generations[node] == NodeOf(panel, release, node).generation
  {
    RunOrderly(s, steps);
    assert InStep(Execute(s, steps).panel, release);
  }

  // The generations that a release gives to a node are all below those that any later release gives to it.
  lemma GenerationsNeverReused(s: System, steps: seq<Step>, r1: int, r2: int, node: int)
    requires Started(s) && DisciplinedRun(s, steps) && r1 < r2
    requires Has(Execute(s, steps).panel, r1, node) && Has(Execute(s, steps).panel, r2, node)
    ensures var panel := Execute(s, steps).panel;
            var x, y := NodeOf(panel, r1, node), NodeOf(panel, r2, node);
            && x.candidate.previousGeneration < x.generation <= x.candidate.previousGeneration + 2
            && x.generation <= y.candidate.previousGeneration < y.generation
            && node in panel.generations && y.generation <= panel.generations[node]
  {
    RunOrderly(s, steps);
    var panel := Execute(s, steps).panel;
    assert Timed(panel) && Ordered(panel) && Bounded(panel);
    assert NodeOf(panel, r1, node).generation
        == NodeOf(panel, r1, node).candidate.previousGeneration + if NodeOf(panel, r1, node).phase == Rollback then 2 else 1;
  }

  // The panel never offers an agent work that the agent's own fence would ignore.
  lemma OffersPassTheFence(s: System, steps: seq<Step>, node: int)
    requires Started(s) && DisciplinedRun(s, steps)
    requires PendingFor(Execute(s, steps).panel, node).Some? && PendingFor(Execute(s, steps).panel, node).value.generation >= 0
    ensures var end := Execute(s, steps);
            var pending := PendingFor(end.panel, node).value;
            var stored := AgentOf(end, node).stored;
            && !Fenced(stored, pending)
            && forall version :: pending.generation > 0 ==> !Ignored(stored, Document(pending.release, pending.generation, pending.phase, version))
  {
    RunOrderly(s, steps);
    var end := Execute(s, steps);
    var pending := PendingFor(end.panel, node).value;
    var stored := AgentOf(end, node).stored;
    OfferOk(end.panel, node);
    assert AgentOk(end.panel, node, AgentOf(end, node)) by {
      assert node in end.agents ==> AgentOk(end.panel, node, end.agents[node]);
    }
    if stored != NEW_AGENT.stored {
      StoredBelow(end.panel, node, stored, pending);
    }
  }

  lemma StoredBelow(panel: Panel, node: int, stored: Stored, pending: PendingDeployment)
    requires Exclusive(panel) && Ordered(panel) && Timed(panel)
    requires Given(panel, node, stored.release, stored.phase, stored.generation)
    requires InProgress(panel, node, pending.release, pending.phase, pending.generation)
    requires Live(panel, pending.release) && NodeOf(panel, pending.release, node).phase == pending.phase
    ensures stored.generation <= pending.generation
    ensures stored.generation == pending.generation ==> stored.release == pending.release && Step3(stored.phase) <= Step3(pending.phase)
  {
    var x := NodeOf(panel, stored.release, node);
    var y := NodeOf(panel, pending.release, node);
    assert x.generation == x.candidate.previousGeneration + if x.phase == Rollback then 2 else 1;
    assert y.generation == y.candidate.previousGeneration + if y.phase == Rollback then 2 else 1;
    assert stored.release <= pending.release;
    if stored.release < pending.release {
      assert x.generation <= y.candidate.previousGeneration;
    }
  }

  // ---- The agent's side ----

  // What an agent works on is never older than what it has stored.
  ghost predicate Guarded(agent: Agent) {
    agent.session.Holding? ==> agent.stored.generation <= agent.session.document.generation
  }

  lemma StoredRises(s: System, step: Step, node: int)
    requires Guarded(AgentOf(s, node))
    ensures AgentOf(s, node).stored.generation <= AgentOf(Next(s, step), node).stored.generation && Guarded(AgentOf(Next(s, step), node))
  {
  }

  lemma {:induction false} RunGuarded(s: System, steps: seq<Step>, node: int)
    requires Started(s)
    ensures Guarded(AgentOf(Execute(s, steps), node))
  {
    if steps != [] {
      RunGuarded(s, steps[..|steps| - 1], node);
      StoredRises(Execute(s, steps[..|steps| - 1]), steps[|steps| - 1], node);
    }
  }

  // An agent's stored generation never goes back, in any run at all.
  lemma {:induction false} StoredNeverGoesBack(s: System, steps: seq<Step>, i: nat, node: int)
    requires Started(s) && i <= |steps|
    ensures AgentOf(Execute(s, steps[..i]), node).stored.generation <= AgentOf(Execute(s, steps), node).stored.generation
    decreases |steps|
  {
    if i == |steps| {
      assert steps[..i] == steps;
    } else {
      var front := steps[..|steps| - 1];
      StoredNeverGoesBack(s, front, i, node);
      assert front[..i] == steps[..i];
      RunGuarded(s, front, node);
      StoredRises(Execute(s, front), steps[|steps| - 1], node);
    }
  }
}
