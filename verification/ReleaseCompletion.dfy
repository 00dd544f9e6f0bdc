/** What a disciplined run adds to the rows at the moment of a rollback, and the ladder that acknowledgements climb. */
module ReleaseCompletion {
  import opened Common
  import opened Messages
  import opened ReleaseModel
  import opened ReleaseShape
  import opened ReleaseSystem
  import opened ReleaseHistory
  import opened ReleaseRuns
  import opened ReleaseClimb
  import opened ReleaseSession
  import opened ReleaseDiscipline
  import opened ReleaseDisciplinedRuns
  import opened ReleaseGenerations
  import opened ReleaseRows

  // ---- The moment of completion ----

  ghost predicate SameMembers(before: Panel, after: Panel) {
    forall r, n :: Has(after, r, n) == Has(before, r, n)
  }

  lemma CaseMembers(before: Panel, reply: Reply, release: int, p: nat, q: nat, ack: Option<Ack>)
    requires Case(before, reply, release, p, q, ack)
    ensures SameMembers(before, reply.panel)
  {
    if Effect(before, reply, release, p, q, ack) {
      forall r, n ensures Has(reply.panel, r, n) == Has(before, r, n) {
        HasSame(before, reply, release, r, n);
      }
    }
  }

  // A transaction completes the rollback of a live release, or closes a release.
  lemma CompletedBy(s: System, reply: Reply, release: int, p: nat, q: nat, ack: Option<Ack>, r: int)
    requires Case(s.panel, reply, release, p, q, ack) && r in s.panel.releases && r in reply.panel.releases
    requires s.panel.releases[r].status != RolledBackRelease && reply.panel.releases[r].status == RolledBackRelease
    ensures r == release
    ensures Live(s.panel, r) || reply == Accepted(SetStatus(s.panel, r, RolledBackRelease), [])
  {
  }

  lemma CreateKeeps(s: System, current: bool, capable: set<int>, candidates: seq<Candidate>, release: int)
    requires Orderly(s) && release in s.panel.releases
    ensures var after := CreateTopologyRelease(s.panel, current, capable, candidates).panel;
            release in after.releases && after.releases[release] == s.panel.releases[release]
  {
    if CreateTopologyRelease(s.panel, current, capable, candidates).error.None? {
      NewExtends(s, current, capable, candidates);
    }
  }

  lemma FetchKeeps(s: System, node: int, release: int)
    requires release in s.panel.releases
    ensures release in Fetching(s, node).panel.releases
    ensures Fetching(s, node).panel.releases[release].status in {s.panel.releases[release].status, ManualRequired}
  {
    var agent := AgentOf(s, node);
    if agent.session.Offered? {
      FetchCases(s.panel, node, agent.session.pending.release, agent.session.pending.phase);
    }
  }

  // Only an acknowledgement or an administrator completes a rollback.
  lemma CompletingSteps(s: System, step: Step, release: int)
    requires Orderly(s) && Completes(s, Next(s, step), release)
    ensures step.Deliver? || step.AdministratorRollback?
  {
    match step
    case Create(current, capable, candidates) => CreateKeeps(s, current, capable, candidates, release);
    case Fetch(node) => FetchKeeps(s, node, release);
    case _ =>
  }

  // A release that switched somebody was live until then, so that it is the newest one of its nodes.
  ghost predicate LiveUntil(s: System, t: System, release: int) {
    SameMembers(s.panel, t.panel) && (Live(s.panel, release) || t.log == s.log)
  }

  lemma DeliverCompletes(s: System, ack: Ack, release: int)
    requires Orderly(s) && Disciplined(s, Deliver(ack)) && Completes(s, Delivered(s, ack), release)
    ensures LiveUntil(s, Delivered(s, ack), release)
  {
    var reply := Acknowledge(s.panel, ack);
    var p, q := DeliverCase(s, ack);
    CaseMembers(s.panel, reply, ack.release, p, q, Some(ack));
    CompletedBy(s, reply, ack.release, p, q, Some(ack), release);
    if !Live(s.panel, release) {
      assert s.log + reply.events == s.log;
    }
  }

  lemma AdministratorCompletes(s: System, r: int, release: int)
    requires Orderly(s) && Completes(s, WithReply(s, RollbackRelease(s.panel, r)), release)
    ensures LiveUntil(s, WithReply(s, RollbackRelease(s.panel, r)), release)
  {
    var reply := RollbackRelease(s.panel, r);
    var p, q := AdministratorCase(s, r);
    CaseMembers(s.panel, reply, r, p, q, None);
    CompletedBy(s, reply, r, p, q, None, release);
    assert s.log + [] == s.log;
  }

  lemma StillNewest(s: System, t: System, release: int, node: int)
    requires Orderly(s) && SameMembers(s.panel, t.panel) && Live(s.panel, release) && Has(t.panel, release, node)
    ensures Newest(t.panel, release, node)
  {
    assert Exclusive(s.panel) && Has(s.panel, release, node);
    forall r | r > release ensures !Has(t.panel, r, node) {
      assert Has(t.panel, r, node) == Has(s.panel, r, node);
    }
  }

  // A release that is neither live nor rolled back, and can still be rolled back, has switched nobody.
  lemma IdleSwitchedNobody(s: System, t: System, release: int)
    requires Orderly(s) && Consistent(t) && Completes(s, t, release) && !Live(s.panel, release) && t.log == s.log
    ensures ForwardOf(t.log, release) == []
  {
    var forward, back := ForwardOf(s.log, release), BackOf(s.log, release);
    assert History(s.panel.releases[release], forward, back) && History(t.panel.releases[release], forward, back);
    var r := s.panel.releases[release];
    assert Tidy(r);
    assert |r.nodes| > 0 ==> NodeShape(r.nodes[0], 0, |forward| - |back|, |forward|);
  }

  // At the moment a release becomes rolled back, every node that it had switched has its row at the candidate's previous
  // topology, or at the empty direct one, written by this release: under the assumption every such row is still its own.
  lemma RollbackCompletes(s: System, steps: seq<Step>, step: Step, release: int, node: int)
    requires Started(s) && DisciplinedRun(s, steps) && Disciplined(Execute(s, steps), step)
    requires Completes(Execute(s, steps), Next(Execute(s, steps), step), release)
    requires node in ForwardOf(Next(Execute(s, steps), step).log, release)
    ensures var panel := Next(Execute(s, steps), step).panel;
            && Has(panel, release, node) && node in panel.rows
            && panel.rows[node].release == release && panel.rows[node].topology == Restored(NodeOf(panel, release, node).candidate)
  {
    RunOrderly(s, steps);
    StillItsOwn(Execute(s, steps), step, release, node);
    RollbackRestoresExactly(s, steps, step, release, node);
  }

  // A release that completes its rollback still has the rows of the nodes that it had switched.
  lemma StillItsOwn(before: System, step: Step, release: int, node: int)
    requires Orderly(before) && Disciplined(before, step) && Completes(before, Next(before, step), release)
    requires node in ForwardOf(Next(before, step).log, release)
    ensures node in before.panel.rows && before.panel.rows[node].release == release
  {
    var after := Next(before, step);
    NextOrderly(before, step);
    CompletingSteps(before, step, release);
    if step.Deliver? {
      DeliverCompletes(before, step.ack, release);
    } else {
      AdministratorCompletes(before, step.release, release);
    }
    SwitchedPhase(after, release, node);
    CompletionKeepsRows(before, step, release);
    if Live(before.panel, release) {
      StillNewest(before, after, release, node);
      assert RowsHeld(after.panel);
    } else {
      IdleSwitchedNobody(before, after, release);
    }
  }

  // ---- The ladder ----

  // An acknowledgement that takes effect moves its node strictly up the ladder of statuses, and moves no node down.
  lemma AcknowledgementsClimb(s: System, steps: seq<Step>, ack: Ack)
    requires Started(s) && DisciplinedRun(s, steps) && Disciplined(Execute(s, steps), Deliver(ack))
    requires Acked(ack) in Acknowledge(Execute(s, steps).panel, ack).events
    ensures var before, after := Execute(s, steps).panel, Acknowledge(Execute(s, steps).panel, ack).panel;
            && Has(before, ack.release, ack.node) && Has(after, ack.release, ack.node)
            && Stage(NodeOf(before, ack.release, ack.node)) < Stage(NodeOf(after, ack.release, ack.node))
            && forall r, n :: Has(before, r, n) ==> Has(after, r, n) && Stage(NodeOf(before, r, n)) <= Stage(NodeOf(after, r, n))
  {
    RunOrderly(s, steps);
    var end := Execute(s, steps);
    var reply := Acknowledge(end.panel, ack);
    var p, q := DeliverCase(end, ack);
    AckedIsEffect(end.panel, reply, ack, p, q);
    ConsistentTimed(end);
    OwnNodeClimbs(end.panel, reply, ack, p, q);
    forall r, n | Has(end.panel, r, n)
      ensures Has(reply.panel, r, n) && Stage(NodeOf(end.panel, r, n)) <= Stage(NodeOf(reply.panel, r, n))
    {
      NodeClimbs(end.panel, reply, ack.release, p, q, r, n);
    }
  }

  lemma AckedIsEffect(before: Panel, reply: Reply, ack: Ack, p: nat, q: nat)
    requires Case(before, reply, ack.release, p, q, Some(ack)) && Acked(ack) in reply.events
    ensures Effect(before, reply, ack.release, p, q, Some(ack))
  {
  }

  lemma OwnNodeClimbs(before: Panel, reply: Reply, ack: Ack, p: nat, q: nat)
    requires Effect(before, reply, ack.release, p, q, Some(ack)) && DistinctNodes(before.releases[ack.release].nodes)
    ensures Has(before, ack.release, ack.node) && Has(reply.panel, ack.release, ack.node)
    ensures Stage(NodeOf(before, ack.release, ack.node)) < Stage(NodeOf(reply.panel, ack.release, ack.node))
  {
    PositionOf(before.releases[ack.release].nodes, p);
    HasSame(before, reply, ack.release, ack.release, ack.node);
  }
}
