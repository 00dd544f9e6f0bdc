/**
  Runs that mark the borders of the release theorems without the session assumption. In each of them a single
  acknowledgement arrives late: an agent did send it, but has tried again and succeeded meanwhile.
*/
module ReleaseLate {
  import opened Common
  import opened Messages
  import opened ReleaseModel
  import opened ReleaseShape
  import opened ReleaseSystem
  import opened ReleaseHistory
  import opened ReleaseRuns
  import opened ReleaseSession
  import opened ReleaseRows
  import opened ReleaseWitness

  // Every step keeps the session assumption but one: the delivery of an answer that its agent was sending earlier.
  ghost predicate OneLate(steps: seq<Step>) {
    exists sent: nat, late: nat ::
      && sent <= late < |steps| && Sent(steps, sent)
      && steps[late] == Deliver(LATE) && DisciplinedBut(START, steps, late)
  }

  lemma MayBeLate(steps: seq<Step>, panel: Panel, late: int)
    requires Reaches(steps, panel, NEVER)
    ensures Reaches(steps, panel, late)
  {
  }

  lemma LateStep(s: System)
    ensures Next(s, Deliver(LATE)).panel == Acknowledge(s.panel, LATE).panel
    ensures AgentOf(Next(s, Deliver(LATE)), 1) == AgentOf(s, 1)
  {
  }

  // A run that is disciplined so far may go on with the late answer.
  lemma Arrives(steps: seq<Step>, panel: Panel, sent: nat) returns (more: seq<Step>, late: nat)
    requires Reaches(steps, panel, NEVER) && Sent(steps, sent)
    ensures Reaches(more, Acknowledge(panel, LATE).panel, late) && late == |steps| && more == steps + [Deliver(LATE)] && Sent(more, sent)
    ensures AgentOf(Execute(START, more), 1).stored == AgentOf(Execute(START, steps), 1).stored
  {
    late := |steps|;
    MayBeLate(steps, panel, late);
    LateStep(Execute(START, steps));
    Extend(steps, panel, Deliver(LATE), late);
    more := steps + [Deliver(LATE)];
    SentBefore(steps, more, sent);
  }

  lemma WasLate(before: seq<Step>, steps: seq<Step>, panel: Panel, sent: nat)
    requires Sent(before, sent) && before + [Deliver(LATE)] <= steps && Reaches(steps, panel, |before|)
    ensures OneLate(steps)
  {
    assert (before + [Deliver(LATE)])[|before|] == Deliver(LATE);
    SentBefore(before, steps, sent);
  }

  // ---- A node in two live releases ----

  // The late report that the second node failed to prepare fails the release although its first node is active.
  function LateFailure(): Panel {
    Tables(FailedRelease, InPhase(A, 10, Apply, Active), InPhase(B, 20, Prepare, Failed), map[1 := ROW_A, 2 := WAS_B], 1, 1, Roster(20, 21))
  }

  lemma LateAck()
    ensures Acknowledge(FirstActive(), LATE).panel == LateFailure()
  {
    Positions(FirstActive());
    assert FirstActive().releases[1].nodes[1 := InPhase(B, 20, Prepare, Failed)] == LateFailure().releases[1].nodes;
  }

  const AGAIN := Candidate(1, Routed(1, 1), Some(Routed(1, 1)), 1)

  function Again(): Release { Release(Preparing, [ReleaseNode(AGAIN, 10, Prepare, Pending, 2, 10)]) }

  lemma CreateOne(panel: Panel, c: Candidate, release: Release)
    requires panel.lastRelease == 1 && panel.generations == map[1 := c.previousGeneration, 2 := 1] && c.node == 1 && c.topology == Routed(1, 1)
    requires panel.material == Roster(20, 21) && !Busy(panel, 1)
    requires release == Release(Preparing, [ReleaseNode(c, 10, Prepare, Pending, c.previousGeneration + 1, 10)])
    ensures CreateTopologyRelease(panel, true, {1, 2}, [c]).panel
         == panel.(releases := panel.releases[2 := release], lastRelease := 2, generations := map[1 := c.previousGeneration + 1, 2 := 1])
  {
    assert Guard(panel, {1, 2}, c).None?;
    assert CreationRefusal(panel, true, {1, 2}, [c]).None?;
    CreatedOne(panel, c, release);
  }

  lemma CreatedOne(panel: Panel, c: Candidate, release: Release)
    requires panel.lastRelease == 1 && panel.generations == map[1 := c.previousGeneration, 2 := 1] && c.node == 1
    requires c.topology in panel.material && panel.material[c.topology] == 10
    requires release == Release(Preparing, [ReleaseNode(c, 10, Prepare, Pending, c.previousGeneration + 1, 10)])
    ensures Created(panel, [c])
         == panel.(releases := panel.releases[2 := release], lastRelease := 2, generations := map[1 := c.previousGeneration + 1, 2 := 1])
  {
    var nodes := FreshNodes(panel, [c]);
    assert nodes == release.nodes;
    assert Advanced(panel.generations, nodes) == map[1 := c.previousGeneration + 1, 2 := 1];
  }

  function BothLive(): Panel {
    LateFailure().(releases := LateFailure().releases[2 := Again()], lastRelease := 2, generations := map[1 := 2, 2 := 1])
  }

  lemma CreateAgain()
    ensures CreateTopologyRelease(LateFailure(), true, {1, 2}, [AGAIN]).panel == BothLive()
  {
    assert !Busy(LateFailure(), 1);
    CreateOne(LateFailure(), AGAIN, Again());
  }

  lemma ToLateFailure() returns (before: seq<Step>, steps: seq<Step>, sent: nat)
    ensures Sent(before, sent) && before + [Deliver(LATE)] <= steps && Reaches(steps, LateFailure(), |before|)
  {
    before, sent := ToFirstActive();
    var late: nat;
    steps, late := Arrives(before, FirstActive(), sent);
    LateAck();
  }

  lemma ToBothKnown() returns (before: seq<Step>, steps: seq<Step>, sent: nat)
    ensures Sent(before, sent) && before + [Deliver(LATE)] <= steps && Reaches(steps, BothLive(), |before|)
  {
    before, steps, sent := ToLateFailure();
    CreateAgain();
    steps := Quietly(steps, LateFailure(), Create(true, {1, 2}, [AGAIN]), BothLive(), |before|);
  }

  // After one late acknowledgement, a node can be in two live releases.
  lemma TwoLiveReleases() returns (steps: seq<Step>)
    ensures Started(START) && OneLate(steps)
    ensures var panel := Execute(START, steps).panel;
            && Has(panel, 1, 1) && Has(panel, 2, 1)
            && panel.releases[1].status in LIVE && panel.releases[2].status in LIVE
  {
    var before, run, sent := ToBothKnown();
    ResumeFailed(BothLive());
    steps := Quietly(run, BothLive(), AdministratorRollback(1), RollbackRelease(BothLive(), 1).panel, |before|);
    WasLate(before, steps, RollbackRelease(BothLive(), 1).panel, sent);
  }

  lemma ResumeFailed(panel: Panel)
    requires panel == BothLive()
    ensures var after := RollbackRelease(panel, 1).panel;
            && Has(after, 1, 1) && Has(after, 2, 1)
            && after.releases[1].status == RollingBack && after.releases[2].status == Preparing
  {
    UnwoundLate();
    var r := panel.releases[1];
    var unwound := panel.(releases := panel.releases[1 := r.(nodes := UnwoundNodes(r.nodes))]);
    var reply := ActivateNext(unwound, 1, true);
    assert RollbackRelease(panel, 1) == Committed(panel, reply);
    assert reply.error.None? && reply.panel.releases[1].status == RollingBack;
    assert reply.panel.releases[2] == Again();
    assert reply.panel.releases[1].nodes[0].candidate.node == 1 && Again().nodes[0].candidate.node == 1;
  }

  lemma UnwoundLate()
    ensures UnwoundNodes(LateFailure().releases[1].nodes) == [InPhase(A, 10, Apply, RollbackPending), InPhase(B, 20, Prepare, Failed)]
    ensures PastLastWith(UnwoundNodes(LateFailure().releases[1].nodes), RollbackPending) == 1
  {
    var nodes := [InPhase(A, 10, Apply, RollbackPending), InPhase(B, 20, Prepare, Failed)];
    assert UnwoundNodes(LateFailure().releases[1].nodes) == nodes;
    assert PastLastWith(nodes[..1], RollbackPending) == 1;
    assert PastLastWith(nodes, RollbackPending) == 1;
  }

  // ---- A rolled-back release that has not restored a node ----

  function FailedAck(): Ack { Answer(1, Document(1, 1, Apply, 10), FailedUnsaved) }

  // The first node has failed to apply and was switched back, in a release of this status.
  function FirstBack(status: ReleaseStatus, second: NodeStatus): Panel {
    Tables(status, InPhase(A, 11, Rollback, Active), InPhase(B, 20, Prepare, second), map[1 := BACK_A, 2 := WAS_B], 2, 1, Roster(20, 21))
  }

  lemma UnwoundFirst()
    ensures var told, nodes := [InPhase(A, 10, Apply, Failed), InPhase(B, 20, Prepare, Prepared)],
                               [InPhase(A, 10, Apply, RollbackPending), InPhase(B, 20, Prepare, Prepared)];
            UnwoundNodes(told) == nodes && PastLastWith(nodes, RollbackPending) == 1
  {
    var nodes := [InPhase(A, 10, Apply, RollbackPending), InPhase(B, 20, Prepare, Prepared)];
    assert UnwoundNodes([InPhase(A, 10, Apply, Failed), InPhase(B, 20, Prepare, Prepared)]) == nodes;
    assert PastLastWith(nodes[..1], RollbackPending) == 1;
  }

  function Failing(): Panel {
    Tables(Applying, InPhase(A, 10, Apply, Failed), InPhase(B, 20, Prepare, Prepared), map[1 := ROW_A, 2 := WAS_B], 1, 1, Roster(20, 21))
  }

  lemma FailingGoesBack()
    ensures BeginRollback(Failing(), 1).error.None? && BeginRollback(Failing(), 1).panel == FirstBack(RollingBack, Prepared)
  {
    UnwoundFirst();
    var nodes := [InPhase(A, 10, Apply, RollbackPending), InPhase(B, 20, Prepare, Prepared)];
    assert nodes[0 := InPhase(A, 11, Rollback, Active)] == FirstBack(RollingBack, Prepared).releases[1].nodes;
  }

  lemma FirstFails()
    ensures Acknowledge(FirstActive(), FailedAck()).panel == FirstBack(RollingBack, Prepared)
  {
    Positions(FirstActive());
    assert FirstActive().releases[1].nodes[0 := InPhase(A, 10, Apply, Failed)] == Failing().releases[1].nodes;
    assert SetNode(FirstActive(), 1, 0, InPhase(A, 10, Apply, Failed)) == Failing();
    FailingGoesBack();
  }

  lemma LateWhileBack()
    ensures Acknowledge(FirstBack(RollingBack, Prepared), LATE).panel == FirstBack(FailedRelease, Failed)
  {
    Positions(FirstBack(RollingBack, Prepared));
    assert FirstBack(RollingBack, Prepared).releases[1].nodes[1 := InPhase(B, 20, Prepare, Failed)] == FirstBack(FailedRelease, Failed).releases[1].nodes;
  }

  const NEXT := Candidate(1, Routed(1, 1), Some(Direct(1)), 2)

  function NextNode(phase: Phase, status: NodeStatus): ReleaseNode { ReleaseNode(NEXT, 10, phase, status, 3, 10) }

  // The second release takes the first node, while the first release has this status.
  function Taken(first: ReleaseStatus, second: ReleaseStatus, phase: Phase, status: NodeStatus, row: Row): Panel {
    Panel(
      map[1 := Release(first, FirstBack(FailedRelease, Failed).releases[1].nodes), 2 := Release(second, [NextNode(phase, status)])], 2,
      map[1 := row, 2 := WAS_B], map[1 := 3, 2 := 1], Roster(20, 21))
  }

  const NEXT_ROW := Row(Routed(1, 1), 2, 3)

  lemma CreateNext()
    ensures CreateTopologyRelease(FirstBack(FailedRelease, Failed), true, {1, 2}, [NEXT]).panel
         == Taken(FailedRelease, Preparing, Prepare, Pending, BACK_A)
  {
    var panel := FirstBack(FailedRelease, Failed);
    assert !Busy(panel, 1);
    CreateOne(panel, NEXT, Release(Preparing, [NextNode(Prepare, Pending)]));
  }

  lemma ToFailedBack() returns (before: seq<Step>, steps: seq<Step>, sent: nat)
    ensures Sent(before, sent) && before + [Deliver(LATE)] <= steps
    ensures Reaches(steps, FirstBack(FailedRelease, Failed), |before|)
    ensures AgentOf(Execute(START, steps), 1).stored == Stored(1, 1, Prepare)
  {
    before, sent := ToFirstBack();
    var late: nat;
    steps, late := Arrives(before, FirstBack(RollingBack, Prepared), sent);
    LateWhileBack();
  }

  lemma ToTaken() returns (before: seq<Step>, steps: seq<Step>, sent: nat)
    ensures Sent(before, sent) && before + [Deliver(LATE)] <= steps
    ensures Reaches(steps, Taken(FailedRelease, Preparing, Prepare, Pending, BACK_A), |before|)
    ensures AgentOf(Execute(START, steps), 1).stored == Stored(1, 1, Prepare)
  {
    before, steps, sent := ToFailedBack();
    CreateNext();
    steps := Quietly(steps, FirstBack(FailedRelease, Failed), Create(true, {1, 2}, [NEXT]),
      Taken(FailedRelease, Preparing, Prepare, Pending, BACK_A), |before|);
  }

  lemma ToFirstBack() returns (steps: seq<Step>, sent: nat)
    ensures Sent(steps, sent) && Reaches(steps, FirstBack(RollingBack, Prepared), NEVER)
    ensures AgentOf(Execute(START, steps), 1).stored == Stored(1, 1, Prepare)
  {
    var run;
    run, sent := ToFirstActive();
    IsOffered(FirstActive(), 1);
    var worked := Work(run, FirstActive(), 1, PendingDeployment(1, Apply, 1), Document(1, 1, Apply, 10), FailedUnsaved, NEVER);
    SentBefore(run, worked, sent);
    FirstFails();
    steps := Answered(worked, FirstActive(), FailedAck(), FirstBack(RollingBack, Prepared), NEVER);
    SentBefore(worked, steps, sent);
  }

  // What the agent of the first node hears and gets while its work in the second release is current.
  lemma OfferedNext(panel: Panel, phase: Phase)
    requires || (panel == Taken(FailedRelease, Preparing, Prepare, Pending, BACK_A) && phase == Prepare)
             || (panel == Taken(FailedRelease, Applying, Apply, Active, NEXT_ROW) && phase == Apply)
    ensures PendingFor(panel, 1) == Some(PendingDeployment(2, phase, 3))
    ensures GetAgentDeployment(panel, 1, 2, phase) == Fetched(panel, [], Ok(Document(2, 3, phase, 10)))
  {
    assert Position(panel.releases[2].nodes, 1) == 0;
  }

  lemma NextPrepares()
    ensures Acknowledge(Taken(FailedRelease, Preparing, Prepare, Pending, BACK_A), Answer(1, Document(2, 3, Prepare, 10), Worked)).panel
         == Taken(FailedRelease, Applying, Apply, Active, NEXT_ROW)
  {
    var panel := Taken(FailedRelease, Preparing, Prepare, Pending, BACK_A);
    assert Position(panel.releases[2].nodes, 1) == 0;
    var nodes := [NextNode(Prepare, Prepared)];
    assert panel.releases[2].nodes[0 := NextNode(Prepare, Prepared)] == nodes;
    assert FirstWith(nodes, Prepared) == 0;
    assert nodes[0 := NextNode(Apply, Active)] == [NextNode(Apply, Active)];
  }

  lemma NextApplies()
    ensures Acknowledge(Taken(FailedRelease, Applying, Apply, Active, NEXT_ROW), Answer(1, Document(2, 3, Apply, 10), Worked)).panel
         == Taken(FailedRelease, Succeeded, Apply, Applied, NEXT_ROW)
  {
    var panel := Taken(FailedRelease, Applying, Apply, Active, NEXT_ROW);
    assert Position(panel.releases[2].nodes, 1) == 0;
    var nodes := [NextNode(Apply, Applied)];
    assert panel.releases[2].nodes[0 := NextNode(Apply, Applied)] == nodes;
    assert FirstWith(nodes, Prepared) == 1;
  }

  lemma FirstCloses()
    ensures RollbackRelease(Taken(FailedRelease, Succeeded, Apply, Applied, NEXT_ROW), 1).panel
         == Taken(RolledBackRelease, Succeeded, Apply, Applied, NEXT_ROW)
  {
    var panel := Taken(FailedRelease, Succeeded, Apply, Applied, NEXT_ROW);
    var nodes := panel.releases[1].nodes;
    assert UnwoundNodes(nodes) == nodes;
    assert PastLastWith(nodes[..1], RollbackPending) == 0;
    assert PastLastWith(nodes, RollbackPending) == 0;
  }

  lemma ToSucceeded() returns (before: seq<Step>, steps: seq<Step>, sent: nat)
    ensures Sent(before, sent) && before + [Deliver(LATE)] <= steps
    ensures Reaches(steps, Taken(FailedRelease, Succeeded, Apply, Applied, NEXT_ROW), |before|)
  {
    before, steps, sent := ToTaken();
    var panel, active := Taken(FailedRelease, Preparing, Prepare, Pending, BACK_A), Taken(FailedRelease, Applying, Apply, Active, NEXT_ROW);
    OfferedNext(panel, Prepare);
    steps := Work(steps, panel, 1, PendingDeployment(2, Prepare, 3), Document(2, 3, Prepare, 10), Worked, |before|);
    NextPrepares();
    steps := Answered(steps, panel, Answer(1, Document(2, 3, Prepare, 10), Worked), active, |before|);
    OfferedNext(active, Apply);
    steps := Work(steps, active, 1, PendingDeployment(2, Apply, 3), Document(2, 3, Apply, 10), Worked, |before|);
    NextApplies();
    steps := Answered(steps, active, Answer(1, Document(2, 3, Apply, 10), Worked), Taken(FailedRelease, Succeeded, Apply, Applied, NEXT_ROW), |before|);
  }

  // A node that a release has switched, as its phase tells.
  lemma SwitchedFirst(steps: seq<Step>, panel: Panel, late: int)
    requires Reaches(steps, panel, late) && 1 in panel.releases && |panel.releases[1].nodes| > 0
    requires panel.releases[1].nodes[0].phase == Rollback
    ensures panel.releases[1].nodes[0].candidate.node in ForwardOf(Execute(START, steps).log, 1)
  {
    RunConsistent(START, steps);
    var log := Execute(START, steps).log;
    IsSwitched(panel.releases[1], ForwardOf(log, 1), BackOf(log, 1));
  }

  lemma IsSwitched(r: Release, forward: seq<int>, back: seq<int>)
    requires History(r, forward, back) && |r.nodes| > 0 && r.nodes[0].phase == Rollback
    ensures r.nodes[0].candidate.node in forward
  {
    assert NodeShape(r.nodes[0], 0, |forward| - |back|, |forward|);
    assert forward[0] == r.nodes[0].candidate.node;
  }

  // The release has switched the node and is rolled back, but the row is another release's and not the restored one.
  ghost predicate LeavesRow(s: System, release: int, node: int) {
    && Has(s.panel, release, node) && s.panel.releases[release].status == RolledBackRelease
    && node in ForwardOf(s.log, release)
    && node in s.panel.rows && s.panel.rows[node].release != release
    && s.panel.rows[node].topology != Restored(NodeOf(s.panel, release, node).candidate)
  }

  lemma LeftRow(s: System)
    requires s.panel == Taken(RolledBackRelease, Succeeded, Apply, Applied, NEXT_ROW) && 1 in ForwardOf(s.log, 1)
    ensures LeavesRow(s, 1, 1)
  {
    assert Position(s.panel.releases[1].nodes, 1) == 0;
  }

  // After one late acknowledgement, an administrator's rollback makes a release rolled back although the row of a node
  // that it had switched is another release's, and holds that release's candidate.
  lemma RollbackCanLeaveARow() returns (steps: seq<Step>)
    ensures Started(START) && OneLate(steps + [AdministratorRollback(1)])
    ensures Completes(Execute(START, steps), Execute(START, steps + [AdministratorRollback(1)]), 1)
    ensures LeavesRow(Execute(START, steps + [AdministratorRollback(1)]), 1, 1)
  {
    var before, sent;
    before, steps, sent := ToSucceeded();
    var more := Closed(before, steps, sent);
    ClosingCompletes(Execute(START, steps), Execute(START, more));
    LeftRow(Execute(START, more));
  }

  lemma Closed(before: seq<Step>, steps: seq<Step>, sent: nat) returns (more: seq<Step>)
    requires Sent(before, sent) && before + [Deliver(LATE)] <= steps
    requires Reaches(steps, Taken(FailedRelease, Succeeded, Apply, Applied, NEXT_ROW), |before|)
    ensures more == steps + [AdministratorRollback(1)] && OneLate(more)
    ensures Execute(START, more).panel == Taken(RolledBackRelease, Succeeded, Apply, Applied, NEXT_ROW)
    ensures 1 in ForwardOf(Execute(START, more).log, 1)
  {
    var panel := Taken(FailedRelease, Succeeded, Apply, Applied, NEXT_ROW);
    FirstCloses();
    more := Quietly(steps, panel, AdministratorRollback(1), RollbackRelease(panel, 1).panel, |before|);
    WasLate(before, more, RollbackRelease(panel, 1).panel, sent);
    SwitchedFirst(more, RollbackRelease(panel, 1).panel, |before|);
  }

  lemma ClosingCompletes(s: System, t: System)
    requires s.panel == Taken(FailedRelease, Succeeded, Apply, Applied, NEXT_ROW)
    requires t.panel == Taken(RolledBackRelease, Succeeded, Apply, Applied, NEXT_ROW)
    ensures Completes(s, t, 1)
  {
  }
}
