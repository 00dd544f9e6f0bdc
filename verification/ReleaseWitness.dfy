/**
  Runs that mark the borders of the release theorems under the session assumption: one in which a generation goes back,
  and one in which two nodes of a release are active.
*/
module ReleaseWitness {
  import opened Common
  import opened Messages
  import opened ReleaseModel
  import opened ReleaseSystem

  // The first node has nothing deployed yet, and the second one runs an earlier draft.
  const A := Candidate(1, Routed(1, 1), None, 0)
  const B := Candidate(2, Routed(2, 1), Some(Routed(2, 0)), 0)

  // The versions of the second node's candidate and of what it ran before.
  function Roster(b: Version, backB: Version): map<Topology, Version> {
    map[Routed(1, 1) := 10, Routed(2, 1) := b, Routed(2, 0) := backB, Direct(1) := 11]
  }

  const WAS_B := Row(Routed(2, 0), 0, 0)

  const START := Initial(map[2 := WAS_B], map[1 := 0, 2 := 0], Roster(20, 21))

  function InPhase(c: Candidate, version: Version, phase: Phase, status: NodeStatus): ReleaseNode {
    ReleaseNode(c, if c == A then 10 else 20, phase, status, if phase == Rollback then 2 else 1, version)
  }

  function Tables(status: ReleaseStatus, a: ReleaseNode, b: ReleaseNode, rows: map<int, Row>, ga: int, gb: int, material: map<Topology, Version>): Panel {
    Panel(map[1 := Release(status, [a, b])], 1, rows, map[1 := ga, 2 := gb], material)
  }

  const ROW_A := Row(Routed(1, 1), 1, 1)
  const ROW_B := Row(Routed(2, 1), 1, 1)
  const BACK_A := Row(Direct(1), 1, 2)
  const BACK_B := Row(Routed(2, 0), 1, 2)

  // ---- Building runs ----

  // Only the step at this position may break the session assumption.
  ghost predicate DisciplinedBut(s: System, steps: seq<Step>, late: int) {
    forall i :: 0 <= i < |steps| && i != late ==> Disciplined(Execute(s, steps[..i]), steps[i])
  }

  const NEVER := -1

  // A run without authorization changes from START to these tables.
  ghost predicate Reaches(steps: seq<Step>, panel: Panel, late: int) {
    && DisciplinedBut(START, steps, late) && Execute(START, steps).panel == panel
    && forall step :: step in steps ==> !step.AuthorizationChange?
  }

  lemma Extend(steps: seq<Step>, panel: Panel, step: Step, late: int)
    requires Reaches(steps, panel, late) && !step.AuthorizationChange?
    requires |steps| == late || Disciplined(Execute(START, steps), step)
    ensures Reaches(steps + [step], Next(Execute(START, steps), step).panel, late)
    ensures Execute(START, steps + [step]) == Next(Execute(START, steps), step)
  {
    var more := steps + [step];
    assert more[..|steps|] == steps;
    forall i | 0 <= i < |more| && i != late ensures Disciplined(Execute(START, more[..i]), more[i]) {
      if i < |steps| { assert more[..i] == steps[..i]; }
    }
  }

  // One session up to its answer: the tables stay as they are.
  lemma Work(steps: seq<Step>, panel: Panel, node: int, pending: PendingDeployment, document: Document, outcome: Outcome, late: int)
    returns (more: seq<Step>)
    requires Reaches(steps, panel, late) && PendingFor(panel, node) == Some(pending) && ValidPending(pending)
    requires GetAgentDeployment(panel, node, pending.release, pending.phase) == Fetched(panel, [], Ok(document))
    requires document.generation == pending.generation
    requires !Fenced(AgentOf(Execute(START, steps), node).stored, pending)
    requires !Ignored(AgentOf(Execute(START, steps), node).stored, document)
    ensures Reaches(more, panel, late) && steps <= more
    ensures AgentOf(Execute(START, more), node) == Acted(node, AgentOf(Execute(START, steps), node), document, outcome)
    ensures forall n :: n != node ==> AgentOf(Execute(START, more), n) == AgentOf(Execute(START, steps), n)
  {
    Extend(steps, panel, Heartbeat(node), late);
    var heard := steps + [Heartbeat(node)];
    Extend(heard, panel, Fetch(node), late);
    var fetched := heard + [Fetch(node)];
    Extend(fetched, panel, Act(node, outcome), late);
    more := fetched + [Act(node, outcome)];
  }

  lemma Answered(steps: seq<Step>, panel: Panel, ack: Ack, after: Panel, late: int) returns (more: seq<Step>)
    requires Reaches(steps, panel, late) && AgentOf(Execute(START, steps), ack.node).session == Answering(ack)
    requires Acknowledge(panel, ack).panel == after
    ensures Reaches(more, after, late) && steps <= more
    ensures forall n :: AgentOf(Execute(START, more), n).stored == AgentOf(Execute(START, steps), n).stored
  {
    Extend(steps, panel, Deliver(ack), late);
    more := steps + [Deliver(ack)];
  }

  lemma Quietly(steps: seq<Step>, panel: Panel, step: Step, after: Panel, late: int) returns (more: seq<Step>)
    requires Reaches(steps, panel, late) && (step.Create? || step.RosterChange? || step.Recover? || step.AdministratorRollback?)
    requires match step
             case Create(current, capable, candidates) => CreateTopologyRelease(panel, current, capable, candidates).panel == after
             case RosterChange(material) => panel.(material := Reroster(panel.material, material)) == after
             case Recover(overdue) => RecoverReleases(panel, overdue) == after
             case AdministratorRollback(release) => RollbackRelease(panel, release).panel == after
             case _ => true
    ensures Reaches(more, after, late) && more == steps + [step]
    ensures forall n :: AgentOf(Execute(START, more), n) == AgentOf(Execute(START, steps), n)
  {
    Extend(steps, panel, step, late);
    more := steps + [step];
  }

  // ---- The tables along the way ----

  function Registered(): Panel {
    Tables(Preparing, InPhase(A, 10, Prepare, Pending), InPhase(B, 20, Prepare, Pending), map[2 := WAS_B], 1, 1, Roster(20, 21))
  }

  function OnePrepared(): Panel {
    Tables(Preparing, InPhase(A, 10, Prepare, Prepared), InPhase(B, 20, Prepare, Pending), map[2 := WAS_B], 1, 1, Roster(20, 21))
  }

  function FirstActive(): Panel {
    Tables(Applying, InPhase(A, 10, Apply, Active), InPhase(B, 20, Prepare, Prepared), map[1 := ROW_A, 2 := WAS_B], 1, 1, Roster(20, 21))
  }

  function SecondActive(status: ReleaseStatus, ga: int, gb: int, b: Version): Panel {
    Tables(status, InPhase(A, 10, Apply, Applied), InPhase(B, 20, Apply, Active), map[1 := ROW_A, 2 := ROW_B], ga, gb, Roster(b, 21))
  }

  function SecondBack(status: ReleaseStatus, ga: int, gb: int, b: Version, backB: Version): Panel {
    Tables(status, InPhase(A, 10, Apply, RollbackPending), InPhase(B, 21, Rollback, Active), map[1 := ROW_A, 2 := BACK_B], ga, gb, Roster(b, backB))
  }

  function BothBack(ga: int, gb: int, b: Version, backB: Version): Panel {
    Tables(RollingBack, InPhase(A, 11, Rollback, Active), InPhase(B, 21, Rollback, Active), map[1 := BACK_A, 2 := BACK_B], ga, gb, Roster(b, backB))
  }

  lemma NobodyRefused(panel: Panel, capable: set<int>, candidates: seq<Candidate>)
    requires forall c :: c in candidates ==> Guard(panel, capable, c).None?
    ensures FirstRefusal(panel, capable, SortedByNode(candidates)).None?
  {
    var sorted := SortedByNode(candidates);
    forall i | 0 <= i < |sorted| ensures Guard(panel, capable, sorted[i]).None? {
      assert sorted[i] in sorted;
    }
  }

  lemma CreateWorks()
    ensures CreateTopologyRelease(START.panel, true, {1, 2}, [A, B]).panel == Registered()
  {
    var panel := START.panel;
    assert forall r, n :: !Has(panel, r, n);
    assert Guard(panel, {1, 2}, A).None? && Guard(panel, {1, 2}, B).None?;
    NobodyRefused(panel, {1, 2}, [A, B]);
    var nodes := FreshNodes(panel, [A, B]);
    assert nodes == [InPhase(A, 10, Prepare, Pending), InPhase(B, 20, Prepare, Pending)];
    assert Advanced(panel.generations, nodes) == map[1 := 1, 2 := 1];
  }

  lemma Positions(panel: Panel)
    requires 1 in panel.releases && |panel.releases[1].nodes| == 2
    requires panel.releases[1].nodes[0].candidate.node == 1 && panel.releases[1].nodes[1].candidate.node == 2
    ensures Position(panel.releases[1].nodes, 1) == 0 && Position(panel.releases[1].nodes, 2) == 1
  {
  }

  function DocumentOf(n: ReleaseNode): Document {
    Document(1, n.generation, n.phase, n.version)
  }

  // What the agent of a node hears, gets and answers while its work in release 1 is current.
  lemma IsOffered(panel: Panel, node: int)
    requires panel.lastRelease == 1 && 1 in panel.releases && |panel.releases[1].nodes| == 2
    requires panel.releases[1].nodes[0].candidate.node == 1 && panel.releases[1].nodes[1].candidate.node == 2 && node in {1, 2}
    requires var n := panel.releases[1].nodes[node - 1];
             && Offers(panel.releases[1], n) && n.generation > 0 && node in panel.generations && n.generation == panel.generations[node]
             && RuntimeDocument(panel, n, n.phase) == Some(n.version)
    ensures var n := panel.releases[1].nodes[node - 1];
            && PendingFor(panel, node) == Some(PendingDeployment(1, n.phase, n.generation))
            && GetAgentDeployment(panel, node, 1, n.phase) == Fetched(panel, [], Ok(DocumentOf(n)))
  {
    Positions(panel);
  }

  // ---- A run to the point where the second node is active, shared by the witnesses ----

  function AckOf(node: int, n: ReleaseNode): Ack {
    Answer(node, DocumentOf(n), Worked)
  }

  lemma FirstPrepares()
    ensures Acknowledge(Registered(), AckOf(1, Registered().releases[1].nodes[0])).panel == OnePrepared()
  {
    Positions(Registered());
    var nodes := Registered().releases[1].nodes[0 := InPhase(A, 10, Prepare, Prepared)];
    assert nodes[1].status == Pending && !AllPrepared(nodes);
    assert nodes == OnePrepared().releases[1].nodes;
  }

  lemma SecondPrepares()
    ensures Acknowledge(OnePrepared(), AckOf(2, OnePrepared().releases[1].nodes[1])).panel == FirstActive()
  {
    Positions(OnePrepared());
    var nodes := [InPhase(A, 10, Prepare, Prepared), InPhase(B, 20, Prepare, Prepared)];
    assert OnePrepared().releases[1].nodes[1 := InPhase(B, 20, Prepare, Prepared)] == nodes;
    assert FirstWith(nodes, Prepared) == 0;
    assert nodes[0 := InPhase(A, 10, Apply, Active)] == FirstActive().releases[1].nodes;
  }

  lemma FirstApplies()
    ensures Acknowledge(FirstActive(), AckOf(1, FirstActive().releases[1].nodes[0])).panel == SecondActive(Applying, 1, 1, 20)
  {
    Positions(FirstActive());
    var nodes := [InPhase(A, 10, Apply, Applied), InPhase(B, 20, Prepare, Prepared)];
    assert FirstActive().releases[1].nodes[0 := InPhase(A, 10, Apply, Applied)] == nodes;
    assert FirstWith(nodes, Prepared) == 1;
    assert nodes[1 := InPhase(B, 20, Apply, Active)] == SecondActive(Applying, 1, 1, 20).releases[1].nodes;
  }

  // What the second node's agent answers to its first attempt to prepare, which fails.
  const LATE := Answer(2, Document(1, 1, Prepare, 20), FailedUnsaved)

  // The second node's agent was sending that answer at this moment of the run.
  ghost predicate Sent(steps: seq<Step>, sent: nat) {
    sent <= |steps| && AgentOf(Execute(START, steps[..sent]), 2).session == Answering(LATE)
  }

  lemma SentBefore(steps: seq<Step>, more: seq<Step>, sent: nat)
    requires Sent(steps, sent) && steps <= more
    ensures Sent(more, sent)
  {
    assert more[..sent] == steps[..sent];
  }

  lemma ToOnePrepared() returns (steps: seq<Step>)
    ensures Reaches(steps, OnePrepared(), NEVER)
    ensures AgentOf(Execute(START, steps), 1).stored == Stored(1, 1, Prepare) && AgentOf(Execute(START, steps), 2).stored == NEW_AGENT.stored
  {
    CreateWorks();
    steps := Quietly([], START.panel, Create(true, {1, 2}, [A, B]), Registered(), NEVER);
    IsOffered(Registered(), 1);
    steps := Work(steps, Registered(), 1, PendingDeployment(1, Prepare, 1), DocumentOf(Registered().releases[1].nodes[0]), Worked, NEVER);
    FirstPrepares();
    steps := Answered(steps, Registered(), AckOf(1, Registered().releases[1].nodes[0]), OnePrepared(), NEVER);
  }

  // The first attempt of the second node fails, and its answer does not arrive; the second attempt succeeds.
  lemma ToFirstActive() returns (steps: seq<Step>, sent: nat)
    ensures Reaches(steps, FirstActive(), NEVER) && Sent(steps, sent)
    ensures AgentOf(Execute(START, steps), 1).stored == Stored(1, 1, Prepare) && AgentOf(Execute(START, steps), 2).stored == Stored(1, 1, Prepare)
  {
    steps := ToOnePrepared();
    IsOffered(OnePrepared(), 2);
    var pending, document := PendingDeployment(1, Prepare, 1), DocumentOf(OnePrepared().releases[1].nodes[1]);
    steps := Work(steps, OnePrepared(), 2, pending, document, FailedUnsaved, NEVER);
    sent := |steps|;
    assert steps[..sent] == steps && Sent(steps, sent);
    steps := AgainPrepared(steps, sent);
  }

  lemma AgainPrepared(steps: seq<Step>, sent: nat) returns (more: seq<Step>)
    requires Reaches(steps, OnePrepared(), NEVER) && Sent(steps, sent)
    requires AgentOf(Execute(START, steps), 2).stored == NEW_AGENT.stored
    ensures Reaches(more, FirstActive(), NEVER) && Sent(more, sent)
    ensures AgentOf(Execute(START, more), 2).stored == Stored(1, 1, Prepare)
    ensures AgentOf(Execute(START, more), 1).stored == AgentOf(Execute(START, steps), 1).stored
  {
    IsOffered(OnePrepared(), 2);
    var pending, document := PendingDeployment(1, Prepare, 1), DocumentOf(OnePrepared().releases[1].nodes[1]);
    more := Work(steps, OnePrepared(), 2, pending, document, Worked, NEVER);
    SecondPrepares();
    SentBefore(steps, more, sent);
    var worked := more;
    more := Answered(worked, OnePrepared(), AckOf(2, OnePrepared().releases[1].nodes[1]), FirstActive(), NEVER);
    SentBefore(worked, more, sent);
  }

  lemma ToSecondActive() returns (steps: seq<Step>)
    ensures Reaches(steps, SecondActive(Applying, 1, 1, 20), NEVER)
    ensures AgentOf(Execute(START, steps), 2).stored == Stored(1, 1, Prepare)
  {
    var sent: nat;
    steps, sent := ToFirstActive();
    IsOffered(FirstActive(), 1);
    steps := Work(steps, FirstActive(), 1, PendingDeployment(1, Apply, 1), DocumentOf(FirstActive().releases[1].nodes[0]), Worked, NEVER);
    FirstApplies();
    steps := Answered(steps, FirstActive(), AckOf(1, FirstActive().releases[1].nodes[0]), SecondActive(Applying, 1, 1, 20), NEVER);
  }

  // ---- A generation goes back ----

  // The runtime material of the second node's candidate changes while it is active: its acknowledgement hands the
  // release to an administrator and moves every generation.
  lemma FirstChange()
    ensures Acknowledge(SecondActive(Applying, 1, 1, 22), AckOf(2, InPhase(B, 20, Apply, Active))).panel == SecondActive(ManualRequired, 2, 2, 22)
  {
    Positions(SecondActive(Applying, 1, 1, 22));
    BumpBoth(SecondActive(Applying, 1, 1, 22));
  }

  lemma BumpBoth(panel: Panel)
    requires 1 in panel.releases && |panel.releases[1].nodes| == 2 && panel.generations.Keys == {1, 2}
    requires panel.releases[1].nodes[0].candidate.node == 1 && panel.releases[1].nodes[1].candidate.node == 2
    ensures Bump(panel.generations, ReleaseNodes(panel.releases[1])) == map[1 := panel.generations[1] + 1, 2 := panel.generations[2] + 1]
  {
    Positions(panel);
    assert 1 in ReleaseNodes(panel.releases[1]) && 2 in ReleaseNodes(panel.releases[1]);
  }

  lemma SecondGoesBack(gb: int, b: Version)
    ensures RollbackRelease(SecondActive(ManualRequired, gb, gb, b), 1).panel == SecondBack(RollingBack, gb, 2, b, 21)
  {
    var nodes := [InPhase(A, 10, Apply, RollbackPending), InPhase(B, 20, Apply, RollbackPending)];
    assert UnwoundNodes(SecondActive(ManualRequired, gb, gb, b).releases[1].nodes) == nodes;
    assert PastLastWith(nodes, RollbackPending) == 2;
    assert nodes[1 := InPhase(B, 21, Rollback, Active)] == SecondBack(RollingBack, gb, 2, b, 21).releases[1].nodes;
  }

  lemma SecondChange()
    ensures Acknowledge(SecondBack(RollingBack, 2, 2, 22, 23), AckOf(2, InPhase(B, 21, Rollback, Active))).panel
         == SecondBack(ManualRequired, 3, 3, 22, 23)
  {
    Positions(SecondBack(RollingBack, 2, 2, 22, 23));
    BumpBoth(SecondBack(RollingBack, 2, 2, 22, 23));
  }

  lemma FirstGoesBack(ga: int, gb: int, b: Version, backB: Version)
    ensures RollbackRelease(SecondBack(ManualRequired, ga, gb, b, backB), 1).panel == BothBack(2, gb, b, backB)
  {
    var nodes := [InPhase(A, 10, Apply, RollbackPending), InPhase(B, 21, Rollback, Active)];
    assert UnwoundNodes(SecondBack(ManualRequired, ga, gb, b, backB).releases[1].nodes) == nodes;
    assert PastLastWith(nodes[..1], RollbackPending) == 1;
    assert PastLastWith(nodes, RollbackPending) == 1;
    assert nodes[0 := InPhase(A, 11, Rollback, Active)] == BothBack(2, gb, b, backB).releases[1].nodes;
  }

  lemma ToFirstChange() returns (steps: seq<Step>)
    ensures Reaches(steps, SecondActive(ManualRequired, 2, 2, 22), NEVER)
    ensures AgentOf(Execute(START, steps), 2).stored == Stored(1, 1, Apply)
  {
    steps := ToSecondActive();
    var panel, changed := SecondActive(Applying, 1, 1, 20), SecondActive(Applying, 1, 1, 22);
    IsOffered(panel, 2);
    steps := Work(steps, panel, 2, PendingDeployment(1, Apply, 1), DocumentOf(InPhase(B, 20, Apply, Active)), Worked, NEVER);
    Rerostered(20, 21, 22, 21);
    steps := Quietly(steps, panel, RosterChange(Roster(22, 21)), changed, NEVER);
    FirstChange();
    steps := Answered(steps, changed, AckOf(2, InPhase(B, 20, Apply, Active)), SecondActive(ManualRequired, 2, 2, 22), NEVER);
  }

  // The empty topology of the first node keeps its version in a roster change.
  lemma Rerostered(b: Version, backB: Version, b': Version, backB': Version)
    ensures Reroster(Roster(b, backB), Roster(b', backB')) == Roster(b', backB')
  {
  }

  lemma ToSecondBack() returns (steps: seq<Step>)
    ensures Reaches(steps, SecondBack(RollingBack, 2, 2, 22, 21), NEVER)
    ensures AgentOf(Execute(START, steps), 2).stored == Stored(1, 1, Apply)
  {
    steps := ToFirstChange();
    SecondGoesBack(2, 22);
    steps := Quietly(steps, SecondActive(ManualRequired, 2, 2, 22), AdministratorRollback(1), SecondBack(RollingBack, 2, 2, 22, 21), NEVER);
  }

  lemma ToSecondChange() returns (steps: seq<Step>)
    ensures Reaches(steps, SecondBack(ManualRequired, 3, 3, 22, 23), NEVER)
  {
    steps := ToSecondBack();
    var panel, changed := SecondBack(RollingBack, 2, 2, 22, 21), SecondBack(RollingBack, 2, 2, 22, 23);
    IsOffered(panel, 2);
    steps := Work(steps, panel, 2, PendingDeployment(1, Rollback, 2), DocumentOf(InPhase(B, 21, Rollback, Active)), Worked, NEVER);
    Rerostered(22, 21, 22, 23);
    steps := Quietly(steps, panel, RosterChange(Roster(22, 23)), changed, NEVER);
    SecondChange();
    steps := Answered(steps, changed, AckOf(2, InPhase(B, 21, Rollback, Active)), SecondBack(ManualRequired, 3, 3, 22, 23), NEVER);
  }

  // The generation of node 1 goes from 3 back to 2, in a disciplined run without authorization changes.
  lemma GenerationCanGoBack() returns (steps: seq<Step>, step: Step)
    ensures Started(START) && DisciplinedRun(START, steps) && Disciplined(Execute(START, steps), step)
    ensures !step.AuthorizationChange? && forall x :: x in steps ==> !x.AuthorizationChange?
    ensures var before, after := Execute(START, steps).panel.generations, Next(Execute(START, steps), step).panel.generations;
            1 in before && 1 in after && after[1] < before[1]
  {
    steps := ToSecondChange();
    FirstGoesBack(3, 3, 22, 23);
    step := AdministratorRollback(1);
  }

  // ---- Two nodes active at once ----

  lemma TimedOut(before: Panel, after: Panel)
    requires 1 in before.releases && before.releases.Keys == {1} && before.releases[1].status in {Applying, RollingBack}
    requires after == SetStatus(before, 1, ManualRequired)
    ensures RecoverReleases(before, {1}) == after
  {
  }

  lemma ToStalled() returns (steps: seq<Step>)
    ensures Reaches(steps, SecondBack(RollingBack, 1, 2, 20, 21), NEVER)
  {
    steps := ToSecondActive();
    var panel, stalled := SecondActive(Applying, 1, 1, 20), SecondActive(ManualRequired, 1, 1, 20);
    TimedOut(panel, stalled);
    steps := Quietly(steps, panel, Recover({1}), stalled, NEVER);
    SecondGoesBack(1, 20);
    steps := Quietly(steps, stalled, AdministratorRollback(1), SecondBack(RollingBack, 1, 2, 20, 21), NEVER);
  }

  // A rollback that stalls twice and is resumed twice has two nodes active.
  lemma TwoNodesCanBeActive() returns (steps: seq<Step>)
    ensures Started(START) && DisciplinedRun(START, steps)
    ensures var panel := Execute(START, steps).panel;
            && 1 in panel.releases && |panel.releases[1].nodes| == 2
            && panel.releases[1].nodes[0].status == Active && panel.releases[1].nodes[1].status == Active
  {
    steps := ToStalled();
    var panel, stalled := SecondBack(RollingBack, 1, 2, 20, 21), SecondBack(ManualRequired, 1, 2, 20, 21);
    TimedOut(panel, stalled);
    steps := Quietly(steps, panel, Recover({1}), stalled, NEVER);
    FirstGoesBack(1, 2, 20, 21);
    steps := Quietly(steps, stalled, AdministratorRollback(1), BothBack(2, 2, 20, 21), NEVER);
  }

}
