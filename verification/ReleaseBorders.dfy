/**
  Two properties that the protocol keeps in most runs but not in all: a release has at most one active node, and a node
  is in at most one live release. Here are the exact steps that break them, over every run and whatever
  acknowledgements arrive. Both are administrators' rollbacks, and the tables before the step tell which.
*/
module ReleaseBorders {
  import opened Messages
  import opened ReleaseModel
  import opened ReleaseShape
  import opened ReleaseSystem
  import opened ReleaseHistory
  import opened ReleaseRuns
  import opened ReleaseOrder
  import opened ReleaseSession
  import opened ReleaseDiscipline

  // ---- What an administrator can read off the tables ----

  // One past the last node that was switched to its candidate and not back, or zero.
  function PastLastStanding(nodes: seq<ReleaseNode>): (p: nat)
    ensures p <= |nodes|
    ensures p > 0 ==> nodes[p - 1].phase == Apply
    ensures forall i :: p <= i < |nodes| ==> nodes[i].phase != Apply
  {
    if nodes == [] then 0
    else if nodes[|nodes| - 1].phase == Apply then |nodes|
    else PastLastStanding(nodes[..|nodes| - 1])
  }

  // A rollback of the release has a node to switch back, and can render its document.
  predicate SwitchesBack(panel: Panel, release: int)
    requires release in panel.releases
  {
    var nodes := panel.releases[release].nodes;
    var p := PastLastStanding(nodes);
    p > 0 && RuntimeDocument(panel, nodes[p - 1], Rollback).Some?
  }

  lemma StandingIs(r: Release, b: nat, m: nat)
    requires Frame(r.nodes, b, m)
    ensures PastLastStanding(r.nodes) == b
  {
    var p := PastLastStanding(r.nodes);
    assert p > 0 ==> NodeShape(r.nodes[p - 1], p - 1, b, m);
    assert b > 0 ==> NodeShape(r.nodes[b - 1], b - 1, b, m);
  }

  lemma ShapeAt(s: System, release: int) returns (b: nat, m: nat)
    requires Consistent(s) && release in s.panel.releases
    ensures Shape(s.panel.releases[release], b, m)
  {
    var forward, back := ForwardOf(s.log, release), BackOf(s.log, release);
    assert History(s.panel.releases[release], forward, back);
    b, m := |forward| - |back|, |forward|;
  }

  // A node that is switched back goes to the generation after the one it was released with.
  function NextGeneration(generations: map<int, int>, n: ReleaseNode): map<int, int> {
    generations[n.candidate.node := n.generation + 1]
  }

  // What a rollback by an administrator does to its release.
  ghost predicate Resumed(panel: Panel, reply: Reply, release: int, b: nat)
    requires release in panel.releases && b <= |panel.releases[release].nodes|
  {
    && Moves(panel, reply, release)
    && var before, after := panel.releases[release], reply.panel.releases[release];
       && after.status == (if b == 0 then RolledBackRelease else RollingBack)
       && reply.panel.generations == (if b == 0 then panel.generations else NextGeneration(panel.generations, before.nodes[b - 1]))
       && (forall i :: 0 <= i < |before.nodes| ==>
             if i == b - 1 then after.nodes[i].status == Active
             else after.nodes[i] == if i < b then before.nodes[i].(status := RollbackPending) else before.nodes[i])
  }

  lemma UnwoundPast(r: Release, b: nat, m: nat)
    requires Frame(r.nodes, b, m)
    ensures PastLastWith(UnwoundNodes(r.nodes), RollbackPending) == b
    ensures forall i :: 0 <= i < |r.nodes| ==> UnwoundNodes(r.nodes)[i] == if i < b then r.nodes[i].(status := RollbackPending) else r.nodes[i]
  {
    var nodes := UnwoundNodes(r.nodes);
    Unwind(r, b, m);
    forall i | 0 <= i < |nodes| ensures nodes[i] == if i < b then r.nodes[i].(status := RollbackPending) else r.nodes[i] {
      assert NodeShape(r.nodes[i], i, b, m);
    }
    var p := PastLastWith(nodes, RollbackPending);
    assert p > 0 ==> NodeShape(nodes[p - 1], p - 1, b, m);
    assert b > 0 ==> nodes[b - 1].status == RollbackPending;
  }

  // Switching back from tables in which the first b nodes are to be switched back.
  lemma BackExactly(panel: Panel, release: int, b: nat)
    requires release in panel.releases && PastLastWith(panel.releases[release].nodes, RollbackPending) == b
    ensures var reply := ActivateNext(panel, release, true);
            var nodes := panel.releases[release].nodes;
            && (reply.error.None? <==> b == 0 || RuntimeDocument(panel, nodes[b - 1], Rollback).Some?)
            && (reply.error.None? ==>
                  && release in reply.panel.releases
                  && reply.panel.generations == (if b == 0 then panel.generations else NextGeneration(panel.generations, nodes[b - 1]))
                  && var after := reply.panel.releases[release];
                     && after.status == (if b == 0 then RolledBackRelease else RollingBack)
                     && |after.nodes| == |nodes|
                     && forall i :: 0 <= i < |nodes| ==> if i == b - 1 then after.nodes[i].status == Active else after.nodes[i] == nodes[i])
  {
  }

  // What is left to render does not depend on the statuses.
  lemma SameDocument(panel: Panel, unwound: Panel, release: int, b: nat)
    requires release in panel.releases && release in unwound.releases && unwound.material == panel.material
    requires PastLastStanding(panel.releases[release].nodes) == b
    requires SameCandidates(panel.releases[release].nodes, unwound.releases[release].nodes)
    ensures b > 0 ==>
              (SwitchesBack(panel, release) <==> RuntimeDocument(unwound, unwound.releases[release].nodes[b - 1], Rollback).Some?)
  {
  }

  lemma ResumedBy(panel: Panel, unwound: seq<ReleaseNode>, reply: Reply, release: int, b: nat)
    requires release in panel.releases && b <= |panel.releases[release].nodes| == |unwound|
    requires Moves(panel, reply, release)
    requires forall i :: 0 <= i < |unwound| ==>
               unwound[i] == if i < b then panel.releases[release].nodes[i].(status := RollbackPending) else panel.releases[release].nodes[i]
    requires reply.panel.generations == if b == 0 then panel.generations else NextGeneration(panel.generations, unwound[b - 1])
    requires var after := reply.panel.releases[release];
             && after.status == (if b == 0 then RolledBackRelease else RollingBack)
             && |after.nodes| == |unwound|
             && forall i :: 0 <= i < |unwound| ==> if i == b - 1 then after.nodes[i].status == Active else after.nodes[i] == unwound[i]
    ensures Resumed(panel, reply, release, b)
  {
  }

  lemma UnwoundExactly(panel: Panel, unwound: Panel, release: int, b: nat, m: nat)
    requires release in panel.releases && Frame(panel.releases[release].nodes, b, m)
    requires unwound == panel.(releases := panel.releases[release := panel.releases[release].(nodes := UnwoundNodes(panel.releases[release].nodes))])
    ensures var reply := ActivateNext(unwound, release, true);
            && (reply.error.None? <==> b == 0 || SwitchesBack(panel, release))
            && (reply.error.None? && Moves(panel, reply, release) ==> Resumed(panel, reply, release, b))
  {
    var r := panel.releases[release];
    StandingIs(r, b, m);
    UnwoundPast(r, b, m);
    Unwind(r, b, m);
    SameDocument(panel, unwound, release, b);
    BackExactly(unwound, release, b);
    var reply := ActivateNext(unwound, release, true);
    if reply.error.None? && Moves(panel, reply, release) {
      ResumedBy(panel, unwound.releases[release].nodes, reply, release, b);
    }
  }

  lemma BeginRollbackExactly(panel: Panel, release: int, b: nat, m: nat)
    requires release in panel.releases && Frame(panel.releases[release].nodes, b, m)
    ensures var reply := BeginRollback(panel, release);
            && (reply.error.None? <==> b == 0 || SwitchesBack(panel, release))
            && (reply.error.None? ==> Resumed(panel, reply, release, b))
  {
    var r := panel.releases[release];
    UnwoundExactly(panel, panel.(releases := panel.releases[release := r.(nodes := UnwoundNodes(r.nodes))]), release, b, m);
    BeginRollbackMoves(panel, release);
  }

  lemma RollbackExactly(panel: Panel, release: int, b: nat, m: nat)
    requires release in panel.releases && Shape(panel.releases[release], b, m)
    ensures var reply := RollbackRelease(panel, release);
            if panel.releases[release].status in {FailedRelease, ManualRequired} && (b == 0 || SwitchesBack(panel, release))
            then Resumed(panel, reply, release, b) else reply.panel == panel
    ensures b > 0 <== SwitchesBack(panel, release)
  {
    StandingIs(panel.releases[release], b, m);
    BeginRollbackExactly(panel, release, b, m);
  }

  // ---- At most one active node ----

  ghost predicate Crowded(r: Release) {
    exists i, j :: 0 <= i < j < |r.nodes| && r.nodes[i].status == Active && r.nodes[j].status == Active
  }

  ghost predicate NoneActive(nodes: seq<ReleaseNode>) {
    forall i :: 0 <= i < |nodes| ==> nodes[i].status != Active
  }

  // The release has at most one active node, if there is such a release.
  ghost predicate Alone(panel: Panel, release: int) {
    release in panel.releases ==> !Crowded(panel.releases[release])
  }

  ghost predicate Uncrowded(panel: Panel) {
    forall r :: Alone(panel, r)
  }

  // The release was stopped while a node was being switched back, and other nodes still have to be.
  ghost predicate Crowding(panel: Panel, release: int) {
    && release in panel.releases && panel.releases[release].status in {FailedRelease, ManualRequired}
    && (exists i :: 0 <= i < |panel.releases[release].nodes|
          && panel.releases[release].nodes[i].phase == Rollback && panel.releases[release].nodes[i].status == Active)
    && SwitchesBack(panel, release)
  }

  // No node that was active before stays so, except where the node itself is kept.
  lemma NotCrowded(before: Release, after: Release)
    requires !Crowded(before) && |after.nodes| == |before.nodes|
    requires forall i :: 0 <= i < |after.nodes| && after.nodes[i].status == Active ==> before.nodes[i].status == Active
    ensures !Crowded(after)
  {
  }

  lemma ResumeCrowds(panel: Panel, release: int, b: nat, m: nat)
    requires release in panel.releases && Shape(panel.releases[release], b, m) && !Crowded(panel.releases[release])
    ensures var reply := RollbackRelease(panel, release);
            release in reply.panel.releases && (Crowded(reply.panel.releases[release]) <==> Crowding(panel, release))
  {
    var r := panel.releases[release];
    var reply := RollbackRelease(panel, release);
    RollbackExactly(panel, release, b, m);
    StandingIs(r, b, m);
    if reply.panel != panel {
      var after := reply.panel.releases[release];
      if b == 0 {
        NotCrowded(r, after);
      } else {
        OthersActive(r, after, b, m);
      }
    }
  }

  // Beside the node that a rollback makes active, exactly those are active that were being switched back before.
  lemma OthersActive(before: Release, after: Release, b: nat, m: nat)
    requires Frame(before.nodes, b, m) && 0 < b && |after.nodes| == |before.nodes|
    requires forall i :: 0 <= i < |before.nodes| ==>
               if i == b - 1 then after.nodes[i].status == Active
               else after.nodes[i] == if i < b then before.nodes[i].(status := RollbackPending) else before.nodes[i]
    ensures Crowded(after) <==> exists i :: 0 <= i < |before.nodes| && before.nodes[i].phase == Rollback && before.nodes[i].status == Active
  {
    forall i | 0 <= i < |before.nodes| && i != b - 1
      ensures after.nodes[i].status == Active <==> before.nodes[i].phase == Rollback && before.nodes[i].status == Active
    {
      assert NodeShape(before.nodes[i], i, b, m);
    }
    assert NodeShape(before.nodes[b - 1], b - 1, b, m);
  }

  // ---- Acknowledgements never make a second node active ----

  lemma ActivateAlone(told: Panel, release: int, rollback: bool)
    requires release in told.releases && NoneActive(told.releases[release].nodes)
    ensures var reply := ActivateNext(told, release, rollback);
            reply.error.None? ==> release in reply.panel.releases && !Crowded(reply.panel.releases[release])
  {
    var p := ActivateNextNodes(told, release, rollback);
  }

  // A node that answers was the only active one.
  lemma AnsweredAlone(r: Release, p: nat, status: NodeStatus)
    requires !Crowded(r) && p < |r.nodes| && r.nodes[p].status == Active && status != Active
    ensures NoneActive(r.nodes[p := r.nodes[p].(status := status)])
  {
    assert forall i :: 0 <= i < |r.nodes| && i != p ==> r.nodes[i].status != Active;
  }

  lemma UnwoundAlone(r: Release)
    requires NoneActive(r.nodes)
    ensures NoneActive(UnwoundNodes(r.nodes))
  {
  }

  lemma AdvanceAlone(panel: Panel, release: int, p: nat, ack: Ack)
    requires Admitted(panel, release, p, ack) && !Crowded(panel.releases[release])
    ensures var reply := Advance(panel, release, p, ack);
            reply.error.None? ==> release in reply.panel.releases && !Crowded(reply.panel.releases[release])
  {
    var r := panel.releases[release];
    var n := r.nodes[p];
    var told := SetNode(panel, release, p, n.(status := ack.status));
    NotCrowded(r, told.releases[release]);
    if n.phase != Prepare {
      AnsweredAlone(r, p, ack.status);
      if ack.status != Failed {
        ActivateAlone(told, release, n.phase == Rollback);
      } else if n.phase == Apply {
        UnwoundAlone(told.releases[release]);
        var t := told.releases[release];
        ActivateAlone(told.(releases := told.releases[release := t.(nodes := UnwoundNodes(t.nodes))]), release, true);
      }
    } else if ack.status != Failed && AllPrepared(told.releases[release].nodes) {
      ActivateAlone(SetStatus(told, release, Ready), release, false);
    }
  }

  lemma AcknowledgeAlone(panel: Panel, ack: Ack, release: int)
    requires Alone(panel, release)
    ensures Alone(Acknowledge(panel, ack).panel, release)
  {
    var reply := Acknowledge(panel, ack);
    AcknowledgeEffects(panel, ack);
    if !Unchanged(panel, reply) && reply.error.None? {
      var p := Position(panel.releases[ack.release].nodes, ack.node);
      AdvanceMoves(panel, ack.release, p, ack);
      if release == ack.release {
        AdvanceAlone(panel, release, p, ack);
      }
    }
  }

  // ---- Steps that switch nobody ----

  ghost predicate KeepsNodes(before: Panel, after: Panel) {
    && after.releases.Keys == before.releases.Keys
    && forall r :: r in before.releases ==> after.releases[r].nodes == before.releases[r].nodes
  }

  lemma KeepsNodesAlone(before: Panel, after: Panel, release: int)
    requires KeepsNodes(before, after) && Alone(before, release)
    ensures Alone(after, release)
  {
    if release in after.releases {
      NotCrowded(before.releases[release], after.releases[release]);
    }
  }

  lemma FetchKeepsNodes(s: System, node: int)
    ensures KeepsNodes(s.panel, Fetching(s, node).panel)
    ensures forall r :: Live(Fetching(s, node).panel, r) ==> Live(s.panel, r)
  {
  }

  lemma CreateAlone(panel: Panel, current: bool, capable: set<int>, candidates: seq<Candidate>, release: int)
    requires Alone(panel, release)
    ensures Alone(CreateTopologyRelease(panel, current, capable, candidates).panel, release)
  {
    var reply := CreateTopologyRelease(panel, current, capable, candidates);
    if reply.error.None? {
      var nodes := FreshNodes(panel, candidates);
      assert NoneActive(nodes) by {
        forall i | 0 <= i < |nodes| ensures nodes[i].status == Pending {}
      }
    }
  }

  lemma RollbackAlone(s: System, rolled: int, release: int)
    requires Consistent(s) && Alone(s.panel, release)
    ensures Alone(RollbackRelease(s.panel, rolled).panel, release) <==> !(rolled == release && Crowding(s.panel, release))
  {
    if rolled in s.panel.releases {
      var b, m := ShapeAt(s, rolled);
      if rolled == release {
        ResumeCrowds(s.panel, rolled, b, m);
      } else {
        RollbackExactly(s.panel, rolled, b, m);
      }
    }
  }

  lemma StepAlone(s: System, step: Step, release: int)
    requires Consistent(s) && Alone(s.panel, release)
    ensures Alone(Next(s, step).panel, release) <==> !(step == AdministratorRollback(release) && Crowding(s.panel, release))
  {
    match step
    case Create(current, capable, candidates) => CreateAlone(s.panel, current, capable, candidates, release);
    case Deliver(ack) => AcknowledgeAlone(s.panel, ack, release);
    case AdministratorRollback(rolled) => RollbackAlone(s, rolled, release);
    case Fetch(node) =>
      FetchKeepsNodes(s, node);
      KeepsNodesAlone(s.panel, Fetching(s, node).panel, release);
    case _ => KeepsNodesAlone(s.panel, Next(s, step).panel, release);
  }

  // In any reachable state, the next step takes a release from at most one active node to more if and only if an
  // administrator resumes it, and it was stopped while a node was being switched back, has a node left to switch back,
  // and the previous topology of the last such node renders.
  lemma SecondActiveExactly(s: System, steps: seq<Step>, step: Step, release: int)
    requires Started(s) && release in Next(Execute(s, steps), step).panel.releases
    requires release in Execute(s, steps).panel.releases ==> !Crowded(Execute(s, steps).panel.releases[release])
    ensures Crowded(Next(Execute(s, steps), step).panel.releases[release]) <==>
              step == AdministratorRollback(release) && Crowding(Execute(s, steps).panel, release)
  {
    RunConsistent(s, steps);
    StepAlone(Execute(s, steps), step, release);
  }

  ghost predicate CrowdingStep(panel: Panel, step: Step) {
    step.AdministratorRollback? && Crowding(panel, step.release)
  }

  lemma AllAlone(before: Panel, after: Panel, step: Step)
    requires forall r :: Alone(after, r) <==> !(step == AdministratorRollback(r) && Crowding(before, r))
    ensures Uncrowded(after) <==> !CrowdingStep(before, step)
  {
    if CrowdingStep(before, step) {
      assert !Alone(after, step.release);
    }
  }

  lemma StepCrowds(s: System, step: Step)
    requires Consistent(s) && Uncrowded(s.panel)
    ensures Uncrowded(Next(s, step).panel) <==> !CrowdingStep(s.panel, step)
  {
    forall r ensures Alone(Next(s, step).panel, r) <==> !(step == AdministratorRollback(r) && Crowding(s.panel, r)) {
      StepAlone(s, step, r);
    }
    AllAlone(s.panel, Next(s, step).panel, step);
  }

  // ---- Whole runs ----

  // The property holds at the end of the run, and held after every step before.
  ghost predicate Throughout(s: System, steps: seq<Step>, good: Panel -> bool) {
    good(Execute(s, steps).panel) && (steps != [] ==> Throughout(s, steps[..|steps| - 1], good))
  }

  // No step of the run is bad in the state in which it is taken.
  ghost predicate Never(s: System, steps: seq<Step>, bad: (Panel, Step) -> bool) {
    steps != [] ==>
      Never(s, steps[..|steps| - 1], bad) && !bad(Execute(s, steps[..|steps| - 1]).panel, steps[|steps| - 1])
  }

  // Every step from a consistent state keeps the good property exactly unless it is bad.
  ghost predicate KeptUnless(good: Panel -> bool, bad: (Panel, Step) -> bool) {
    forall t: System, step: Step :: Consistent(t) && good(t.panel) ==> (good(Next(t, step).panel) <==> !bad(t.panel, step))
  }

  lemma KeptAt(good: Panel -> bool, bad: (Panel, Step) -> bool, t: System, step: Step)
    requires KeptUnless(good, bad) && Consistent(t) && good(t.panel)
    ensures good(Next(t, step).panel) <==> !bad(t.panel, step)
  {
  }

  // Such a property holds throughout a run exactly when the run has no bad step.
  lemma {:induction false} RunExactly(s: System, steps: seq<Step>, good: Panel -> bool, bad: (Panel, Step) -> bool)
    requires Started(s) && good(s.panel) && KeptUnless(good, bad)
    ensures Throughout(s, steps, good) <==> Never(s, steps, bad)
  {
    if steps != [] {
      var front := steps[..|steps| - 1];
      RunExactly(s, front, good, bad);
      if Throughout(s, front, good) {
        RunConsistent(s, front);
        KeptAt(good, bad, Execute(s, front), steps[|front|]);
      }
    }
  }

  // Every release has at most one active node all through a run, if and only if no administrator resumes such a release in it.
  lemma OneActiveExactly(s: System, steps: seq<Step>)
    requires Started(s)
    ensures Throughout(s, steps, Uncrowded) <==> Never(s, steps, CrowdingStep)
  {
    forall t: System, step: Step | Consistent(t) && Uncrowded(t.panel)
      ensures Uncrowded(Next(t, step).panel) <==> !CrowdingStep(t.panel, step)
    {
      StepCrowds(t, step);
    }
    RunExactly(s, steps, Uncrowded, CrowdingStep);
  }

  // ---- At most one live release ----

  ghost predicate Contested(panel: Panel, r1: int, r2: int, node: int) {
    r1 != r2 && Live(panel, r1) && Live(panel, r2) && Has(panel, r1, node) && Has(panel, r2, node)
  }

  ghost predicate Uncontested(panel: Panel) {
    forall r1, r2, n :: !Contested(panel, r1, r2, n)
  }

  // The release has failed with a node switched that can be switched back, and one of its nodes is in a live release.
  ghost predicate Contesting(panel: Panel, release: int) {
    && release in panel.releases && panel.releases[release].status == FailedRelease
    && SwitchesBack(panel, release)
    && exists node :: Has(panel, release, node) && Busy(panel, node)
  }

  ghost predicate ContestingStep(panel: Panel, step: Step) {
    step.AdministratorRollback? && Contesting(panel, step.release)
  }

  ghost predicate KeepsMembers(before: Panel, after: Panel) {
    && after.releases.Keys == before.releases.Keys
    && forall r :: r in before.releases ==> SameCandidates(before.releases[r].nodes, after.releases[r].nodes)
  }

  lemma MembersSame(before: Panel, after: Panel)
    requires KeepsMembers(before, after)
    ensures forall r, n :: Has(after, r, n) <==> Has(before, r, n)
  {
    forall r, n | r in before.releases ensures Has(after, r, n) <==> Has(before, r, n) {
      PositionSame(before.releases[r].nodes, after.releases[r].nodes, n);
    }
  }

  lemma FewerUncontested(before: Panel, after: Panel)
    requires KeepsMembers(before, after) && Uncontested(before) && forall r :: Live(after, r) ==> Live(before, r)
    ensures Uncontested(after)
  {
    MembersSame(before, after);
    assert forall r1, r2, n :: Contested(after, r1, r2, n) ==> Contested(before, r1, r2, n);
  }

  // An acknowledgement with an effect belongs to a live release.
  lemma AcknowledgeUncontested(panel: Panel, ack: Ack)
    requires Uncontested(panel)
    ensures Uncontested(Acknowledge(panel, ack).panel)
  {
    AcknowledgeEffects(panel, ack);
    AcknowledgeKeepsHistory(panel, ack);
    FewerUncontested(panel, Acknowledge(panel, ack).panel);
  }

  lemma CreateUncontested(s: System, current: bool, capable: set<int>, candidates: seq<Candidate>)
    requires Consistent(s) && Uncontested(s.panel)
    ensures Uncontested(CreateTopologyRelease(s.panel, current, capable, candidates).panel)
  {
    var reply := CreateTopologyRelease(s.panel, current, capable, candidates);
    if reply.error.None? {
      NewExtends(s, current, capable, candidates);
      ExtensionUncontested(s.panel, reply.panel, s.panel.lastRelease + 1);
    }
  }

  // A new release only takes nodes that no live release holds.
  lemma ExtensionUncontested(before: Panel, after: Panel, id: int)
    requires Extends(before, after, id) && Uncontested(before)
    ensures Uncontested(after)
  {
    forall r1, r2, n ensures !Contested(after, r1, r2, n) {
      assert Has(after, id, n) ==> NewNode(before, after, id, n);
      assert !Contested(before, r1, r2, n);
    }
  }

  lemma MovesKeepsMembers(before: Panel, reply: Reply, release: int)
    requires Moves(before, reply, release)
    ensures KeepsMembers(before, reply.panel) && forall r :: r != release ==> (Live(reply.panel, r) <==> Live(before, r))
  {
  }

  ghost predicate Revived(before: Panel, after: Panel, release: int) {
    && KeepsMembers(before, after)
    && release in before.releases && before.releases[release].status == FailedRelease
    && (Live(after, release) <==> SwitchesBack(before, release))
    && forall r :: r != release ==> (Live(after, r) <==> Live(before, r))
  }

  // A rollback brings a failed release back to life exactly when it switches a node back.
  lemma ResumeRevives(panel: Panel, release: int, b: nat, m: nat)
    requires release in panel.releases && Shape(panel.releases[release], b, m) && panel.releases[release].status == FailedRelease
    ensures Revived(panel, RollbackRelease(panel, release).panel, release)
  {
    RollbackExactly(panel, release, b, m);
    RevivedBy(panel, RollbackRelease(panel, release), release, b);
  }

  lemma RevivedBy(panel: Panel, reply: Reply, release: int, b: nat)
    requires release in panel.releases && panel.releases[release].status == FailedRelease && b <= |panel.releases[release].nodes|
    requires if b == 0 || SwitchesBack(panel, release) then Resumed(panel, reply, release, b) else reply.panel == panel
    requires SwitchesBack(panel, release) ==> b > 0
    ensures Revived(panel, reply.panel, release)
  {
    if b == 0 || SwitchesBack(panel, release) {
      MovesKeepsMembers(panel, reply, release);
    }
  }

  // Any other rollback brings no release to life.
  lemma ResumeKeepsLive(s: System, release: int)
    requires Consistent(s) && (release in s.panel.releases ==> s.panel.releases[release].status != FailedRelease)
    ensures var after := RollbackRelease(s.panel, release).panel;
            KeepsMembers(s.panel, after) && forall r :: Live(after, r) ==> Live(s.panel, r)
  {
    if release in s.panel.releases {
      var b, m := ShapeAt(s, release);
      RollbackExactly(s.panel, release, b, m);
    }
  }

  lemma ResumeContests(s: System, release: int)
    requires Consistent(s) && Uncontested(s.panel)
    ensures Uncontested(RollbackRelease(s.panel, release).panel) <==> !Contesting(s.panel, release)
  {
    if release in s.panel.releases && s.panel.releases[release].status == FailedRelease {
      var b, m := ShapeAt(s, release);
      ResumeRevives(s.panel, release, b, m);
      RevivedExactly(s.panel, RollbackRelease(s.panel, release).panel, release);
    } else {
      ResumeKeepsLive(s, release);
      FewerUncontested(s.panel, RollbackRelease(s.panel, release).panel);
    }
  }

  lemma RevivedExactly(before: Panel, after: Panel, release: int)
    requires Revived(before, after, release) && Uncontested(before)
    ensures Uncontested(after) <==> !Contesting(before, release)
  {
    if Contesting(before, release) {
      var node :| Has(before, release, node) && Busy(before, node);
      RevivedContests(before, after, release, node);
    } else {
      RevivedAlone(before, after, release);
    }
  }

  lemma RevivedContests(before: Panel, after: Panel, release: int, node: int)
    requires KeepsMembers(before, after) && Live(after, release) && !Live(before, release)
    requires Has(before, release, node) && Busy(before, node)
    requires forall r :: r != release ==> (Live(after, r) <==> Live(before, r))
    ensures !Uncontested(after)
  {
    MembersSame(before, after);
    var other :| other in before.releases && before.releases[other].status in LIVE && Has(before, other, node);
    assert Live(before, other);
    assert Contested(after, release, other, node);
  }

  lemma RevivedAlone(before: Panel, after: Panel, release: int)
    requires KeepsMembers(before, after) && Uncontested(before) && release in before.releases
    requires Live(after, release) ==> forall node :: Has(before, release, node) ==> !Busy(before, node)
    requires forall r :: r != release ==> (Live(after, r) <==> Live(before, r))
    ensures Uncontested(after)
  {
    MembersSame(before, after);
    forall r1, r2, n ensures !Contested(after, r1, r2, n) {
      assert !Contested(before, r1, r2, n);
      assert Live(after, release) && Has(before, release, n) ==> !Busy(before, n);
    }
  }

  lemma StepContests(s: System, step: Step)
    requires Consistent(s) && Uncontested(s.panel)
    ensures Uncontested(Next(s, step).panel) <==> !ContestingStep(s.panel, step)
  {
    match step
    case Create(current, capable, candidates) => CreateUncontested(s, current, capable, candidates);
    case Deliver(ack) => AcknowledgeUncontested(s.panel, ack);
    case AdministratorRollback(release) => ResumeContests(s, release);
    case Fetch(node) =>
      FetchKeepsNodes(s, node);
      FewerUncontested(s.panel, Fetching(s, node).panel);
    case _ => FewerUncontested(s.panel, Next(s, step).panel);
  }

  // In any reachable state in which no node is in two live releases, the next step puts a node into two if and only if an
  // administrator rolls back a failed release that has a node left to switch back, whose last such node's previous
  // topology renders, and one of whose nodes is in a live release meanwhile.
  lemma SecondLiveExactly(s: System, steps: seq<Step>, step: Step)
    requires Started(s) && Uncontested(Execute(s, steps).panel)
    ensures Uncontested(Next(Execute(s, steps), step).panel) <==>
              !(step.AdministratorRollback? && Contesting(Execute(s, steps).panel, step.release))
  {
    RunConsistent(s, steps);
    StepContests(Execute(s, steps), step);
  }

  // No node is in two live releases all through a run, if and only if no administrator rolls back such a release in it.
  lemma OneLiveExactly(s: System, steps: seq<Step>)
    requires Started(s)
    ensures Throughout(s, steps, Uncontested) <==> Never(s, steps, ContestingStep)
  {
    forall t: System, step: Step | Consistent(t) && Uncontested(t.panel)
      ensures Uncontested(Next(t, step).panel) <==> !ContestingStep(t.panel, step)
    {
      StepContests(t, step);
    }
    RunExactly(s, steps, Uncontested, ContestingStep);
  }
}
