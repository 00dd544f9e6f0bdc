/**
  What the panel answers, by the tables before the request. A document that an agent gets is the one that its release
  recorded for it, an acknowledgement takes effect only while that document is unchanged, and a changed one stops the
  release.
*/
module ReleaseAnswers {
  import opened Common
  import opened Messages
  import opened ReleaseModel
  import opened ReleaseSystem
  import opened ReleaseSession

  // What the topology that a node has to run in its phase renders to now.
  predicate RendersTo(panel: Panel, n: ReleaseNode, version: Version) {
    var topology :=
      if n.phase != Rollback then n.candidate.topology
      else if n.candidate.previous.Some? then n.candidate.previous.value else Direct(n.candidate.node);
    topology in panel.material && panel.material[topology] == version
  }

  // The release stops for an administrator, and these nodes' generations grow by one; nothing else changes.
  ghost predicate Stopped(before: Panel, after: Panel, release: int, nodes: set<int>)
    requires release in before.releases
  {
    && release in after.releases && after.releases[release].status == ManualRequired
    && after == before.(releases := before.releases[release := Release(ManualRequired, before.releases[release].nodes)], generations := after.generations)
    && after.generations.Keys == before.generations.Keys
    && forall n :: n in before.generations ==> after.generations[n] == before.generations[n] + if n in nodes then 1 else 0
  }

  // ---- Handing out a document ----

  // The node has current work in this phase, in a release that is under way.
  predicate HasWork(panel: Panel, node: int, release: int, phase: Phase) {
    && Has(panel, release, node) && node in panel.generations
    && panel.releases[release].status in {Preparing, Ready, Applying, RollingBack}
    && var n := panel.releases[release].nodes[Position(panel.releases[release].nodes, node)];
       n.phase == phase && n.status in {Pending, Prepared, Active} && n.generation == panel.generations[node]
  }

  // A document is handed out exactly for current work whose topology still renders to the version recorded for the node,
  // and it is that version; nothing changes then.
  lemma HandedOutIsRecorded(panel: Panel, node: int, release: int, phase: Phase)
    ensures var fetched := GetAgentDeployment(panel, node, release, phase);
            && (fetched.document.Ok? <==> HasWork(panel, node, release, phase)
                                          && RendersTo(panel, NodeOf(panel, release, node), NodeOf(panel, release, node).version))
            && (fetched.document.Ok? ==>
                  var n := NodeOf(panel, release, node);
                  fetched.document.value == Document(release, n.generation, n.phase, n.version) && fetched.panel == panel && fetched.events == [])
  {
  }

  // If the topology of current work renders to another version by now, the answer is that the request is stale, the
  // release stops, and the generation of exactly this node moves on.
  lemma ChangedIsStopped(panel: Panel, node: int, release: int, phase: Phase, version: Version)
    requires HasWork(panel, node, release, phase)
    requires RendersTo(panel, NodeOf(panel, release, node), version) && version != NodeOf(panel, release, node).version
    ensures var fetched := GetAgentDeployment(panel, node, release, phase);
            && fetched.document == Err(Stale) && fetched.events == [Escalated({release}, Material)]
            && Stopped(panel, fetched.panel, release, {node})
  {
  }

  // Any other request changes nothing, and the error says what is wrong.
  lemma RefusedRequest(panel: Panel, node: int, release: int, phase: Phase)
    requires !HasWork(panel, node, release, phase) || forall version :: !RendersTo(panel, NodeOf(panel, release, node), version)
    ensures var fetched := GetAgentDeployment(panel, node, release, phase);
            && fetched.document.Err? && fetched.panel == panel && fetched.events == []
            && (HasWork(panel, node, release, phase) ==> fetched.document.error == Unavailable)
            && (!Has(panel, release, node) ==> fetched.document.error == NotFound)
            && (Has(panel, release, node) && node in panel.generations && !HasWork(panel, node, release, phase) ==>
                  var n := NodeOf(panel, release, node);
                  fetched.document.error == if n.phase != phase || n.status !in {Pending, Prepared, Active} then NotFound
                                            else if n.generation != panel.generations[node] then Stale else Conflict)
  {
    var fetched := GetAgentDeployment(panel, node, release, phase);
    if Has(panel, release, node) {
      var n := NodeOf(panel, release, node);
      var document := RuntimeDocument(panel, n, n.phase);
      assert document.Some? ==> RendersTo(panel, n, document.value);
    }
  }

  // The agent got this document in this step.
  ghost predicate NewlyHeld(before: System, after: System, node: int, document: Document) {
    AgentOf(after, node).session == Holding(document) && AgentOf(before, node).session != Holding(document)
  }

  // In every run, a document that an agent newly holds is the one recorded for its node: its version is the one that the
  // tables name and that the topology renders to, and its generation is the node's current one.
  lemma HeldIsRecorded(s: System, steps: seq<Step>, step: Step, node: int, document: Document)
    requires Started(s) && NewlyHeld(Execute(s, steps), Next(Execute(s, steps), step), node, document)
    ensures var panel := Next(Execute(s, steps), step).panel;
            && HasWork(panel, node, document.release, document.phase)
            && var n := NodeOf(panel, document.release, node);
               && document == Document(document.release, n.generation, n.phase, n.version)
               && RendersTo(panel, n, document.version) && panel.generations[node] == document.generation
  {
    StepHolds(Execute(s, steps), step, node, document);
  }

  lemma StepHolds(s: System, step: Step, node: int, document: Document)
    requires NewlyHeld(s, Next(s, step), node, document)
    ensures HasWork(Next(s, step).panel, node, document.release, document.phase)
    ensures var n := NodeOf(Next(s, step).panel, document.release, node);
            && document == Document(document.release, n.generation, n.phase, n.version)
            && RendersTo(Next(s, step).panel, n, document.version)
  {
    match step
    case Fetch(fetching) =>
      var agent := AgentOf(s, node);
      if agent.session.Offered? {
        HandedOutIsRecorded(s.panel, node, agent.session.pending.release, agent.session.pending.phase);
      }
    case _ =>
  }

  // ---- Accepting an acknowledgement ----

  // The acknowledgement is about current work of a release under way, and names the generation of the node and, unless it
  // is a failure, the recorded version.
  predicate AboutWork(panel: Panel, ack: Ack) {
    && Has(panel, ack.release, ack.node) && ack.node in panel.generations
    && panel.releases[ack.release].status in {Preparing, Applying, RollingBack}
    && var n := panel.releases[ack.release].nodes[Position(panel.releases[ack.release].nodes, ack.node)];
       && n.phase == ack.phase && (n.phase == Prepare || n.status == Active) && n.status != ack.status
       && n.generation == ack.generation && panel.generations[ack.node] == ack.generation
       && (ack.status != Failed ==> ack.version == n.version)
  }

  // An acknowledgement takes effect only when it is legal, about current work, and the topology of the node still renders
  // to the recorded version; then it is the first thing that the history notes.
  lemma EffectIsRecorded(panel: Panel, ack: Ack)
    requires Acked(ack) in Acknowledge(panel, ack).events
    ensures ValidAck(ack) && AboutWork(panel, ack)
    ensures RendersTo(panel, NodeOf(panel, ack.release, ack.node), NodeOf(panel, ack.release, ack.node).version)
    ensures Acknowledge(panel, ack).events[0] == Acked(ack) && Acknowledge(panel, ack).error.None?
  {
  }

  // Legal and about current work whose topology renders to another version by now: the answer is stale, the release stops,
  // and the generations of all its nodes move on.
  lemma ChangedAckIsStopped(panel: Panel, ack: Ack, version: Version)
    requires ValidAck(ack) && AboutWork(panel, ack)
    requires RendersTo(panel, NodeOf(panel, ack.release, ack.node), version) && version != NodeOf(panel, ack.release, ack.node).version
    ensures var reply := Acknowledge(panel, ack);
            && reply.error == Some(Stale) && reply.events == [Escalated({ack.release}, Material)]
            && Stopped(panel, reply.panel, ack.release, set i | 0 <= i < |panel.releases[ack.release].nodes| :: panel.releases[ack.release].nodes[i].candidate.node)
  {
    var nodes := panel.releases[ack.release].nodes;
    var all := set i | 0 <= i < |nodes| :: nodes[i].candidate.node;
    forall n ensures n in ReleaseNodes(panel.releases[ack.release]) <==> n in all {
      if n in all {
        var i :| 0 <= i < |nodes| && nodes[i].candidate.node == n;
        assert Position(nodes, n) <= i;
      }
      if Position(nodes, n) < |nodes| {
        assert nodes[Position(nodes, n)].candidate.node == n;
      }
    }
  }

  // Legal, about current work and unchanged: the acknowledgement takes effect unless the next node cannot be switched,
  // and without a switch it always does.
  lemma CurrentAckCounts(panel: Panel, ack: Ack)
    requires ValidAck(ack) && AboutWork(panel, ack)
    requires RendersTo(panel, NodeOf(panel, ack.release, ack.node), NodeOf(panel, ack.release, ack.node).version)
    ensures var reply := Acknowledge(panel, ack);
            if reply.error.Some? then reply.panel == panel && reply.events == [] && reply.error.value in {Unavailable, Stale}
            else Acked(ack) in reply.events
    ensures ack.status == Failed && ack.phase != Apply ==> Acknowledge(panel, ack).error.None?
  {
  }

  // ---- Creating a release ----

  predicate Creatable(panel: Panel, capable: set<int>, c: Candidate) {
    && c.node in panel.generations && c.node in capable && panel.generations[c.node] == c.previousGeneration
    && c.topology in panel.material
    && forall r :: r in panel.releases && Has(panel, r, c.node) ==>
         panel.releases[r].status in {Succeeded, FailedRelease, RolledBackRelease}
  }

  ghost predicate Fresh(panel: Panel, c: Candidate, n: ReleaseNode)
    requires c.topology in panel.material
  {
    && n.candidate == c && n.phase == Prepare && n.status == Pending && n.generation == c.previousGeneration + 1
    && n.version == n.candidateVersion == panel.material[c.topology]
  }

  // A release is created exactly from the current preview, when every candidate is known, capable, at the generation of
  // the preview, held by no release that is not over, and renders, and none is listed twice. It lists the candidates in
  // order, all to be prepared at what they render to now, and moves exactly their nodes' generations on by one.
  lemma CreatedExactly(panel: Panel, current: bool, capable: set<int>, candidates: seq<Candidate>)
    ensures var reply := CreateTopologyRelease(panel, current, capable, candidates);
            reply.error.None? <==>
              && current
              && (forall i, j :: 0 <= i < j < |candidates| ==> candidates[i].node != candidates[j].node)
              && (forall i :: 0 <= i < |candidates| ==> Creatable(panel, capable, candidates[i]))
    ensures var reply := CreateTopologyRelease(panel, current, capable, candidates);
            reply.error.None? ==> IsCreated(panel, reply.panel, candidates) && reply.events == []
    ensures var reply := CreateTopologyRelease(panel, current, capable, candidates);
            reply.error.Some? ==> reply.panel == panel && reply.events == [] && (!current ==> reply.error == Some(Stale))
  {
    forall i | 0 <= i < |candidates|
      ensures Creatable(panel, capable, candidates[i]) <==> Guard(panel, capable, candidates[i]).None? && candidates[i].topology in panel.material
    {
      BusyExactly(panel, candidates[i].node);
    }
    if CreateTopologyRelease(panel, current, capable, candidates).error.None? {
      CreatedTables(panel, candidates);
    }
  }

  lemma Over(status: ReleaseStatus)
    ensures status !in LIVE <==> status in {Succeeded, FailedRelease, RolledBackRelease}
  {
    match status
    case _ =>
  }

  lemma BusyExactly(panel: Panel, node: int)
    ensures !Busy(panel, node) <==>
              forall r :: r in panel.releases && Has(panel, r, node) ==> panel.releases[r].status in {Succeeded, FailedRelease, RolledBackRelease}
  {
    if !Busy(panel, node) {
      forall r | r in panel.releases && Has(panel, r, node) ensures panel.releases[r].status in {Succeeded, FailedRelease, RolledBackRelease} {
        Over(panel.releases[r].status);
      }
    }
  }

  ghost predicate IsCreated(before: Panel, after: Panel, candidates: seq<Candidate>) {
    var id := before.lastRelease + 1;
    && after == before.(releases := after.releases, lastRelease := id, generations := after.generations)
    && id in after.releases && after.releases == before.releases[id := after.releases[id]]
    && after.releases[id].status == Preparing && |after.releases[id].nodes| == |candidates|
    && (forall i :: 0 <= i < |candidates| ==> candidates[i].topology in before.material && Fresh(before, candidates[i], after.releases[id].nodes[i]))
    && after.generations.Keys == before.generations.Keys
    && (forall i :: 0 <= i < |candidates| && candidates[i].node in before.generations ==>
          after.generations[candidates[i].node] == candidates[i].previousGeneration + 1)
    && forall n :: n in before.generations && (forall i :: 0 <= i < |candidates| ==> candidates[i].node != n) ==>
         after.generations[n] == before.generations[n]
  }

  lemma CreatedTables(panel: Panel, candidates: seq<Candidate>)
    requires DistinctCandidates(candidates) && forall i :: 0 <= i < |candidates| ==> candidates[i].topology in panel.material
    ensures IsCreated(panel, Created(panel, candidates), candidates)
  {
    var nodes := FreshNodes(panel, candidates);
    var after := Advanced(panel.generations, nodes);
    assert forall i :: 0 <= i < |nodes| ==> nodes[i].candidate == candidates[i] && nodes[i].generation == candidates[i].previousGeneration + 1;
    forall i | 0 <= i < |candidates| && candidates[i].node in panel.generations
      ensures after[candidates[i].node] == candidates[i].previousGeneration + 1
    {
      Listed(nodes, candidates, i);
    }
    forall n | n in panel.generations && forall i :: 0 <= i < |candidates| ==> candidates[i].node != n
      ensures after[n] == panel.generations[n]
    {
      NotListed(nodes, n);
    }
  }

  lemma {:induction false} Listed(nodes: seq<ReleaseNode>, candidates: seq<Candidate>, i: nat)
    requires DistinctCandidates(candidates) && |nodes| == |candidates| && i < |nodes|
    requires forall j :: 0 <= j < |nodes| ==> nodes[j].candidate == candidates[j]
    ensures Position(nodes, candidates[i].node) == i
  {
    var p := Position(nodes, candidates[i].node);
    assert nodes[i].candidate.node == candidates[i].node;
    assert nodes[p].candidate == candidates[p];
  }

  lemma NotListed(nodes: seq<ReleaseNode>, node: int)
    requires forall i :: 0 <= i < |nodes| ==> nodes[i].candidate.node != node
    ensures Position(nodes, node) == |nodes|
  {
  }
}
