/**
  Runs of the release protocol: the panel, the agents' sessions and the history of effects.
  A step is one transaction of the panel, one action of an agent, or a change of the environment.
*/
module ReleaseSystem {
  import opened Messages
  import opened ReleaseModel

  // ---- The agent's side: one deployment session at a time ----

  // The agent's deployment state file.
  datatype Stored = Stored(release: int, generation: int, phase: Phase)

  datatype Session = Idle | Offered(pending: PendingDeployment) | Holding(document: Document) | Answering(ack: Ack)

  datatype Agent = Agent(session: Session, stored: Stored)

  const NEW_AGENT := Agent(Idle, Stored(0, 0, Prepare))

  // The generation fence: older work than what is stored is ignored.
  predicate Fenced(stored: Stored, pending: PendingDeployment) {
    pending.generation < stored.generation
  }

  // Work at the stored generation has to belong to the stored release, and must not go back to preparing.
  predicate Ignored(stored: Stored, document: Document) {
    && document.generation == stored.generation
    && ((stored.release != 0 && stored.release != document.release) || (document.phase == Prepare && stored.phase != Prepare))
  }

  // What came of the work: it succeeded, or it failed before or after the state file was replaced.
  datatype Outcome = Worked | FailedUnsaved | FailedSaved

  function Answer(node: int, document: Document, outcome: Outcome): Ack {
    Ack(document.release, node, document.generation, document.phase, document.version,
      if outcome.Worked? then SuccessStatus(document.phase) else Failed, !outcome.Worked?)
  }

  function Acted(node: int, agent: Agent, document: Document, outcome: Outcome): Agent {
    if Ignored(agent.stored, document) then agent.(session := Idle)
    else Agent(Answering(Answer(node, document, outcome)),
      if outcome.FailedUnsaved? then agent.stored else Stored(document.release, document.generation, document.phase))
  }

  // ---- Steps ----

  datatype System = System(panel: Panel, log: seq<Event>, agents: map<int, Agent>)

  datatype Step =
    | Create(current: bool, capable: set<int>, candidates: seq<Candidate>)
    | Heartbeat(node: int)
    | Fetch(node: int)
    | Act(node: int, outcome: Outcome)
    | Deliver(ack: Ack)
    | Recover(overdue: set<int>)
    | AdministratorRollback(release: int)
    | AuthorizationChange(managed: set<int>)
    | RosterChange(material: map<Topology, Version>)

  function AgentOf(s: System, node: int): Agent {
    if node in s.agents then s.agents[node] else NEW_AGENT
  }

  function WithAgent(s: System, node: int, agent: Agent): System {
    s.(agents := s.agents[node := agent])
  }

  function WithReply(s: System, reply: Reply): System {
    s.(panel := reply.panel, log := s.log + reply.events)
  }

  function Heard(s: System, node: int): Session {
    var pending := PendingFor(s.panel, node);
    if pending.Some? && ValidPending(pending.value) then Offered(pending.value) else Idle
  }

  function Fetching(s: System, node: int): System {
    var agent := AgentOf(s, node);
    if !agent.session.Offered? then s
    else
      var pending := agent.session.pending;
      if Fenced(agent.stored, pending) then WithAgent(s, node, agent.(session := Idle))
      else
        var fetched := GetAgentDeployment(s.panel, node, pending.release, pending.phase);
        var bound := fetched.document.Ok? && fetched.document.value.generation == pending.generation;
        WithAgent(s.(panel := fetched.panel, log := s.log + fetched.events), node,
          agent.(session := if bound then Holding(fetched.document.value) else Idle))
  }

  function Delivered(s: System, ack: Ack): System {
    var answered := WithReply(s, Acknowledge(s.panel, ack));
    if AgentOf(s, ack.node).session == Answering(ack) then WithAgent(answered, ack.node, AgentOf(s, ack.node).(session := Idle)) else answered
  }

  function RunningReleases(panel: Panel): set<int> {
    set r | r in panel.releases && panel.releases[r].status in RUNNING
  }

  // The overdue releases that end up with an administrator: one that only prepares fails instead.
  function Overdue(panel: Panel, overdue: set<int>): set<int> {
    set r | r in overdue && r in panel.releases && panel.releases[r].status in RUNNING && panel.releases[r].status != Preparing
  }

  function Next(s: System, step: Step): System {
    match step
    case Create(current, capable, candidates) => WithReply(s, CreateTopologyRelease(s.panel, current, capable, candidates))
    case Heartbeat(node) => WithAgent(s, node, AgentOf(s, node).(session := Heard(s, node)))
    case Fetch(node) => Fetching(s, node)
    case Act(node, outcome) =>
      var agent := AgentOf(s, node);
      if agent.session.Holding? then WithAgent(s, node, Acted(node, agent, agent.session.document, outcome)) else s
    case Deliver(ack) => Delivered(s, ack)
    case Recover(overdue) =>
      s.(panel := RecoverReleases(s.panel, overdue), log := s.log + [Escalated(Overdue(s.panel, overdue), Timeout)])
    case AdministratorRollback(release) => WithReply(s, RollbackRelease(s.panel, release))
    case AuthorizationChange(managed) =>
      s.(panel := InvalidateTopologyAuthorization(s.panel, managed), log := s.log + [Escalated(RunningReleases(s.panel), Authorization)])
    case RosterChange(material) => s.(panel := s.panel.(material := Reroster(s.panel.material, material)))
  }

  // The state after a run, from a panel that has no releases yet.
  function Initial(rows: map<int, Row>, generations: map<int, int>, material: map<Topology, Version>): System {
    System(Panel(map[], 0, rows, generations, material), [], map[])
  }

  function Execute(s: System, steps: seq<Step>): System {
    if steps == [] then s else Next(Execute(s, steps[..|steps| - 1]), steps[|steps| - 1])
  }

  ghost predicate Started(s: System) {
    s.panel.releases == map[] && s.panel.lastRelease == 0 && s.log == [] && s.agents == map[]
  }

  // The session assumption: an acknowledgement that arrives is the one its agent is sending now, or a retry of
  // one that has taken effect already.
  ghost predicate Disciplined(s: System, step: Step) {
    step.Deliver? ==> AgentOf(s, step.ack.node).session == Answering(step.ack) || Acked(step.ack) in s.log
  }

  ghost predicate DisciplinedRun(s: System, steps: seq<Step>) {
    forall i :: 0 <= i < |steps| ==> Disciplined(Execute(s, steps[..i]), steps[i])
  }

  // ---- What the history says ----

  function ForwardOf(log: seq<Event>, release: int): seq<int> {
    if log == [] then []
    else
      var e := log[|log| - 1];
      ForwardOf(log[..|log| - 1], release) + if e.Forward? && e.release == release then [e.node] else []
  }

  function BackOf(log: seq<Event>, release: int): seq<int> {
    if log == [] then []
    else
      var e := log[|log| - 1];
      BackOf(log[..|log| - 1], release) + if e.Back? && e.release == release then [e.node] else []
  }

  // The number of acknowledgements of a release that took effect.
  function AckCount(log: seq<Event>, release: int): nat {
    if log == [] then 0
    else
      var e := log[|log| - 1];
      AckCount(log[..|log| - 1], release) + if e.Acked? && e.ack.release == release then 1 else 0
  }

  predicate IsEscalation(e: Event, release: int, reason: Reason) {
    e.Escalated? && release in e.releases && e.reason == reason
  }

  function EscalationCount(log: seq<Event>, release: int, reason: Reason): nat {
    if log == [] then 0
    else EscalationCount(log[..|log| - 1], release, reason) + if IsEscalation(log[|log| - 1], release, reason) then 1 else 0
  }

  ghost predicate EverEscalated(log: seq<Event>, release: int) {
    exists i :: 0 <= i < |log| && log[i].Escalated? && release in log[i].releases
  }

  ghost predicate HasAcked(log: seq<Event>, release: int, node: int, status: NodeStatus) {
    exists i :: 0 <= i < |log| && log[i].Acked? && log[i].ack.release == release && log[i].ack.node == node && log[i].ack.status == status
  }

  lemma {:induction false} HistoryConcat(log: seq<Event>, more: seq<Event>, release: int)
    ensures ForwardOf(log + more, release) == ForwardOf(log, release) + ForwardOf(more, release)
    ensures BackOf(log + more, release) == BackOf(log, release) + BackOf(more, release)
    ensures AckCount(log + more, release) == AckCount(log, release) + AckCount(more, release)
    decreases |more|
  {
    if more == [] {
      assert log + more == log;
    } else {
      var front := more[..|more| - 1];
      HistoryConcat(log, front, release);
      assert (log + more)[..|log + more| - 1] == log + front;
    }
  }

  lemma {:induction false} EscalationConcat(log: seq<Event>, more: seq<Event>, release: int, reason: Reason)
    ensures EscalationCount(log + more, release, reason) == EscalationCount(log, release, reason) + EscalationCount(more, release, reason)
    decreases |more|
  {
    if more == [] {
      assert log + more == log;
    } else {
      var front := more[..|more| - 1];
      EscalationConcat(log, front, release, reason);
      assert (log + more)[..|log + more| - 1] == log + front;
    }
  }

  lemma HasAckedGrows(log: seq<Event>, more: seq<Event>, release: int, node: int, status: NodeStatus)
    requires HasAcked(log, release, node, status)
    ensures HasAcked(log + more, release, node, status)
  {
    var i :| 0 <= i < |log| && log[i].Acked? && log[i].ack.release == release && log[i].ack.node == node && log[i].ack.status == status;
    assert (log + more)[i] == log[i];
  }
}
