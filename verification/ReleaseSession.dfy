/**
  What holds in every state of a disciplined run, piece by piece: which release may hold a node, what its row and
  generation are, and what its agent knows. This module states the pieces and shows what a transaction on one live
  release does to them.
*/
module ReleaseSession {
  import opened Common
  import opened Messages
  import opened ReleaseModel
  import opened ReleaseShape
  import opened ReleaseSystem
  import opened ReleaseHistory
  import opened ReleaseRuns
  import opened ReleaseClimb

  ghost function NodeOf(panel: Panel, release: int, node: int): ReleaseNode
    requires Has(panel, release, node)
  {
    panel.releases[release].nodes[Position(panel.releases[release].nodes, node)]
  }

  ghost predicate Live(panel: Panel, release: int) {
    release in panel.releases && panel.releases[release].status in LIVE
  }

  // ---- The pieces ----

  ghost predicate Tidied(panel: Panel) {
    forall r :: r in panel.releases ==> Tidy(panel.releases[r])
  }

  // Only the newest release of a node can be live.
  ghost predicate Exclusive(panel: Panel) {
    forall r1, r2, n :: r1 < r2 && Has(panel, r1, n) && Has(panel, r2, n) ==> !Live(panel, r1)
  }

  // Generations are handed out in release order.
  ghost predicate Ordered(panel: Panel) {
    forall r1, r2, n :: r1 < r2 && Has(panel, r1, n) && Has(panel, r2, n) ==>
      NodeOf(panel, r1, n).generation <= NodeOf(panel, r2, n).candidate.previousGeneration
  }

  ghost predicate Timed(panel: Panel) {
    forall r, n :: Has(panel, r, n) ==>
      var x := NodeOf(panel, r, n); x.generation == x.candidate.previousGeneration + if x.phase == Rollback then 2 else 1
  }

  ghost predicate Bounded(panel: Panel) {
    forall r, n :: Has(panel, r, n) ==> n in panel.generations && NodeOf(panel, r, n).generation <= panel.generations[n]
  }

  ghost predicate Newest(panel: Panel, release: int, node: int) {
    Has(panel, release, node) && forall r :: r > release ==> !Has(panel, r, node)
  }

  // The deployment row of a node that its newest release has switched is the one that this release wrote last.
  ghost predicate RowsHeld(panel: Panel) {
    forall r, n :: Newest(panel, r, n) && NodeOf(panel, r, n).phase != Prepare ==>
      var x := NodeOf(panel, r, n); n in panel.rows && panel.rows[n] == Row(Target(x, x.phase), r, x.generation)
  }

  ghost predicate InStep(panel: Panel, release: int) {
    forall n :: Has(panel, release, n) ==> n in panel.generations && panel.generations[n] == NodeOf(panel, release, n).generation
  }

  // A release that was never handed to an administrator is in step with its nodes' generations.
  ghost predicate Unescalated(panel: Panel, log: seq<Event>) {
    && (forall r :: Live(panel, r) && !EverEscalated(log, r) ==> InStep(panel, r))
    && (forall r :: r in panel.releases && panel.releases[r].status in {Preparing, Applying} ==> !EverEscalated(log, r))
    && (forall r :: r in panel.releases && panel.releases[r].status == ManualRequired ==> EverEscalated(log, r))
    && (forall r :: EverEscalated(log, r) ==> r in panel.releases)
  }

  // The node that sent this acknowledgement has moved on, so that receiving it again changes nothing.
  ghost predicate SettledNode(x: ReleaseNode, ack: Ack) {
    && ack.generation == x.candidate.previousGeneration + (if ack.phase == Rollback then 2 else 1)
    && match ack.phase
       case Prepare => Stage(x) >= 1 && (x.phase == Prepare ==> x.status == ack.status) && (ack.status == Failed ==> x.phase == Prepare)
       case Apply => Stage(x) >= 3
       case Rollback => x.phase == Rollback && x.status == ack.status
  }

  ghost predicate Settled(panel: Panel, ack: Ack) {
    ValidAck(ack) && Has(panel, ack.release, ack.node) && SettledNode(NodeOf(panel, ack.release, ack.node), ack)
  }

  ghost predicate Settlements(panel: Panel, log: seq<Event>) {
    forall j :: 0 <= j < |log| && log[j].Acked? ==> Settled(panel, log[j].ack)
  }

  ghost predicate Counted(panel: Panel, log: seq<Event>) {
    forall r :: r in panel.releases ==> AckCount(log, r) <= TotalRank(panel.releases[r].nodes)
  }

  function Step3(phase: Phase): nat {
    match phase case Prepare => 0 case Apply => 1 case Rollback => 2
  }

  // Work that a release has given to a node: the node is in that phase or past it.
  ghost predicate Given(panel: Panel, node: int, release: int, phase: Phase, generation: int) {
    && Has(panel, release, node)
    && var x := NodeOf(panel, release, node);
       && Step3(phase) <= Step3(x.phase)
       && generation == x.candidate.previousGeneration + (if phase == Rollback then 2 else 1)
  }

  // Work in progress: a preparation that is being worked on has not been acknowledged.
  ghost predicate InProgress(panel: Panel, node: int, release: int, phase: Phase, generation: int) {
    && Given(panel, node, release, phase, generation)
    && (phase == Prepare ==> Stage(NodeOf(panel, release, node)) == 0)
  }

  ghost predicate SessionOk(panel: Panel, node: int, session: Session) {
    match session
    case Idle => true
    case Offered(p) => InProgress(panel, node, p.release, p.phase, p.generation)
    case Holding(d) => InProgress(panel, node, d.release, d.phase, d.generation)
    case Answering(a) => a.node == node && InProgress(panel, node, a.release, a.phase, a.generation)
  }

  ghost predicate AgentOk(panel: Panel, node: int, agent: Agent) {
    && (agent.stored == NEW_AGENT.stored || Given(panel, node, agent.stored.release, agent.stored.phase, agent.stored.generation))
    && SessionOk(panel, node, agent.session)
  }

  ghost predicate Sessions(panel: Panel, agents: map<int, Agent>) {
    forall n :: n in agents ==> AgentOk(panel, n, agents[n])
  }

  // ---- Transactions on one live release ----

  ghost predicate Reported(before: Panel, reply: Reply, release: int, p: nat, ack: Option<Ack>)
    requires release in before.releases && release in reply.panel.releases
    requires |before.releases[release].nodes| == |reply.panel.releases[release].nodes|
  {
    var old_, new_ := before.releases[release].nodes, reply.panel.releases[release].nodes;
    && (forall e :: e in reply.events && e.Acked? ==> ack == Some(e.ack))
    && AckCount(reply.events, release) == (if ack.Some? then 1 else 0)
    && (ack.Some? <==> p < |old_|)
    && (ack.Some? ==> ValidAck(ack.value) && ack.value.node == old_[p].candidate.node && ack.value.release == release
                      && SettledNode(new_[p], ack.value))
  }

  ghost predicate StatusMoves(before: Release, after: Release, events: seq<Event>) {
    && (after.status in {Preparing, Applying} ==> before.status in {Preparing, Applying} && forall e :: e in events ==> !e.Escalated?)
    && (after.status == ManualRequired ==> exists j :: 0 <= j < |events| && events[j].Escalated?)
  }

  ghost predicate Effect(before: Panel, reply: Reply, release: int, p: nat, q: nat, ack: Option<Ack>) {
    && Climb(before, reply, release, p, q)
    && Tidy(reply.panel.releases[release])
    && Reported(before, reply, release, p, ack)
    && StatusMoves(before.releases[release], reply.panel.releases[release], reply.events)
  }

  lemma HasSame(before: Panel, reply: Reply, release: int, r: int, n: int)
    requires Moves(before, reply, release)
    ensures Has(reply.panel, r, n) == Has(before, r, n)
    ensures Has(before, r, n) && r != release ==> NodeOf(reply.panel, r, n) == NodeOf(before, r, n)
    ensures Has(before, release, n) ==>
      Position(reply.panel.releases[release].nodes, n) == Position(before.releases[release].nodes, n)
  {
    PositionSame(before.releases[release].nodes, reply.panel.releases[release].nodes, n);
  }

  lemma NodeClimbs(before: Panel, reply: Reply, release: int, p: nat, q: nat, r: int, n: int)
    requires Climb(before, reply, release, p, q) && Has(before, r, n)
    ensures Has(reply.panel, r, n) && Climbs(NodeOf(before, r, n), NodeOf(reply.panel, r, n))
  {
    HasSame(before, reply, release, r, n);
  }

  lemma EffectExclusive(before: Panel, reply: Reply, release: int, p: nat, q: nat)
    requires Climb(before, reply, release, p, q) && Exclusive(before)
    ensures Exclusive(reply.panel)
  {
    forall r1, r2, n | r1 < r2 && Has(reply.panel, r1, n) && Has(reply.panel, r2, n) ensures !Live(reply.panel, r1) {
      HasSame(before, reply, release, r1, n);
      HasSame(before, reply, release, r2, n);
      assert !Live(before, r1);
    }
  }

  lemma EffectOrdered(before: Panel, reply: Reply, release: int, p: nat, q: nat)
    requires Climb(before, reply, release, p, q) && Exclusive(before) && Ordered(before)
    ensures Ordered(reply.panel)
  {
    forall r1, r2, n | r1 < r2 && Has(reply.panel, r1, n) && Has(reply.panel, r2, n)
      ensures NodeOf(reply.panel, r1, n).generation <= NodeOf(reply.panel, r2, n).candidate.previousGeneration
    {
      HasSame(before, reply, release, r1, n);
      HasSame(before, reply, release, r2, n);
      assert !Live(before, r1);
      NodeClimbs(before, reply, release, p, q, r2, n);
    }
  }

  // A node of the release that was not switched keeps its phase and with it its generation.
  lemma UnswitchedSame(before: Panel, reply: Reply, release: int, p: nat, q: nat, n: int)
    requires Climb(before, reply, release, p, q) && Timed(before) && Timed(reply.panel)
    requires Has(before, release, n) && Position(before.releases[release].nodes, n) != q
    requires DistinctNodes(before.releases[release].nodes)
    ensures Has(reply.panel, release, n)
    ensures NodeOf(reply.panel, release, n).generation == NodeOf(before, release, n).generation
    ensures NodeOf(reply.panel, release, n).phase == NodeOf(before, release, n).phase
    ensures n in before.generations ==> n in reply.panel.generations && reply.panel.generations[n] == before.generations[n]
    ensures n in before.rows ==> n in reply.panel.rows && reply.panel.rows[n] == before.rows[n]
  {
    NodeClimbs(before, reply, release, p, q, release, n);
    HasSame(before, reply, release, release, n);
    var nodes := before.releases[release].nodes;
    if q < |nodes| {
      PositionOf(nodes, q);
    }
  }

  lemma EffectBounded(before: Panel, reply: Reply, release: int, p: nat, q: nat)
    requires Climb(before, reply, release, p, q) && Exclusive(before) && Ordered(before) && Bounded(before)
    requires Timed(before) && Timed(reply.panel) && DistinctNodes(before.releases[release].nodes)
    ensures Bounded(reply.panel)
  {
    forall r, n | Has(reply.panel, r, n)
      ensures n in reply.panel.generations && NodeOf(reply.panel, r, n).generation <= reply.panel.generations[n]
    {
      HasSame(before, reply, release, r, n);
      var nodes := before.releases[release].nodes;
      if q < |nodes| && nodes[q].candidate.node == n {
        PositionOf(nodes, q);
        NodeClimbs(before, reply, release, p, q, release, n);
        if r != release {
          assert Live(before, release) && Has(before, release, n);
          assert r < release;
        }
      } else if r == release {
        UnswitchedSame(before, reply, release, p, q, n);
      }
    }
  }

  // Two live releases have no node in common.
  lemma Unshared(panel: Panel, r1: int, r2: int, n: int)
    requires Exclusive(panel) && Live(panel, r1) && Live(panel, r2) && Has(panel, r1, n) && Has(panel, r2, n)
    ensures r1 == r2
  {
  }

  lemma EffectRows(before: Panel, reply: Reply, release: int, p: nat, q: nat)
    requires Climb(before, reply, release, p, q) && Exclusive(before) && RowsHeld(before)
    requires Timed(before) && Timed(reply.panel) && DistinctNodes(before.releases[release].nodes)
    ensures RowsHeld(reply.panel)
  {
    forall r, n | Newest(reply.panel, r, n) && NodeOf(reply.panel, r, n).phase != Prepare
      ensures var x := NodeOf(reply.panel, r, n); n in reply.panel.rows && reply.panel.rows[n] == Row(Target(x, x.phase), r, x.generation)
    {
      NewestSame(before, reply, release, r, n);
      var nodes := before.releases[release].nodes;
      if q < |nodes| && nodes[q].candidate.node == n {
        PositionOf(nodes, q);
        assert Live(before, release) && Has(before, release, n);
        assert r == release;
      } else if r == release {
        UnswitchedSame(before, reply, release, p, q, n);
        NodeClimbs(before, reply, release, p, q, release, n);
      }
    }
  }

  lemma NewestSame(before: Panel, reply: Reply, release: int, r: int, n: int)
    requires Moves(before, reply, release) && Newest(reply.panel, r, n)
    ensures Newest(before, r, n) && (r != release ==> NodeOf(reply.panel, r, n) == NodeOf(before, r, n))
  {
    HasSame(before, reply, release, r, n);
    forall r2 | r2 > r ensures !Has(before, r2, n) {
      HasSame(before, reply, release, r2, n);
    }
  }

  lemma EffectInStep(before: Panel, reply: Reply, release: int, p: nat, q: nat, r: int)
    requires Climb(before, reply, release, p, q) && Exclusive(before) && Live(before, r) && InStep(before, r)
    requires Timed(before) && Timed(reply.panel) && DistinctNodes(before.releases[release].nodes)
    ensures InStep(reply.panel, r)
  {
    forall n | Has(reply.panel, r, n)
      ensures n in reply.panel.generations && reply.panel.generations[n] == NodeOf(reply.panel, r, n).generation
    {
      HasSame(before, reply, release, r, n);
      var nodes := before.releases[release].nodes;
      if q < |nodes| && nodes[q].candidate.node == n {
        PositionOf(nodes, q);
        Unshared(before, release, r, n);
      } else if r == release {
        UnswitchedSame(before, reply, release, p, q, n);
      }
    }
  }

  lemma EverGrows(log: seq<Event>, events: seq<Event>, r: int)
    ensures EverEscalated(log + events, r) <==> EverEscalated(log, r) || EverEscalated(events, r)
  {
    var all := log + events;
    if EverEscalated(log, r) {
      var i :| 0 <= i < |log| && log[i].Escalated? && r in log[i].releases;
      assert all[i] == log[i];
    }
    if EverEscalated(events, r) {
      var i :| 0 <= i < |events| && events[i].Escalated? && r in events[i].releases;
      assert all[|log| + i] == events[i];
    }
    if EverEscalated(all, r) {
      var i :| 0 <= i < |all| && all[i].Escalated? && r in all[i].releases;
      assert if i < |log| then all[i] == log[i] else all[i] == events[i - |log|];
    }
  }

  lemma EffectUnescalated(before: Panel, reply: Reply, release: int, p: nat, q: nat, ack: Option<Ack>, log: seq<Event>)
    requires Effect(before, reply, release, p, q, ack) && Exclusive(before) && Unescalated(before, log)
    requires Timed(before) && Timed(reply.panel) && DistinctNodes(before.releases[release].nodes)
    ensures Unescalated(reply.panel, log + reply.events)
  {
    forall r ensures EverEscalated(log + reply.events, r) <==> EverEscalated(log, r) || EverEscalated(reply.events, r) {
      EverGrows(log, reply.events, r);
    }
    assert forall r :: EverEscalated(reply.events, r) ==> r == release;
    forall r | Live(reply.panel, r) && !EverEscalated(log + reply.events, r) ensures InStep(reply.panel, r) {
      EffectInStep(before, reply, release, p, q, r);
    }
    if reply.panel.releases[release].status == ManualRequired {
      var j :| 0 <= j < |reply.events| && reply.events[j].Escalated?;
      assert reply.events[j] in reply.events;
      assert EverEscalated(reply.events, release);
    }
    assert forall j :: 0 <= j < |reply.events| ==> reply.events[j] in reply.events;
  }

  lemma SettledClimbs(x: ReleaseNode, y: ReleaseNode, ack: Ack)
    requires SettledNode(x, ack) && Climbs(x, y) && ValidAck(ack)
    ensures SettledNode(y, ack)
  {
  }

  lemma EffectSettlements(before: Panel, reply: Reply, release: int, p: nat, q: nat, ack: Option<Ack>, log: seq<Event>)
    requires Effect(before, reply, release, p, q, ack) && Settlements(before, log)
    requires DistinctNodes(before.releases[release].nodes)
    ensures Settlements(reply.panel, log + reply.events)
  {
    var all := log + reply.events;
    forall j | 0 <= j < |all| && all[j].Acked? ensures Settled(reply.panel, all[j].ack) {
      if j < |log| {
        var a := log[j].ack;
        assert all[j] == log[j] && Settled(before, a);
        NodeClimbs(before, reply, release, p, q, a.release, a.node);
        SettledClimbs(NodeOf(before, a.release, a.node), NodeOf(reply.panel, a.release, a.node), a);
      } else {
        assert all[j] == reply.events[j - |log|] && reply.events[j - |log|] in reply.events;
        PositionOf(before.releases[release].nodes, p);
        HasSame(before, reply, release, release, ack.value.node);
      }
    }
  }

  lemma EffectCounted(before: Panel, reply: Reply, release: int, p: nat, q: nat, ack: Option<Ack>, log: seq<Event>)
    requires Effect(before, reply, release, p, q, ack) && Counted(before, log)
    ensures Counted(reply.panel, log + reply.events)
  {
    forall r | r in reply.panel.releases ensures AckCount(log + reply.events, r) <= TotalRank(reply.panel.releases[r].nodes) {
      HistoryConcat(log, reply.events, r);
      if r != release {
        Foreign(reply.events, release, r);
      } else if ack.Some? {
        RankRises(before.releases[r].nodes, reply.panel.releases[r].nodes, p);
      } else {
        RankMonotone(before.releases[r].nodes, reply.panel.releases[r].nodes);
      }
    }
  }

  // Work stays given; a preparation stays in progress unless its own node was acknowledged.
  lemma GivenClimbs(before: Panel, reply: Reply, release: int, p: nat, q: nat, node: int, r: int, phase: Phase, generation: int)
    requires Climb(before, reply, release, p, q) && Given(before, node, r, phase, generation)
    ensures Given(reply.panel, node, r, phase, generation)
  {
    NodeClimbs(before, reply, release, p, q, r, node);
  }

  lemma ProgressClimbs(before: Panel, reply: Reply, release: int, p: nat, q: nat, node: int, r: int, phase: Phase, generation: int)
    requires Climb(before, reply, release, p, q) && InProgress(before, node, r, phase, generation)
    requires p < |before.releases[release].nodes| ==> before.releases[release].nodes[p].candidate.node != node
    ensures InProgress(reply.panel, node, r, phase, generation)
  {
    GivenClimbs(before, reply, release, p, q, node, r, phase, generation);
    HasSame(before, reply, release, r, node);
  }

  lemma AgentClimbs(before: Panel, reply: Reply, release: int, p: nat, q: nat, node: int, agent: Agent)
    requires Climb(before, reply, release, p, q) && AgentOk(before, node, agent)
    requires agent.session.Idle? || (p < |before.releases[release].nodes| ==> before.releases[release].nodes[p].candidate.node != node)
    ensures AgentOk(reply.panel, node, agent)
  {
    var stored := agent.stored;
    if stored != NEW_AGENT.stored {
      GivenClimbs(before, reply, release, p, q, node, stored.release, stored.phase, stored.generation);
    }
    match agent.session
    case Idle =>
    case Offered(x) => ProgressClimbs(before, reply, release, p, q, node, x.release, x.phase, x.generation);
    case Holding(x) => ProgressClimbs(before, reply, release, p, q, node, x.release, x.phase, x.generation);
    case Answering(x) => ProgressClimbs(before, reply, release, p, q, node, x.release, x.phase, x.generation);
  }
}
