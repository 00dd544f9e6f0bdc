/** Every disciplined run keeps all the pieces of the session invariant. */
module ReleaseDiscipline {
  import opened Common
  import opened Messages
  import opened ReleaseModel
  import opened ReleaseShape
  import opened ReleaseSystem
  import opened ReleaseHistory
  import opened ReleaseRuns
  import opened ReleaseOrder
  import opened ReleaseClimb
  import opened ReleaseSession

  ghost predicate OrderlyPanel(panel: Panel, log: seq<Event>) {
    && Tidied(panel) && Exclusive(panel) && Ordered(panel) && Timed(panel) && Bounded(panel) && RowsHeld(panel)
    && Unescalated(panel, log) && Settlements(panel, log) && Counted(panel, log)
  }

  ghost predicate Orderly(s: System) {
    && Consistent(s)
    && OrderlyPanel(s.panel, s.log)
    && Sessions(s.panel, s.agents)
  }

  lemma ShapeTimed(r: Release, b: nat, m: nat, i: nat)
    requires Shape(r, b, m) && i < |r.nodes|
    ensures r.nodes[i].generation == r.nodes[i].candidate.previousGeneration + if r.nodes[i].phase == Rollback then 2 else 1
  {
    assert NodeShape(r.nodes[i], i, b, m);
  }

  lemma ConsistentTimed(s: System)
    requires Consistent(s)
    ensures Timed(s.panel)
    ensures forall r :: r in s.panel.releases ==> DistinctNodes(s.panel.releases[r].nodes)
  {
    forall r, n | Has(s.panel, r, n)
      ensures var x := NodeOf(s.panel, r, n); x.generation == x.candidate.previousGeneration + if x.phase == Rollback then 2 else 1
    {
      var forward, back := ForwardOf(s.log, r), BackOf(s.log, r);
      assert History(s.panel.releases[r], forward, back);
      ShapeTimed(s.panel.releases[r], |forward| - |back|, |forward|, Position(s.panel.releases[r].nodes, n));
    }
  }

  // ---- Transactions on a live release ----

  lemma EffectOrderly(s: System, reply: Reply, release: int, p: nat, q: nat, ack: Option<Ack>)
    requires Orderly(s) && KeepsHistory(s.panel, reply, release) && Effect(s.panel, reply, release, p, q, ack)
    ensures Consistent(WithReply(s, reply)) && OrderlyPanel(reply.panel, s.log + reply.events)
  {
    ReplyConsistent(s, reply, release);
    ConsistentTimed(s);
    ConsistentTimed(WithReply(s, reply));
    EffectExclusive(s.panel, reply, release, p, q);
    EffectOrdered(s.panel, reply, release, p, q);
    EffectBounded(s.panel, reply, release, p, q);
    EffectRows(s.panel, reply, release, p, q);
    EffectUnescalated(s.panel, reply, release, p, q, ack, s.log);
    EffectSettlements(s.panel, reply, release, p, q, ack, s.log);
    EffectCounted(s.panel, reply, release, p, q, ack, s.log);
    forall r | r in reply.panel.releases ensures Tidy(reply.panel.releases[r]) {
      if r != release { assert Tidy(s.panel.releases[r]); }
    }
  }

  // ---- What an acknowledgement reports ----

  lemma {:induction false} NoAcks(events: seq<Event>, release: int)
    requires forall e :: e in events ==> !e.Acked?
    ensures AckCount(events, release) == 0
  {
    if events != [] {
      assert events[|events| - 1] in events;
      NoAcks(events[..|events| - 1], release);
    }
  }

  lemma ActivateStatus(panel: Panel, release: int, rollback: bool)
    requires release in panel.releases
    ensures var reply := ActivateNext(panel, release, rollback);
            reply.error.None? ==>
              && release in reply.panel.releases
              && reply.panel.releases[release].status in (if rollback then {RollingBack, RolledBackRelease} else {Applying, Succeeded})
              && forall e :: e in reply.events ==> e.Forward? || e.Back?
  {
  }

  ghost predicate Moderate(panel: Panel, release: int, reply: Reply) {
    reply.error.None? ==>
      && release in panel.releases && release in reply.panel.releases
      && StatusMoves(panel.releases[release], reply.panel.releases[release], reply.events)
      && forall e :: e in reply.events ==> !e.Acked?
  }

  lemma AdvanceStatus(panel: Panel, release: int, p: nat, ack: Ack, b: nat, m: nat)
    requires FirstAnswer(panel, release, p, ack) && Shape(panel.releases[release], b, m)
    ensures Moderate(panel, release, Advance(panel, release, p, ack))
  {
    var n := panel.releases[release].nodes[p];
    if ack.status == Failed {
      FailedStatus(panel, release, p, ack);
    } else if n.phase == Prepare {
      PreparedStatus(panel, release, p, ack, b, m);
    } else {
      assert NodeShape(n, p, b, m);
      ActivateStatus(SetNode(panel, release, p, n.(status := ack.status)), release, n.phase == Rollback);
    }
  }

  lemma FailedStatus(panel: Panel, release: int, p: nat, ack: Ack)
    requires FirstAnswer(panel, release, p, ack) && ack.status == Failed
    ensures Moderate(panel, release, Advance(panel, release, p, ack))
  {
    var n := panel.releases[release].nodes[p];
    var told := SetNode(panel, release, p, n.(status := Failed));
    FailureStatus(panel, told, release, n.phase);
  }

  lemma FailureStatus(panel: Panel, told: Panel, release: int, phase: Phase)
    requires release in panel.releases && release in told.releases
    ensures Moderate(panel, release, AfterFailure(told, release, phase))
  {
    match phase
    case Prepare =>
    case Rollback => assert [Escalated({release}, RollbackFailed)][0].Escalated?;
    case Apply => BeginRollbackStatus(told, release);
  }

  lemma BeginRollbackStatus(panel: Panel, release: int)
    requires release in panel.releases
    ensures var reply := BeginRollback(panel, release);
            reply.error.None? ==>
              && release in reply.panel.releases
              && reply.panel.releases[release].status in {RollingBack, RolledBackRelease}
              && forall e :: e in reply.events ==> e.Forward? || e.Back?
  {
    var t := panel.releases[release];
    ActivateStatus(panel.(releases := panel.releases[release := t.(nodes := UnwoundNodes(t.nodes))]), release, true);
  }

  lemma PreparedStatus(panel: Panel, release: int, p: nat, ack: Ack, b: nat, m: nat)
    requires FirstAnswer(panel, release, p, ack) && Shape(panel.releases[release], b, m)
    requires panel.releases[release].nodes[p].phase == Prepare && ack.status == Prepared
    ensures Moderate(panel, release, Advance(panel, release, p, ack))
  {
    var r := panel.releases[release];
    var told := SetNode(panel, release, p, r.nodes[p].(status := Prepared));
    ActivateStatus(SetStatus(told, release, Ready), release, false);
    var nodes := told.releases[release].nodes;
    if forall i :: 0 <= i < |nodes| ==> nodes[i].status == Prepared {
      assert NodeShape(r.nodes[0], 0, b, m);
      assert nodes[0].status == Prepared;
    }
  }

  lemma AdvanceSettles(panel: Panel, release: int, p: nat, ack: Ack, b: nat, m: nat)
    requires FirstAnswer(panel, release, p, ack) && Shape(panel.releases[release], b, m)
    requires panel.releases[release].nodes[p].phase != Apply
    ensures var reply := Advance(panel, release, p, ack);
            reply.error.None? ==>
              && release in reply.panel.releases && p < |reply.panel.releases[release].nodes|
              && var before, after := panel.releases[release].nodes[p], reply.panel.releases[release].nodes[p];
                 || after == before.(status := ack.status)
                 || (before.phase == Prepare && ack.status == Prepared && after.phase == Apply)
  {
    var r := panel.releases[release];
    var n := r.nodes[p];
    assert NodeShape(n, p, b, m);
    var told := SetNode(panel, release, p, n.(status := ack.status));
    if ack.status != Failed {
      if n.phase == Rollback {
        var q := ActivateNextNodes(told, release, true);
      } else {
        var q := ActivateNextNodes(SetStatus(told, release, Ready), release, false);
      }
    }
  }

  lemma ReportedBy(panel: Panel, ack: Ack, reply: Reply, b: nat, m: nat) returns (q: nat)
    requires Effective(panel, ack, reply) && reply.error.None?
    requires FirstAnswer(panel, ack.release, Position(panel.releases[ack.release].nodes, ack.node), ack)
    requires Shape(panel.releases[ack.release], b, m) && Tidy(panel.releases[ack.release])
    ensures Effect(panel, reply, ack.release, Position(panel.releases[ack.release].nodes, ack.node), q, Some(ack))
  {
    var release := ack.release;
    var r := panel.releases[release];
    var p := Position(r.nodes, ack.node);
    q := AdvanceClimbs(panel, release, p, ack, b, m);
    AdvanceStatus(panel, release, p, ack, b, m);
    var advanced := Advance(panel, release, p, ack);
    ReportedNode(panel, ack, advanced, p, q, b, m);
    AckedFirst(ack, advanced.events, release);
    NoAcks(advanced.events, release);
    ReportedEvents(r, reply.panel.releases[release], ack, advanced.events);
    MovesWith(panel, advanced, reply, release, ack);
  }

  lemma MovesWith(panel: Panel, advanced: Reply, reply: Reply, release: int, ack: Ack)
    requires Moves(panel, advanced, release) && ack.release == release
    requires reply.panel == advanced.panel && reply.events == [Acked(ack)] + advanced.events
    ensures Moves(panel, reply, release)
  {
  }

  lemma ReportedNode(panel: Panel, ack: Ack, advanced: Reply, p: nat, q: nat, b: nat, m: nat)
    requires FirstAnswer(panel, ack.release, p, ack) && Shape(panel.releases[ack.release], b, m) && ValidAck(ack)
    requires advanced == Advance(panel, ack.release, p, ack) && advanced.error.None?
    requires Climb(panel, advanced, ack.release, p, q)
    requires var n := panel.releases[ack.release].nodes[p]; n.phase == ack.phase && n.generation == ack.generation
    ensures SettledNode(advanced.panel.releases[ack.release].nodes[p], ack)
  {
    var n := panel.releases[ack.release].nodes[p];
    ShapeTimed(panel.releases[ack.release], b, m, p);
    assert Climbs(n, advanced.panel.releases[ack.release].nodes[p]);
    if n.phase != Apply {
      AdvanceSettles(panel, ack.release, p, ack, b, m);
    }
  }

  lemma ReportedEvents(before: Release, after: Release, ack: Ack, events: seq<Event>)
    requires StatusMoves(before, after, events)
    ensures StatusMoves(before, after, [Acked(ack)] + events)
  {
    var all := [Acked(ack)] + events;
    if after.status == ManualRequired {
      var j :| 0 <= j < |events| && events[j].Escalated?;
      assert all[j + 1] == events[j];
    }
  }

  // ---- Steps that change statuses and generations, but no node of a release ----

  ghost predicate SameNodes(before: Panel, after: Panel) {
    && after.releases.Keys == before.releases.Keys
    && forall r :: r in before.releases ==> after.releases[r].nodes == before.releases[r].nodes
  }

  lemma SameNodesKeep(before: Panel, after: Panel, log: seq<Event>, agents: map<int, Agent>, more: seq<Event>)
    requires SameNodes(before, after) && Sessions(before, agents)
    requires Ordered(before) && Timed(before) && Settlements(before, log) && Counted(before, log)
    requires forall e :: e in more ==> !e.Acked?
    ensures Sessions(after, agents)
    ensures Ordered(after) && Timed(after) && Settlements(after, log + more) && Counted(after, log + more)
  {
    assert forall r, n :: Has(after, r, n) == Has(before, r, n);
    assert forall r, n :: Has(before, r, n) ==> NodeOf(after, r, n) == NodeOf(before, r, n);
    forall r | r in after.releases ensures AckCount(log + more, r) <= TotalRank(after.releases[r].nodes) {
      HistoryConcat(log, more, r);
      NoAcks(more, r);
    }
    forall j | 0 <= j < |log + more| && (log + more)[j].Acked? ensures Settled(after, (log + more)[j].ack) {
      assert (log + more)[j] in more || j < |log|;
      assert (log + more)[j] == log[j];
      assert Settled(before, log[j].ack);
    }
    forall n | n in agents ensures AgentOk(after, n, agents[n]) {
      assert AgentOk(before, n, agents[n]);
    }
  }

  ghost predicate FewerLive(before: Panel, after: Panel) {
    forall r :: Live(after, r) ==> Live(before, r)
  }

  lemma FewerLiveKeep(before: Panel, after: Panel)
    requires SameNodes(before, after) && FewerLive(before, after) && after.rows == before.rows
    requires Exclusive(before) && RowsHeld(before)
    ensures Exclusive(after) && RowsHeld(after)
  {
    assert forall r, n :: Has(after, r, n) == Has(before, r, n);
    assert forall r, n :: Has(before, r, n) ==> NodeOf(after, r, n) == NodeOf(before, r, n);
  }

  ghost predicate GenerationsRise(before: Panel, after: Panel) {
    forall n :: n in before.generations ==> n in after.generations && before.generations[n] <= after.generations[n]
  }

  lemma BoundedKeep(before: Panel, after: Panel)
    requires SameNodes(before, after) && GenerationsRise(before, after) && Bounded(before)
    ensures Bounded(after)
  {
    assert forall r, n :: Has(after, r, n) == Has(before, r, n);
    assert forall r, n :: Has(before, r, n) ==> NodeOf(after, r, n) == NodeOf(before, r, n);
  }

  // A sweep whose event names the releases that it hands to an administrator.
  ghost predicate Announces(before: Panel, after: Panel, moved: set<int>, log: seq<Event>) {
    && Sweeps(before, after) && after.rows == before.rows && GenerationsRise(before, after)
    && moved <= before.releases.Keys
    && (forall r :: r in after.releases && after.releases[r].status in {Preparing, Applying, ManualRequired} ==>
          if r in moved then after.releases[r].status == ManualRequired else after.releases[r].status == before.releases[r].status)
    && (forall r :: Live(after, r) && r !in moved && !EverEscalated(log, r) ==> after.generations == before.generations)
  }

  lemma SweepOrderly(s: System, after: Panel, moved: set<int>, reason: Reason)
    requires Orderly(s) && Announces(s.panel, after, moved, s.log)
    ensures Orderly(s.(panel := after, log := s.log + [Escalated(moved, reason)]))
  {
    var e := Escalated(moved, reason);
    SweepConsistent(s, after, e);
    SameNodesKeep(s.panel, after, s.log, s.agents, [e]);
    FewerLiveKeep(s.panel, after);
    BoundedKeep(s.panel, after);
    forall r | r in after.releases ensures Tidy(after.releases[r]) {
      assert Tidy(s.panel.releases[r]);
      SweptTidy(s, r, after.releases[r]);
    }
    SweepUnescalated(s.panel, after, s.log, moved, e);
  }

  lemma SweptTidy(s: System, r: int, after: Release)
    requires Consistent(s) && r in s.panel.releases && Tidy(s.panel.releases[r]) && Swept(s.panel.releases[r], after)
    ensures Tidy(after)
  {
    var forward, back := ForwardOf(s.log, r), BackOf(s.log, r);
    var before := s.panel.releases[r];
    assert History(before, forward, back);
    if before.status == Preparing {
      forall i | 0 <= i < |before.nodes| ensures before.nodes[i].phase == Prepare {
        assert NodeShape(before.nodes[i], i, |forward| - |back|, |forward|);
      }
    }
  }

  lemma SweepUnescalated(before: Panel, after: Panel, log: seq<Event>, moved: set<int>, e: Event)
    requires Unescalated(before, log) && Announces(before, after, moved, log) && e.Escalated? && e.releases == moved
    ensures Unescalated(after, log + [e])
  {
    forall r ensures EverEscalated(log + [e], r) <==> EverEscalated(log, r) || r in moved {
      EverGrows(log, [e], r);
      assert [e][0] == e;
    }
    forall r | Live(after, r) && !EverEscalated(log + [e], r) ensures InStep(after, r) {
      assert InStep(before, r);
      assert forall n :: Has(after, r, n) ==> Has(before, r, n) && NodeOf(after, r, n) == NodeOf(before, r, n);
    }
  }

  // ---- Creating a release ----

  lemma NewNodes(panel: Panel, current: bool, capable: set<int>, candidates: seq<Candidate>, n: int)
    requires CreateTopologyRelease(panel, current, capable, candidates).error.None?
    ensures var after := CreateTopologyRelease(panel, current, capable, candidates).panel;
            var id := panel.lastRelease + 1;
            Has(after, id, n) ==>
              && n in panel.generations && !Busy(panel, n)
              && n in after.generations && after.generations[n] == panel.generations[n] + 1
              && var x := NodeOf(after, id, n);
                 && x.candidate.previousGeneration == panel.generations[n] && x.generation == after.generations[n]
                 && x.phase == Prepare && x.status == Pending
    ensures var after := CreateTopologyRelease(panel, current, capable, candidates).panel;
            !Has(after, panel.lastRelease + 1, n) ==>
              && (n in after.generations <==> n in panel.generations)
              && (n in panel.generations ==> after.generations[n] == panel.generations[n])
  {
    var nodes := FreshNodes(panel, candidates);
    var p := Position(nodes, n);
    if p < |nodes| {
      assert Guard(panel, capable, candidates[p]).None?;
    }
  }

  lemma CreateOrderly(s: System, current: bool, capable: set<int>, candidates: seq<Candidate>)
    requires Orderly(s)
    ensures Orderly(WithReply(s, CreateTopologyRelease(s.panel, current, capable, candidates)))
  {
    var reply := CreateTopologyRelease(s.panel, current, capable, candidates);
    CreateConsistent(s, current, capable, candidates);
    ConsistentTimed(WithReply(s, reply));
    assert s.log + reply.events == s.log;
    if reply.error.None? {
      NewExtends(s, current, capable, candidates);
      var id := s.panel.lastRelease + 1;
      NewExclusive(s.panel, reply.panel, id);
      NewBounded(s.panel, reply.panel, id);
      NewRows(s.panel, reply.panel, id);
      NewUnescalated(s.panel, reply.panel, id, s.log);
      NewSettlements(s.panel, reply.panel, id, s.log);
      NewCounts(s, reply.panel, id);
      NewAgents(s.panel, reply.panel, id, s.agents);
    }
  }

  lemma NewExtends(s: System, current: bool, capable: set<int>, candidates: seq<Candidate>)
    requires Consistent(s) && CreateTopologyRelease(s.panel, current, capable, candidates).error.None?
    ensures Extends(s.panel, CreateTopologyRelease(s.panel, current, capable, candidates).panel, s.panel.lastRelease + 1)
  {
    var before, after := s.panel, CreateTopologyRelease(s.panel, current, capable, candidates).panel;
    var id := before.lastRelease + 1;
    forall n | Has(after, id, n) ensures NewNode(before, after, id, n) {
      NewNodes(before, current, capable, candidates, n);
    }
    forall n | !Has(after, id, n) ensures SameGeneration(before, after, n) {
      NewNodes(before, current, capable, candidates, n);
    }
  }

  lemma NewAgents(before: Panel, after: Panel, id: int, agents: map<int, Agent>)
    requires Extends(before, after, id) && Sessions(before, agents)
    ensures Sessions(after, agents)
  {
    assert forall r, n :: Has(before, r, n) ==> Has(after, r, n) && NodeOf(after, r, n) == NodeOf(before, r, n);
    forall n | n in agents ensures AgentOk(after, n, agents[n]) {
      assert AgentOk(before, n, agents[n]);
    }
  }

  ghost predicate NewNode(before: Panel, after: Panel, id: int, n: int)
    requires Has(after, id, n)
  {
    && n in before.generations && !Busy(before, n)
    && n in after.generations && after.generations[n] == before.generations[n] + 1
    && var x := NodeOf(after, id, n);
       && x.candidate.previousGeneration == before.generations[n] && x.generation == after.generations[n]
       && x.phase == Prepare && x.status == Pending
  }

  ghost predicate SameGeneration(before: Panel, after: Panel, n: int) {
    && (n in after.generations <==> n in before.generations)
    && (n in before.generations ==> after.generations[n] == before.generations[n])
  }

  ghost predicate Extends(before: Panel, after: Panel, id: int) {
    && id !in before.releases && id in after.releases && after.releases == before.releases[id := after.releases[id]]
    && (forall r :: r in before.releases ==> r < id)
    && after.rows == before.rows
    && after.releases[id].status == Preparing
    && (forall n :: Has(after, id, n) ==> NewNode(before, after, id, n))
    && (forall n :: !Has(after, id, n) ==> SameGeneration(before, after, n))
  }

  lemma NewExclusive(before: Panel, after: Panel, id: int)
    requires Extends(before, after, id) && Exclusive(before) && Ordered(before) && Bounded(before)
    ensures Exclusive(after) && Ordered(after)
  {
    forall r1, r2, n | r1 < r2 && Has(after, r1, n) && Has(after, r2, n)
      ensures !Live(after, r1) && NodeOf(after, r1, n).generation <= NodeOf(after, r2, n).candidate.previousGeneration
    {
      assert Has(before, r1, n);
      if r2 == id {
        assert NewNode(before, after, id, n);
      } else {
        assert Has(before, r2, n);
      }
    }
  }

  lemma NewBounded(before: Panel, after: Panel, id: int)
    requires Extends(before, after, id) && Bounded(before)
    ensures Bounded(after)
  {
    forall r, n | Has(after, r, n) ensures n in after.generations && NodeOf(after, r, n).generation <= after.generations[n] {
      if r != id {
        assert Has(before, r, n);
        assert Has(after, id, n) || SameGeneration(before, after, n);
      }
    }
  }

  lemma NewRows(before: Panel, after: Panel, id: int)
    requires Extends(before, after, id) && RowsHeld(before)
    ensures RowsHeld(after)
  {
    forall r, n | Newest(after, r, n) && NodeOf(after, r, n).phase != Prepare
      ensures var x := NodeOf(after, r, n); n in after.rows && after.rows[n] == Row(Target(x, x.phase), r, x.generation)
    {
      assert r == id ==> NewNode(before, after, id, n);
      assert Has(before, r, n) && forall r2 :: Has(before, r2, n) ==> Has(after, r2, n);
      assert Newest(before, r, n);
    }
  }

  lemma NewUnescalated(before: Panel, after: Panel, id: int, log: seq<Event>)
    requires Extends(before, after, id) && Unescalated(before, log)
    ensures Unescalated(after, log)
  {
    assert !EverEscalated(log, id);
    forall r | Live(after, r) && !EverEscalated(log, r) ensures InStep(after, r) {
      if r != id {
        assert InStep(before, r) && Live(before, r);
        forall n | Has(after, r, n) ensures n in after.generations && after.generations[n] == NodeOf(after, r, n).generation {
          assert Has(before, r, n) && Busy(before, n);
          assert SameGeneration(before, after, n);
        }
      } else {
        forall n | Has(after, id, n) ensures n in after.generations && after.generations[n] == NodeOf(after, id, n).generation {
          assert NewNode(before, after, id, n);
        }
      }
    }
  }

  lemma NewSettlements(before: Panel, after: Panel, id: int, log: seq<Event>)
    requires Extends(before, after, id) && Settlements(before, log)
    ensures Settlements(after, log)
  {
    forall j | 0 <= j < |log| && log[j].Acked? ensures Settled(after, log[j].ack) {
      assert Settled(before, log[j].ack);
    }
  }

  lemma NewCounts(s: System, after: Panel, id: int)
    requires Consistent(s) && Extends(s.panel, after, id) && Counted(s.panel, s.log) && Tidied(s.panel)
    requires DistinctNodes(after.releases[id].nodes)
    ensures Counted(after, s.log) && Tidied(after)
  {
    assert Unheard(s.log, id);
    var nodes := after.releases[id].nodes;
    forall i | 0 <= i < |nodes| ensures nodes[i].phase == Prepare {
      PositionOf(nodes, i);
      assert NewNode(s.panel, after, id, nodes[i].candidate.node);
    }
  }
}
