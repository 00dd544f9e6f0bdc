/** Why a node may switch: every activation and every success rests on acknowledgements that came before. */
module ReleaseOrder {
  import opened Common
  import opened Messages
  import opened ReleaseModel
  import opened ReleaseShape
  import opened ReleaseSystem
  import opened ReleaseHistory
  import opened ReleaseRuns

  // The statuses of a release, and its activations, rest on acknowledgements in the log.
  ghost predicate Evidence(r: Release, release: int, log: seq<Event>) {
    forall i :: 0 <= i < |r.nodes| ==>
      && (r.nodes[i].status == Prepared || r.nodes[i].phase != Prepare ==> HasAcked(log, release, r.nodes[i].candidate.node, Prepared))
      && (r.nodes[i].status == Applied ==> HasAcked(log, release, r.nodes[i].candidate.node, Applied))
  }

  // A switch to a candidate: all nodes of the release have prepared, and those of smaller apply order have applied.
  ghost predicate Licensed(nodes: seq<ReleaseNode>, release: int, node: int, earlier: seq<Event>) {
    var p := Position(nodes, node);
    && p < |nodes|
    && (forall q :: 0 <= q < |nodes| ==> HasAcked(earlier, release, nodes[q].candidate.node, Prepared))
    && (forall q :: 0 <= q < p ==> HasAcked(earlier, release, nodes[q].candidate.node, Applied))
  }

  ghost predicate AllLicensed(releases: map<int, Release>, log: seq<Event>) {
    forall j :: 0 <= j < |log| && log[j].Forward? ==>
      log[j].release in releases && Licensed(releases[log[j].release].nodes, log[j].release, log[j].node, log[..j])
  }

  ghost predicate Justified(s: System) {
    && Consistent(s)
    && (forall r :: r in s.panel.releases ==> Evidence(s.panel.releases[r], r, s.log))
    && AllLicensed(s.panel.releases, s.log)
  }

  lemma EvidenceGrows(r: Release, release: int, log: seq<Event>, more: seq<Event>)
    requires Evidence(r, release, log)
    ensures Evidence(r, release, log + more)
  {
    forall i | 0 <= i < |r.nodes|
      ensures (r.nodes[i].status == Prepared || r.nodes[i].phase != Prepare ==> HasAcked(log + more, release, r.nodes[i].candidate.node, Prepared))
      ensures (r.nodes[i].status == Applied ==> HasAcked(log + more, release, r.nodes[i].candidate.node, Applied))
    {
      if r.nodes[i].status == Prepared || r.nodes[i].phase != Prepare { HasAckedGrows(log, more, release, r.nodes[i].candidate.node, Prepared); }
      if r.nodes[i].status == Applied { HasAckedGrows(log, more, release, r.nodes[i].candidate.node, Applied); }
    }
  }

  ghost predicate QuietNode(before: ReleaseNode, after: ReleaseNode, release: int, events: seq<Event>) {
    && after.candidate == before.candidate
    && (before.phase == Prepare ==> after.phase == Prepare)
    && (after.status in {Prepared, Applied} && after.status != before.status ==>
          HasAcked(events, release, after.candidate.node, after.status))
  }

  // A transaction that activates nobody: its new successes are its own acknowledgements.
  ghost predicate Quiet(before: Release, after: Release, release: int, events: seq<Event>) {
    && |after.nodes| == |before.nodes|
    && (forall e :: e in events ==> !e.Forward?)
    && forall i :: 0 <= i < |after.nodes| ==> QuietNode(before.nodes[i], after.nodes[i], release, events)
  }

  lemma QuietEvidence(before: Release, after: Release, release: int, log: seq<Event>, events: seq<Event>)
    requires Quiet(before, after, release, events) && Evidence(before, release, log)
    ensures Evidence(after, release, log + events)
  {
    EvidenceGrows(before, release, log, events);
    forall i | 0 <= i < |after.nodes| && after.nodes[i].status in {Prepared, Applied} && after.nodes[i].status != before.nodes[i].status
      ensures HasAcked(log + events, release, after.nodes[i].candidate.node, after.nodes[i].status)
    {
      assert QuietNode(before.nodes[i], after.nodes[i], release, events);
      var k :| 0 <= k < |events| && events[k].Acked? && events[k].ack.release == release
        && events[k].ack.node == after.nodes[i].candidate.node && events[k].ack.status == after.nodes[i].status;
      assert (log + events)[|log| + k] == events[k];
    }
    forall i | 0 <= i < |after.nodes| ensures QuietNode(before.nodes[i], after.nodes[i], release, events) {}
  }

  // Everybody has prepared and the first m nodes have applied, in the state that an acknowledgement reports.
  ghost predicate ReadyFor(r: Release, m: nat) {
    forall i :: 0 <= i < |r.nodes| ==>
      if i < m then r.nodes[i].phase == Apply && r.nodes[i].status == Applied else r.nodes[i].phase == Prepare && r.nodes[i].status == Prepared
  }

  lemma AckedNow(before: Release, release: int, p: nat, ack: Ack, log: seq<Event>)
    requires p < |before.nodes| && Evidence(before, release, log)
    requires ack.release == release && ack.node == before.nodes[p].candidate.node
    requires ack.status == SuccessStatus(before.nodes[p].phase)
    ensures Evidence(before.(nodes := before.nodes[p := before.nodes[p].(status := ack.status)]), release, log + [Acked(ack)])
  {
    assert [Acked(ack)][0].ack == ack;
    QuietEvidence(before, before.(nodes := before.nodes[p := before.nodes[p].(status := ack.status)]), release, log, [Acked(ack)]);
  }

  lemma ActivationLicensed(told: Release, release: int, m: nat, earlier: seq<Event>)
    requires Evidence(told, release, earlier) && ReadyFor(told, m) && m < |told.nodes| && DistinctNodes(told.nodes)
    ensures Licensed(told.nodes, release, told.nodes[m].candidate.node, earlier)
  {
    PositionOf(told.nodes, m);
  }

  // An acknowledgement either activates nobody or activates a node that is entitled to it.
  ghost predicate Justifies(before: Release, after: Release, release: int, log: seq<Event>, events: seq<Event>) {
    && SameCandidates(before.nodes, after.nodes)
    && Evidence(after, release, log + events)
    && forall j :: 0 <= j < |events| && events[j].Forward? ==>
         events[j].release == release && Licensed(before.nodes, release, events[j].node, log + events[..j])
  }

  lemma LicensedSame(before: seq<ReleaseNode>, after: seq<ReleaseNode>, release: int, node: int, earlier: seq<Event>)
    requires SameCandidates(before, after) && Licensed(before, release, node, earlier)
    ensures Licensed(after, release, node, earlier)
  {
    PositionSame(before, after, node);
  }

  lemma LicensesGrow(before: map<int, Release>, after: map<int, Release>, release: int, log: seq<Event>, events: seq<Event>)
    requires release in before && release in after && after == before[release := after[release]]
    requires AllLicensed(before, log) && Justifies(before[release], after[release], release, log, events)
    ensures AllLicensed(after, log + events)
  {
    var all := log + events;
    forall j | 0 <= j < |all| && all[j].Forward?
      ensures all[j].release in after && Licensed(after[all[j].release].nodes, all[j].release, all[j].node, all[..j])
    {
      if j < |log| {
        assert all[..j] == log[..j] && all[j] == log[j];
        if log[j].release == release {
          LicensedSame(before[release].nodes, after[release].nodes, release, log[j].node, log[..j]);
        }
      } else {
        var k := j - |log|;
        assert all[..j] == log + events[..k] && all[j] == events[k];
        LicensedSame(before[release].nodes, after[release].nodes, release, events[k].node, all[..j]);
      }
    }
  }

  lemma ReplyJustified(s: System, reply: Reply, release: int)
    requires Justified(s) && KeepsHistory(s.panel, reply, release)
    requires Justifies(s.panel.releases[release], reply.panel.releases[release], release, s.log, reply.events)
    ensures Justified(WithReply(s, reply))
  {
    ReplyConsistent(s, reply, release);
    LicensesGrow(s.panel.releases, reply.panel.releases, release, s.log, reply.events);
    forall r | r in reply.panel.releases ensures Evidence(reply.panel.releases[r], r, s.log + reply.events) {
      if r != release { EvidenceGrows(s.panel.releases[r], r, s.log, reply.events); }
    }
  }

  lemma QuietJustifies(before: Release, after: Release, release: int, log: seq<Event>, events: seq<Event>)
    requires Quiet(before, after, release, events) && Evidence(before, release, log) && SameCandidates(before.nodes, after.nodes)
    ensures Justifies(before, after, release, log, events)
  {
    QuietEvidence(before, after, release, log, events);
    forall j | 0 <= j < |events| ensures !events[j].Forward? {
      assert events[j] in events;
    }
  }

  // ---- The transactions one by one ----

  // Switching changes one node of the release, and makes it active.
  lemma ActivateNextNodes(panel: Panel, release: int, rollback: bool) returns (p: nat)
    requires release in panel.releases
    ensures p <= |panel.releases[release].nodes|
    ensures p < |panel.releases[release].nodes| ==>
              panel.releases[release].nodes[p].status == if rollback then RollbackPending else Prepared
    ensures var reply := ActivateNext(panel, release, rollback);
            reply.error.None? ==>
              && release in reply.panel.releases
              && var before, after := panel.releases[release].nodes, reply.panel.releases[release].nodes;
                 if p == |before| then after == before && reply.events == []
                 else && after == before[p := after[p]] && after[p].status == Active && after[p].candidate == before[p].candidate
                      && reply.events == [if rollback then Back(release, before[p].candidate.node) else Forward(release, before[p].candidate.node)]
  {
    var nodes := panel.releases[release].nodes;
    if rollback {
      var q := PastLastWith(nodes, RollbackPending);
      p := if q == 0 then |nodes| else q - 1;
    } else {
      p := FirstWith(nodes, Prepared);
    }
  }

  lemma BeginRollbackQuiet(panel: Panel, release: int)
    requires release in panel.releases
    requires forall i :: 0 <= i < |panel.releases[release].nodes| && panel.releases[release].nodes[i].status == RollbackPending ==>
               panel.releases[release].nodes[i].phase == Apply
    ensures var reply := BeginRollback(panel, release);
            reply.error.None? ==> release in reply.panel.releases && Quiet(panel.releases[release], reply.panel.releases[release], release, reply.events)
  {
    var r := panel.releases[release];
    var nodes := UnwoundNodes(r.nodes);
    var p := ActivateNextNodes(panel.(releases := panel.releases[release := r.(nodes := nodes)]), release, true);
    var reply := BeginRollback(panel, release);
    if reply.error.None? {
      var after := reply.panel.releases[release];
      forall i | 0 <= i < |after.nodes| ensures QuietNode(r.nodes[i], after.nodes[i], release, reply.events) {
        assert nodes[i] == Unwound(r.nodes[i]);
      }
    }
  }

  lemma PendingIsApplied(r: Release, b: nat, m: nat)
    requires Shape(r, b, m)
    ensures forall i :: 0 <= i < |r.nodes| && r.nodes[i].status == RollbackPending ==> r.nodes[i].phase == Apply
  {
    forall i | 0 <= i < |r.nodes| && r.nodes[i].status == RollbackPending ensures r.nodes[i].phase == Apply {
      assert NodeShape(r.nodes[i], i, b, m);
    }
  }

  lemma ForwardJustifies(panel: Panel, before: Release, release: int, m: nat, log: seq<Event>, ack: Ack)
    requires release in panel.releases && Frame(panel.releases[release].nodes, m, m)
    requires ReadyFor(panel.releases[release], m) && SameCandidates(before.nodes, panel.releases[release].nodes)
    requires Evidence(panel.releases[release], release, log + [Acked(ack)])
    ensures var reply := ActivateNext(panel, release, false);
            reply.error.None? ==>
              && release in reply.panel.releases
              && Justifies(before, reply.panel.releases[release], release, log, [Acked(ack)] + reply.events)
  {
    var reply := ActivateNext(panel, release, false);
    if reply.error.None? {
      ActivateForward(panel, release, m);
      var told, after := panel.releases[release], reply.panel.releases[release];
      var all := [Acked(ack)] + reply.events;
      EvidenceGrows(told, release, log + [Acked(ack)], reply.events);
      assert log + all == log + [Acked(ack)] + reply.events;
      assert Evidence(after, release, log + all);
      if m < |told.nodes| {
        ActivationLicensed(told, release, m, log + [Acked(ack)]);
        LicensedSame(told.nodes, before.nodes, release, told.nodes[m].candidate.node, log + [Acked(ack)]);
        assert all[..1] == [Acked(ack)];
      }
    }
  }

  ghost predicate AdvanceIsJustified(panel: Panel, release: int, p: nat, ack: Ack, log: seq<Event>)
    requires release in panel.releases && p < |panel.releases[release].nodes|
  {
    var reply := Advance(panel, release, p, ack);
    reply.error.None? ==>
      && release in reply.panel.releases
      && Justifies(panel.releases[release], reply.panel.releases[release], release, log, [Acked(ack)] + reply.events)
  }

  lemma AdvanceJustifies(panel: Panel, release: int, p: nat, ack: Ack, b: nat, m: nat, log: seq<Event>)
    requires Admitted(panel, release, p, ack) && Shape(panel.releases[release], b, m)
    requires ack.release == release && ack.node == panel.releases[release].nodes[p].candidate.node
    requires Evidence(panel.releases[release], release, log)
    ensures AdvanceIsJustified(panel, release, p, ack, log)
  {
    var r := panel.releases[release];
    var n := r.nodes[p];
    assert NodeShape(n, p, b, m);
    AdvanceMoves(panel, release, p, ack);
    if ack.status == Failed {
      var reply := Advance(panel, release, p, ack);
      if reply.error.None? {
        AdvanceFailedQuiet(panel, release, p, ack, b, m);
        QuietJustifies(r, reply.panel.releases[release], release, log, [Acked(ack)] + reply.events);
      }
    } else if n.phase == Prepare {
      PrepareJustifies(panel, release, p, ack, b, m, log);
    } else if n.phase == Apply {
      AckedNow(r, release, p, ack, log);
      var told := SetNode(panel, release, p, n.(status := Applied));
      var nodes := told.releases[release].nodes;
      forall i | 0 <= i < |nodes| ensures NodeShape(nodes[i], i, m, m) && nodes[i].phase == if i < m then Apply else Prepare {
        assert NodeShape(r.nodes[i], i, b, m);
      }
      ForwardJustifies(told, r, release, m, log, ack);
    } else {
      RollbackJustifies(panel, release, p, ack, b, m, log);
    }
  }

  lemma PrepareJustifies(panel: Panel, release: int, p: nat, ack: Ack, b: nat, m: nat, log: seq<Event>)
    requires Admitted(panel, release, p, ack) && Shape(panel.releases[release], b, m)
    requires ack.release == release && ack.node == panel.releases[release].nodes[p].candidate.node
    requires Evidence(panel.releases[release], release, log)
    requires panel.releases[release].nodes[p].phase == Prepare && ack.status == Prepared
    ensures AdvanceIsJustified(panel, release, p, ack, log)
  {
    var r := panel.releases[release];
    var n := r.nodes[p].(status := Prepared);
    var told := SetNode(panel, release, p, n);
    AckedNow(r, release, p, ack, log);
    PreparedShape(r, p, Prepared, b, m);
    var nodes := r.nodes[p := n];
    if forall i :: 0 <= i < |nodes| ==> nodes[i].status == Prepared {
      forall i | 0 <= i < |nodes| ensures nodes[i].phase == Prepare { assert NodeShape(nodes[i], i, b, m); }
      assert m == 0 by { assert NodeShape(nodes[0], 0, b, m); }
      ForwardJustifies(SetStatus(told, release, Ready), r, release, 0, log, ack);
    } else {
      assert [Acked(ack)] + [] == [Acked(ack)];
    }
  }

  lemma RollbackJustifies(panel: Panel, release: int, p: nat, ack: Ack, b: nat, m: nat, log: seq<Event>)
    requires Admitted(panel, release, p, ack) && Shape(panel.releases[release], b, m)
    requires ack.release == release && ack.node == panel.releases[release].nodes[p].candidate.node
    requires Evidence(panel.releases[release], release, log)
    requires panel.releases[release].nodes[p].phase == Rollback && ack.status == RolledBack
    ensures AdvanceIsJustified(panel, release, p, ack, log)
  {
    var r := panel.releases[release];
    var told := SetNode(panel, release, p, r.nodes[p].(status := RolledBack));
    var q := ActivateNextNodes(told, release, true);
    PendingIsApplied(r, b, m);
    var reply := ActivateNext(told, release, true);
    if reply.error.None? {
      var after := reply.panel.releases[release];
      var all := [Acked(ack)] + reply.events;
      forall i | 0 <= i < |after.nodes| ensures QuietNode(r.nodes[i], after.nodes[i], release, all) {}
      SwitchMoves(told, release, true);
      QuietJustifies(r, after, release, log, all);
    }
  }

  lemma AdvanceFailedQuiet(panel: Panel, release: int, p: nat, ack: Ack, b: nat, m: nat)
    requires Admitted(panel, release, p, ack) && Shape(panel.releases[release], b, m) && ack.status == Failed
    ensures var reply := Advance(panel, release, p, ack);
            reply.error.None? ==>
              && release in reply.panel.releases
              && Quiet(panel.releases[release], reply.panel.releases[release], release, [Acked(ack)] + reply.events)
  {
    var r := panel.releases[release];
    var n := r.nodes[p];
    var told := SetNode(panel, release, p, n.(status := Failed));
    assert NodeShape(n, p, b, m);
    if n.phase == Apply {
      PendingIsApplied(r, b, m);
      BeginRollbackQuiet(told, release);
    }
  }

  lemma EffectJustified(s: System, reply: Reply, release: int)
    requires Justified(s)
    requires !Unchanged(s.panel, reply) ==>
      && KeepsHistory(s.panel, reply, release)
      && Justifies(s.panel.releases[release], reply.panel.releases[release], release, s.log, reply.events)
    ensures Justified(WithReply(s, reply))
  {
    if Unchanged(s.panel, reply) {
      assert s.log + reply.events == s.log;
    } else {
      ReplyJustified(s, reply, release);
    }
  }

  lemma AcknowledgeJustifies(panel: Panel, ack: Ack, b: nat, m: nat, log: seq<Event>)
    requires !Unchanged(panel, Acknowledge(panel, ack))
    requires ack.release in panel.releases && Shape(panel.releases[ack.release], b, m) && Evidence(panel.releases[ack.release], ack.release, log)
    ensures var reply := Acknowledge(panel, ack);
            ack.release in reply.panel.releases
            && Justifies(panel.releases[ack.release], reply.panel.releases[ack.release], ack.release, log, reply.events)
  {
    AcknowledgeEffects(panel, ack);
    EffectJustifies(panel, ack, Acknowledge(panel, ack), b, m, log);
  }

  lemma EffectJustifies(panel: Panel, ack: Ack, reply: Reply, b: nat, m: nat, log: seq<Event>)
    requires Effective(panel, ack, reply)
    requires Shape(panel.releases[ack.release], b, m) && Evidence(panel.releases[ack.release], ack.release, log)
    ensures ack.release in reply.panel.releases
    ensures Justifies(panel.releases[ack.release], reply.panel.releases[ack.release], ack.release, log, reply.events)
  {
    var r := panel.releases[ack.release];
    if reply.error.None? {
      AdvanceJustifies(panel, ack.release, Position(r.nodes, ack.node), ack, b, m, log);
    } else {
      EscalationJustifies(r, reply.panel.releases[ack.release], ack.release, log);
    }
  }

  lemma RollbackJustifiesToo(panel: Panel, release: int, b: nat, m: nat, log: seq<Event>)
    requires !Unchanged(panel, RollbackRelease(panel, release))
    requires release in panel.releases && Shape(panel.releases[release], b, m) && Evidence(panel.releases[release], release, log)
    ensures var reply := RollbackRelease(panel, release);
            release in reply.panel.releases
            && Justifies(panel.releases[release], reply.panel.releases[release], release, log, reply.events)
  {
    var reply := RollbackRelease(panel, release);
    var r := panel.releases[release];
    PendingIsApplied(r, b, m);
    BeginRollbackQuiet(panel, release);
    BeginRollbackMoves(panel, release);
    QuietJustifies(r, reply.panel.releases[release], release, log, reply.events);
  }

  // What a consistent state knows about one release.
  lemma Known(s: System, release: int) returns (b: nat, m: nat)
    requires Justified(s) && release in s.panel.releases
    ensures Shape(s.panel.releases[release], b, m) && Evidence(s.panel.releases[release], release, s.log)
  {
    var forward, back := ForwardOf(s.log, release), BackOf(s.log, release);
    assert History(s.panel.releases[release], forward, back);
    b, m := |forward| - |back|, |forward|;
  }

  lemma EscalationJustifies(before: Release, after: Release, release: int, log: seq<Event>)
    requires after.nodes == before.nodes && Evidence(before, release, log)
    ensures Justifies(before, after, release, log, [Escalated({release}, Material)])
  {
    QuietJustifies(before, after, release, log, [Escalated({release}, Material)]);
  }

  lemma SweepJustified(s: System, after: Panel, e: Event)
    requires Justified(s) && Sweeps(s.panel, after) && e.Escalated?
    ensures Justified(s.(panel := after, log := s.log + [e]))
  {
    SweepConsistent(s, after, e);
    forall r | r in after.releases ensures Evidence(after.releases[r], r, s.log + [e]) {
      EvidenceGrows(s.panel.releases[r], r, s.log, [e]);
    }
    LogGrows(s.panel.releases, after.releases, s.log, [e]);
  }

  // Releases that keep their nodes keep their licences.
  lemma LogGrows(before: map<int, Release>, after: map<int, Release>, log: seq<Event>, more: seq<Event>)
    requires AllLicensed(before, log) && forall e :: e in more ==> !e.Forward?
    requires forall r :: r in before ==> r in after && after[r].nodes == before[r].nodes
    ensures AllLicensed(after, log + more)
  {
    var all := log + more;
    forall j | 0 <= j < |all| && all[j].Forward?
      ensures all[j].release in after && Licensed(after[all[j].release].nodes, all[j].release, all[j].node, all[..j])
    {
      assert all[j] in more || j < |log|;
      assert all[..j] == log[..j] && all[j] == log[j];
    }
  }

  lemma CreateJustified(s: System, current: bool, capable: set<int>, candidates: seq<Candidate>)
    requires Justified(s)
    ensures Justified(WithReply(s, CreateTopologyRelease(s.panel, current, capable, candidates)))
  {
    var reply := CreateTopologyRelease(s.panel, current, capable, candidates);
    CreateConsistent(s, current, capable, candidates);
    assert s.log + reply.events == s.log;
    if reply.error.None? {
      NewEvidence(s.panel, candidates, s.panel.lastRelease + 1, s.log);
      assert s.panel.lastRelease + 1 !in s.panel.releases;
      LogGrows(s.panel.releases, reply.panel.releases, s.log, []);
    }
  }

  lemma NewEvidence(panel: Panel, candidates: seq<Candidate>, release: int, log: seq<Event>)
    requires forall i :: 0 <= i < |candidates| ==> candidates[i].topology in panel.material
    ensures Evidence(Release(Preparing, FreshNodes(panel, candidates)), release, log)
  {
    var nodes := FreshNodes(panel, candidates);
    forall i | 0 <= i < |nodes| ensures nodes[i].status == Pending && nodes[i].phase == Prepare {}
  }

  lemma FetchJustified(s: System, node: int)
    requires Justified(s)
    ensures Justified(Fetching(s, node))
  {
    var agent := AgentOf(s, node);
    if agent.session.Offered? && !Fenced(agent.stored, agent.session.pending) {
      var pending := agent.session.pending;
      var fetched := GetAgentDeployment(s.panel, node, pending.release, pending.phase);
      var reply := Reply(fetched.panel, fetched.events, None);
      FetchKeepsHistory(s.panel, node, pending.release, pending.phase);
      if !Unchanged(s.panel, reply) {
        var b, m := Known(s, pending.release);
        FetchJustifies(s.panel, node, pending.release, pending.phase, s.log);
      }
      EffectJustified(s, reply, pending.release);
    }
  }

  lemma FetchJustifies(panel: Panel, node: int, release: int, phase: Phase, log: seq<Event>)
    requires release in panel.releases && Evidence(panel.releases[release], release, log)
    requires var fetched := GetAgentDeployment(panel, node, release, phase); fetched.panel != panel || fetched.events != []
    ensures var fetched := GetAgentDeployment(panel, node, release, phase);
            release in fetched.panel.releases
            && Justifies(panel.releases[release], fetched.panel.releases[release], release, log, fetched.events)
  {
    var fetched := GetAgentDeployment(panel, node, release, phase);
    EscalationJustifies(panel.releases[release], fetched.panel.releases[release], release, log);
  }

  lemma DeliverJustified(s: System, ack: Ack)
    requires Justified(s)
    ensures Justified(Delivered(s, ack))
  {
    AcknowledgeKeepsHistory(s.panel, ack);
    var reply := Acknowledge(s.panel, ack);
    if !Unchanged(s.panel, reply) {
      var b, m := Known(s, ack.release);
      AcknowledgeJustifies(s.panel, ack, b, m, s.log);
    }
    EffectJustified(s, reply, ack.release);
  }

  lemma AdministratorJustified(s: System, release: int)
    requires Justified(s)
    ensures Justified(WithReply(s, RollbackRelease(s.panel, release)))
  {
    RollbackKeepsHistory(s.panel, release);
    var reply := RollbackRelease(s.panel, release);
    if !Unchanged(s.panel, reply) {
      var b, m := Known(s, release);
      RollbackJustifiesToo(s.panel, release, b, m, s.log);
    }
    EffectJustified(s, reply, release);
  }

  lemma NextJustified(s: System, step: Step)
    requires Justified(s)
    ensures Justified(Next(s, step))
  {
    match step
    case Create(current, capable, candidates) => CreateJustified(s, current, capable, candidates);
    case Heartbeat(node) =>
    case Fetch(node) => FetchJustified(s, node);
    case Act(node, outcome) =>
    case Deliver(ack) => DeliverJustified(s, ack);
    case Recover(overdue) => SweepJustified(s, RecoverReleases(s.panel, overdue), Escalated(Overdue(s.panel, overdue), Timeout));
    case AdministratorRollback(release) => AdministratorJustified(s, release);
    case AuthorizationChange(managed) =>
      SweepJustified(s, InvalidateTopologyAuthorization(s.panel, managed), Escalated(RunningReleases(s.panel), Authorization));
    case RosterChange(material) => RosterJustified(s, Reroster(s.panel.material, material));
  }

  lemma RosterJustified(s: System, material: map<Topology, Version>)
    requires Justified(s)
    ensures Justified(s.(panel := s.panel.(material := material)))
  {
  }

  lemma {:induction false} RunJustified(s: System, steps: seq<Step>)
    requires Started(s)
    ensures Justified(Execute(s, steps))
  {
    if steps != [] {
      RunJustified(s, steps[..|steps| - 1]);
      NextJustified(Execute(s, steps[..|steps| - 1]), steps[|steps| - 1]);
    }
  }

  // ---- The main results ----

  // A node's row switches to its candidate only after every node of the release has acknowledged prepared and every
  // node of smaller apply order has acknowledged applied.
  lemma SwitchesAreLicensed(s: System, steps: seq<Step>, j: nat)
    requires Started(s) && j < |Execute(s, steps).log| && Execute(s, steps).log[j].Forward?
    ensures var end := Execute(s, steps);
            var e := end.log[j];
            e.release in end.panel.releases && Licensed(end.panel.releases[e.release].nodes, e.release, e.node, end.log[..j])
  {
    RunJustified(s, steps);
  }

  // A release succeeds only when all its nodes have acknowledged applied, and all of them run their candidates.
  lemma SuccessMeansApplied(s: System, steps: seq<Step>, release: int, p: nat)
    requires Started(s)
    requires release in Execute(s, steps).panel.releases && p < |Execute(s, steps).panel.releases[release].nodes|
    requires Execute(s, steps).panel.releases[release].status == Succeeded
    ensures var end := Execute(s, steps);
            var nodes := end.panel.releases[release].nodes;
            && HasAcked(end.log, release, nodes[p].candidate.node, Applied)
            && |ForwardOf(end.log, release)| == |nodes| && ForwardOf(end.log, release)[p] == nodes[p].candidate.node
            && BackOf(end.log, release) == []
  {
    RunJustified(s, steps);
    var end := Execute(s, steps);
    assert Evidence(end.panel.releases[release], release, end.log);
    assert History(end.panel.releases[release], ForwardOf(end.log, release), BackOf(end.log, release));
  }
}
