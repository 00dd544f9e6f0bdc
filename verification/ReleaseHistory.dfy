/** The shape of a release agrees with its history, over every run and whatever acknowledgements arrive. */
module ReleaseHistory {
  import opened Common
  import opened Messages
  import opened ReleaseModel
  import opened ReleaseShape
  import opened ReleaseSystem

  // `forward` lists the nodes that switched to their candidates, `back` those that switched back, in order of time.
  ghost predicate History(r: Release, forward: seq<int>, back: seq<int>) {
    && |back| <= |forward| <= |r.nodes|
    && (forall i :: 0 <= i < |forward| ==> forward[i] == r.nodes[i].candidate.node)
    && (forall i :: 0 <= i < |back| ==> back[i] == forward[|forward| - 1 - i])
    && Shape(r, |forward| - |back|, |forward|)
  }

  // What a transaction does to one release, and to nothing else.
  ghost predicate Moves(before: Panel, reply: Reply, release: int) {
    && release in before.releases && release in reply.panel.releases
    && reply.panel.releases == before.releases[release := reply.panel.releases[release]]
    && reply.panel.lastRelease == before.lastRelease
    && reply.panel.material == before.material
    && SameCandidates(before.releases[release].nodes, reply.panel.releases[release].nodes)
    && forall e :: e in reply.events ==>
         && (e.Acked? ==> e.ack.release == release) && (e.Forward? || e.Back? ==> e.release == release)
         && (e.Escalated? ==> e.releases == {release})
  }

  ghost predicate KeepsHistory(before: Panel, reply: Reply, release: int) {
    && Moves(before, reply, release)
    && forall forward, back :: History(before.releases[release], forward, back) ==>
         History(reply.panel.releases[release], forward + ForwardOf(reply.events, release), back + BackOf(reply.events, release))
  }

  lemma OneEvent(e: Event, release: int)
    ensures ForwardOf([e], release) == if e.Forward? && e.release == release then [e.node] else []
    ensures BackOf([e], release) == if e.Back? && e.release == release then [e.node] else []
    ensures AckCount([e], release) == if e.Acked? && e.ack.release == release then 1 else 0
  {
    assert [e][..0] == [];
  }

  // A transaction that switches nobody extends no history.
  lemma UnswitchedHistory(after: Release, release: int, forward: seq<int>, back: seq<int>, events: seq<Event>)
    requires History(after, forward, back) && ForwardOf(events, release) == [] && BackOf(events, release) == []
    ensures History(after, forward + ForwardOf(events, release), back + BackOf(events, release))
  {
    assert forward + [] == forward && back + [] == back;
  }

  lemma AckedFirst(ack: Ack, events: seq<Event>, release: int)
    ensures ForwardOf([Acked(ack)] + events, release) == ForwardOf(events, release)
    ensures BackOf([Acked(ack)] + events, release) == BackOf(events, release)
    ensures AckCount([Acked(ack)] + events, release) == AckCount(events, release) + if ack.release == release then 1 else 0
  {
    HistoryConcat([Acked(ack)], events, release);
    OneEvent(Acked(ack), release);
  }

  lemma BackKeepsHistory(before: Release, after: Release, release: int, forward: seq<int>, back: seq<int>, reply: Reply)
    requires |back| <= |forward| <= |before.nodes|
    requires forall i :: 0 <= i < |forward| ==> forward[i] == before.nodes[i].candidate.node
    requires forall i :: 0 <= i < |back| ==> back[i] == forward[|forward| - 1 - i]
    requires SteppedBack(before.nodes, release, reply, |forward| - |back|, |forward|) && after == reply.panel.releases[release]
    ensures History(after, forward + ForwardOf(reply.events, release), back + BackOf(reply.events, release))
  {
    var b := |forward| - |back|;
    if b > 0 {
      OneEvent(Back(release, before.nodes[b - 1].candidate.node), release);
    }
    assert forward + [] == forward && back + [] == back;
  }

  lemma ForwardKeepsHistory(before: Release, after: Release, release: int, forward: seq<int>, reply: Reply)
    requires |forward| <= |before.nodes|
    requires forall i :: 0 <= i < |forward| ==> forward[i] == before.nodes[i].candidate.node
    requires SteppedForward(before.nodes, release, reply, |forward|) && after == reply.panel.releases[release]
    ensures History(after, forward + ForwardOf(reply.events, release), BackOf(reply.events, release))
  {
    var m := |forward|;
    if m < |before.nodes| {
      OneEvent(Forward(release, before.nodes[m].candidate.node), release);
    }
    assert forward + [] == forward;
  }

  lemma BeginRollbackHistory(panel: Panel, release: int, forward: seq<int>, back: seq<int>)
    requires release in panel.releases
    requires |back| <= |forward| <= |panel.releases[release].nodes|
    requires forall i :: 0 <= i < |forward| ==> forward[i] == panel.releases[release].nodes[i].candidate.node
    requires forall i :: 0 <= i < |back| ==> back[i] == forward[|forward| - 1 - i]
    requires Frame(panel.releases[release].nodes, |forward| - |back|, |forward|)
    ensures var reply := BeginRollback(panel, release);
            reply.error.None? ==>
              && release in reply.panel.releases
              && History(reply.panel.releases[release], forward + ForwardOf(reply.events, release), back + BackOf(reply.events, release))
  {
    BeginRollbackShape(panel, release, |forward| - |back|, |forward|);
    var reply := BeginRollback(panel, release);
    if reply.error.None? {
      BackKeepsHistory(panel.releases[release], reply.panel.releases[release], release, forward, back, reply);
    }
  }

  lemma SwitchMoves(panel: Panel, release: int, rollback: bool)
    requires release in panel.releases
    ensures var reply := ActivateNext(panel, release, rollback);
            reply.error.None? ==> Moves(panel, reply, release)
  {
  }

  lemma BeginRollbackMoves(panel: Panel, release: int)
    requires release in panel.releases
    ensures var reply := BeginRollback(panel, release);
            reply.error.None? ==> Moves(panel, reply, release)
  {
    var r := panel.releases[release];
    SwitchMoves(panel.(releases := panel.releases[release := r.(nodes := UnwoundNodes(r.nodes))]), release, true);
  }

  // An acknowledgement that passes its guards, in a release of some history.
  ghost predicate Admitted(panel: Panel, release: int, p: nat, ack: Ack) {
    && release in panel.releases && p < |panel.releases[release].nodes|
    && var r := panel.releases[release];
       var n := r.nodes[p];
       && ack.status in {Failed, SuccessStatus(n.phase)} && n.status != ack.status
       && r.status in {Preparing, Applying, RollingBack}
       && (n.phase != Prepare ==> n.status == Active)
  }

  lemma MovesAfter(panel: Panel, told: Panel, reply: Reply, release: int)
    requires release in panel.releases && release in told.releases
    requires told == panel.(releases := panel.releases[release := told.releases[release]])
    requires SameCandidates(panel.releases[release].nodes, told.releases[release].nodes)
    requires Moves(told, reply, release)
    ensures Moves(panel, reply, release)
  {
  }

  lemma AdvanceMoves(panel: Panel, release: int, p: nat, ack: Ack)
    requires Admitted(panel, release, p, ack)
    ensures var reply := Advance(panel, release, p, ack);
            reply.error.None? ==> Moves(panel, reply, release)
  {
    var n := panel.releases[release].nodes[p];
    var told := SetNode(panel, release, p, n.(status := ack.status));
    var reply := Advance(panel, release, p, ack);
    if reply.error.None? {
      if ack.status == Failed {
        if n.phase == Apply {
          BeginRollbackMoves(told, release);
          MovesAfter(panel, told, reply, release);
        }
      } else if n.phase == Prepare {
        var ready := SetStatus(told, release, Ready);
        SwitchMoves(ready, release, false);
        if reply.events != [] || reply.panel != told {
          MovesAfter(panel, ready, reply, release);
        }
      } else {
        SwitchMoves(told, release, n.phase == Rollback);
        MovesAfter(panel, told, reply, release);
      }
    }
  }

  lemma AdvanceHistory(panel: Panel, release: int, p: nat, ack: Ack, forward: seq<int>, back: seq<int>)
    requires Admitted(panel, release, p, ack) && History(panel.releases[release], forward, back)
    ensures var reply := Advance(panel, release, p, ack);
            reply.error.None? ==>
              && release in reply.panel.releases
              && History(reply.panel.releases[release], forward + ForwardOf(reply.events, release), back + BackOf(reply.events, release))
  {
    var r := panel.releases[release];
    var n := r.nodes[p];
    var b, m := |forward| - |back|, |forward|;
    var told := SetNode(panel, release, p, n.(status := ack.status));
    assert forward + [] == forward && back + [] == back;
    assert NodeShape(n, p, b, m);
    if n.phase == Prepare {
      AdvancePrepare(panel, release, p, ack, forward, back);
    } else if n.phase == Apply {
      assert r.status == Applying && b == m == p + 1;
      if ack.status == Failed {
        AdvanceApplyFailed(panel, release, p, ack, forward, back);
      } else {
        var nodes := told.releases[release].nodes;
        forall i | 0 <= i < |nodes| ensures NodeShape(nodes[i], i, b, m) {
          assert NodeShape(r.nodes[i], i, b, m);
        }
        ActivateForward(told, release, m);
        var reply := ActivateNext(told, release, false);
        if reply.error.None? {
          ForwardKeepsHistory(told.releases[release], reply.panel.releases[release], release, forward, reply);
          assert back + BackOf(reply.events, release) == BackOf(reply.events, release);
        }
      }
    } else {
      AdvanceRollback(panel, release, p, ack, forward, back);
    }
  }

  lemma AdvancePrepare(panel: Panel, release: int, p: nat, ack: Ack, forward: seq<int>, back: seq<int>)
    requires Admitted(panel, release, p, ack) && History(panel.releases[release], forward, back)
    requires panel.releases[release].nodes[p].phase == Prepare
    ensures var reply := Advance(panel, release, p, ack);
            reply.error.None? ==>
              && release in reply.panel.releases
              && History(reply.panel.releases[release], forward + ForwardOf(reply.events, release), back + BackOf(reply.events, release))
  {
    var r := panel.releases[release];
    var b, m := |forward| - |back|, |forward|;
    var nodes := r.nodes[p := r.nodes[p].(status := ack.status)];
    PreparedShape(r, p, ack.status, b, m);
    var told := SetNode(panel, release, p, r.nodes[p].(status := ack.status));
    if ack.status == Prepared && forall i :: 0 <= i < |nodes| ==> nodes[i].status == Prepared {
      assert m == 0 by {
        assert NodeShape(nodes[0], 0, b, m);
      }
      LastPrepared(SetStatus(told, release, Ready), release, forward, back);
    } else {
      var after := Release(if ack.status == Failed then FailedRelease else r.status, nodes);
      UnswitchedHistory(after, release, forward, back, []);
    }
  }

  // A node that only prepares can change its answer without breaking the shape.
  lemma PreparedShape(r: Release, p: nat, status: NodeStatus, b: nat, m: nat)
    requires Shape(r, b, m) && p < |r.nodes| && r.nodes[p].phase == Prepare
    requires status in {Prepared, Failed} && r.nodes[p].status != status && r.status in {Preparing, Applying, RollingBack}
    ensures var nodes := r.nodes[p := r.nodes[p].(status := status)];
            && Frame(nodes, b, m)
            && (status == Failed ==> Shape(Release(FailedRelease, nodes), b, m))
            && (status == Prepared ==> Shape(Release(r.status, nodes), b, m))
  {
    var nodes := r.nodes[p := r.nodes[p].(status := status)];
    assert NodeShape(r.nodes[p], p, b, m);
    forall i | 0 <= i < |nodes| ensures NodeShape(nodes[i], i, b, m) {
      assert NodeShape(r.nodes[i], i, b, m);
    }
  }

  lemma LastPrepared(ready: Panel, release: int, forward: seq<int>, back: seq<int>)
    requires release in ready.releases && forward == [] && back == []
    requires Frame(ready.releases[release].nodes, 0, 0)
    requires forall i :: 0 <= i < |ready.releases[release].nodes| ==> ready.releases[release].nodes[i].status == Prepared
    ensures var reply := ActivateNext(ready, release, false);
            reply.error.None? ==>
              && release in reply.panel.releases
              && History(reply.panel.releases[release], forward + ForwardOf(reply.events, release), back + BackOf(reply.events, release))
  {
    ActivateForward(ready, release, 0);
    var reply := ActivateNext(ready, release, false);
    if reply.error.None? {
      ForwardKeepsHistory(ready.releases[release], reply.panel.releases[release], release, forward, reply);
      assert back + BackOf(reply.events, release) == BackOf(reply.events, release);
    }
  }

  lemma AdvanceApplyFailed(panel: Panel, release: int, p: nat, ack: Ack, forward: seq<int>, back: seq<int>)
    requires Admitted(panel, release, p, ack) && History(panel.releases[release], forward, back)
    requires panel.releases[release].nodes[p].phase == Apply && ack.status == Failed
    ensures var reply := Advance(panel, release, p, ack);
            reply.error.None? ==>
              && release in reply.panel.releases
              && History(reply.panel.releases[release], forward + ForwardOf(reply.events, release), back + BackOf(reply.events, release))
  {
    var r := panel.releases[release];
    var n := r.nodes[p];
    var b, m := |forward| - |back|, |forward|;
    assert NodeShape(n, p, b, m);
    var told := SetNode(panel, release, p, n.(status := Failed));
    assert UnwoundNodes(told.releases[release].nodes) == UnwoundNodes(r.nodes);
    // The failed node unwinds exactly as an active one would.
    BeginRollbackHistory(panel, release, forward, back);
    assert told.(releases := told.releases[release := told.releases[release].(nodes := UnwoundNodes(told.releases[release].nodes))])
        == panel.(releases := panel.releases[release := r.(nodes := UnwoundNodes(r.nodes))]);
  }

  lemma AdvanceRollback(panel: Panel, release: int, p: nat, ack: Ack, forward: seq<int>, back: seq<int>)
    requires Admitted(panel, release, p, ack) && History(panel.releases[release], forward, back)
    requires panel.releases[release].nodes[p].phase == Rollback
    ensures var reply := Advance(panel, release, p, ack);
            reply.error.None? ==>
              && release in reply.panel.releases
              && History(reply.panel.releases[release], forward + ForwardOf(reply.events, release), back + BackOf(reply.events, release))
  {
    var r := panel.releases[release];
    var b, m := |forward| - |back|, |forward|;
    var told := SetNode(panel, release, p, r.nodes[p].(status := ack.status));
    AnsweredFrame(r, p, ack.status, b, m);
    if ack.status == Failed {
      var e := Escalated({release}, RollbackFailed);
      OneEvent(e, release);
      UnswitchedHistory(Release(ManualRequired, told.releases[release].nodes), release, forward, back, [e]);
      assert Advance(panel, release, p, ack) == Accepted(SetStatus(told, release, ManualRequired), [e]);
    } else {
      NextBackHistory(told, release, forward, back);
    }
  }

  lemma AnsweredFrame(r: Release, p: nat, status: NodeStatus, b: nat, m: nat)
    requires Shape(r, b, m) && r.status in {Preparing, Applying, RollingBack}
    requires p < |r.nodes| && r.nodes[p].phase == Rollback && status in {RolledBack, Failed}
    ensures var nodes := r.nodes[p := r.nodes[p].(status := status)]; Frame(nodes, b, m) && Unwinding(nodes, b)
  {
    var nodes := r.nodes[p := r.nodes[p].(status := status)];
    assert NodeShape(r.nodes[p], p, b, m);
    forall i | 0 <= i < |nodes| ensures NodeShape(nodes[i], i, b, m) {
      assert NodeShape(r.nodes[i], i, b, m);
    }
  }

  lemma NextBackHistory(told: Panel, release: int, forward: seq<int>, back: seq<int>)
    requires release in told.releases && |back| <= |forward| <= |told.releases[release].nodes|
    requires forall i :: 0 <= i < |forward| ==> forward[i] == told.releases[release].nodes[i].candidate.node
    requires forall i :: 0 <= i < |back| ==> back[i] == forward[|forward| - 1 - i]
    requires Frame(told.releases[release].nodes, |forward| - |back|, |forward|) && Unwinding(told.releases[release].nodes, |forward| - |back|)
    ensures var reply := ActivateNext(told, release, true);
            reply.error.None? ==>
              && release in reply.panel.releases
              && History(reply.panel.releases[release], forward + ForwardOf(reply.events, release), back + BackOf(reply.events, release))
  {
    ActivateBack(told, release, |forward| - |back|, |forward|);
    var reply := ActivateNext(told, release, true);
    if reply.error.None? {
      BackKeepsHistory(told.releases[release], reply.panel.releases[release], release, forward, back, reply);
    }
  }

  ghost predicate Unchanged(panel: Panel, reply: Reply) {
    reply.panel == panel && reply.events == []
  }

  // What lies behind an acknowledgement with an effect: every guard passed, or the runtime material has changed.
  ghost predicate Effective(panel: Panel, ack: Ack, reply: Reply) {
    && ValidAck(ack) && Has(panel, ack.release, ack.node)
    && var r := panel.releases[ack.release];
       var p := Position(r.nodes, ack.node);
       && r.nodes[p].generation == ack.generation && r.nodes[p].phase == ack.phase
       && Admitted(panel, ack.release, p, ack)
       && ack.node in panel.generations && panel.generations[ack.node] == ack.generation
       && if reply.error.None? then
            var advanced := Advance(panel, ack.release, p, ack);
            advanced.error.None? && reply.panel == advanced.panel && reply.events == [Acked(ack)] + advanced.events
          else
            reply.panel == Escalate(panel, ack.release, ReleaseNodes(r)) && reply.events == [Escalated({ack.release}, Material)]
  }

  lemma AcknowledgeEffects(panel: Panel, ack: Ack)
    ensures var reply := Acknowledge(panel, ack); Unchanged(panel, reply) || Effective(panel, ack, reply)
  {
  }

  // An acknowledgement leaves the tables alone, hands the release to an administrator, or advances it.
  lemma AcknowledgeKeepsHistory(panel: Panel, ack: Ack)
    ensures var reply := Acknowledge(panel, ack); Unchanged(panel, reply) || KeepsHistory(panel, reply, ack.release)
  {
    AcknowledgeEffects(panel, ack);
    var reply := Acknowledge(panel, ack);
    if !Unchanged(panel, reply) {
      EffectKeepsHistory(panel, ack, reply);
    }
  }

  lemma EffectKeepsHistory(panel: Panel, ack: Ack, reply: Reply)
    requires Effective(panel, ack, reply)
    ensures KeepsHistory(panel, reply, ack.release)
  {
    var r := panel.releases[ack.release];
    var p := Position(r.nodes, ack.node);
    if reply.error.None? {
      AdvanceMoves(panel, ack.release, p, ack);
      var advanced := Advance(panel, ack.release, p, ack);
      forall forward, back | History(r, forward, back)
        ensures History(reply.panel.releases[ack.release],
                  forward + ForwardOf(reply.events, ack.release), back + BackOf(reply.events, ack.release))
      {
        AdvanceHistory(panel, ack.release, p, ack, forward, back);
        AckedFirst(ack, advanced.events, ack.release);
      }
    } else {
      EscalateKeepsHistory(panel, ack.release, ReleaseNodes(r), reply);
    }
  }

  lemma EscalateKeepsHistory(panel: Panel, release: int, nodes: set<int>, reply: Reply)
    requires release in panel.releases && panel.releases[release].status in {Preparing, Applying, RollingBack, Ready}
    requires reply.panel == Escalate(panel, release, nodes) && reply.events == [Escalated({release}, Material)]
    ensures KeepsHistory(panel, reply, release)
  {
    OneEvent(Escalated({release}, Material), release);
    forall forward, back | History(panel.releases[release], forward, back)
      ensures History(reply.panel.releases[release], forward + ForwardOf(reply.events, release), back + BackOf(reply.events, release))
    {
      UnswitchedHistory(reply.panel.releases[release], release, forward, back, reply.events);
    }
  }

  lemma RollbackKeepsHistory(panel: Panel, release: int)
    ensures var reply := RollbackRelease(panel, release);
            (reply.panel == panel && reply.events == []) || KeepsHistory(panel, reply, release)
  {
    var reply := RollbackRelease(panel, release);
    if reply != Reply(panel, [], reply.error) {
      BeginRollbackMoves(panel, release);
      forall forward, back | History(panel.releases[release], forward, back)
        ensures History(reply.panel.releases[release], forward + ForwardOf(reply.events, release), back + BackOf(reply.events, release))
      {
        BeginRollbackHistory(panel, release, forward, back);
      }
    }
  }

  lemma FetchKeepsHistory(panel: Panel, node: int, release: int, phase: Phase)
    ensures var fetched := GetAgentDeployment(panel, node, release, phase);
            (fetched.panel == panel && fetched.events == [])
            || KeepsHistory(panel, Reply(fetched.panel, fetched.events, None), release)
  {
    var fetched := GetAgentDeployment(panel, node, release, phase);
    if fetched.panel != panel || fetched.events != [] {
      EscalateKeepsHistory(panel, release, {node}, Reply(fetched.panel, fetched.events, None));
    }
  }
}
