/** What an acknowledgement and an administrator do to a release, read from the tables before and after. */
module ReleaseEffects {
  import opened Common
  import opened Messages
  import opened ReleaseModel
  import opened ReleaseSession
  import opened ReleaseAnswers

  // ---- Steps of a release ----

  // The position of the first node that waits for its turn to apply.
  ghost predicate NextForward(nodes: seq<ReleaseNode>, q: int) {
    0 <= q < |nodes| && nodes[q].status == Prepared && forall i :: 0 <= i < q ==> nodes[i].status != Prepared
  }

  // The position of the last node that waits for its turn to go back.
  ghost predicate NextBack(nodes: seq<ReleaseNode>, q: int) {
    0 <= q < |nodes| && nodes[q].status == RollbackPending && forall i :: q < i < |nodes| ==> nodes[i].status != RollbackPending
  }

  // What the release looks like and which other tables have changed.
  ghost predicate Becomes(before: Panel, after: Panel, release: int, status: ReleaseStatus, nodes: seq<ReleaseNode>) {
    after == before.(releases := before.releases[release := Release(status, nodes)], rows := after.rows, generations := after.generations)
  }

  // The node at the position is switched: it is active, its row names the topology, and its generation is this one.
  ghost predicate Switched(before: Panel, after: Panel, release: int, nodes: seq<ReleaseNode>, q: int, status: ReleaseStatus,
                           phase: Phase, topology: Topology, generation: int)
    requires 0 <= q < |nodes|
  {
    var n := nodes[q];
    && topology in before.material
    && Becomes(before, after, release, status,
         nodes[q := ReleaseNode(n.candidate, n.candidateVersion, phase, Active, generation, before.material[topology])])
    && after.rows == before.rows[n.candidate.node := Row(topology, release, generation)]
    && after.generations == before.generations[n.candidate.node := generation]
  }

  ghost predicate Unswitched(before: Panel, after: Panel) { after.rows == before.rows && after.generations == before.generations }

  // With these nodes: the first prepared one is switched to its candidate, which has not changed, or the release has succeeded.
  ghost predicate GoesForward(before: Panel, after: Panel, release: int, nodes: seq<ReleaseNode>, events: seq<Event>) {
    if forall q :: !NextForward(nodes, q) then Becomes(before, after, release, Succeeded, nodes) && Unswitched(before, after) && events == []
    else
      forall q :: NextForward(nodes, q) ==>
        var n := nodes[q];
        && Switched(before, after, release, nodes, q, Applying, Apply, n.candidate.topology, n.generation)
        && before.material[n.candidate.topology] == n.candidateVersion && events == [Forward(release, n.candidate.node)]
  }

  // With these nodes: the last pending one is switched back one generation on, or the release is rolled back.
  ghost predicate GoesBack(before: Panel, after: Panel, release: int, nodes: seq<ReleaseNode>, events: seq<Event>) {
    if forall q :: !NextBack(nodes, q) then Becomes(before, after, release, RolledBackRelease, nodes) && Unswitched(before, after) && events == []
    else
      forall q :: NextBack(nodes, q) ==>
        var n := nodes[q];
        var restored := if n.candidate.previous.Some? then n.candidate.previous.value else Direct(n.candidate.node);
        && Switched(before, after, release, nodes, q, RollingBack, Rollback, restored, n.generation + 1)
        && events == [Back(release, n.candidate.node)]
  }

  // The nodes that run their candidate, or tried to, have to go back.
  ghost predicate ToGoBack(before: seq<ReleaseNode>, after: seq<ReleaseNode>) {
    && |after| == |before|
    && forall i :: 0 <= i < |before| ==>
         after[i] == if before[i].phase == Apply && before[i].status in {Active, Applied, Failed} then before[i].(status := RollbackPending) else before[i]
  }

  lemma ForwardGoes(panel: Panel, release: int)
    requires release in panel.releases && ActivateNext(panel, release, false).error.None?
    ensures var reply := ActivateNext(panel, release, false);
            GoesForward(panel, reply.panel, release, panel.releases[release].nodes, reply.events)
  {
    var nodes := panel.releases[release].nodes;
    var p := FirstWith(nodes, Prepared);
    assert p < |nodes| ==> NextForward(nodes, p);
    assert forall q :: NextForward(nodes, q) ==> q == p;
  }

  lemma BackGoes(panel: Panel, release: int)
    requires release in panel.releases && ActivateNext(panel, release, true).error.None?
    ensures var reply := ActivateNext(panel, release, true);
            GoesBack(panel, reply.panel, release, panel.releases[release].nodes, reply.events)
  {
    var nodes := panel.releases[release].nodes;
    var p := PastLastWith(nodes, RollbackPending);
    assert p > 0 ==> NextBack(nodes, p - 1);
    assert forall q :: NextBack(nodes, q) ==> q == p - 1;
  }

  lemma ActivationGoes(panel: Panel, release: int, rollback: bool)
    requires release in panel.releases && ActivateNext(panel, release, rollback).error.None?
    ensures var reply := ActivateNext(panel, release, rollback);
            if rollback then GoesBack(panel, reply.panel, release, panel.releases[release].nodes, reply.events)
            else GoesForward(panel, reply.panel, release, panel.releases[release].nodes, reply.events)
  {
    if rollback { BackGoes(panel, release); } else { ForwardGoes(panel, release); }
  }

  // ---- What an acknowledgement does ----

  // The nodes of its release once an acknowledgement is noted.
  function Noted(panel: Panel, ack: Ack): seq<ReleaseNode>
    requires Has(panel, ack.release, ack.node)
  {
    var nodes := panel.releases[ack.release].nodes;
    var p := Position(nodes, ack.node);
    nodes[p := nodes[p].(status := ack.status)]
  }

  // A failed preparation ends the release; a failed application sends it back; a failure to go back stops it for an
  // administrator. A preparation goes on once all nodes have prepared, an application to the next node, and a way back to
  // the one before.
  ghost predicate Does(before: Panel, after: Panel, ack: Ack, phase: Phase, events: seq<Event>)
    requires Has(before, ack.release, ack.node)
  {
    var release, told := ack.release, Noted(before, ack);
    if ack.status == Failed then
      match phase
      case Prepare => Becomes(before, after, release, FailedRelease, told) && Unswitched(before, after) && events == []
      case Apply => exists nodes :: ToGoBack(told, nodes) && GoesBack(before, after, release, nodes, events)
      case Rollback =>
        Becomes(before, after, release, ManualRequired, told) && Unswitched(before, after) && events == [Escalated({release}, RollbackFailed)]
    else
      match phase
      case Prepare =>
        if forall i :: 0 <= i < |told| ==> told[i].status == Prepared then GoesForward(before, after, release, told, events)
        else Becomes(before, after, release, before.releases[release].status, told) && Unswitched(before, after) && events == []
      case Apply => GoesForward(before, after, release, told, events)
      case Rollback => GoesBack(before, after, release, told, events)
  }

  // The step does not depend on what the release was before.
  lemma SameStep(panel: Panel, told: Panel, after: Panel, release: int, nodes: seq<ReleaseNode>, events: seq<Event>)
    requires release in panel.releases && release in told.releases
    requires told == panel.(releases := panel.releases[release := told.releases[release]])
    ensures GoesForward(told, after, release, nodes, events) ==> GoesForward(panel, after, release, nodes, events)
    ensures GoesBack(told, after, release, nodes, events) ==> GoesBack(panel, after, release, nodes, events)
  {
    forall status, more ensures Becomes(told, after, release, status, more) ==> Becomes(panel, after, release, status, more) {
      assert told.releases[release := Release(status, more)] == panel.releases[release := Release(status, more)];
    }
  }

  lemma UnwindingGoesBack(panel: Panel, told: Panel, release: int)
    requires release in panel.releases && release in told.releases
    requires told == panel.(releases := panel.releases[release := told.releases[release]])
    requires BeginRollback(told, release).error.None?
    ensures var reply := BeginRollback(told, release);
            exists nodes :: ToGoBack(told.releases[release].nodes, nodes) && GoesBack(panel, reply.panel, release, nodes, reply.events)
  {
    var r := told.releases[release];
    var nodes := UnwoundNodes(r.nodes);
    var unwound := told.(releases := told.releases[release := r.(nodes := nodes)]);
    ActivationGoes(unwound, release, true);
    var reply := BeginRollback(told, release);
    assert unwound == panel.(releases := panel.releases[release := unwound.releases[release]]);
    SameStep(panel, unwound, reply.panel, release, nodes, reply.events);
    assert ToGoBack(r.nodes, nodes);
  }

  lemma AdvanceDoes(panel: Panel, ack: Ack, p: nat)
    requires Has(panel, ack.release, ack.node) && p == Position(panel.releases[ack.release].nodes, ack.node)
    requires Advance(panel, ack.release, p, ack).error.None?
    ensures var reply := Advance(panel, ack.release, p, ack);
            Does(panel, reply.panel, ack, panel.releases[ack.release].nodes[p].phase, reply.events)
  {
    var release := ack.release;
    var n := panel.releases[release].nodes[p];
    var told := SetNode(panel, release, p, n.(status := ack.status));
    var reply := Advance(panel, release, p, ack);
    assert told.releases[release].nodes == Noted(panel, ack);
    if ack.status == Failed {
      if n.phase == Apply {
        UnwindingGoesBack(panel, told, release);
      }
    } else if n.phase != Prepare {
      ActivationGoes(told, release, n.phase == Rollback);
      SameStep(panel, told, reply.panel, release, Noted(panel, ack), reply.events);
    } else if AllPrepared(Noted(panel, ack)) {
      var ready := SetStatus(told, release, Ready);
      ActivationGoes(ready, release, false);
      assert ready == panel.(releases := panel.releases[release := ready.releases[release]]);
      SameStep(panel, ready, reply.panel, release, Noted(panel, ack), reply.events);
    }
  }

  // An acknowledgement that takes effect does exactly this, as one transaction.
  lemma AcknowledgementDoes(panel: Panel, ack: Ack)
    requires Acked(ack) in Acknowledge(panel, ack).events
    ensures Has(panel, ack.release, ack.node)
    ensures var reply := Acknowledge(panel, ack);
            reply.events != [] && reply.events[0] == Acked(ack) && Does(panel, reply.panel, ack, ack.phase, reply.events[1..])
  {
    EffectIsRecorded(panel, ack);
    var p := Position(panel.releases[ack.release].nodes, ack.node);
    AdvanceDoes(panel, ack, p);
    var advanced := Advance(panel, ack.release, p, ack);
    assert ([Acked(ack)] + advanced.events)[1..] == advanced.events;
  }

  // A repetition of what the node has answered already, and a success of an earlier phase that arrives late, are accepted
  // and change nothing.
  lemma RepetitionIsAccepted(panel: Panel, ack: Ack)
    requires ValidAck(ack) && Has(panel, ack.release, ack.node)
    requires var n := NodeOf(panel, ack.release, ack.node);
             && n.generation == ack.generation && (ack.status != Failed ==> ack.version == n.version)
             && (|| n.status == ack.status
                 || (ack.status == Prepared && ack.phase == Prepare && n.phase == Apply)
                 || (ack.status == Applied && ack.phase == Apply && n.phase == Rollback))
    ensures Acknowledge(panel, ack) == Reply(panel, [], None)
  {
  }

  // What an administrator's rollback does.
  lemma RollbackDoes(panel: Panel, release: int)
    ensures var reply := RollbackRelease(panel, release);
            if release !in panel.releases then reply == Reply(panel, [], Some(NotFound))
            else if panel.releases[release].status in {RollingBack, RolledBackRelease} then reply == Reply(panel, [], None)
            else if panel.releases[release].status in {Preparing, Ready, Applying, Succeeded} then reply == Reply(panel, [], Some(Conflict))
            else if reply.error.Some? then reply == Reply(panel, [], Some(Unavailable))
            else exists nodes :: ToGoBack(panel.releases[release].nodes, nodes) && GoesBack(panel, reply.panel, release, nodes, reply.events)
  {
    if release in panel.releases {
      var status := panel.releases[release].status;
      OnlyStopped(status);
      UnwindingError(panel, release);
      if BeginRollback(panel, release).error.None? {
        assert panel == panel.(releases := panel.releases[release := panel.releases[release]]);
        UnwindingGoesBack(panel, panel, release);
      }
    }
  }

  lemma OnlyStopped(status: ReleaseStatus)
    ensures status in {FailedRelease, ManualRequired} <==> status !in {RollingBack, RolledBackRelease, Preparing, Ready, Applying, Succeeded}
  {
    match status
    case _ =>
  }

  lemma UnwindingError(panel: Panel, release: int)
    requires release in panel.releases
    ensures BeginRollback(panel, release).error in {None, Some(Unavailable)}
  {
  }
}
