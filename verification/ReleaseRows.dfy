/**
  What the deployment rows say in every run, whatever acknowledgements arrive. The row of a node is the one that its last
  switch wrote: by the release that switched it, with the candidate after a switch forward and with what the release
  restores after a switch back. So a rolled-back release has restored exactly the rows that still name it.
*/
module ReleaseRows {
  import opened Common
  import opened Messages
  import opened ReleaseModel
  import opened ReleaseShape
  import opened ReleaseSystem
  import opened ReleaseHistory
  import opened ReleaseRuns
  import opened ReleaseOrder
  import opened ReleaseSession
  import opened ReleaseBorders

  predicate IsSwitch(e: Event, node: int) {
    (e.Forward? || e.Back?) && e.node == node
  }

  predicate SwitchesSomebody(e: Event) {
    e.Forward? || e.Back?
  }

  // The last switch of a node in the history.
  function LastSwitch(log: seq<Event>, node: int): (r: Option<Event>)
    ensures r.Some? ==> IsSwitch(r.value, node) && r.value in log
    ensures r.None? ==> forall e :: e in log ==> !IsSwitch(e, node)
  {
    if log == [] then None
    else if IsSwitch(log[|log| - 1], node) then Some(log[|log| - 1])
    else LastSwitch(log[..|log| - 1], node)
  }

  function PhaseAfter(e: Event): Phase {
    if e.Forward? then Apply else Rollback
  }

  // The row of the node is what its last switch wrote, or the one of the beginning.
  ghost predicate RowTells(panel: Panel, node: int, last: Option<Event>, first: map<int, Row>) {
    match last
    case None => (node in panel.rows <==> node in first) && (node in first ==> panel.rows[node] == first[node])
    case Some(e) =>
      && SwitchesSomebody(e) && Has(panel, e.release, node) && node in panel.rows
      && var x := NodeOf(panel, e.release, node);
         x.phase == PhaseAfter(e) && panel.rows[node] == Row(Target(x, x.phase), e.release, x.generation)
  }

  ghost predicate RowsTell(s: System, first: map<int, Row>) {
    forall n :: RowTells(s.panel, n, LastSwitch(s.log, n), first)
  }

  lemma LastSwitchNow(log: seq<Event>, events: seq<Event>, node: int)
    requires |events| > 0 && IsSwitch(events[|events| - 1], node)
    ensures LastSwitch(log + events, node) == Some(events[|events| - 1])
  {
    var all := log + events;
    assert all[|all| - 1] == events[|events| - 1];
  }

  lemma {:induction false} LastSwitchStays(log: seq<Event>, events: seq<Event>, node: int)
    requires forall e :: e in events ==> !IsSwitch(e, node)
    ensures LastSwitch(log + events, node) == LastSwitch(log, node)
    decreases |events|
  {
    if events == [] {
      assert log + events == log;
    } else {
      var front := events[..|events| - 1];
      LastSwitchStays(log, front, node);
      assert (log + events)[..|log + events| - 1] == log + front;
      assert events[|events| - 1] in events;
    }
  }

  // ---- What a transaction switches ----

  // Statuses aside, the transaction changes at most the node at position q, which it switches as its last event says.
  ghost predicate SwitchesOne(before: Panel, reply: Reply, release: int, q: nat) {
    && Moves(before, reply, release)
    && var old_, new_ := before.releases[release].nodes, reply.panel.releases[release].nodes;
       && (forall i :: 0 <= i < |old_| && i != q ==> new_[i].phase == old_[i].phase && new_[i].generation == old_[i].generation)
       && (if q < |old_| then Writes(before, reply, release, q)
           else reply.panel.rows == before.rows && forall e :: e in reply.events ==> !SwitchesSomebody(e))
  }

  ghost predicate Writes(before: Panel, reply: Reply, release: int, q: nat)
    requires release in reply.panel.releases && q < |reply.panel.releases[release].nodes|
  {
    var x := reply.panel.releases[release].nodes[q];
    var k := |reply.events| - 1;
    && x.phase != Prepare
    && k >= 0 && reply.events[k] == (if x.phase == Apply then Forward(release, x.candidate.node) else Back(release, x.candidate.node))
    && (forall i :: 0 <= i < k ==> !SwitchesSomebody(reply.events[i]))
    && reply.panel.rows == before.rows[x.candidate.node := Row(Target(x, x.phase), release, x.generation)]
    && reply.panel.releases[release].status in {Applying, RollingBack}
  }

  lemma ActivateSwitches(panel: Panel, release: int, rollback: bool) returns (q: nat)
    requires release in panel.releases
    ensures var reply := ActivateNext(panel, release, rollback); reply.error.None? ==> SwitchesOne(panel, reply, release, q)
  {
    q := ActivateNextNodes(panel, release, rollback);
    SwitchMoves(panel, release, rollback);
  }

  // Tables that differ from earlier ones in statuses of one release.
  ghost predicate SameButStatuses(before: Panel, told: Panel, release: int) {
    && release in before.releases && release in told.releases
    && told == before.(releases := before.releases[release := told.releases[release]])
    && SameCandidates(before.releases[release].nodes, told.releases[release].nodes)
    && forall i :: 0 <= i < |before.releases[release].nodes| ==>
         && told.releases[release].nodes[i].phase == before.releases[release].nodes[i].phase
         && told.releases[release].nodes[i].generation == before.releases[release].nodes[i].generation
  }

  lemma SwitchesAfter(before: Panel, told: Panel, reply: Reply, release: int, q: nat)
    requires SameButStatuses(before, told, release) && SwitchesOne(told, reply, release, q)
    ensures SwitchesOne(before, reply, release, q)
  {
    MovesAfter(before, told, reply, release);
  }

  lemma UnwoundStatuses(panel: Panel, unwound: Panel, release: int)
    requires release in panel.releases
    requires unwound == panel.(releases := panel.releases[release := panel.releases[release].(nodes := UnwoundNodes(panel.releases[release].nodes))])
    ensures SameButStatuses(panel, unwound, release)
  {
  }

  lemma BeginSwitches(panel: Panel, release: int) returns (q: nat)
    requires release in panel.releases
    ensures var reply := BeginRollback(panel, release); reply.error.None? ==> SwitchesOne(panel, reply, release, q)
  {
    var r := panel.releases[release];
    var unwound := panel.(releases := panel.releases[release := r.(nodes := UnwoundNodes(r.nodes))]);
    UnwoundStatuses(panel, unwound, release);
    q := ActivateSwitches(unwound, release, true);
    var reply := ActivateNext(unwound, release, true);
    if reply.error.None? {
      SwitchesAfter(panel, unwound, reply, release, q);
    }
  }

  lemma AnswerSwitches(told: Panel, release: int, phase: Phase, status: NodeStatus) returns (q: nat)
    requires release in told.releases
    ensures var reply := AfterAnswer(told, release, phase, status); reply.error.None? ==> SwitchesOne(told, reply, release, q)
  {
    q := |told.releases[release].nodes|;
    if status == Failed {
      if phase == Apply {
        q := BeginSwitches(told, release);
      }
    } else if phase != Prepare {
      q := ActivateSwitches(told, release, phase == Rollback);
    } else if AllPrepared(told.releases[release].nodes) {
      var ready := SetStatus(told, release, Ready);
      q := ActivateSwitches(ready, release, false);
      var reply := ActivateNext(ready, release, false);
      if reply.error.None? {
        SwitchesAfter(told, ready, reply, release, q);
      }
    }
  }

  lemma AckedSwitches(before: Panel, reply: Reply, ack: Ack, q: nat)
    requires SwitchesOne(before, reply, ack.release, q)
    ensures SwitchesOne(before, Told(ack, reply), ack.release, q)
  {
  }

  lemma AdvanceSwitches(panel: Panel, p: nat, ack: Ack) returns (q: nat)
    requires ack.release in panel.releases && p < |panel.releases[ack.release].nodes|
    ensures var reply := Told(ack, Advance(panel, ack.release, p, ack)); reply.error.None? ==> SwitchesOne(panel, reply, ack.release, q)
  {
    var n := panel.releases[ack.release].nodes[p];
    var told := SetNode(panel, ack.release, p, n.(status := ack.status));
    q := AnswerSwitches(told, ack.release, n.phase, ack.status);
    var reply := AfterAnswer(told, ack.release, n.phase, ack.status);
    if reply.error.None? {
      SwitchesAfter(panel, told, reply, ack.release, q);
      AckedSwitches(panel, reply, ack, q);
    }
  }

  lemma AcknowledgeSwitches(panel: Panel, ack: Ack) returns (q: nat)
    ensures var reply := Acknowledge(panel, ack); Unchanged(panel, reply) || SwitchesOne(panel, reply, ack.release, q)
  {
    var reply := Acknowledge(panel, ack);
    AcknowledgeEffects(panel, ack);
    q := 0;
    if !Unchanged(panel, reply) {
      if reply.error.None? {
        q := AdvanceSwitches(panel, Position(panel.releases[ack.release].nodes, ack.node), ack);
      } else {
        q := |panel.releases[ack.release].nodes|;
      }
    }
  }

  lemma AdministratorSwitches(panel: Panel, release: int) returns (q: nat)
    ensures var reply := RollbackRelease(panel, release); Unchanged(panel, reply) || SwitchesOne(panel, reply, release, q)
  {
    q := 0;
    if release in panel.releases {
      q := BeginSwitches(panel, release);
    }
  }

  // ---- Every step keeps what the rows tell ----

  lemma SwitchTells(s: System, reply: Reply, release: int, q: nat, first: map<int, Row>)
    requires RowsTell(s, first) && SwitchesOne(s.panel, reply, release, q) && DistinctNodes(s.panel.releases[release].nodes)
    ensures RowsTell(WithReply(s, reply), first)
  {
    var old_, new_ := s.panel.releases[release].nodes, reply.panel.releases[release].nodes;
    forall n ensures RowTells(reply.panel, n, LastSwitch(s.log + reply.events, n), first) {
      if q < |old_| && old_[q].candidate.node == n {
        LastSwitchNow(s.log, reply.events, n);
        PositionOf(new_, q);
      } else {
        OthersStay(s, reply, release, q, first, n);
      }
    }
  }

  lemma OthersStay(s: System, reply: Reply, release: int, q: nat, first: map<int, Row>, n: int)
    requires RowTells(s.panel, n, LastSwitch(s.log, n), first) && SwitchesOne(s.panel, reply, release, q)
    requires q < |s.panel.releases[release].nodes| ==> s.panel.releases[release].nodes[q].candidate.node != n
    ensures RowTells(reply.panel, n, LastSwitch(s.log + reply.events, n), first)
  {
    forall e | e in reply.events ensures !IsSwitch(e, n) {
      var i :| 0 <= i < |reply.events| && reply.events[i] == e;
    }
    LastSwitchStays(s.log, reply.events, n);
    var last := LastSwitch(s.log, n);
    if last.Some? {
      HasSame(s.panel, reply, release, last.value.release, n);
    }
  }

  // Steps that keep all rows and the nodes of all releases, and switch nobody.
  lemma QuietTells(s: System, after: Panel, events: seq<Event>, first: map<int, Row>)
    requires RowsTell(s, first) && after.rows == s.panel.rows
    requires forall r :: r in s.panel.releases ==> r in after.releases && after.releases[r].nodes == s.panel.releases[r].nodes
    requires forall e :: e in events ==> !SwitchesSomebody(e)
    ensures RowsTell(s.(panel := after, log := s.log + events), first)
  {
    forall n ensures RowTells(after, n, LastSwitch(s.log + events, n), first) {
      assert RowTells(s.panel, n, LastSwitch(s.log, n), first);
      LastSwitchStays(s.log, events, n);
    }
  }

  lemma ReplyTells(s: System, reply: Reply, release: int, q: nat, first: map<int, Row>)
    requires Consistent(s) && RowsTell(s, first)
    requires Unchanged(s.panel, reply) || SwitchesOne(s.panel, reply, release, q)
    ensures RowsTell(WithReply(s, reply), first)
  {
    if Unchanged(s.panel, reply) {
      assert s.log + reply.events == s.log;
    } else {
      var b, m := ShapeAt(s, release);
      SwitchTells(s, reply, release, q, first);
    }
  }

  lemma CreateTells(s: System, current: bool, capable: set<int>, candidates: seq<Candidate>, first: map<int, Row>)
    requires Consistent(s) && RowsTell(s, first)
    ensures RowsTell(WithReply(s, CreateTopologyRelease(s.panel, current, capable, candidates)), first)
  {
    var reply := CreateTopologyRelease(s.panel, current, capable, candidates);
    assert s.panel.lastRelease + 1 !in s.panel.releases;
    QuietTells(s, reply.panel, reply.events, first);
  }

  lemma FetchTells(s: System, node: int, first: map<int, Row>)
    requires RowsTell(s, first)
    ensures RowsTell(Fetching(s, node), first)
  {
    var agent := AgentOf(s, node);
    if agent.session.Offered? && !Fenced(agent.stored, agent.session.pending) {
      var fetched := GetAgentDeployment(s.panel, node, agent.session.pending.release, agent.session.pending.phase);
      QuietTells(s, fetched.panel, fetched.events, first);
    }
  }

  lemma StepTells(s: System, step: Step, first: map<int, Row>)
    requires Consistent(s) && RowsTell(s, first)
    ensures RowsTell(Next(s, step), first)
  {
    match step
    case Create(current, capable, candidates) => CreateTells(s, current, capable, candidates, first);
    case Fetch(node) => FetchTells(s, node, first);
    case Deliver(ack) =>
      var q := AcknowledgeSwitches(s.panel, ack);
      ReplyTells(s, Acknowledge(s.panel, ack), ack.release, q, first);
    case AdministratorRollback(release) =>
      var q := AdministratorSwitches(s.panel, release);
      ReplyTells(s, RollbackRelease(s.panel, release), release, q, first);
    case Recover(overdue) => QuietTells(s, RecoverReleases(s.panel, overdue), [Escalated(Overdue(s.panel, overdue), Timeout)], first);
    case AuthorizationChange(managed) =>
      QuietTells(s, InvalidateTopologyAuthorization(s.panel, managed), [Escalated(RunningReleases(s.panel), Authorization)], first);
    case RosterChange(material) =>
      assert s.log + [] == s.log;
      QuietTells(s, s.panel.(material := Reroster(s.panel.material, material)), [], first);
    case _ =>
  }

  lemma {:induction false} RunTells(s: System, steps: seq<Step>)
    requires Started(s)
    ensures RowsTell(Execute(s, steps), s.panel.rows)
  {
    if steps != [] {
      RunTells(s, steps[..|steps| - 1]);
      RunConsistent(s, steps[..|steps| - 1]);
      StepTells(Execute(s, steps[..|steps| - 1]), steps[|steps| - 1], s.panel.rows);
    }
  }

  // ---- The main results ----

  // In every reachable state the row of a node is the one that its last switch wrote: it names the release of that switch
  // and the generation that the release gave to the node, and holds the candidate after a switch forward and the restored
  // topology after a switch back. A node that was never switched has the row of the beginning.
  lemma RowIsLastSwitch(s: System, steps: seq<Step>, node: int)
    requires Started(s)
    ensures var end := Execute(s, steps); RowTells(end.panel, node, LastSwitch(end.log, node), s.panel.rows)
  {
    RunTells(s, steps);
  }

  lemma {:induction false} ForwardSwitches(log: seq<Event>, release: int, node: int)
    requires node in ForwardOf(log, release)
    ensures LastSwitch(log, node).Some?
  {
    if !IsSwitch(log[|log| - 1], node) {
      ForwardSwitches(log[..|log| - 1], release, node);
    }
  }

  // The phase of a node that a release has switched, once the release has ended.
  lemma SwitchedPhase(s: System, release: int, node: int)
    requires Consistent(s) && release in s.panel.releases && node in ForwardOf(s.log, release)
    ensures Has(s.panel, release, node) && NodeOf(s.panel, release, node).phase != Prepare
    ensures s.panel.releases[release].status == RolledBackRelease ==> NodeOf(s.panel, release, node).phase == Rollback
    ensures s.panel.releases[release].status == Succeeded ==> NodeOf(s.panel, release, node).phase == Apply
  {
    var forward, back := ForwardOf(s.log, release), BackOf(s.log, release);
    var r := s.panel.releases[release];
    assert History(r, forward, back);
    var i :| 0 <= i < |forward| && forward[i] == node;
    PositionOf(r.nodes, i);
    assert NodeShape(r.nodes[i], i, |forward| - |back|, |forward|);
  }

  // The row of a node that a release has switched names the release exactly while no other release has switched the node
  // since; and then it holds the restored topology if the release was rolled back, and the candidate if it succeeded.
  lemma RowOfEndedRelease(s: System, steps: seq<Step>, release: int, node: int)
    requires Started(s) && node in ForwardOf(Execute(s, steps).log, release) && release in Execute(s, steps).panel.releases
    ensures var end := Execute(s, steps);
            && Has(end.panel, release, node) && node in end.panel.rows && LastSwitch(end.log, node).Some?
            && (end.panel.rows[node].release == release <==> LastSwitch(end.log, node).value.release == release)
            && (end.panel.rows[node].release == release ==>
                  var candidate := NodeOf(end.panel, release, node).candidate;
                  && (end.panel.releases[release].status == RolledBackRelease ==> end.panel.rows[node].topology == Restored(candidate))
                  && (end.panel.releases[release].status == Succeeded ==> end.panel.rows[node].topology == candidate.topology))
  {
    var end := Execute(s, steps);
    RunConsistent(s, steps);
    RowIsLastSwitch(s, steps, node);
    ForwardSwitches(end.log, release, node);
    SwitchedPhase(end, release, node);
  }

  // ---- The moment of completion ----

  // The release is rolled back by this step.
  ghost predicate Completes(s: System, t: System, release: int) {
    && release in s.panel.releases && s.panel.releases[release].status != RolledBackRelease
    && release in t.panel.releases && t.panel.releases[release].status == RolledBackRelease
  }

  lemma ReplyCompletes(before: Panel, reply: Reply, release: int, q: nat, completed: int)
    requires Unchanged(before, reply) || SwitchesOne(before, reply, release, q)
    requires completed in before.releases && before.releases[completed].status != RolledBackRelease
    requires completed in reply.panel.releases && reply.panel.releases[completed].status == RolledBackRelease
    ensures reply.panel.rows == before.rows
  {
  }

  // The step that completes a rollback switches nobody.
  lemma CompletionKeepsRows(s: System, step: Step, release: int)
    requires Consistent(s) && Completes(s, Next(s, step), release)
    ensures Next(s, step).panel.rows == s.panel.rows
  {
    match step
    case Deliver(ack) =>
      var q := AcknowledgeSwitches(s.panel, ack);
      ReplyCompletes(s.panel, Acknowledge(s.panel, ack), ack.release, q, release);
    case AdministratorRollback(rolled) =>
      var q := AdministratorSwitches(s.panel, rolled);
      ReplyCompletes(s.panel, RollbackRelease(s.panel, rolled), rolled, q, release);
    case _ =>
  }

  ghost predicate RestoredBy(panel: Panel, release: int, node: int)
    requires Has(panel, release, node)
  {
    && node in panel.rows && panel.rows[node].release == release
    && panel.rows[node].topology == Restored(NodeOf(panel, release, node).candidate)
  }

  // At the step at which a release becomes rolled back, in any run, each node that it had switched is restored by it if and
  // only if the tables before the step still show the node's row as the release's own.
  lemma RollbackRestoresExactly(s: System, steps: seq<Step>, step: Step, release: int, node: int)
    requires Started(s) && Completes(Execute(s, steps), Next(Execute(s, steps), step), release)
    requires node in ForwardOf(Next(Execute(s, steps), step).log, release)
    ensures var before, after := Execute(s, steps).panel, Next(Execute(s, steps), step).panel;
            && Has(after, release, node) && node in before.rows
            && (RestoredBy(after, release, node) <==> before.rows[node].release == release)
  {
    RunConsistent(s, steps);
    CompletionKeepsRows(Execute(s, steps), step, release);
    assert (steps + [step])[..|steps|] == steps;
    RowOfEndedRelease(s, steps + [step], release, node);
  }

  // ---- Every write of a row is a switch in the history ----

  // The row was written by this switch: forward with the candidate, back with what the release restores.
  ghost predicate WrittenBy(panel: Panel, e: Event, node: int)
    requires node in panel.rows
  {
    && IsSwitch(e, node) && e.release in panel.releases
    && var nodes := panel.releases[e.release].nodes;
       exists p :: 0 <= p < |nodes| && nodes[p].candidate.node == node
                   && panel.rows[node] == Row(Target(nodes[p], PhaseAfter(e)), e.release, nodes[p].generation)
  }

  ghost predicate RowsFollow(before: Panel, after: Panel, events: seq<Event>) {
    && before.rows.Keys <= after.rows.Keys
    && forall n :: n in after.rows && (n !in before.rows || after.rows[n] != before.rows[n]) ==>
         exists i :: 0 <= i < |events| && WrittenBy(after, events[i], n)
  }

  lemma SwitchFollows(before: Panel, reply: Reply, release: int, q: nat)
    requires Unchanged(before, reply) || SwitchesOne(before, reply, release, q)
    ensures RowsFollow(before, reply.panel, reply.events)
  {
    if !Unchanged(before, reply) && q < |before.releases[release].nodes| {
      var x := reply.panel.releases[release].nodes[q];
      assert WrittenBy(reply.panel, reply.events[|reply.events| - 1], x.candidate.node);
    }
  }

  // The events that a step adds to the history.
  ghost function Added(before: System, after: System): seq<Event>
    requires |before.log| <= |after.log|
  {
    after.log[|before.log|..]
  }

  // Whatever happens, a deployment row changes only by a switch of its node that the history shows, to the topology that
  // the switch stands for, with the release and the generation of that switch.
  lemma RowsChangeOnlyBySwitches(s: System, step: Step)
    ensures s.log <= Next(s, step).log
    ensures RowsFollow(s.panel, Next(s, step).panel, Added(s, Next(s, step)))
  {
    var t := Next(s, step);
    match step
    case Deliver(ack) =>
      var q := AcknowledgeSwitches(s.panel, ack);
      SwitchFollows(s.panel, Acknowledge(s.panel, ack), ack.release, q);
      assert Added(s, t) == Acknowledge(s.panel, ack).events;
    case AdministratorRollback(release) =>
      var q := AdministratorSwitches(s.panel, release);
      SwitchFollows(s.panel, RollbackRelease(s.panel, release), release, q);
      assert Added(s, t) == RollbackRelease(s.panel, release).events;
    case _ =>
  }
}
