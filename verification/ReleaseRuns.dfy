/**
  Safety of every run, whatever acknowledgements arrive: nodes switch to their candidates only in apply order and
  after everybody has prepared, and they switch back in exactly the reverse order.
*/
module ReleaseRuns {
  import opened Common
  import opened ReleaseModel
  import opened ReleaseShape
  import opened ReleaseSystem
  import opened ReleaseHistory

  // ---- Shape and history agree ----

  ghost predicate Agree(releases: map<int, Release>, last: int, log: seq<Event>) {
    && (forall r :: r in releases ==>
          0 < r <= last && History(releases[r], ForwardOf(log, r), BackOf(log, r)))
    && (forall r :: r !in releases ==> Unheard(log, r))
    && last >= 0
  }

  // No event is about this release.
  ghost predicate Unheard(log: seq<Event>, release: int) {
    ForwardOf(log, release) == [] && BackOf(log, release) == [] && AckCount(log, release) == 0
  }

  ghost predicate Consistent(s: System) {
    Agree(s.panel.releases, s.panel.lastRelease, s.log)
  }

  lemma {:induction false} Foreign(events: seq<Event>, release: int, other: int)
    requires release != other
    requires forall e :: e in events ==>
      (e.Acked? ==> e.ack.release == release) && (e.Forward? || e.Back? ==> e.release == release)
    ensures ForwardOf(events, other) == [] && BackOf(events, other) == [] && AckCount(events, other) == 0
  {
    if events != [] {
      assert events[|events| - 1] in events;
      Foreign(events[..|events| - 1], release, other);
    }
  }

  lemma ReplyConsistent(s: System, reply: Reply, release: int)
    requires Consistent(s) && KeepsHistory(s.panel, reply, release)
    ensures Consistent(WithReply(s, reply))
  {
    var s' := WithReply(s, reply);
    forall r | r in s'.panel.releases
      ensures 0 < r <= s'.panel.lastRelease && History(s'.panel.releases[r], ForwardOf(s'.log, r), BackOf(s'.log, r))
    {
      HistoryConcat(s.log, reply.events, r);
      if r != release {
        Foreign(reply.events, release, r);
        assert ForwardOf(s.log, r) + [] == ForwardOf(s.log, r) && BackOf(s.log, r) + [] == BackOf(s.log, r);
      }
    }
    forall r | r !in s'.panel.releases ensures Unheard(s'.log, r) {
      assert Unheard(s.log, r);
      HistoryConcat(s.log, reply.events, r);
      Foreign(reply.events, release, r);
    }
  }

  // A sweep over many releases only moves running ones out of the protocol's reach.
  ghost predicate Swept(before: Release, after: Release) {
    && after.nodes == before.nodes
    && (|| after.status == before.status
        || (before.status in RUNNING && after.status == ManualRequired)
        || (before.status == Preparing && after.status == FailedRelease))
  }

  ghost predicate Sweeps(before: Panel, after: Panel) {
    && before.releases.Keys == after.releases.Keys && before.lastRelease == after.lastRelease
    && forall r :: r in before.releases ==> Swept(before.releases[r], after.releases[r])
  }

  lemma SweptShape(before: Release, after: Release, b: nat, m: nat)
    requires Swept(before, after) && Shape(before, b, m)
    ensures Shape(after, b, m)
  {
  }

  lemma SweepConsistent(s: System, after: Panel, e: Event)
    requires Consistent(s) && Sweeps(s.panel, after) && e.Escalated?
    ensures Consistent(s.(panel := after, log := s.log + [e]))
  {
    var log := s.log + [e];
    forall r | r in after.releases ensures History(after.releases[r], ForwardOf(log, r), BackOf(log, r)) {
      HistoryConcat(s.log, [e], r);
      OneEvent(e, r);
      assert History(s.panel.releases[r], ForwardOf(s.log, r), BackOf(s.log, r));
      SweptShape(s.panel.releases[r], after.releases[r], |ForwardOf(log, r)| - |BackOf(log, r)|, |ForwardOf(log, r)|);
    }
    forall r | r !in after.releases ensures Unheard(log, r) {
      HistoryConcat(s.log, [e], r);
      OneEvent(e, r);
      assert Unheard(s.log, r);
    }
  }

  lemma AgreeNew(releases: map<int, Release>, last: int, log: seq<Event>, created: Release)
    requires Agree(releases, last, log) && History(created, [], [])
    ensures Agree(releases[last + 1 := created], last + 1, log)
  {
    assert last + 1 !in releases;
    assert Unheard(log, last + 1);
  }

  lemma NewHistory(panel: Panel, candidates: seq<Candidate>)
    requires DistinctCandidates(candidates) && forall i :: 0 <= i < |candidates| ==> candidates[i].topology in panel.material
    ensures History(Release(Preparing, FreshNodes(panel, candidates)), [], [])
  {
    var nodes := FreshNodes(panel, candidates);
    forall i | 0 <= i < |nodes| ensures NodeShape(nodes[i], i, 0, 0) {}
  }

  lemma CreateConsistent(s: System, current: bool, capable: set<int>, candidates: seq<Candidate>)
    requires Consistent(s)
    ensures Consistent(WithReply(s, CreateTopologyRelease(s.panel, current, capable, candidates)))
  {
    var reply := CreateTopologyRelease(s.panel, current, capable, candidates);
    assert s.log + reply.events == s.log;
    if reply.error.None? {
      NewHistory(s.panel, candidates);
      AgreeNew(s.panel.releases, s.panel.lastRelease, s.log, Release(Preparing, FreshNodes(s.panel, candidates)));
    }
  }

  lemma EffectConsistent(s: System, reply: Reply, release: int)
    requires Consistent(s) && ((reply.panel == s.panel && reply.events == []) || KeepsHistory(s.panel, reply, release))
    ensures Consistent(WithReply(s, reply))
  {
    if reply.panel == s.panel && reply.events == [] {
      assert s.log + reply.events == s.log;
    } else {
      ReplyConsistent(s, reply, release);
    }
  }

  lemma NextConsistent(s: System, step: Step)
    requires Consistent(s)
    ensures Consistent(Next(s, step))
  {
    match step
    case Create(current, capable, candidates) => CreateConsistent(s, current, capable, candidates);
    case Heartbeat(node) =>
    case Fetch(node) => FetchingConsistent(s, node);
    case Act(node, outcome) =>
    case Deliver(ack) =>
      AcknowledgeKeepsHistory(s.panel, ack);
      EffectConsistent(s, Acknowledge(s.panel, ack), ack.release);
    case Recover(overdue) => SweepConsistent(s, RecoverReleases(s.panel, overdue), Escalated(Overdue(s.panel, overdue), Timeout));
    case AdministratorRollback(release) =>
      RollbackKeepsHistory(s.panel, release);
      EffectConsistent(s, RollbackRelease(s.panel, release), release);
    case AuthorizationChange(managed) =>
      SweepConsistent(s, InvalidateTopologyAuthorization(s.panel, managed), Escalated(RunningReleases(s.panel), Authorization));
    case RosterChange(material) =>
  }

  lemma FetchingConsistent(s: System, node: int)
    requires Consistent(s)
    ensures Consistent(Fetching(s, node))
  {
    var agent := AgentOf(s, node);
    if agent.session.Offered? && !Fenced(agent.stored, agent.session.pending) {
      var pending := agent.session.pending;
      FetchKeepsHistory(s.panel, node, pending.release, pending.phase);
      var fetched := GetAgentDeployment(s.panel, node, pending.release, pending.phase);
      EffectConsistent(s, Reply(fetched.panel, fetched.events, None), pending.release);
    }
  }

  lemma {:induction false} RunConsistent(s: System, steps: seq<Step>)
    requires Started(s)
    ensures Consistent(Execute(s, steps))
  {
    if steps != [] {
      RunConsistent(s, steps[..|steps| - 1]);
      NextConsistent(Execute(s, steps[..|steps| - 1]), steps[|steps| - 1]);
    }
  }

  // ---- Rollback order ----

  // In every reachable state the nodes that a release switched back are the last ones it had switched, newest first;
  // once it is rolled back they are all of them, in exactly the reverse order.
  lemma RollbackReversesApply(s: System, steps: seq<Step>, release: int)
    requires Started(s) && release in Execute(s, steps).panel.releases
    ensures var end := Execute(s, steps);
            var nodes := end.panel.releases[release].nodes;
            var forward, back := ForwardOf(end.log, release), BackOf(end.log, release);
            && |back| <= |forward| <= |nodes|
            && (forall i :: 0 <= i < |forward| ==> forward[i] == nodes[i].candidate.node)
            && back == Reverse(forward)[..|back|]
            && (end.panel.releases[release].status == RolledBackRelease ==> back == Reverse(forward))
            && (end.panel.releases[release].status == Succeeded ==> |forward| == |nodes| && back == [])
  {
    RunConsistent(s, steps);
    var end := Execute(s, steps);
    var forward, back := ForwardOf(end.log, release), BackOf(end.log, release);
    assert History(end.panel.releases[release], forward, back);
    assert back == Reverse(forward)[..|back|];
  }
}
