/**
  The release tables as the panel updates them. A method is one transaction: it works on the tables row by row, and
  puts the tables of its start back when it fails. Each one is shown to do what its function in ReleaseModel says.
*/
module ReleaseStore {
  import opened Common
  import opened Messages
  import Model = ReleaseModel
  import opened ReleaseModel

  class Store {
    var releases: map<int, Release>
    var lastRelease: int
    var rows: map<int, Row>
    var generations: map<int, int>
    var material: map<Topology, Version>
    ghost var history: seq<Event>

    ghost function State(): Panel
      reads this
    {
      Panel(releases, lastRelease, rows, generations, material)
    }

    // The end of a transaction that a function describes.
    twostate predicate Did(new reply: Reply, new error: Option<Error>)
      reads this
    {
      State() == reply.panel && history == old(history) + reply.events && error == reply.error
    }

    constructor (rows: map<int, Row>, generations: map<int, int>, material: map<Topology, Version>)
      ensures State() == Panel(map[], 0, rows, generations, material) && history == []
    {
      releases, lastRelease := map[], 0;
      this.rows, this.generations, this.material := rows, generations, material;
      history := [];
    }

    method Restore(saved: Panel, ghost before: seq<Event>)
      modifies this
      ensures State() == saved && history == before
    {
      releases, lastRelease := saved.releases, saved.lastRelease;
      rows, generations, material := saved.rows, saved.generations, saved.material;
      history := before;
    }

    method SetReleaseStatus(release: int, status: ReleaseStatus)
      requires release in releases
      modifies this
      ensures State() == SetStatus(old(State()), release, status) && history == old(history)
    {
      releases := releases[release := releases[release].(status := status)];
    }

    method SetReleaseNode(release: int, p: nat, n: ReleaseNode)
      requires release in releases && p < |releases[release].nodes|
      modifies this
      ensures State() == SetNode(old(State()), release, p, n) && history == old(history)
    {
      var r := releases[release];
      releases := releases[release := r.(nodes := r.nodes[p := n])];
    }

    method CreateTopologyRelease(current: bool, capable: set<int>, candidates: seq<Candidate>) returns (error: Option<Error>)
      modifies this
      ensures Did(Model.CreateTopologyRelease(old(State()), current, capable, candidates), error)
    {
      if !current { return Some(Stale); }
      error := CheckCandidates(capable, SortedByNode(candidates));
      if error.Some? { return; }
      var saved := Panel(releases, lastRelease, rows, generations, material);
      AllKnown(saved, capable, candidates);
      error := InsertCandidates(candidates);
      if error.Some? {
        Restore(saved, history);
      }
    }

    method CheckCandidates(capable: set<int>, candidates: seq<Candidate>) returns (error: Option<Error>)
      ensures error == FirstRefusal(State(), capable, candidates)
    {
      var i := 0;
      while i < |candidates|
        invariant i <= |candidates|
        invariant FirstRefusal(State(), capable, candidates) == FirstRefusal(State(), capable, candidates[i..])
      {
        var c := candidates[i];
        assert candidates[i..][1..] == candidates[i + 1..];
        if c.node !in generations || c.node !in capable { return Some(Conflict); }
        if generations[c.node] != c.previousGeneration { return Some(Stale); }
        if Busy(Panel(releases, lastRelease, rows, generations, material), c.node) { return Some(Conflict); }
        i := i + 1;
      }
      return None;
    }

    // A release, its nodes and the generations of its nodes are written one candidate at a time.
    method InsertCandidates(candidates: seq<Candidate>) returns (error: Option<Error>)
      requires forall i :: 0 <= i < |candidates| ==> candidates[i].node in generations
      modifies this
      ensures history == old(history)
      ensures error == WriteRefusal(old(State()), candidates)
      ensures error.None? ==> State() == Created(old(State()), candidates)
    {
      ghost var before := State();
      var id := lastRelease + 1;
      releases, lastRelease := releases[id := Release(Preparing, [])], id;
      assert generations == Advanced(before.generations, []);
      var i := 0;
      while i < |candidates|
        invariant i <= |candidates|
        invariant history == old(history) && id == before.lastRelease + 1
        invariant Insertable(before, candidates[..i]) && State() == Created(before, candidates[..i])
      {
        NextPrefix(candidates, i);
        error := InsertCandidate(id, candidates[i], before, candidates[..i]);
        if error.Some? {
          RefusedNext(before, candidates, i);
          return;
        }
        i := i + 1;
      }
      assert candidates[..i] == candidates;
      error := None;
    }

    method InsertCandidate(id: int, c: Candidate, ghost before: Panel, ghost done: seq<Candidate>) returns (error: Option<Error>)
      requires Insertable(before, done) && State() == Created(before, done)
      requires id == before.lastRelease + 1 && c.node in before.generations
      modifies this
      ensures history == old(history)
      ensures error == NextRefusal(before, done, c)
      ensures error.None? ==> Insertable(before, done + [c]) && State() == Created(before, done + [c])
    {
      RepeatsAt(before, done, c.node);
      if c.topology !in material { return Some(Unavailable); }
      var nodes := releases[id].nodes;
      if Position(nodes, c.node) < |nodes| { return Some(Conflict); }
      var v := material[c.topology];
      var n := ReleaseNode(c, v, Prepare, Pending, c.previousGeneration + 1, v);
      InsertedByOne(before, done, c, n);
      releases := releases[id := Release(Preparing, nodes + [n])];
      generations := generations[c.node := c.previousGeneration + 1];
      return None;
    }

    method PendingDeployment(node: int) returns (pending: Option<PendingDeployment>)
      ensures pending == PendingFor(State(), node)
      ensures pending.Some? ==>
        && OffersTo(State(), pending.value.release, node)
        && forall q :: pending.value.release < q <= lastRelease ==> !OffersTo(State(), q, node)
      ensures pending.None? ==> forall q :: 0 < q <= lastRelease ==> !OffersTo(State(), q, node)
    {
      var release := lastRelease;
      while release > 0
        invariant PendingFor(State(), node) == PendingBelow(State(), node, release)
      {
        if release in releases {
          var nodes := releases[release].nodes;
          var p := Position(nodes, node);
          if p < |nodes| && Offers(releases[release], nodes[p]) {
            return Some(Messages.PendingDeployment(release, nodes[p].phase, nodes[p].generation));
          }
        }
        release := release - 1;
      }
      return None;
    }

    method GetAgentDeployment(node: int, release: int, phase: Phase) returns (document: Result<Document, Error>)
      modifies this
      ensures var fetched := Model.GetAgentDeployment(old(State()), node, release, phase);
              document == fetched.document && State() == fetched.panel && history == old(history) + fetched.events
      // What is handed out is what the release recorded for the node, and what its topology still renders to.
      ensures document.Ok? ==>
        && State() == old(State()) && Has(State(), release, node) && releases[release].status in {Preparing, Ready, Applying, RollingBack}
        && var n := releases[release].nodes[Position(releases[release].nodes, node)];
           && document.value == Document(release, n.generation, phase, n.version) && n.phase == phase
           && RuntimeDocument(State(), n, phase) == Some(n.version) && node in generations && generations[node] == n.generation
      // A changed one stops the release, and the node's generation moves on.
      ensures State() != old(State()) ==>
        && document == Err(Stale) && Has(old(State()), release, node)
        && var n := old(releases)[release].nodes[Position(old(releases)[release].nodes, node)];
           && RuntimeDocument(old(State()), n, phase) !in {None, Some(n.version)}
           && releases == old(releases)[release := old(releases)[release].(status := ManualRequired)]
           && node in old(generations) && generations == old(generations)[node := old(generations)[node] + 1] && rows == old(rows)
    {
      if release !in releases || node !in generations { return Err(NotFound); }
      var p := Position(releases[release].nodes, node);
      if p == |releases[release].nodes| { return Err(NotFound); }
      var n := releases[release].nodes[p];
      if n.phase != phase || n.status !in {Pending, Prepared, Active} { return Err(NotFound); }
      if n.generation != generations[node] { return Err(Stale); }
      if releases[release].status !in RUNNING { return Err(Conflict); }
      var topology := Target(n, phase);
      if topology !in material { return Err(Unavailable); }
      if material[topology] != n.version {
        SetReleaseStatus(release, ManualRequired);
        if generations[node] == n.generation {
          generations := generations[node := generations[node] + 1];
        }
        history := history + [Escalated({release}, Material)];
        assert generations == Bump(old(generations), {node});
        return Err(Stale);
      }
      return Ok(Document(release, n.generation, phase, material[topology]));
    }

    method AcknowledgeAgentDeployment(ack: Ack) returns (error: Option<Error>)
      modifies this
      ensures Did(Model.Acknowledge(old(State()), ack), error)
    {
      if !ValidAck(ack) { return Some(Conflict); }
      if ack.release !in releases { return Some(NotFound); }
      var nodes := releases[ack.release].nodes;
      var p := Position(nodes, ack.node);
      if p == |nodes| { return Some(NotFound); }
      var n := nodes[p];
      if n.generation != ack.generation { return Some(Stale); }
      if ack.version != n.version && ack.status != Failed { return Some(Conflict); }
      if n.status == ack.status { return None; }
      if (n.phase == Apply && ack.phase == Prepare && ack.status == Prepared)
         || (n.phase == Rollback && ack.phase == Apply && ack.status == Applied) {
        return None;
      }
      if n.phase != ack.phase { return Some(Conflict); }
      if releases[ack.release].status !in {Preparing, Applying, RollingBack} { return Some(Conflict); }
      if n.phase != Prepare && n.status != Active { return Some(Conflict); }
      if ack.node !in generations { return Some(NotFound); }
      if generations[ack.node] != n.generation { return Some(Stale); }
      var topology := Target(n, n.phase);
      if topology !in material { return Some(Unavailable); }
      if material[topology] != n.version {
        MaterialChanged(ack.release);
        return Some(Stale);
      }
      error := Record(ack, p);
    }

    method MaterialChanged(release: int)
      requires release in releases
      modifies this
      ensures State() == Escalate(old(State()), release, ReleaseNodes(old(releases[release])))
      ensures history == old(history) + [Escalated({release}, Material)]
    {
      SetReleaseStatus(release, ManualRequired);
      generations := Bump(generations, ReleaseNodes(releases[release]));
      history := history + [Escalated({release}, Material)];
    }

    // The acknowledgement has passed its guards: the node takes its status and the release moves on.
    method Record(ack: Ack, p: nat) returns (error: Option<Error>)
      requires ack.release in releases && p < |releases[ack.release].nodes|
      modifies this
      ensures Did(Committed(old(State()), Told(ack, Advance(old(State()), ack.release, p, ack))), error)
    {
      var saved := Panel(releases, lastRelease, rows, generations, material);
      ghost var before := history;
      error := Write(ack, p);
      Finish(saved, error, before, Told(ack, Advance(saved, ack.release, p, ack)));
    }

    method Write(ack: Ack, p: nat) returns (error: Option<Error>)
      requires ack.release in releases && p < |releases[ack.release].nodes|
      modifies this
      ensures var reply := Told(ack, Advance(old(State()), ack.release, p, ack));
              error == reply.error && (error.None? ==> State() == reply.panel && history == old(history) + reply.events)
    {
      var n := releases[ack.release].nodes[p];
      SetReleaseNode(ack.release, p, n.(status := ack.status));
      ghost var advanced := AfterAnswer(State(), ack.release, n.phase, ack.status);
      assert history + ([Acked(ack)] + advanced.events) == history + [Acked(ack)] + advanced.events;
      history := history + [Acked(ack)];
      error := Answered(ack.release, n.phase, ack.status);
    }

    // The end of a transaction: an error puts the tables back.
    method Finish(saved: Panel, error: Option<Error>, ghost before: seq<Event>, ghost reply: Reply)
      requires error == reply.error && (error.None? ==> State() == reply.panel && history == before + reply.events)
      modifies this
      ensures State() == Committed(saved, reply).panel && history == before + Committed(saved, reply).events
      ensures error == Committed(saved, reply).error
    {
      if error.Some? {
        Restore(saved, before);
      }
    }

    method Answered(release: int, phase: Phase, status: NodeStatus) returns (error: Option<Error>)
      requires release in releases
      modifies this
      ensures var reply := AfterAnswer(old(State()), release, phase, status);
              error == reply.error && (error.None? ==> State() == reply.panel && history == old(history) + reply.events)
    {
      if status == Failed {
        error := FailNode(release, phase);
      } else {
        error := MoveOn(release, phase);
      }
    }

    method FailNode(release: int, phase: Phase) returns (error: Option<Error>)
      requires release in releases
      modifies this
      ensures var reply := AfterFailure(old(State()), release, phase);
              error == reply.error && (error.None? ==> State() == reply.panel && history == old(history) + reply.events)
    {
      error := None;
      match phase {
        case Prepare => SetReleaseStatus(release, FailedRelease);
        case Rollback =>
          SetReleaseStatus(release, ManualRequired);
          history := history + [Escalated({release}, RollbackFailed)];
        case Apply => error := BeginRollback(release);
      }
    }

    method MoveOn(release: int, phase: Phase) returns (error: Option<Error>)
      requires release in releases
      modifies this
      ensures var reply := AfterSuccess(old(State()), release, phase);
              error == reply.error && (error.None? ==> State() == reply.panel && history == old(history) + reply.events)
    {
      if phase != Prepare {
        error := ActivateNext(release, phase == Rollback);
      } else if AllPrepared(releases[release].nodes) {
        SetReleaseStatus(release, Ready);
        error := ActivateNext(release, false);
      } else {
        error := None;
      }
    }

    // Part of a transaction: after an error the caller puts the tables back.
    method ActivateNext(release: int, rollback: bool) returns (error: Option<Error>)
      requires release in releases
      modifies this
      ensures Did(Model.ActivateNext(old(State()), release, rollback), error)
    {
      var nodes := releases[release].nodes;
      var p := FirstWith(nodes, Prepared);
      if rollback {
        var past := PastLastWith(nodes, RollbackPending);
        p := if past == 0 then |nodes| else past - 1;
      }
      if p == |nodes| {
        SetReleaseStatus(release, if rollback then RolledBackRelease else Succeeded);
        return None;
      }
      var n := nodes[p];
      var generation := if rollback then n.generation + 1 else n.generation;
      var phase := if rollback then Rollback else Apply;
      var topology := Target(n, phase);
      if topology !in material { return Some(Unavailable); }
      if !rollback && material[topology] != n.candidateVersion { return Some(Stale); }
      var node := n.candidate.node;
      rows := rows[node := Row(topology, release, generation)];
      generations := generations[node := generation];
      SetReleaseNode(release, p, n.(phase := phase, status := Active, generation := generation, version := material[topology]));
      SetReleaseStatus(release, if rollback then RollingBack else Applying);
      history := history + [if rollback then Back(release, node) else Forward(release, node)];
      return None;
    }

    method BeginRollback(release: int) returns (error: Option<Error>)
      requires release in releases
      modifies this
      ensures var reply := Model.BeginRollback(old(State()), release);
              error == reply.error && (error.None? ==> State() == reply.panel && history == old(history) + reply.events)
    {
      var r := releases[release];
      releases := releases[release := r.(nodes := UnwoundNodes(r.nodes))];
      error := ActivateNext(release, true);
    }

    method RollbackRelease(release: int) returns (error: Option<Error>)
      modifies this
      ensures Did(Model.RollbackRelease(old(State()), release), error)
    {
      if release !in releases { return Some(NotFound); }
      var status := releases[release].status;
      if status in {RollingBack, RolledBackRelease} { return None; }
      if status !in {FailedRelease, ManualRequired} { return Some(Conflict); }
      var saved := Panel(releases, lastRelease, rows, generations, material);
      ghost var before := history;
      error := BeginRollback(release);
      Finish(saved, error, before, Model.BeginRollback(saved, release));
    }

    // No overdue release stays running, and none of them has work for an agent.
    method RecoverReleases(overdue: set<int>)
      modifies this
      ensures State() == Model.RecoverReleases(old(State()), overdue)
      ensures releases.Keys == old(releases).Keys && forall r :: r in releases ==>
        var status := old(releases)[r].status;
        releases[r] == if r !in overdue || status !in {Preparing, Ready, Applying, RollingBack} then old(releases)[r]
                       else old(releases)[r].(status := if status == Preparing then FailedRelease else ManualRequired)
      ensures rows == old(rows) && generations == old(generations)
      ensures forall r :: r in releases && r in overdue ==> releases[r].status !in RUNNING
      ensures forall node :: PendingFor(State(), node).Some? ==> PendingFor(State(), node).value.release !in overdue
    {
      releases := map r | r in releases ::
        if r in overdue then releases[r].(status := RecoveredStatus(releases[r].status)) else releases[r];
    }

    // Nothing stays running, no agent has work, and a document that a managed node was given before is out of date.
    method InvalidateTopologyAuthorization(managed: set<int>)
      modifies this
      ensures State() == Model.InvalidateTopologyAuthorization(old(State()), managed)
      ensures releases.Keys == old(releases).Keys && forall r :: r in releases ==>
        releases[r] == if old(releases)[r].status in {Preparing, Ready, Applying, RollingBack} then old(releases)[r].(status := ManualRequired)
                       else old(releases)[r]
      ensures forall r :: r in releases ==> releases[r].status !in RUNNING
      ensures forall node :: PendingFor(State(), node).None?
      ensures rows == old(rows) && generations.Keys == old(generations).Keys
      ensures forall node :: node in old(generations) ==> generations[node] == old(generations)[node] + if node in managed then 1 else 0
    {
      releases := map r | r in releases ::
        if releases[r].status in RUNNING then releases[r].(status := ManualRequired) else releases[r];
      generations := Bump(generations, managed);
    }
  }

  // ---- Inserting candidates one by one ----

  ghost predicate AllRender(panel: Panel, candidates: seq<Candidate>) {
    forall i :: 0 <= i < |candidates| ==> candidates[i].topology in panel.material
  }

  // Every candidate that passes its guards has a known node.
  lemma AllKnown(panel: Panel, capable: set<int>, candidates: seq<Candidate>)
    requires FirstRefusal(panel, capable, SortedByNode(candidates)).None?
    ensures forall i :: 0 <= i < |candidates| ==> candidates[i].node in panel.generations
  {
    var sorted := SortedByNode(candidates);
    forall i | 0 <= i < |candidates| ensures candidates[i].node in panel.generations {
      assert candidates[i] in sorted;
      var k :| 0 <= k < |sorted| && sorted[k] == candidates[i];
      assert Guard(panel, capable, sorted[k]).None?;
    }
  }

  lemma {:induction false} RefusedAt(panel: Panel, candidates: seq<Candidate>, i: nat)
    requires i <= |candidates| && WriteRefusal(panel, candidates[..i]).Some?
    ensures WriteRefusal(panel, candidates) == WriteRefusal(panel, candidates[..i])
    decreases |candidates|
  {
    if i == |candidates| {
      assert candidates[..i] == candidates;
    } else {
      var front := candidates[..|candidates| - 1];
      assert front[..i] == candidates[..i];
      RefusedAt(panel, front, i);
    }
  }

  lemma NextPrefix(candidates: seq<Candidate>, i: nat)
    requires i < |candidates|
    ensures candidates[..i + 1] == candidates[..i] + [candidates[i]]
  {
  }

  lemma RefusedNext(panel: Panel, candidates: seq<Candidate>, i: nat)
    requires i < |candidates| && Insertable(panel, candidates[..i]) && NextRefusal(panel, candidates[..i], candidates[i]).Some?
    ensures WriteRefusal(panel, candidates) == NextRefusal(panel, candidates[..i], candidates[i])
  {
    assert candidates[..i + 1][..i] == candidates[..i];
    RefusedAt(panel, candidates, i + 1);
  }

  ghost predicate Insertable(panel: Panel, candidates: seq<Candidate>) {
    DistinctCandidates(candidates) && AllRender(panel, candidates)
  }

  // A node is written already exactly when an earlier candidate names it.
  lemma RepeatsAt(panel: Panel, candidates: seq<Candidate>, node: int)
    requires AllRender(panel, candidates)
    ensures var nodes := FreshNodes(panel, candidates); Repeats(candidates, node) <==> Position(nodes, node) < |nodes|
  {
    var nodes := FreshNodes(panel, candidates);
    assert forall i :: 0 <= i < |candidates| ==> nodes[i].candidate == candidates[i];
  }

  lemma DistinctExtends(panel: Panel, candidates: seq<Candidate>, c: Candidate)
    requires AllRender(panel, candidates) && DistinctCandidates(candidates)
    requires var nodes := FreshNodes(panel, candidates); Position(nodes, c.node) == |nodes|
    ensures DistinctCandidates(candidates + [c])
  {
    var nodes := FreshNodes(panel, candidates);
    forall j | 0 <= j < |candidates| ensures candidates[j].node != c.node {
      assert nodes[j].candidate == candidates[j];
    }
  }

  lemma FreshByOne(panel: Panel, candidates: seq<Candidate>, c: Candidate, last: ReleaseNode)
    requires AllRender(panel, candidates) && c.topology in panel.material
    requires var v := panel.material[c.topology]; last == ReleaseNode(c, v, Prepare, Pending, c.previousGeneration + 1, v)
    ensures AllRender(panel, candidates + [c])
    ensures FreshNodes(panel, candidates + [c]) == FreshNodes(panel, candidates) + [last]
  {
    assert (candidates + [c])[..|candidates|] == candidates;
  }

  ghost function WithNode(panel: Panel, release: Release, node: int, generation: int): Panel {
    panel.(releases := panel.releases[panel.lastRelease := release], generations := panel.generations[node := generation])
  }

  lemma LastWriteWins<K, V>(m: map<K, V>, k: K, x: V, y: V)
    ensures m[k := x][k := y] == m[k := y]
  {
  }

  // Inserting one more candidate moves the generation of its node, and of no other.
  lemma InsertedByOne(panel: Panel, candidates: seq<Candidate>, c: Candidate, last: ReleaseNode)
    requires Insertable(panel, candidates) && c.topology in panel.material && c.node in panel.generations
    requires var nodes := FreshNodes(panel, candidates); Position(nodes, c.node) == |nodes|
    requires var v := panel.material[c.topology]; last == ReleaseNode(c, v, Prepare, Pending, c.previousGeneration + 1, v)
    ensures Insertable(panel, candidates + [c])
    ensures Created(panel, candidates + [c])
         == WithNode(Created(panel, candidates), Release(Preparing, FreshNodes(panel, candidates) + [last]), c.node, last.generation)
  {
    DistinctExtends(panel, candidates, c);
    FreshByOne(panel, candidates, c, last);
    LastWriteWins(panel.releases, panel.lastRelease + 1, Release(Preparing, FreshNodes(panel, candidates)),
      Release(Preparing, FreshNodes(panel, candidates) + [last]));
    AdvancedByOne(panel.generations, FreshNodes(panel, candidates), last, FreshNodes(panel, candidates + [c]));
  }

  lemma AdvancedByOne(generations: map<int, int>, nodes: seq<ReleaseNode>, last: ReleaseNode, all: seq<ReleaseNode>)
    requires all == nodes + [last]
    requires Position(nodes, last.candidate.node) == |nodes| && last.candidate.node in generations
    ensures Advanced(generations, all) == Advanced(generations, nodes)[last.candidate.node := last.generation]
  {
    forall n | n in generations
      ensures GenerationIn(all, n, generations[n])
           == if n == last.candidate.node then last.generation else GenerationIn(nodes, n, generations[n])
    {
      AdvancedAt(nodes, last, n, generations[n]);
    }
  }

  lemma AdvancedAt(nodes: seq<ReleaseNode>, last: ReleaseNode, n: int, generation: int)
    requires Position(nodes, last.candidate.node) == |nodes|
    ensures GenerationIn(nodes + [last], n, generation)
         == if n == last.candidate.node then last.generation else GenerationIn(nodes, n, generation)
  {
    PositionInPrefix(nodes, last, n);
    var p := Position(nodes, n);
    assert p < |nodes| ==> (nodes + [last])[p] == nodes[p];
    assert (nodes + [last])[|nodes|] == last;
  }

  lemma PositionInPrefix(nodes: seq<ReleaseNode>, last: ReleaseNode, n: int)
    ensures Position(nodes + [last], n)
         == if Position(nodes, n) < |nodes| then Position(nodes, n) else if last.candidate.node == n then |nodes| else |nodes| + 1
  {
    var all := nodes + [last];
    var p, q := Position(all, n), Position(nodes, n);
    assert forall i :: 0 <= i < |nodes| ==> all[i] == nodes[i];
    assert all[|nodes|] == last;
    if q < |nodes| {
      assert all[q] == nodes[q];
    }
  }
}
