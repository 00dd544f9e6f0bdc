/**
  The staged release of a topology over many nodes, as functions of the panel's tables.
  One function is one database transaction: it yields the new tables, or an error and the old ones.
  A release lists its nodes in apply order, so a position in `nodes` is the node's apply order.
*/
module ReleaseModel {
  import opened Common
  import opened Messages

  datatype ReleaseStatus = Preparing | Ready | Applying | Succeeded | FailedRelease | RollingBack | RolledBackRelease | ManualRequired

  // What a preview offers for one node. The expected generation is one more than the previous one.
  datatype Candidate = Candidate(node: int, topology: Topology, previous: Option<Topology>, previousGeneration: int)

  datatype ReleaseNode = ReleaseNode(
    candidate: Candidate, candidateVersion: Version,
    phase: Phase, status: NodeStatus, generation: int, version: Version)

  datatype Release = Release(status: ReleaseStatus, nodes: seq<ReleaseNode>)

  // A deployment row: what a node runs, and the release and generation that put it there.
  datatype Row = Row(topology: Topology, release: int, generation: int)

  // `material` stands for the credential roster: the version that each topology renders to now.
  // A topology without an entry does not render.
  datatype Panel = Panel(
    releases: map<int, Release>, lastRelease: int,
    rows: map<int, Row>, generations: map<int, int>, material: map<Topology, Version>)

  datatype Reason = Timeout | Authorization | Material | RollbackFailed

  // What a transaction did, for the history of a run.
  datatype Event =
    | Acked(ack: Ack)
    | Forward(release: int, node: int)
    | Back(release: int, node: int)
    | Escalated(releases: set<int>, reason: Reason)

  datatype Error = NotFound | Stale | Conflict | Unavailable

  datatype Reply = Reply(panel: Panel, events: seq<Event>, error: Option<Error>)

  function Rejected(panel: Panel, error: Error): Reply { Reply(panel, [], Some(error)) }

  function Accepted(panel: Panel, events: seq<Event>): Reply { Reply(panel, events, None) }

  const LIVE := {Preparing, Ready, Applying, RollingBack, ManualRequired}

  const RUNNING := {Preparing, Ready, Applying, RollingBack}

  function Restored(candidate: Candidate): Topology {
    match candidate.previous
    case Some(topology) => topology
    case None => Direct(candidate.node)
  }

  function Target(n: ReleaseNode, phase: Phase): Topology {
    if phase == Rollback then Restored(n.candidate) else n.candidate.topology
  }

  // The runtime document that a node of a release has to run in a phase, or none if it cannot be rendered.
  function RuntimeDocument(panel: Panel, n: ReleaseNode, phase: Phase): Option<Version> {
    var topology := Target(n, phase);
    if topology in panel.material then Some(panel.material[topology]) else None
  }

  // The position of a node in a release, or the number of nodes if it takes no part.
  function Position(nodes: seq<ReleaseNode>, node: int): (p: nat)
    ensures p <= |nodes|
    ensures p < |nodes| ==> nodes[p].candidate.node == node
    ensures forall i :: 0 <= i < p ==> nodes[i].candidate.node != node
  {
    if nodes == [] then 0
    else if nodes[0].candidate.node == node then 0
    else 1 + Position(nodes[1..], node)
  }

  predicate Has(panel: Panel, release: int, node: int) {
    release in panel.releases && Position(panel.releases[release].nodes, node) < |panel.releases[release].nodes|
  }

  predicate Busy(panel: Panel, node: int) {
    exists r :: r in panel.releases && panel.releases[r].status in LIVE && Has(panel, r, node)
  }

  function SetStatus(panel: Panel, release: int, status: ReleaseStatus): Panel
    requires release in panel.releases
  {
    panel.(releases := panel.releases[release := panel.releases[release].(status := status)])
  }

  function SetNode(panel: Panel, release: int, p: nat, n: ReleaseNode): Panel
    requires release in panel.releases && p < |panel.releases[release].nodes|
  {
    var r := panel.releases[release];
    panel.(releases := panel.releases[release := r.(nodes := r.nodes[p := n])])
  }

  // ---- Creating a release ----

  // The guards on the node of a candidate: known and capable, at the generation of the preview, in no live release.
  function Guard(panel: Panel, capable: set<int>, c: Candidate): Option<Error> {
    if c.node !in panel.generations || c.node !in capable then Some(Conflict)
    else if panel.generations[c.node] != c.previousGeneration then Some(Stale)
    else if Busy(panel, c.node) then Some(Conflict)
    else None
  }

  function FirstRefusal(panel: Panel, capable: set<int>, candidates: seq<Candidate>): (r: Option<Error>)
    ensures r.None? <==> forall i :: 0 <= i < |candidates| ==> Guard(panel, capable, candidates[i]).None?
  {
    if candidates == [] then None
    else if Guard(panel, capable, candidates[0]).Some? then Guard(panel, capable, candidates[0])
    else FirstRefusal(panel, capable, candidates[1..])
  }

  ghost predicate ByNode(candidates: seq<Candidate>) {
    forall i, j :: 0 <= i < j < |candidates| ==> candidates[i].node <= candidates[j].node
  }

  function InsertByNode(c: Candidate, sorted: seq<Candidate>): (r: seq<Candidate>)
    requires ByNode(sorted)
    ensures ByNode(r) && (forall x :: x in r <==> x == c || x in sorted)
  {
    if sorted == [] || c.node < sorted[0].node then [c] + sorted
    else
      var rest := InsertByNode(c, sorted[1..]);
      assert forall i :: 0 <= i < |rest| ==> rest[i] in rest;
      [sorted[0]] + rest
  }

  // The nodes are guarded in the order of their identities.
  function SortedByNode(candidates: seq<Candidate>): (r: seq<Candidate>)
    ensures ByNode(r) && (forall x :: x in r <==> x in candidates)
  {
    if candidates == [] then [] else InsertByNode(candidates[0], SortedByNode(candidates[1..]))
  }

  predicate Repeats(candidates: seq<Candidate>, node: int) {
    exists i :: 0 <= i < |candidates| && candidates[i].node == node
  }

  function NextRefusal(panel: Panel, earlier: seq<Candidate>, c: Candidate): Option<Error> {
    if c.topology !in panel.material then Some(Unavailable) else if Repeats(earlier, c.node) then Some(Conflict) else None
  }

  // The first candidate, in the order of the preview, that does not render or whose node is written already.
  function WriteRefusal(panel: Panel, candidates: seq<Candidate>): (r: Option<Error>)
    ensures r.None? <==> DistinctCandidates(candidates) && forall i :: 0 <= i < |candidates| ==> candidates[i].topology in panel.material
  {
    if candidates == [] then None
    else
      var front, last := candidates[..|candidates| - 1], candidates[|candidates| - 1];
      var earlier := WriteRefusal(panel, front);
      if earlier.Some? then earlier
      else NextRefusal(panel, front, last)
  }

  function FreshNodes(panel: Panel, candidates: seq<Candidate>): (nodes: seq<ReleaseNode>)
    requires forall i :: 0 <= i < |candidates| ==> candidates[i].topology in panel.material
    ensures |nodes| == |candidates|
    ensures forall i :: 0 <= i < |nodes| ==>
      var v := panel.material[candidates[i].topology];
      nodes[i] == ReleaseNode(candidates[i], v, Prepare, Pending, candidates[i].previousGeneration + 1, v)
  {
    if candidates == [] then [] else
      var c := candidates[|candidates| - 1];
      var v := panel.material[c.topology];
      FreshNodes(panel, candidates[..|candidates| - 1]) + [ReleaseNode(c, v, Prepare, Pending, c.previousGeneration + 1, v)]
  }

  ghost predicate DistinctNodes(nodes: seq<ReleaseNode>) {
    forall i, j :: 0 <= i < j < |nodes| ==> nodes[i].candidate.node != nodes[j].candidate.node
  }

  predicate DistinctCandidates(candidates: seq<Candidate>) {
    forall i, j :: 0 <= i < j < |candidates| ==> candidates[i].node != candidates[j].node
  }

  function GenerationIn(nodes: seq<ReleaseNode>, n: int, generation: int): int {
    var p := Position(nodes, n);
    if p < |nodes| then nodes[p].generation else generation
  }

  // The nodes of a new release move to their expected generations.
  function Advanced(generations: map<int, int>, nodes: seq<ReleaseNode>): map<int, int> {
    map n | n in generations :: GenerationIn(nodes, n, generations[n])
  }

  // `current` says that the preview is the current one, unexpired and at the current graph and material revisions.
  function CreationRefusal(panel: Panel, current: bool, capable: set<int>, candidates: seq<Candidate>): (r: Option<Error>)
    ensures r.None? <==>
      && current && DistinctCandidates(candidates)
      && forall i :: 0 <= i < |candidates| ==> Guard(panel, capable, candidates[i]).None? && candidates[i].topology in panel.material
  {
    var sorted := SortedByNode(candidates);
    var guarded := FirstRefusal(panel, capable, sorted);
    assert guarded.None? <==> forall i :: 0 <= i < |candidates| ==> Guard(panel, capable, candidates[i]).None? by {
      assert forall i :: 0 <= i < |candidates| ==> candidates[i] in sorted;
      assert forall i :: 0 <= i < |sorted| ==> sorted[i] in candidates;
    }
    if !current then Some(Stale) else if guarded.Some? then guarded else WriteRefusal(panel, candidates)
  }

  // The tables with a new release of these candidates.
  function Created(panel: Panel, candidates: seq<Candidate>): Panel
    requires forall i :: 0 <= i < |candidates| ==> candidates[i].topology in panel.material
  {
    var id := panel.lastRelease + 1;
    var nodes := FreshNodes(panel, candidates);
    panel.(
      releases := panel.releases[id := Release(Preparing, nodes)], lastRelease := id,
      generations := Advanced(panel.generations, nodes))
  }

  function CreateTopologyRelease(panel: Panel, current: bool, capable: set<int>, candidates: seq<Candidate>): Reply {
    match CreationRefusal(panel, current, capable, candidates)
    case Some(error) => Rejected(panel, error)
    case None => Accepted(Created(panel, candidates), [])
  }

  // ---- Switching nodes ----

  // The first position with a status, or the number of nodes.
  function FirstWith(nodes: seq<ReleaseNode>, status: NodeStatus): (p: nat)
    ensures p <= |nodes|
    ensures p < |nodes| ==> nodes[p].status == status
    ensures forall i :: 0 <= i < p ==> nodes[i].status != status
  {
    if nodes == [] || nodes[0].status == status then 0 else 1 + FirstWith(nodes[1..], status)
  }

  // One past the last position with a status, or zero.
  function PastLastWith(nodes: seq<ReleaseNode>, status: NodeStatus): (p: nat)
    ensures p <= |nodes|
    ensures p > 0 ==> nodes[p - 1].status == status
    ensures forall i :: p <= i < |nodes| ==> nodes[i].status != status
  {
    if nodes == [] then 0
    else if nodes[|nodes| - 1].status == status then |nodes|
    else PastLastWith(nodes[..|nodes| - 1], status)
  }

  // A node becomes the active one of its phase and its deployment row is replaced.
  function Switch(panel: Panel, release: int, p: nat, phase: Phase, generation: int, version: Version): Panel
    requires release in panel.releases && p < |panel.releases[release].nodes|
  {
    var n := panel.releases[release].nodes[p];
    var node := n.candidate.node;
    var switched := SetNode(panel, release, p, n.(phase := phase, status := Active, generation := generation, version := version));
    SetStatus(switched, release, if phase == Rollback then RollingBack else Applying).(
      rows := panel.rows[node := Row(Target(n, phase), release, generation)],
      generations := panel.generations[node := generation])
  }

  function ActivateNext(panel: Panel, release: int, rollback: bool): Reply
    requires release in panel.releases
  {
    var nodes := panel.releases[release].nodes;
    if rollback then
      var p := PastLastWith(nodes, RollbackPending);
      if p == 0 then Accepted(SetStatus(panel, release, RolledBackRelease), [])
      else
        var document := RuntimeDocument(panel, nodes[p - 1], Rollback);
        if document.None? then Rejected(panel, Unavailable)
        else Accepted(Switch(panel, release, p - 1, Rollback, nodes[p - 1].generation + 1, document.value), [Back(release, nodes[p - 1].candidate.node)])
    else
      var p := FirstWith(nodes, Prepared);
      if p == |nodes| then Accepted(SetStatus(panel, release, Succeeded), [])
      else
        var document := RuntimeDocument(panel, nodes[p], Apply);
        if document.None? then Rejected(panel, Unavailable)
        else if document.value != nodes[p].candidateVersion then Rejected(panel, Stale)
        else Accepted(Switch(panel, release, p, Apply, nodes[p].generation, document.value), [Forward(release, nodes[p].candidate.node)])
  }

  function Unwound(n: ReleaseNode): ReleaseNode {
    if n.phase == Apply && n.status in {Active, Applied, Failed} then n.(status := RollbackPending) else n
  }

  function UnwoundNodes(nodes: seq<ReleaseNode>): (r: seq<ReleaseNode>)
    ensures |r| == |nodes|
    ensures forall i :: 0 <= i < |nodes| ==> r[i] == Unwound(nodes[i])
  {
    if nodes == [] then [] else UnwoundNodes(nodes[..|nodes| - 1]) + [Unwound(nodes[|nodes| - 1])]
  }

  function BeginRollback(panel: Panel, release: int): Reply
    requires release in panel.releases
  {
    var r := panel.releases[release];
    ActivateNext(panel.(releases := panel.releases[release := r.(nodes := UnwoundNodes(r.nodes))]), release, true)
  }

  function RollbackRelease(panel: Panel, release: int): Reply {
    if release !in panel.releases then Rejected(panel, NotFound)
    else
      var status := panel.releases[release].status;
      if status in {RollingBack, RolledBackRelease} then Accepted(panel, [])
      else if status !in {FailedRelease, ManualRequired} then Rejected(panel, Conflict)
      else Committed(panel, BeginRollback(panel, release))
  }

  // A transaction that fails leaves the tables as they were.
  function Committed(before: Panel, reply: Reply): Reply {
    if reply.error.None? then reply else Rejected(before, reply.error.value)
  }

  // ---- What an agent asks for and answers ----

  predicate Offers(r: Release, n: ReleaseNode) {
    || (r.status == Preparing && n.phase == Prepare && n.status == Pending)
    || (r.status == Applying && n.phase == Apply && n.status == Active)
    || (r.status == RollingBack && n.phase == Rollback && n.status == Active)
  }

  predicate OffersTo(panel: Panel, release: int, node: int) {
    && Has(panel, release, node)
    && Offers(panel.releases[release], panel.releases[release].nodes[Position(panel.releases[release].nodes, node)])
  }

  // The newest release at or below `bound` that has work for the node now.
  function PendingBelow(panel: Panel, node: int, bound: int): (r: Option<PendingDeployment>)
    ensures r.Some? ==>
      && r.value.release <= bound && Has(panel, r.value.release, node)
      && var release := panel.releases[r.value.release];
         var n := release.nodes[Position(release.nodes, node)];
         Offers(release, n) && r.value.phase == n.phase && r.value.generation == n.generation
    ensures r.Some? ==> 0 < r.value.release && forall q :: r.value.release < q <= bound ==> !OffersTo(panel, q, node)
    ensures r.None? ==> forall q :: 0 < q <= bound ==> !OffersTo(panel, q, node)
    decreases if bound > 0 then bound else 0
  {
    if bound <= 0 then None
    else if OffersTo(panel, bound, node) then
      var n := panel.releases[bound].nodes[Position(panel.releases[bound].nodes, node)];
      Some(PendingDeployment(bound, n.phase, n.generation))
    else PendingBelow(panel, node, bound - 1)
  }

  function PendingFor(panel: Panel, node: int): Option<PendingDeployment> {
    PendingBelow(panel, node, panel.lastRelease)
  }

  function Bump(generations: map<int, int>, nodes: set<int>): map<int, int> {
    map n | n in generations :: if n in nodes then generations[n] + 1 else generations[n]
  }

  // A changed runtime sends the release to an administrator and moves generations past it.
  function Escalate(panel: Panel, release: int, nodes: set<int>): Panel
    requires release in panel.releases
  {
    SetStatus(panel, release, ManualRequired).(generations := Bump(panel.generations, nodes))
  }

  datatype Fetched = Fetched(panel: Panel, events: seq<Event>, document: Result<Document, Error>)

  function GetAgentDeployment(panel: Panel, node: int, release: int, phase: Phase): Fetched {
    if !Has(panel, release, node) then Fetched(panel, [], Err(NotFound))
    else
      var r := panel.releases[release];
      var n := r.nodes[Position(r.nodes, node)];
      if n.phase != phase || n.status !in {Pending, Prepared, Active} || node !in panel.generations then Fetched(panel, [], Err(NotFound))
      else if n.generation != panel.generations[node] then Fetched(panel, [], Err(Stale))
      else if r.status !in RUNNING then Fetched(panel, [], Err(Conflict))
      else
        var document := RuntimeDocument(panel, n, phase);
        if document.None? then Fetched(panel, [], Err(Unavailable))
        else if document.value != n.version then
          Fetched(Escalate(panel, release, {node}), [Escalated({release}, Material)], Err(Stale))
        else Fetched(panel, [], Ok(Document(release, n.generation, phase, document.value)))
  }

  function ReleaseNodes(r: Release): (s: set<int>)
    ensures forall n :: n in s <==> Position(r.nodes, n) < |r.nodes|
  {
    var s := set i | 0 <= i < |r.nodes| :: r.nodes[i].candidate.node;
    assert forall n :: n in s ==> Position(r.nodes, n) < |r.nodes| by {
      forall n | n in s ensures Position(r.nodes, n) < |r.nodes| {
        var i :| 0 <= i < |r.nodes| && r.nodes[i].candidate.node == n;
      }
    }
    s
  }

  predicate AllPrepared(nodes: seq<ReleaseNode>) {
    forall i :: 0 <= i < |nodes| ==> nodes[i].status == Prepared
  }

  function AfterFailure(told: Panel, release: int, phase: Phase): Reply
    requires release in told.releases
  {
    match phase
    case Prepare => Accepted(SetStatus(told, release, FailedRelease), [])
    case Rollback => Accepted(SetStatus(told, release, ManualRequired), [Escalated({release}, RollbackFailed)])
    case Apply => BeginRollback(told, release)
  }

  function AfterSuccess(told: Panel, release: int, phase: Phase): Reply
    requires release in told.releases
  {
    match phase
    case Prepare =>
      if AllPrepared(told.releases[release].nodes) then ActivateNext(SetStatus(told, release, Ready), release, false)
      else Accepted(told, [])
    case Apply => ActivateNext(told, release, false)
    case Rollback => ActivateNext(told, release, true)
  }

  function AfterAnswer(told: Panel, release: int, phase: Phase, status: NodeStatus): Reply
    requires release in told.releases
  {
    if status == Failed then AfterFailure(told, release, phase) else AfterSuccess(told, release, phase)
  }

  // What the acknowledgement of a node does once every guard has passed.
  function Advance(panel: Panel, release: int, p: nat, ack: Ack): Reply
    requires release in panel.releases && p < |panel.releases[release].nodes|
  {
    var n := panel.releases[release].nodes[p];
    AfterAnswer(SetNode(panel, release, p, n.(status := ack.status)), release, n.phase, ack.status)
  }

  function Told(ack: Ack, reply: Reply): Reply {
    reply.(events := [Acked(ack)] + reply.events)
  }

  // Retries and acknowledgements that arrive late are accepted without effect.
  predicate Settles(n: ReleaseNode, ack: Ack) {
    || n.status == ack.status
    || (n.phase == Apply && ack.phase == Prepare && ack.status == Prepared)
    || (n.phase == Rollback && ack.phase == Apply && ack.status == Applied)
  }

  function Acknowledge(panel: Panel, ack: Ack): Reply {
    if !ValidAck(ack) then Rejected(panel, Conflict)
    else if !Has(panel, ack.release, ack.node) then Rejected(panel, NotFound)
    else
      var r := panel.releases[ack.release];
      var p := Position(r.nodes, ack.node);
      var n := r.nodes[p];
      if n.generation != ack.generation then Rejected(panel, Stale)
      else if ack.version != n.version && ack.status != Failed then Rejected(panel, Conflict)
      else if Settles(n, ack) then Accepted(panel, [])
      else if n.phase != ack.phase then Rejected(panel, Conflict)
      else if r.status !in {Preparing, Applying, RollingBack} then Rejected(panel, Conflict)
      else if n.phase != Prepare && n.status != Active then Rejected(panel, Conflict)
      else if ack.node !in panel.generations then Rejected(panel, NotFound)
      else if panel.generations[ack.node] != n.generation then Rejected(panel, Stale)
      else
        var document := RuntimeDocument(panel, n, n.phase);
        if document.None? then Rejected(panel, Unavailable)
        else if document.value != n.version then
          Reply(Escalate(panel, ack.release, ReleaseNodes(r)), [Escalated({ack.release}, Material)], Some(Stale))
        else Committed(panel, Told(ack, Advance(panel, ack.release, p, ack)))
  }

  // ---- Steps that no agent asks for ----

  // A roster change gives topologies other versions, except the empty ones: they have no inbound to attach a credential to.
  function Reroster(material: map<Topology, Version>, changed: map<Topology, Version>): map<Topology, Version> {
    map t | t in material.Keys + changed.Keys && t in (if t.Direct? then material else changed) ::
      if t.Direct? then material[t] else changed[t]
  }

  // `overdue` holds the releases whose time limits have passed.
  function RecoveredStatus(status: ReleaseStatus): ReleaseStatus {
    if status == Preparing then FailedRelease else if status in RUNNING then ManualRequired else status
  }

  function RecoverReleases(panel: Panel, overdue: set<int>): Panel {
    panel.(releases := map r | r in panel.releases ::
      if r in overdue then panel.releases[r].(status := RecoveredStatus(panel.releases[r].status)) else panel.releases[r])
  }

  // A change of users, groups or quotas sends every running release to an administrator, and moves the generations of
  // the managed nodes.
  function InvalidateTopologyAuthorization(panel: Panel, managed: set<int>): Panel {
    panel.(
      releases := map r | r in panel.releases ::
        if panel.releases[r].status in RUNNING then panel.releases[r].(status := ManualRequired) else panel.releases[r],
      generations := Bump(panel.generations, managed))
  }
}
