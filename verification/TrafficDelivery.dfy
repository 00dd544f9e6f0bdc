/**
  The delivery of traffic reports from one agent to the panel. The agent keeps one pending report on disk and sends it
  until the panel confirms it. Crashes, failed writes, lost replies and repeated requests may happen anywhere.
*/
module TrafficDelivery {
  import opened Common
  import opened TrafficBytes
  import opened TrafficSplit
  import opened TrafficTables

  // ---- The agent ----

  // The agent's state file. Epoch 0 stands for the empty epoch of an agent that has never collected.
  datatype Disk = Disk(epoch: int, sequence: int, lastAt: int, uptime: int, counters: map<int, int>, pending: Option<Report>)

  const NEW_DISK := Disk(0, 0, 0, 0, map[], None)

  // What the core's statistics say at one moment, and the samples that they stand for.
  datatype Reading = Reading(counters: map<int, int>, uptime: int, now: int, samples: seq<Sample>)

  function Stored(disk: Disk, name: int): int {
    if name in disk.counters then disk.counters[name] else 0
  }

  // Whole seconds, rounded toward zero.
  function Seconds(duration: int): int {
    if duration >= 0 then duration / SECOND else -(-duration / SECOND)
  }

  // The core has restarted since the last reading, as far as the agent can tell.
  predicate Restarted(disk: Disk, reading: Reading) {
    || disk.epoch == 0
    || reading.uptime < disk.uptime
    || (disk.lastAt != 0 && reading.uptime - disk.uptime < Seconds(reading.now - disk.lastAt) - 5)
    || exists name :: name in reading.counters && reading.counters[name] < Stored(disk, name)
  }

  // The next state file: a new report, under an unused epoch after a restart.
  function Collected(disk: Disk, node: int, reading: Reading, unused: int): Disk {
    var reset := Restarted(disk, reading);
    var epoch := if reset then unused else disk.epoch;
    var sequence := (if reset then 0 else disk.sequence) + 1;
    var from := if reset then reading.now - SECOND else disk.lastAt;
    Disk(epoch, sequence, reading.now, reading.uptime, reading.counters,
      Some(Report(node, epoch, sequence, from, reading.now, !reset, reading.samples)))
  }

  // Some counter is smaller than before.
  method Regressed(disk: Disk, reading: Reading) returns (r: bool)
    ensures r <==> exists name :: name in reading.counters && reading.counters[name] < Stored(disk, name)
  {
    r := false;
    var names := reading.counters.Keys;
    while names != {}
      invariant names <= reading.counters.Keys
      invariant (exists name :: name in reading.counters && reading.counters[name] < Stored(disk, name))
        <==> r || exists name :: name in names && reading.counters[name] < Stored(disk, name)
      decreases |names|
    {
      var name := Pick(names);
      if reading.counters[name] < Stored(disk, name) {
        r := true;
      }
      names := names - {name};
    }
  }

  // What one round leaves on disk, given the fate of its requests and writes.
  function Round(disk: Disk, node: int, confirmedFirst: bool, savedFirst: bool, reading: Option<Reading>, unused: int,
                 savedNew: bool, confirmedNew: bool, savedLast: bool): Disk
  {
    if disk.pending.Some? && (!confirmedFirst || !savedFirst) then disk
    else if reading.None? || !savedNew then disk.(pending := None)
    else
      var collected := Collected(disk.(pending := None), node, reading.value, unused);
      if confirmedNew && savedLast then collected.(pending := None) else collected
  }

  // One round of the agent, with the fate of each request and each write as a parameter.
  class TrafficAgent {
    const node: int
    var disk: Disk

    constructor (node: int)
      ensures this.node == node && disk == NEW_DISK
    {
      this.node, disk := node, NEW_DISK;
    }

    method CollectTraffic(confirmedFirst: bool, savedFirst: bool, reading: Option<Reading>, unused: int, savedNew: bool, confirmedNew: bool, savedLast: bool)
      returns (sent: seq<Report>)
      modifies this
      ensures disk == Round(old(disk), node, confirmedFirst, savedFirst, reading, unused, savedNew, confirmedNew, savedLast)
      ensures var before := old(disk);
              var pending := if before.pending.Some? then [before.pending.value] else [];
              sent == if (before.pending.Some? && (!confirmedFirst || !savedFirst)) || reading.None? || !savedNew then pending
                      else pending + [Collected(before.(pending := None), node, reading.value, unused).pending.value]
    {
      sent := [];
      var state := disk;
      if state.pending.Some? {
        sent := [state.pending.value];
        if !confirmedFirst { return; }
        state := state.(pending := None);
        if !savedFirst { return; }
        disk := state;
      }
      if reading.None? { return; }
      var r := reading.value;
      var reset := state.epoch == 0 || r.uptime < state.uptime
        || (state.lastAt != 0 && r.uptime - state.uptime < Seconds(r.now - state.lastAt) - 5);
      var regressed := Regressed(state, r);
      reset := reset || regressed;
      if reset {
        state := state.(epoch := unused, sequence := 0, lastAt := r.now - SECOND);
      }
      state := state.(sequence := state.sequence + 1);
      var report := Report(node, state.epoch, state.sequence, state.lastAt, r.now, !reset, r.samples);
      state := state.(lastAt := r.now, uptime := r.uptime, counters := r.counters, pending := Some(report));
      if !savedNew { return; }
      disk := state;
      sent := sent + [report];
      if confirmedNew {
        state := state.(pending := None);
        if savedLast {
          disk := state;
        }
      }
    }
  }

  // ---- The agent and the panel together ----

  // `generated` and `accepted` are the history of the agent's reports; `confirmed` is what a running agent remembers.
  datatype System = System(tables: Tables, disk: Disk, confirmed: bool, generated: seq<Report>, accepted: seq<Report>)

  datatype Step =
    | Collect(reading: Reading, unused: int)
    | Send(now: int, catalog: Catalog, replied: bool)
    | Confirm
    | Crash
    | Late(k: nat, now: int, catalog: Catalog)
    | OtherNode(other: int, report: Report, now: int, catalog: Catalog)
    | ResetUsage(user: int, expectedEpoch: int, reason: string)
    | QuotaSet(user: int, expectedRevision: int, limit: int)

  function Arrive(s: System, node: int, report: Report, now: int, catalog: Catalog): System {
    var receipt := Ingest(s.tables, node, report, now, catalog);
    s.(tables := receipt.tables, accepted := if receipt.accepted && !receipt.duplicate then s.accepted + [report] else s.accepted)
  }

  function Next(s: System, node: int, step: Step): System {
    match step
    case Collect(reading, unused) =>
      if s.disk.pending.Some? then s
      else
        var disk := Collected(s.disk, node, reading, unused);
        s.(disk := disk, generated := s.generated + [disk.pending.value])
    case Send(now, catalog, replied) =>
      if s.disk.pending.None? then s
      else
        var arrived := Arrive(s, node, s.disk.pending.value, now, catalog);
        arrived.(confirmed := s.confirmed || (replied && Ingest(s.tables, node, s.disk.pending.value, now, catalog).accepted))
    case Confirm => if s.confirmed then s.(disk := s.disk.(pending := None), confirmed := false) else s
    case Crash => s.(confirmed := false)
    case Late(k, now, catalog) => if k < |s.generated| then Arrive(s, node, s.generated[k], now, catalog) else s
    case OtherNode(other, report, now, catalog) =>
      if other == node then s else s.(tables := Ingest(s.tables, other, report, now, catalog).tables)
    case ResetUsage(user, epoch, reason) => s.(tables := Reset(s.tables, user, epoch, reason).tables)
    case QuotaSet(user, revision, limit) => s.(tables := SetQuota(s.tables, user, revision, limit).tables)
  }

  function Execute(s: System, node: int, steps: seq<Step>): System {
    if steps == [] then s else Next(Execute(s, node, steps[..|steps| - 1]), node, steps[|steps| - 1])
  }

  function Start(users: map<int, User>): System {
    System(Empty(users), NEW_DISK, false, [], [])
  }

  // An unused epoch is a random identifier that was never used before.
  ghost predicate Fresh(s: System, step: Step) {
    step.Collect? ==> step.unused != 0 && forall i :: 0 <= i < |s.generated| ==> s.generated[i].epoch != step.unused
  }

  ghost predicate FreshRun(s: System, node: int, steps: seq<Step>) {
    forall i :: 0 <= i < |steps| ==> Fresh(Execute(s, node, steps[..i]), steps[i])
  }

  // ---- A round as a run ----

  // A request is lost on its way, or the panel answers it and the answer may be lost.
  datatype Request = Lost | Reached(now: int, catalog: Catalog, replied: bool)

  function Attempt(request: Request): seq<Step> {
    match request
    case Lost => []
    case Reached(now, catalog, replied) => [Send(now, catalog, replied)]
  }

  // The agent hears that its pending report was accepted.
  predicate Confirms(s: System, node: int, request: Request) {
    && s.disk.pending.Some? && request.Reached? && request.replied
    && Ingest(s.tables, node, s.disk.pending.value, request.now, request.catalog).accepted
  }

  // After a confirmation the pending report is removed, or the agent's memory of it is lost with a failed write.
  function Settle(confirmed: bool, saved: bool): seq<Step> {
    if !confirmed then [] else if saved then [Confirm] else [Crash]
  }

  lemma {:induction false} ExecuteConcat(s: System, node: int, steps: seq<Step>, more: seq<Step>)
    ensures Execute(s, node, steps + more) == Execute(Execute(s, node, steps), node, more)
    decreases |more|
  {
    if more == [] {
      assert steps + more == steps;
    } else {
      ExecuteConcat(s, node, steps, more[..|more| - 1]);
      assert (steps + more)[..|steps + more| - 1] == steps + more[..|more| - 1];
    }
  }

  lemma OneStep(s: System, node: int, step: Step)
    ensures Execute(s, node, [step]) == Next(s, node, step)
  {
    assert [step][..0] == [];
  }

  // Sending what is pending, and settling it.
  function Delivery(s: System, node: int, request: Request, saved: bool): seq<Step> {
    if s.disk.pending.None? then [] else Attempt(request) + Settle(Confirms(s, node, request), saved)
  }

  lemma Delivered(s: System, node: int, request: Request, saved: bool)
    requires !s.confirmed
    ensures var t := Execute(s, node, Delivery(s, node, request, saved));
            && !t.confirmed && t.generated == s.generated
            && t.disk == if Confirms(s, node, request) && saved then s.disk.(pending := None) else s.disk
  {
    if s.disk.pending.Some? {
      var confirmed := Confirms(s, node, request);
      ExecuteConcat(s, node, Attempt(request), Settle(confirmed, saved));
      var sent := Execute(s, node, Attempt(request));
      if request.Reached? {
        OneStep(s, node, Send(request.now, request.catalog, request.replied));
      }
      assert sent.confirmed == confirmed && sent.disk == s.disk && sent.generated == s.generated;
      if confirmed {
        OneStep(sent, node, if saved then Confirm else Crash);
      }
    }
  }

  // Everything that can happen in one round.
  datatype Fate = Fate(first: Request, savedFirst: bool, reading: Option<Reading>, unused: int, savedNew: bool, second: Request, savedLast: bool)

  // The state in which a new report has been collected, if the round gets that far.
  function Collecting(s: System, node: int, fate: Fate): Option<System> {
    var settled := Execute(s, node, Delivery(s, node, fate.first, fate.savedFirst));
    if settled.disk.pending.Some? || fate.reading.None? || !fate.savedNew then None
    else Some(Next(settled, node, Collect(fate.reading.value, fate.unused)))
  }

  function RoundSteps(s: System, node: int, fate: Fate): seq<Step> {
    var delivery := Delivery(s, node, fate.first, fate.savedFirst);
    match Collecting(s, node, fate)
    case None => delivery
    case Some(collected) =>
      delivery + ([Collect(fate.reading.value, fate.unused)] + Delivery(collected, node, fate.second, fate.savedLast))
  }

  // One round of the agent is a run of the system, whatever happens to its requests and writes: it delivers what is
  // pending, collects, and delivers again. The run leaves the state file of the round, and nothing remembered.
  lemma RoundIsSteps(s: System, node: int, fate: Fate)
    requires !s.confirmed
    ensures var t := Execute(s, node, RoundSteps(s, node, fate));
            var collected := Collecting(s, node, fate);
            && !t.confirmed
            && t.disk == Round(s.disk, node, Confirms(s, node, fate.first), fate.savedFirst, fate.reading, fate.unused, fate.savedNew,
                               collected.Some? && Confirms(collected.value, node, fate.second), fate.savedLast)
  {
    var delivery := Delivery(s, node, fate.first, fate.savedFirst);
    Delivered(s, node, fate.first, fate.savedFirst);
    var collected := Collecting(s, node, fate);
    if collected.Some? {
      var settled := Execute(s, node, delivery);
      var collect := Collect(fate.reading.value, fate.unused);
      var again := Delivery(collected.value, node, fate.second, fate.savedLast);
      ExecuteConcat(s, node, delivery, [collect] + again);
      ExecuteConcat(settled, node, [collect], again);
      OneStep(settled, node, collect);
      assert settled.disk == s.disk.(pending := None);
      Delivered(collected.value, node, fate.second, fate.savedLast);
    }
  }

  // ---- What a report does to the sequence state ----

  lemma {:induction false} BucketsKeepReports(t: Tables, node: int, series: Series, buckets: seq<Bucket>)
    requires WriteBuckets(t, node, series, buckets).Ok?
    ensures var w := WriteBuckets(t, node, series, buckets).value; w.reports == t.reports && w.nodes == t.nodes
  {
    if buckets != [] {
      BucketsKeepReports(t, node, series, buckets[..|buckets| - 1]);
    }
  }

  lemma SampleKeepsReports(t: Tables, report: Report, catalog: Catalog, s: Sample)
    requires ApplySample(t, report, catalog, s).Ok?
    ensures var a := ApplySample(t, report, catalog, s).value; a.reports == t.reports && a.nodes == t.nodes
  {
    var key := CursorKey(report.node, report.epoch, SeriesOf(s));
    if key in t.cursors {
      var from := t.cursors[key];
      var d := Minus(Counter(s), from.counter);
      BucketsKeepReports(t, report.node, SeriesOf(s), Split(from.at, report.end, d.up, d.down).value);
    }
  }

  lemma {:induction false} SamplesKeepReports(t: Tables, report: Report, catalog: Catalog, samples: seq<Sample>)
    requires ApplySamples(t, report, catalog, samples).Ok?
    ensures var a := ApplySamples(t, report, catalog, samples).value; a.reports == t.reports && a.nodes == t.nodes
  {
    if samples != [] {
      var k := |samples| - 1;
      SamplesKeepReports(t, report, catalog, samples[..k]);
      SampleKeepsReports(ApplySamples(t, report, catalog, samples[..k]).value, report, catalog, samples[k]);
    }
  }

  // A report is refused or repeated without effect, or it is noted and becomes the last of its node.
  lemma IngestCases(t: Tables, node: int, report: Report, now: int, catalog: Catalog)
    ensures var receipt := Ingest(t, node, report, now, catalog);
            if receipt.accepted && !receipt.duplicate then
              && report.node == node && ReportKeyOf(report) !in t.reports && InOrder(t, report)
              && receipt.tables.reports == t.reports[ReportKeyOf(report) := Payload(report)]
              && receipt.tables.nodes == t.nodes[node := NodeState(report.epoch, report.sequence)]
            else
              && receipt.tables == t
              && (receipt.accepted ==> ReportKeyOf(report) in t.reports && t.reports[ReportKeyOf(report)] == Payload(report))
  {
    var noted := t.(reports := t.reports[ReportKeyOf(report) := Payload(report)]);
    if ApplySamples(noted, report, catalog, Payload(report).samples).Ok? {
      SamplesKeepReports(noted, report, catalog, Payload(report).samples);
    }
  }

  // ---- The invariant ----

  // The reports of an agent: each continues the epoch of the one before or starts an epoch of its own.
  ghost predicate Chained(generated: seq<Report>, node: int) {
    && (forall i :: 0 <= i < |generated| ==> generated[i].node == node && generated[i].sequence >= 1)
    && (forall i, j :: 0 <= i < j < |generated| ==> Precedes(generated[i], generated[j]))
    && (forall i :: 0 <= i < |generated| ==> Follows(generated, i))
  }

  ghost predicate Precedes(x: Report, y: Report) { x.epoch == y.epoch ==> x.sequence < y.sequence }

  ghost predicate Follows(generated: seq<Report>, i: nat)
    requires i < |generated|
  {
    || (generated[i].sequence == 1 && forall j :: 0 <= j < i ==> generated[j].epoch != generated[i].epoch)
    || (i > 0 && generated[i].epoch == generated[i - 1].epoch && generated[i].sequence == generated[i - 1].sequence + 1)
  }

  // The panel has noted exactly the accepted reports of the node, and its state is that of the last one.
  ghost predicate Noted(t: Tables, node: int, accepted: seq<Report>) {
    && (forall i :: 0 <= i < |accepted| ==> Recorded(t, accepted[i]))
    && (forall key :: key in t.reports && key.node == node ==> exists i :: 0 <= i < |accepted| && ReportKeyOf(accepted[i]) == key)
    && (if accepted == [] then node !in t.nodes
        else node in t.nodes && t.nodes[node] == NodeState(accepted[|accepted| - 1].epoch, accepted[|accepted| - 1].sequence))
  }

  ghost predicate Recorded(t: Tables, r: Report) {
    ReportKeyOf(r) in t.reports && t.reports[ReportKeyOf(r)] == Payload(r)
  }

  ghost predicate OnDisk(disk: Disk, generated: seq<Report>) {
    if generated == [] then disk.epoch == 0 && disk.pending.None?
    else
      var last := generated[|generated| - 1];
      && disk.epoch == last.epoch && disk.epoch != 0 && disk.sequence == last.sequence
      && (disk.pending.Some? ==> disk.pending.value == last)
  }

  // Everything was accepted, or everything but the pending report.
  ghost predicate InFlight(s: System) {
    && (s.confirmed ==> s.disk.pending.Some?)
    && (s.accepted != s.generated ==>
          s.disk.pending.Some? && !s.confirmed && |s.generated| > 0 && s.accepted == s.generated[..|s.generated| - 1])
  }

  ghost predicate Delivering(s: System, node: int) {
    && Chained(s.generated, node) && Noted(s.tables, node, s.accepted) && OnDisk(s.disk, s.generated) && InFlight(s)
  }

  lemma CollectDelivers(s: System, node: int, reading: Reading, unused: int)
    requires Delivering(s, node) && Fresh(s, Collect(reading, unused))
    ensures Delivering(Next(s, node, Collect(reading, unused)), node)
  {
    if s.disk.pending.None? {
      var disk := Collected(s.disk, node, reading, unused);
      var r := disk.pending.value;
      assert s.accepted == s.generated;
      ChainExtends(s.generated, node, s.disk, r, unused);
      var after := Next(s, node, Collect(reading, unused));
      assert after.generated[..|after.generated| - 1] == s.generated;
    }
  }

  lemma ChainExtends(generated: seq<Report>, node: int, disk: Disk, r: Report, unused: int)
    requires Chained(generated, node) && OnDisk(disk, generated) && r.node == node
    requires forall i :: 0 <= i < |generated| ==> generated[i].epoch != unused
    requires (r.epoch == unused && r.sequence == 1) || (disk.epoch != 0 && r.epoch == disk.epoch && r.sequence == disk.sequence + 1)
    ensures Chained(generated + [r], node)
  {
    var more := generated + [r];
    forall i, j | 0 <= i < j < |more| ensures Precedes(more[i], more[j]) {
      if j == |generated| && i < |generated| - 1 {
        assert Precedes(generated[i], generated[|generated| - 1]);
      } else if j < |generated| {
        assert Precedes(generated[i], generated[j]);
      }
    }
    forall i | 0 <= i < |more| ensures Follows(more, i) {
      if i < |generated| { assert Follows(generated, i); }
    }
  }

  lemma SameKeySameReport(generated: seq<Report>, node: int, i: nat, j: nat)
    requires Chained(generated, node) && i < |generated| && j < |generated| && ReportKeyOf(generated[i]) == ReportKeyOf(generated[j])
    ensures i == j
  {
    assert i < j ==> Precedes(generated[i], generated[j]);
    assert j < i ==> Precedes(generated[j], generated[i]);
  }

  // A report of the agent arrives: it was accepted before, or it is the pending one.
  lemma ArrivalDelivers(s: System, node: int, k: nat, now: int, catalog: Catalog)
    requires Delivering(s, node) && k < |s.generated|
    ensures Delivering(Arrive(s, node, s.generated[k], now, catalog), node)
    ensures var receipt := Ingest(s.tables, node, s.generated[k], now, catalog);
            receipt.accepted && k == |s.generated| - 1 ==> Arrive(s, node, s.generated[k], now, catalog).accepted == s.generated
  {
    var r := s.generated[k];
    IngestCases(s.tables, node, r, now, catalog);
    var receipt := Ingest(s.tables, node, r, now, catalog);
    if receipt.accepted && !receipt.duplicate {
      NewIsPending(s, node, k);
      assert s.generated == s.generated[..k] + [r];
      NotedExtends(s.tables, receipt.tables, node, s.accepted, r);
    } else if receipt.accepted && k == |s.generated| - 1 {
      var i :| 0 <= i < |s.accepted| && ReportKeyOf(s.accepted[i]) == ReportKeyOf(r);
      SameKeySameReport(s.generated, node, i, k);
    }
  }

  lemma NewIsPending(s: System, node: int, k: nat)
    requires Delivering(s, node) && k < |s.generated| && ReportKeyOf(s.generated[k]) !in s.tables.reports
    ensures k == |s.generated| - 1 && s.accepted == s.generated[..k] && s.disk.pending.Some?
  {
    assert k < |s.accepted| ==> Recorded(s.tables, s.accepted[k]);
  }

  lemma NotedExtends(before: Tables, after: Tables, node: int, accepted: seq<Report>, r: Report)
    requires Noted(before, node, accepted) && r.node == node && ReportKeyOf(r) !in before.reports
    requires after.reports == before.reports[ReportKeyOf(r) := Payload(r)]
    requires after.nodes == before.nodes[node := NodeState(r.epoch, r.sequence)]
    ensures Noted(after, node, accepted + [r])
  {
    var more := accepted + [r];
    forall i | 0 <= i < |more| ensures Recorded(after, more[i]) {
      if i < |accepted| { assert Recorded(before, accepted[i]); }
    }
    forall key | key in after.reports && key.node == node ensures exists i :: 0 <= i < |more| && ReportKeyOf(more[i]) == key {
      if key in before.reports {
        var i :| 0 <= i < |accepted| && ReportKeyOf(accepted[i]) == key;
        assert more[i] == accepted[i];
      } else {
        assert more[|accepted|] == r;
      }
    }
  }

  // Work for other nodes and on accounts does not touch this node's sequence.
  lemma ElsewhereDelivers(s: System, node: int, after: Tables)
    requires Delivering(s, node)
    requires forall key: ReportKey :: key.node == node ==> (key in after.reports <==> key in s.tables.reports)
    requires forall key: ReportKey :: key.node == node && key in s.tables.reports ==> after.reports[key] == s.tables.reports[key]
    requires node in after.nodes <==> node in s.tables.nodes
    requires node in s.tables.nodes ==> after.nodes[node] == s.tables.nodes[node]
    ensures Delivering(s.(tables := after), node)
  {
    forall i | 0 <= i < |s.accepted| ensures Recorded(after, s.accepted[i]) {
      assert Recorded(s.tables, s.accepted[i]);
      assert s.accepted[i] == s.generated[i];
    }
  }

  lemma OtherNodeDelivers(s: System, node: int, other: int, report: Report, now: int, catalog: Catalog)
    requires Delivering(s, node) && other != node
    ensures Delivering(s.(tables := Ingest(s.tables, other, report, now, catalog).tables), node)
  {
    IngestCases(s.tables, other, report, now, catalog);
    ElsewhereDelivers(s, node, Ingest(s.tables, other, report, now, catalog).tables);
  }

  lemma OthersDeliver(s: System, node: int, step: Step)
    requires Delivering(s, node) && (step.OtherNode? || step.ResetUsage? || step.QuotaSet?)
    ensures Delivering(Next(s, node, step), node)
  {
    match step
    case OtherNode(other, report, now, catalog) => if other != node { OtherNodeDelivers(s, node, other, report, now, catalog); }
    case ResetUsage(user, epoch, reason) => ElsewhereDelivers(s, node, Reset(s.tables, user, epoch, reason).tables);
    case QuotaSet(user, revision, limit) => ElsewhereDelivers(s, node, SetQuota(s.tables, user, revision, limit).tables);
  }

  lemma NextDelivers(s: System, node: int, step: Step)
    requires Delivering(s, node) && Fresh(s, step)
    ensures Delivering(Next(s, node, step), node)
  {
    match step
    case Collect(reading, unused) => CollectDelivers(s, node, reading, unused);
    case Send(now, catalog, replied) => SendDelivers(s, node, now, catalog, replied);
    case Confirm =>
    case Crash =>
    case Late(k, now, catalog) => if k < |s.generated| { ArrivalDelivers(s, node, k, now, catalog); }
    case _ => OthersDeliver(s, node, step);
  }

  lemma SendDelivers(s: System, node: int, now: int, catalog: Catalog, replied: bool)
    requires Delivering(s, node)
    ensures Delivering(Next(s, node, Send(now, catalog, replied)), node)
  {
    if s.disk.pending.Some? { ArrivalDelivers(s, node, |s.generated| - 1, now, catalog); }
  }

  lemma {:induction false} RunDelivers(users: map<int, User>, node: int, steps: seq<Step>)
    requires FreshRun(Start(users), node, steps)
    ensures Delivering(Execute(Start(users), node, steps), node)
  {
    if steps != [] {
      var k := |steps| - 1;
      forall i | 0 <= i < k ensures Fresh(Execute(Start(users), node, steps[..k][..i]), steps[..k][i]) {
        assert steps[..k][..i] == steps[..i];
      }
      RunDelivers(users, node, steps[..k]);
      NextDelivers(Execute(Start(users), node, steps[..k]), node, steps[k]);
    }
  }

  // ---- The promises of the delivery ----

  lemma DistinctKeys(generated: seq<Report>, node: int)
    requires Chained(generated, node)
    ensures forall i, j :: 0 <= i < j < |generated| ==> ReportKeyOf(generated[i]) != ReportKeyOf(generated[j])
  {
    forall i, j | 0 <= i < j < |generated| ensures ReportKeyOf(generated[i]) != ReportKeyOf(generated[j]) {
      assert Precedes(generated[i], generated[j]);
    }
  }

  // The panel has accepted every report that the agent generated, in order and each once, except perhaps the last one
  // while it is still pending.
  lemma DeliveredExactlyOnce(users: map<int, User>, node: int, steps: seq<Step>)
    requires FreshRun(Start(users), node, steps)
    ensures var s := Execute(Start(users), node, steps);
            && (s.accepted == s.generated
                || (|s.generated| > 0 && s.disk.pending == Some(s.generated[|s.generated| - 1]) && s.accepted == s.generated[..|s.generated| - 1]))
            && forall i, j :: 0 <= i < j < |s.generated| ==> ReportKeyOf(s.generated[i]) != ReportKeyOf(s.generated[j])
  {
    RunDelivers(users, node, steps);
    var s := Execute(Start(users), node, steps);
    DistinctKeys(s.generated, node);
  }

  // Once the panel knows the agent's epoch, its last sequence is the agent's, or one less exactly while a pending
  // report is not accepted.
  lemma SequencesAgree(users: map<int, User>, node: int, steps: seq<Step>)
    requires FreshRun(Start(users), node, steps)
    ensures var s := Execute(Start(users), node, steps);
            node in s.tables.nodes && s.tables.nodes[node].epoch == s.disk.epoch ==>
              s.tables.nodes[node].last == if s.accepted == s.generated then s.disk.sequence else s.disk.sequence - 1
    ensures var s := Execute(Start(users), node, steps); s.accepted != s.generated ==> s.disk.pending.Some?
  {
    RunDelivers(users, node, steps);
    var s := Execute(Start(users), node, steps);
    if |s.generated| > 0 {
      assert Follows(s.generated, |s.generated| - 1);
    }
  }

  // A repeated request changes no table.
  lemma RepeatsChangeNothing(users: map<int, User>, node: int, steps: seq<Step>, k: nat, now: int, catalog: Catalog)
    requires FreshRun(Start(users), node, steps) && k < |Execute(Start(users), node, steps).accepted|
    ensures var s := Execute(Start(users), node, steps);
            Ingest(s.tables, node, s.accepted[k], now, catalog).tables == s.tables
  {
    RunDelivers(users, node, steps);
    var s := Execute(Start(users), node, steps);
    assert Recorded(s.tables, s.accepted[k]);
    IngestCases(s.tables, node, s.accepted[k], now, catalog);
  }
}
