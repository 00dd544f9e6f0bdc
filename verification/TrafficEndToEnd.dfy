/**
  The agent and a panel that cleans up reports and cursors, together: exactly-once delivery, and the only way to lose it.
*/
module TrafficEndToEnd {
  import opened Common
  import opened TrafficSplit
  import opened TrafficTables
  import D = TrafficDelivery
  import opened TrafficRetention

  // `generated` and `accepted` are the history of the agent's reports; `confirmed` is what a running agent remembers.
  datatype System = System(panel: Panel, disk: D.Disk, confirmed: bool, generated: seq<Report>, accepted: seq<Report>)

  // `Elsewhere` is anything that happens at the panel but the arrival of a report of this agent's node.
  datatype Step =
    | Collect(reading: D.Reading, unused: int)
    | Send(catalog: Catalog, replied: bool)
    | Confirm
    | Crash
    | Late(k: nat, catalog: Catalog)
    | Elsewhere(action: Action)

  function Arrive(s: System, report: Report, catalog: Catalog): System {
    s.(panel := Received(s.panel, report.node, report, catalog),
       accepted := if IsNew(s.panel, report, catalog) then s.accepted + [report] else s.accepted)
  }

  predicate Heard(s: System, report: Report, catalog: Catalog) {
    Ingest(s.panel.tables, report.node, report, s.panel.now, catalog).accepted
  }

  function Next(s: System, node: int, step: Step): System {
    match step
    case Collect(reading, unused) =>
      if s.disk.pending.Some? then s
      else
        var disk := D.Collected(s.disk, node, reading, unused);
        s.(disk := disk, generated := s.generated + [disk.pending.value])
    case Send(catalog, replied) =>
      if s.disk.pending.None? then s
      else Arrive(s, s.disk.pending.value, catalog).(confirmed := s.confirmed || (replied && Heard(s, s.disk.pending.value, catalog)))
    case Confirm => if s.confirmed then s.(disk := s.disk.(pending := None), confirmed := false) else s
    case Crash => s.(confirmed := false)
    case Late(k, catalog) => if k < |s.generated| then Arrive(s, s.generated[k], catalog) else s
    case Elsewhere(action) => if action.Arrives? && action.node == node then s else s.(panel := Proceed(s.panel, action))
  }

  function Execute(s: System, node: int, steps: seq<Step>): System {
    if steps == [] then s else Next(Execute(s, node, steps[..|steps| - 1]), node, steps[|steps| - 1])
  }

  function Start(users: map<int, User>, now: int): System {
    System(Opened(users, now), D.NEW_DISK, false, [], [])
  }

  // An unused epoch is a random identifier that was never used before.
  ghost predicate Fresh(s: System, step: Step) {
    step.Collect? ==> step.unused != 0 && forall i :: 0 <= i < |s.generated| ==> s.generated[i].epoch != step.unused
  }

  ghost predicate FreshRun(s: System, node: int, steps: seq<Step>) {
    steps != [] ==>
      FreshRun(s, node, steps[..|steps| - 1]) && Fresh(Execute(s, node, steps[..|steps| - 1]), steps[|steps| - 1])
  }

  // Every report was accepted, in order and once, except perhaps the last one while it is still pending.
  ghost predicate Once(s: System) {
    || s.accepted == s.generated
    || (|s.generated| > 0 && s.disk.pending == Some(s.generated[|s.generated| - 1]) && s.accepted == s.generated[..|s.generated| - 1])
  }

  // A request from long ago arrives again: its report is without samples, was the first of an epoch that is neither active
  // nor noted any more, and is still legal by age.
  predicate Relapses(s: System, node: int, step: Step) {
    && step.Late? && step.k < |s.accepted| && step.k < |s.generated|
    && var r := s.generated[step.k];
       && r.samples == [] && r.sequence == 1 && r.start >= s.panel.now - WEEK
       && node in s.panel.tables.nodes && s.panel.tables.nodes[node].epoch != r.epoch
       && !Retired(s.panel.tables, node, r.epoch)
  }

  // ---- The invariant ----

  ghost predicate WasReceived(p: Panel, report: Report) {
    exists a :: a in p.accepted && a.report == report
  }

  // The panel has received the accepted reports, notes no others of the node, and its state is that of the last one.
  ghost predicate Held(p: Panel, node: int, accepted: seq<Report>) {
    && (forall i :: 0 <= i < |accepted| ==> WasReceived(p, accepted[i]))
    && (forall key :: key in p.tables.reports && key.node == node ==> exists i :: 0 <= i < |accepted| && ReportKeyOf(accepted[i]) == key)
    && (if accepted == [] then node !in p.tables.nodes
        else node in p.tables.nodes
             && p.tables.nodes[node] == NodeState(accepted[|accepted| - 1].epoch, accepted[|accepted| - 1].sequence))
  }

  ghost predicate InFlight(s: System) {
    && (s.confirmed ==> s.disk.pending.Some?)
    && (s.accepted != s.generated ==>
          s.disk.pending.Some? && !s.confirmed && |s.generated| > 0 && s.accepted == s.generated[..|s.generated| - 1])
  }

  ghost predicate Delivering(s: System, node: int) {
    && AllRemembered(s.panel) && D.Chained(s.generated, node) && Held(s.panel, node, s.accepted)
    && D.OnDisk(s.disk, s.generated) && InFlight(s)
  }

  lemma DeliveringOnce(s: System, node: int)
    requires Delivering(s, node)
    ensures Once(s)
  {
  }

  // ---- Arrivals ----

  // A report that was accepted before is new again exactly in a relapse.
  lemma OldIsNew(s: System, node: int, k: nat, catalog: Catalog)
    requires Delivering(s, node) && k < |s.accepted| && k < |s.generated|
    ensures IsNew(s.panel, s.generated[k], catalog) <==> Relapses(s, node, Late(k, catalog))
  {
    var r := s.generated[k];
    assert s.accepted[k] == r && WasReceived(s.panel, r);
    var a :| a in s.panel.accepted && a.report == r;
    AgainExactly(s.panel, a, catalog);
    var last := s.accepted[|s.accepted| - 1];
    assert last == s.generated[|s.accepted| - 1];
    assert k < |s.accepted| - 1 ==> D.Precedes(r, last);
    assert ReportKeyOf(r).epoch == r.epoch && ReportKeyOf(r).node == node;
  }

  lemma NothingNew(s: System, report: Report, catalog: Catalog)
    requires !IsNew(s.panel, report, catalog)
    ensures Arrive(s, report, catalog) == s
  {
  }

  // A report that has not been accepted is the last one; it is refused, or everything is accepted.
  lemma LastArrives(s: System, node: int, catalog: Catalog)
    requires Delivering(s, node) && |s.generated| > 0 && s.accepted == s.generated[..|s.generated| - 1]
    ensures var r := s.generated[|s.generated| - 1];
            var t := Arrive(s, r, catalog);
            && Delivering(t, node)
            && (Heard(s, r, catalog) ==> t.accepted == s.generated)
            && (t.accepted == s.generated || t == s)
  {
    var r := s.generated[|s.generated| - 1];
    var t := Arrive(s, r, catalog);
    D.IngestCases(s.panel.tables, node, r, s.panel.now, catalog);
    NotYetNoted(s, node);
    if IsNew(s.panel, r, catalog) {
      assert s.generated == s.accepted + [r];
      ReceivedRemembered(s.panel, node, r, catalog);
      HeldExtends(s.panel, t.panel, node, s.accepted, r);
    } else {
      NothingNew(s, r, catalog);
    }
  }

  lemma NotYetNoted(s: System, node: int)
    requires Delivering(s, node) && |s.generated| > 0 && s.accepted == s.generated[..|s.generated| - 1]
    ensures ReportKeyOf(s.generated[|s.generated| - 1]) !in s.panel.tables.reports
  {
    D.DistinctKeys(s.generated, node);
    assert forall i :: 0 <= i < |s.accepted| ==> ReportKeyOf(s.accepted[i]) != ReportKeyOf(s.generated[|s.generated| - 1]);
  }

  lemma HeldExtends(before: Panel, after: Panel, node: int, accepted: seq<Report>, r: Report)
    requires Held(before, node, accepted) && r.node == node
    requires after.accepted == before.accepted + [Receiving(r, before.now)]
    requires after.tables.reports.Keys == before.tables.reports.Keys + {ReportKeyOf(r)}
    requires node in after.tables.nodes && after.tables.nodes[node] == NodeState(r.epoch, r.sequence)
    ensures Held(after, node, accepted + [r])
  {
    var more := accepted + [r];
    forall i | 0 <= i < |more| ensures WasReceived(after, more[i]) {
      if i < |accepted| {
        assert WasReceived(before, accepted[i]);
        var a :| a in before.accepted && a.report == accepted[i];
        assert a in after.accepted;
      } else {
        assert Receiving(r, before.now) in after.accepted;
      }
    }
    forall key | key in after.tables.reports && key.node == node ensures exists i :: 0 <= i < |more| && ReportKeyOf(more[i]) == key {
      if key in before.tables.reports {
        var i :| 0 <= i < |accepted| && ReportKeyOf(accepted[i]) == key;
        assert more[i] == accepted[i];
      } else {
        assert more[|accepted|] == r;
      }
    }
  }

  // ---- What happens elsewhere ----

  lemma HeldStays(before: Panel, after: Panel, node: int, accepted: seq<Report>)
    requires Held(before, node, accepted)
    requires forall a :: a in before.accepted ==> a in after.accepted
    requires forall key: ReportKey :: key.node == node && key in after.tables.reports ==> key in before.tables.reports
    requires node in after.tables.nodes <==> node in before.tables.nodes
    requires node in before.tables.nodes ==> after.tables.nodes[node] == before.tables.nodes[node]
    ensures Held(after, node, accepted)
  {
    forall i | 0 <= i < |accepted| ensures WasReceived(after, accepted[i]) {
      assert WasReceived(before, accepted[i]);
    }
  }

  lemma ElsewhereDelivers(s: System, node: int, action: Action)
    requires Delivering(s, node) && !(action.Arrives? && action.node == node)
    ensures Delivering(s.(panel := Proceed(s.panel, action)), node)
  {
    ProceedRemembered(s.panel, action);
    if action.Arrives? {
      D.IngestCases(s.panel.tables, action.node, action.report, s.panel.now, action.catalog);
    }
    HeldStays(s.panel, Proceed(s.panel, action), node, s.accepted);
  }

  // ---- Steps ----

  lemma CollectDelivers(s: System, node: int, reading: D.Reading, unused: int)
    requires Delivering(s, node) && Fresh(s, Collect(reading, unused))
    ensures Delivering(Next(s, node, Collect(reading, unused)), node)
  {
    if s.disk.pending.None? {
      var disk := D.Collected(s.disk, node, reading, unused);
      D.ChainExtends(s.generated, node, s.disk, disk.pending.value, unused);
      var after := Next(s, node, Collect(reading, unused));
      assert after.generated[..|after.generated| - 1] == s.generated;
    }
  }

  lemma SendDelivers(s: System, node: int, catalog: Catalog, replied: bool)
    requires Delivering(s, node)
    ensures Delivering(Next(s, node, Send(catalog, replied)), node)
  {
    if s.disk.pending.Some? {
      var k := |s.generated| - 1;
      assert s.disk.pending.value == s.generated[k];
      if s.accepted == s.generated {
        OldIsNew(s, node, k, catalog);
        NothingNew(s, s.generated[k], catalog);
      } else {
        LastArrives(s, node, catalog);
      }
    }
  }

  lemma LateDelivers(s: System, node: int, k: nat, catalog: Catalog)
    requires Delivering(s, node)
    ensures Relapses(s, node, Late(k, catalog)) ==> !Once(Next(s, node, Late(k, catalog)))
    ensures !Relapses(s, node, Late(k, catalog)) ==> Delivering(Next(s, node, Late(k, catalog)), node)
  {
    if k < |s.accepted| && k < |s.generated| {
      OldIsNew(s, node, k, catalog);
      if IsNew(s.panel, s.generated[k], catalog) {
        TwiceIsNotOnce(s, node, k, catalog);
      } else {
        NothingNew(s, s.generated[k], catalog);
      }
    } else if k < |s.generated| {
      assert k == |s.generated| - 1;
      LastArrives(s, node, catalog);
    }
  }

  lemma TwiceIsNotOnce(s: System, node: int, k: nat, catalog: Catalog)
    requires Delivering(s, node) && k < |s.accepted| && k < |s.generated| && IsNew(s.panel, s.generated[k], catalog)
    ensures !Once(Arrive(s, s.generated[k], catalog))
  {
    var t := Arrive(s, s.generated[k], catalog);
    if t.accepted == t.generated {
      var last := |s.generated| - 1;
      assert t.accepted[last] == s.generated[last];
      D.SameKeySameReport(s.generated, node, k, last);
    }
  }

  // A step from a good state keeps exactly-once delivery if and only if it is no relapse.
  lemma StepDelivers(s: System, node: int, step: Step)
    requires Delivering(s, node) && Fresh(s, step)
    ensures Relapses(s, node, step) ==> !Once(Next(s, node, step))
    ensures !Relapses(s, node, step) ==> Delivering(Next(s, node, step), node)
  {
    match step
    case Collect(reading, unused) => CollectDelivers(s, node, reading, unused);
    case Send(catalog, replied) => SendDelivers(s, node, catalog, replied);
    case Late(k, catalog) => LateDelivers(s, node, k, catalog);
    case Elsewhere(action) => if !(action.Arrives? && action.node == node) { ElsewhereDelivers(s, node, action); }
    case _ =>
  }

  // ---- Whole runs ----

  ghost predicate AlwaysOnce(s: System, node: int, steps: seq<Step>) {
    Once(Execute(s, node, steps)) && (steps != [] ==> AlwaysOnce(s, node, steps[..|steps| - 1]))
  }

  ghost predicate NeverRelapses(s: System, node: int, steps: seq<Step>) {
    steps != [] ==>
      && NeverRelapses(s, node, steps[..|steps| - 1])
      && !Relapses(Execute(s, node, steps[..|steps| - 1]), node, steps[|steps| - 1])
  }

  lemma {:induction false} RunDelivers(users: map<int, User>, now: int, node: int, steps: seq<Step>)
    requires FreshRun(Start(users, now), node, steps)
    ensures AlwaysOnce(Start(users, now), node, steps) <==> NeverRelapses(Start(users, now), node, steps)
    ensures NeverRelapses(Start(users, now), node, steps) ==> Delivering(Execute(Start(users, now), node, steps), node)
  {
    var s := Start(users, now);
    if steps != [] {
      var front := steps[..|steps| - 1];
      RunDelivers(users, now, node, front);
      if NeverRelapses(s, node, front) {
        StepDelivers(Execute(s, node, front), node, steps[|steps| - 1]);
        if !Relapses(Execute(s, node, front), node, steps[|steps| - 1]) {
          DeliveringOnce(Execute(s, node, steps), node);
        }
      }
    }
  }

  // With crashes, lost replies, repeated requests and both clean-ups anywhere: exactly-once delivery holds all through a
  // run if and only if no request from long ago arrives as a relapse in it.
  lemma OnceExactly(users: map<int, User>, now: int, node: int, steps: seq<Step>)
    requires FreshRun(Start(users, now), node, steps)
    ensures AlwaysOnce(Start(users, now), node, steps) <==> NeverRelapses(Start(users, now), node, steps)
  {
    RunDelivers(users, now, node, steps);
  }

  // ---- An agent that always has something to count ----

  ghost predicate AllSampled(s: System) {
    forall i :: 0 <= i < |s.generated| ==> s.generated[i].samples != []
  }

  ghost predicate Sampled(steps: seq<Step>) {
    forall step :: step in steps && step.Collect? ==> step.reading.samples != []
  }

  lemma {:induction false} SampledNeverRelapses(s: System, node: int, steps: seq<Step>)
    requires AllSampled(s) && Sampled(steps)
    ensures AllSampled(Execute(s, node, steps)) && NeverRelapses(s, node, steps)
  {
    if steps != [] {
      SampledNeverRelapses(s, node, steps[..|steps| - 1]);
      assert steps[|steps| - 1] in steps;
    }
  }

  // If every reading of the agent has samples, delivery is exactly once in every run, whatever the panel cleans up.
  lemma SampledOnce(users: map<int, User>, now: int, node: int, steps: seq<Step>)
    requires FreshRun(Start(users, now), node, steps) && forall step :: step in steps && step.Collect? ==> step.reading.samples != []
    ensures Once(Execute(Start(users, now), node, steps))
  {
    SampledNeverRelapses(Start(users, now), node, steps);
    RunDelivers(users, now, node, steps);
    DeliveringOnce(Execute(Start(users, now), node, steps), node);
  }

  // ---- A relapse ----

  const NOTHING := Catalog(map[], {})
  const FIRST_REPORT := Report(1, 5, 1, SECOND, 2 * SECOND, false, [])
  const NEXT_REPORT := Report(1, 6, 1, 3 * SECOND, 4 * SECOND, false, [])

  ghost predicate Reaches(steps: seq<Step>, t: System) {
    FreshRun(Start(map[], 0), 1, steps) && Execute(Start(map[], 0), 1, steps) == t
  }

  lemma Extend(steps: seq<Step>, s: System, step: Step) returns (more: seq<Step>)
    requires Reaches(steps, s) && Fresh(s, step)
    ensures more == steps + [step] && Reaches(more, Next(s, 1, step))
  {
    more := steps + [step];
    assert more[..|steps|] == steps;
  }

  // Both reports are noted and confirmed, at the time zero of the panel.
  function BothReceived(): System {
    System(
      Panel(Empty(map[]).(reports := map[ReportKeyOf(FIRST_REPORT) := FIRST_REPORT, ReportKeyOf(NEXT_REPORT) := NEXT_REPORT], nodes := map[1 := NodeState(6, 1)]),
        map[ReportKeyOf(FIRST_REPORT) := 0, ReportKeyOf(NEXT_REPORT) := 0], [Receiving(FIRST_REPORT, 0), Receiving(NEXT_REPORT, 0)], 0),
      D.Disk(6, 1, 4 * SECOND, 0, map[], None), false, [FIRST_REPORT, NEXT_REPORT], [FIRST_REPORT, NEXT_REPORT])
  }

  function OneReceived(): System {
    System(
      Panel(Empty(map[]).(reports := map[ReportKeyOf(FIRST_REPORT) := FIRST_REPORT], nodes := map[1 := NodeState(5, 1)]),
        map[ReportKeyOf(FIRST_REPORT) := 0], [Receiving(FIRST_REPORT, 0)], 0),
      D.Disk(5, 1, 2 * SECOND, 10, map[], None), false, [FIRST_REPORT], [FIRST_REPORT])
  }

  // One delivery: the report is collected, arrives, is confirmed and removed.
  lemma Delivery(steps: seq<Step>, s: System, reading: D.Reading, unused: int, t: System) returns (more: seq<Step>)
    requires Reaches(steps, s) && Fresh(s, Collect(reading, unused))
    requires Next(Next(Next(s, 1, Collect(reading, unused)), 1, Send(NOTHING, true)), 1, Confirm) == t
    ensures Reaches(more, t)
  {
    more := Extend(steps, s, Collect(reading, unused));
    more := Extend(more, Next(s, 1, Collect(reading, unused)), Send(NOTHING, true));
    more := Extend(more, Next(Next(s, 1, Collect(reading, unused)), 1, Send(NOTHING, true)), Confirm);
  }

  lemma FirstDelivered()
    ensures Next(Next(Next(Start(map[], 0), 1, Collect(D.Reading(map[], 10, 2 * SECOND, []), 5)), 1, Send(NOTHING, true)), 1, Confirm) == OneReceived()
  {
    var collected := Next(Start(map[], 0), 1, Collect(D.Reading(map[], 10, 2 * SECOND, []), 5));
    assert collected.disk.pending == Some(FIRST_REPORT) && collected.generated == [FIRST_REPORT];
  }

  lemma SecondDelivered()
    ensures Next(Next(Next(OneReceived(), 1, Collect(D.Reading(map[], 0, 4 * SECOND, []), 6)), 1, Send(NOTHING, true)), 1, Confirm) == BothReceived()
  {
    var collected := Next(OneReceived(), 1, Collect(D.Reading(map[], 0, 4 * SECOND, []), 6));
    assert collected.disk.pending == Some(NEXT_REPORT) && collected.generated == [FIRST_REPORT, NEXT_REPORT];
    assert forall key :: key in OneReceived().panel.tables.reports ==> key == ReportKeyOf(FIRST_REPORT);
    assert InOrder(collected.panel.tables, NEXT_REPORT);
  }

  // A week after an agent reported nothing, with its clock a second ahead, and went on in another epoch, its first request
  // arrives again: the panel accepts it a second time.
  lemma RelapseHappens() returns (steps: seq<Step>)
    ensures FreshRun(Start(map[], 0), 1, steps) && !Once(Execute(Start(map[], 0), 1, steps))
  {
    FirstDelivered();
    SecondDelivered();
    steps := Delivery([], Start(map[], 0), D.Reading(map[], 10, 2 * SECOND, []), 5, OneReceived());
    steps := Delivery(steps, OneReceived(), D.Reading(map[], 0, 4 * SECOND, []), 6, BothReceived());
    steps := Extend(steps, BothReceived(), Elsewhere(Wait(WEEK + SECOND)));
    var later := Next(BothReceived(), 1, Elsewhere(Wait(WEEK + SECOND)));
    steps := Extend(steps, later, Elsewhere(CleanReports));
    var cleaned := Next(later, 1, Elsewhere(CleanReports));
    Forgotten(cleaned);
    steps := Extend(steps, cleaned, Late(0, NOTHING));
  }

  lemma Forgotten(s: System)
    requires s == Next(Next(BothReceived(), 1, Elsewhere(Wait(WEEK + SECOND))), 1, Elsewhere(CleanReports))
    ensures !Once(Next(s, 1, Late(0, NOTHING)))
  {
    assert s.panel.tables.reports == map[];
    assert IsNew(s.panel, FIRST_REPORT, NOTHING);
    assert Next(s, 1, Late(0, NOTHING)).accepted == [FIRST_REPORT, NEXT_REPORT] + [FIRST_REPORT];
  }
}
