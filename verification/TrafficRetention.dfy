/**
  What happens to retries after the panel has forgotten a report. Reports are deleted a week after they arrived, and
  cursors a week after their last sample unless their epoch is active. A report with samples is never accepted twice all
  the same: whenever it is recent enough to be legal, its cursors are recent enough to be kept.
*/
module TrafficRetention {
  import opened TrafficBytes
  import opened TrafficSplit
  import opened TrafficTables
  import opened TrafficDelivery
  import opened TrafficPayload

  // A report that was accepted as new, and when that was.
  datatype Receiving = Receiving(report: Report, at: int)

  // `received` holds the time at which the report of a key arrived last; `accepted` is history.
  datatype Panel = Panel(tables: Tables, received: map<ReportKey, int>, accepted: seq<Receiving>, now: int)

  datatype Action =
    | Arrives(node: int, report: Report, catalog: Catalog)
    | CleanReports
    | CleanCursors
    | ResetUsage(user: int, expectedEpoch: int, reason: string)
    | QuotaSet(user: int, expectedRevision: int, limit: int)
    | Wait(duration: nat)

  predicate Outdated(received: map<ReportKey, int>, key: ReportKey, now: int) {
    key in received && received[key] < now - WEEK
  }

  predicate ActiveEpoch(t: Tables, key: CursorKey) {
    key.node in t.nodes && t.nodes[key.node].epoch == key.epoch
  }

  function ReportsCleaned(p: Panel): Panel {
    p.(tables := p.tables.(reports := map key | key in p.tables.reports && !Outdated(p.received, key, p.now) :: p.tables.reports[key]))
  }

  function CursorsCleaned(p: Panel): Panel {
    var t := p.tables;
    p.(tables := t.(cursors := map key | key in t.cursors && (t.cursors[key].at >= p.now - WEEK || ActiveEpoch(t, key)) :: t.cursors[key]))
  }

  function Received(p: Panel, node: int, report: Report, catalog: Catalog): Panel {
    var receipt := Ingest(p.tables, node, report, p.now, catalog);
    if !receipt.accepted || receipt.duplicate then p
    else p.(tables := receipt.tables, received := p.received[ReportKeyOf(report) := p.now], accepted := p.accepted + [Receiving(report, p.now)])
  }

  function Proceed(p: Panel, action: Action): Panel {
    match action
    case Arrives(node, report, catalog) => Received(p, node, report, catalog)
    case CleanReports => ReportsCleaned(p)
    case CleanCursors => CursorsCleaned(p)
    case ResetUsage(user, epoch, reason) => p.(tables := Reset(p.tables, user, epoch, reason).tables)
    case QuotaSet(user, revision, limit) => p.(tables := SetQuota(p.tables, user, revision, limit).tables)
    case Wait(duration) => p.(now := p.now + duration)
  }

  function Run(p: Panel, actions: seq<Action>): Panel {
    if actions == [] then p else Proceed(Run(p, actions[..|actions| - 1]), actions[|actions| - 1])
  }

  function Opened(users: map<int, User>, now: int): Panel {
    Panel(Empty(users), map[], [], now)
  }

  // ---- Cursors stay as long as their reports are legal ----

  // The series of this sample has been counted up to this time.
  ghost predicate Counted(t: Tables, report: Report, s: Sample) {
    var key := CursorKey(report.node, report.epoch, SeriesOf(s));
    key in t.cursors && t.cursors[key].at >= report.end
  }

  ghost predicate CursorsRise(before: Tables, after: Tables) {
    forall key :: key in before.cursors ==> key in after.cursors && before.cursors[key].at <= after.cursors[key].at
  }

  lemma SampleCounts(t: Tables, report: Report, catalog: Catalog, s: Sample)
    ensures Counted(t, report, s) ==> ApplySample(t, report, catalog, s).Err?
    ensures ApplySample(t, report, catalog, s).Ok? ==>
              var after := ApplySample(t, report, catalog, s).value; Counted(after, report, s) && CursorsRise(t, after)
  {
    var key := CursorKey(report.node, report.epoch, SeriesOf(s));
    if key in t.cursors && ApplyGrowth(t, report.node, s, t.cursors[key], report.end).Ok? {
      GrowthKeepsCursors(t, report.node, s, t.cursors[key], report.end);
    }
  }

  lemma GrowthKeepsCursors(t: Tables, node: int, s: Sample, from: Cursor, end: int)
    requires ApplyGrowth(t, node, s, from, end).Ok?
    ensures ApplyGrowth(t, node, s, from, end).value.cursors == t.cursors
  {
    var d := Minus(Counter(s), from.counter);
    BucketsKeepCursors(t, node, SeriesOf(s), Split(from.at, end, d.up, d.down).value);
  }

  lemma {:induction false} BucketsKeepCursors(t: Tables, node: int, series: Series, buckets: seq<Bucket>)
    requires WriteBuckets(t, node, series, buckets).Ok?
    ensures WriteBuckets(t, node, series, buckets).value.cursors == t.cursors
  {
    if buckets != [] {
      BucketsKeepCursors(t, node, series, buckets[..|buckets| - 1]);
    }
  }

  // Between these tables the series of all the samples were counted to the end of the report.
  ghost predicate CountsAll(before: Tables, after: Tables, report: Report, samples: seq<Sample>) {
    CursorsRise(before, after) && forall s :: s in samples ==> Counted(after, report, s) && !Counted(before, report, s)
  }

  lemma OneMoreCounts(before: Tables, mid: Tables, report: Report, catalog: Catalog, front: seq<Sample>, last: Sample)
    requires CountsAll(before, mid, report, front) && ApplySample(mid, report, catalog, last).Ok?
    ensures CountsAll(before, ApplySample(mid, report, catalog, last).value, report, front + [last])
  {
    SampleCounts(mid, report, catalog, last);
  }

  lemma {:induction false} SamplesCount(t: Tables, report: Report, catalog: Catalog, samples: seq<Sample>)
    requires ApplySamples(t, report, catalog, samples).Ok?
    ensures CountsAll(t, ApplySamples(t, report, catalog, samples).value, report, samples)
  {
    if samples != [] {
      var k := |samples| - 1;
      SamplesCount(t, report, catalog, samples[..k]);
      OneMoreCounts(t, ApplySamples(t, report, catalog, samples[..k]).value, report, catalog, samples[..k], samples[k]);
      assert samples == samples[..k] + [samples[k]];
    }
  }

  lemma IngestCounts(t: Tables, node: int, report: Report, now: int, catalog: Catalog)
    requires var receipt := Ingest(t, node, report, now, catalog); receipt.accepted && !receipt.duplicate
    ensures var after := Ingest(t, node, report, now, catalog).tables;
            CursorsRise(t, after) && forall s :: s in report.samples ==> Counted(after, report, s) && !Counted(t, report, s)
  {
    SamplesCount(t.(reports := t.reports[ReportKeyOf(report) := Payload(report)]), report, catalog, Payload(report).samples);
    SortedSorts(report.samples);
    forall s | s in report.samples ensures s in Payload(report).samples {
      assert s in multiset(report.samples);
    }
  }

  // ---- What every run keeps ----

  // An accepted report is noted or out of date, and its series are counted or out of date.
  ghost predicate Remembered(p: Panel, a: Receiving) {
    && ValidReport(a.report, a.report.node, a.at) && a.at <= p.now
    && (if ReportKeyOf(a.report) in p.tables.reports
        then ReportKeyOf(a.report) in p.received && a.at <= p.received[ReportKeyOf(a.report)]
        else a.at < p.now - WEEK)
    && forall s :: s in a.report.samples ==> Counted(p.tables, a.report, s) || a.report.end < p.now - WEEK
  }

  ghost predicate AllRemembered(p: Panel) {
    && (forall a :: a in p.accepted ==> Remembered(p, a))
    && forall key :: key in p.received ==> p.received[key] <= p.now
  }

  lemma ReceivedRemembered(p: Panel, node: int, report: Report, catalog: Catalog)
    requires AllRemembered(p)
    ensures AllRemembered(Received(p, node, report, catalog))
  {
    var after := Received(p, node, report, catalog);
    if after != p {
      IngestCases(p.tables, node, report, p.now, catalog);
      IngestCounts(p.tables, node, report, p.now, catalog);
      forall a | a in after.accepted ensures Remembered(after, a) {
        if a in p.accepted {
          assert Remembered(p, a);
        } else {
          assert a == Receiving(report, p.now);
        }
      }
    }
  }

  lemma CleanedRemembered(p: Panel)
    requires AllRemembered(p)
    ensures AllRemembered(ReportsCleaned(p)) && AllRemembered(CursorsCleaned(p))
  {
    forall a | a in p.accepted ensures Remembered(ReportsCleaned(p), a) && Remembered(CursorsCleaned(p), a) {
      assert Remembered(p, a);
    }
  }

  lemma ProceedRemembered(p: Panel, action: Action)
    requires AllRemembered(p)
    ensures AllRemembered(Proceed(p, action))
  {
    match action
    case Arrives(node, report, catalog) => ReceivedRemembered(p, node, report, catalog);
    case CleanReports => CleanedRemembered(p);
    case CleanCursors => CleanedRemembered(p);
    case _ =>
      forall a | a in p.accepted ensures Remembered(Proceed(p, action), a) {
        assert Remembered(p, a);
      }
  }

  lemma {:induction false} RunRemembered(users: map<int, User>, now: int, actions: seq<Action>)
    ensures AllRemembered(Run(Opened(users, now), actions))
  {
    if actions != [] {
      RunRemembered(users, now, actions[..|actions| - 1]);
      ProceedRemembered(Run(Opened(users, now), actions[..|actions| - 1]), actions[|actions| - 1]);
    }
  }

  lemma SomeSample(samples: seq<Sample>)
    ensures samples != [] ==> exists s :: s in samples
  {
    if samples != [] {
      assert samples[0] in samples;
    }
  }

  // ---- The main result ----

  // The report is accepted as new.
  predicate IsNew(p: Panel, report: Report, catalog: Catalog) {
    var receipt := Ingest(p.tables, report.node, report, p.now, catalog);
    receipt.accepted && !receipt.duplicate
  }

  lemma AgainExactly(p: Panel, a: Receiving, catalog: Catalog)
    requires AllRemembered(p) && a in p.accepted
    ensures IsNew(p, a.report, catalog) <==>
              && a.report.samples == [] && a.report.start >= p.now - WEEK
              && ReportKeyOf(a.report) !in p.tables.reports && InOrder(p.tables, a.report)
    ensures IsNew(p, a.report, catalog) ==> a.at < a.report.start
  {
    assert Remembered(p, a);
    if IsNew(p, a.report, catalog) {
      IngestCounts(p.tables, a.report.node, a.report, p.now, catalog);
      SomeSample(a.report.samples);
    }
  }

  // In every run, however often the panel cleans up: a report that was accepted is accepted as new again if and only if
  // it has no samples, is legal by age, is no longer noted, and starts its epoch anew or continues it. No bytes can be
  // counted twice that way, and it takes an agent whose clock was ahead when the report first arrived.
  lemma AcceptedAgainExactly(users: map<int, User>, start: int, actions: seq<Action>, a: Receiving, catalog: Catalog)
    requires a in Run(Opened(users, start), actions).accepted
    ensures var p := Run(Opened(users, start), actions);
            && (IsNew(p, a.report, catalog) <==>
                  && a.report.samples == [] && a.report.start >= p.now - WEEK
                  && ReportKeyOf(a.report) !in p.tables.reports && InOrder(p.tables, a.report))
            && (IsNew(p, a.report, catalog) ==> a.at < a.report.start)
  {
    RunRemembered(users, start, actions);
    AgainExactly(Run(Opened(users, start), actions), a, catalog);
  }
}
