/**
  Hourly and daily aggregates as an index over the five-minute rows. A rollup reads a due job, sums the rows of users,
  sums the rows of nodes, and removes the job if its revision has not moved; reports and clean-ups run in between.
*/
module TrafficRollup {
  import opened Common
  import opened TrafficBytes
  import opened TrafficSplit
  import opened TrafficTables

  // Rows are aggregated by user and node, or by node alone for the counters of inbounds.
  datatype Group = OfUserAndNode(user: int, node: int) | OfNode(node: int)

  datatype AggregateKey = AggregateKey(group: Group, grain: Grain, period: int)

  function GroupOf(c: Cell): Group {
    match c.series
    case UserSeries(user, _) => OfUserAndNode(user, c.node)
    case InboundSeries(_) => OfNode(c.node)
  }

  function Length(grain: Grain): int { if grain == Hourly then HOUR else DAY }

  predicate InPeriod(slot: int, grain: Grain, period: int) { period <= slot < period + Length(grain) }

  ghost function RowsOf(key: AggregateKey): Cell -> bool {
    (c: Cell) => GroupOf(c) == key.group && InPeriod(c.slot, key.grain, key.period)
  }

  // ---- The rollup, the clean-up and their system ----

  datatype Half = Users | Nodes

  predicate InHalf(group: Group, half: Half) { group.OfUserAndNode? <==> half == Users }

  ghost function KeysOf(records: map<Cell, Bytes>, job: Job, half: Half): set<AggregateKey> {
    set c | c in records && InPeriod(c.slot, job.grain, job.period) && InHalf(GroupOf(c), half) :: AggregateKey(GroupOf(c), job.grain, job.period)
  }

  // One row for every group that has rows in the period of the job.
  ghost function Sums(records: map<Cell, Bytes>, job: Job, half: Half): map<AggregateKey, Bytes> {
    map key | key in KeysOf(records, job, half) :: Total(Only(records, RowsOf(key)))
  }

  datatype Flight = Flight(job: Job, revision: nat, users: Option<map<AggregateKey, Bytes>>, nodes: Option<map<AggregateKey, Bytes>>)

  // `written` is history: all bytes that were ever written to a row.
  datatype System = System(tables: Tables, aggregates: map<AggregateKey, Bytes>, flight: Option<Flight>, written: map<Cell, Bytes>, now: int)

  datatype Step =
    | Arrives(node: int, report: Report, catalog: Catalog)
    | Begin(job: Job)
    | SumUsers
    | SumNodes
    | Finish
    | Abort
    | CleanRecords
    | CleanAggregates
    | Wait(duration: nat)

  const RECORDS_KEPT := 30 * DAY

  function Kept(grain: Grain): int { if grain == Hourly then 180 * DAY else 730 * DAY }

  ghost function Grown(written: map<Cell, Bytes>, before: map<Cell, Bytes>, after: map<Cell, Bytes>): map<Cell, Bytes> {
    map c | c in written.Keys + after.Keys :: Plus(Get(written, c), Minus(Get(after, c), Get(before, c)))
  }

  // A row is kept for thirty days, and as long as a job is due for its hour or its day.
  predicate Expired(t: Tables, c: Cell, now: int) {
    && c.slot < now - RECORDS_KEPT
    && forall j :: j in t.jobs ==> j.period != PeriodOf(Hourly, c.slot) && j.period != PeriodOf(Daily, c.slot)
  }

  ghost function Cleaned(t: Tables, now: int): Tables {
    t.(records := map c | c in t.records && !Expired(t, c, now) :: t.records[c])
  }

  ghost function Next(s: System, step: Step): System {
    match step
    case Arrives(node, report, catalog) =>
      var after := Ingest(s.tables, node, report, s.now, catalog).tables;
      s.(tables := after, written := Grown(s.written, s.tables.records, after.records))
    case Begin(job) => if s.flight.Some? || job !in s.tables.jobs then s else s.(flight := Some(Flight(job, s.tables.jobs[job], None, None)))
    case SumUsers => if s.flight.None? then s else s.(flight := Some(s.flight.value.(users := Some(Sums(s.tables.records, s.flight.value.job, Users)))))
    case SumNodes => if s.flight.None? then s else s.(flight := Some(s.flight.value.(nodes := Some(Sums(s.tables.records, s.flight.value.job, Nodes)))))
    case Finish => if s.flight.None? then s else Finished(s, s.flight.value)
    case Abort => s.(flight := None)
    case CleanRecords => s.(tables := Cleaned(s.tables, s.now))
    case CleanAggregates => s.(aggregates := map key | key in s.aggregates && key.period >= s.now - Kept(key.grain) :: s.aggregates[key])
    case Wait(duration) => s.(now := s.now + duration)
  }

  // The sums are stored, and the job goes unless it has become due again meanwhile.
  ghost function Finished(s: System, f: Flight): System {
    if f.users.None? || f.nodes.None? then s
    else
      s.(aggregates := s.aggregates + f.users.value + f.nodes.value, flight := None,
         tables := if f.job in s.tables.jobs && s.tables.jobs[f.job] == f.revision then s.tables.(jobs := s.tables.jobs - {f.job}) else s.tables)
  }

  ghost function Execute(s: System, steps: seq<Step>): System {
    if steps == [] then s else Next(Execute(s, steps[..|steps| - 1]), steps[|steps| - 1])
  }

  ghost function Start(users: map<int, User>, now: int): System {
    System(Empty(users), map[], None, map[], now)
  }

  // ---- What a report writes ----

  // Rows only grow, every row that changes is recent, and its rollups become due anew.
  ghost predicate Touches(before: Tables, after: Tables, low: int) {
    && (forall c :: Changed(before, after, c) ==> c.slot >= low && Due(before, after, Hourly, c.slot) && Due(before, after, Daily, c.slot))
    && (forall c :: c in before.records ==> c in after.records)
    && (forall j :: j in before.jobs ==> j in after.jobs && before.jobs[j] <= after.jobs[j])
    && (forall j :: j in after.jobs && j !in before.jobs ==> Recent(j, low))
  }

  ghost predicate Changed(before: Tables, after: Tables, c: Cell) {
    c in after.records && (c !in before.records || before.records[c] != after.records[c])
  }

  ghost predicate Due(before: Tables, after: Tables, grain: Grain, slot: int) {
    var j := Job(grain, PeriodOf(grain, slot));
    j in after.jobs && (j in before.jobs ==> before.jobs[j] < after.jobs[j])
  }

  ghost predicate Recent(j: Job, low: int) {
    exists slot :: slot >= low && j.period == PeriodOf(j.grain, slot)
  }

  lemma TouchesNothing(before: Tables, after: Tables, low: int)
    requires after.records == before.records && after.jobs == before.jobs
    ensures Touches(before, after, low)
  {
  }

  lemma TouchesTwice(x: Tables, y: Tables, z: Tables, low: int)
    requires Touches(x, y, low) && Touches(y, z, low)
    ensures Touches(x, z, low)
  {
    forall c | Changed(x, z, c) ensures c.slot >= low && Due(x, z, Hourly, c.slot) && Due(x, z, Daily, c.slot) {
      assert Changed(x, y, c) || Changed(y, z, c);
    }
  }

  lemma BucketTouches(t: Tables, node: int, series: Series, b: Bucket, low: int)
    requires WriteBucket(t, node, series, b).Ok? && b.at >= low
    ensures Touches(t, WriteBucket(t, node, series, b).value, low)
  {
    var after := WriteBucket(t, node, series, b).value;
    assert Recent(Job(Hourly, PeriodOf(Hourly, b.at)), low) && Recent(Job(Daily, PeriodOf(Daily, b.at)), low);
    forall c | Changed(t, after, c) ensures c.slot == b.at {}
  }

  lemma {:induction false} BucketsTouch(t: Tables, node: int, series: Series, buckets: seq<Bucket>, low: int)
    requires WriteBuckets(t, node, series, buckets).Ok? && forall i :: 0 <= i < |buckets| ==> buckets[i].at >= low
    ensures Touches(t, WriteBuckets(t, node, series, buckets).value, low)
  {
    if buckets == [] {
      TouchesNothing(t, t, low);
    } else {
      var k := |buckets| - 1;
      var written := WriteBuckets(t, node, series, buckets[..k]).value;
      BucketsTouch(t, node, series, buckets[..k], low);
      BucketTouches(written, node, series, buckets[k], low);
      TouchesTwice(t, written, WriteBuckets(t, node, series, buckets).value, low);
    }
  }

  // No bucket of a split lies before the slot of its start.
  lemma SplitIsLate(start: int, end: int, up: int, down: int, low: int)
    requires Split(start, end, up, down).Ok? && low + SLOT <= start
    ensures var buckets := Split(start, end, up, down).value; forall i :: 0 <= i < |buckets| ==> buckets[i].at >= low
  {
    SlotFacts(start);
    SplitCovers(start, SlotOf(start), end, Shares(up, end - start), Shares(down, end - start), up, down);
  }

  lemma SampleTouches(t: Tables, report: Report, catalog: Catalog, s: Sample, low: int)
    requires ApplySample(t, report, catalog, s).Ok? && low + SLOT <= report.end - DAY
    ensures Touches(t, ApplySample(t, report, catalog, s).value, low)
  {
    var key := CursorKey(report.node, report.epoch, SeriesOf(s));
    var after := ApplySample(t, report, catalog, s).value;
    if key in t.cursors {
      var from := t.cursors[key];
      var d := Minus(Counter(s), from.counter);
      var buckets := Split(from.at, report.end, d.up, d.down).value;
      SplitIsLate(from.at, report.end, d.up, d.down, low);
      BucketsTouch(t, report.node, SeriesOf(s), buckets, low);
      TouchesNothing(WriteBuckets(t, report.node, SeriesOf(s), buckets).value, after, low);
      TouchesTwice(t, WriteBuckets(t, report.node, SeriesOf(s), buckets).value, after, low);
    } else {
      TouchesNothing(t, after, low);
    }
  }

  lemma {:induction false} SamplesTouch(t: Tables, report: Report, catalog: Catalog, samples: seq<Sample>, low: int)
    requires ApplySamples(t, report, catalog, samples).Ok? && low + SLOT <= report.end - DAY
    ensures Touches(t, ApplySamples(t, report, catalog, samples).value, low)
  {
    if samples == [] {
      TouchesNothing(t, t, low);
    } else {
      var k := |samples| - 1;
      var applied := ApplySamples(t, report, catalog, samples[..k]).value;
      SamplesTouch(t, report, catalog, samples[..k], low);
      SampleTouches(applied, report, catalog, samples[k], low);
      TouchesTwice(t, applied, ApplySamples(t, report, catalog, samples).value, low);
    }
  }

  // How far back an accepted report can write.
  function Reach(now: int): int { now - 8 * DAY - SLOT }

  // An accepted report writes no row that is older than eight days and one slot.
  lemma IngestTouches(t: Tables, node: int, report: Report, now: int, catalog: Catalog)
    ensures Touches(t, Ingest(t, node, report, now, catalog).tables, Reach(now))
  {
    var after := Ingest(t, node, report, now, catalog).tables;
    var noted := t.(reports := t.reports[ReportKeyOf(report) := Payload(report)]);
    var applied := ApplySamples(noted, report, catalog, Payload(report).samples);
    if applied.Ok? && ValidReport(report, node, now) {
      SamplesTouch(noted, report, catalog, Payload(report).samples, Reach(now));
      TouchesNothing(t, noted, Reach(now));
      TouchesTwice(t, noted, applied.value, Reach(now));
      TouchesNothing(applied.value, applied.value.(nodes := applied.value.nodes[node := NodeState(report.epoch, report.sequence)]), Reach(now));
      TouchesTwice(t, applied.value, applied.value.(nodes := applied.value.nodes[node := NodeState(report.epoch, report.sequence)]), Reach(now));
    }
    TouchesNothing(t, t, Reach(now));
  }
}
