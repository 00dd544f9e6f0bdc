/**
  The traffic service over its tables. A method is one transaction; after an error it puts the tables of its start
  back. Each method is shown to do what its function in TrafficTables says.
*/
module TrafficMeter {
  import opened Common
  import opened TrafficBytes
  import opened TrafficSplit
  import Spec = TrafficTables
  import opened TrafficTables
  import opened TrafficRollup

  class Meter {
    var reports: map<ReportKey, Report>
    var nodes: map<int, NodeState>
    var cursors: map<CursorKey, Cursor>
    ghost var baselines: map<CursorKey, Bytes>
    var records: map<Cell, Bytes>
    var accounts: map<int, Account>
    var events: seq<AccountEvent>
    var jobs: map<Job, nat>
    var users: map<int, User>
    var aggregates: map<AggregateKey, Bytes>

    ghost function State(): Tables
      reads this
    {
      Tables(reports, nodes, cursors, baselines, records, accounts, events, jobs, users)
    }

    constructor (users: map<int, User>)
      ensures State() == Empty(users) && aggregates == map[]
    {
      reports, nodes, cursors, baselines, records := map[], map[], map[], map[], map[];
      accounts, events, jobs, aggregates := map[], [], map[], map[];
      this.users := users;
    }

    // ---- Reports ----

    method Ingest(node: int, report: Report, now: int, catalog: Catalog) returns (accepted: bool, duplicate: bool, error: Option<Error>)
      modifies this
      ensures var receipt := Spec.Ingest(old(State()), node, report, now, catalog);
              State() == receipt.tables && accepted == receipt.accepted && duplicate == receipt.duplicate && error == receipt.error
      ensures aggregates == old(aggregates)
    {
      accepted, duplicate, error := false, false, None;
      var valid := Validate(report, node, now);
      if !valid { return false, false, Some(InvalidReport); }
      var key := ReportKeyOf(report);
      var payload := Payload(report);
      if key in reports {
        if reports[key] != payload { return false, false, Some(SequenceConflict); }
        return true, true, None;
      }
      var first := node !in nodes;
      var newEpoch := first || nodes[node].epoch != report.epoch;
      if !newEpoch && report.sequence <= nodes[node].last { return false, false, Some(SequenceConflict); }
      if newEpoch && !first {
        var retired := exists k :: k in reports && k.node == node && k.epoch == report.epoch;
        if retired || report.sequence != 1 { return false, false, Some(SequenceConflict); }
      }
      if first && report.sequence != 1 { return false, false, Some(SequenceConflict); }
      error := Store(report, payload, catalog);
      accepted := error.None?;
    }

    // The report is noted, its samples are applied, and it becomes the last of its node; or nothing happens.
    method Store(report: Report, payload: Report, catalog: Catalog) returns (error: Option<Error>)
      modifies this
      ensures var applied := ApplySamples(old(State()).(reports := old(reports)[ReportKeyOf(report) := payload]), report, catalog, payload.samples);
              match applied
              case Err(e) => error == Some(e) && State() == old(State())
              case Ok(t) => error == None && State() == t.(nodes := t.nodes[report.node := NodeState(report.epoch, report.sequence)])
      ensures aggregates == old(aggregates)
    {
      var savedReports, savedNodes, savedCursors, savedRecords := reports, nodes, cursors, records;
      var savedAccounts, savedJobs := accounts, jobs;
      ghost var savedBaselines := baselines;
      reports := reports[ReportKeyOf(report) := payload];
      error := ApplyAll(report, catalog, payload.samples);
      if error.Some? {
        reports, nodes, cursors, records := savedReports, savedNodes, savedCursors, savedRecords;
        accounts, jobs, baselines := savedAccounts, savedJobs, savedBaselines;
      } else {
        nodes := nodes[report.node := NodeState(report.epoch, report.sequence)];
      }
    }

    method ApplyAll(report: Report, catalog: Catalog, samples: seq<Sample>) returns (error: Option<Error>)
      modifies this
      ensures Agree(ApplySamples(old(State()), report, catalog, samples), State(), error)
      ensures aggregates == old(aggregates) && events == old(events) && users == old(users)
    {
      error := None;
      ghost var before := State();
      var i := 0;
      while i < |samples|
        invariant i <= |samples| && error == None
        invariant ApplySamples(before, report, catalog, samples[..i]) == Ok(State())
        invariant aggregates == old(aggregates) && events == old(events) && users == old(users)
      {
        NextSample(before, report, catalog, samples, i);
        error := Apply(report, catalog, samples[i]);
        if error.Some? {
          StoppedAt(before, report, catalog, samples, i + 1);
          return;
        }
        i := i + 1;
      }
      assert samples[..i] == samples;
    }

    method Apply(report: Report, catalog: Catalog, s: Sample) returns (error: Option<Error>)
      modifies this
      ensures Agree(ApplySample(old(State()), report, catalog, s), State(), error)
      ensures aggregates == old(aggregates) && events == old(events) && users == old(users)
    {
      if !Allowed(catalog, report.node, s) { return Some(InvalidReport); }
      var key := CursorKey(report.node, report.epoch, SeriesOf(s));
      if key in cursors {
        error := Grow(report.node, s, cursors[key], report.end);
        if error.Some? { return; }
      } else {
        baselines := baselines[key := Counter(s)];
        error := None;
      }
      cursors := cursors[key := Cursor(Counter(s), report.end)];
    }

    method Grow(node: int, s: Sample, from: Cursor, end: int) returns (error: Option<Error>)
      modifies this
      ensures Agree(ApplyGrowth(old(State()), node, s, from, end), State(), error)
      ensures aggregates == old(aggregates) && events == old(events) && users == old(users)
    {
      if end <= from.at || s.up < from.counter.up || s.down < from.counter.down { return Some(SequenceConflict); }
      var d := Bytes(s.up - from.counter.up, s.down - from.counter.down);
      var buckets := SplitDelta(from.at, end, d.up, d.down);
      if buckets.Err? { return Some(InvalidReport); }
      error := WriteAll(node, SeriesOf(s), buckets.value);
      if error.Some? || s.user <= 0 { return; }
      error := CreditUser(s.user, d);
    }

    method CreditUser(user: int, d: Bytes) returns (error: Option<Error>)
      modifies this
      ensures Agree(Credit(old(State()), user, d), State(), error)
      ensures aggregates == old(aggregates) && events == old(events) && users == old(users)
    {
      var account := if user in accounts then accounts[user] else NEW_ACCOUNT;
      if Add(account.used.up, d.up).Err? || Add(account.used.down, d.down).Err?
         || Add(account.lifetime.up, d.up).Err? || Add(account.lifetime.down, d.down).Err? {
        return Some(InvalidReport);
      }
      accounts := accounts[user := account.(used := Plus(account.used, d), lifetime := Plus(account.lifetime, d))];
      return None;
    }

    method WriteAll(node: int, series: Series, buckets: seq<Bucket>) returns (error: Option<Error>)
      modifies this
      ensures Agree(WriteBuckets(old(State()), node, series, buckets), State(), error)
      ensures accounts == old(accounts) && aggregates == old(aggregates) && events == old(events) && users == old(users)
    {
      error := None;
      ghost var before := State();
      var i := 0;
      while i < |buckets|
        invariant i <= |buckets| && error == None
        invariant WriteBuckets(before, node, series, buckets[..i]) == Ok(State())
        invariant accounts == old(accounts) && aggregates == old(aggregates) && events == old(events) && users == old(users)
      {
        NextBucketOf(before, node, series, buckets, i);
        error := Write(node, series, buckets[i]);
        if error.Some? {
          WritingStoppedAt(before, node, series, buckets, i + 1);
          return;
        }
        i := i + 1;
      }
      assert buckets[..i] == buckets;
    }

    method Write(node: int, series: Series, b: Bucket) returns (error: Option<Error>)
      modifies this
      ensures Agree(WriteBucket(old(State()), node, series, b), State(), error)
      ensures accounts == old(accounts) && aggregates == old(aggregates) && events == old(events) && users == old(users)
    {
      var cell := Cell(node, series, b.at);
      var stored := if cell in records then records[cell] else ZERO;
      if stored.up + b.up > MAX_INT64 || stored.down + b.down > MAX_INT64 { return Some(Overflow); }
      records := records[cell := Bytes(stored.up + b.up, stored.down + b.down)];
      var grains := [Hourly, Daily];
      ghost var before := jobs;
      ghost var written := State();
      var i := 0;
      while i < |grains|
        invariant i <= |grains| && State() == written.(jobs := jobs) && aggregates == old(aggregates)
        invariant jobs == if i == 0 then before
                          else if i == 1 then Touched(before, Job(Hourly, PeriodOf(Hourly, b.at)))
                          else Touched(Touched(before, Job(Hourly, PeriodOf(Hourly, b.at))), Job(Daily, PeriodOf(Daily, b.at)))
      {
        var job := Job(grains[i], PeriodOf(grains[i], b.at));
        jobs := jobs[job := if job in jobs then jobs[job] + 1 else 1];
        i := i + 1;
      }
      error := None;
    }

    // ---- Accounts ----

    method Reset(user: int, expectedEpoch: int, reason: string) returns (error: Option<Error>)
      modifies this
      ensures var answer := Spec.Reset(old(State()), user, expectedEpoch, reason); State() == answer.tables && error == answer.error
      ensures error.None? <==> expectedEpoch >= 1 && 1 <= |reason| <= 500 && user in old(users) && AccountOf(old(State()), user).quotaEpoch == expectedEpoch
      ensures var account := AccountOf(old(State()), user);
              error.None? ==> AccountOf(State(), user) == Account(expectedEpoch + 1, ZERO, account.lifetime) && users == old(users)
    {
      if expectedEpoch < 1 || |reason| < 1 || |reason| > 500 { return Some(InvalidReport); }
      if user !in users { return Some(NoSuchUser); }
      var account := if user in accounts then accounts[user] else NEW_ACCOUNT;
      if account.quotaEpoch != expectedEpoch { return Some(SequenceConflict); }
      var limit := users[user].limit;
      events := events + [AccountEvent(user, account.quotaEpoch, UsageReset, limit, limit, account.used)];
      accounts := accounts[user := account.(quotaEpoch := account.quotaEpoch + 1, used := ZERO)];
      return None;
    }

    method SetQuota(user: int, expectedRevision: int, limit: int) returns (error: Option<Error>)
      modifies this
      ensures var answer := Spec.SetQuota(old(State()), user, expectedRevision, limit); State() == answer.tables && error == answer.error
      ensures error.None? <==> expectedRevision >= 1 && limit >= 0 && user in old(users) && old(users)[user].revision == expectedRevision
      ensures error.None? ==> users == old(users)[user := User(limit, expectedRevision + 1)]
      ensures forall u :: AccountOf(State(), u) == AccountOf(old(State()), u)
    {
      if expectedRevision < 1 || limit < 0 { return Some(InvalidReport); }
      if user !in users { return Some(NoSuchUser); }
      var old_ := users[user];
      if old_.revision != expectedRevision { return Some(SequenceConflict); }
      if user !in accounts {
        accounts := accounts[user := NEW_ACCOUNT];
      }
      var account := accounts[user];
      events := events + [AccountEvent(user, account.quotaEpoch, LimitChanged, old_.limit, limit, account.used)];
      users := users[user := User(limit, old_.revision + 1)];
      assert accounts == old(accounts)[user := account];
      return None;
    }

    // ---- Rollups ----

    // Up to a hundred jobs, the soonest first, each in a transaction of its own. `rolled` names them in order.
    method Rollup() returns (ghost rolled: seq<Job>)
      modifies this
      ensures State() == old(State()).(jobs := jobs)
      ensures |rolled| <= 100 && (|rolled| == 100 || jobs == map[])
      ensures jobs == old(jobs) - (set j | j in rolled) && forall j :: j in rolled ==> j in old(jobs)
      ensures aggregates == RolledUp(old(records), old(aggregates), rolled)
      ensures (forall i, j :: 0 <= i < j < |rolled| ==> Sooner(rolled[i], rolled[j])) && forall x, y :: x in rolled && y in jobs ==> Sooner(x, y)
    {
      rolled := [];
      var count := 0;
      while count < 100 && jobs != map[]
        invariant count <= 100 && |rolled| == count
        invariant State() == old(State()).(jobs := jobs)
        invariant jobs == old(jobs) - (set j | j in rolled) && forall j :: j in rolled ==> j in old(jobs)
        invariant aggregates == RolledUp(old(records), old(aggregates), rolled)
        invariant (forall i, j :: 0 <= i < j < |rolled| ==> Sooner(rolled[i], rolled[j])) && forall x, y :: x in rolled && y in jobs ==> Sooner(x, y)
      {
        var job := First(jobs);
        RollJob(job);
        assert (rolled + [job])[..|rolled|] == rolled;
        rolled := rolled + [job];
        count := count + 1;
      }
    }

    method RollJob(job: Job)
      requires job in jobs
      modifies this
      ensures State() == old(State()).(jobs := old(jobs) - {job})
      ensures aggregates == old(aggregates) + Sums(old(records), job, Users) + Sums(old(records), job, Nodes)
    {
      var sums := SumRows(job, Users);
      aggregates := aggregates + sums;
      sums := SumRows(job, Nodes);
      aggregates := aggregates + sums;
      jobs := jobs - {job};
    }

    // The rows of a period, summed by group.
    method SumRows(job: Job, half: Half) returns (sums: map<AggregateKey, Bytes>)
      ensures sums == Sums(records, job, half)
    {
      sums := map[];
      var left := records.Keys;
      ghost var done: map<Cell, Bytes> := map[];
      assert sums == Sums(done, job, half);
      while left != {}
        invariant left <= records.Keys && done == map c | c in records && c !in left :: records[c]
        invariant sums == Sums(done, job, half)
        decreases |left|
      {
        var c := Pick(left);
        SumsAdd(done, c, records[c], job, half);
        if InPeriod(c.slot, job.grain, job.period) && InHalf(GroupOf(c), half) {
          var key := AggregateKey(GroupOf(c), job.grain, job.period);
          sums := sums[key := Plus(Get(sums, key), records[c])];
        }
        done := done[c := records[c]];
        left := left - {c};
      }
      assert done == records;
    }

    // Rows are kept for thirty days, and as long as a due job has the start of their hour or of their day; hourly sums are
    // kept for 180 days and daily ones for 730.
    method Cleanup(now: int)
      modifies this
      ensures State() == Cleaned(old(State()), now)
      ensures forall c :: c in records <==> c in old(records) && (c.slot >= now - 30 * DAY || Awaited(jobs, c.slot))
      ensures forall c, j :: c in old(records) && j in jobs && j.period == PeriodOf(j.grain, c.slot) ==> c in records
      ensures forall c :: c in records ==> records[c] == old(records[c])
      ensures aggregates == map key | key in old(aggregates) && key.period >= now - (if key.grain == Hourly then 180 else 730) * DAY :: old(aggregates)[key]
    {
      CleanRecords(now);
      CleanedRows(old(State()), records, now);
      aggregates := map key | key in aggregates && !(
        || (key.grain == Hourly && key.period < now - 180 * DAY)
        || (key.grain == Daily && key.period < now - 730 * DAY)) :: aggregates[key];
    }

    method CleanRecords(now: int)
      modifies this`records
      ensures State() == Cleaned(old(State()), now)
    {
      records := map c | c in records && !(c.slot < now - RECORDS_KEPT
        && forall j :: j in jobs ==> j.period != PeriodOf(Hourly, c.slot) && j.period != PeriodOf(Daily, c.slot)) :: records[c];
    }
  }

  lemma CleanedRows(t: Tables, after: map<Cell, Bytes>, now: int)
    requires after == Cleaned(t, now).records
    ensures forall c :: c in after <==> c in t.records && (c.slot >= now - 30 * DAY || Awaited(t.jobs, c.slot))
    ensures forall c, j :: c in t.records && j in t.jobs && j.period == PeriodOf(j.grain, c.slot) ==> c in after
    ensures forall c :: c in after ==> after[c] == t.records[c]
  {
    forall c | c in t.records ensures Expired(t, c, now) <==> !(c.slot >= now - 30 * DAY || Awaited(t.jobs, c.slot)) {
      AwaitedExactly(t.jobs, c.slot);
    }
  }

  // A due job has the start of the slot's hour or of its day.
  ghost predicate Awaited(jobs: map<Job, nat>, slot: int) {
    exists j :: j in jobs && (j.period == slot - slot % HOUR || j.period == slot - slot % DAY)
  }

  lemma AwaitedExactly(jobs: map<Job, nat>, slot: int)
    ensures Awaited(jobs, slot) <==> !forall j :: j in jobs ==> j.period != PeriodOf(Hourly, slot) && j.period != PeriodOf(Daily, slot)
  {
  }

  // The legality check of a report, series by series.
  method Validate(report: Report, node: int, now: int) returns (valid: bool)
    ensures valid <==> ValidReport(report, node, now)
  {
    if report.node != node || node <= 0 || report.sequence <= 0 || |report.samples| > 4000
       || report.end <= report.start || report.end - report.start > DAY
       || report.end > now + MINUTE || report.start < now - WEEK {
      return false;
    }
    var seen: set<(int, int)> := {};
    var i := 0;
    while i < |report.samples|
      invariant i <= |report.samples|
      invariant forall j :: 0 <= j < i ==> ValidSample(report.samples[j])
      invariant seen == set j | 0 <= j < i :: KeyOf(report.samples[j])
      invariant DistinctSeries(report.samples[..i])
    {
      var s := report.samples[i];
      if !ValidSample(s) { return false; }
      if KeyOf(s) in seen { return false; }
      seen := seen + {KeyOf(s)};
      i := i + 1;
    }
    assert report.samples[..i] == report.samples;
    return true;
  }

  // Jobs are taken by period, and the day before its first hour, as the names of the grains sort.
  predicate Sooner(x: Job, y: Job) {
    x.period < y.period || (x.period == y.period && (x.grain == Daily || y.grain == Hourly))
  }

  method First(jobs: map<Job, nat>) returns (job: Job)
    requires jobs != map[]
    ensures job in jobs && forall j :: j in jobs ==> Sooner(job, j)
  {
    var left := jobs.Keys;
    job := Pick(left);
    left := left - {job};
    while left != {}
      invariant left <= jobs.Keys && job in jobs && forall j :: j in jobs && j !in left ==> Sooner(job, j)
      decreases |left|
    {
      var next := Pick(left);
      if !Sooner(job, next) { job := next; }
      left := left - {next};
    }
  }

  // ---- Tying a method to its function ----

  // After an error the tables are of no interest: the caller puts them back.
  ghost predicate Agree(result: Result<Tables, Error>, state: Tables, error: Option<Error>) {
    match result
    case Ok(t) => error == None && state == t
    case Err(e) => error == Some(e)
  }

  lemma NextSample(t: Tables, report: Report, catalog: Catalog, samples: seq<Sample>, i: nat)
    requires i < |samples| && ApplySamples(t, report, catalog, samples[..i]).Ok?
    ensures ApplySamples(t, report, catalog, samples[..i + 1])
         == ApplySample(ApplySamples(t, report, catalog, samples[..i]).value, report, catalog, samples[i])
  {
    assert samples[..i + 1][..i] == samples[..i];
  }

  lemma {:induction false} StoppedAt(t: Tables, report: Report, catalog: Catalog, samples: seq<Sample>, i: nat)
    requires i <= |samples| && ApplySamples(t, report, catalog, samples[..i]).Err?
    ensures ApplySamples(t, report, catalog, samples) == ApplySamples(t, report, catalog, samples[..i])
    decreases |samples| - i
  {
    if i < |samples| {
      assert samples[..i + 1][..i] == samples[..i];
      StoppedAt(t, report, catalog, samples, i + 1);
    } else {
      assert samples[..i] == samples;
    }
  }

  lemma NextBucketOf(t: Tables, node: int, series: Series, buckets: seq<Bucket>, i: nat)
    requires i < |buckets| && WriteBuckets(t, node, series, buckets[..i]).Ok?
    ensures WriteBuckets(t, node, series, buckets[..i + 1]) == WriteBucket(WriteBuckets(t, node, series, buckets[..i]).value, node, series, buckets[i])
  {
    assert buckets[..i + 1][..i] == buckets[..i];
  }

  lemma {:induction false} WritingStoppedAt(t: Tables, node: int, series: Series, buckets: seq<Bucket>, i: nat)
    requires i <= |buckets| && WriteBuckets(t, node, series, buckets[..i]).Err?
    ensures WriteBuckets(t, node, series, buckets) == WriteBuckets(t, node, series, buckets[..i])
    decreases |buckets| - i
  {
    if i < |buckets| {
      assert buckets[..i + 1][..i] == buckets[..i];
      WritingStoppedAt(t, node, series, buckets, i + 1);
    } else {
      assert buckets[..i] == buckets;
    }
  }

  // ---- Rollups as a function ----

  ghost function RolledUp(records: map<Cell, Bytes>, aggregates: map<AggregateKey, Bytes>, rolled: seq<Job>): map<AggregateKey, Bytes> {
    if rolled == [] then aggregates
    else
      var job := rolled[|rolled| - 1];
      RolledUp(records, aggregates, rolled[..|rolled| - 1]) + Sums(records, job, Users) + Sums(records, job, Nodes)
  }

  // One more row adds to the sum of its group, and to no other.
  lemma SumsAdd(done: map<Cell, Bytes>, c: Cell, v: Bytes, job: Job, half: Half)
    requires c !in done
    ensures Sums(done[c := v], job, half)
         == if InPeriod(c.slot, job.grain, job.period) && InHalf(GroupOf(c), half) then
              var key := AggregateKey(GroupOf(c), job.grain, job.period);
              Sums(done, job, half)[key := Plus(Get(Sums(done, job, half), key), v)]
            else Sums(done, job, half)
  {
    var x, y := Sums(done, job, half), Sums(done[c := v], job, half);
    forall k {
      KeysAdd(done, c, v, job, half, k);
    }
    forall k | k in y.Keys {
      SumAddsAt(done, c, v, job, half, k);
    }
    if InPeriod(c.slot, job.grain, job.period) && InHalf(GroupOf(c), half) {
      var key := AggregateKey(GroupOf(c), job.grain, job.period);
      SameEntries(y, x[key := Plus(Get(x, key), v)]);
    } else {
      SameEntries(y, x);
    }
  }

  lemma SameEntries(x: map<AggregateKey, Bytes>, y: map<AggregateKey, Bytes>)
    requires forall k :: k in x <==> k in y
    requires forall k :: k in x ==> x[k] == y[k]
    ensures x == y
  {
  }

  lemma KeysAdd(done: map<Cell, Bytes>, c: Cell, v: Bytes, job: Job, half: Half, k: AggregateKey)
    requires c !in done
    ensures k in KeysOf(done[c := v], job, half) <==>
      k in KeysOf(done, job, half)
      || (InPeriod(c.slot, job.grain, job.period) && InHalf(GroupOf(c), half) && k == AggregateKey(GroupOf(c), job.grain, job.period))
  {
    var more := done[c := v];
    if k in KeysOf(done, job, half) {
      var x :| x in done && InPeriod(x.slot, job.grain, job.period) && InHalf(GroupOf(x), half) && AggregateKey(GroupOf(x), job.grain, job.period) == k;
      assert x in more;
    }
    if InPeriod(c.slot, job.grain, job.period) && InHalf(GroupOf(c), half) && k == AggregateKey(GroupOf(c), job.grain, job.period) {
      assert c in more;
    }
  }

  lemma SumAddsAt(done: map<Cell, Bytes>, c: Cell, v: Bytes, job: Job, half: Half, k: AggregateKey)
    requires c !in done && k in KeysOf(done[c := v], job, half)
    ensures Sums(done[c := v], job, half)[k]
         == if InPeriod(c.slot, job.grain, job.period) && InHalf(GroupOf(c), half) && k == AggregateKey(GroupOf(c), job.grain, job.period)
            then Plus(Get(Sums(done, job, half), k), v) else Get(Sums(done, job, half), k)
  {
    KeysAdd(done, c, v, job, half, k);
    TotalOnlyAdd(done, RowsOf(k), c, v);
    assert done[c := Plus(Get(done, c), v)] == done[c := v];
    KeyShape(done[c := v], job, half, k);
    NoRowsNoTotal(done, job, half, k);
  }

  lemma KeyShape(records: map<Cell, Bytes>, job: Job, half: Half, k: AggregateKey)
    requires k in KeysOf(records, job, half)
    ensures k.grain == job.grain && k.period == job.period && InHalf(k.group, half)
  {
  }

  // A group without rows in the period has no sum.
  lemma NoRowsNoTotal(records: map<Cell, Bytes>, job: Job, half: Half, k: AggregateKey)
    requires k.grain == job.grain && k.period == job.period && InHalf(k.group, half)
    ensures Get(Sums(records, job, half), k) == Total(Only(records, RowsOf(k)))
  {
    if k !in KeysOf(records, job, half) {
      forall c | c in records ensures !RowsOf(k)(c) {
        assert RowsOf(k)(c) ==> AggregateKey(GroupOf(c), job.grain, job.period) == k;
      }
      assert Only(records, RowsOf(k)) == map[];
    }
  }

  // One job of the loop is one uninterrupted rollup.
  lemma RollupIsSteps(s: System, job: Job)
    requires s.flight.None? && job in s.tables.jobs
    ensures var t := Next(Next(Next(Next(s, Begin(job)), SumUsers), SumNodes), Finish);
            && t.tables.jobs == s.tables.jobs - {job} && t.tables.records == s.tables.records
            && t.aggregates == RolledUp(s.tables.records, s.aggregates, [job])
  {
    assert [job][..0] == [];
  }
}
