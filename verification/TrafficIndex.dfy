/** The aggregates agree with the rows: in every run of reports, rollups and clean-ups. */
module TrafficIndex {
  import opened Common
  import opened TrafficBytes
  import opened TrafficSplit
  import opened TrafficTables
  import opened TrafficRollup

  ghost predicate InJob(c: Cell, job: Job) { InPeriod(c.slot, job.grain, job.period) }

  // The row is there with everything that was ever written to it.
  ghost predicate Whole(records: map<Cell, Bytes>, written: map<Cell, Bytes>, c: Cell) {
    (c in records <==> c in written) && (c in records ==> records[c] == written[c])
  }

  ghost predicate Intact(records: map<Cell, Bytes>, written: map<Cell, Bytes>, job: Job) {
    forall c :: InJob(c, job) ==> Whole(records, written, c)
  }

  predicate Aligned(job: Job) { job.period == PeriodOf(job.grain, job.period) }

  // Rows are complete for every job that is due, and for every slot that is recent.
  ghost predicate Complete(s: System) {
    && (forall job :: job in s.tables.jobs ==> Aligned(job) && Intact(s.tables.records, s.written, job))
    && (forall c: Cell :: c.slot >= s.now - RECORDS_KEPT ==> Whole(s.tables.records, s.written, c))
    && (forall c :: c in s.tables.records ==> c in s.written)
  }

  // While its revision has not moved, what a rollup has summed is still the sum of the rows.
  ghost predicate Current(s: System) {
    s.flight.Some? ==>
      var f := s.flight.value;
      && f.job in s.tables.jobs && f.revision <= s.tables.jobs[f.job]
      && (f.users.Some? ==> OnlyFor(f.users.value, f.job, Users) && f.users.value.Keys <= KeysOf(s.written, f.job, Users))
      && (f.nodes.Some? ==> OnlyFor(f.nodes.value, f.job, Nodes) && f.nodes.value.Keys <= KeysOf(s.written, f.job, Nodes))
      && (f.revision == s.tables.jobs[f.job] ==>
            && (f.users.Some? ==> f.users.value == Sums(s.tables.records, f.job, Users))
            && (f.nodes.Some? ==> f.nodes.value == Sums(s.tables.records, f.job, Nodes)))
  }

  ghost predicate OnlyFor(sums: map<AggregateKey, Bytes>, job: Job, half: Half) {
    forall key :: key in sums ==> key.grain == job.grain && key.period == job.period && InHalf(key.group, half)
  }

  ghost predicate Backed(s: System) {
    forall key :: key in s.aggregates ==> exists c :: c in s.written && RowsOf(key)(c)
  }

  ghost predicate AggregateHolds(s: System, key: AggregateKey) {
    Get(s.aggregates, key) == Total(Only(s.written, RowsOf(key)))
  }

  // No rollup is due for the period of this aggregate, and the aggregate is still kept.
  ghost predicate Settled(s: System, key: AggregateKey) {
    var job := Job(key.grain, key.period);
    Aligned(job) && job !in s.tables.jobs && key.period >= s.now - Kept(key.grain)
  }

  // The aggregate of every period without a due job holds all bytes ever written there, until its own retention ends.
  ghost predicate Indexed(s: System) {
    forall key :: Settled(s, key) ==> AggregateHolds(s, key)
  }

  ghost predicate Sound(s: System) {
    Complete(s) && Current(s) && Backed(s) && Indexed(s)
  }

  // ---- Periods ----

  lemma PeriodFacts(grain: Grain, slot: int)
    ensures PeriodOf(grain, slot) <= slot < PeriodOf(grain, slot) + Length(grain)
    ensures Aligned(Job(grain, PeriodOf(grain, slot)))
  {
    var n := Length(grain);
    assert PeriodOf(grain, slot) == slot - slot % n;
    assert slot == n * (slot / n) + slot % n;
    assert PeriodOf(grain, slot) == n * (slot / n);
    assert PeriodOf(grain, slot) % n == 0;
  }

  // A slot lies in exactly one period of a grain.
  lemma PeriodUnique(job: Job, slot: int)
    requires Aligned(job) && InPeriod(slot, job.grain, job.period)
    ensures job.period == PeriodOf(job.grain, slot)
  {
    var n := Length(job.grain);
    PeriodFacts(job.grain, slot);
    assert job.period % n == 0;
    assert job.period == n * (job.period / n);
    assert slot == n * (slot / n) + slot % n;
    SamePeriod(job.period / n, slot / n, slot % n, n);
  }

  lemma SamePeriod(a: int, b: int, r: int, n: int)
    requires n > 0 && 0 <= r < n && n * a <= n * b + r < n * a + n
    ensures a == b
  {
    Multiples(a + 1, b, n);
    Multiples(b + 1, a, n);
  }

  lemma Multiples(x: int, y: int, n: int)
    requires n > 0
    ensures x <= y ==> n * x <= n * y
  {
  }

  // ---- Reports ----

  lemma GrownAt(written: map<Cell, Bytes>, before: map<Cell, Bytes>, after: map<Cell, Bytes>, c: Cell)
    requires Whole(before, written, c) && (c in before ==> c in after)
    ensures Whole(after, Grown(written, before, after), c)
  {
  }

  lemma ReportComplete(s: System, after: Tables)
    requires Complete(s) && Touches(s.tables, after, Reach(s.now))
    ensures Complete(s.(tables := after, written := Grown(s.written, s.tables.records, after.records)))
  {
    var written := Grown(s.written, s.tables.records, after.records);
    forall job | job in after.jobs ensures Aligned(job) && Intact(after.records, written, job) {
      if job in s.tables.jobs {
        forall c | InJob(c, job) ensures Whole(after.records, written, c) {
          GrownAt(s.written, s.tables.records, after.records, c);
        }
      } else {
        NewJobIntact(s, after, job);
      }
    }
    forall c: Cell | c.slot >= s.now - RECORDS_KEPT ensures Whole(after.records, written, c) {
      GrownAt(s.written, s.tables.records, after.records, c);
    }
  }

  // A report makes rollups due only for periods whose rows are all still there.
  lemma NewJobIntact(s: System, after: Tables, job: Job)
    requires Complete(s) && Touches(s.tables, after, Reach(s.now)) && job in after.jobs && job !in s.tables.jobs
    ensures Aligned(job) && Intact(after.records, Grown(s.written, s.tables.records, after.records), job)
  {
    assert Recent(job, Reach(s.now));
    var slot :| slot >= Reach(s.now) && job.period == PeriodOf(job.grain, slot);
    PeriodFacts(job.grain, slot);
    forall c | InJob(c, job) ensures Whole(after.records, Grown(s.written, s.tables.records, after.records), c) {
      assert c.slot >= s.now - RECORDS_KEPT;
      GrownAt(s.written, s.tables.records, after.records, c);
    }
  }

  // Rows in the period of a job that has not become due do not change.
  lemma UntouchedPeriod(before: Tables, after: Tables, low: int, job: Job, c: Cell)
    requires Touches(before, after, low) && Aligned(job) && InJob(c, job)
    requires job in after.jobs ==> job in before.jobs && before.jobs[job] == after.jobs[job]
    ensures c in after.records <==> c in before.records
    ensures c in after.records ==> after.records[c] == before.records[c]
  {
    PeriodUnique(job, c.slot);
    assert Changed(before, after, c) ==> Due(before, after, job.grain, c.slot);
  }

  lemma SameSums(before: map<Cell, Bytes>, after: map<Cell, Bytes>, job: Job, half: Half)
    requires forall c :: InJob(c, job) ==> Whole(before, after, c)
    ensures Sums(before, job, half) == Sums(after, job, half)
  {
    forall key: AggregateKey | key.grain == job.grain && key.period == job.period ensures Only(before, RowsOf(key)) == Only(after, RowsOf(key)) {
      SameRows(before, after, key);
    }
    assert KeysOf(before, job, half) == KeysOf(after, job, half) by {
      forall key ensures key in KeysOf(before, job, half) <==> key in KeysOf(after, job, half) {
        SameKeys(before, after, job, half, key);
        SameKeys(after, before, job, half, key);
      }
    }
  }

  lemma SameKeys(before: map<Cell, Bytes>, after: map<Cell, Bytes>, job: Job, half: Half, key: AggregateKey)
    requires forall c :: InJob(c, job) ==> Whole(before, after, c)
    ensures key in KeysOf(before, job, half) ==> key in KeysOf(after, job, half)
  {
    if key in KeysOf(before, job, half) {
      var c :| c in before && InPeriod(c.slot, job.grain, job.period) && InHalf(GroupOf(c), half) && AggregateKey(GroupOf(c), job.grain, job.period) == key;
      assert InJob(c, job);
    }
  }

  lemma SameRows(before: map<Cell, Bytes>, after: map<Cell, Bytes>, key: AggregateKey)
    requires forall c :: InJob(c, Job(key.grain, key.period)) ==> Whole(before, after, c)
    ensures Only(before, RowsOf(key)) == Only(after, RowsOf(key))
  {
    forall c | RowsOf(key)(c) ensures Whole(before, after, c) {
      assert InJob(c, Job(key.grain, key.period));
    }
  }

  lemma ReportCurrent(s: System, after: Tables)
    requires Current(s) && Touches(s.tables, after, Reach(s.now)) && (forall job :: job in s.tables.jobs ==> Aligned(job))
    ensures Current(s.(tables := after, written := Grown(s.written, s.tables.records, after.records)))
  {
    if s.flight.Some? {
      var f := s.flight.value;
      var written := Grown(s.written, s.tables.records, after.records);
      KeysGrow(s.written, written, f.job, Users);
      KeysGrow(s.written, written, f.job, Nodes);
      if after.jobs[f.job] == f.revision {
        forall c | InJob(c, f.job) ensures Whole(s.tables.records, after.records, c) {
          UntouchedPeriod(s.tables, after, Reach(s.now), f.job, c);
        }
        SameSums(s.tables.records, after.records, f.job, Users);
        SameSums(s.tables.records, after.records, f.job, Nodes);
      }
    }
  }

  lemma KeysGrow(before: map<Cell, Bytes>, after: map<Cell, Bytes>, job: Job, half: Half)
    requires before.Keys <= after.Keys
    ensures KeysOf(before, job, half) <= KeysOf(after, job, half)
  {
  }

  lemma ReportIndexed(s: System, after: Tables)
    requires Indexed(s) && Complete(s) && Touches(s.tables, after, Reach(s.now))
    ensures Indexed(s.(tables := after, written := Grown(s.written, s.tables.records, after.records)))
  {
    var t := s.(tables := after, written := Grown(s.written, s.tables.records, after.records));
    forall key | Settled(t, key) ensures AggregateHolds(t, key)
    {
      var job := Job(key.grain, key.period);
      assert AggregateHolds(s, key);
      forall c | InJob(c, job) ensures Whole(s.written, t.written, c) {
        UntouchedPeriod(s.tables, after, Reach(s.now), job, c);
      }
      SameRows(s.written, t.written, key);
    }
  }

  lemma ReportSound(s: System, node: int, report: Report, catalog: Catalog)
    requires Sound(s)
    ensures Sound(Next(s, Arrives(node, report, catalog)))
  {
    var after := Ingest(s.tables, node, report, s.now, catalog).tables;
    IngestTouches(s.tables, node, report, s.now, catalog);
    ReportComplete(s, after);
    ReportCurrent(s, after);
    ReportIndexed(s, after);
  }

  // ---- Rollups ----

  lemma FinishSound(s: System)
    requires Sound(s)
    ensures Sound(Next(s, Finish))
  {
    if s.flight.Some? && s.flight.value.users.Some? && s.flight.value.nodes.Some? {
      var f := s.flight.value;
      var t := Finished(s, f);
      FinishBacked(s, f);
      forall key | Settled(t, key) ensures AggregateHolds(t, key)
      {
        if Job(key.grain, key.period) == f.job {
          FinishedHolds(s, f, key);
        } else {
          assert AggregateHolds(s, key);
          assert key !in f.users.value && key !in f.nodes.value;
        }
      }
    }
  }

  lemma FinishBacked(s: System, f: Flight)
    requires Sound(s) && s.flight == Some(f) && f.users.Some? && f.nodes.Some?
    ensures Backed(Finished(s, f))
  {
    forall key | key in Finished(s, f).aggregates ensures exists c :: c in s.written && RowsOf(key)(c) {
      if key in f.users.value {
        KeyBacked(s.written, f.job, Users, key);
      } else if key in f.nodes.value {
        KeyBacked(s.written, f.job, Nodes, key);
      }
    }
  }

  lemma KeyBacked(written: map<Cell, Bytes>, job: Job, half: Half, key: AggregateKey)
    requires key in KeysOf(written, job, half)
    ensures exists c :: c in written && RowsOf(key)(c)
  {
    var c :| c in written && InPeriod(c.slot, job.grain, job.period) && InHalf(GroupOf(c), half) && AggregateKey(GroupOf(c), job.grain, job.period) == key;
    assert RowsOf(key)(c);
  }

  // A rollup whose job goes leaves the exact totals of its period.
  lemma FinishedHolds(s: System, f: Flight, key: AggregateKey)
    requires Sound(s) && s.flight == Some(f) && f.users.Some? && f.nodes.Some?
    requires Job(key.grain, key.period) == f.job && s.tables.jobs[f.job] == f.revision
    ensures AggregateHolds(Finished(s, f), key)
  {
    var records := s.tables.records;
    SameRows(records, s.written, key);
    var half := if key.group.OfUserAndNode? then Users else Nodes;
    if key in KeysOf(records, f.job, half) {
      assert Sums(records, f.job, half)[key] == Total(Only(records, RowsOf(key)));
    } else {
      assert Only(records, RowsOf(key)) == map[] by {
        forall c | c in records ensures !RowsOf(key)(c) {
          assert RowsOf(key)(c) ==> AggregateKey(GroupOf(c), f.job.grain, f.job.period) == key;
        }
      }
      BackedByRows(s, f.job, half, key);
    }
  }

  // An aggregate of a period whose rows are all there has rows.
  lemma BackedByRows(s: System, job: Job, half: Half, key: AggregateKey)
    requires Backed(s) && Intact(s.tables.records, s.written, job)
    requires Job(key.grain, key.period) == job && InHalf(key.group, half)
    ensures key in s.aggregates ==> key in KeysOf(s.tables.records, job, half)
  {
    if key in s.aggregates {
      var c :| c in s.written && RowsOf(key)(c);
      assert InJob(c, job);
      assert Whole(s.tables.records, s.written, c);
      assert AggregateKey(GroupOf(c), job.grain, job.period) == key;
    }
  }

  lemma SumSound(s: System, half: Half)
    requires Sound(s)
    ensures Sound(Next(s, if half == Users then SumUsers else SumNodes))
  {
    if s.flight.Some? {
      assert KeysOf(s.tables.records, s.flight.value.job, half) <= KeysOf(s.written, s.flight.value.job, half);
      FlightOnly(s, Next(s, if half == Users then SumUsers else SumNodes));
    }
  }

  // ---- Clean-ups ----

  lemma CleanRecordsSound(s: System)
    requires Sound(s)
    ensures Sound(Next(s, CleanRecords))
  {
    var t := Next(s, CleanRecords);
    forall job, c | job in s.tables.jobs && InJob(c, job) ensures !Expired(s.tables, c, s.now) {
      PeriodUnique(job, c.slot);
    }
    forall job | job in t.tables.jobs ensures Aligned(job) && Intact(t.tables.records, t.written, job) {
      forall c | InJob(c, job) ensures Whole(t.tables.records, t.written, c) {
        assert Whole(s.tables.records, s.written, c);
      }
    }
    forall c: Cell | c.slot >= s.now - RECORDS_KEPT ensures Whole(t.tables.records, t.written, c) {
      assert Whole(s.tables.records, s.written, c);
    }
    if s.flight.Some? {
      SameSums(s.tables.records, t.tables.records, s.flight.value.job, Users);
      SameSums(s.tables.records, t.tables.records, s.flight.value.job, Nodes);
    }
    forall key | Settled(t, key) ensures AggregateHolds(t, key)
    {
      assert AggregateHolds(s, key);
    }
  }

  lemma CleanAggregatesSound(s: System)
    requires Sound(s)
    ensures Sound(Next(s, CleanAggregates))
  {
    var t := Next(s, CleanAggregates);
    forall key | Settled(t, key) ensures AggregateHolds(t, key)
    {
      assert AggregateHolds(s, key);
    }
  }

  lemma WaitSound(s: System, duration: nat)
    requires Sound(s)
    ensures Sound(Next(s, Wait(duration)))
  {
    var t := Next(s, Wait(duration));
    forall key | Settled(t, key) ensures AggregateHolds(t, key)
    {
      assert AggregateHolds(s, key);
    }
  }

  // ---- Runs ----

  lemma NextSound(s: System, step: Step)
    requires Sound(s)
    ensures Sound(Next(s, step))
  {
    match step
    case Arrives(node, report, catalog) => ReportSound(s, node, report, catalog);
    case Begin(job) => BeginSound(s, job);
    case SumUsers => SumSound(s, Users);
    case SumNodes => SumSound(s, Nodes);
    case Finish => FinishSound(s);
    case Abort => AbortSound(s);
    case CleanRecords => CleanRecordsSound(s);
    case CleanAggregates => CleanAggregatesSound(s);
    case Wait(duration) => WaitSound(s, duration);
  }

  lemma BeginSound(s: System, job: Job)
    requires Sound(s)
    ensures Sound(Next(s, Begin(job)))
  {
    FlightOnly(s, Next(s, Begin(job)));
  }

  lemma AbortSound(s: System)
    requires Sound(s)
    ensures Sound(Next(s, Abort))
  {
    FlightOnly(s, Next(s, Abort));
  }

  lemma FlightOnly(s: System, t: System)
    requires Sound(s) && t == s.(flight := t.flight) && Current(t)
    ensures Sound(t)
  {
    forall key | Settled(t, key) ensures AggregateHolds(t, key)
    {
      assert AggregateHolds(s, key);
    }
  }

  lemma {:induction false} RunSound(users: map<int, User>, now: int, steps: seq<Step>)
    ensures Sound(Execute(Start(users, now), steps))
  {
    if steps == [] {
      var s := Start(users, now);
      forall key ensures AggregateHolds(s, key) {
        assert Only(s.written, RowsOf(key)) == map[];
      }
    } else {
      RunSound(users, now, steps[..|steps| - 1]);
      NextSound(Execute(Start(users, now), steps[..|steps| - 1]), steps[|steps| - 1]);
    }
  }

  // The rows that an aggregate sums: those of a user on a node, or those of a node's inbounds, in its hour or its day.
  ghost function Within(key: AggregateKey): Cell -> bool {
    (c: Cell) =>
      && key.period <= c.slot < key.period + (if key.grain == Hourly then HOUR else DAY)
      && match key.group
         case OfUserAndNode(user, node) => c.node == node && c.series.UserSeries? && c.series.user == user
         case OfNode(node) => c.node == node && c.series.InboundSeries?
  }

  lemma WithinIsRows(m: map<Cell, Bytes>, key: AggregateKey)
    ensures Only(m, Within(key)) == Only(m, RowsOf(key))
  {
    forall c: Cell ensures Within(key)(c) <==> RowsOf(key)(c) {
    }
  }

  // The aggregate of a period with no job due is the sum of all bytes ever written to its rows, as long as it is kept, and
  // while the rows are kept it is the sum of the rows.
  lemma AggregatesAgree(users: map<int, User>, now: int, steps: seq<Step>, key: AggregateKey)
    requires var s := Execute(Start(users, now), steps);
             && Aligned(Job(key.grain, key.period)) && Job(key.grain, key.period) !in s.tables.jobs
             && key.period >= s.now - (if key.grain == Hourly then 180 else 730) * DAY
    ensures var s := Execute(Start(users, now), steps);
            && Get(s.aggregates, key) == Total(Only(s.written, Within(key)))
            && (key.period >= s.now - 30 * DAY ==> Get(s.aggregates, key) == Total(Only(s.tables.records, Within(key))))
  {
    RunSound(users, now, steps);
    var s := Execute(Start(users, now), steps);
    assert Settled(s, key);
    assert AggregateHolds(s, key);
    WithinIsRows(s.written, key);
    WithinIsRows(s.tables.records, key);
    if key.period >= s.now - RECORDS_KEPT {
      SameRows(s.tables.records, s.written, key);
    }
  }

  // While a job is due, no row of its period is deleted.
  lemma DuePeriodsAreIntact(users: map<int, User>, now: int, steps: seq<Step>, job: Job, c: Cell)
    requires var s := Execute(Start(users, now), steps); job in s.tables.jobs && InPeriod(c.slot, job.grain, job.period)
    ensures var s := Execute(Start(users, now), steps); Get(s.tables.records, c) == Get(s.written, c)
  {
    RunSound(users, now, steps);
    var s := Execute(Start(users, now), steps);
    assert Intact(s.tables.records, s.written, job);
    assert InJob(c, job);
    assert Whole(s.tables.records, s.written, c);
  }
}
