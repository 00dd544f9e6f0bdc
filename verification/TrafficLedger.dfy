/**
  Conservation: over every sequence of reports, resets and quota changes, the rows of every series hold what its counters
  grew by, and what an account says was used over its lifetime is what its rows hold, what its counters grew by, and what
  it uses now plus what resets took away.
*/
module TrafficLedger {
  import opened Common
  import opened TrafficBytes
  import opened TrafficSplit
  import opened TrafficTables

  // The series that a sum is about: those of a user on all nodes, or one series of one node.
  datatype Scope = OfUser(user: int) | OfSeries(node: int, series: Series)

  predicate InScope(scope: Scope, node: int, series: Series) {
    match scope
    case OfUser(user) => series.UserSeries? && series.user == user
    case OfSeries(n, x) => n == node && x == series
  }

  ghost function CellsIn(scope: Scope): Cell -> bool {
    (c: Cell) => InScope(scope, c.node, c.series)
  }

  ghost function CountersIn(scope: Scope): CursorKey -> bool {
    (k: CursorKey) => InScope(scope, k.node, k.series)
  }

  // What every counter has grown by since it was first seen.
  ghost function Growth(t: Tables): map<CursorKey, Bytes> {
    map k | k in t.cursors && k in t.baselines :: Minus(t.cursors[k].counter, t.baselines[k])
  }

  function Snapshots(events: seq<AccountEvent>, user: int): Bytes {
    if events == [] then ZERO
    else
      var e := events[|events| - 1];
      var earlier := Snapshots(events[..|events| - 1], user);
      if e.kind == UsageReset && e.user == user then Plus(earlier, e.snapshot) else earlier
  }

  ghost function RowTotal(t: Tables, scope: Scope): Bytes { Total(Only(t.records, CellsIn(scope))) }

  ghost function GrowthTotal(t: Tables, scope: Scope): Bytes { Total(Only(Growth(t), CountersIn(scope))) }

  // An account agrees with its rows, with its counters and with its resets.
  ghost predicate Agrees(account: Account, rows: Bytes, growth: Bytes, snapshots: Bytes) {
    && rows == account.lifetime && growth == account.lifetime
    && Plus(account.used, snapshots) == account.lifetime
    && Below(ZERO, account.used) && Below(account.used, account.lifetime) && Fits(account.lifetime)
  }

  ghost predicate Conserved(t: Tables, user: int) {
    Agrees(AccountOf(t, user), RowTotal(t, OfUser(user)), GrowthTotal(t, OfUser(user)), Snapshots(t.events, user))
  }

  ghost predicate Kept(t: Tables, scope: Scope) { RowTotal(t, scope) == GrowthTotal(t, scope) }

  ghost predicate Balanced(t: Tables) {
    && t.baselines.Keys == t.cursors.Keys
    && (forall scope :: Kept(t, scope))
    && forall user :: Conserved(t, user)
  }

  // ---- What one sample changes ----

  function SumOf(buckets: seq<Bucket>): Bytes { Bytes(SumUp(buckets), SumDown(buckets)) }

  ghost predicate RowsGrew(before: Tables, after: Tables, node: int, series: Series, d: Bytes, scope: Scope) {
    RowTotal(after, scope) == if InScope(scope, node, series) then Plus(RowTotal(before, scope), d) else RowTotal(before, scope)
  }

  ghost predicate Wrote(before: Tables, after: Tables, node: int, series: Series, d: Bytes) {
    && after == before.(records := after.records, jobs := after.jobs)
    && forall scope :: RowsGrew(before, after, node, series, d, scope)
  }

  lemma WriteBucketWrote(t: Tables, node: int, series: Series, b: Bucket)
    requires WriteBucket(t, node, series, b).Ok?
    ensures Wrote(t, WriteBucket(t, node, series, b).value, node, series, Bytes(b.up, b.down))
  {
    forall scope ensures RowsGrew(t, WriteBucket(t, node, series, b).value, node, series, Bytes(b.up, b.down), scope) {
      TotalOnlyAdd(t.records, CellsIn(scope), Cell(node, series, b.at), Bytes(b.up, b.down));
    }
  }

  lemma {:induction false} WriteBucketsWrote(t: Tables, node: int, series: Series, buckets: seq<Bucket>)
    requires WriteBuckets(t, node, series, buckets).Ok?
    ensures Wrote(t, WriteBuckets(t, node, series, buckets).value, node, series, SumOf(buckets))
  {
    if buckets != [] {
      var k := |buckets| - 1;
      var written := WriteBuckets(t, node, series, buckets[..k]).value;
      WriteBucketsWrote(t, node, series, buckets[..k]);
      WriteBucketWrote(written, node, series, buckets[k]);
      SumAppend(buckets[..k], buckets[k]);
      assert buckets == buckets[..k] + [buckets[k]];
      WroteTwice(t, written, WriteBuckets(t, node, series, buckets).value, node, series, SumOf(buckets[..k]), Bytes(buckets[k].up, buckets[k].down));
    }
  }

  lemma WroteTwice(x: Tables, y: Tables, z: Tables, node: int, series: Series, d: Bytes, e: Bytes)
    requires Wrote(x, y, node, series, d) && Wrote(y, z, node, series, e)
    ensures Wrote(x, z, node, series, Plus(d, e))
  {
    forall scope ensures RowsGrew(x, z, node, series, Plus(d, e), scope) {
      assert RowsGrew(x, y, node, series, d, scope) && RowsGrew(y, z, node, series, e, scope);
      Accumulate(RowTotal(x, scope), RowTotal(y, scope), RowTotal(z, scope), d, e);
    }
  }

  lemma Accumulate(x: Bytes, y: Bytes, z: Bytes, d: Bytes, e: Bytes)
    ensures y == Plus(x, d) && z == Plus(y, e) ==> z == Plus(x, Plus(d, e))
  {
  }

  // The account after a growth.
  ghost predicate Credited(before: Tables, after: Tables, user: int, d: Bytes) {
    && (user <= 0 ==> after.accounts == before.accounts)
    && (user > 0 ==>
          var account := AccountOf(before, user);
          && after.accounts == before.accounts[user := account.(used := Plus(account.used, d), lifetime := Plus(account.lifetime, d))]
          && Fits(Plus(account.lifetime, d)))
  }

  ghost predicate Grew(before: Tables, after: Tables, node: int, s: Sample, d: Bytes) {
    && after == before.(records := after.records, jobs := after.jobs, accounts := after.accounts)
    && Below(ZERO, d)
    && Credited(before, after, s.user, d)
    && Wrote(before, after.(accounts := before.accounts), node, SeriesOf(s), d)
  }

  lemma GrowthGrew(t: Tables, node: int, s: Sample, from: Cursor, end: int)
    requires ApplyGrowth(t, node, s, from, end).Ok?
    ensures Grew(t, ApplyGrowth(t, node, s, from, end).value, node, s, Minus(Counter(s), from.counter))
  {
    var d := Minus(Counter(s), from.counter);
    var buckets := Split(from.at, end, d.up, d.down).value;
    SplitConserves(from.at, end, d.up, d.down);
    WriteBucketsWrote(t, node, SeriesOf(s), buckets);
    var written := WriteBuckets(t, node, SeriesOf(s), buckets).value;
    var grown := ApplyGrowth(t, node, s, from, end).value;
    assert grown.(accounts := t.accounts) == written;
  }

  // Moving the cursor of one series.
  lemma GrowthMoves(before: Tables, after: Tables, key: CursorKey, cursor: Cursor, scope: Scope)
    requires before.baselines.Keys == before.cursors.Keys && key in before.cursors
    requires after.cursors == before.cursors[key := cursor] && after.baselines == before.baselines
    ensures var d := Minus(cursor.counter, before.cursors[key].counter);
            GrowthTotal(after, scope) == if InScope(scope, key.node, key.series) then Plus(GrowthTotal(before, scope), d) else GrowthTotal(before, scope)
  {
    var d := Minus(cursor.counter, before.cursors[key].counter);
    assert Growth(after) == Growth(before)[key := Plus(Get(Growth(before), key), d)];
    TotalOnlyAdd(Growth(before), CountersIn(scope), key, d);
  }

  lemma GrowthStarts(before: Tables, after: Tables, key: CursorKey, cursor: Cursor, scope: Scope)
    requires before.baselines.Keys == before.cursors.Keys && key !in before.cursors
    requires after.cursors == before.cursors[key := cursor] && after.baselines == before.baselines[key := cursor.counter]
    ensures GrowthTotal(after, scope) == GrowthTotal(before, scope)
  {
    assert Growth(after) == Growth(before)[key := Plus(Get(Growth(before), key), ZERO)];
    TotalOnlyAdd(Growth(before), CountersIn(scope), key, ZERO);
  }

  lemma FirstSampleBalances(t: Tables, after: Tables, key: CursorKey, cursor: Cursor)
    requires Balanced(t) && key !in t.cursors
    requires after == t.(cursors := t.cursors[key := cursor], baselines := t.baselines[key := cursor.counter])
    ensures Balanced(after)
  {
    forall scope ensures Kept(after, scope) {
      assert Kept(t, scope);
      GrowthStarts(t, after, key, cursor, scope);
    }
    forall user ensures Conserved(after, user) {
      assert Conserved(t, user);
      GrowthStarts(t, after, key, cursor, OfUser(user));
    }
  }

  // What a growth of one series does to the rows of a scope.
  lemma LaterSampleRows(t: Tables, grown: Tables, node: int, s: Sample, d: Bytes, scope: Scope)
    requires Grew(t, grown, node, s, d)
    ensures RowTotal(grown, scope) == if InScope(scope, node, SeriesOf(s)) then Plus(RowTotal(t, scope), d) else RowTotal(t, scope)
  {
    SameRows(grown.(accounts := t.accounts), grown, scope);
    assert RowsGrew(t, grown.(accounts := t.accounts), node, SeriesOf(s), d, scope);
  }

  // The growth of one series, for rows and counters of a scope alike.
  ghost predicate BothGrew(t: Tables, after: Tables, key: CursorKey, d: Bytes, scope: Scope) {
    if InScope(scope, key.node, key.series)
    then RowTotal(after, scope) == Plus(RowTotal(t, scope), d) && GrowthTotal(after, scope) == Plus(GrowthTotal(t, scope), d)
    else RowTotal(after, scope) == RowTotal(t, scope) && GrowthTotal(after, scope) == GrowthTotal(t, scope)
  }

  lemma LaterSampleSums(t: Tables, grown: Tables, after: Tables, key: CursorKey, s: Sample, end: int, scope: Scope)
    requires t.baselines.Keys == t.cursors.Keys && key in t.cursors && key.series == SeriesOf(s)
    requires Grew(t, grown, key.node, s, Minus(Counter(s), t.cursors[key].counter))
    requires after == grown.(cursors := grown.cursors[key := Cursor(Counter(s), end)])
    ensures BothGrew(t, after, key, Minus(Counter(s), t.cursors[key].counter), scope)
  {
    GrowthMoves(t, after, key, Cursor(Counter(s), end), scope);
    LaterSampleRows(t, grown, key.node, s, Minus(Counter(s), t.cursors[key].counter), scope);
    SameRows(grown, after, scope);
  }

  // What one user sees of it.
  lemma LaterSampleConserves(t: Tables, grown: Tables, after: Tables, key: CursorKey, s: Sample, end: int, user: int)
    requires t.baselines.Keys == t.cursors.Keys && Conserved(t, user) && key in t.cursors && key.series == SeriesOf(s)
    requires Grew(t, grown, key.node, s, Minus(Counter(s), t.cursors[key].counter))
    requires after == grown.(cursors := grown.cursors[key := Cursor(Counter(s), end)])
    ensures Conserved(after, user)
  {
    var d := Minus(Counter(s), t.cursors[key].counter);
    AccountGrew(t, after, s.user, d, user);
    LaterSampleSums(t, grown, after, key, s, end, OfUser(user));
    BothConserved(t, after, key, s.user, d, user);
  }

  lemma BothConserved(t: Tables, after: Tables, key: CursorKey, credited: int, d: Bytes, user: int)
    requires Conserved(t, user) && BothGrew(t, after, key, d, OfUser(user)) && after.events == t.events && Below(ZERO, d)
    requires InScope(OfUser(user), key.node, key.series) <==> credited > 0 && credited == user
    requires var x, y := AccountOf(t, user), AccountOf(after, user);
             if credited > 0 && credited == user then
               y == x.(used := Plus(x.used, d), lifetime := Plus(x.lifetime, d)) && Fits(y.lifetime)
             else y == x
    ensures Conserved(after, user)
  {
    if credited > 0 && credited == user {
      GrowthAgrees(AccountOf(t, user), RowTotal(t, OfUser(user)), GrowthTotal(t, OfUser(user)), Snapshots(t.events, user), d);
    }
  }

  lemma GrowthAgrees(x: Account, rows: Bytes, growth: Bytes, snapshots: Bytes, d: Bytes)
    requires Agrees(x, rows, growth, snapshots) && Below(ZERO, d) && Fits(Plus(x.lifetime, d))
    ensures Agrees(x.(used := Plus(x.used, d), lifetime := Plus(x.lifetime, d)), Plus(rows, d), Plus(growth, d), snapshots)
  {
  }

  lemma SameRows(before: Tables, after: Tables, scope: Scope)
    requires after.records == before.records
    ensures RowTotal(after, scope) == RowTotal(before, scope)
  {
  }

  lemma SameGrowth(before: Tables, after: Tables, scope: Scope)
    requires after.cursors == before.cursors && after.baselines == before.baselines
    ensures GrowthTotal(after, scope) == GrowthTotal(before, scope)
  {
    assert Growth(after) == Growth(before);
  }

  lemma AccountGrew(t: Tables, after: Tables, credited: int, d: Bytes, user: int)
    requires Credited(t, after, credited, d) && Below(ZERO, d)
    ensures var x, y := AccountOf(t, user), AccountOf(after, user);
            if credited > 0 && credited == user then
              y == x.(used := Plus(x.used, d), lifetime := Plus(x.lifetime, d)) && Fits(y.lifetime)
            else y == x
  {
  }

  lemma LaterSampleBalances(t: Tables, grown: Tables, after: Tables, key: CursorKey, s: Sample, end: int)
    requires Balanced(t) && key in t.cursors && key.series == SeriesOf(s)
    requires Grew(t, grown, key.node, s, Minus(Counter(s), t.cursors[key].counter))
    requires after == grown.(cursors := grown.cursors[key := Cursor(Counter(s), end)])
    ensures Balanced(after)
  {
    forall scope ensures Kept(after, scope) {
      assert Kept(t, scope);
      LaterSampleSums(t, grown, after, key, s, end, scope);
    }
    forall user ensures Conserved(after, user) {
      LaterSampleConserves(t, grown, after, key, s, end, user);
    }
  }

  lemma SampleBalances(t: Tables, report: Report, catalog: Catalog, s: Sample)
    requires Balanced(t) && ApplySample(t, report, catalog, s).Ok?
    ensures Balanced(ApplySample(t, report, catalog, s).value)
  {
    var key := CursorKey(report.node, report.epoch, SeriesOf(s));
    var after := ApplySample(t, report, catalog, s).value;
    if key in t.cursors {
      GrowthGrew(t, report.node, s, t.cursors[key], report.end);
      var grown := ApplyGrowth(t, report.node, s, t.cursors[key], report.end).value;
      LaterSampleBalances(t, grown, after, key, s, report.end);
    } else {
      FirstSampleBalances(t, after, key, Cursor(Counter(s), report.end));
    }
  }

  lemma {:induction false} SamplesBalance(t: Tables, report: Report, catalog: Catalog, samples: seq<Sample>)
    requires Balanced(t) && ApplySamples(t, report, catalog, samples).Ok?
    ensures Balanced(ApplySamples(t, report, catalog, samples).value)
  {
    if samples != [] {
      var k := |samples| - 1;
      SamplesBalance(t, report, catalog, samples[..k]);
      SampleBalances(ApplySamples(t, report, catalog, samples[..k]).value, report, catalog, samples[k]);
    }
  }

  // ---- Transactions ----

  lemma SameKept(t: Tables, after: Tables)
    requires Balanced(t) && after.cursors == t.cursors && after.baselines == t.baselines && after.records == t.records
    ensures forall scope :: Kept(after, scope)
  {
    forall scope ensures Kept(after, scope) {
      assert Kept(t, scope);
      SameRows(t, after, scope);
      SameGrowth(t, after, scope);
    }
  }

  // Tables that agree on everything the balance speaks of.
  lemma SameBalance(t: Tables, after: Tables)
    requires Balanced(t) && after.cursors == t.cursors && after.baselines == t.baselines && after.records == t.records
    requires after.accounts == t.accounts && after.events == t.events
    ensures Balanced(after)
  {
    SameKept(t, after);
    forall user ensures Conserved(after, user) {
      assert Conserved(t, user);
      SameRows(t, after, OfUser(user));
      SameGrowth(t, after, OfUser(user));
    }
  }

  lemma IngestBalances(t: Tables, node: int, report: Report, now: int, catalog: Catalog)
    requires Balanced(t)
    ensures Balanced(Ingest(t, node, report, now, catalog).tables)
  {
    var payload := Payload(report);
    var noted := t.(reports := t.reports[ReportKeyOf(report) := payload]);
    SameBalance(t, noted);
    var applied := ApplySamples(noted, report, catalog, payload.samples);
    if applied.Ok? {
      SamplesBalance(noted, report, catalog, payload.samples);
      SameBalance(applied.value, applied.value.(nodes := applied.value.nodes[node := NodeState(report.epoch, report.sequence)]));
    }
  }

  lemma SnapshotAdded(events: seq<AccountEvent>, e: AccountEvent, user: int)
    ensures Snapshots(events + [e], user)
         == if e.kind == UsageReset && e.user == user then Plus(Snapshots(events, user), e.snapshot) else Snapshots(events, user)
  {
    assert (events + [e])[..|events|] == events;
  }

  lemma ResetBalances(t: Tables, user: int, expectedEpoch: int, reason: string)
    requires Balanced(t)
    ensures Balanced(Reset(t, user, expectedEpoch, reason).tables)
  {
    var answer := Reset(t, user, expectedEpoch, reason);
    if answer.error.None? {
      var account := AccountOf(t, user);
      var limit := t.users[user].limit;
      var e := AccountEvent(user, account.quotaEpoch, UsageReset, limit, limit, account.used);
      EventBalances(t, answer.tables, e, Account(account.quotaEpoch + 1, ZERO, account.lifetime));
    }
  }

  lemma SetQuotaBalances(t: Tables, user: int, expectedRevision: int, limit: int)
    requires Balanced(t)
    ensures Balanced(SetQuota(t, user, expectedRevision, limit).tables)
  {
    var answer := SetQuota(t, user, expectedRevision, limit);
    if answer.error.None? {
      var account := AccountOf(t, user);
      EventBalances(t, answer.tables, AccountEvent(user, account.quotaEpoch, LimitChanged, t.users[user].limit, limit, account.used), account);
    }
  }

  // An event and the account that it leaves: a reset moves the usage into the event's snapshot.
  ghost predicate Closes(t: Tables, e: AccountEvent, account: Account) {
    var x := AccountOf(t, e.user);
    && account.lifetime == x.lifetime && e.snapshot == x.used
    && account.used == if e.kind == UsageReset then ZERO else x.used
  }

  lemma EventBalances(t: Tables, after: Tables, e: AccountEvent, account: Account)
    requires Balanced(t) && Closes(t, e, account)
    requires after.cursors == t.cursors && after.baselines == t.baselines && after.records == t.records
    requires after.events == t.events + [e] && after.accounts == t.accounts[e.user := account]
    ensures Balanced(after)
  {
    SameKept(t, after);
    forall user ensures Conserved(after, user) {
      SameRows(t, after, OfUser(user));
      SameGrowth(t, after, OfUser(user));
      EventConserves(t, after, e, account, user);
    }
  }

  lemma EventConserves(t: Tables, after: Tables, e: AccountEvent, account: Account, user: int)
    requires Conserved(t, user) && Closes(t, e, account)
    requires RowTotal(after, OfUser(user)) == RowTotal(t, OfUser(user)) && GrowthTotal(after, OfUser(user)) == GrowthTotal(t, OfUser(user))
    requires after.events == t.events + [e] && after.accounts == t.accounts[e.user := account]
    ensures Conserved(after, user)
  {
    SnapshotAdded(t.events, e, user);
    assert AccountOf(after, user) == if user == e.user then account else AccountOf(t, user);
  }

  // ---- Runs ----

  datatype Step =
    | Reported(node: int, report: Report, now: int, catalog: Catalog)
    | ResetUsage(user: int, expectedEpoch: int, reason: string)
    | QuotaSet(user: int, expectedRevision: int, limit: int)

  function Next(t: Tables, step: Step): Tables {
    match step
    case Reported(node, report, now, catalog) => Ingest(t, node, report, now, catalog).tables
    case ResetUsage(user, epoch, reason) => Reset(t, user, epoch, reason).tables
    case QuotaSet(user, revision, limit) => SetQuota(t, user, revision, limit).tables
  }

  function Execute(t: Tables, steps: seq<Step>): Tables {
    if steps == [] then t else Next(Execute(t, steps[..|steps| - 1]), steps[|steps| - 1])
  }

  lemma EmptyTotals(t: Tables, scope: Scope)
    requires t.records == map[] && t.cursors == map[]
    ensures RowTotal(t, scope) == ZERO && GrowthTotal(t, scope) == ZERO
  {
    assert Only(t.records, CellsIn(scope)) == map[];
    assert Only(Growth(t), CountersIn(scope)) == map[];
  }

  lemma EmptyBalances(users: map<int, User>)
    ensures Balanced(Empty(users))
  {
    var t := Empty(users);
    forall scope ensures Kept(t, scope) {
      EmptyTotals(t, scope);
    }
    forall user ensures Conserved(t, user) {
      EmptyTotals(t, OfUser(user));
    }
  }

  lemma StepBalances(t: Tables, step: Step)
    requires Balanced(t)
    ensures Balanced(Next(t, step))
  {
    match step
    case Reported(node, report, now, catalog) => IngestBalances(t, node, report, now, catalog);
    case ResetUsage(user, epoch, reason) => ResetBalances(t, user, epoch, reason);
    case QuotaSet(user, revision, limit) => SetQuotaBalances(t, user, revision, limit);
  }

  lemma {:induction false} RunBalances(users: map<int, User>, steps: seq<Step>)
    ensures Balanced(Execute(Empty(users), steps))
  {
    if steps == [] {
      EmptyBalances(users);
    } else {
      RunBalances(users, steps[..|steps| - 1]);
      StepBalances(Execute(Empty(users), steps[..|steps| - 1]), steps[|steps| - 1]);
    }
  }

  ghost function RowsOf(t: Tables, user: int): map<Cell, Bytes> {
    map c | c in t.records && c.series.UserSeries? && c.series.user == user :: t.records[c]
  }

  // How far the user's counters have grown beyond the first counter seen in their epoch.
  ghost function GrowthOf(t: Tables, user: int): map<CursorKey, Bytes> {
    map k | k in t.cursors && k.series.UserSeries? && k.series.user == user :: Minus(t.cursors[k].counter, Get(t.baselines, k))
  }

  lemma SameMaps(t: Tables, user: int)
    requires t.baselines.Keys == t.cursors.Keys
    ensures RowsOf(t, user) == Only(t.records, CellsIn(OfUser(user))) && GrowthOf(t, user) == Only(Growth(t), CountersIn(OfUser(user)))
  {
    assert RowsOf(t, user) == Only(t.records, CellsIn(OfUser(user)));
    assert GrowthOf(t, user) == Only(Growth(t), CountersIn(OfUser(user)));
  }

  // The lifetime of a user, in each direction, is the sum of the user's rows, the growth of the user's counters, and
  // current usage plus all reset snapshots; it is never negative and never above the largest 64-bit integer.
  lemma LifetimeIsConserved(users: map<int, User>, steps: seq<Step>, user: int)
    ensures var t := Execute(Empty(users), steps);
            var lifetime := AccountOf(t, user).lifetime;
            && lifetime == Total(RowsOf(t, user)) && lifetime == Total(GrowthOf(t, user))
            && lifetime == Plus(AccountOf(t, user).used, Snapshots(t.events, user))
            && 0 <= lifetime.up <= MAX_INT64 && 0 <= lifetime.down <= MAX_INT64
  {
    RunBalances(users, steps);
    var t := Execute(Empty(users), steps);
    assert Conserved(t, user);
    SameMaps(t, user);
  }

  // The rows of one series of one node, that of a user or of an inbound.
  ghost function RowsOfSeries(t: Tables, node: int, series: Series): map<Cell, Bytes> {
    map c | c in t.records && c.node == node && c.series == series :: t.records[c]
  }

  // How far its counters have grown in each epoch of the node.
  ghost function GrowthOfSeries(t: Tables, node: int, series: Series): map<CursorKey, Bytes> {
    map k | k in t.cursors && k.node == node && k.series == series :: Minus(t.cursors[k].counter, Get(t.baselines, k))
  }

  // For every node and every series, of users and of inbounds: the rows sum up to what the series' counters grew by since
  // they were first seen.
  lemma SeriesAreConserved(users: map<int, User>, steps: seq<Step>, node: int, series: Series)
    ensures var t := Execute(Empty(users), steps); Total(RowsOfSeries(t, node, series)) == Total(GrowthOfSeries(t, node, series))
  {
    RunBalances(users, steps);
    var t := Execute(Empty(users), steps);
    assert Kept(t, OfSeries(node, series));
    assert RowsOfSeries(t, node, series) == Only(t.records, CellsIn(OfSeries(node, series)));
    assert GrowthOfSeries(t, node, series) == Only(Growth(t), CountersIn(OfSeries(node, series)));
  }
}
