/**
  The panel's traffic tables and the transactions on them, as functions. A transaction yields new tables, or an error
  and no change. Times are in nanoseconds.
*/
module TrafficTables {
  import opened Common
  import opened TrafficBytes
  import opened TrafficSplit

  datatype Series = UserSeries(user: int, inbound: int) | InboundSeries(inbound: int)

  datatype Sample = Sample(inbound: int, user: int, up: int, down: int)

  datatype Report = Report(node: int, epoch: int, sequence: int, start: int, end: int, complete: bool, samples: seq<Sample>)

  datatype ReportKey = ReportKey(node: int, epoch: int, sequence: int)

  datatype NodeState = NodeState(epoch: int, last: int)

  datatype CursorKey = CursorKey(node: int, epoch: int, series: Series)

  datatype Cursor = Cursor(counter: Bytes, at: int)

  // A five-minute row of a user or of a node.
  datatype Cell = Cell(node: int, series: Series, slot: int)

  datatype Account = Account(quotaEpoch: int, used: Bytes, lifetime: Bytes)

  datatype EventKind = LimitChanged | UsageReset

  datatype AccountEvent = AccountEvent(user: int, quotaEpoch: int, kind: EventKind, oldLimit: int, newLimit: int, snapshot: Bytes)

  datatype Grain = Hourly | Daily

  datatype Job = Job(grain: Grain, period: int)

  datatype User = User(limit: int, revision: int)

  // `baselines` is history for the statements: the counter with which a cursor started.
  datatype Tables = Tables(
    reports: map<ReportKey, Report>, nodes: map<int, NodeState>,
    cursors: map<CursorKey, Cursor>, baselines: map<CursorKey, Bytes>,
    records: map<Cell, Bytes>, accounts: map<int, Account>, events: seq<AccountEvent>,
    jobs: map<Job, nat>, users: map<int, User>)

  datatype Role = Entry | Relay | Landing

  datatype InboundOf = InboundOf(inbound: int, node: int)

  datatype Credential = Credential(user: int, inbound: int)

  // The inbounds and credentials that the administrator has set up.
  datatype Catalog = Catalog(roles: map<InboundOf, Role>, credentials: set<Credential>)

  datatype Error = InvalidReport | SequenceConflict | NoSuchUser | Overflow

  // ---- Which reports are legal ----

  function KeyOf(s: Sample): (int, int) { (s.inbound, s.user) }

  predicate DistinctSeries(samples: seq<Sample>) {
    forall i, j :: 0 <= i < j < |samples| ==> KeyOf(samples[i]) != KeyOf(samples[j])
  }

  predicate ValidSample(s: Sample) {
    s.inbound > 0 && s.user >= 0 && 0 <= s.up <= MAX_INT64 && 0 <= s.down <= MAX_INT64
  }

  const WEEK := 7 * DAY

  predicate ValidReport(report: Report, node: int, now: int) {
    && report.node == node && node > 0 && report.sequence > 0 && |report.samples| <= 4000
    && report.end > report.start && report.end - report.start <= DAY
    && report.end <= now + MINUTE && report.start >= now - WEEK
    && (forall i :: 0 <= i < |report.samples| ==> ValidSample(report.samples[i]))
    && DistinctSeries(report.samples)
  }

  predicate Before(x: Sample, y: Sample) {
    if x.inbound != y.inbound then x.inbound < y.inbound else x.user < y.user
  }

  function Insert(s: Sample, sorted: seq<Sample>): seq<Sample> {
    if sorted == [] || Before(s, sorted[0]) then [s] + sorted else [sorted[0]] + Insert(s, sorted[1..])
  }

  // The library's sort: by inbound, then by user.
  function Sorted(samples: seq<Sample>): seq<Sample> {
    if samples == [] then [] else Insert(samples[0], Sorted(samples[1..]))
  }

  // The payload that identifies a report does not depend on the order of its samples.
  function Payload(report: Report): Report {
    report.(samples := Sorted(report.samples))
  }

  // ---- One sample ----

  function SeriesOf(s: Sample): Series {
    if s.user > 0 then UserSeries(s.user, s.inbound) else InboundSeries(s.inbound)
  }

  function PeriodOf(grain: Grain, slot: int): int {
    match grain
    case Hourly => slot - slot % HOUR
    case Daily => slot - slot % DAY
  }

  function Touched(jobs: map<Job, nat>, job: Job): map<Job, nat> {
    jobs[job := if job in jobs then jobs[job] + 1 else 1]
  }

  predicate Fits(b: Bytes) { b.up <= MAX_INT64 && b.down <= MAX_INT64 }

  // A row grows, and the rollups of its hour and its day become due.
  function WriteBucket(t: Tables, node: int, series: Series, b: Bucket): Result<Tables, Error> {
    var cell := Cell(node, series, b.at);
    var bytes := Plus(Get(t.records, cell), Bytes(b.up, b.down));
    if !Fits(bytes) then Err(Overflow)
    else Ok(t.(
      records := t.records[cell := bytes],
      jobs := Touched(Touched(t.jobs, Job(Hourly, PeriodOf(Hourly, b.at))), Job(Daily, PeriodOf(Daily, b.at)))))
  }

  function WriteBuckets(t: Tables, node: int, series: Series, buckets: seq<Bucket>): Result<Tables, Error> {
    if buckets == [] then Ok(t)
    else
      match WriteBuckets(t, node, series, buckets[..|buckets| - 1])
      case Err(e) => Err(e)
      case Ok(written) => WriteBucket(written, node, series, buckets[|buckets| - 1])
  }

  const NEW_ACCOUNT := Account(1, ZERO, ZERO)

  function AccountOf(t: Tables, user: int): Account {
    if user in t.accounts then t.accounts[user] else NEW_ACCOUNT
  }

  function AddBytes(a: Bytes, b: Bytes): Result<Bytes, Error> {
    if Add(a.up, b.up).Ok? && Add(a.down, b.down).Ok? then Ok(Plus(a, b)) else Err(InvalidReport)
  }

  function Credit(t: Tables, user: int, d: Bytes): Result<Tables, Error> {
    var account := AccountOf(t, user);
    if AddBytes(account.used, d).Err? || AddBytes(account.lifetime, d).Err? then Err(InvalidReport)
    else Ok(t.(accounts := t.accounts[user := account.(used := Plus(account.used, d), lifetime := Plus(account.lifetime, d))]))
  }

  predicate Allowed(catalog: Catalog, node: int, s: Sample) {
    && InboundOf(s.inbound, node) in catalog.roles
    && (s.user > 0 ==> catalog.roles[InboundOf(s.inbound, node)] == Entry && Credential(s.user, s.inbound) in catalog.credentials)
  }

  function Counter(s: Sample): Bytes { Bytes(s.up, s.down) }

  // A counter that was seen before: its growth is spread over the rows and credited to the account.
  function ApplyGrowth(t: Tables, node: int, s: Sample, from: Cursor, end: int): Result<Tables, Error> {
    if end <= from.at || !Below(from.counter, Counter(s)) then Err(SequenceConflict)
    else
      var d := Minus(Counter(s), from.counter);
      match Split(from.at, end, d.up, d.down)
      case Err(_) => Err(InvalidReport)
      case Ok(buckets) =>
        match WriteBuckets(t, node, SeriesOf(s), buckets)
        case Err(e) => Err(e)
        case Ok(written) => if s.user > 0 then Credit(written, s.user, d) else Ok(written)
  }

  function ApplySample(t: Tables, report: Report, catalog: Catalog, s: Sample): Result<Tables, Error> {
    var key := CursorKey(report.node, report.epoch, SeriesOf(s));
    if !Allowed(catalog, report.node, s) then Err(InvalidReport)
    else if key !in t.cursors then
      Ok(t.(cursors := t.cursors[key := Cursor(Counter(s), report.end)], baselines := t.baselines[key := Counter(s)]))
    else
      match ApplyGrowth(t, report.node, s, t.cursors[key], report.end)
      case Err(e) => Err(e)
      case Ok(grown) => Ok(grown.(cursors := grown.cursors[key := Cursor(Counter(s), report.end)]))
  }

  function ApplySamples(t: Tables, report: Report, catalog: Catalog, samples: seq<Sample>): Result<Tables, Error> {
    if samples == [] then Ok(t)
    else
      match ApplySamples(t, report, catalog, samples[..|samples| - 1])
      case Err(e) => Err(e)
      case Ok(applied) => ApplySample(applied, report, catalog, samples[|samples| - 1])
  }

  // ---- One report ----

  datatype Receipt = Receipt(tables: Tables, accepted: bool, duplicate: bool, error: Option<Error>)

  function Refuse(t: Tables, error: Error): Receipt { Receipt(t, false, false, Some(error)) }

  predicate Retired(t: Tables, node: int, epoch: int) {
    exists key :: key in t.reports && key.node == node && key.epoch == epoch
  }

  // A report continues the active epoch, or starts a new one.
  predicate InOrder(t: Tables, report: Report) {
    if report.node !in t.nodes then report.sequence == 1
    else
      var state := t.nodes[report.node];
      if state.epoch == report.epoch then report.sequence > state.last
      else report.sequence == 1 && !Retired(t, report.node, report.epoch)
  }

  function ReportKeyOf(report: Report): ReportKey { ReportKey(report.node, report.epoch, report.sequence) }

  function Ingest(t: Tables, node: int, report: Report, now: int, catalog: Catalog): Receipt {
    if !ValidReport(report, node, now) then Refuse(t, InvalidReport)
    else
      var key := ReportKeyOf(report);
      var payload := Payload(report);
      if key in t.reports then
        if t.reports[key] != payload then Refuse(t, SequenceConflict) else Receipt(t, true, true, None)
      else if !InOrder(t, report) then Refuse(t, SequenceConflict)
      else
        match ApplySamples(t.(reports := t.reports[key := payload]), report, catalog, payload.samples)
        case Err(e) => Refuse(t, e)
        case Ok(applied) => Receipt(applied.(nodes := applied.nodes[node := NodeState(report.epoch, report.sequence)]), true, false, None)
  }

  // ---- Accounts ----

  datatype Answer = Answer(tables: Tables, error: Option<Error>)

  function Reset(t: Tables, user: int, expectedEpoch: int, reason: string): Answer {
    if expectedEpoch < 1 || |reason| < 1 || |reason| > 500 then Answer(t, Some(InvalidReport))
    else if user !in t.users then Answer(t, Some(NoSuchUser))
    else
      var account := AccountOf(t, user);
      if account.quotaEpoch != expectedEpoch then Answer(t, Some(SequenceConflict))
      else
        var limit := t.users[user].limit;
        Answer(t.(
          events := t.events + [AccountEvent(user, account.quotaEpoch, UsageReset, limit, limit, account.used)],
          accounts := t.accounts[user := Account(account.quotaEpoch + 1, ZERO, account.lifetime)]), None)
  }

  function SetQuota(t: Tables, user: int, expectedRevision: int, limit: int): Answer {
    if expectedRevision < 1 || limit < 0 then Answer(t, Some(InvalidReport))
    else if user !in t.users then Answer(t, Some(NoSuchUser))
    else if t.users[user].revision != expectedRevision then Answer(t, Some(SequenceConflict))
    else
      var account := AccountOf(t, user);
      Answer(t.(
        accounts := t.accounts[user := account],
        events := t.events + [AccountEvent(user, account.quotaEpoch, LimitChanged, t.users[user].limit, limit, account.used)],
        users := t.users[user := User(limit, expectedRevision + 1)]), None)
  }

  function Empty(users: map<int, User>): Tables {
    Tables(map[], map[], map[], map[], map[], map[], [], map[], users)
  }
}
