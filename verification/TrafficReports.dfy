/**
  What one report does, read from the tables before it: when it is accepted, and what it then adds to which rows,
  cursors and accounts. Nothing here depends on the order in which its samples are processed.
*/
module TrafficReports {
  import opened Common
  import opened TrafficBytes
  import opened TrafficSplit
  import opened TrafficTables
  import opened TrafficPayload

  // ---- What a report adds ----

  // The sample of a series, if there is one.
  ghost function SampleOf(samples: set<Sample>, series: Series): Option<Sample> {
    if exists s :: s in samples && SeriesOf(s) == series then
      var s :| s in samples && SeriesOf(s) == series;
      Some(s)
    else None
  }

  // The share of a slot.
  function ShareAt(buckets: seq<Bucket>, slot: int): Option<Bytes> {
    if buckets == [] then None
    else
      var b := buckets[|buckets| - 1];
      if b.at == slot then Some(Bytes(b.up, b.down)) else ShareAt(buckets[..|buckets| - 1], slot)
  }

  // What the counters of a series have grown by since its last sample.
  function GrowthOf(from: Cursor, s: Sample): Bytes {
    Bytes(s.up - from.counter.up, s.down - from.counter.down)
  }

  // The share of a slot in the growth of a series, spread from its last sample to the end of the report.
  function SpreadTo(from: Cursor, end: int, s: Sample, slot: int): Option<Bytes> {
    match Split(from.at, end, s.up - from.counter.up, s.down - from.counter.down)
    case Err(_) => None
    case Ok(buckets) => ShareAt(buckets, slot)
  }

  // What the samples add to a row. The first sample of a series in an epoch adds nothing.
  ghost function AddedTo(t: Tables, report: Report, samples: set<Sample>, c: Cell): Option<Bytes> {
    var key, s := CursorKey(report.node, report.epoch, c.series), SampleOf(samples, c.series);
    if c.node == report.node && s.Some? && key in t.cursors then SpreadTo(t.cursors[key], report.end, s.value, c.slot) else None
  }

  // Where the samples leave the cursor of a series.
  ghost function ReachedBy(report: Report, samples: set<Sample>, key: CursorKey): Option<Cursor> {
    var s := SampleOf(samples, key.series);
    if key.node == report.node && key.epoch == report.epoch && s.Some? then Some(Cursor(Bytes(s.value.up, s.value.down), report.end))
    else None
  }

  ghost predicate CountsFor(k: CursorKey, report: Report, samples: set<Sample>, user: int) {
    && k.node == report.node && k.epoch == report.epoch && k.series.UserSeries? && k.series.user == user
    && SampleOf(samples, k.series).Some?
  }

  // The growth of each of a user's series in the report.
  ghost function UserGrowth(t: Tables, report: Report, samples: set<Sample>, user: int): map<CursorKey, Bytes> {
    map k | k in t.cursors && CountsFor(k, report, samples, user) :: GrowthOf(t.cursors[k], SampleOf(samples, k.series).value)
  }

  ghost function Earned(t: Tables, report: Report, samples: set<Sample>, user: int): Bytes {
    Total(UserGrowth(t, report, samples, user))
  }

  // What is added to each row, where each cursor gets to, and what each user is credited.
  datatype Growth = Growth(added: Cell -> Option<Bytes>, reached: CursorKey -> Option<Cursor>, earned: int -> Bytes)

  ghost function GrowthBy(t: Tables, report: Report, samples: set<Sample>): Growth {
    Growth(c => AddedTo(t, report, samples, c), key => ReachedBy(report, samples, key), user => Earned(t, report, samples, user))
  }

  ghost predicate SameAt<K, V>(m: map<K, V>, n: map<K, V>, k: K) {
    (k in n <==> k in m) && (k in m ==> n[k] == m[k])
  }

  ghost predicate RowGrew(t: Tables, after: Tables, c: Cell, added: Option<Bytes>) {
    match added
    case None => SameAt(t.records, after.records, c)
    case Some(d) => c in after.records && after.records[c] == Plus(Get(t.records, c), d)
  }

  ghost predicate CursorMoved(t: Tables, after: Tables, key: CursorKey, reached: Option<Cursor>) {
    match reached
    case None => SameAt(t.cursors, after.cursors, key) && SameAt(t.baselines, after.baselines, key)
    case Some(cursor) =>
      && key in after.cursors && after.cursors[key] == cursor
      && if key in t.cursors then SameAt(t.baselines, after.baselines, key)
         else key in after.baselines && after.baselines[key] == cursor.counter
  }

  ghost predicate AccountGrew(t: Tables, after: Tables, user: int, d: Bytes) {
    var x, y := AccountOf(t, user), AccountOf(after, user);
    y.quotaEpoch == x.quotaEpoch && y.used == Plus(x.used, d) && y.lifetime == Plus(x.lifetime, d)
  }

  ghost predicate RowsGrew(t: Tables, after: Tables, added: Cell -> Option<Bytes>) {
    forall c: Cell :: RowGrew(t, after, c, added(c))
  }

  ghost predicate CursorsMoved(t: Tables, after: Tables, reached: CursorKey -> Option<Cursor>) {
    forall key: CursorKey :: CursorMoved(t, after, key, reached(key))
  }

  ghost predicate AccountsGrew(t: Tables, after: Tables, earned: int -> Bytes) {
    forall user: int :: AccountGrew(t, after, user, earned(user))
  }

  // The tables have grown by this, and nothing else has happened but that rollups have become due.
  ghost predicate Grown(t: Tables, after: Tables, x: Growth) {
    && after == t.(records := after.records, cursors := after.cursors, baselines := after.baselines, accounts := after.accounts, jobs := after.jobs)
    && RowsGrew(t, after, x.added) && CursorsMoved(t, after, x.reached) && AccountsGrew(t, after, x.earned)
  }

  // ---- When a report can be counted ----

  predicate Permitted(report: Report, catalog: Catalog, s: Sample) {
    && InboundOf(s.inbound, report.node) in catalog.roles
    && (s.user > 0 ==> catalog.roles[InboundOf(s.inbound, report.node)] == Entry && Credential(s.user, s.inbound) in catalog.credentials)
  }

  predicate RowRoom(t: Tables, c: Cell, share: Option<Bytes>) {
    share.Some? ==> Get(t.records, c).up + share.value.up <= MAX_INT64 && Get(t.records, c).down + share.value.down <= MAX_INT64
  }

  // The series has time and bytes to add, and the rows have room for them.
  ghost predicate Room(t: Tables, report: Report, s: Sample) {
    var key := CursorKey(report.node, report.epoch, SeriesOf(s));
    key in t.cursors ==>
      var from := t.cursors[key];
      && from.at < report.end <= from.at + DAY && from.counter.up <= s.up && from.counter.down <= s.down
      && forall slot :: RowRoom(t, Cell(report.node, SeriesOf(s), slot), SpreadTo(from, report.end, s, slot))
  }

  predicate RoomIn(x: Account, d: Bytes) {
    && Below(ZERO, x.used) && Below(ZERO, x.lifetime)
    && x.used.up + d.up <= MAX_INT64 && x.used.down + d.down <= MAX_INT64
    && x.lifetime.up + d.up <= MAX_INT64 && x.lifetime.down + d.down <= MAX_INT64
  }

  // A user with anything to be credited has room for all of it.
  ghost predicate AccountRoom(t: Tables, report: Report, samples: set<Sample>, user: int) {
    UserGrowth(t, report, samples, user) != map[] ==> RoomIn(AccountOf(t, user), Earned(t, report, samples, user))
  }

  ghost predicate Countable(t: Tables, report: Report, catalog: Catalog, samples: set<Sample>) {
    && (forall s :: s in samples ==> Permitted(report, catalog, s) && Room(t, report, s))
    && (forall user :: AccountRoom(t, report, samples, user))
  }

  // ---- One series ----

  function ShareOf(node: int, series: Series, buckets: seq<Bucket>, c: Cell): Option<Bytes> {
    if c.node == node && c.series == series then ShareAt(buckets, c.slot) else None
  }

  ghost predicate SeriesGrew(t: Tables, after: Tables, node: int, series: Series, buckets: seq<Bucket>) {
    && after == t.(records := after.records, jobs := after.jobs)
    && forall c: Cell :: RowGrew(t, after, c, ShareOf(node, series, buckets, c))
  }

  ghost predicate SeriesRoom(t: Tables, node: int, series: Series, buckets: seq<Bucket>) {
    forall slot :: RowRoom(t, Cell(node, series, slot), ShareAt(buckets, slot))
  }

  lemma {:induction false} NoShare(buckets: seq<Bucket>, slot: int)
    requires forall i :: 0 <= i < |buckets| ==> buckets[i].at != slot
    ensures ShareAt(buckets, slot) == None
  {
    if buckets != [] {
      NoShare(buckets[..|buckets| - 1], slot);
    }
  }

  lemma ShareAppend(front: seq<Bucket>, last: Bucket, slot: int)
    ensures ShareAt(front + [last], slot) == if slot == last.at then Some(Bytes(last.up, last.down)) else ShareAt(front, slot)
  {
    assert (front + [last])[..|front|] == front;
  }

  lemma {:induction false} BucketsAdd(t: Tables, node: int, series: Series, buckets: seq<Bucket>)
    requires forall i, j :: 0 <= i < j < |buckets| ==> buckets[i].at != buckets[j].at
    ensures var written := WriteBuckets(t, node, series, buckets);
            && (written.Ok? <==> SeriesRoom(t, node, series, buckets))
            && (written.Ok? ==> SeriesGrew(t, written.value, node, series, buckets))
  {
    if buckets != [] {
      var front, last := buckets[..|buckets| - 1], buckets[|buckets| - 1];
      assert buckets == front + [last];
      BucketsAdd(t, node, series, front);
      NoShare(front, last.at);
      forall slot ensures ShareAt(buckets, slot) == if slot == last.at then Some(Bytes(last.up, last.down)) else ShareAt(front, slot) {
        ShareAppend(front, last, slot);
      }
      if SeriesRoom(t, node, series, front) {
        OneMoreBucket(t, WriteBuckets(t, node, series, front).value, node, series, front, last, buckets);
      } else {
        var slot :| !RowRoom(t, Cell(node, series, slot), ShareAt(front, slot));
        assert !RowRoom(t, Cell(node, series, slot), ShareAt(buckets, slot));
      }
    }
  }

  lemma OneMoreBucket(t: Tables, mid: Tables, node: int, series: Series, front: seq<Bucket>, last: Bucket, buckets: seq<Bucket>)
    requires SeriesRoom(t, node, series, front) && SeriesGrew(t, mid, node, series, front) && ShareAt(front, last.at) == None
    requires forall slot :: ShareAt(buckets, slot) == if slot == last.at then Some(Bytes(last.up, last.down)) else ShareAt(front, slot)
    ensures var written := WriteBucket(mid, node, series, last);
            && (written.Ok? <==> SeriesRoom(t, node, series, buckets))
            && (written.Ok? ==> SeriesGrew(t, written.value, node, series, buckets))
  {
    var cell := Cell(node, series, last.at);
    assert RowGrew(t, mid, cell, ShareOf(node, series, front, cell));
    assert Get(mid.records, cell) == Get(t.records, cell);
    assert WriteBucket(mid, node, series, last).Ok? <==> RowRoom(t, cell, ShareAt(buckets, last.at));
    forall slot | slot != last.at ensures RowRoom(t, Cell(node, series, slot), ShareAt(buckets, slot)) {
      assert RowRoom(t, Cell(node, series, slot), ShareAt(front, slot));
    }
    if WriteBucket(mid, node, series, last).Ok? {
      var after := WriteBucket(mid, node, series, last).value;
      forall c: Cell ensures RowGrew(t, after, c, ShareOf(node, series, buckets, c)) {
        assert RowGrew(t, mid, c, ShareOf(node, series, front, c));
      }
    }
  }

  lemma SplitDistinct(start: int, end: int, up: int, down: int)
    requires Split(start, end, up, down).Ok?
    ensures var buckets := Split(start, end, up, down).value;
            forall i, j :: 0 <= i < j < |buckets| ==> buckets[i].at != buckets[j].at
  {
    SplitIsContiguous(start, end, up, down);
    Ascending(Split(start, end, up, down).value);
  }

  lemma {:induction false} Ascending(buckets: seq<Bucket>)
    requires forall i :: 0 < i < |buckets| ==> buckets[i].at == buckets[i - 1].at + SLOT
    ensures forall i, j :: 0 <= i < j < |buckets| ==> buckets[i].at < buckets[j].at
  {
    if buckets != [] {
      var front := buckets[..|buckets| - 1];
      Ascending(front);
      forall i, j | 0 <= i < j < |buckets| ensures buckets[i].at < buckets[j].at {
        assert j < |front| ==> front[i].at < front[j].at;
        assert i < |front| - 1 ==> front[i].at < front[|front| - 1].at;
      }
    }
  }

  lemma {:induction false} BucketsKeepCursors(t: Tables, node: int, series: Series, buckets: seq<Bucket>)
    requires WriteBuckets(t, node, series, buckets).Ok?
    ensures WriteBuckets(t, node, series, buckets).value.cursors == t.cursors
    ensures WriteBuckets(t, node, series, buckets).value.baselines == t.baselines
  {
    if buckets != [] {
      BucketsKeepCursors(t, node, series, buckets[..|buckets| - 1]);
    }
  }

  // ---- One sample after others ----

  // No other sample so far is for this series.
  ghost predicate Unseen(samples: set<Sample>, s: Sample) {
    forall x :: x in samples ==> SeriesOf(x) != SeriesOf(s)
  }

  ghost predicate OneEach(samples: set<Sample>) {
    forall x, y :: x in samples && y in samples && SeriesOf(x) == SeriesOf(y) ==> x == y
  }

  function KeyOfSample(report: Report, s: Sample): CursorKey { CursorKey(report.node, report.epoch, SeriesOf(s)) }

  // What a sample adds to a row.
  function AddedBy(t: Tables, key: CursorKey, end: int, s: Sample, c: Cell): Option<Bytes> {
    if key in t.cursors then SpreadTo(t.cursors[key], end, s, c.slot) else None
  }

  predicate Credits(t: Tables, key: CursorKey, s: Sample, user: int) {
    key in t.cursors && s.user > 0 && s.user == user
  }

  ghost predicate NextAdded(t: Tables, key: CursorKey, end: int, s: Sample, x: Cell -> Option<Bytes>, y: Cell -> Option<Bytes>) {
    forall c: Cell :: y(c) == if c.node == key.node && c.series == key.series then AddedBy(t, key, end, s, c) else x(c)
  }

  ghost predicate NextReached(key: CursorKey, cursor: Cursor, x: CursorKey -> Option<Cursor>, y: CursorKey -> Option<Cursor>) {
    forall k: CursorKey :: y(k) == if k == key then Some(cursor) else x(k)
  }

  ghost predicate NextEarned(t: Tables, key: CursorKey, s: Sample, x: int -> Bytes, y: int -> Bytes) {
    forall user: int :: y(user) == if Credits(t, key, s, user) then Plus(x(user), GrowthOf(t.cursors[key], s)) else x(user)
  }

  // The series is not among those that the growth is about.
  ghost predicate Untouched(key: CursorKey, x: Growth) {
    x.reached(key) == None && forall slot: int :: x.added(Cell(key.node, key.series, slot)) == None
  }

  // Growth by one more sample.
  ghost predicate OneMore(t: Tables, key: CursorKey, end: int, s: Sample, x: Growth, y: Growth) {
    && Untouched(key, x)
    && NextAdded(t, key, end, s, x.added, y.added)
    && NextReached(key, Cursor(Counter(s), end), x.reached, y.reached)
    && NextEarned(t, key, s, x.earned, y.earned)
  }

  lemma SampleAppend(front: set<Sample>, s: Sample, series: Series)
    requires OneEach(front) && Unseen(front, s)
    ensures SampleOf(front + {s}, series) == if SeriesOf(s) == series then Some(s) else SampleOf(front, series)
  {
    assert s in front + {s};
    if SeriesOf(s) != series && SampleOf(front, series).Some? {
      assert SampleOf(front, series).value in front + {s};
    }
  }

  lemma NoSample(front: set<Sample>, s: Sample)
    requires Unseen(front, s)
    ensures SampleOf(front, SeriesOf(s)) == None
  {
  }

  lemma UserGrowthAppend(t: Tables, report: Report, front: set<Sample>, s: Sample, user: int)
    requires OneEach(front) && Unseen(front, s)
    ensures var key := KeyOfSample(report, s);
            && UserGrowth(t, report, front + {s}, user)
            == (if Credits(t, key, s, user) then UserGrowth(t, report, front, user)[key := GrowthOf(t.cursors[key], s)]
                else UserGrowth(t, report, front, user))
            && key !in UserGrowth(t, report, front, user)
  {
    var key := KeyOfSample(report, s);
    NoSample(front, s);
    forall series ensures SampleOf(front + {s}, series) == if SeriesOf(s) == series then Some(s) else SampleOf(front, series) {
      SampleAppend(front, s, series);
    }
    var before, after := UserGrowth(t, report, front, user), UserGrowth(t, report, front + {s}, user);
    if Credits(t, key, s, user) {
      assert after == before[key := GrowthOf(t.cursors[key], s)];
    } else {
      assert after == before;
    }
  }

  lemma EarnedAppend(t: Tables, report: Report, front: set<Sample>, s: Sample, user: int)
    requires OneEach(front) && Unseen(front, s)
    ensures var key := KeyOfSample(report, s);
            && Earned(t, report, front + {s}, user)
            == (if Credits(t, key, s, user) then Plus(Earned(t, report, front, user), GrowthOf(t.cursors[key], s)) else Earned(t, report, front, user))
            && (UserGrowth(t, report, front + {s}, user) == map[] <==> UserGrowth(t, report, front, user) == map[] && !Credits(t, key, s, user))
  {
    UserGrowthAppend(t, report, front, s, user);
    var key := KeyOfSample(report, s);
    if Credits(t, key, s, user) {
      var before, d := UserGrowth(t, report, front, user), GrowthOf(t.cursors[key], s);
      assert Plus(Get(before, key), d) == d;
      TotalAdd(before, key, d);
      assert key in before[key := d];
    }
  }

  lemma GrowthAppend(t: Tables, report: Report, front: set<Sample>, s: Sample)
    requires OneEach(front) && Unseen(front, s)
    ensures OneMore(t, KeyOfSample(report, s), report.end, s, GrowthBy(t, report, front), GrowthBy(t, report, front + {s}))
  {
    var key, x, y := KeyOfSample(report, s), GrowthBy(t, report, front), GrowthBy(t, report, front + {s});
    NoSample(front, s);
    forall c: Cell ensures y.added(c) == if c.node == key.node && c.series == key.series then AddedBy(t, key, report.end, s, c) else x.added(c) {
      SampleAppend(front, s, c.series);
    }
    forall k: CursorKey ensures y.reached(k) == if k == key then Some(Cursor(Counter(s), report.end)) else x.reached(k) {
      SampleAppend(front, s, k.series);
    }
    forall user: int ensures y.earned(user) == if Credits(t, key, s, user) then Plus(x.earned(user), GrowthOf(t.cursors[key], s)) else x.earned(user) {
      EarnedAppend(t, report, front, s, user);
    }
  }

  // ---- The tables after the next sample ----

  // The tables with the cursor of the sample's series moved.
  function Moved(t: Tables, key: CursorKey, cursor: Cursor): Tables {
    t.(cursors := t.cursors[key := cursor], baselines := if key in t.cursors then t.baselines else t.baselines[key := cursor.counter])
  }

  lemma MovedCursors(t: Tables, mid: Tables, key: CursorKey, cursor: Cursor, x: CursorKey -> Option<Cursor>, y: CursorKey -> Option<Cursor>)
    requires CursorsMoved(t, mid, x) && x(key) == None && NextReached(key, cursor, x, y)
    ensures CursorsMoved(t, Moved(mid, key, cursor), y)
  {
    assert CursorMoved(t, mid, key, x(key));
    forall k: CursorKey ensures CursorMoved(t, Moved(mid, key, cursor), k, y(k)) {
      assert CursorMoved(t, mid, k, x(k));
    }
  }

  lemma MovedGrown(t: Tables, mid: Tables, grown: Tables, key: CursorKey, end: int, s: Sample, x: Growth, y: Growth)
    requires Grown(t, mid, x) && OneMore(t, key, end, s, x, y)
    requires grown == mid.(records := grown.records, jobs := grown.jobs, accounts := grown.accounts)
    requires RowsGrew(t, grown, y.added) && AccountsGrew(t, grown, y.earned)
    ensures Grown(t, Moved(grown, key, Cursor(Counter(s), end)), y)
  {
    var cursor := Cursor(Counter(s), end);
    var after := Moved(grown, key, cursor);
    MovedCursors(t, mid, key, cursor, x.reached, y.reached);
    forall k: CursorKey ensures CursorMoved(t, after, k, y.reached(k)) {
      assert CursorMoved(t, Moved(mid, key, cursor), k, y.reached(k));
    }
    forall c: Cell ensures RowGrew(t, after, c, y.added(c)) {
      assert RowGrew(t, grown, c, y.added(c));
    }
    forall user: int ensures AccountGrew(t, after, user, y.earned(user)) {
      assert AccountGrew(t, grown, user, y.earned(user));
    }
  }

  // A series that was not seen before in the epoch adds no bytes.
  lemma NewRows(t: Tables, mid: Tables, key: CursorKey, end: int, s: Sample, x: Growth, y: Growth)
    requires RowsGrew(t, mid, x.added) && OneMore(t, key, end, s, x, y) && key !in t.cursors
    ensures RowsGrew(t, mid, y.added)
  {
    forall c: Cell ensures RowGrew(t, mid, c, y.added(c)) {
      assert RowGrew(t, mid, c, x.added(c));
      assert c.node == key.node && c.series == key.series ==> c == Cell(key.node, key.series, c.slot);
    }
  }

  lemma AccountFrom(t: Tables, u: Tables, applied: Tables, after: Tables, user: int, e: Bytes)
    requires AccountGrew(u, applied, user, e) && t.accounts == u.accounts && after.accounts == applied.accounts
    ensures AccountGrew(t, after, user, e)
  {
    assert AccountOf(t, user) == AccountOf(u, user);
    assert AccountOf(after, user) == AccountOf(applied, user);
  }

  lemma UncreditedAccounts(t: Tables, mid: Tables, written: Tables, key: CursorKey, s: Sample, x: int -> Bytes, y: int -> Bytes)
    requires AccountsGrew(t, mid, x) && NextEarned(t, key, s, x, y) && !Credits(t, key, s, s.user) && written.accounts == mid.accounts
    ensures AccountsGrew(t, written, y)
  {
    forall user: int ensures AccountGrew(t, written, user, y(user)) {
      assert AccountGrew(t, mid, user, x(user));
      AccountFrom(t, t, mid, written, user, x(user));
    }
  }

  lemma CreditedAccount(t: Tables, mid: Tables, written: Tables, credited: int, d: Bytes, user: int, e: Bytes)
    requires AccountGrew(t, mid, user, e) && written.accounts == mid.accounts && Credit(written, credited, d).Ok?
    ensures AccountGrew(t, Credit(written, credited, d).value, user, if user == credited then Plus(e, d) else e)
  {
  }

  lemma CreditedAccounts(t: Tables, mid: Tables, written: Tables, key: CursorKey, s: Sample, d: Bytes, x: int -> Bytes, y: int -> Bytes)
    requires AccountsGrew(t, mid, x) && NextEarned(t, key, s, x, y) && Credits(t, key, s, s.user) && written.accounts == mid.accounts
    requires d == GrowthOf(t.cursors[key], s) && Credit(written, s.user, d).Ok?
    ensures AccountsGrew(t, Credit(written, s.user, d).value, y)
  {
    var credited := Credit(written, s.user, d).value;
    forall user: int ensures AccountGrew(t, credited, user, y(user)) {
      assert AccountGrew(t, mid, user, x(user));
      CreditedAccount(t, mid, written, s.user, d, user, x(user));
      assert y(user) == if user == s.user then Plus(x(user), d) else x(user);
    }
  }

  // The rows after the growth of one more series.
  lemma WrittenRows(t: Tables, mid: Tables, written: Tables, key: CursorKey, end: int, s: Sample, buckets: seq<Bucket>, x: Growth, y: Growth)
    requires RowsGrew(t, mid, x.added) && OneMore(t, key, end, s, x, y) && key in t.cursors
    requires Split(t.cursors[key].at, end, s.up - t.cursors[key].counter.up, s.down - t.cursors[key].counter.down) == Ok(buckets)
    requires SeriesGrew(mid, written, key.node, key.series, buckets)
    ensures RowsGrew(t, written, y.added)
  {
    forall c: Cell ensures RowGrew(t, written, c, y.added(c)) {
      assert RowGrew(t, mid, c, x.added(c));
      assert RowGrew(mid, written, c, ShareOf(key.node, key.series, buckets, c));
      if c.node == key.node && c.series == key.series {
        assert c == Cell(key.node, key.series, c.slot);
        assert y.added(c) == ShareAt(buckets, c.slot);
      }
    }
  }

  // ---- Whether the next sample can be counted ----

  // What the next sample finds is what was there before the report, except for the user's account.
  lemma NextFinds(t: Tables, mid: Tables, key: CursorKey, x: Growth)
    requires Grown(t, mid, x) && Untouched(key, x)
    ensures SameAt(t.cursors, mid.cursors, key)
    ensures forall slot: int :: Get(mid.records, Cell(key.node, key.series, slot)) == Get(t.records, Cell(key.node, key.series, slot))
  {
    assert CursorMoved(t, mid, key, x.reached(key));
    forall slot: int ensures Get(mid.records, Cell(key.node, key.series, slot)) == Get(t.records, Cell(key.node, key.series, slot)) {
      assert RowGrew(t, mid, Cell(key.node, key.series, slot), x.added(Cell(key.node, key.series, slot)));
    }
  }

  // The rows of the series have room in the tables so far exactly if they had it before the report.
  lemma SameRoom(t: Tables, mid: Tables, key: CursorKey, x: Growth, buckets: seq<Bucket>)
    requires Grown(t, mid, x) && Untouched(key, x)
    ensures SeriesRoom(mid, key.node, key.series, buckets) <==> SeriesRoom(t, key.node, key.series, buckets)
  {
    NextFinds(t, mid, key, x);
    forall slot
      ensures RowRoom(mid, Cell(key.node, key.series, slot), ShareAt(buckets, slot))
         <==> RowRoom(t, Cell(key.node, key.series, slot), ShareAt(buckets, slot))
    {
    }
  }

  lemma AddsExactly(x: Account, e: Bytes, d: Bytes)
    requires Below(ZERO, e) && Below(ZERO, d) && (e == ZERO || RoomIn(x, e))
    ensures AddBytes(Plus(x.used, e), d).Ok? && AddBytes(Plus(x.lifetime, e), d).Ok? <==> RoomIn(x, Plus(e, d))
  {
  }

  // The credit of the next sample succeeds exactly if the account has room for what was earned so far and this.
  lemma CreditExactly(t: Tables, mid: Tables, user: int, e: Bytes, d: Bytes)
    requires AccountGrew(t, mid, user, e) && Below(ZERO, e) && Below(ZERO, d) && (e == ZERO || RoomIn(AccountOf(t, user), e))
    ensures Credit(mid, user, d).Ok? <==> RoomIn(AccountOf(t, user), Plus(e, d))
  {
    AddsExactly(AccountOf(t, user), e, d);
  }

  // When the sample of a series can be counted, apart from the account of its user.
  ghost predicate Fitting(t: Tables, key: CursorKey, end: int, s: Sample) {
    key in t.cursors ==>
      var from := t.cursors[key];
      && from.at < end <= from.at + DAY && from.counter.up <= s.up && from.counter.down <= s.down
      && forall slot :: RowRoom(t, Cell(key.node, key.series, slot), SpreadTo(from, end, s, slot))
  }

  ghost predicate Affordable(t: Tables, key: CursorKey, s: Sample, e: Bytes) {
    Credits(t, key, s, s.user) ==> RoomIn(AccountOf(t, s.user), Plus(e, GrowthOf(t.cursors[key], s)))
  }

  function Spread(mid: Tables, node: int, s: Sample, d: Bytes, buckets: seq<Bucket>): Result<Tables, Error> {
    match WriteBuckets(mid, node, SeriesOf(s), buckets)
    case Err(e) => Err(e)
    case Ok(written) => if s.user > 0 then Credit(written, s.user, d) else Ok(written)
  }

  // What growing by a sample of a known series comes to, once its delta is spread.
  lemma GrowthIsSpread(mid: Tables, node: int, s: Sample, from: Cursor, end: int, d: Bytes, buckets: seq<Bucket>)
    requires from.at < end && Below(from.counter, Counter(s)) && d == GrowthOf(from, s) && Split(from.at, end, d.up, d.down) == Ok(buckets)
    ensures ApplyGrowth(mid, node, s, from, end) == Spread(mid, node, s, d, buckets)
  {
    assert Minus(Counter(s), from.counter) == d;
  }

  lemma GrowthIs(mid: Tables, node: int, s: Sample, from: Cursor, end: int, buckets: seq<Bucket>)
    requires from.at < end && Below(from.counter, Counter(s))
    requires Split(from.at, end, s.up - from.counter.up, s.down - from.counter.down) == Ok(buckets)
    ensures var grown, written := ApplyGrowth(mid, node, s, from, end), WriteBuckets(mid, node, SeriesOf(s), buckets);
            && (written.Err? ==> grown.Err?)
            && (written.Ok? ==> grown == if s.user > 0 then Credit(written.value, s.user, GrowthOf(from, s)) else Ok(written.value))
  {
    GrowthIsSpread(mid, node, s, from, end, GrowthOf(from, s), buckets);
  }

  lemma WrittenExactly(t: Tables, mid: Tables, key: CursorKey, end: int, s: Sample, x: Growth, buckets: seq<Bucket>)
    requires Grown(t, mid, x) && Untouched(key, x) && key in t.cursors
    requires Split(t.cursors[key].at, end, s.up - t.cursors[key].counter.up, s.down - t.cursors[key].counter.down) == Ok(buckets)
    ensures var written := WriteBuckets(mid, key.node, key.series, buckets);
            && (written.Ok? <==> forall slot :: RowRoom(t, Cell(key.node, key.series, slot), SpreadTo(t.cursors[key], end, s, slot)))
            && (written.Ok? ==> SeriesGrew(mid, written.value, key.node, key.series, buckets))
  {
    var from := t.cursors[key];
    SplitDistinct(from.at, end, s.up - from.counter.up, s.down - from.counter.down);
    BucketsAdd(mid, key.node, key.series, buckets);
    SameRoom(t, mid, key, x, buckets);
    assert forall slot :: SpreadTo(from, end, s, slot) == ShareAt(buckets, slot);
  }

  // The growth of a known series in the tables so far.
  lemma KnownGrows(t: Tables, mid: Tables, key: CursorKey, end: int, s: Sample, x: Growth, y: Growth, buckets: seq<Bucket>)
    requires Grown(t, mid, x) && OneMore(t, key, end, s, x, y) && key in t.cursors && key.series == SeriesOf(s)
    requires t.cursors[key].at < end && Below(t.cursors[key].counter, Counter(s))
    requires Split(t.cursors[key].at, end, s.up - t.cursors[key].counter.up, s.down - t.cursors[key].counter.down) == Ok(buckets)
    ensures var grown := ApplyGrowth(mid, key.node, s, t.cursors[key], end);
            grown.Ok? ==> Grown(t, Moved(grown.value, key, Cursor(Counter(s), end)), y)
  {
    var from := t.cursors[key];
    GrowthIs(mid, key.node, s, from, end, buckets);
    WrittenExactly(t, mid, key, end, s, x, buckets);
    var written := WriteBuckets(mid, key.node, key.series, buckets);
    if written.Ok? {
      WrittenRows(t, mid, written.value, key, end, s, buckets, x, y);
      WrittenGrows(t, mid, written.value, key, end, s, x, y);
    }
  }

  lemma WrittenGrows(t: Tables, mid: Tables, written: Tables, key: CursorKey, end: int, s: Sample, x: Growth, y: Growth)
    requires Grown(t, mid, x) && OneMore(t, key, end, s, x, y) && key in t.cursors
    requires written == mid.(records := written.records, jobs := written.jobs) && RowsGrew(t, written, y.added)
    ensures s.user <= 0 ==> Grown(t, Moved(written, key, Cursor(Counter(s), end)), y)
    ensures var credited := Credit(written, s.user, GrowthOf(t.cursors[key], s));
            s.user > 0 && credited.Ok? ==> Grown(t, Moved(credited.value, key, Cursor(Counter(s), end)), y)
  {
    var d := GrowthOf(t.cursors[key], s);
    if s.user <= 0 {
      UncreditedAccounts(t, mid, written, key, s, x.earned, y.earned);
      MovedGrown(t, mid, written, key, end, s, x, y);
    } else if Credit(written, s.user, d).Ok? {
      CreditedAccounts(t, mid, written, key, s, d, x.earned, y.earned);
      CreditedGrows(t, mid, written, Credit(written, s.user, d).value, key, end, s, x, y);
    }
  }

  lemma CreditedGrows(t: Tables, mid: Tables, written: Tables, credited: Tables, key: CursorKey, end: int, s: Sample, x: Growth, y: Growth)
    requires Grown(t, mid, x) && OneMore(t, key, end, s, x, y)
    requires written == mid.(records := written.records, jobs := written.jobs) && RowsGrew(t, written, y.added)
    requires credited == written.(accounts := credited.accounts) && AccountsGrew(t, credited, y.earned)
    ensures Grown(t, Moved(credited, key, Cursor(Counter(s), end)), y)
  {
    forall c: Cell ensures RowGrew(t, credited, c, y.added(c)) {
      assert RowGrew(t, written, c, y.added(c));
    }
    MovedGrown(t, mid, credited, key, end, s, x, y);
  }

  lemma SpreadExactly(t: Tables, mid: Tables, key: CursorKey, s: Sample, written: Result<Tables, Error>, d: Bytes, x: Growth, e: Bytes)
    requires AccountsGrew(t, mid, x.earned) && (written.Ok? ==> written.value.accounts == mid.accounts)
    requires e == x.earned(s.user) && Below(ZERO, e) && Below(ZERO, d) && (e == ZERO || RoomIn(AccountOf(t, s.user), e))
    ensures written.Ok? && s.user > 0 ==> (Credit(written.value, s.user, d).Ok? <==> RoomIn(AccountOf(t, s.user), Plus(e, d)))
  {
    if written.Ok? && s.user > 0 {
      assert AccountGrew(t, mid, s.user, x.earned(s.user));
      CreditExactly(t, written.value, s.user, e, d);
    }
  }

  lemma KnownFits(t: Tables, mid: Tables, key: CursorKey, end: int, s: Sample, x: Growth, e: Bytes, buckets: seq<Bucket>)
    requires Grown(t, mid, x) && Untouched(key, x) && key in t.cursors && key.series == SeriesOf(s)
    requires t.cursors[key].at < end && Below(t.cursors[key].counter, Counter(s))
    requires Split(t.cursors[key].at, end, s.up - t.cursors[key].counter.up, s.down - t.cursors[key].counter.down) == Ok(buckets)
    requires e == x.earned(s.user) && Below(ZERO, e) && (e == ZERO || RoomIn(AccountOf(t, s.user), e))
    ensures ApplyGrowth(mid, key.node, s, t.cursors[key], end).Ok? <==> Fitting(t, key, end, s) && Affordable(t, key, s, e)
  {
    var written := WriteBuckets(mid, key.node, key.series, buckets);
    WrittenExactly(t, mid, key, end, s, x, buckets);
    assert written.Ok? <==> Fitting(t, key, end, s);
    SpreadExactly(t, mid, key, s, written, GrowthOf(t.cursors[key], s), x, e);
    GrowthIs(mid, key.node, s, t.cursors[key], end, buckets);
  }

  lemma KnownExactly(t: Tables, mid: Tables, key: CursorKey, end: int, s: Sample, x: Growth, e: Bytes)
    requires Grown(t, mid, x) && Untouched(key, x) && key in t.cursors && key.series == SeriesOf(s)
    requires e == x.earned(s.user) && Below(ZERO, e) && (e == ZERO || RoomIn(AccountOf(t, s.user), e))
    ensures ApplyGrowth(mid, key.node, s, t.cursors[key], end).Ok? <==> Fitting(t, key, end, s) && Affordable(t, key, s, e)
  {
    var from := t.cursors[key];
    if from.at < end && Below(from.counter, Counter(s)) {
      var split := Split(from.at, end, s.up - from.counter.up, s.down - from.counter.down);
      if split.Ok? {
        KnownFits(t, mid, key, end, s, x, e, split.value);
      }
    }
  }

  lemma NextExactly(t: Tables, mid: Tables, report: Report, catalog: Catalog, s: Sample, x: Growth, e: Bytes)
    requires Grown(t, mid, x) && Untouched(KeyOfSample(report, s), x)
    requires e == x.earned(s.user) && Below(ZERO, e) && (e == ZERO || RoomIn(AccountOf(t, s.user), e))
    ensures ApplySample(mid, report, catalog, s).Ok?
       <==> Permitted(report, catalog, s) && Fitting(t, KeyOfSample(report, s), report.end, s) && Affordable(t, KeyOfSample(report, s), s, e)
  {
    var key := KeyOfSample(report, s);
    NextFinds(t, mid, key, x);
    if key in t.cursors {
      KnownExactly(t, mid, key, report.end, s, x, e);
    }
  }

  lemma NextGrows(t: Tables, mid: Tables, report: Report, catalog: Catalog, s: Sample, x: Growth, y: Growth)
    requires Grown(t, mid, x) && OneMore(t, KeyOfSample(report, s), report.end, s, x, y) && ApplySample(mid, report, catalog, s).Ok?
    ensures Grown(t, ApplySample(mid, report, catalog, s).value, y)
  {
    var key := KeyOfSample(report, s);
    NextFinds(t, mid, key, x);
    if key !in t.cursors {
      NewRows(t, mid, key, report.end, s, x, y);
      UncreditedAccounts(t, mid, mid, key, s, x.earned, y.earned);
      MovedGrown(t, mid, mid, key, report.end, s, x, y);
    } else {
      var from := t.cursors[key];
      var split := Split(from.at, report.end, s.up - from.counter.up, s.down - from.counter.down);
      KnownGrows(t, mid, key, report.end, s, x, y, split.value);
      GrowthKeeps(mid, key.node, s, from, report.end);
    }
  }

  // Growing moves no cursor.
  lemma GrowthKeeps(mid: Tables, node: int, s: Sample, from: Cursor, end: int)
    requires ApplyGrowth(mid, node, s, from, end).Ok?
    ensures var grown := ApplyGrowth(mid, node, s, from, end).value; grown.cursors == mid.cursors && grown.baselines == mid.baselines
  {
    var split := Split(from.at, end, s.up - from.counter.up, s.down - from.counter.down);
    BucketsKeepCursors(mid, node, SeriesOf(s), split.value);
  }

  // ---- The whole report ----

  lemma EarnedNonnegative(t: Tables, report: Report, samples: set<Sample>, user: int)
    requires forall s :: s in samples ==> Room(t, report, s)
    ensures Below(ZERO, Earned(t, report, samples, user))
  {
    var growth := UserGrowth(t, report, samples, user);
    forall k | k in growth ensures Below(ZERO, growth[k]) {
      assert Room(t, report, SampleOf(samples, k.series).value);
    }
    TotalNonnegative(growth);
  }

  lemma EarnedRoom(t: Tables, report: Report, samples: set<Sample>, user: int)
    requires AccountRoom(t, report, samples, user)
    ensures Earned(t, report, samples, user) == ZERO || RoomIn(AccountOf(t, user), Earned(t, report, samples, user))
  {
  }

  // With room for one more sample there is room for those before it.
  lemma RoomForFront(t: Tables, report: Report, front: set<Sample>, s: Sample, user: int)
    requires OneEach(front) && Unseen(front, s) && Room(t, report, s) && AccountRoom(t, report, front + {s}, user)
    ensures AccountRoom(t, report, front, user)
  {
    EarnedAppend(t, report, front, s, user);
  }

  lemma NextRoom(t: Tables, report: Report, front: set<Sample>, s: Sample, user: int)
    requires OneEach(front) && Unseen(front, s) && AccountRoom(t, report, front, user)
    requires Affordable(t, KeyOfSample(report, s), s, Earned(t, report, front, s.user))
    ensures AccountRoom(t, report, front + {s}, user)
  {
    EarnedAppend(t, report, front, s, user);
  }

  lemma RoomIsAffordable(t: Tables, report: Report, front: set<Sample>, s: Sample)
    requires OneEach(front) && Unseen(front, s) && AccountRoom(t, report, front + {s}, s.user)
    ensures Affordable(t, KeyOfSample(report, s), s, Earned(t, report, front, s.user))
  {
    EarnedAppend(t, report, front, s, s.user);
  }

  // A report can be counted exactly if all but one of its samples can, and then this one.
  lemma CountableAppend(t: Tables, report: Report, catalog: Catalog, front: set<Sample>, s: Sample)
    requires OneEach(front) && Unseen(front, s)
    ensures Countable(t, report, catalog, front + {s})
       <==> && Countable(t, report, catalog, front) && Permitted(report, catalog, s) && Room(t, report, s)
            && Affordable(t, KeyOfSample(report, s), s, Earned(t, report, front, s.user))
  {
    if Countable(t, report, catalog, front + {s}) {
      assert s in front + {s};
      forall user ensures AccountRoom(t, report, front, user) {
        RoomForFront(t, report, front, s, user);
      }
      RoomIsAffordable(t, report, front, s);
    }
    if Countable(t, report, catalog, front) && Affordable(t, KeyOfSample(report, s), s, Earned(t, report, front, s.user)) {
      forall user ensures AccountRoom(t, report, front + {s}, user) {
        NextRoom(t, report, front, s, user);
      }
    }
  }

  function SetOf(samples: seq<Sample>): set<Sample> { set s | s in samples }

  // No two samples are for one series.
  ghost predicate Separate(samples: seq<Sample>) {
    forall i, j :: 0 <= i < j < |samples| ==> SeriesOf(samples[i]) != SeriesOf(samples[j])
  }

  lemma SeparateFront(front: seq<Sample>, s: Sample)
    requires Separate(front + [s])
    ensures Separate(front) && Unseen(SetOf(front), s) && OneEach(SetOf(front)) && SetOf(front + [s]) == SetOf(front) + {s}
  {
    var all := front + [s];
    forall i, j | 0 <= i < j < |front| ensures SeriesOf(front[i]) != SeriesOf(front[j]) {
      assert SeriesOf(all[i]) != SeriesOf(all[j]);
    }
    forall i | 0 <= i < |front| ensures SeriesOf(front[i]) != SeriesOf(s) {
      assert SeriesOf(all[i]) != SeriesOf(all[|front|]);
    }
  }

  lemma NoGrowth(t: Tables, x: Growth)
    requires (forall c: Cell :: x.added(c) == None) && (forall key: CursorKey :: x.reached(key) == None)
    requires forall user: int :: x.earned(user) == ZERO
    ensures Grown(t, t, x)
  {
  }

  lemma NothingEarned(t: Tables, report: Report, user: int)
    ensures UserGrowth(t, report, {}, user) == map[] && Earned(t, report, {}, user) == ZERO
  {
  }

  lemma NothingGrown(t: Tables, report: Report)
    ensures Grown(t, t, GrowthBy(t, report, {}))
  {
    var x := GrowthBy(t, report, {});
    forall user: int ensures x.earned(user) == ZERO {
      NothingEarned(t, report, user);
    }
    NoGrowth(t, x);
  }

  lemma NothingCountable(t: Tables, report: Report, catalog: Catalog)
    ensures Countable(t, report, catalog, {})
  {
    forall user ensures UserGrowth(t, report, {}, user) == map[] {
      NothingEarned(t, report, user);
    }
  }

  lemma {:induction false} SamplesGrow(t: Tables, report: Report, catalog: Catalog, samples: seq<Sample>)
    requires Separate(samples)
    ensures var applied := ApplySamples(t, report, catalog, samples);
            && (applied.Ok? <==> Countable(t, report, catalog, SetOf(samples)))
            && (applied.Ok? ==> Grown(t, applied.value, GrowthBy(t, report, SetOf(samples))))
  {
    if samples == [] {
      assert SetOf(samples) == {};
      NothingGrown(t, report);
      NothingCountable(t, report, catalog);
    } else {
      var front, s := samples[..|samples| - 1], samples[|samples| - 1];
      assert samples == front + [s];
      SeparateFront(front, s);
      SamplesGrow(t, report, catalog, front);
      CountableAppend(t, report, catalog, SetOf(front), s);
      var applied := ApplySamples(t, report, catalog, front);
      if applied.Ok? {
        var e := Earned(t, report, SetOf(front), s.user);
        EarnedNonnegative(t, report, SetOf(front), s.user);
        RoomSoFar(t, report, catalog, SetOf(front), s.user);
        SampleGrows(t, applied.value, report, catalog, SetOf(front), s, e);
        RoomIsFitting(t, report, s);
      }
    }
  }

  // The next sample is counted exactly if it fits and can be afforded, with this outcome.
  ghost predicate Grows(t: Tables, mid: Tables, report: Report, catalog: Catalog, s: Sample, e: Bytes, y: Growth) {
    var applied, key := ApplySample(mid, report, catalog, s), KeyOfSample(report, s);
    && (applied.Ok? <==> Permitted(report, catalog, s) && Fitting(t, key, report.end, s) && Affordable(t, key, s, e))
    && (applied.Ok? ==> Grown(t, applied.value, y))
  }

  lemma SampleGrows(t: Tables, mid: Tables, report: Report, catalog: Catalog, front: set<Sample>, s: Sample, e: Bytes)
    requires Grown(t, mid, GrowthBy(t, report, front)) && OneEach(front) && Unseen(front, s)
    requires e == Earned(t, report, front, s.user) && Below(ZERO, e) && (e == ZERO || RoomIn(AccountOf(t, s.user), e))
    ensures Grows(t, mid, report, catalog, s, e, GrowthBy(t, report, front + {s}))
  {
    GrowthAppend(t, report, front, s);
    GrowsExactly(t, mid, report, catalog, s, GrowthBy(t, report, front), GrowthBy(t, report, front + {s}), e);
  }

  lemma RoomSoFar(t: Tables, report: Report, catalog: Catalog, front: set<Sample>, user: int)
    requires Countable(t, report, catalog, front)
    ensures Earned(t, report, front, user) == ZERO || RoomIn(AccountOf(t, user), Earned(t, report, front, user))
  {
    assert AccountRoom(t, report, front, user);
    EarnedRoom(t, report, front, user);
  }

  lemma RoomIsFitting(t: Tables, report: Report, s: Sample)
    ensures Room(t, report, s) <==> Fitting(t, KeyOfSample(report, s), report.end, s)
  {
  }

  lemma GrowsExactly(t: Tables, mid: Tables, report: Report, catalog: Catalog, s: Sample, x: Growth, y: Growth, e: Bytes)
    requires Grown(t, mid, x) && OneMore(t, KeyOfSample(report, s), report.end, s, x, y)
    requires e == x.earned(s.user) && Below(ZERO, e) && (e == ZERO || RoomIn(AccountOf(t, s.user), e))
    ensures Grows(t, mid, report, catalog, s, e, y)
  {
    NextExactly(t, mid, report, catalog, s, x, e);
    if ApplySample(mid, report, catalog, s).Ok? {
      NextGrows(t, mid, report, catalog, s, x, y);
    }
  }

  // ---- What the panel makes of a report ----

  // The samples of a legal report are for different series, and sorting keeps them.
  lemma SortedSeparate(samples: seq<Sample>)
    requires DistinctSeries(samples) && forall i :: 0 <= i < |samples| ==> ValidSample(samples[i])
    ensures Separate(Sorted(samples)) && SetOf(Sorted(samples)) == SetOf(samples)
  {
    SortedSorts(samples);
    var sorted := Sorted(samples);
    forall s ensures s in sorted <==> s in samples {
      assert s in multiset(sorted) <==> s in multiset(samples);
    }
    forall i, j | 0 <= i < j < |sorted| ensures SeriesOf(sorted[i]) != SeriesOf(sorted[j]) {
      SortedApart(samples, i, j);
    }
  }

  lemma SortedApart(samples: seq<Sample>, i: nat, j: nat)
    requires DistinctSeries(samples) && forall i :: 0 <= i < |samples| ==> ValidSample(samples[i])
    requires i < j < |Sorted(samples)| && multiset(Sorted(samples)) == multiset(samples)
    ensures SeriesOf(Sorted(samples)[i]) != SeriesOf(Sorted(samples)[j])
  {
    var sorted := Sorted(samples);
    DistinctApart(samples);
    var x, y := sorted[i], sorted[j];
    assert x in multiset(samples) && y in multiset(samples);
    if SeriesOf(x) == SeriesOf(y) {
      assert KeyOf(x) == KeyOf(y);
      Twice(sorted, i, j);
      OnceIn(samples, x);
    }
  }

  lemma Twice(s: seq<Sample>, i: nat, j: nat)
    requires i < j < |s| && s[i] == s[j]
    ensures multiset(s)[s[i]] >= 2
  {
    assert s == s[..j] + [s[j]] + s[j + 1..];
    assert s[..j][i] == s[i];
  }

  lemma {:induction false} OnceIn(samples: seq<Sample>, x: Sample)
    requires DistinctSeries(samples)
    ensures multiset(samples)[x] <= 1
  {
    if samples != [] {
      var rest := samples[1..];
      assert samples == [samples[0]] + rest;
      OnceIn(rest, x);
      assert forall k :: 0 <= k < |rest| ==> KeyOf(samples[0]) != KeyOf(rest[k]);
    }
  }

  // What is read of the tables before are the cursors, rows and accounts.
  lemma CountableReads(t: Tables, u: Tables, report: Report, catalog: Catalog, samples: set<Sample>)
    requires u.cursors == t.cursors && u.records == t.records && u.accounts == t.accounts
    ensures Countable(u, report, catalog, samples) <==> Countable(t, report, catalog, samples)
  {
    forall user ensures AccountRoom(u, report, samples, user) <==> AccountRoom(t, report, samples, user) {
      assert UserGrowth(u, report, samples, user) == UserGrowth(t, report, samples, user);
    }
    forall s ensures Room(u, report, s) <==> Room(t, report, s) {
      RoomReads(t, u, report, s);
    }
  }

  lemma RoomReads(t: Tables, u: Tables, report: Report, s: Sample)
    requires u.cursors == t.cursors && u.records == t.records
    ensures Room(u, report, s) <==> Room(t, report, s)
  {
    forall c: Cell, share ensures RowRoom(u, c, share) <==> RowRoom(t, c, share) {
    }
  }

  ghost predicate SameGrowth(x: Growth, y: Growth) {
    && (forall c: Cell :: x.added(c) == y.added(c)) && (forall key: CursorKey :: x.reached(key) == y.reached(key))
    && (forall user: int :: x.earned(user) == y.earned(user))
  }

  lemma GrowthReads(t: Tables, u: Tables, report: Report, samples: set<Sample>)
    requires u.cursors == t.cursors
    ensures SameGrowth(GrowthBy(u, report, samples), GrowthBy(t, report, samples))
  {
    var x, y := GrowthBy(u, report, samples), GrowthBy(t, report, samples);
    forall user: int ensures x.earned(user) == y.earned(user) {
      assert UserGrowth(u, report, samples, user) == UserGrowth(t, report, samples, user);
    }
  }

  lemma RowsFrom(t: Tables, u: Tables, applied: Tables, after: Tables, x: Cell -> Option<Bytes>, y: Cell -> Option<Bytes>)
    requires RowsGrew(u, applied, x) && t.records == u.records && after.records == applied.records
    requires forall c: Cell :: x(c) == y(c)
    ensures RowsGrew(t, after, y)
  {
    forall c: Cell ensures RowGrew(t, after, c, y(c)) {
      assert RowGrew(u, applied, c, x(c));
    }
  }

  lemma CursorsFrom(t: Tables, u: Tables, applied: Tables, after: Tables, x: CursorKey -> Option<Cursor>, y: CursorKey -> Option<Cursor>)
    requires CursorsMoved(u, applied, x) && t.cursors == u.cursors && t.baselines == u.baselines
    requires after.cursors == applied.cursors && after.baselines == applied.baselines && forall key: CursorKey :: x(key) == y(key)
    ensures CursorsMoved(t, after, y)
  {
    forall key: CursorKey ensures CursorMoved(t, after, key, y(key)) {
      assert CursorMoved(u, applied, key, x(key));
    }
  }

  lemma AccountsFrom(t: Tables, u: Tables, applied: Tables, after: Tables, x: int -> Bytes, y: int -> Bytes)
    requires AccountsGrew(u, applied, x) && t.accounts == u.accounts && after.accounts == applied.accounts
    requires forall user: int :: x(user) == y(user)
    ensures AccountsGrew(t, after, y)
  {
    forall user: int ensures AccountGrew(t, after, user, y(user)) {
      assert AccountGrew(u, applied, user, x(user));
      AccountFrom(t, u, applied, after, user, x(user));
    }
  }

  // Growth does not depend on the node's state.
  lemma GrownFrom(t: Tables, u: Tables, applied: Tables, after: Tables, x: Growth, y: Growth)
    requires Grown(u, applied, x) && SameGrowth(x, y)
    requires t == u.(nodes := after.nodes) && after == applied.(nodes := after.nodes)
    ensures Grown(t, after, y)
  {
    RowsFrom(t, u, applied, after, x.added, y.added);
    CursorsFrom(t, u, applied, after, x.reached, y.reached);
    AccountsFrom(t, u, applied, after, x.earned, y.earned);
  }

  // The new report is on record, and the node has reached it.
  function Noted(t: Tables, report: Report): Tables {
    t.(reports := t.reports[ReportKeyOf(report) := Payload(report)],
       nodes := t.nodes[report.node := NodeState(report.epoch, report.sequence)])
  }

  // Legal: of this node, in the window of time, and with every counter of a series once.
  ghost predicate Legal(report: Report, node: int, now: int) {
    && report.node == node > 0 && report.sequence > 0
    && report.start < report.end <= report.start + DAY && report.end <= now + MINUTE && now - 7 * DAY <= report.start
    && |report.samples| <= 4000
    && (forall s :: s in report.samples ==> s.inbound > 0 && s.user >= 0 && 0 <= s.up <= MAX_INT64 && 0 <= s.down <= MAX_INT64)
    && forall i, j :: 0 <= i < j < |report.samples| ==>
         report.samples[i].inbound != report.samples[j].inbound || report.samples[i].user != report.samples[j].user
  }

  // It goes on in the epoch of its node, or is the first of an epoch that the node has no report of.
  ghost predicate Continues(t: Tables, report: Report) {
    if report.node in t.nodes && t.nodes[report.node].epoch == report.epoch then report.sequence > t.nodes[report.node].last
    else
      && report.sequence == 1
      && (report.node in t.nodes ==> forall key :: key in t.reports && key.node == report.node ==> key.epoch != report.epoch)
  }

  lemma LegalIsValid(report: Report, node: int, now: int)
    ensures ValidReport(report, node, now) <==> Legal(report, node, now)
  {
  }

  // A report is accepted as new exactly if it is legal, not on record, in order, and all it reports can be counted; and
  // then exactly this is counted. Everything else changes nothing: a repetition of what is on record, and refusals.
  lemma ReportIsCounted(t: Tables, node: int, report: Report, now: int, catalog: Catalog)
    ensures var receipt := Ingest(t, node, report, now, catalog);
            var accepted := receipt.accepted && !receipt.duplicate;
            && (accepted <==>
                  && Legal(report, node, now) && ReportKeyOf(report) !in t.reports && Continues(t, report)
                  && Countable(t, report, catalog, SetOf(report.samples)))
            && (receipt.duplicate <==>
                  && Legal(report, node, now) && ReportKeyOf(report) in t.reports
                  && t.reports[ReportKeyOf(report)] == Payload(report))
            && (receipt.duplicate ==> receipt.accepted) && (receipt.accepted <==> receipt.error.None?)
            && (!Legal(report, node, now) ==> receipt.error == Some(InvalidReport))
            && (Legal(report, node, now) && ReportKeyOf(report) !in t.reports && !Continues(t, report) ==> receipt.error == Some(SequenceConflict))
            && (accepted ==> Grown(Noted(t, report), receipt.tables, GrowthBy(t, report, SetOf(report.samples))))
            && (!accepted ==> receipt.tables == t)
  {
    var key, payload := ReportKeyOf(report), Payload(report);
    LegalIsValid(report, node, now);
    assert InOrder(t, report) <==> Continues(t, report);
    if ValidReport(report, node, now) && key !in t.reports && InOrder(t, report) {
      var u := t.(reports := t.reports[key := payload]);
      SortedSeparate(report.samples);
      SamplesGrow(u, report, catalog, payload.samples);
      CountableReads(t, u, report, catalog, SetOf(report.samples));
      var applied := ApplySamples(u, report, catalog, payload.samples);
      if applied.Ok? {
        var after := Ingest(t, node, report, now, catalog).tables;
        GrowthReads(t, u, report, SetOf(report.samples));
        GrownFrom(Noted(t, report), u, applied.value, after, GrowthBy(u, report, SetOf(report.samples)), GrowthBy(t, report, SetOf(report.samples)));
      }
    }
  }
}
