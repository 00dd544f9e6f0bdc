/** What the recorded events of a user say about its limit and its quota epoch, over whole runs. */
module TrafficAccounts {
  import opened TrafficTables
  import opened TrafficLedger

  function EventsOf(events: seq<AccountEvent>, user: int): seq<AccountEvent> {
    if events == [] then []
    else
      var e := events[|events| - 1];
      EventsOf(events[..|events| - 1], user) + if e.user == user then [e] else []
  }

  // How many of the events are of this kind.
  function Count(events: seq<AccountEvent>, kind: EventKind): nat {
    if events == [] then 0
    else Count(events[..|events| - 1], kind) + if events[|events| - 1].kind == kind then 1 else 0
  }

  function LimitAfter(first: int, events: seq<AccountEvent>): int {
    if events == [] then first else events[|events| - 1].newLimit
  }

  // An event starts from the limit and the quota epoch that the events before it left; a reset leaves the limit alone.
  ghost predicate Continues(first: int, events: seq<AccountEvent>, i: nat)
    requires i < |events|
  {
    && events[i].oldLimit == LimitAfter(first, events[..i])
    && events[i].quotaEpoch == 1 + Count(events[..i], UsageReset)
    && (events[i].kind == UsageReset ==> events[i].newLimit == events[i].oldLimit)
  }

  // The user's limit, revision and quota epoch are what its events have made of them.
  ghost predicate Explained(users: map<int, User>, t: Tables, user: int) {
    var events := EventsOf(t.events, user);
    && (user in t.users <==> user in users)
    && (user !in users ==> events == [])
    && AccountOf(t, user).quotaEpoch == 1 + Count(events, UsageReset)
    && (user in users ==>
          && t.users[user].limit == LimitAfter(users[user].limit, events)
          && t.users[user].revision == users[user].revision + Count(events, LimitChanged)
          && forall i :: 0 <= i < |events| ==> Continues(users[user].limit, events, i))
  }

  lemma EventsAppend(events: seq<AccountEvent>, e: AccountEvent, user: int)
    ensures EventsOf(events + [e], user) == EventsOf(events, user) + if e.user == user then [e] else []
  {
    assert (events + [e])[..|events|] == events;
  }

  lemma CountAppend(events: seq<AccountEvent>, e: AccountEvent, kind: EventKind)
    ensures Count(events + [e], kind) == Count(events, kind) + if e.kind == kind then 1 else 0
  {
    assert (events + [e])[..|events|] == events;
  }

  lemma ContinuesAppend(first: int, events: seq<AccountEvent>, e: AccountEvent)
    requires forall i :: 0 <= i < |events| ==> Continues(first, events, i)
    requires e.oldLimit == LimitAfter(first, events) && e.quotaEpoch == 1 + Count(events, UsageReset)
    requires e.kind == UsageReset ==> e.newLimit == e.oldLimit
    ensures forall i :: 0 <= i < |events| + 1 ==> Continues(first, events + [e], i)
  {
    var more := events + [e];
    forall i | 0 <= i < |more| ensures Continues(first, more, i) {
      if i < |events| {
        assert more[..i] == events[..i];
        assert Continues(first, events, i);
      } else {
        assert more[..i] == events;
      }
    }
  }

  // The tables after an event of a known user: a new limit, or a new quota epoch.
  ghost predicate Noted(t: Tables, after: Tables, e: AccountEvent) {
    && e.user in t.users && after.events == t.events + [e]
    && e.oldLimit == t.users[e.user].limit && e.quotaEpoch == AccountOf(t, e.user).quotaEpoch
    && (match e.kind
        case LimitChanged =>
          && after.users == t.users[e.user := User(e.newLimit, t.users[e.user].revision + 1)]
          && AccountOf(after, e.user).quotaEpoch == e.quotaEpoch
        case UsageReset => after.users == t.users && e.newLimit == e.oldLimit && AccountOf(after, e.user).quotaEpoch == e.quotaEpoch + 1)
    && forall other :: other != e.user ==> AccountOf(after, other) == AccountOf(t, other)
  }

  lemma NotedExplains(users: map<int, User>, t: Tables, after: Tables, e: AccountEvent, user: int)
    requires Explained(users, t, user) && Noted(t, after, e)
    ensures Explained(users, after, user)
  {
    EventsAppend(t.events, e, user);
    var events := EventsOf(t.events, user);
    if user == e.user {
      CountAppend(events, e, UsageReset);
      CountAppend(events, e, LimitChanged);
      ContinuesAppend(users[user].limit, events, e);
    } else {
      assert AccountOf(after, user) == AccountOf(t, user);
      assert EventsOf(after.events, user) == events;
    }
  }

  ghost predicate SameEpochs(t: Tables, after: Tables) {
    forall user :: AccountOf(after, user).quotaEpoch == AccountOf(t, user).quotaEpoch
  }

  lemma {:induction false} SamplesKeepEpochs(t: Tables, report: Report, catalog: Catalog, samples: seq<Sample>)
    requires ApplySamples(t, report, catalog, samples).Ok?
    ensures var after := ApplySamples(t, report, catalog, samples).value;
            after.events == t.events && after.users == t.users && SameEpochs(t, after)
  {
    if samples != [] {
      var k := |samples| - 1;
      SamplesKeepEpochs(t, report, catalog, samples[..k]);
      SampleKeepsEpochs(ApplySamples(t, report, catalog, samples[..k]).value, report, catalog, samples[k]);
    }
  }

  lemma SampleKeepsEpochs(t: Tables, report: Report, catalog: Catalog, s: Sample)
    requires ApplySample(t, report, catalog, s).Ok?
    ensures var after := ApplySample(t, report, catalog, s).value;
            after.events == t.events && after.users == t.users && SameEpochs(t, after)
  {
    var key := CursorKey(report.node, report.epoch, SeriesOf(s));
    if key in t.cursors {
      GrowthGrew(t, report.node, s, t.cursors[key], report.end);
    }
  }

  lemma StepExplains(users: map<int, User>, t: Tables, step: Step, user: int)
    requires Explained(users, t, user)
    ensures Explained(users, Next(t, step), user)
  {
    match step
    case Reported(node, report, now, catalog) => ReportExplains(users, t, node, report, now, catalog, user);
    case ResetUsage(reset, epoch, reason) =>
      var answer := Reset(t, reset, epoch, reason);
      if answer.error.None? {
        NotedExplains(users, t, answer.tables, answer.tables.events[|t.events|], user);
      }
    case QuotaSet(changed, revision, limit) =>
      var answer := SetQuota(t, changed, revision, limit);
      if answer.error.None? {
        NotedExplains(users, t, answer.tables, answer.tables.events[|t.events|], user);
      }
  }

  lemma ReportExplains(users: map<int, User>, t: Tables, node: int, report: Report, now: int, catalog: Catalog, user: int)
    requires Explained(users, t, user)
    ensures Explained(users, Ingest(t, node, report, now, catalog).tables, user)
  {
    var receipt := Ingest(t, node, report, now, catalog);
    if receipt.accepted && !receipt.duplicate {
      var noted := t.(reports := t.reports[ReportKeyOf(report) := Payload(report)]);
      SamplesKeepEpochs(noted, report, catalog, Payload(report).samples);
      var applied := ApplySamples(noted, report, catalog, Payload(report).samples).value;
      assert AccountOf(receipt.tables, user) == AccountOf(applied, user);
      assert AccountOf(noted, user) == AccountOf(t, user);
    }
  }

  // Over every run, a user's limit is what its last event left, its revision counts the changes of the limit, and its quota
  // epoch counts the resets; and each event was recorded with the limit and the epoch that the earlier ones had left.
  lemma {:induction false} EventsExplainAccounts(users: map<int, User>, steps: seq<Step>, user: int)
    ensures Explained(users, Execute(Empty(users), steps), user)
  {
    if steps != [] {
      EventsExplainAccounts(users, steps[..|steps| - 1], user);
      StepExplains(users, Execute(Empty(users), steps[..|steps| - 1]), steps[|steps| - 1], user);
    }
  }
}
