/** What the agent's reports say about its readings, over whole runs. */
module TrafficReadings {
  import opened TrafficSplit
  import opened TrafficTables
  import opened TrafficDelivery

  // The readings from which the reports of a run were generated.
  function Readings(s: System, node: int, steps: seq<Step>): seq<Reading> {
    if steps == [] then []
    else
      var front, step := steps[..|steps| - 1], steps[|steps| - 1];
      var taken := if step.Collect? && Execute(s, node, front).disk.pending.None? then [step.reading] else [];
      Readings(s, node, front) + taken
  }

  // As far as the agent can tell, the core has been running since the last reading: neither its uptime nor a counter
  // went back, and its uptime has kept up with the clock but for five seconds.
  predicate Continues(last: Reading, r: Reading) {
    && r.uptime >= last.uptime
    && (last.now != 0 ==> r.uptime - last.uptime >= Seconds(r.now - last.now) - 5)
    && forall name :: name in r.counters ==> r.counters[name] >= if name in last.counters then last.counters[name] else 0
  }

  // A report carries the samples of its reading and ends at its time. It goes on where the one before ended exactly if the
  // core kept running, and otherwise starts an epoch of its own one second before the reading.
  ghost predicate Tells(generated: seq<Report>, readings: seq<Reading>, node: int, i: nat)
    requires i < |generated| == |readings|
  {
    var report, r := generated[i], readings[i];
    && report.node == node && report.samples == r.samples && report.end == r.now
    && if i > 0 && Continues(readings[i - 1], r) then
         && report.epoch == generated[i - 1].epoch && report.sequence == generated[i - 1].sequence + 1
         && report.start == readings[i - 1].now && report.complete
       else
         && report.sequence == 1 && report.start == r.now - SECOND && !report.complete
         && forall j :: 0 <= j < i ==> generated[j].epoch != report.epoch
  }

  // The state file holds what the last reading said.
  ghost predicate Remembers(disk: Disk, readings: seq<Reading>) {
    if readings == [] then disk == NEW_DISK
    else
      var last := readings[|readings| - 1];
      disk.counters == last.counters && disk.uptime == last.uptime && disk.lastAt == last.now
  }

  ghost predicate Told(s: System, node: int, readings: seq<Reading>) {
    && |s.generated| == |readings| && Remembers(s.disk, readings)
    && forall i :: 0 <= i < |s.generated| ==> Tells(s.generated, readings, node, i)
  }

  lemma CollectTells(s: System, node: int, readings: seq<Reading>, reading: Reading, unused: int)
    requires Delivering(s, node) && Told(s, node, readings) && s.disk.pending.None? && Fresh(s, Collect(reading, unused))
    ensures Told(Next(s, node, Collect(reading, unused)), node, readings + [reading])
  {
    var after, more := Next(s, node, Collect(reading, unused)), readings + [reading];
    var k := |s.generated|;
    assert after.generated[..k] == s.generated;
    if k > 0 {
      assert Restarted(s.disk, reading) <==> !Continues(more[k - 1], reading);
    }
    forall i | 0 <= i < |after.generated| ensures Tells(after.generated, more, node, i) {
      if i < k {
        assert Tells(s.generated, readings, node, i);
      }
    }
  }

  lemma NextTells(s: System, node: int, readings: seq<Reading>, step: Step)
    requires Delivering(s, node) && Told(s, node, readings) && Fresh(s, step)
    requires !(step.Collect? && s.disk.pending.None?)
    ensures Told(Next(s, node, step), node, readings)
  {
    var after := Next(s, node, step);
    assert after.generated == s.generated;
    forall i | 0 <= i < |after.generated| ensures Tells(after.generated, readings, node, i) {
      assert Tells(s.generated, readings, node, i);
    }
  }

  // In every run, each report tells what its reading said and whether it goes on from the reading before, and the state
  // file holds what the last reading said.
  lemma {:induction false} ReportsTellReadings(users: map<int, User>, node: int, steps: seq<Step>)
    requires FreshRun(Start(users), node, steps)
    ensures var s, readings := Execute(Start(users), node, steps), Readings(Start(users), node, steps);
            && |s.generated| == |readings| && Remembers(s.disk, readings)
            && forall i :: 0 <= i < |s.generated| ==> Tells(s.generated, readings, node, i)
  {
    if steps != [] {
      var k := |steps| - 1;
      forall i | 0 <= i < k ensures Fresh(Execute(Start(users), node, steps[..k][..i]), steps[..k][i]) {
        assert steps[..k][..i] == steps[..i];
      }
      ReportsTellReadings(users, node, steps[..k]);
      RunDelivers(users, node, steps[..k]);
      var s := Execute(Start(users), node, steps[..k]);
      var readings := Readings(Start(users), node, steps[..k]);
      if steps[k].Collect? && s.disk.pending.None? {
        CollectTells(s, node, readings, steps[k].reading, steps[k].unused);
      } else {
        NextTells(s, node, readings, steps[k]);
        assert Readings(Start(users), node, steps) == readings;
      }
    }
  }
}
