/** What identifies a report: the order of its samples does not matter. */
module TrafficPayload {
  import opened TrafficTables

  ghost predicate Ordered(s: seq<Sample>) {
    forall i, j :: 0 <= i < j < |s| ==> !Before(s[j], s[i])
  }

  // Two samples are for the same series, or one comes before the other.
  ghost predicate Apart(s: multiset<Sample>) {
    forall x, y :: x in s && y in s && KeyOf(x) == KeyOf(y) ==> x == y
  }

  lemma {:induction false} InsertSorts(s: Sample, sorted: seq<Sample>)
    requires Ordered(sorted)
    ensures Ordered(Insert(s, sorted)) && multiset(Insert(s, sorted)) == multiset(sorted) + multiset{s}
  {
    if sorted == [] {
    } else if Before(s, sorted[0]) {
      assert multiset([s] + sorted) == multiset(sorted) + multiset{s};
    } else {
      var rest := sorted[1..];
      InsertSorts(s, rest);
      assert sorted == [sorted[0]] + rest;
      var inserted := Insert(s, rest);
      forall j | 0 <= j < |inserted| ensures !Before(inserted[j], sorted[0]) {
        assert inserted[j] in multiset(rest) + multiset{s};
        if inserted[j] in multiset(rest) {
          var i :| 0 <= i < |rest| && rest[i] == inserted[j];
          assert rest[i] == sorted[i + 1];
        }
      }
    }
  }

  // Sorting keeps every sample and puts them in order.
  lemma {:induction false} SortedSorts(samples: seq<Sample>)
    ensures Ordered(Sorted(samples)) && multiset(Sorted(samples)) == multiset(samples)
  {
    if samples != [] {
      SortedSorts(samples[1..]);
      InsertSorts(samples[0], Sorted(samples[1..]));
      assert samples == [samples[0]] + samples[1..];
    }
  }

  lemma SameIndex(samples: seq<Sample>, i: nat, j: nat)
    requires DistinctSeries(samples) && i < |samples| && j < |samples| && KeyOf(samples[i]) == KeyOf(samples[j])
    ensures i == j
  {
  }

  lemma DistinctApart(samples: seq<Sample>)
    requires DistinctSeries(samples)
    ensures Apart(multiset(samples))
  {
    forall x, y | x in multiset(samples) && y in multiset(samples) && KeyOf(x) == KeyOf(y) ensures x == y {
      var i :| 0 <= i < |samples| && samples[i] == x;
      var j :| 0 <= j < |samples| && samples[j] == y;
      SameIndex(samples, i, j);
    }
  }

  lemma SameFirst(x: seq<Sample>, y: seq<Sample>)
    requires Ordered(x) && Ordered(y) && multiset(x) == multiset(y) && Apart(multiset(x)) && |x| > 0 && |y| > 0
    ensures x[0] == y[0]
  {
    assert x[0] in multiset(y) && y[0] in multiset(x);
    var j :| 0 <= j < |y| && y[j] == x[0];
    var i :| 0 <= i < |x| && x[i] == y[0];
    assert KeyOf(x[0]) == KeyOf(y[0]);
  }

  lemma {:induction false} OrderedUnique(x: seq<Sample>, y: seq<Sample>)
    requires Ordered(x) && Ordered(y) && multiset(x) == multiset(y) && Apart(multiset(x))
    ensures x == y
    decreases |x|
  {
    assert |x| == |multiset(x)| == |multiset(y)| == |y|;
    if x != [] {
      SameFirst(x, y);
      assert x == [x[0]] + x[1..] && y == [y[0]] + y[1..];
      assert multiset(x[1..]) == multiset(x) - multiset{x[0]};
      assert multiset(y[1..]) == multiset(y) - multiset{y[0]};
      OrderedUnique(x[1..], y[1..]);
    }
  }

  // Two legal reports that differ in the order of their samples have the same payload, so that the second one to
  // arrive is recognised as a repetition.
  lemma PayloadIgnoresOrder(x: Report, y: Report)
    requires DistinctSeries(x.samples) && multiset(x.samples) == multiset(y.samples) && y == x.(samples := y.samples)
    ensures Payload(x) == Payload(y)
  {
    SortedSorts(x.samples);
    SortedSorts(y.samples);
    DistinctApart(x.samples);
    OrderedUnique(Sorted(x.samples), Sorted(y.samples));
  }
}
