/**
  Spreading a traffic delta over five-minute slots, in proportion to time.
  Times and durations are in nanoseconds, and slots are aligned to multiples of five minutes.
*/
module TrafficSplit {
  import opened Common

  const SECOND := 1_000_000_000
  const MINUTE := 60 * SECOND
  const HOUR := 60 * MINUTE
  const DAY := 24 * HOUR
  const SLOT := 5 * MINUTE

  datatype Bucket = Bucket(at: int, up: int, down: int)

  datatype Invalid = Invalid

  // A sum of counters that stays within a 64-bit signed counter.
  function Add(left: int, right: int): (r: Result<int, Invalid>)
    ensures r.Ok? <==> left >= 0 && right >= 0 && left + right <= MAX_INT64
    ensures r.Ok? ==> r.value == left + right
  {
    if left < 0 || right < 0 || left > MAX_INT64 - right then Err(Invalid) else Ok(left + right)
  }

  function SlotOf(t: int): int { t - t % SLOT }

  function Portion(value: int, part: int, total: int): int
    requires total > 0
  {
    value * part / total
  }

  // What a part of the time is worth.
  function Shares(value: int, total: int): int -> int
    requires total > 0
  {
    part => Portion(value, part, total)
  }

  // The buckets from the cursor on, which is in the given slot; the last bucket takes what is left.
  function SplitFrom(cursor: int, slot: int, end: int, up: int -> int, down: int -> int, restUp: int, restDown: int): (r: seq<Bucket>)
    requires InSlot(cursor, slot) && cursor < end
    decreases end - cursor
  {
    var boundary := slot + SLOT;
    if boundary >= end then [Bucket(slot, restUp, restDown)]
    else
      var b := Bucket(slot, up(boundary - cursor), down(boundary - cursor));
      [b] + SplitFrom(boundary, boundary, end, up, down, restUp - b.up, restDown - b.down)
  }

  function Split(start: int, end: int, up: int, down: int): Result<seq<Bucket>, Invalid> {
    if end <= start || end - start > DAY || up < 0 || down < 0 then Err(Invalid)
    else
      SlotFacts(start);
      Ok(SplitFrom(start, SlotOf(start), end, Shares(up, end - start), Shares(down, end - start), up, down))
  }

  lemma SlotFacts(t: int)
    ensures SlotOf(t) <= t < SlotOf(t) + SLOT && SlotOf(t) % SLOT == 0
    ensures SlotOf(SlotOf(t) + SLOT) == SlotOf(t) + SLOT
  {
    assert SlotOf(t) == SLOT * (t / SLOT);
    assert SlotOf(t) % SLOT == 0;
    assert (SlotOf(t) + SLOT) % SLOT == 0;
  }

  method SplitDelta(start: int, end: int, up: int, down: int) returns (r: Result<seq<Bucket>, Invalid>)
    ensures r == Split(start, end, up, down)
  {
    if end <= start || end - start > DAY || up < 0 || down < 0 {
      return Err(Invalid);
    }
    var result: seq<Bucket> := [];
    var remainingUp, remainingDown := up, down;
    var total := end - start;
    var portionUp, portionDown := Shares(up, total), Shares(down, total);
    var cursor := start;
    SlotFacts(start);
    while cursor < end
      invariant cursor <= end && InSlot(cursor, SlotOf(cursor))
      invariant SplitSoFar(result, cursor, SlotOf(cursor), end, portionUp, portionDown, remainingUp, remainingDown) == Split(start, end, up, down).value
      decreases end - cursor
    {
      var slot := SlotOf(cursor);
      var boundary := slot + SLOT;
      if boundary > end {
        boundary := end;
      }
      var bucket := Bucket(slot, portionUp(boundary - cursor), portionDown(boundary - cursor));
      if boundary == end {
        bucket := Bucket(slot, remainingUp, remainingDown);
      }
      NextBucket(result, cursor, slot, end, portionUp, portionDown, remainingUp, remainingDown);
      SlotFacts(cursor);
      SlotFacts(boundary);
      remainingUp := remainingUp - bucket.up;
      remainingDown := remainingDown - bucket.down;
      result := result + [bucket];
      cursor := boundary;
    }
    assert result == Split(start, end, up, down).value;
    return Ok(result);
  }

  predicate InSlot(cursor: int, slot: int) { slot <= cursor < slot + SLOT }

  ghost function SplitSoFar(done: seq<Bucket>, cursor: int, slot: int, end: int, up: int -> int, down: int -> int, restUp: int, restDown: int): seq<Bucket>
    requires InSlot(cursor, slot)
  {
    if cursor >= end then done else done + SplitFrom(cursor, slot, end, up, down, restUp, restDown)
  }

  lemma NextBucket(done: seq<Bucket>, cursor: int, slot: int, end: int, up: int -> int, down: int -> int, restUp: int, restDown: int)
    requires InSlot(cursor, slot) && cursor < end
    ensures var boundary := slot + SLOT;
            SplitSoFar(done, cursor, slot, end, up, down, restUp, restDown)
            == if boundary >= end then done + [Bucket(slot, restUp, restDown)]
               else
                 var b := Bucket(slot, up(boundary - cursor), down(boundary - cursor));
                 SplitSoFar(done + [b], boundary, boundary, end, up, down, restUp - b.up, restDown - b.down)
  {
    if slot + SLOT < end {
      var b := Bucket(slot, up(slot + SLOT - cursor), down(slot + SLOT - cursor));
      var rest := SplitFrom(slot + SLOT, slot + SLOT, end, up, down, restUp - b.up, restDown - b.down);
      assert done + ([b] + rest) == done + [b] + rest;
    }
  }

  // ---- What a split promises ----

  function SumUp(buckets: seq<Bucket>): int {
    if buckets == [] then 0 else buckets[0].up + SumUp(buckets[1..])
  }

  function SumDown(buckets: seq<Bucket>): int {
    if buckets == [] then 0 else buckets[0].down + SumDown(buckets[1..])
  }

  // The time that a bucket covers.
  function From(b: Bucket, start: int): int { if b.at < start then start else b.at }

  function To(b: Bucket, end: int): int { if b.at + SLOT > end then end else b.at + SLOT }

  // Consecutive slots from the given one that reach the end.
  ghost predicate Covers(buckets: seq<Bucket>, slot: int, end: int) {
    && |buckets| > 0
    && (forall i :: 0 <= i < |buckets| ==> buckets[i].at == slot + i * SLOT)
    && buckets[|buckets| - 1].at < end <= buckets[|buckets| - 1].at + SLOT
  }

  lemma {:induction false} SplitCovers(cursor: int, slot: int, end: int, up: int -> int, down: int -> int, restUp: int, restDown: int)
    requires InSlot(cursor, slot) && cursor < end
    ensures Covers(SplitFrom(cursor, slot, end, up, down, restUp, restDown), slot, end)
    decreases end - cursor
  {
    var boundary := slot + SLOT;
    if boundary < end {
      var b := Bucket(slot, up(boundary - cursor), down(boundary - cursor));
      SplitCovers(boundary, boundary, end, up, down, restUp - b.up, restDown - b.down);
    }
  }

  // ---- Shares ----

  // What has been given away by `n` shares lags the exact proportion by less than one byte a share.
  ghost predicate Lagging(value: int, given: int, elapsed: int, total: int, n: nat) {
    value * elapsed - n * (total - 1) <= given * total <= value * elapsed
  }

  // A rounded-down proportion.
  ghost predicate Rounded(share: int, value: int, part: int, total: int) {
    share >= 0 && Lagging(value, share, part, total, 1)
  }

  lemma PortionRounded(value: int, part: int, total: int)
    requires value >= 0 && part >= 0 && total > 0
    ensures Rounded(Portion(value, part, total), value, part, total)
  {
    var product := value * part;
    assert product >= 0;
    assert product == total * (product / total) + product % total;
  }

  lemma LaggingStep(value: int, given: int, elapsed: int, share: int, part: int, total: int, n: nat)
    requires Lagging(value, given, elapsed, total, n) && Lagging(value, share, part, total, 1)
    ensures Lagging(value, given + share, elapsed + part, total, n + 1)
  {
    assert (given + share) * total == given * total + share * total;
    assert value * (elapsed + part) == value * elapsed + value * part;
    assert (n + 1) * (total - 1) == n * (total - 1) + (total - 1);
  }

  lemma LastShare(value: int, given: int, elapsed: int, share: int, total: int, n: nat)
    requires total > 0 && Lagging(value, given, elapsed, total, n) && Rounded(share, value, total - elapsed, total)
    ensures share <= value - given <= share + n
  {
    var rest := value - given;
    assert value * (total - elapsed) == value * total - value * elapsed;
    assert rest * total == value * total - given * total;
    assert (n + 1) * (total - 1) == n * (total - 1) + (total - 1) < (n + 1) * total;
    Between(share, rest, share + n + 1, total);
  }

  lemma Between(low: int, x: int, high: int, k: int)
    requires k > 0 && low * k <= x * k && x * k < high * k
    ensures low <= x < high
  {
  }

  ghost function PartOf(b: Bucket, start: int, end: int): int { To(b, end) - From(b, start) }

  // Every bucket but the last has its share.
  ghost predicate SharesUp(buckets: seq<Bucket>, start: int, end: int, up: int -> int) {
    forall i :: 0 <= i < |buckets| - 1 ==> buckets[i].up == up(PartOf(buckets[i], start, end))
  }

  lemma {:induction false} SplitSharesUp(cursor: int, slot: int, end: int, up: int -> int, down: int -> int, restUp: int, restDown: int)
    requires InSlot(cursor, slot) && cursor < end
    ensures var buckets := SplitFrom(cursor, slot, end, up, down, restUp, restDown);
            SumUp(buckets) == restUp && SharesUp(buckets, cursor, end, up)
    decreases end - cursor
  {
    var boundary := slot + SLOT;
    if boundary < end {
      var b := Bucket(slot, up(boundary - cursor), down(boundary - cursor));
      SplitSharesUp(boundary, boundary, end, up, down, restUp - b.up, restDown - b.down);
      SplitCovers(boundary, boundary, end, up, down, restUp - b.up, restDown - b.down);
      var rest := SplitFrom(boundary, boundary, end, up, down, restUp - b.up, restDown - b.down);
      OneMoreShare(b, rest, cursor, boundary, end, up);
    }
  }

  lemma OneMoreShare(b: Bucket, rest: seq<Bucket>, cursor: int, boundary: int, end: int, up: int -> int)
    requires SharesUp(rest, boundary, end, up) && Covers(rest, boundary, end)
    requires b.at <= cursor < boundary == b.at + SLOT < end && b.up == up(boundary - cursor)
    ensures SharesUp([b] + rest, cursor, end, up) && SumUp([b] + rest) == b.up + SumUp(rest)
  {
    var all := [b] + rest;
    assert all[1..] == rest;
    forall i | 0 <= i < |all| - 1 ensures all[i].up == up(PartOf(all[i], cursor, end)) {
      if i > 0 {
        assert all[i] == rest[i - 1];
      }
    }
  }

  // The first k buckets reach up to here.
  ghost function Reached(slot: int, start: int, k: nat): int { if k == 0 then 0 else slot + k * SLOT - start }

  lemma {:induction false} PrefixLags(buckets: seq<Bucket>, slot: int, start: int, end: int, value: int, total: int, up: int -> int, k: nat)
    requires Covers(buckets, slot, end) && InSlot(start, slot) && SharesUp(buckets, start, end, up) && k < |buckets|
    requires forall part :: part >= 0 ==> Rounded(up(part), value, part, total)
    ensures Lagging(value, SumUp(buckets[..k]), Reached(slot, start, k), total, k)
  {
    if k > 0 {
      var b := buckets[k - 1];
      PrefixLags(buckets, slot, start, end, value, total, up, k - 1);
      SumAppend(buckets[..k - 1], b);
      assert buckets[..k] == buckets[..k - 1] + [b];
      PartReaches(buckets, slot, start, end, k);
      var part := PartOf(b, start, end);
      assert Rounded(up(part), value, part, total);
      LaggingStep(value, SumUp(buckets[..k - 1]), Reached(slot, start, k - 1), up(part), part, total, k - 1);
    }
  }

  lemma PartReaches(buckets: seq<Bucket>, slot: int, start: int, end: int, k: nat)
    requires Covers(buckets, slot, end) && InSlot(start, slot) && 0 < k < |buckets|
    ensures PartOf(buckets[k - 1], start, end) == Reached(slot, start, k) - Reached(slot, start, k - 1) >= 0
  {
    assert buckets[k].at == slot + k * SLOT;
    assert buckets[k - 1].at == slot + (k - 1) * SLOT;
    assert buckets[|buckets| - 1].at == slot + (|buckets| - 1) * SLOT;
  }

  lemma {:induction false} SumAppend(buckets: seq<Bucket>, b: Bucket)
    ensures SumUp(buckets + [b]) == SumUp(buckets) + b.up && SumDown(buckets + [b]) == SumDown(buckets) + b.down
  {
    if buckets != [] {
      SumAppend(buckets[1..], b);
      assert (buckets + [b])[1..] == buckets[1..] + [b];
    }
  }

  lemma LastLeft(buckets: seq<Bucket>)
    requires |buckets| > 0
    ensures SumUp(buckets) == SumUp(buckets[..|buckets| - 1]) + buckets[|buckets| - 1].up
  {
    var k := |buckets| - 1;
    SumAppend(buckets[..k], buckets[k]);
    assert buckets == buckets[..k] + [buckets[k]];
  }

  lemma LastReaches(buckets: seq<Bucket>, slot: int, start: int, end: int)
    requires Covers(buckets, slot, end) && InSlot(start, slot) && start < end
    ensures PartOf(buckets[|buckets| - 1], start, end) == end - start - Reached(slot, start, |buckets| - 1) >= 0
  {
    assert buckets[|buckets| - 1].at == slot + (|buckets| - 1) * SLOT;
  }

  // The last bucket gets what is left: its share, and less than one byte more for every other bucket.
  lemma LastBucket(buckets: seq<Bucket>, slot: int, start: int, end: int, value: int, up: int -> int)
    requires Covers(buckets, slot, end) && InSlot(start, slot) && start < end
    requires SharesUp(buckets, start, end, up) && SumUp(buckets) == value
    requires forall part :: part >= 0 ==> Rounded(up(part), value, part, end - start)
    ensures var last := buckets[|buckets| - 1];
            var share := up(PartOf(last, start, end)); share <= last.up <= share + |buckets| - 1
  {
    var k := |buckets| - 1;
    PrefixLags(buckets, slot, start, end, value, end - start, up, k);
    LastLeft(buckets);
    LastReaches(buckets, slot, start, end);
    var part := PartOf(buckets[k], start, end);
    assert Rounded(up(part), value, part, end - start);
    LastShare(value, SumUp(buckets[..k]), Reached(slot, start, k), up(part), end - start, k);
  }

  // ---- The two directions are alike ----

  function Swap(b: Bucket): Bucket { Bucket(b.at, b.down, b.up) }

  ghost predicate Swapped(x: seq<Bucket>, y: seq<Bucket>) {
    |x| == |y| && SumDown(x) == SumUp(y) && forall i :: 0 <= i < |x| ==> y[i] == Swap(x[i])
  }

  lemma {:induction false} SplitSwaps(cursor: int, slot: int, end: int, up: int -> int, down: int -> int, restUp: int, restDown: int)
    requires InSlot(cursor, slot) && cursor < end
    ensures Swapped(SplitFrom(cursor, slot, end, up, down, restUp, restDown), SplitFrom(cursor, slot, end, down, up, restDown, restUp))
    decreases end - cursor
  {
    var boundary := slot + SLOT;
    if boundary < end {
      var u, d := up(boundary - cursor), down(boundary - cursor);
      SplitSwaps(boundary, boundary, end, up, down, restUp - u, restDown - d);
      SwapOneMore(Bucket(slot, u, d), SplitFrom(boundary, boundary, end, up, down, restUp - u, restDown - d),
        SplitFrom(boundary, boundary, end, down, up, restDown - d, restUp - u));
    }
  }

  lemma SwapOneMore(b: Bucket, x: seq<Bucket>, y: seq<Bucket>)
    requires Swapped(x, y)
    ensures Swapped([b] + x, [Swap(b)] + y)
  {
    assert ([b] + x)[1..] == x && ([Swap(b)] + y)[1..] == y;
  }

  // ---- The promises of a split ----

  // The buckets are consecutive aligned slots, at most 289 of them, from the one of the start to the one of the end.
  lemma SplitIsContiguous(start: int, end: int, up: int, down: int)
    requires Split(start, end, up, down).Ok?
    ensures var buckets := Split(start, end, up, down).value;
            && 0 < |buckets| <= 289
            && buckets[0].at <= start < buckets[0].at + SLOT
            && (forall i :: 0 <= i < |buckets| ==> buckets[i].at % SLOT == 0)
            && (forall i :: 0 < i < |buckets| ==> buckets[i].at == buckets[i - 1].at + SLOT)
            && buckets[|buckets| - 1].at < end <= buckets[|buckets| - 1].at + SLOT
  {
    var buckets := Split(start, end, up, down).value;
    var slot := SlotOf(start);
    SlotFacts(start);
    SplitCovers(start, slot, end, Shares(up, end - start), Shares(down, end - start), up, down);
    CoveredSlots(buckets, slot, start, end);
  }

  lemma CoveredSlots(buckets: seq<Bucket>, slot: int, start: int, end: int)
    requires Covers(buckets, slot, end) && InSlot(start, slot) && slot % SLOT == 0 && end - start <= DAY
    ensures |buckets| <= 289
    ensures forall i :: 0 <= i < |buckets| ==> buckets[i].at % SLOT == 0
    ensures forall i :: 0 < i < |buckets| ==> buckets[i].at == buckets[i - 1].at + SLOT
  {
    forall i | 0 <= i < |buckets| ensures buckets[i].at % SLOT == 0 {
      Aligned(slot, i);
    }
    var k := |buckets| - 1;
    assert buckets[k].at == slot + k * SLOT;
  }

  lemma Aligned(slot: int, i: nat)
    requires slot % SLOT == 0
    ensures (slot + i * SLOT) % SLOT == 0
  {
    assert slot + i * SLOT == SLOT * (slot / SLOT + i);
  }

  lemma SplitUp(start: int, end: int, up: int, down: int)
    requires Split(start, end, up, down).Ok?
    ensures var buckets := Split(start, end, up, down).value;
            SumUp(buckets) == up && forall i :: 0 <= i < |buckets| ==> FairUp(buckets, i, start, end, up)
  {
    var total := end - start;
    var buckets := Split(start, end, up, down).value;
    SlotFacts(start);
    SplitCovers(start, SlotOf(start), end, Shares(up, total), Shares(down, total), up, down);
    SplitSharesUp(start, SlotOf(start), end, Shares(up, total), Shares(down, total), up, down);
    SharesFair(buckets, SlotOf(start), start, end, up);
  }

  lemma SharesFair(buckets: seq<Bucket>, slot: int, start: int, end: int, value: int)
    requires Covers(buckets, slot, end) && InSlot(start, slot) && start < end && value >= 0
    requires SharesUp(buckets, start, end, Shares(value, end - start)) && SumUp(buckets) == value
    ensures forall i :: 0 <= i < |buckets| ==> FairUp(buckets, i, start, end, value)
  {
    var total := end - start;
    var up := Shares(value, total);
    forall part | part >= 0 ensures Rounded(up(part), value, part, total) {
      PortionRounded(value, part, total);
    }
    LastBucket(buckets, slot, start, end, value, up);
    forall i | 0 <= i < |buckets| ensures FairUp(buckets, i, start, end, value) {
      assert buckets[i].at == slot + i * SLOT;
      if i < |buckets| - 1 {
        PartReaches(buckets, slot, start, end, i + 1);
      }
      var part := PartOf(buckets[i], start, end);
      assert part >= 0;
      assert Rounded(up(part), value, part, total);
    }
  }

  // The share of a bucket in one direction: the rounded-down proportion, and for the last bucket a little more.
  ghost predicate FairUp(buckets: seq<Bucket>, i: nat, start: int, end: int, value: int)
    requires i < |buckets| && start < end
  {
    var share := Portion(value, PartOf(buckets[i], start, end), end - start);
    0 <= share <= buckets[i].up <= share + if i < |buckets| - 1 then 0 else |buckets| - 1
  }

  lemma SplitBoth(start: int, end: int, up: int, down: int)
    requires Split(start, end, up, down).Ok?
    ensures Split(start, end, down, up).Ok? && Swapped(Split(start, end, up, down).value, Split(start, end, down, up).value)
  {
    SlotFacts(start);
    SplitSwaps(start, SlotOf(start), end, Shares(up, end - start), Shares(down, end - start), up, down);
  }

  // No byte is lost or invented, and no share is negative.
  lemma SplitConserves(start: int, end: int, up: int, down: int)
    requires Split(start, end, up, down).Ok?
    ensures var buckets := Split(start, end, up, down).value;
            && SumUp(buckets) == up && SumDown(buckets) == down
            && forall i :: 0 <= i < |buckets| ==> buckets[i].up >= 0 && buckets[i].down >= 0
  {
    SplitUp(start, end, up, down);
    SplitUp(start, end, down, up);
    SplitBoth(start, end, up, down);
    var x, y := Split(start, end, up, down).value, Split(start, end, down, up).value;
    forall i | 0 <= i < |x| ensures x[i].up >= 0 && x[i].down >= 0 {
      assert y[i] == Swap(x[i]);
      assert FairUp(x, i, start, end, up) && FairUp(y, i, start, end, down);
    }
  }

  // Every share but the last is the rounded-down proportion; the last exceeds its own by less than the number of slots.
  lemma SplitIsProportional(start: int, end: int, up: int, down: int, i: nat)
    requires Split(start, end, up, down).Ok? && i < |Split(start, end, up, down).value|
    ensures var buckets := Split(start, end, up, down).value;
            var part := To(buckets[i], end) - From(buckets[i], start);
            var slack := if i < |buckets| - 1 then 0 else |buckets| - 1;
            && up * part / (end - start) <= buckets[i].up <= up * part / (end - start) + slack
            && down * part / (end - start) <= buckets[i].down <= down * part / (end - start) + slack
  {
    SplitUp(start, end, up, down);
    SplitUp(start, end, down, up);
    SplitBoth(start, end, up, down);
    var x, y := Split(start, end, up, down).value, Split(start, end, down, up).value;
    assert y[i] == Swap(x[i]);
    assert FairUp(x, i, start, end, up) && FairUp(y, i, start, end, down);
  }
}
