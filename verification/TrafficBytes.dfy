/** Byte counts of the two directions, and their totals over tables. */
module TrafficBytes {
  datatype Bytes = Bytes(up: int, down: int)

  const ZERO := Bytes(0, 0)

  function Plus(a: Bytes, b: Bytes): Bytes { Bytes(a.up + b.up, a.down + b.down) }

  function Minus(a: Bytes, b: Bytes): Bytes { Bytes(a.up - b.up, a.down - b.down) }

  predicate Below(a: Bytes, b: Bytes) { a.up <= b.up && a.down <= b.down }

  function Get<K>(m: map<K, Bytes>, k: K): Bytes { if k in m then m[k] else ZERO }

  ghost function Total<K(!new)>(m: map<K, Bytes>): Bytes {
    if m == map[] then ZERO else
      var k :| k in m;
      Plus(m[k], Total(m - {k}))
  }

  ghost function Only<K(!new)>(m: map<K, Bytes>, wanted: K -> bool): map<K, Bytes> {
    map k | k in m && wanted(k) :: m[k]
  }

  // The entry that a total is unfolded at.
  lemma Unfold<K(!new)>(m: map<K, Bytes>) returns (k: K, rest: map<K, Bytes>)
    requires m != map[]
    ensures k in m && rest == m - {k} && Total(m) == Plus(m[k], Total(rest))
  {
    k :| k in m && Total(m) == Plus(m[k], Total(m - {k}));
    rest := m - {k};
  }

  lemma {:induction false} TotalRemove<K(!new)>(m: map<K, Bytes>, k: K)
    requires k in m
    ensures Total(m) == Plus(m[k], Total(m - {k}))
    decreases |m|
  {
    var x, rest := Unfold(m);
    if x != k {
      assert rest - {k} == m - {k} - {x};
      TotalRemove(rest, k);
      TotalRemove(m - {k}, x);
    }
  }

  // Adding to one entry adds to the total.
  lemma TotalAdd<K(!new)>(m: map<K, Bytes>, k: K, d: Bytes)
    ensures Total(m[k := Plus(Get(m, k), d)]) == Plus(Total(m), d)
  {
    var more := m[k := Plus(Get(m, k), d)];
    TotalRemove(more, k);
    assert more - {k} == m - {k};
    if k in m {
      TotalRemove(m, k);
    } else {
      assert m - {k} == m;
    }
  }

  lemma OnlyUpdate<K(!new)>(m: map<K, Bytes>, wanted: K -> bool, k: K, v: Bytes)
    ensures Only(m[k := v], wanted) == if wanted(k) then Only(m, wanted)[k := v] else Only(m, wanted)
  {
  }

  lemma TotalOnlyAdd<K(!new)>(m: map<K, Bytes>, wanted: K -> bool, k: K, d: Bytes)
    ensures Total(Only(m[k := Plus(Get(m, k), d)], wanted)) == if wanted(k) then Plus(Total(Only(m, wanted)), d) else Total(Only(m, wanted))
  {
    OnlyUpdate(m, wanted, k, Plus(Get(m, k), d));
    if wanted(k) {
      assert Get(Only(m, wanted), k) == Get(m, k);
      TotalAdd(Only(m, wanted), k, d);
    }
  }

  lemma {:induction false} TotalNonnegative<K(!new)>(m: map<K, Bytes>)
    requires forall k :: k in m ==> Below(ZERO, m[k])
    ensures Below(ZERO, Total(m))
    decreases |m|
  {
    if m != map[] {
      var k, rest := Unfold(m);
      TotalNonnegative(rest);
    }
  }
}
