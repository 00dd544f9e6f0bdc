/** Unique names for the proxies of a client configuration. */
module GeneratorNames {
  import opened Common

  // ---- Bytes ----

  // The number of bytes of a character in UTF-8.
  function Size(c: char): nat {
    var n := c as int;
    if n < 0x80 then 1 else if n < 0x800 then 2 else if n < 0x10000 then 3 else 4
  }

  function Bytes(s: string): nat {
    if s == [] then 0 else Bytes(s[..|s| - 1]) + Size(s[|s| - 1])
  }

  const LONGEST := 128
  const SHORTENED := 104

  // A name that is too long loses whole characters from its end.
  function Cut(s: string): string
    decreases |s|
  {
    if Bytes(s) <= SHORTENED then s else Cut(s[..|s| - 1])
  }

  function Shorten(s: string): string {
    if Bytes(s) > LONGEST then Cut(s) else s
  }

  // What is left is a prefix that fits, and one more character would not.
  lemma {:induction false} CutFits(s: string)
    ensures Cut(s) <= s && Bytes(Cut(s)) <= SHORTENED
    ensures |Cut(s)| < |s| ==> Bytes(s[..|Cut(s)| + 1]) > SHORTENED
    decreases |s|
  {
    if Bytes(s) > SHORTENED {
      var front := s[..|s| - 1];
      CutFits(front);
      if |Cut(front)| == |front| {
        assert s[..|s|] == s;
      } else {
        assert front[..|Cut(front)| + 1] == s[..|Cut(front)| + 1];
      }
    }
  }

  // ---- Decimal numbers ----

  function Digit(d: int): (c: char)
    requires 0 <= d < 10
  {
    ['0', '1', '2', '3', '4', '5', '6', '7', '8', '9'][d]
  }

  function Natural(n: nat): string {
    if n < 10 then [Digit(n)] else Natural(n / 10) + [Digit(n % 10)]
  }

  function Decimal(n: int): string {
    if n < 0 then ['-'] + Natural(-n) else Natural(n)
  }

  lemma {:induction false} NaturalInjective(m: nat, n: nat)
    requires Natural(m) == Natural(n)
    ensures m == n
  {
    var x, y := Natural(m), Natural(n);
    assert x[|x| - 1] == Digit(m % 10) && y[|y| - 1] == Digit(n % 10);
    assert m % 10 == n % 10;
    NaturalLength(m);
    NaturalLength(n);
    if m >= 10 {
      assert x[..|x| - 1] == Natural(m / 10) && y[..|y| - 1] == Natural(n / 10);
      NaturalInjective(m / 10, n / 10);
    }
  }

  lemma NaturalLength(n: nat)
    ensures |Natural(n)| >= 1 && (|Natural(n)| == 1 <==> n < 10)
  {
    if n >= 10 {
      NaturalLength(n / 10);
    }
  }

  // ---- Candidates ----

  function Base(name: string, node: int, inbound: int): string {
    name + "-" + Decimal(node) + "-" + Decimal(inbound)
  }

  // The names that are tried in turn.
  function Candidate(name: string, node: int, inbound: int, k: nat): string {
    if k == 0 then name
    else if k == 1 then Base(name, node, inbound)
    else Base(name, node, inbound) + ("-" + Natural(k - 1))
  }

  lemma {:induction false} OnlyDigits(n: nat, i: nat)
    requires i < |Natural(n)|
    ensures '0' <= Natural(n)[i] <= '9'
  {
    if n >= 10 && i < |Natural(n)| - 1 {
      OnlyDigits(n / 10, i);
    }
  }

  lemma NoDash(n: nat)
    ensures '-' !in Natural(n)
  {
    forall i | 0 <= i < |Natural(n)| ensures Natural(n)[i] != '-' {
      OnlyDigits(n, i);
    }
  }

  lemma SameParts(a: string, b: string, c: string, d: string)
    requires '-' !in a && '-' !in c && a + ("-" + b) == c + ("-" + d)
    ensures a == c && b == d
  {
    var x, y := a + ("-" + b), c + ("-" + d);
    assert x[|a|] == '-' && y[|c|] == '-';
    assert x[..|a|] == a && y[..|c|] == c && x[|a| + 1..] == b && y[|c| + 1..] == d;
  }

  lemma AfterName(name: string, x: string, y: string)
    ensures (name + "-" + x + "-" + y)[|name| + 1..] == x + ("-" + y)
  {
  }

  // The second candidate of a proxy tells it from every other proxy of its name.
  lemma BaseTellsApart(name: string, a: nat, b: nat, c: nat, d: nat)
    requires Base(name, a, b) == Base(name, c, d)
    ensures a == c && b == d
  {
    AfterName(name, Natural(a), Natural(b));
    AfterName(name, Natural(c), Natural(d));
    NoDash(a);
    NoDash(c);
    SameParts(Natural(a), Natural(b), Natural(c), Natural(d));
    NaturalInjective(a, c);
    NaturalInjective(b, d);
  }

  lemma SuffixesDiffer(base: string, m: nat, n: nat)
    ensures base + ("-" + Natural(m)) == base + ("-" + Natural(n)) ==> m == n
  {
    var x, y := "-" + Natural(m), "-" + Natural(n);
    if base + x == base + y {
      assert (base + x)[|base|..] == x && (base + y)[|base|..] == y;
      assert x[1..] == Natural(m) && y[1..] == Natural(n);
      NaturalInjective(m, n);
    }
  }

  // No candidate is tried twice.
  lemma CandidatesDiffer(name: string, node: int, inbound: int, j: nat, k: nat)
    requires j < k
    ensures Candidate(name, node, inbound, j) != Candidate(name, node, inbound, k)
  {
    assert |Base(name, node, inbound)| > |name|;
    if j >= 2 {
      SuffixesDiffer(Base(name, node, inbound), j - 1, k - 1);
    }
  }

  ghost function Tried(name: string, node: int, inbound: int, k: nat): (r: set<string>)
    ensures forall x :: x in r <==> exists j :: 0 <= j < k && x == Candidate(name, node, inbound, j)
  {
    set j | 0 <= j < k :: Candidate(name, node, inbound, j)
  }

  lemma NotTriedBefore(name: string, node: int, inbound: int, k: nat)
    ensures Candidate(name, node, inbound, k) !in Tried(name, node, inbound, k)
  {
    forall j | 0 <= j < k ensures Candidate(name, node, inbound, j) != Candidate(name, node, inbound, k) {
      CandidatesDiffer(name, node, inbound, j, k);
    }
  }

  lemma TriedOneMore(name: string, node: int, inbound: int, k: nat)
    ensures Tried(name, node, inbound, k + 1) == Tried(name, node, inbound, k) + {Candidate(name, node, inbound, k)}
  {
  }

  lemma {:induction false} TriedCount(name: string, node: int, inbound: int, k: nat)
    ensures |Tried(name, node, inbound, k)| == k
  {
    if k > 0 {
      TriedCount(name, node, inbound, k - 1);
      NotTriedBefore(name, node, inbound, k - 1);
      TriedOneMore(name, node, inbound, k - 1);
    }
  }

  // As many candidates can be taken as there are names in use, and no more.
  lemma TakenBounds(name: string, node: int, inbound: int, k: nat, seen: set<string>)
    requires forall j :: 0 <= j < k ==> Candidate(name, node, inbound, j) in seen
    ensures k <= |seen|
  {
    TriedCount(name, node, inbound, k);
    Smaller(Tried(name, node, inbound, k), seen);
  }

  // The first candidate that is not in use.
  method UniqueProxyName(long: string, node: int, inbound: int, seen: set<string>) returns (candidate: string, ghost k: nat)
    ensures candidate == Candidate(Shorten(long), node, inbound, k) && candidate !in seen
    ensures forall j :: 0 <= j < k ==> Candidate(Shorten(long), node, inbound, j) in seen
    ensures k <= |seen|
  {
    var name := long;
    if Bytes(name) > LONGEST {
      while Bytes(name) > SHORTENED
        invariant Cut(name) == Cut(long)
        decreases |name|
      {
        name := name[..|name| - 1];
      }
    }
    candidate := name;
    k := 0;
    var suffix := 0;
    while candidate in seen
      invariant suffix == k && candidate == Candidate(name, node, inbound, k)
      invariant forall j :: 0 <= j < k ==> Candidate(name, node, inbound, j) in seen
      invariant k <= |seen|
      decreases |seen| - k
    {
      TakenBounds(name, node, inbound, k + 1, seen);
      candidate := name + "-" + Decimal(node) + "-" + Decimal(inbound);
      if suffix > 0 {
        candidate := candidate + ("-" + Decimal(suffix));
      }
      suffix := suffix + 1;
      k := k + 1;
    }
  }
}
