/** Types shared by every component of the model. */
module Common {
  datatype Option<+T> = None | Some(value: T)

  datatype Result<+T, +E> = Ok(value: T) | Err(error: E)

  // The bound that every 64-bit signed counter of the panel respects.
  const MAX_INT64 := 0x7FFF_FFFF_FFFF_FFFF

  ghost predicate Distinct<T(!new)>(s: seq<T>) {
    forall i, j :: 0 <= i < j < |s| ==> s[i] != s[j]
  }

  function Reverse<T>(s: seq<T>): (r: seq<T>)
    ensures |r| == |s|
    ensures forall i :: 0 <= i < |s| ==> r[i] == s[|s| - 1 - i]
  {
    if s == [] then [] else Reverse(s[1..]) + [s[0]]
  }

  // Some element of a set, for loops over the keys of a table.
  method Pick<T>(s: set<T>) returns (x: T)
    requires s != {}
    ensures x in s
  {
    x :| x in s;
  }

  lemma Smaller<T>(x: set<T>, y: set<T>)
    requires x <= y
    ensures |x| <= |y|
  {
    assert y == x + (y - x);
  }

  // Marking one more element leaves fewer to mark.
  lemma FewerLeft<T>(all: set<T>, marked: set<T>, x: T)
    requires x in all && x !in marked
    ensures |all - (marked + {x})| < |all - marked|
  {
    assert all - (marked + {x}) == (all - marked) - {x};
  }
}
