/** Small datatypes shared by every other module. */
module Common {

  datatype Option<+T> = None | Some(value: T)

  datatype Result<+T, +E> = Ok(value: T) | Err(error: E)

  /** The last element of a sequence that has one. */
  function Last<T>(s: seq<T>): T
    requires s != []
  {
    s[|s| - 1]
  }

  predicate NoRepeats<T(==)>(s: seq<T>) {
    forall i, j :: 0 <= i < j < |s| ==> s[i] != s[j]
  }

  /** The position of the first `x`, or the length of the sequence. */
  function IndexOf<T(==)>(s: seq<T>, x: T): (i: nat)
    ensures i <= |s| && (i < |s| ==> s[i] == x)
    ensures forall j :: 0 <= j < i ==> s[j] != x
  {
    if s == [] || s[0] == x then 0 else 1 + IndexOf(s[1..], x)
  }

  /** The elements of a sequence, each once, in order of appearance. */
  function Distinct<T(==, !new)>(s: seq<T>): (r: seq<T>)
    ensures forall x :: x in s <==> x in r
    ensures NoRepeats(r)
  {
    if s == [] then []
    else
      var before := Distinct(s[..|s| - 1]);
      assert s == s[..|s| - 1] + [Last(s)];
      if Last(s) in before then before else before + [Last(s)]
  }

  /** What is distinct already stays, and comes first. */
  lemma {:induction false} DistinctKeepsOrder<T(!new)>(a: seq<T>, b: seq<T>)
    requires NoRepeats(a)
    ensures a <= Distinct(a + b)
    decreases |a| + |b|
  {
    if b != [] {
      assert (a + b)[..|a + b| - 1] == a + b[..|b| - 1];
      DistinctKeepsOrder(a, b[..|b| - 1]);
    } else if a != [] {
      assert a + b == a && a[..|a| - 1] + [] == a[..|a| - 1];
      DistinctKeepsOrder(a[..|a| - 1], []);
    }
  }

  /** Distinct elements of a set are at most as many as the set has. */
  lemma {:induction false} DistinctFit<T>(s: seq<T>, all: set<T>)
    requires NoRepeats(s) && forall x :: x in s ==> x in all
    ensures |s| <= |all|
    decreases |s|
  {
    if s != [] {
      var t, x := s[..|s| - 1], Last(s);
      assert x in s && forall y :: y in t ==> y in s && y != x;
      DistinctFit(t, all - {x});
    }
  }
}
