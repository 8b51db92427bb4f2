/** Putting sequences together, and counting in them. */
module Sequences {
  function Concat<T>(pieces: seq<seq<T>>): seq<T> {
    if pieces == [] then [] else pieces[0] + Concat(pieces[1..])
  }

  lemma {:induction false} ConcatLast<T>(pieces: seq<seq<T>>, last: seq<T>)
    ensures Concat(pieces + [last]) == Concat(pieces) + last
  {
    if pieces == [] {
      assert Concat([last]) == last + Concat([]);
      assert [] + [last] == [last];
    } else {
      assert (pieces + [last])[1..] == pieces[1..] + [last];
      ConcatLast(pieces[1..], last);
    }
  }

  function Occurrences<T(==)>(s: seq<T>, x: T): (n: nat)
    ensures n <= |s|
  {
    if s == [] then 0 else Occurrences(s[..|s| - 1], x) + (if s[|s| - 1] == x then 1 else 0)
  }

  lemma {:induction false} OccurrencesConcat<T>(a: seq<T>, b: seq<T>, x: T)
    ensures Occurrences(a + b, x) == Occurrences(a, x) + Occurrences(b, x)
  {
    if b == [] {
      assert a + b == a;
    } else {
      assert (a + b)[..|a + b| - 1] == a + b[..|b| - 1];
      OccurrencesConcat(a, b[..|b| - 1], x);
    }
  }

  lemma OccurrencesPrefix<T>(s: seq<T>, i: nat, j: nat, x: T)
    requires i <= j <= |s|
    ensures Occurrences(s[..i], x) <= Occurrences(s[..j], x)
  {
    assert s[..j] == s[..i] + s[i..j];
    OccurrencesConcat(s[..i], s[i..j], x);
  }

  /** Distinct numbers below n are at most n. */
  lemma {:induction false} DistinctBelow(values: seq<nat>, n: nat)
    requires forall i :: 0 <= i < |values| ==> values[i] < n
    requires forall i, j :: 0 <= i < j < |values| ==> values[i] != values[j]
    ensures |values| <= n
    decreases n
  {
    if values != [] {
      assert values[0] < n;
      if k :| 0 <= k < |values| && values[k] == n - 1 {
        DistinctBelow(values[..k] + values[k + 1..], n - 1);
      } else {
        DistinctBelow(values, n - 1);
      }
    }
  }
}
