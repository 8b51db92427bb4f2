/** Container names: the next one is the next permutation of the last one in lexicographic order. */
module ContainerNames {
  const FIRST_NAME := "abcdefghijklmno"

  ghost predicate LexLess(a: string, b: string) {
    exists k :: 0 <= k < |a| && k < |b| && a[..k] == b[..k] && a[k] < b[k]
  }

  lemma LexLessIsOrder(a: string, b: string, c: string)
    ensures !LexLess(a, a)
    ensures LexLess(a, b) && LexLess(b, c) ==> LexLess(a, c)
  {
    if LexLess(a, b) && LexLess(b, c) {
      var j :| 0 <= j < |a| && j < |b| && a[..j] == b[..j] && a[j] < b[j];
      var k :| 0 <= k < |b| && k < |c| && b[..k] == c[..k] && b[k] < c[k];
      var m := if j < k then j else k;
      assert a[..m] == a[..j][..m] == b[..j][..m] == b[..k][..m] == c[..m];
      assert a[m] < c[m] by {
        assert m < j ==> a[..j][m] == b[..j][m];
        assert m < k ==> b[..k][m] == c[..k][m];
      }
    }
  }

  /** The last position whose character is below its successor, or -1. */
  function LastAscent(s: string): (i: int)
    ensures -1 <= i < |s|
    ensures i >= 0 ==> i + 1 < |s| && s[i] < s[i + 1]
    ensures forall j :: i < j < |s| - 1 ==> s[j] >= s[j + 1]
  {
    if |s| < 2 then -1
    else if s[|s| - 2] < s[|s| - 1] then |s| - 2
    else
      var i := LastAscent(s[..|s| - 1]);
      assert s[..|s| - 1][|s| - 2] == s[|s| - 2];
      i
  }

  function LastAbove(s: string, i: nat): (j: nat)
    requires i + 1 < |s| && s[i] < s[i + 1]
    ensures i < j < |s| && s[i] < s[j]
  {
    if s[|s| - 1] > s[i] then |s| - 1 else LastAbove(s[..|s| - 1], i)
  }

  /** The letter at position i exchanged with the last one behind it that is larger. */
  function Swapped(s: string, i: nat): (r: string)
    requires i + 1 < |s| && s[i] < s[i + 1]
    ensures |r| == |s| && r[..i] == s[..i] && r[i] == s[LastAbove(s, i)]
  {
    s[i := s[LastAbove(s, i)]][LastAbove(s, i) := s[i]]
  }

  function Reversed(s: string): (r: string)
    ensures |r| == |s|
    ensures forall i :: 0 <= i < |s| ==> r[i] == s[|s| - 1 - i]
  {
    seq(|s|, i requires 0 <= i < |s| => s[|s| - 1 - i])
  }

  /** std::next_permutation: past the last permutation it starts over with the first. */
  function Next(s: string): (r: string)
    ensures |r| == |s|
  {
    var i := LastAscent(s);
    if i < 0 then Reversed(s) else Swapped(s, i)[..i + 1] + Reversed(Swapped(s, i)[i + 1..])
  }

  lemma {:induction false} DescendingIsOrdered(s: string, i: nat, j: nat)
    requires LastAscent(s) == -1 && i <= j < |s|
    ensures s[i] >= s[j]
  {
    if i < j {
      DescendingIsOrdered(s, i, j - 1);
    }
  }

  /** Where a descending string first differs from its reverse it is the larger of the two. */
  lemma ReverseIsSmaller(s: string, k: nat)
    requires LastAscent(s) == -1 && k < |s| && s[..k] == Reversed(s)[..k]
    ensures Reversed(s)[k] <= s[k]
  {
    hide LastAscent;
    var m := |s| - 1 - k;
    if k <= m {
      DescendingIsOrdered(s, k, m);
    } else {
      assert s[..k][m] == Reversed(s)[..k][m];
    }
  }

  /** A new name is above the last one, and so above every name used before, until the last permutation is reached. */
  lemma NextIsFresh(s: string)
    ensures LexLess(s, Next(s)) <==> LastAscent(s) >= 0
  {
    var i, r := LastAscent(s), Next(s);
    if i >= 0 {
      assert s[..i] == r[..i] && s[i] < r[i];
    } else {
      forall k | 0 <= k < |s| && s[..k] == r[..k] ensures !(s[k] < r[k]) {
        ReverseIsSmaller(s, k);
      }
    }
  }

  // ---------------------------------------------------------------- no permutation is skipped

  lemma SwapKeeps(s: string, i: nat, j: nat)
    requires i < j < |s|
    ensures multiset(s[i := s[j]][j := s[i]]) == multiset(s)
  {
  }

  lemma {:induction false} ReversedKeeps(s: string)
    ensures multiset(Reversed(s)) == multiset(s)
  {
    if s == "" {
      assert Reversed(s) == s;
    } else {
      ReversedKeeps(s[1..]);
      assert Reversed(s) == Reversed(s[1..]) + [s[0]];
      assert s == [s[0]] + s[1..];
    }
  }

  /** The next name has the letters of the last one. */
  lemma NextIsPermutation(s: string)
    ensures multiset(Next(s)) == multiset(s)
  {
    var i := LastAscent(s);
    if i < 0 {
      ReversedKeeps(s);
    } else {
      var swapped := Swapped(s, i);
      SwapKeeps(s, i, LastAbove(s, i));
      ReversedKeeps(swapped[i + 1..]);
      assert swapped == swapped[..i + 1] + swapped[i + 1..];
    }
  }

  /** What is left of two permutations of each other behind a common prefix. */
  lemma SameRest(s: string, t: string, k: nat)
    requires multiset(s) == multiset(t) && |s| == |t| && k <= |s| && s[..k] == t[..k]
    ensures multiset(s[k..]) == multiset(t[k..])
  {
    assert s == s[..k] + s[k..] && t == t[..k] + t[k..];
    assert multiset(s) == multiset(s[..k]) + multiset(s[k..]) && multiset(t) == multiset(t[..k]) + multiset(t[k..]);
    assert forall c :: multiset(s)[c] == multiset(s[..k])[c] + multiset(s[k..])[c];
    assert forall c :: multiset(t)[c] == multiset(t[..k])[c] + multiset(t[k..])[c];
  }

  lemma OccursBehind(s: string, t: string, k: nat) returns (p: nat)
    requires multiset(s) == multiset(t) && |s| == |t| && k < |s| && s[..k] == t[..k]
    ensures k <= p < |s| && s[p] == t[k]
  {
    SameRest(s, t, k);
    assert t[k] == t[k..][0] && t[k] in multiset(t[k..]);
    assert t[k] in s[k..];
    var q :| 0 <= q < |s[k..]| && s[k..][q] == t[k];
    p := k + q;
  }

  lemma DiffersAt(s: string, t: string, k: nat)
    requires k < |s| && k < |t| && s[..k] == t[..k] && s[k] < t[k]
    ensures LexLess(s, t)
  {
  }

  predicate Ascending(s: string) {
    forall i, j :: 0 <= i < j < |s| ==> s[i] <= s[j]
  }

  /** No permutation is below the one in ascending order. */
  lemma AscendingIsLeast(s: string, t: string)
    requires Ascending(s) && multiset(s) == multiset(t) && |s| == |t|
    ensures !LexLess(t, s)
  {
    if LexLess(t, s) {
      var k :| 0 <= k < |t| && k < |s| && t[..k] == s[..k] && t[k] < s[k];
      var p := OccursBehind(s, t, k);
      assert false;
    }
  }

  /** Behind the last ascent the name is descending. */
  lemma {:induction false} DescendingBehind(s: string, i: nat, j: nat)
    requires LastAscent(s) < i <= j < |s|
    ensures s[i] >= s[j]
  {
    if i < j {
      DescendingBehind(s, i, j - 1);
    }
  }

  /** The letter that moves up is the smallest one behind the ascent that is larger. */
  lemma {:induction false} LastAboveIsSmallest(s: string, i: nat, p: nat)
    requires i + 1 < |s| && s[i] < s[i + 1] && i < p < |s| && s[i] < s[p]
    requires forall a, b :: i < a < b < |s| ==> s[a] >= s[b]
    ensures s[LastAbove(s, i)] <= s[p]
    ensures forall q :: LastAbove(s, i) < q < |s| ==> s[q] <= s[i]
  {
    if s[|s| - 1] <= s[i] {
      var init := s[..|s| - 1];
      assert forall a :: 0 <= a < |init| ==> init[a] == s[a];
      LastAboveIsSmallest(init, i, p);
    }
  }

  predicate Descending(s: string) {
    forall a, b :: 0 <= a < b < |s| ==> s[a] >= s[b]
  }

  lemma ReversedAscends(s: string)
    requires Descending(s)
    ensures Ascending(Reversed(s))
  {
  }

  /** With the two letters swapped the rest is still descending. */
  lemma SwappedDescends(s: string, i: nat)
    requires i + 1 < |s| && s[i] < s[i + 1] && forall a, b :: i < a < b < |s| ==> s[a] >= s[b]
    ensures Descending(Swapped(s, i)[i + 1..])
  {
    LastAboveIsSmallest(s, i, LastAbove(s, i));
    hide LastAbove;
    var swapped := Swapped(s, i);
    assert forall a, b :: i < a < b < |s| ==> swapped[a] >= swapped[b];
  }

  lemma NextIsSwapped(s: string)
    requires LastAscent(s) >= 0
    ensures var i := LastAscent(s);
      Next(s)[..i + 1] == Swapped(s, i)[..i + 1] && Next(s)[i + 1..] == Reversed(Swapped(s, i)[i + 1..])
  {
    hide LastAscent, Swapped, Reversed;
  }

  /** Behind the place where it is above the last name, the next name is in ascending order. */
  lemma NextAscends(s: string)
    requires LastAscent(s) >= 0
    ensures var i, r := LastAscent(s), Next(s);
      && r[..i] == s[..i] && r[i] == s[LastAbove(s, i)] && Ascending(r[i + 1..])
  {
    var i, r := LastAscent(s), Next(s);
    forall a, b | i < a < b < |s| ensures s[a] >= s[b] {
      DescendingBehind(s, a, b);
    }
    NextIsSwapped(s);
    SwappedDescends(s, i);
    hide LastAscent, Next, Swapped, Reversed, LastAbove;
    ReversedAscends(Swapped(s, i)[i + 1..]);
    assert r[..i] == r[..i + 1][..i] == Swapped(s, i)[..i + 1][..i] == s[..i];
    assert r[i] == r[..i + 1][i] == Swapped(s, i)[i];
  }

  lemma SameLength(s: string, t: string)
    requires multiset(s) == multiset(t)
    ensures |s| == |t|
  {
    assert |multiset(s)| == |s| && |multiset(t)| == |t|;
  }

  /** A name in ascending order from position k on is the least permutation that begins as it does. */
  lemma LeastBehind(r: string, t: string, k: nat)
    requires multiset(r) == multiset(t) && |r| == |t| && k <= |r| && r[..k] == t[..k] && Ascending(r[k..])
    ensures !LexLess(t, r)
  {
    if LexLess(t, r) {
      var m :| 0 <= m < |t| && m < |r| && t[..m] == r[..m] && t[m] < r[m];
      assert forall x :: 0 <= x < k ==> r[x] == r[..k][x] && t[x] == t[..k][x];
      SameRest(r, t, k);
      var u, v := t[k..], r[k..];
      assert u[..m - k] == t[..m][k..] && v[..m - k] == r[..m][k..];
      assert u[m - k] < v[m - k];
      AscendingIsLeast(v, u);
    }
  }

  /** A permutation that is above s at position k is above s at the last ascent or before it. */
  lemma AboveByTheAscent(s: string, t: string, k: nat) returns (p: nat)
    requires multiset(s) == multiset(t) && |s| == |t| && k < |s| && s[..k] == t[..k] && s[k] < t[k]
    ensures k <= LastAscent(s) && k < p < |s| && s[p] == t[k]
  {
    p := OccursBehind(s, t, k);
    if LastAscent(s) < k {
      DescendingBehind(s, k, p);
    }
  }

  /** A permutation that is above s only from the last ascent on has a letter there that the next name may have. */
  lemma AtLeastNext(s: string, t: string, i: nat)
    requires multiset(s) == multiset(t) && |s| == |t| && i == LastAscent(s) && s[..i] == t[..i] && s[i] < t[i]
    ensures i + 1 < |s| && s[i] < s[i + 1] && s[LastAbove(s, i)] <= t[i]
  {
    var p := AboveByTheAscent(s, t, i);
    forall a, b | i < a < b < |s| ensures s[a] >= s[b] {
      DescendingBehind(s, a, b);
    }
    LastAboveIsSmallest(s, i, p);
  }

  lemma NotBelow(r: string, t: string, i: nat)
    requires multiset(r) == multiset(t) && |r| == |t| && i < |r| && r[..i] == t[..i] && r[i] <= t[i]
    requires Ascending(r[i + 1..])
    ensures !LexLess(t, r)
  {
    if r[i] < t[i] {
      DiffersAt(r, t, i);
      LexLessIsOrder(r, t, r);
    } else {
      assert r[..i + 1] == r[..i] + [r[i]] && t[..i + 1] == t[..i] + [t[i]];
      LeastBehind(r, t, i + 1);
    }
  }

  /** So it is at or above the next name. */
  lemma AboveAtTheAscent(s: string, t: string, i: nat)
    requires multiset(s) == multiset(t) && |s| == |t| && i == LastAscent(s) && s[..i] == t[..i] && s[i] < t[i]
    ensures !LexLess(t, Next(s))
  {
    AtLeastNext(s, t, i);
    NextAscends(s);
    NextIsPermutation(s);
    hide LastAscent, LastAbove, Next, LexLess, Ascending;
    NotBelow(Next(s), t, i);
  }

  lemma AboveBefore(s: string, r: string, t: string, k: nat, i: nat)
    requires k < i <= |s| == |r| == |t| && r[..i] == s[..i] && s[..k] == t[..k] && s[k] < t[k]
    ensures !LexLess(t, r)
  {
    assert r[..k] == r[..i][..k] && s[..k] == s[..i][..k];
    assert r[k] == r[..i][k] && s[k] == s[..i][k];
    DiffersAt(r, t, k);
    LexLessIsOrder(r, t, r);
  }

  /** A permutation above s that differs from it first at position k is at or above the next name. */
  lemma AboveIsAtLeastNext(s: string, t: string, k: nat)
    requires LastAscent(s) >= 0 && multiset(t) == multiset(s) && |s| == |t|
    requires k < |s| && s[..k] == t[..k] && s[k] < t[k]
    ensures !LexLess(t, Next(s))
  {
    var i := LastAscent(s);
    var p := AboveByTheAscent(s, t, k);
    if k < i {
      NextAscends(s);
      hide LexLess, LastAscent, Next, LastAbove, Ascending;
      AboveBefore(s, Next(s), t, k, i);
    } else {
      hide LexLess, LastAscent, Next;
      AboveAtTheAscent(s, t, i);
    }
  }

  /** No permutation lies between a name and the next one. */
  lemma NothingBetween(s: string, t: string)
    requires LastAscent(s) >= 0 && multiset(t) == multiset(s)
    ensures !(LexLess(s, t) && LexLess(t, Next(s)))
  {
    hide LastAscent, Next;
    SameLength(s, t);
    if LexLess(s, t) {
      var k :| 0 <= k < |s| && k < |t| && s[..k] == t[..k] && s[k] < t[k];
      hide LexLess;
      AboveIsAtLeastNext(s, t, k);
    }
  }

  /** After the last permutation it starts over with the least one. */
  lemma StartsWithLeast(s: string, t: string)
    requires LastAscent(s) < 0 && multiset(t) == multiset(s)
    ensures !LexLess(t, Next(s))
  {
    SameLength(s, t);
    ReversedKeeps(s);
    var r := Reversed(s);
    forall a, b | 0 <= a < b < |r| ensures r[a] <= r[b] {
      DescendingIsOrdered(s, |s| - 1 - b, |s| - 1 - a);
    }
    AscendingIsLeast(r, t);
  }

  const LAST_NAME := "onmlkjihgfedcba"

  /** After the last permutation the first name comes again. */
  lemma NamesStartOver()
    ensures LastAscent(LAST_NAME) == -1 && Next(LAST_NAME) == FIRST_NAME
  {
    assert forall i :: 0 <= i < |LAST_NAME| - 1 ==> LAST_NAME[i] > LAST_NAME[i + 1];
    assert forall i :: 0 <= i < |LAST_NAME| ==> Reversed(LAST_NAME)[i] == FIRST_NAME[i];
  }
}
