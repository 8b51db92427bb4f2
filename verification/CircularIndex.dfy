/** 64-bit index arithmetic of the lock-free queue: counters that are allowed to wrap. */
module CircularIndex {
  const WORD: int := 0x1_0000_0000_0000_0000
  const HALF: int := 0x8000_0000_0000_0000

  /** The value an `index_t` holds when the unbounded counter behind it is x. */
  function Wrap(x: int): nat {
    x % WORD
  }

  /** The comparison of two wrapped indices. */
  predicate CircularLess(a: nat, b: nat) {
    Wrap(a - b) > HALF
  }

  function Min(a: nat, b: nat): nat {
    if a < b then a else b
  }

  lemma WrapDifference(x: int, y: int)
    ensures Wrap(Wrap(x) - Wrap(y)) == Wrap(x - y)
  {
    var qx, qy := x / WORD, y / WORD;
    assert Wrap(x) - Wrap(y) == x - y - (qx - qy) * WORD;
  }

  /** Inside a window, comparing wrapped indices compares the unbounded ones, and fails from half the range on. */
  lemma CircularLessIsLess(x: int, y: int)
    requires -WORD < x - y <= HALF
    ensures CircularLess(Wrap(x), Wrap(y)) <==> 0 < y - x < HALF
  {
    WrapDifference(x, y);
  }

  /** The span test `0 < tail - (count - overcommit)` on wrapped values, inside the window. */
  lemma SpanIsDifference(d: int)
    requires -HALF < d < HALF
    ensures CircularLess(0, Wrap(d)) <==> 0 < d
    ensures 0 < d ==> Wrap(d) == d
  {
  }

  /** The single-element test and the bulk test of the same three counters agree, wrapped or not. */
  lemma SingleTestIsBulkTest(count: int, overcommit: int, tail: int)
    ensures CircularLess(Wrap(count - overcommit), Wrap(tail)) <==> CircularLess(0, Wrap(tail - (count - overcommit)))
  {
    WrapDifference(count - overcommit, tail);
    var d := tail - (count - overcommit);
    WrapDifference(0, d);
    assert Wrap(0 - Wrap(d)) == Wrap(0 - d);
  }

  lemma {:induction false} AtLeastOnce(a: nat, m: nat)
    requires a > 0
    ensures a * m >= m
  {
    assert a * m == m + (a - 1) * m;
  }

  lemma ModuloUnique(x: int, m: nat, q: int, r: nat)
    requires r < m && x == q * m + r
    ensures x % m == r
  {
    var q', r' := x / m, x % m;
    var qm, qm' := q * m, q' * m;
    assert qm + r == qm' + r' by {
      assert x == m * q' + r';
    }
    if q > q' {
      assert (q - q') * m == qm - qm';
      AtLeastOnce(q - q', m);
    } else if q < q' {
      assert (q' - q) * m == qm' - qm;
      AtLeastOnce(q' - q, m);
    }
  }
}
