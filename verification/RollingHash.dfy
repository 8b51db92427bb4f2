/**
 The polynomials behind both rolling hashes: Horner's rule over all bytes of a window, and what sliding the window by
 one byte does to it.
 */
module RollingHash {
  import opened Bytes
  import opened CircularIndex

  function Pow(base: int, n: nat): int {
    if n == 0 then 1 else base * Pow(base, n - 1)
  }

  /** The window as a number in the given base, first byte most significant. */
  function Poly(base: int, w: seq<Byte>): int {
    if w == [] then 0 else Poly(base, w[..|w| - 1]) * base + w[|w| - 1] as int
  }

  lemma DistributeTwo(x: int, p: int, y: int, base: int)
    ensures (x * p + y) * base == x * (base * p) + y * base
  {
    assert x * p * base == x * (base * p);
  }

  lemma {:induction false} PolyFirst(base: int, x: Byte, w: seq<Byte>)
    ensures Poly(base, [x] + w) == x as int * Pow(base, |w|) + Poly(base, w)
  {
    var all := [x] + w;
    if w == [] {
      assert all[..0] == [];
    } else {
      assert all[..|all| - 1] == [x] + w[..|w| - 1];
      PolyFirst(base, x, w[..|w| - 1]);
      DistributeTwo(x as int, Pow(base, |w| - 1), Poly(base, w[..|w| - 1]), base);
    }
  }

  /** Removing the first byte and appending one. */
  lemma PolySlides(base: int, w: seq<Byte>, y: Byte)
    requires w != []
    ensures Poly(base, w[1..] + [y]) == (Poly(base, w) - w[0] as int * Pow(base, |w| - 1)) * base + y as int
  {
    assert [w[0]] + w[1..] == w;
    PolyFirst(base, w[0], w[1..]);
    assert (w[1..] + [y])[..|w| - 1] == w[1..];
  }

  lemma Distribute(x: int, base: int, p: int, b: int)
    ensures (x * base + b) * p == x * (base * p) + p * b
  {
    assert x * base * p == x * (base * p);
  }

  /** One more byte, with the whole value still shifted up by n places. */
  lemma PolyAppends(base: int, w: seq<Byte>, b: Byte, n: nat)
    ensures Poly(base, w + [b]) * Pow(base, n) == Poly(base, w) * Pow(base, n + 1) + Pow(base, n) * b as int
  {
    assert (w + [b])[..|w|] == w;
    Distribute(Poly(base, w), base, Pow(base, n), b as int);
  }

  // ---------------------------------------------------------------- congruence

  /** x and y agree modulo m. */
  ghost predicate Congruent(x: int, y: int, m: int) {
    exists q :: x - y == q * m
  }

  lemma CongruentBy(x: int, y: int, m: int, q: int)
    requires x - y == q * m
    ensures Congruent(x, y, m)
  {
  }

  lemma CongruentSum(x: int, y: int, a: int, b: int, m: int)
    requires Congruent(x, y, m) && Congruent(a, b, m)
    ensures Congruent(x + a, y + b, m)
  {
    var p :| x - y == p * m;
    var q :| a - b == q * m;
    assert (p + q) * m == p * m + q * m;
    CongruentBy(x + a, y + b, m, p + q);
  }

  lemma CongruentTimes(x: int, y: int, k: int, m: int)
    requires Congruent(x, y, m)
    ensures Congruent(x * k, y * k, m)
  {
    var q :| x - y == q * m;
    assert x * k - y * k == (x - y) * k == q * m * k == q * k * m;
    CongruentBy(x * k, y * k, m, q * k);
  }

  lemma CongruentTrans(x: int, y: int, z: int, m: int)
    requires Congruent(x, y, m) && Congruent(y, z, m)
    ensures Congruent(x, z, m)
  {
    CongruentSum(x, y, y, z, m);
    var q :| (x + y) - (y + z) == q * m;
    CongruentBy(x, z, m, q);
  }

  lemma CongruentSelf(x: int, m: int)
    ensures Congruent(x, x, m)
  {
    CongruentBy(x, x, m, 0);
  }

  lemma Positive(a: int, b: int)
    requires a > 0 && b > 0
    ensures a * b > 0
  {
  }

  /** Reducing modulo a multiple of m keeps the value modulo m. */
  lemma CongruentMod(x: int, m: int, k: int)
    requires m > 0 && k > 0
    ensures k * m > 0 && Congruent(x % (k * m), x, m)
  {
    Positive(k, m);
    var n := k * m;
    var q := x / n;
    assert x == n * q + x % n;
    assert x % n - x == -(q * n) == (-q * k) * m by {
      assert q * n == q * (k * m) == (q * k) * m;
      assert (-q * k) * m == -((q * k) * m);
    }
    CongruentBy(x % n, x, m, -q * k);
  }

  lemma AtLeastOnceOrZero(q: int, m: int)
    requires m > 0
    ensures q > 0 ==> q * m >= m
  {
    if q > 0 {
      AtLeastOnce(q, m);
    }
  }

  lemma SmallMultiple(q: int, m: int)
    requires m > 0 && -m < q * m < m
    ensures q == 0
  {
    AtLeastOnceOrZero(q, m);
    AtLeastOnceOrZero(-q, m);
    assert (-q) * m == -(q * m);
  }

  /** Congruent values within one period are equal. */
  lemma CongruentEqual(x: int, y: int, m: int)
    requires m > 0 && Congruent(x, y, m) && 0 <= x < m
    ensures x == y % m
  {
    CongruentMod(y, m, 1);
    assert 1 * m == m;
    var p :| x - y == p * m;
    var q :| y % m - y == q * m;
    assert x - y % m == (p - q) * m;
    SmallMultiple(p - q, m);
  }
}
