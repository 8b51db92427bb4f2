/**
 Chunking over several reads. A read clears the pending bytes in the chunk buffer but not the rolling value, so what the
 cleared bytes contributed stays in the value, multiplied by the base with every byte that slides the window.
 */
module ChunkedReads {
  import opened Bytes
  import opened Chunker
  import opened RollingHash
  import opened Sequences

  // ---------------------------------------------------------------- the base is invertible

  /** 257 * 65281 == 2^24 + 1, so no multiple of 257 is a multiple of a power of two unless the factor is. */
  lemma UnshiftOnce(x: int, m: nat, q: nat)
    requires m * q == FP_RANGE && Congruent(BASE * x, 0, m)
    ensures Congruent(x, 0, m)
  {
    CongruentTimes(BASE * x, 0, 65281, m);
    var y := BASE * x * 65281;
    assert x - y == -(256 * (FP_RANGE * x));
    assert FP_RANGE * x == (m * q) * x == (q * x) * m;
    assert -(256 * ((q * x) * m)) == (-256 * (q * x)) * m;
    CongruentBy(x, y, m, -256 * (q * x));
    CongruentTrans(x, y, 0, m);
  }

  lemma {:induction false} ShiftKeepsMultiples(j: nat, f: int, m: nat, q: nat)
    requires m * q == FP_RANGE
    ensures Congruent(Pow(BASE, j) * f, 0, m) <==> Congruent(f, 0, m)
  {
    if j == 0 {
      assert Pow(BASE, 0) * f == f;
    } else {
      var x := Pow(BASE, j - 1) * f;
      assert Pow(BASE, j) * f == BASE * x;
      ShiftKeepsMultiples(j - 1, f, m, q);
      if Congruent(BASE * x, 0, m) {
        UnshiftOnce(x, m, q);
      }
      if Congruent(x, 0, m) {
        CongruentTimes(x, 0, BASE, m);
        assert x * BASE == BASE * x;
      }
    }
  }

  /** Two values with a common one agree exactly if the rest is a multiple. */
  lemma SameUpToMultiple(x: int, y: int, e: int, m: int)
    requires Congruent(x, y + e, m)
    ensures Congruent(x, y, m) <==> Congruent(e, 0, m)
  {
    var p :| x - (y + e) == p * m;
    if Congruent(x, y, m) {
      var q :| x - y == q * m;
      assert e - 0 == (q - p) * m;
      CongruentBy(e, 0, m, q - p);
    }
    if Congruent(e, 0, m) {
      var q :| e - 0 == q * m;
      assert x - y == (p + q) * m;
      CongruentBy(x, y, m, p + q);
    }
  }

  // ---------------------------------------------------------------- the value after a read

  lemma {:induction false} PolyOfZeros(n: nat)
    ensures Poly(BASE, Zeros(n)) == 0
  {
    if n > 0 {
      assert Zeros(n)[..n - 1] == Zeros(n - 1);
      PolyOfZeros(n - 1);
    }
  }

  /** How many of m bytes, fed behind n others, slide the window. */
  function Slid(g: Config, n: nat, m: nat): nat {
    if n + m <= g.window then 0 else if n <= g.window then n + m - g.window else m
  }

  lemma FeedGrows(g: Config, s: Progress, b: Byte)
    requires ConfigOk(g)
    ensures s.chunks <= Feed(g, s, b).chunks
    ensures var t := Feed(g, s, b);
      if t.chunks == s.chunks then t.buf == s.buf + [b] else t == Progress([], 0, s.chunks + [s.buf + [b]])
  {
    hide FillFp, SlideFp;
  }

  lemma {:induction false} ChunksGrow(g: Config, s: Progress, data: seq<Byte>)
    requires ConfigOk(g)
    ensures s.chunks <= FeedAll(g, s, data).chunks
  {
    hide Feed;
    if data != [] {
      ChunksGrow(g, s, data[..|data| - 1]);
      FeedGrows(g, FeedAll(g, s, data[..|data| - 1]), data[|data| - 1]);
    }
  }

  /** If nothing is cut by the end, nothing is cut before. */
  lemma UncutBefore(g: Config, s: Progress, data: seq<Byte>, i: nat)
    requires ConfigOk(g) && i <= |data| && FeedAll(g, s, data).chunks == s.chunks
    ensures FeedAll(g, s, data[..i]).chunks == s.chunks
  {
    FeedConcat(g, s, data[..i], data[i..]);
    assert data[..i] + data[i..] == data;
    ChunksGrow(g, s, data[..i]);
    ChunksGrow(g, FeedAll(g, s, data[..i]), data[i..]);
  }

  lemma RollingOfZeros(g: Config, n: nat, fp: nat)
    requires ConfigOk(g) && fp < FP_RANGE
    ensures Rolling(g, Zeros(n), fp, Pow(BASE, 0) * fp)
  {
    CongruentSelf(fp, FP_RANGE);
    assert Pow(BASE, 0) * fp == fp;
    if n < g.window {
      PolyOfZeros(n);
      assert 0 * Pow(BASE, g.window - n) == 0;
    } else {
      assert Zeros(n)[n - g.window..] == Zeros(g.window);
      PolyOfZeros(g.window);
    }
  }

  lemma NextPower(j: nat, f: int)
    ensures BASE * (Pow(BASE, j) * f) == Pow(BASE, j + 1) * f
  {
    assert Pow(BASE, j + 1) == BASE * Pow(BASE, j);
    assert (BASE * Pow(BASE, j)) * f == BASE * (Pow(BASE, j) * f);
  }

  /**
   Until the next cut after a read, the buffer holds zeros and the new bytes, and the value is that of its window plus
   the value carried over the read, multiplied by the base for every byte that has slid the window.
   */
  lemma {:induction false} ValueAfterRead(g: Config, s: Progress, data: seq<Byte>)
    requires ConfigOk(g) && s.fp < FP_RANGE && FeedAll(g, Clear(s), data).chunks == s.chunks
    ensures var t := FeedAll(g, Clear(s), data);
      t.buf == Zeros(|s.buf|) + data && Rolling(g, t.buf, t.fp, Pow(BASE, Slid(g, |s.buf|, |data|)) * s.fp)
  {
    hide FillFp, SlideFp, Rolling, Zeros;
    var n := |s.buf|;
    if data == [] {
      RollingOfZeros(g, n, s.fp);
      assert Zeros(n) + data == Zeros(n);
    } else {
      var init, b := data[..|data| - 1], data[|data| - 1];
      UncutBefore(g, Clear(s), data, |init|);
      ValueAfterRead(g, s, init);
      var t := FeedAll(g, Clear(s), init);
      assert t.buf + [b] == Zeros(n) + data;
      var carry := Pow(BASE, Slid(g, n, |init|)) * s.fp;
      if |t.buf| < g.window {
        FillKeepsRolling(g, t.buf, t.fp, carry, b);
      } else {
        SlideKeepsRolling(g, t.buf, t.fp, carry, b);
        NextPower(Slid(g, n, |init|), s.fp);
      }
    }
  }

  /** The carry shows in the value exactly if it is not a multiple of its range. */
  lemma CarryShows(g: Config, buf: seq<Byte>, fp: nat, carry: int)
    requires Rolling(g, buf, fp, carry)
    ensures Rolling(g, buf, fp, 0) <==> Congruent(carry, 0, FP_RANGE)
  {
    SameUpToMultiple(fp, if |buf| < g.window then Poly(BASE, buf) * Pow(BASE, g.window - |buf|)
                         else Poly(BASE, buf[|buf| - g.window..]), carry, FP_RANGE);
  }

  lemma LowIsCongruent(x: int)
    ensures Congruent(Low(x), x + 0, FP_RANGE)
  {
    CongruentMod(x, FP_RANGE, 1);
  }

  lemma SmallIsMultiple(f: nat)
    requires f < FP_RANGE
    ensures Congruent(f, 0, FP_RANGE) <==> f == 0
  {
    if Congruent(f, 0, FP_RANGE) {
      CongruentEqual(f, 0, FP_RANGE);
    }
    CongruentSelf(0, FP_RANGE);
  }

  /**
   So the value belongs to its window again exactly if it was 0 at the read: otherwise it is wrong until the next cut.
   */
  lemma WrongUntilNextCut(g: Config, s: Progress, data: seq<Byte>)
    requires ConfigOk(g) && s.fp < FP_RANGE && FeedAll(g, Clear(s), data).chunks == s.chunks
    ensures var t := FeedAll(g, Clear(s), data);
      && (Rolling(g, t.buf, t.fp, 0) <==> s.fp == 0)
      && (|t.buf| >= g.window ==>
            && t.fp == Low(Poly(BASE, t.buf[|t.buf| - g.window..]) + Pow(BASE, Slid(g, |s.buf|, |data|)) * s.fp)
            && (t.fp == Low(Poly(BASE, t.buf[|t.buf| - g.window..])) <==> s.fp == 0))
  {
    hide FeedAll, Slid;
    var t := FeedAll(g, Clear(s), data);
    var carry := Pow(BASE, Slid(g, |s.buf|, |data|)) * s.fp;
    ValueAfterRead(g, s, data);
    CarryShows(g, t.buf, t.fp, carry);
    ShiftKeepsMultiples(Slid(g, |s.buf|, |data|), s.fp, FP_RANGE, 1);
    SmallIsMultiple(s.fp);
    if |t.buf| >= g.window {
      RollingIsPolynomial(g, t.buf, t.fp, carry);
      if t.fp == Low(Poly(BASE, t.buf[|t.buf| - g.window..])) {
        LowIsCongruent(Poly(BASE, t.buf[|t.buf| - g.window..]));
      } else if s.fp == 0 {
        RollingIsPolynomial(g, t.buf, t.fp, 0);
      }
    }
  }

  // ---------------------------------------------------------------- the cuts after a read

  lemma {:induction false} PowSplit(a: nat, b: nat)
    ensures Pow(2, a + b) == Pow(2, a) * Pow(2, b)
  {
    if a > 0 {
      PowSplit(a - 1, b);
    }
  }

  lemma {:induction false} PowIsPositive(n: nat)
    ensures Pow(2, n) > 0
  {
    if n > 0 {
      PowIsPositive(n - 1);
    }
  }

  lemma CongruentBack(x: int, y: int, m: int)
    requires Congruent(x, y, m)
    ensures Congruent(y, x, m)
  {
    var p :| x - y == p * m;
    assert (-p) * m == -(p * m);
    CongruentBy(y, x, m, -p);
  }

  lemma DividesIsCongruent(y: int, m: nat)
    requires m > 0
    ensures y % m == 0 <==> Congruent(y, 0, m)
  {
    hide Congruent;
    CongruentMod(y, m, 1);
    if Congruent(y, 0, m) {
      CongruentTrans(y % m, y, 0, m);
      CongruentEqual(y % m, 0, m);
    }
    CongruentBack(y % m, y, m);
  }

  /** What the anchor test on a 16-bit value tests to divide it. */
  function AnchorModulus(range: nat, bits: nat): nat {
    if bits <= 16 then range else FP_RANGE
  }

  lemma PowOfRange()
    ensures Pow(2, 16) == FP_RANGE
  {
    PowSplit(8, 8);
    PowSplit(4, 4);
    assert Pow(2, 4) == 16;
  }

  lemma AnchorDivides(range: nat, bits: nat) returns (q: nat)
    requires range == Pow(2, bits)
    ensures AnchorModulus(range, bits) * q == FP_RANGE && q > 0
  {
    PowOfRange();
    q := 1;
    if bits <= 16 {
      PowSplit(bits, 16 - bits);
      PowIsPositive(16 - bits);
      q := Pow(2, 16 - bits);
    }
  }

  lemma LowKeepsDivisors(x: int, m: nat, q: nat)
    requires m > 0 && q > 0 && m * q == FP_RANGE
    ensures Low(x) % m == 0 <==> Congruent(x, 0, m)
  {
    hide Congruent;
    assert q * m == FP_RANGE;
    CongruentMod(x, m, q);
    CongruentBack(Low(x), x, m);
    DividesIsCongruent(Low(x), m);
    if Congruent(x, 0, m) {
      CongruentTrans(Low(x), x, 0, m);
    }
    if Congruent(Low(x), 0, m) {
      CongruentTrans(x, Low(x), 0, m);
    }
  }

  lemma LargeRange(range: nat, bits: nat, x: nat)
    requires range == Pow(2, bits) > 0 && bits > 16 && x < FP_RANGE
    ensures x % range == x
  {
    PowOfRange();
    PowSplit(16, bits - 16);
    PowIsPositive(bits - 16);
    assert FP_RANGE * Pow(2, bits - 16) >= FP_RANGE;
  }

  /** The anchor test on a 16-bit value is a test for multiples of a divisor of its range. */
  lemma AnchorIsMultiple(range: nat, bits: nat, x: int)
    requires range == Pow(2, bits) > 0
    ensures Low(x) % range == 0 <==> Congruent(x, 0, AnchorModulus(range, bits))
  {
    var q := AnchorDivides(range, bits);
    if bits <= 16 {
      LowKeepsDivisors(x, range, q);
    } else {
      LargeRange(range, bits, Low(x));
      DividesIsCongruent(x, FP_RANGE);
    }
  }

  lemma SumOfMultiples(poly: int, e: int, m: nat)
    ensures Congruent(e, 0, m) ==> (Congruent(poly + e, 0, m) <==> Congruent(poly, 0, m))
    ensures Congruent(poly + e, 0, m) && Congruent(poly, 0, m) ==> Congruent(e, 0, m)
  {
    hide Congruent;
    CongruentSelf(poly + e, m);
    SameUpToMultiple(poly + e, poly, e, m);
    if Congruent(poly, 0, m) {
      CongruentBack(poly, 0, m);
      if Congruent(poly + e, 0, m) {
        CongruentTrans(poly + e, 0, poly, m);
      }
      if Congruent(e, 0, m) {
        CongruentTrans(poly + e, poly, 0, m);
      }
    } else if Congruent(e, 0, m) && Congruent(poly + e, 0, m) {
      CongruentBack(poly + e, poly, m);
      CongruentTrans(poly, poly + e, 0, m);
    }
  }

  /**
   With the carry on top, the anchor test answers as without it if the carried value passes the test itself; if not, the
   two tests never hit together.
   */
  lemma AnchorTests(range: nat, bits: nat, poly: int, f: nat, j: nat)
    requires range == Pow(2, bits) > 0 && f < FP_RANGE
    ensures f % range == 0 ==> (Low(poly + Pow(BASE, j) * f) % range == 0 <==> Low(poly) % range == 0)
    ensures f % range != 0 ==> !(Low(poly + Pow(BASE, j) * f) % range == 0 && Low(poly) % range == 0)
  {
    hide Congruent, Pow;
    var e, m := Pow(BASE, j) * f, AnchorModulus(range, bits);
    var q := AnchorDivides(range, bits);
    AnchorIsMultiple(range, bits, poly);
    AnchorIsMultiple(range, bits, poly + e);
    AnchorIsMultiple(range, bits, f);
    assert Low(f) == f;
    ShiftKeepsMultiples(j, f, m, q);
    SumOfMultiples(poly, e, m);
  }

  /** Whether the buffer position n is before any place where the definition would cut a run of zeros. */
  predicate BeforeFirstCut(g: Config, n: nat) {
    n <= g.window || n < g.minSize
  }

  lemma CutTest(g: Config, s: Progress, data: seq<Byte>, b: Byte, bits: nat)
    requires ConfigOk(g) && g.anchorRange == Pow(2, bits)
    requires s.fp < FP_RANGE && FeedAll(g, Clear(s), data).chunks == s.chunks
    ensures var c := Zeros(|s.buf|) + data + [b];
      var cut := Feed(g, FeedAll(g, Clear(s), data), b).chunks != s.chunks;
      && (s.fp % g.anchorRange == 0 ==> (cut <==> CutHere(g, c)))
      && (s.fp % g.anchorRange != 0 && |c| < g.maxSize ==> !(cut && CutHere(g, c)))
  {
    hide FillFp, SlideFp, Rolling, FeedAll, Low, Poly, Pow;
    ValueAfterRead(g, s, data);
    var t := FeedAll(g, Clear(s), data);
    var c := t.buf + [b];
    var j := Slid(g, |s.buf|, |data|);
    if |t.buf| >= g.window {
      SlideKeepsRolling(g, t.buf, t.fp, Pow(BASE, j) * s.fp, b);
      NextPower(j, s.fp);
      RollingIsPolynomial(g, c, SlideFp(g, t.fp, t.buf[|t.buf| - g.window], b), Pow(BASE, j + 1) * s.fp);
      AnchorTests(g.anchorRange, bits, Poly(BASE, c[|c| - g.window..]), s.fp, j + 1);
    }
  }

  lemma {:induction false} FirstCut(g: Config, s: Progress, data: seq<Byte>) returns (i: nat)
    requires ConfigOk(g) && FeedAll(g, s, data).chunks != s.chunks
    ensures i < |data| && FeedAll(g, s, data[..i]).chunks == s.chunks
    ensures Feed(g, FeedAll(g, s, data[..i]), data[i]).chunks != s.chunks
  {
    var init := data[..|data| - 1];
    if FeedAll(g, s, init).chunks == s.chunks {
      i := |data| - 1;
    } else {
      i := FirstCut(g, s, init);
      assert init[..i] == data[..i];
    }
  }

  /** After a cut the rest is chunked as from the beginning. */
  lemma FromACut(g: Config, sent: seq<seq<Byte>>, data: seq<Byte>)
    requires ConfigOk(g)
    ensures var t := FeedAll(g, START, data);
      FeedAll(g, Progress([], 0, sent), data) == t.(chunks := sent + t.chunks)
  {
    ChunksPileUp(g, START, sent, data);
    assert sent + START.chunks == sent;
  }

  /** The first cut after a read, at byte number i: from there on all goes as from the beginning. */
  lemma SplitAtFirstCut(g: Config, s: Progress, data: seq<Byte>) returns (i: nat)
    requires ConfigOk(g) && s.fp < FP_RANGE && FeedAll(g, Clear(s), data).chunks != s.chunks
    ensures i < |data| && FeedAll(g, Clear(s), data[..i]).chunks == s.chunks
    ensures Feed(g, FeedAll(g, Clear(s), data[..i]), data[i]).chunks != s.chunks
    ensures var c, u := Zeros(|s.buf|) + data[..i] + [data[i]], FeedAll(g, START, data[i + 1..]);
      FeedAll(g, Clear(s), data) == u.(chunks := s.chunks + [c] + u.chunks)
  {
    hide FeedAll, Feed, Zeros;
    i := FirstCut(g, Clear(s), data);
    var before, rest := FeedAll(g, Clear(s), data[..i]), data[i + 1..];
    FeedGrows(g, before, data[i]);
    FeedNext(g, Clear(s), data, i);
    FeedConcat(g, Clear(s), data[..i + 1], rest);
    assert data[..i + 1] + rest == data;
    ValueAfterRead(g, s, data[..i]);
    FromACut(g, s.chunks + [before.buf + [data[i]]], rest);
  }

  lemma ChunkIsCut(g: Config, c: seq<Byte>)
    requires ConfigOk(g) && IsChunk(g, c)
    ensures CutHere(g, c)
  {
  }

  lemma ZerosAreCut(g: Config, m: nat)
    requires ConfigOk(g)
    ensures CutHere(g, Zeros(m)) <==> !BeforeFirstCut(g, m)
  {
    if m > g.window {
      assert Zeros(m)[m - g.window..] == Zeros(g.window);
      PolyOfZeros(g.window);
    }
  }

  /**
   If the value carried over passes the anchor test, the first cut is where the definition has it, zeros permitting.
   */
  lemma FirstCutIsDirect(g: Config, s: Progress, data: seq<Byte>, i: nat, bits: nat)
    requires ConfigOk(g) && g.anchorRange == Pow(2, bits) && s.fp < FP_RANGE && s.fp % g.anchorRange == 0
    requires i < |data| && FeedAll(g, Clear(s), data[..i]).chunks == s.chunks
    requires Feed(g, FeedAll(g, Clear(s), data[..i]), data[i]).chunks != s.chunks
    ensures IsChunk(g, Zeros(|s.buf|) + data[..i] + [data[i]]) <==> BeforeFirstCut(g, |s.buf|)
  {
    hide FeedAll, Feed, Poly, Low;
    var n := |s.buf|;
    var c := Zeros(n) + data[..i] + [data[i]];
    CutTest(g, s, data[..i], data[i], bits);
    forall m | 0 <= m < |c| ensures CutHere(g, c[..m]) ==> m <= n {
      if m > n {
        var k := m - n - 1;
        assert c[..m] == Zeros(n) + data[..k] + [data[k]];
        UncutBefore(g, Clear(s), data[..i], k + 1);
        UncutBefore(g, Clear(s), data[..i], k);
        assert data[..i][..k + 1] == data[..k + 1] && data[..i][..k] == data[..k];
        FeedNext(g, Clear(s), data, k);
        CutTest(g, s, data[..k], data[k], bits);
      }
    }
    forall m | 0 <= m <= n ensures c[..m] == Zeros(m) && (CutHere(g, c[..m]) <==> !BeforeFirstCut(g, m)) {
      assert c[..m] == Zeros(m);
      ZerosAreCut(g, m);
    }
    var d := c[..|c| - 1];
    forall m | 0 <= m <= |d| ensures d[..m] == c[..m] {
    }
    if BeforeFirstCut(g, n) {
      forall m | 0 <= m <= |d| ensures !CutHere(g, d[..m]) {
        assert m <= n ==> BeforeFirstCut(g, m);
      }
    } else {
      assert CutHere(g, d[..n]);
    }
  }

  /** The chunks after a read: the first one may be off, the others are those of the definition. */
  lemma CutsAfterRead(g: Config, s: Progress, data: seq<Byte>, bits: nat)
    requires ConfigOk(g) && g.anchorRange == Pow(2, bits) && s.fp < FP_RANGE
    requires FeedAll(g, Clear(s), data).chunks != s.chunks
    ensures var t := FeedAll(g, Clear(s), data);
      && |t.chunks| > |s.chunks| && t.chunks[..|s.chunks|] == s.chunks
      && Direct(g, t.(chunks := t.chunks[|s.chunks| + 1..]))
      && (s.fp % g.anchorRange == 0 ==> (IsChunk(g, t.chunks[|s.chunks|]) <==> BeforeFirstCut(g, |s.buf|)))
      && (s.fp % g.anchorRange != 0 && |t.chunks[|s.chunks|]| < g.maxSize ==> !IsChunk(g, t.chunks[|s.chunks|]))
  {
    hide FeedAll, Feed, Direct, BeforeFirstCut, IsChunk, Zeros, CutHere;
    var i := SplitAtFirstCut(g, s, data);
    FeedAllIsDirect(g, data[i + 1..]);
    var t, u := FeedAll(g, Clear(s), data), FeedAll(g, START, data[i + 1..]);
    var c := Zeros(|s.buf|) + data[..i] + [data[i]];
    assert t.chunks[|s.chunks| + 1..] == u.chunks && t.chunks[|s.chunks|] == c && t.chunks[..|s.chunks|] == s.chunks;
    if s.fp % g.anchorRange == 0 {
      FirstCutIsDirect(g, s, data, i, bits);
    } else if IsChunk(g, c) {
      CutTest(g, s, data[..i], data[i], bits);
      ChunkIsCut(g, c);
    }
  }

  // ---------------------------------------------------------------- any number of reads

  /** The state when read number k begins. */
  function Before(g: Config, blocks: seq<seq<Byte>>, k: nat): Progress
    requires ConfigOk(g) && k <= |blocks|
  {
    ReadAll(g, START, blocks[..k])
  }

  lemma {:induction false} FeedAllFits(g: Config, s: Progress, data: seq<Byte>)
    requires ConfigOk(g) && s.fp < FP_RANGE && (s.buf == [] ==> s.fp == 0)
    ensures var t := FeedAll(g, s, data); t.fp < FP_RANGE && (t.buf == [] ==> t.fp == 0)
  {
    hide FillFp, SlideFp;
    if data != [] {
      FeedAllFits(g, s, data[..|data| - 1]);
    }
  }

  lemma {:induction false} ReadAllFits(g: Config, blocks: seq<seq<Byte>>)
    requires ConfigOk(g)
    ensures var t := ReadAll(g, START, blocks); t.fp < FP_RANGE && (t.buf == [] ==> t.fp == 0)
  {
    if blocks != [] {
      var init := blocks[..|blocks| - 1];
      ReadAllFits(g, init);
      FeedAllFits(g, Clear(ReadAll(g, START, init)), blocks[|blocks| - 1]);
    }
  }

  /** The value carried over the last read, if the current chunk was begun before it. */
  function CarriedOver(g: Config, blocks: seq<seq<Byte>>): nat
    requires ConfigOk(g) && blocks != []
  {
    var s := Before(g, blocks, |blocks| - 1);
    if ReadAll(g, START, blocks).chunks == s.chunks then s.fp else 0
  }

  /**
   Over any reads: the value is that of its window plus what was carried over the last read, and it is that of its
   window alone exactly if nothing was.
   */
  lemma ValueAfterReads(g: Config, blocks: seq<seq<Byte>>)
    requires ConfigOk(g) && blocks != []
    ensures var s, t := Before(g, blocks, |blocks| - 1), ReadAll(g, START, blocks);
      && Rolling(g, t.buf, t.fp, Pow(BASE, Slid(g, |s.buf|, |blocks[|blocks| - 1]|)) * CarriedOver(g, blocks))
      && (Rolling(g, t.buf, t.fp, 0) <==> CarriedOver(g, blocks) == 0)
  {
    hide FeedAll, Rolling, Slid;
    var n := |blocks| - 1;
    var s, last := Before(g, blocks, n), blocks[n];
    var t := FeedAll(g, Clear(s), last);
    ReadAllFits(g, blocks[..n]);
    if t.chunks == s.chunks {
      ValueAfterRead(g, s, last);
      WrongUntilNextCut(g, s, last);
    } else {
      var i := SplitAtFirstCut(g, s, last);
      FeedAllIsDirect(g, last[i + 1..]);
      assert Pow(BASE, Slid(g, |s.buf|, |last|)) * 0 == 0;
    }
  }

  ghost predicate AllChunks(g: Config, chunks: seq<seq<Byte>>)
    requires ConfigOk(g)
  {
    forall i :: 0 <= i < |chunks| ==> IsChunk(g, chunks[i])
  }

  /**
   A read in this state does not move the next cut: the value carried over passes the anchor test, and few zeros wait.
   */
  predicate Harmless(g: Config, s: Progress)
    requires ConfigOk(g)
  {
    s.fp % g.anchorRange == 0 && BeforeFirstCut(g, |s.buf|)
  }

  predicate Cuts(g: Config, blocks: seq<seq<Byte>>, k: nat)
    requires ConfigOk(g) && k < |blocks|
  {
    Before(g, blocks, k + 1).chunks != Before(g, blocks, k).chunks
  }

  /** The one case left open: the carried value fails the test, and the chunk is cut for its size. */
  predicate CutForSize(g: Config, blocks: seq<seq<Byte>>, k: nat)
    requires ConfigOk(g) && k < |blocks|
  {
    var s, t := Before(g, blocks, k), Before(g, blocks, k + 1);
    s.fp % g.anchorRange != 0 && |t.chunks| > |s.chunks| && |t.chunks[|s.chunks|]| >= g.maxSize
  }

  /**
   One read: its chunks are those of the definition if it is harmless or cuts nothing, and, sizes aside, only then.
   */
  lemma ReadCutsDirectly(g: Config, s: Progress, data: seq<Byte>, bits: nat)
    requires ConfigOk(g) && g.anchorRange == Pow(2, bits) && s.fp < FP_RANGE
    ensures var t := FeedAll(g, Clear(s), data);
      && (t.chunks == s.chunks || Harmless(g, s) ==> (AllChunks(g, t.chunks) <==> AllChunks(g, s.chunks)))
      && (AllChunks(g, t.chunks) ==> AllChunks(g, s.chunks))
      && (AllChunks(g, t.chunks) && t.chunks != s.chunks && !Harmless(g, s) ==>
            s.fp % g.anchorRange != 0 && |t.chunks| > |s.chunks| && |t.chunks[|s.chunks|]| >= g.maxSize)
  {
    hide FeedAll, IsChunk, BeforeFirstCut, Rolling, Open;
    var t, n := FeedAll(g, Clear(s), data), |s.chunks|;
    if t.chunks != s.chunks {
      CutsAfterRead(g, s, data, bits);
      var later := t.(chunks := t.chunks[n + 1..]);
      assert forall i :: 0 <= i < n ==> t.chunks[i] == t.chunks[..n][i];
      assert forall i :: n < i < |t.chunks| ==> t.chunks[i] == later.chunks[i - n - 1];
    }
  }

  lemma EarlierRead(g: Config, blocks: seq<seq<Byte>>, n: nat, k: nat)
    requires ConfigOk(g) && k < n <= |blocks|
    ensures Before(g, blocks[..n], k) == Before(g, blocks, k)
    ensures Cuts(g, blocks[..n], k) == Cuts(g, blocks, k) && CutForSize(g, blocks[..n], k) == CutForSize(g, blocks, k)
  {
    hide ReadAll;
    assert blocks[..n][..k] == blocks[..k] && blocks[..n][..k + 1] == blocks[..k + 1];
  }

  lemma LastRead(g: Config, blocks: seq<seq<Byte>>, bits: nat)
    requires ConfigOk(g) && g.anchorRange == Pow(2, bits) && blocks != []
    ensures var n := |blocks| - 1;
      var s, t := ReadAll(g, START, blocks[..n]), ReadAll(g, START, blocks);
      && Before(g, blocks, n) == s && (Cuts(g, blocks, n) <==> t.chunks != s.chunks)
      && (!Cuts(g, blocks, n) || Harmless(g, s) ==> (AllChunks(g, t.chunks) <==> AllChunks(g, s.chunks)))
      && (AllChunks(g, t.chunks) ==> AllChunks(g, s.chunks))
      && (AllChunks(g, t.chunks) && Cuts(g, blocks, n) && !Harmless(g, s) ==> CutForSize(g, blocks, n))
  {
    hide FeedAll, AllChunks, Harmless;
    var n := |blocks| - 1;
    assert blocks[..n + 1] == blocks;
    ReadAllFits(g, blocks[..n]);
    ReadCutsDirectly(g, Before(g, blocks, n), blocks[n], bits);
  }

  lemma NoChunks(g: Config)
    requires ConfigOk(g)
    ensures ReadAll(g, START, []).chunks == [] && AllChunks(g, [])
  {
  }

  /**
   Over any reads all chunks are those of the definition if every read that cuts is harmless, and, sizes aside, only
   then.
   */
  lemma {:induction false} ReadsCutDirectly(g: Config, blocks: seq<seq<Byte>>, bits: nat)
    requires ConfigOk(g) && g.anchorRange == Pow(2, bits)
    ensures (forall k :: 0 <= k < |blocks| && Cuts(g, blocks, k) ==> Harmless(g, Before(g, blocks, k)))
      ==> AllChunks(g, ReadAll(g, START, blocks).chunks)
    ensures AllChunks(g, ReadAll(g, START, blocks).chunks)
      ==> forall k :: 0 <= k < |blocks| && Cuts(g, blocks, k) ==>
            Harmless(g, Before(g, blocks, k)) || CutForSize(g, blocks, k)
  {
    hide FeedAll, AllChunks, Harmless, Cuts, CutForSize, Before, ReadAll;
    if blocks == [] {
      assert AllChunks(g, ReadAll(g, START, blocks).chunks) by { NoChunks(g); }
    } else {
      var n := |blocks| - 1;
      var init := blocks[..n];
      ReadsCutDirectly(g, init, bits);
      forall k | 0 <= k < n
        ensures Before(g, init, k) == Before(g, blocks, k)
        ensures Cuts(g, init, k) == Cuts(g, blocks, k) && CutForSize(g, init, k) == CutForSize(g, blocks, k)
      {
        EarlierRead(g, blocks, n, k);
      }
      LastRead(g, blocks, bits);
    }
  }

  lemma FedNext(g: Config, s: Progress, data: seq<Byte>, b: Byte)
    requires ConfigOk(g)
    ensures FeedAll(g, s, data + [b]) == Feed(g, FeedAll(g, s, data), b) && FeedAll(g, s, []) == s
  {
    assert (data + [b])[..|data|] == data;
  }

  lemma ReadNext(g: Config, blocks: seq<seq<Byte>>, read: seq<Byte>)
    requires ConfigOk(g)
    ensures ReadAll(g, START, blocks + [read]) == FeedAll(g, Clear(ReadAll(g, START, blocks)), read)
    ensures Clear(ReadAll(g, START, [])) == START
  {
    assert (blocks + [read])[..|blocks|] == blocks;
  }

  // ---------------------------------------------------------------- the chunks and the file's own bytes

  /** At every read the bytes of the file from the last cut on are zero, so that clearing them changes nothing. */
  ghost predicate NothingLost(g: Config, blocks: seq<seq<Byte>>)
    requires ConfigOk(g)
  {
    forall k :: 0 <= k < |blocks| ==> Unsent(g, blocks, k) == Zeros(|Unsent(g, blocks, k)|)
  }

  lemma SameUnsent(g: Config, blocks: seq<seq<Byte>>, n: nat, k: nat)
    requires ConfigOk(g) && k <= n <= |blocks|
    ensures Unsent(g, blocks[..n], k) == Unsent(g, blocks, k)
  {
    assert blocks[..n][..k] == blocks[..k];
  }

  lemma PrefixLosesNothing(g: Config, blocks: seq<seq<Byte>>, n: nat)
    requires ConfigOk(g) && NothingLost(g, blocks) && n <= |blocks|
    ensures NothingLost(g, blocks[..n])
  {
    hide Unsent;
    forall k | 0 <= k < n ensures Unsent(g, blocks[..n], k) == Unsent(g, blocks, k) {
      SameUnsent(g, blocks, n, k);
    }
  }

  /** So clearing changes nothing. */
  lemma NothingPending(g: Config, blocks: seq<seq<Byte>>, n: nat)
    requires ConfigOk(g) && NothingLost(g, blocks) && n < |blocks|
    ensures Clear(ReadAll(g, START, blocks[..n])) == ReadAll(g, START, blocks[..n])
  {
    hide FeedAll, ReadAll;
    PrefixLosesNothing(g, blocks, n);
    ContentIsFile(g, blocks[..n]);
    var s := ReadAll(g, START, blocks[..n]);
    assert Content(s) == Concat(blocks[..n]);
    assert s.buf == Unsent(g, blocks, n);
  }

  /** If nothing is lost, the reads do not matter at all. */
  lemma {:induction false} ReadsDoNotMatter(g: Config, blocks: seq<seq<Byte>>)
    requires ConfigOk(g) && NothingLost(g, blocks)
    ensures ReadAll(g, START, blocks) == FeedAll(g, START, Concat(blocks))
  {
    hide FeedAll, NothingLost;
    if blocks != [] {
      var n := |blocks| - 1;
      var init, last := blocks[..n], blocks[n];
      PrefixLosesNothing(g, blocks, n);
      ReadsDoNotMatter(g, init);
      NothingPending(g, blocks, n);
      FeedConcat(g, START, Concat(init), last);
      ConcatLast(init, last);
      assert init + [last] == blocks;
    } else {
      assert Concat<Byte>([]) == [] && FeedAll(g, START, []) == START by { FedNext(g, START, [], 0); }
    }
  }

  lemma ContentOfFinish(s: Progress)
    ensures Concat(Finish(s)) == Content(s)
  {
    ConcatLast(s.chunks, s.buf);
    assert s.buf == [] ==> Concat(s.chunks) + s.buf == Concat(s.chunks);
  }

  lemma ContentOfFeed(g: Config, file: seq<Byte>)
    requires ConfigOk(g)
    ensures Content(FeedAll(g, START, file)) == file
  {
    hide FeedAll;
    FeedAllKeepsContent(g, START, file);
    assert Content(START) + file == file by { NothingRead(g); }
  }

  /** The chunks are those that one read of the whole file would give, exactly if no read loses anything. */
  lemma ChunksOfOneRead(g: Config, blocks: seq<seq<Byte>>)
    requires ConfigOk(g)
    ensures Finish(ReadAll(g, START, blocks)) == Finish(FeedAll(g, START, Concat(blocks))) <==> NothingLost(g, blocks)
  {
    hide FeedAll, ReadAll, Finish, Content;
    if NothingLost(g, blocks) {
      ReadsDoNotMatter(g, blocks);
    }
    ContentIsFile(g, blocks);
    ContentOfFinish(ReadAll(g, START, blocks));
    ContentOfFinish(FeedAll(g, START, Concat(blocks)));
    ContentOfFeed(g, Concat(blocks));
  }

  /**
   If one of two ways to read a file loses nothing, both give the same chunks exactly if the other loses nothing too.
   */
  lemma TwoWaysToRead(g: Config, p: seq<seq<Byte>>, q: seq<seq<Byte>>)
    requires ConfigOk(g) && Concat(p) == Concat(q) && NothingLost(g, p)
    ensures Finish(ReadAll(g, START, p)) == Finish(ReadAll(g, START, q)) <==> NothingLost(g, q)
  {
    hide FeedAll, ReadAll, Finish, NothingLost;
    ChunksOfOneRead(g, p);
    ChunksOfOneRead(g, q);
  }

  /**
   The chunks make up the file, end where the non-rolling definition cuts the file's own bytes, and leave no place to
   cut behind the last cut, exactly if no read loses anything.
   */
  lemma CutsOfTheFile(g: Config, blocks: seq<seq<Byte>>)
    requires ConfigOk(g)
    ensures var s := ReadAll(g, START, blocks);
      Content(s) == Concat(blocks) && AllChunks(g, s.chunks) && Open(g, s.buf) <==> NothingLost(g, blocks)
  {
    hide FeedAll, ReadAll, Content, Open, IsChunk, Rolling;
    ContentIsFile(g, blocks);
    if NothingLost(g, blocks) {
      ReadsDoNotMatter(g, blocks);
      FeedAllIsDirect(g, Concat(blocks));
    }
  }

  /** What one boundary between two reads does: none, exactly if the bytes pending there are zero. */
  lemma OneBoundary(g: Config, a: seq<seq<Byte>>, x: seq<Byte>, y: seq<Byte>)
    requires ConfigOk(g)
    ensures Finish(ReadAll(g, START, a + [x] + [y])) == Finish(ReadAll(g, START, a + [x + y]))
      <==> var pending := ReadAll(g, START, a + [x]).buf; pending == Zeros(|pending|)
  {
    hide FeedAll, Feed, ReadAll, Finish;
    var s, t := ReadAll(g, START, a), ReadAll(g, START, a + [x]);
    ReadNext(g, a, x);
    ReadNext(g, a + [x], y);
    ReadNext(g, a, x + y);
    FeedConcat(g, Clear(s), x, y);
    FeedAllKeepsContent(g, Clear(t), y);
    FeedAllKeepsContent(g, t, y);
    ContentOfFinish(FeedAll(g, Clear(t), y));
    ContentOfFinish(FeedAll(g, t, y));
    if Finish(FeedAll(g, Clear(t), y)) == Finish(FeedAll(g, t, y)) {
      var n := |Concat(t.chunks)|;
      var kept, cleared := Content(t) + y, Content(Clear(t)) + y;
      assert kept[n..n + |t.buf|] == t.buf && cleared[n..n + |t.buf|] == Zeros(|t.buf|);
    }
  }

  lemma {:induction false} ReadAllConcat(g: Config, s: Progress, a: seq<seq<Byte>>, b: seq<seq<Byte>>)
    requires ConfigOk(g)
    ensures ReadAll(g, s, a + b) == ReadAll(g, ReadAll(g, s, a), b)
  {
    hide FeedAll;
    if b == [] {
      assert a + b == a;
    } else {
      assert (a + b)[..|a + b| - 1] == a + b[..|b| - 1];
      ReadAllConcat(g, s, a, b[..|b| - 1]);
    }
  }

  /**
   Such a boundary can be left out anywhere, so only the boundaries that lose something decide what the chunks are.
   */
  lemma HarmlessBoundary(g: Config, a: seq<seq<Byte>>, x: seq<Byte>, y: seq<Byte>, rest: seq<seq<Byte>>)
    requires ConfigOk(g)
    requires ReadAll(g, START, a + [x]).buf == Zeros(|ReadAll(g, START, a + [x]).buf|)
    ensures ReadAll(g, START, a + [x] + [y] + rest) == ReadAll(g, START, a + [x + y] + rest)
  {
    hide FeedAll, ReadAll;
    ReadNext(g, a, x);
    ReadNext(g, a + [x], y);
    ReadNext(g, a, x + y);
    FeedConcat(g, Clear(ReadAll(g, START, a)), x, y);
    ReadAllConcat(g, START, a + [x] + [y], rest);
    ReadAllConcat(g, START, a + [x + y], rest);
  }

  // ---------------------------------------------------------------- two files with a common suffix

  /** The state within a read: `part` of it has been fed. */
  function Within(g: Config, blocks: seq<seq<Byte>>, part: seq<Byte>): Progress
    requires ConfigOk(g)
  {
    FeedAll(g, Clear(ReadAll(g, START, blocks)), part)
  }

  lemma {:induction false} ReadsPileUp(g: Config, s: Progress, sent: seq<seq<Byte>>, blocks: seq<seq<Byte>>)
    requires ConfigOk(g)
    ensures var t := ReadAll(g, s, blocks);
      ReadAll(g, s.(chunks := sent + s.chunks), blocks) == t.(chunks := sent + t.chunks)
  {
    hide FeedAll;
    if blocks != [] {
      var init := blocks[..|blocks| - 1];
      ReadsPileUp(g, s, sent, init);
      ChunksPileUp(g, Clear(ReadAll(g, s, init)), sent, blocks[|blocks| - 1]);
    }
  }

  /** A file that is cut within a read goes on as a file that begins there, as long as it is read in the same pieces. */
  lemma SuffixStartsOver(g: Config, blocks: seq<seq<Byte>>, part: seq<Byte>, tail: seq<Byte>, rest: seq<seq<Byte>>)
    requires ConfigOk(g) && Within(g, blocks, part).buf == []
    ensures Finish(ReadAll(g, START, blocks + [part + tail] + rest))
      == Within(g, blocks, part).chunks + Finish(ReadAll(g, FeedAll(g, START, tail), rest))
  {
    hide FeedAll;
    var s, sent := ReadAll(g, START, blocks), Within(g, blocks, part).chunks;
    ReadAllConcat(g, START, blocks + [part + tail], rest);
    assert (blocks + [part + tail])[..|blocks|] == blocks;
    FeedConcat(g, Clear(s), part, tail);
    ReadAllFits(g, blocks);
    FeedAllFits(g, Clear(s), part);
    FromACut(g, sent, tail);
    var u := FeedAll(g, START, tail);
    ReadsPileUp(g, u, sent, rest);
    var t := ReadAll(g, u, rest);
    assert sent + t.chunks + [t.buf] == sent + (t.chunks + [t.buf]);
  }

  lemma SuffixAsFile(g: Config, blocks: seq<seq<Byte>>, part: seq<Byte>, tail: seq<Byte>, rest: seq<seq<Byte>>)
    requires ConfigOk(g) && Within(g, blocks, part).buf == []
    ensures Finish(ReadAll(g, START, blocks + [part + tail] + rest))
      == Within(g, blocks, part).chunks + Finish(ReadAll(g, START, [tail] + rest))
  {
    hide FeedAll, ReadAll;
    SuffixStartsOver(g, blocks, part, tail, rest);
    ReadAllFirst(g, START, tail, rest);
    assert Clear(START) == START;
  }

  /**
   Two files that are both cut where a common suffix begins go on as files of their own would. Read in the same pieces
   the suffix is chunked alike; read in other pieces, if one file loses nothing of it, exactly if the other loses
   nothing either.
   */
  lemma CommonSuffixIsChunkedAlike(g: Config, a: seq<seq<Byte>>, partA: seq<Byte>, tailA: seq<Byte>,
                                   restA: seq<seq<Byte>>, b: seq<seq<Byte>>, partB: seq<Byte>, tailB: seq<Byte>,
                                     restB: seq<seq<Byte>>)
    requires ConfigOk(g) && Within(g, a, partA).buf == [] && Within(g, b, partB).buf == []
    requires tailA + Concat(restA) == tailB + Concat(restB)
    ensures var sA, sB := Finish(ReadAll(g, START, [tailA] + restA)), Finish(ReadAll(g, START, [tailB] + restB));
      && Finish(ReadAll(g, START, a + [partA + tailA] + restA)) == Within(g, a, partA).chunks + sA
      && Finish(ReadAll(g, START, b + [partB + tailB] + restB)) == Within(g, b, partB).chunks + sB
      && (tailA == tailB && restA == restB ==> sA == sB)
      && (NothingLost(g, [tailA] + restA) ==> (sA == sB <==> NothingLost(g, [tailB] + restB)))
  {
    hide FeedAll, ReadAll, Finish, NothingLost;
    SuffixAsFile(g, a, partA, tailA, restA);
    SuffixAsFile(g, b, partB, tailB, restB);
    assert ([tailA] + restA)[1..] == restA && ([tailB] + restB)[1..] == restB;
    if NothingLost(g, [tailA] + restA) {
      TwoWaysToRead(g, [tailA] + restA, [tailB] + restB);
    }
  }

  // ---------------------------------------------------------------- what goes wrong

  lemma CarriedBytesAreFed(g: Config)
    requires g == Config(2, 3, 100, 8192)
    ensures ConfigOk(g) && Feed(g, START, 1) == Progress([1], 257, [])
    ensures Feed(g, Progress([1], 257, []), 0) == Progress([1, 0], 257, [])
    ensures Feed(g, Progress([0, 0], 257, []), 5) == Progress([0, 0, 5], 518, [])
  {
    assert PowerEntry(0) == 1 && PowerEntry(1) == 257 && RemoveEntry(2, 0) == 0;
    assert FillFp(g, 0, 0, 1) == 257 && FillFp(g, 257, 1, 0) == 257 && SlideFp(g, 257, 0, 5) == 518;
    assert [] + [1] == [1] && [1] + [0] == [1, 0] && [0, 0] + [5] == [0, 0, 5];
  }

  lemma PolyOfLast(b: Byte)
    ensures Poly(BASE, [0, b]) == b as int
  {
    assert [0, b][..1] == [0] && [0][..0] == [];
  }

  /**
   A window of two bytes: after the second read its polynomial is 5, in the buffer and in the file, and the value is
   518.
   */
  lemma CarriedValueIsWrong()
    ensures var g := Config(2, 3, 100, 8192);
      var t := ReadAll(g, START, [[1, 0], [5]]);
      ConfigOk(g) && t.buf == [0, 0, 5] && t.fp == 518
        && Low(Poly(BASE, t.buf[1..])) == Low(Poly(BASE, [1, 0, 5][1..])) == 5
  {
    hide FeedAll, ReadAll, Feed, Poly;
    var g := Config(2, 3, 100, 8192);
    var first: seq<Byte>, second: seq<Byte> := [1, 0], [5];
    ReadNext(g, [], first);
    ReadNext(g, [first], second);
    assert [] + [first] == [first] && [first] + [second] == [first, second];
    FedNext(g, START, [], 1);
    FedNext(g, START, [1], 0);
    assert [] + [1] == [1] && [1] + [0] == first;
    CarriedBytesAreFed(g);
    var s := Progress(first, 257, []);
    FedNext(g, Clear(s), [], 5);
    assert [] + [5] == second && Zeros(2) == [0, 0];
    PolyOfLast(5);
    assert [0, 0, 5][1..] == [0, 5] && [1, 0, 5][1..] == [0, 5];
  }

  lemma {:induction false} FeedZeros(g: Config, n: nat)
    requires ConfigOk(g)
    ensures var t := FeedAll(g, START, Zeros(n));
      t.buf == Zeros(|t.buf|) && t.fp == 0 && BeforeFirstCut(g, |t.buf|)
  {
    if n > 0 {
      assert Zeros(n)[..n - 1] == Zeros(n - 1);
      FeedZeros(g, n - 1);
      var t := FeedAll(g, START, Zeros(n - 1));
      assert Zeros(|t.buf|) + [0] == Zeros(|t.buf| + 1);
      assert RemoveEntry(g.window, 0) == 0;
    }
  }

  lemma FullRead(file: seq<Byte>)
    requires file != []
    ensures Reads(file, |file|) == [file] + [[]]
  {
    assert file[..|file|] == file && file[|file|..] == [];
  }

  /** Zeros and then a one: the one is pending. */
  lemma OneIsPending(g: Config, n: nat)
    requires ConfigOk(g) && g.anchorRange >= 2 && g.window + 1 < g.maxSize
    ensures var p, t := FeedAll(g, START, Zeros(n)), FeedAll(g, START, Zeros(n) + [1]);
      t.buf == p.buf + [1] && t.chunks == p.chunks && p.buf == Zeros(|p.buf|)
  {
    hide FeedAll, Zeros;
    FeedZeros(g, n);
    FedNext(g, START, Zeros(n), 1);
    assert RemoveEntry(g.window, 0) == 0;
  }

  /** Whatever the read size, a file of one full read loses its last byte if that is the only one that is not zero. */
  lemma EveryReadSizeLosesBytes(g: Config, readSize: nat)
    requires ConfigOk(g) && g.anchorRange >= 2 && g.window + 1 < g.maxSize && readSize > 0
    ensures var file := Zeros(readSize - 1) + [1];
      Content(ReadAll(g, START, Reads(file, readSize))) == Zeros(readSize) != file
  {
    hide FeedAll, ReadAll, Zeros, Feed, Concat, Reads;
    var zeros := Zeros(readSize - 1);
    var file := zeros + [1];
    FullRead(file);
    ReadNext(g, [], file);
    ReadNext(g, [file], []);
    assert [] + [file] == [file];
    OneIsPending(g, readSize - 1);
    var p, t := FeedAll(g, START, zeros), FeedAll(g, START, file);
    FedNext(g, Clear(t), [], 0);
    FeedAllKeepsContent(g, START, zeros);
    assert Content(START) == [] by { NothingRead(g); }
    assert [] + zeros == zeros;
    assert Zeros(|p.buf| + 1) == p.buf + [0];
    assert Concat(p.chunks) + (p.buf + [0]) == zeros + [0] == Zeros(readSize);
    assert file[readSize - 1] != Zeros(readSize)[readSize - 1];
  }

  /** One byte in a window of one: three ones are a chunk of full size; a one behind a cleared one is cut. */
  lemma OnesAreFed(g: Config, sent: seq<seq<Byte>>)
    requires g == Config(1, 1, 3, 2)
    ensures ConfigOk(g) && Feed(g, Progress([], 0, sent), 1) == Progress([1], 1, sent)
    ensures Feed(g, Progress([1], 1, sent), 1) == Progress([1, 1], 1, sent)
    ensures Feed(g, Progress([1, 1], 1, sent), 1) == Progress([], 0, sent + [[1, 1, 1]])
    ensures Feed(g, Progress([0], 1, sent), 1) == Progress([], 0, sent + [[0, 1]])
  {
    assert PowerEntry(0) == 1 && RemoveEntry(1, 0) == 0 && RemoveEntry(1, 1) == MASK_RANGE - 1;
    assert SlideFp(g, 1, 1, 1) == 1 && SlideFp(g, 1, 0, 1) == 258;
    assert [] + [1] == [1] && [1] + [1] == [1, 1] && [1, 1] + [1] == [1, 1, 1] && [0] + [1] == [0, 1];
  }

  lemma ThreeOnesAreAChunk(g: Config, sent: seq<seq<Byte>>)
    requires g == Config(1, 1, 3, 2)
    ensures ConfigOk(g) && FeedAll(g, Progress([], 0, sent), [1, 1, 1]) == Progress([], 0, sent + [[1, 1, 1]])
  {
    hide Feed, FeedAll;
    var s := Progress([], 0, sent);
    OnesAreFed(g, sent);
    FedNext(g, s, [], 1);
    FedNext(g, s, [1], 1);
    FedNext(g, s, [1, 1], 1);
    assert [] + [1] == [1] && [1] + [1] == [1, 1] && [1, 1] + [1] == [1, 1, 1];
  }

  /**
   Read in other pieces, a common suffix is chunked otherwise: with reads of four bytes, three ones are one chunk of a
   file of their own, and two chunks behind three other ones.
   */
  lemma SuffixReadOtherwise()
    ensures var g := Config(1, 1, 3, 2);
      && ConfigOk(g)
      && Finish(ReadAll(g, START, Reads([1, 1, 1], 4))) == [[1, 1, 1]]
      && Finish(ReadAll(g, START, Reads([1, 1, 1] + [1, 1, 1], 4))) == [[1, 1, 1], [0, 1], [1]]
  {
    hide Feed, FeedAll, ReadAll;
    var g := Config(1, 1, 3, 2);
    var three: seq<Byte>, four: seq<Byte>, two: seq<Byte> := [1, 1, 1], [1, 1, 1, 1], [1, 1];
    ThreeOnesAreAChunk(g, []);
    ReadNext(g, [], three);
    assert [] + [three] == [three];
    var file := three + three;
    assert file[..4] == four && file[4..] == two && Reads(two, 4) == [two] && Reads(file, 4) == [four] + [two];
    OnesAreFed(g, [three]);
    FedNext(g, START, three, 1);
    assert three + [1] == four;
    ReadNext(g, [], four);
    assert [] + [four] == [four];
    ReadNext(g, [four], two);
    var s := Progress([0], 1, [three]);
    assert Zeros(1) == [0];
    OnesAreFed(g, [three, [0, 1]]);
    FedNext(g, s, [], 1);
    FedNext(g, s, [1], 1);
    assert [] + [1] == [1] && [1] + [1] == two && [three] + [[0, 1]] == [three, [0, 1]];
  }
}
