/**
 Content-defined chunking: a rolling hash in truncated machine arithmetic decides where a file is cut. The file is read
 in blocks, and the pending part of the chunk buffer is cleared at each read.
 */
module Chunker {
  import opened Bytes
  import opened CircularIndex
  import opened RollingHash
  import opened Sequences

  const BASE: nat := 257
  /** polyMOD_ is used as a mask: it keeps 23 bits. The rolling value itself is stored in 16 bits. */
  const MASK_RANGE: nat := 0x80_0000
  const FP_RANGE: nat := 0x1_0000
  const WORD_32: nat := 0x1_0000_0000

  /** `anchorRange` is the largest power of two up to the average chunk size; cutting tests the bits below it. */
  datatype Config = Config(window: nat, minSize: nat, maxSize: nat, anchorRange: nat)

  predicate ConfigOk(g: Config) {
    0 < g.window < g.maxSize && g.minSize < g.maxSize && g.anchorRange > 0
  }

  /** The number of mask bits: avg >> bits == 1. */
  method AnchorRange(avg: nat) returns (range: nat, ghost bits: nat)
    requires avg >= 2
    ensures range == Pow(2, bits) && range <= avg < 2 * range
  {
    range, bits := 2, 1;
    while avg / range != 1
      invariant range == Pow(2, bits) && 1 <= bits && 1 <= range <= avg
      decreases avg - range
    {
      range, bits := range * 2, bits + 1;
    }
  }

  function Low(x: int): (r: nat)
    ensures r < FP_RANGE
  {
    x % FP_RANGE
  }

  // ---------------------------------------------------------------- the machine arithmetic

  function PowerEntry(i: nat): (r: nat)
    ensures r < MASK_RANGE
  {
    if i == 0 then 1 else PowerEntry(i - 1) * BASE % MASK_RANGE
  }

  function RemoveEntry(window: nat, v: Byte): (r: nat)
    requires window > 0
    ensures r < MASK_RANGE
  {
    var r := v as int * PowerEntry(window - 1) % MASK_RANGE;
    if r != 0 then (MASK_RANGE - 1 - r + 1) % MASK_RANGE else r
  }

  /** Filling the window: b is the byte at position n. */
  function FillFp(g: Config, fp: nat, n: nat, b: Byte): (r: nat)
    requires n < g.window
    ensures r < FP_RANGE
  {
    (fp + b as int * PowerEntry(g.window - n - 1)) % MASK_RANGE % FP_RANGE
  }

  function SlideFp(g: Config, fp: nat, v: Byte, b: Byte): (r: nat)
    requires g.window > 0
    ensures r < FP_RANGE
  {
    ((fp % MASK_RANGE + RemoveEntry(g.window, v)) * BASE + b as int) % MASK_RANGE % FP_RANGE
  }

  lemma ByteTimes(b: Byte, x: nat)
    requires x < MASK_RANGE
    ensures 0 <= b as int * x <= 255 * MASK_RANGE
  {
    assert (255 - b as int) * x >= 0;
    assert 255 * x == b as int * x + (255 - b as int) * x;
  }

  /** No intermediate value reaches 32 bits, neither in the tables nor in the two update rules. */
  lemma NoOverflow(g: Config, fp: nat, n: nat, i: nat, v: Byte, b: Byte)
    requires fp < FP_RANGE && g.window > 0 && n < g.window
    ensures PowerEntry(i) * BASE < WORD_32
    ensures v as int * PowerEntry(i) < WORD_32
    ensures fp + b as int * PowerEntry(g.window - n - 1) < WORD_32
    ensures (fp % MASK_RANGE + RemoveEntry(g.window, v)) * BASE + b as int < WORD_32
  {
    ByteTimes(v, PowerEntry(i));
    ByteTimes(b, PowerEntry(g.window - n - 1));
  }

  lemma MaskKeepsLow(x: int)
    ensures Congruent(x % MASK_RANGE, x, FP_RANGE)
    ensures x >= 0 ==> x % MASK_RANGE % FP_RANGE == Low(x)
  {
    CongruentMod(x, FP_RANGE, 128);
  }

  lemma {:induction false} PowerEntryIsPower(i: nat)
    ensures Congruent(PowerEntry(i), Pow(BASE, i), FP_RANGE)
  {
    if i == 0 {
      CongruentSelf(1, FP_RANGE);
    } else {
      PowerEntryIsPower(i - 1);
      CongruentTimes(PowerEntry(i - 1), Pow(BASE, i - 1), BASE, FP_RANGE);
      MaskKeepsLow(PowerEntry(i - 1) * BASE);
      CongruentTrans(PowerEntry(i), PowerEntry(i - 1) * BASE, Pow(BASE, i), FP_RANGE);
    }
  }

  lemma MinusMod(x: int)
    ensures (-x) % MASK_RANGE == if x % MASK_RANGE != 0 then (MASK_RANGE - 1 - x % MASK_RANGE + 1) % MASK_RANGE
      else x % MASK_RANGE
  {
    var q, r := x / MASK_RANGE, x % MASK_RANGE;
    if r != 0 {
      ModuloUnique(-x, MASK_RANGE, -q - 1, MASK_RANGE - r);
    } else {
      ModuloUnique(-x, MASK_RANGE, -q, 0);
    }
  }

  lemma RemoveEntryIsMinus(window: nat, v: Byte)
    requires window > 0
    ensures Congruent(RemoveEntry(window, v), -(v as int * Pow(BASE, window - 1)), FP_RANGE)
  {
    var e := PowerEntry(window - 1);
    PowerEntryIsPower(window - 1);
    CongruentTimes(e, Pow(BASE, window - 1), -(v as int), FP_RANGE);
    var x := v as int * e;
    assert e * -(v as int) == -x && Pow(BASE, window - 1) * -(v as int) == -(v as int * Pow(BASE, window - 1));
    CongruentMod(-x, FP_RANGE, 128);
    assert RemoveEntry(window, v) == (-x) % MASK_RANGE by { MinusMod(x); }
    CongruentTrans(RemoveEntry(window, v), -x, -(v as int * Pow(BASE, window - 1)), FP_RANGE);
  }

  /**
   The rolling value is that of the polynomial of the window, shifted up while the window is not full, plus `carry`:
   what is left in it of bytes that are no longer in the buffer.
   */
  ghost predicate Rolling(g: Config, buf: seq<Byte>, fp: nat, carry: int) {
    && fp < FP_RANGE
    && if |buf| < g.window then Congruent(fp, Poly(BASE, buf) * Pow(BASE, g.window - |buf|) + carry, FP_RANGE)
       else Congruent(fp, Poly(BASE, buf[|buf| - g.window..]) + carry, FP_RANGE)
  }

  lemma RollingStart(g: Config)
    requires g.window > 0
    ensures Rolling(g, [], 0, 0)
  {
    assert 0 * Pow(BASE, g.window) == 0;
    CongruentSelf(0, FP_RANGE);
  }

  /** Masking to 23 bits and storing in 16 gives the value modulo the smaller range. */
  lemma StoreKeepsLow(sum: nat, target: int)
    requires Congruent(sum, target, FP_RANGE)
    ensures Congruent(sum % MASK_RANGE % FP_RANGE, target, FP_RANGE)
  {
    MaskKeepsLow(sum);
    CongruentMod(sum, FP_RANGE, 1);
    CongruentTrans(Low(sum), sum, target, FP_RANGE);
  }

  lemma Commutes(x: int, y: int)
    ensures x * y == y * x
  {
  }

  lemma PowZero()
    ensures Pow(BASE, 0) == 1
  {
  }

  /** A byte that fills the window leaves the carry as it is. */
  lemma FillKeepsRolling(g: Config, buf: seq<Byte>, fp: nat, carry: int, b: Byte)
    requires ConfigOk(g) && Rolling(g, buf, fp, carry) && |buf| < g.window
    ensures Rolling(g, buf + [b], FillFp(g, fp, |buf|, b), carry)
  {
    hide Congruent, PowerEntry, Poly, Pow;
    var n := g.window - |buf| - 1;
    var old' := Poly(BASE, buf) * Pow(BASE, n + 1) + carry;
    PowerEntryIsPower(n);
    CongruentTimes(PowerEntry(n), Pow(BASE, n), b as int, FP_RANGE);
    CongruentSum(fp, old', PowerEntry(n) * b as int, Pow(BASE, n) * b as int, FP_RANGE);
    PolyAppends(BASE, buf, b, n);
    Commutes(b as int, PowerEntry(n));
    StoreKeepsLow(fp + b as int * PowerEntry(n), Poly(BASE, buf + [b]) * Pow(BASE, n) + carry);
    if n == 0 {
      assert (buf + [b])[0..] == buf + [b];
      assert Pow(BASE, 0) == 1 by { PowZero(); }
    }
  }

  lemma SlideCongruent(fp: nat, poly: int, r: nat, drop: int, b: nat)
    requires Congruent(fp, poly, FP_RANGE) && Congruent(r, -drop, FP_RANGE)
    ensures Congruent(((fp + r) * BASE + b) % MASK_RANGE % FP_RANGE, (poly - drop) * BASE + b, FP_RANGE)
  {
    hide Congruent;
    CongruentSum(fp, poly, r, -drop, FP_RANGE);
    CongruentTimes(fp + r, poly - drop, BASE, FP_RANGE);
    CongruentSelf(b, FP_RANGE);
    CongruentSum((fp + r) * BASE, (poly - drop) * BASE, b, b, FP_RANGE);
    StoreKeepsLow((fp + r) * BASE + b, (poly - drop) * BASE + b);
  }

  lemma SlideArithmetic(g: Config, fp: nat, poly: int, v: Byte, b: Byte, drop: int)
    requires g.window > 0 && fp < FP_RANGE && Congruent(fp, poly, FP_RANGE)
    requires drop == v as int * Pow(BASE, g.window - 1)
    ensures Congruent(SlideFp(g, fp, v, b), (poly - drop) * BASE + b as int, FP_RANGE)
  {
    hide Congruent, RemoveEntry, Pow;
    RemoveEntryIsMinus(g.window, v);
    SlideCongruent(fp, poly, RemoveEntry(g.window, v), drop, b as int);
    assert fp % MASK_RANGE == fp;
  }

  /** A byte that slides the window multiplies the carry by the base. */
  lemma SlideKeepsRolling(g: Config, buf: seq<Byte>, fp: nat, carry: int, b: Byte)
    requires ConfigOk(g) && Rolling(g, buf, fp, carry) && |buf| >= g.window
    ensures Rolling(g, buf + [b], SlideFp(g, fp, buf[|buf| - g.window], b), BASE * carry)
  {
    hide Congruent, RemoveEntry, Poly, Pow;
    var w := buf[|buf| - g.window..];
    var all := buf + [b];
    assert all[|all| - g.window..] == w[1..] + [b];
    PolySlides(BASE, w, b);
    if |buf| == g.window {
      assert w == buf;
    }
    SlideArithmetic(g, fp, Poly(BASE, w) + carry, w[0], b, w[0] as int * Pow(BASE, g.window - 1));
  }

  /** So with a full window the value is the polynomial of the last bytes plus the carry, cut to 16 bits. */
  lemma RollingIsPolynomial(g: Config, buf: seq<Byte>, fp: nat, carry: int)
    requires Rolling(g, buf, fp, carry) && |buf| >= g.window
    ensures fp == Low(Poly(BASE, buf[|buf| - g.window..]) + carry)
  {
    CongruentEqual(fp, Poly(BASE, buf[|buf| - g.window..]) + carry, FP_RANGE);
  }

  // ---------------------------------------------------------------- chunking

  /** The chunk buffer, the rolling value, and the chunks sent on so far; a chunk's ID is its index. */
  datatype Progress = Progress(buf: seq<Byte>, fp: nat, chunks: seq<seq<Byte>>)

  const START := Progress([], 0, [])

  function Feed(g: Config, s: Progress, b: Byte): Progress
    requires ConfigOk(g)
  {
    var buf := s.buf + [b];
    if |s.buf| < g.window then Progress(buf, FillFp(g, s.fp, |s.buf|, b), s.chunks)
    else
      var fp := SlideFp(g, s.fp, s.buf[|s.buf| - g.window], b);
      if |buf| >= g.minSize && (fp % g.anchorRange == 0 || |buf| >= g.maxSize) then Progress([], 0, s.chunks + [buf])
      else Progress(buf, fp, s.chunks)
  }

  function FeedAll(g: Config, s: Progress, data: seq<Byte>): Progress
    requires ConfigOk(g)
  {
    if data == [] then s else Feed(g, FeedAll(g, s, data[..|data| - 1]), data[|data| - 1])
  }

  /** Before each read the chunk buffer is cleared, but neither its fill count nor the rolling value. */
  function Clear(s: Progress): Progress {
    s.(buf := Zeros(|s.buf|))
  }

  function ReadAll(g: Config, s: Progress, blocks: seq<seq<Byte>>): Progress
    requires ConfigOk(g)
  {
    if blocks == [] then s else FeedAll(g, Clear(ReadAll(g, s, blocks[..|blocks| - 1])), blocks[|blocks| - 1])
  }

  /** Full blocks up to the one that meets the end of the file; a file of full blocks ends with an empty one. */
  function Reads(file: seq<Byte>, readSize: nat): (r: seq<seq<Byte>>)
    requires readSize > 0
    ensures r != [] && Concat(r) == file
    decreases |file|
  {
    if |file| < readSize then
      assert Concat([file]) == file + Concat([]);
      [file]
    else
      var r := [file[..readSize]] + Reads(file[readSize..], readSize);
      assert r[0] + Concat(r[1..]) == file;
      r
  }

  function Finish(s: Progress): seq<seq<Byte>> {
    if s.buf == [] then s.chunks else s.chunks + [s.buf]
  }

  lemma {:induction false} ReadAllFirst(g: Config, s: Progress, read: seq<Byte>, rest: seq<seq<Byte>>)
    requires ConfigOk(g)
    ensures ReadAll(g, s, [read] + rest) == ReadAll(g, FeedAll(g, Clear(s), read), rest)
  {
    var all := [read] + rest;
    if rest == [] {
      assert all[..0] == [];
    } else {
      assert all[..|all| - 1] == [read] + rest[..|rest| - 1];
      ReadAllFirst(g, s, read, rest[..|rest| - 1]);
    }
  }

  lemma FeedNext(g: Config, s: Progress, data: seq<Byte>, i: nat)
    requires ConfigOk(g) && i < |data|
    ensures FeedAll(g, s, data[..i + 1]) == Feed(g, FeedAll(g, s, data[..i]), data[i])
  {
    assert data[..i + 1][..i] == data[..i];
  }

  lemma {:induction false} FeedConcat(g: Config, s: Progress, a: seq<Byte>, b: seq<Byte>)
    requires ConfigOk(g)
    ensures FeedAll(g, s, a + b) == FeedAll(g, FeedAll(g, s, a), b)
  {
    if b == [] {
      assert a + b == a;
    } else {
      assert (a + b)[..|a + b| - 1] == a + b[..|b| - 1];
      FeedConcat(g, s, a, b[..|b| - 1]);
    }
  }

  // ---------------------------------------------------------------- sizes, for any number of reads

  function Size(s: Progress): nat {
    |Concat(s.chunks)| + |s.buf|
  }

  /** A chunk that was cut has at least the minimum size, more than a window, and at most the maximum size. */
  predicate SizeOk(g: Config, c: seq<Byte>) {
    g.minSize <= |c| && g.window < |c| <= g.maxSize
  }

  ghost predicate SizesOk(g: Config, s: Progress) {
    |s.buf| < g.maxSize && forall i :: 0 <= i < |s.chunks| ==> SizeOk(g, s.chunks[i])
  }

  lemma FeedKeepsSizes(g: Config, s: Progress, b: Byte)
    requires ConfigOk(g) && SizesOk(g, s)
    ensures SizesOk(g, Feed(g, s, b)) && Size(Feed(g, s, b)) == Size(s) + 1
  {
    hide FillFp, SlideFp;
    ConcatLast(s.chunks, s.buf + [b]);
  }

  lemma {:induction false} FeedAllKeepsSizes(g: Config, s: Progress, data: seq<Byte>)
    requires ConfigOk(g) && SizesOk(g, s)
    ensures SizesOk(g, FeedAll(g, s, data)) && Size(FeedAll(g, s, data)) == Size(s) + |data|
  {
    hide Feed, SizesOk, Size;
    if data != [] {
      FeedAllKeepsSizes(g, s, data[..|data| - 1]);
      FeedKeepsSizes(g, FeedAll(g, s, data[..|data| - 1]), data[|data| - 1]);
    }
  }

  /** Whatever the reads, the chunk sizes add up to the bytes read, and all but the last are within the bounds. */
  lemma {:induction false} ReadAllKeepsSizes(g: Config, blocks: seq<seq<Byte>>)
    requires ConfigOk(g)
    ensures SizesOk(g, ReadAll(g, START, blocks)) && Size(ReadAll(g, START, blocks)) == |Concat(blocks)|
  {
    if blocks != [] {
      var init, last := blocks[..|blocks| - 1], blocks[|blocks| - 1];
      ReadAllKeepsSizes(g, init);
      FeedAllKeepsSizes(g, Clear(ReadAll(g, START, init)), last);
      ConcatLast(init, last);
      assert init + [last] == blocks;
    }
  }

  // ---------------------------------------------------------------- contents

  function Content(s: Progress): seq<Byte> {
    Concat(s.chunks) + s.buf
  }

  lemma FeedKeepsContent(g: Config, s: Progress, b: Byte)
    requires ConfigOk(g)
    ensures Content(Feed(g, s, b)) == Content(s) + [b]
  {
    hide FillFp, SlideFp;
    ConcatLast(s.chunks, s.buf + [b]);
    assert Concat(s.chunks) + (s.buf + [b]) == Content(s) + [b];
  }

  lemma {:induction false} FeedAllKeepsContent(g: Config, s: Progress, data: seq<Byte>)
    requires ConfigOk(g)
    ensures Content(FeedAll(g, s, data)) == Content(s) + data
  {
    hide Feed;
    if data == [] {
      assert Content(s) + data == Content(s);
    } else {
      FeedAllKeepsContent(g, s, data[..|data| - 1]);
      FeedKeepsContent(g, FeedAll(g, s, data[..|data| - 1]), data[|data| - 1]);
      assert Content(s) + data[..|data| - 1] + [data[|data| - 1]] == Content(s) + data;
    }
  }

  /** Where the result differs from the file it has a zero. */
  ghost predicate Blanked(content: seq<Byte>, file: seq<Byte>) {
    |content| == |file| && forall i :: 0 <= i < |file| ==> content[i] == file[i] || content[i] == 0
  }

  lemma ClearIsFile(s: Progress, file: seq<Byte>)
    requires Blanked(Content(s), file)
    ensures Blanked(Content(Clear(s)), file)
    ensures Content(Clear(s)) == file <==> Content(s) == file && s.buf == Zeros(|s.buf|)
  {
    var before, after, n := Content(s), Content(Clear(s)), |Concat(s.chunks)|;
    assert forall i :: 0 <= i < n ==> before[i] == after[i];
    assert before[n..] == s.buf && after[n..] == Zeros(|s.buf|);
    forall i | 0 <= i < |file| ensures after[i] == file[i] || after[i] == 0 {
      assert i >= n ==> after[i] == after[n..][i - n];
    }
    if after == file {
      forall i | 0 <= i < |file| ensures before[i] == file[i] {
        assert i >= n ==> after[i] == after[n..][i - n];
      }
    }
  }

  lemma SameSuffix(a: seq<Byte>, b: seq<Byte>, c: seq<Byte>)
    requires |a| == |b|
    ensures a + c == b + c <==> a == b
    ensures Blanked(a, b) ==> Blanked(a + c, b + c)
  {
    assert (a + c)[..|a|] == a && (b + c)[..|b|] == b;
  }

  /** The bytes of the file from the last cut on, when read number k begins. */
  function Unsent(g: Config, blocks: seq<seq<Byte>>, k: nat): seq<Byte>
    requires ConfigOk(g) && k <= |blocks|
  {
    ReadAllKeepsSizes(g, blocks[..k]);
    Concat(blocks[..k])[|Concat(ReadAll(g, START, blocks[..k]).chunks)|..]
  }

  lemma NothingRead(g: Config)
    requires ConfigOk(g)
    ensures ReadAll(g, START, []) == START && Content(START) == [] && Concat<Byte>([]) == [] && Blanked([], [])
  {
  }

  /**
   Clearing at a read loses what is pending: the chunks put together are the file exactly if at every read the bytes of
   the file from the last cut on are all zero.
   */
  lemma {:induction false} ContentIsFile(g: Config, blocks: seq<seq<Byte>>)
    requires ConfigOk(g)
    ensures Blanked(Content(ReadAll(g, START, blocks)), Concat(blocks))
    ensures Content(ReadAll(g, START, blocks)) == Concat(blocks)
      <==> forall k :: 0 <= k < |blocks| ==> Unsent(g, blocks, k) == Zeros(|Unsent(g, blocks, k)|)
  {
    hide FeedAll, Blanked, Zeros;
    if blocks != [] {
      var n := |blocks| - 1;
      var init, last := blocks[..n], blocks[n];
      var before := ReadAll(g, START, init);
      ContentIsFile(g, init);
      FeedAllKeepsContent(g, Clear(before), last);
      ConcatLast(init, last);
      assert init + [last] == blocks;
      forall k | 0 <= k < n ensures Unsent(g, init, k) == Unsent(g, blocks, k) {
        assert init[..k] == blocks[..k];
      }
      ClearIsFile(before, Concat(init));
      assert Content(before) == Concat(init) ==> before.buf == Unsent(g, blocks, n);
      assert |Content(before)| == |Concat(init)|
          && |Content(Clear(before))| == |Content(before)| by { ReadAllKeepsSizes(g, init); }
      SameSuffix(Content(Clear(before)), Concat(init), last);
    } else {
      assert Blanked(Content(ReadAll(g, START, [])), Concat(blocks)) by { NothingRead(g); }
    }
  }

  /** A file shorter than one read is chunked without loss. */
  lemma ShortFileIsKept(g: Config, file: seq<Byte>, readSize: nat)
    requires ConfigOk(g) && |file| < readSize
    ensures Content(ReadAll(g, START, Reads(file, readSize))) == file
    ensures ReadAll(g, START, Reads(file, readSize)) == FeedAll(g, START, file)
    ensures Concat(Finish(FeedAll(g, START, file))) == file
  {
    var s := FeedAll(g, START, file);
    assert [file][..0] == [];
    assert Clear(START) == START;
    FeedAllKeepsContent(g, START, file);
    assert Content(START) == [] && [] + file == file;
    ConcatLast(s.chunks, s.buf);
    assert s.buf == [] ==> Concat(s.chunks) + s.buf == Concat(s.chunks);
  }

  // ---------------------------------------------------------------- the non-rolling definition of the cuts

  /** A chunk may end here: the polynomial of the last window, cut to 16 bits, hits the anchor, or the chunk is full. */
  predicate CutHere(g: Config, c: seq<Byte>)
    requires ConfigOk(g)
  {
    && |c| > g.window && |c| >= g.minSize
    && (Low(Poly(BASE, c[|c| - g.window..])) % g.anchorRange == 0 || |c| >= g.maxSize)
  }

  predicate Open(g: Config, c: seq<Byte>)
    requires ConfigOk(g)
  {
    forall n :: 0 <= n <= |c| ==> !CutHere(g, c[..n])
  }

  /** A chunk ends at the first place where it may. */
  predicate IsChunk(g: Config, c: seq<Byte>)
    requires ConfigOk(g)
  {
    c != [] && CutHere(g, c) && Open(g, c[..|c| - 1])
  }

  ghost predicate Direct(g: Config, s: Progress)
    requires ConfigOk(g)
  {
    Rolling(g, s.buf, s.fp, 0) && Open(g, s.buf) && forall i :: 0 <= i < |s.chunks| ==> IsChunk(g, s.chunks[i])
  }

  lemma OpenNext(g: Config, buf: seq<Byte>, b: Byte)
    requires ConfigOk(g) && Open(g, buf)
    ensures (buf + [b])[..|buf|] == buf
    ensures Open(g, buf + [b]) <==> !CutHere(g, buf + [b])
  {
    var all := buf + [b];
    forall n | 0 <= n <= |all| ensures CutHere(g, all[..n]) ==> n == |all| {
      if n <= |buf| {
        assert all[..n] == buf[..n];
      }
    }
    assert all[..|all|] == all;
  }

  lemma OpenStart(g: Config)
    requires ConfigOk(g)
    ensures Open(g, [])
  {
  }

  /** The machine arithmetic cuts exactly where the non-rolling definition does. */
  lemma FeedIsDirect(g: Config, s: Progress, b: Byte)
    requires ConfigOk(g) && Direct(g, s)
    ensures Direct(g, Feed(g, s, b))
    ensures Feed(g, s, b).chunks != s.chunks <==> CutHere(g, s.buf + [b])
  {
    hide FillFp, SlideFp, Rolling, Poly, Open;
    var buf := s.buf + [b];
    OpenNext(g, s.buf, b);
    if |s.buf| < g.window {
      FillKeepsRolling(g, s.buf, s.fp, 0, b);
    } else {
      SlideKeepsRolling(g, s.buf, s.fp, 0, b);
      RollingIsPolynomial(g, buf, SlideFp(g, s.fp, s.buf[|s.buf| - g.window], b), 0);
      RollingStart(g);
      OpenStart(g);
    }
  }

  lemma StartIsDirect(g: Config)
    requires ConfigOk(g)
    ensures Direct(g, START)
  {
    RollingStart(g);
  }

  lemma {:induction false} FeedAllIsDirect(g: Config, data: seq<Byte>)
    requires ConfigOk(g)
    ensures Direct(g, FeedAll(g, START, data))
  {
    hide Feed, Direct;
    if data == [] {
      assert Direct(g, START) by { StartIsDirect(g); }
    } else {
      FeedAllIsDirect(g, data[..|data| - 1]);
      FeedIsDirect(g, FeedAll(g, START, data[..|data| - 1]), data[|data| - 1]);
    }
  }

  lemma OpenHasNoChunk(g: Config, x: seq<Byte>, c: seq<Byte>)
    requires ConfigOk(g) && Open(g, x) && c <= x
    ensures !IsChunk(g, c)
  {
    assert x[..|c|] == c;
  }

  lemma ChunkHasNoShorterChunk(g: Config, d: seq<Byte>, c: seq<Byte>)
    requires ConfigOk(g) && IsChunk(g, d) && c <= d && |c| < |d|
    ensures !IsChunk(g, c)
  {
    assert d[..|d| - 1][..|c|] == c;
  }

  lemma FirstCutIsUnique(g: Config, all: seq<Byte>, c: seq<Byte>, d: seq<Byte>)
    requires ConfigOk(g) && IsChunk(g, c) && IsChunk(g, d) && c <= all && d <= all
    ensures c == d
  {
    hide IsChunk;
    assert c == all[..|c|] && d == all[..|d|];
    if |c| < |d| {
      ChunkHasNoShorterChunk(g, d, c);
    } else if |d| < |c| {
      ChunkHasNoShorterChunk(g, c, d);
    }
  }

  lemma {:induction false} CutsAreUnique(g: Config, a: seq<seq<Byte>>, x: seq<Byte>, b: seq<seq<Byte>>, y: seq<Byte>)
    requires ConfigOk(g) && Concat(a) + x == Concat(b) + y && Open(g, x) && Open(g, y)
    requires (forall i :: 0 <= i < |a| ==> IsChunk(g, a[i])) && forall i :: 0 <= i < |b| ==> IsChunk(g, b[i])
    ensures a == b && x == y
    decreases |a|
  {
    hide Open, IsChunk;
    if a == [] && b == [] {
      assert x == Concat(a) + x == Concat(b) + y == y;
    } else if a == [] {
      assert Concat(a) + x == x && Concat(b) + y == b[0] + (Concat(b[1..]) + y);
      OpenHasNoChunk(g, x, b[0]);
    } else if b == [] {
      assert Concat(b) + y == y && Concat(a) + x == a[0] + (Concat(a[1..]) + x);
      OpenHasNoChunk(g, y, a[0]);
    } else {
      var all := Concat(a) + x;
      assert all == a[0] + (Concat(a[1..]) + x) && all == b[0] + (Concat(b[1..]) + y);
      FirstCutIsUnique(g, all, a[0], b[0]);
      assert all[|a[0]|..] == Concat(a[1..]) + x == Concat(b[1..]) + y;
      CutsAreUnique(g, a[1..], x, b[1..], y);
      assert a == [a[0]] + a[1..] && b == [b[0]] + b[1..];
    }
  }

  /**
   For a file shorter than one read: the chunks are the only way to cut the file so that each chunk but the last ends at
   the first place where it may, and the last has no such place before its end.
   */
  lemma ChunksAreDirect(g: Config, file: seq<Byte>, chunks: seq<seq<Byte>>, rest: seq<Byte>)
    requires ConfigOk(g) && Concat(chunks) + rest == file && Open(g, rest)
    requires forall i :: 0 <= i < |chunks| ==> IsChunk(g, chunks[i])
    ensures var s := FeedAll(g, START, file); s.chunks == chunks && s.buf == rest
  {
    var s := FeedAll(g, START, file);
    FeedAllIsDirect(g, file);
    FeedAllKeepsContent(g, START, file);
    assert Content(START) + file == file;
    CutsAreUnique(g, s.chunks, s.buf, chunks, rest);
  }

  lemma {:induction false} ChunksPileUp(g: Config, s: Progress, before: seq<seq<Byte>>, data: seq<Byte>)
    requires ConfigOk(g)
    ensures var t := FeedAll(g, s, data);
      FeedAll(g, s.(chunks := before + s.chunks), data) == t.(chunks := before + t.chunks)
  {
    hide FillFp, SlideFp;
    if data != [] {
      ChunksPileUp(g, s, before, data[..|data| - 1]);
      var t := FeedAll(g, s, data[..|data| - 1]);
      var t' := Feed(g, t, data[|data| - 1]);
      assert t'.chunks != t.chunks ==> before + t.chunks + [t.buf + [data[|data| - 1]]] == before + t'.chunks;
    }
  }

  // ---------------------------------------------------------------- the chunker

  ghost predicate TablesOk(g: Config, powerLUT: seq<nat>, removeLUT: seq<nat>)
    requires ConfigOk(g)
  {
    && |powerLUT| == g.window && (forall i :: 0 <= i < g.window ==> powerLUT[i] == PowerEntry(i))
    && |removeLUT| == 256 && forall v: Byte :: removeLUT[v] == RemoveEntry(g.window, v)
  }

  method BuildTables(g: Config) returns (powerLUT: seq<nat>, removeLUT: seq<nat>)
    requires ConfigOk(g)
    ensures TablesOk(g, powerLUT, removeLUT)
  {
    powerLUT := [1];
    for i := 1 to g.window
      invariant |powerLUT| == i && forall j :: 0 <= j < i ==> powerLUT[j] == PowerEntry(j)
    {
      powerLUT := powerLUT + [powerLUT[i - 1] * BASE % MASK_RANGE];
    }
    removeLUT := [];
    for i := 0 to 256
      invariant |removeLUT| == i && forall v: Byte :: v as int < i ==> removeLUT[v] == RemoveEntry(g.window, v)
    {
      var r := i * powerLUT[g.window - 1] % MASK_RANGE;
      if r != 0 {
        r := (MASK_RANGE - 1 - r + 1) % MASK_RANGE;
      }
      removeLUT := removeLUT + [r];
    }
  }

  /** Sends the first n bytes of the chunk buffer on as a chunk. */
  method Send(chunkBuffer: array<Byte>, n: nat, sent: seq<seq<Byte>>)
    returns (count: nat, fp: nat, chunks: seq<seq<Byte>>)
    requires n <= chunkBuffer.Length
    ensures count == 0 && fp == 0 && chunks == sent + [chunkBuffer[..n]]
  {
    count, fp, chunks := 0, 0, sent + [chunkBuffer[..n]];
  }

  /** One byte of the file. */
  method ChunkByte(g: Config, powerLUT: seq<nat>, removeLUT: seq<nat>, b: Byte, chunkBuffer: array<Byte>, count: nat,
                   fp: nat, sent: seq<seq<Byte>>) returns (chunkBufferCnt: nat, winFp: nat, chunks: seq<seq<Byte>>)
    requires ConfigOk(g) && TablesOk(g, powerLUT, removeLUT) && chunkBuffer.Length == g.maxSize && count < g.maxSize
    modifies chunkBuffer
    ensures chunkBufferCnt < g.maxSize
    ensures Progress(chunkBuffer[..chunkBufferCnt], winFp, chunks)
      == Feed(g, Progress(old(chunkBuffer[..count]), fp, sent), b)
  {
    hide PowerEntry, RemoveEntry;
    ghost var buf := chunkBuffer[..count];
    chunkBufferCnt, winFp, chunks := count, fp, sent;
    chunkBuffer[chunkBufferCnt] := b;
    assert chunkBuffer[..chunkBufferCnt + 1] == buf + [b];
    if chunkBufferCnt < g.window {
      var power := powerLUT[g.window - chunkBufferCnt - 1];
      winFp := (winFp + chunkBuffer[chunkBufferCnt] as nat * power) % MASK_RANGE % FP_RANGE;
      chunkBufferCnt := chunkBufferCnt + 1;
      return;
    }
    winFp := winFp % MASK_RANGE;
    var v := chunkBuffer[chunkBufferCnt - g.window];
    assert v == buf[|buf| - g.window];
    winFp := ((winFp + removeLUT[v]) * BASE + chunkBuffer[chunkBufferCnt] as nat) % MASK_RANGE % FP_RANGE;
    chunkBufferCnt := chunkBufferCnt + 1;
    if chunkBufferCnt < g.minSize {
      return;
    }
    if winFp % g.anchorRange == 0 {
      chunkBufferCnt, winFp, chunks := Send(chunkBuffer, chunkBufferCnt, chunks);
    }
    if chunkBufferCnt >= g.maxSize {
      chunkBufferCnt, winFp, chunks := Send(chunkBuffer, chunkBufferCnt, chunks);
    }
  }

  /** One block of the file, byte by byte, in the chunk buffer. */
  method ChunkBlock(g: Config, powerLUT: seq<nat>, removeLUT: seq<nat>, block: seq<Byte>, chunkBuffer: array<Byte>,
                    count: nat, fp: nat, sent: seq<seq<Byte>>)
    returns (chunkBufferCnt: nat, winFp: nat, chunks: seq<seq<Byte>>)
    requires ConfigOk(g) && TablesOk(g, powerLUT, removeLUT) && chunkBuffer.Length == g.maxSize && count < g.maxSize
    modifies chunkBuffer
    ensures chunkBufferCnt < g.maxSize
    ensures Progress(chunkBuffer[..chunkBufferCnt], winFp, chunks)
      == FeedAll(g, Progress(old(chunkBuffer[..count]), fp, sent), block)
  {
    hide Feed, TablesOk;
    ghost var start := Progress(chunkBuffer[..count], fp, sent);
    chunkBufferCnt, winFp, chunks := count, fp, sent;
    assert block[..0] == [];
    for i := 0 to |block|
      invariant chunkBufferCnt < g.maxSize
      invariant Progress(chunkBuffer[..chunkBufferCnt], winFp, chunks) == FeedAll(g, start, block[..i])
    {
      FeedNext(g, start, block, i);
      chunkBufferCnt, winFp, chunks :=
        ChunkByte(g, powerLUT, removeLUT, block[i], chunkBuffer, chunkBufferCnt, winFp, chunks);
    }
    assert block[..|block|] == block;
  }

  /** One read, and the rest of the file after it. */
  lemma ReadStep(g: Config, s: Progress, rest: seq<Byte>, readSize: nat)
    requires ConfigOk(g) && readSize > 0
    ensures ReadAll(g, s, Reads(rest, readSize)) ==
      if |rest| < readSize then FeedAll(g, Clear(s), rest[..|rest|])
      else ReadAll(g, FeedAll(g, Clear(s), rest[..readSize]), Reads(rest[readSize..], readSize))
  {
    if |rest| < readSize {
      assert [rest][..0] == [] && rest[..|rest|] == rest;
    } else {
      ReadAllFirst(g, s, rest[..readSize], Reads(rest[readSize..], readSize));
    }
  }

  method VarSizeChunking(g: Config, file: seq<Byte>, readSize: nat) returns (chunks: seq<seq<Byte>>, fileSize: nat)
    requires ConfigOk(g) && readSize > 0
    ensures fileSize == |file|
    ensures chunks == Finish(ReadAll(g, START, Reads(file, readSize)))
  {
    var powerLUT, removeLUT := BuildTables(g);
    var chunkBuffer := new Byte[g.maxSize](_ => 0);
    var chunkBufferCnt: nat, winFp: nat := 0, 0;
    chunks, fileSize := [], 0;
    ghost var all := ReadAll(g, START, Reads(file, readSize));
    assert file[0..] == file;
    while true
      invariant fileSize <= |file| && chunkBufferCnt < g.maxSize == chunkBuffer.Length && fresh(chunkBuffer)
      invariant ReadAll(g, Progress(chunkBuffer[..chunkBufferCnt], winFp, chunks), Reads(file[fileSize..], readSize))
        == all
      decreases |file| - fileSize
    {
      hide FeedAll, Feed, TablesOk, ReadAll, Reads, Finish;
      var rest := file[fileSize..];
      var len := if |rest| < readSize then |rest| else readSize;
      ghost var s := Progress(chunkBuffer[..chunkBufferCnt], winFp, chunks);
      ReadStep(g, s, rest, readSize);
      forall i | 0 <= i < chunkBuffer.Length {
        chunkBuffer[i] := 0;
      }
      assert chunkBuffer[..chunkBufferCnt] == Zeros(chunkBufferCnt);
      chunkBufferCnt, winFp, chunks :=
        ChunkBlock(g, powerLUT, removeLUT, rest[..len], chunkBuffer, chunkBufferCnt, winFp, chunks);
      fileSize := fileSize + len;
      assert file[fileSize..] == rest[len..];
      if len < readSize {
        break;
      }
    }
    if chunkBufferCnt != 0 {
      chunks := chunks + [chunkBuffer[..chunkBufferCnt]];
    }
  }
}
