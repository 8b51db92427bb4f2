/**
 The frequency detector. The enclave counts, over the stream of all uploaded chunks, how often each indicator occurs in
 the current window of fixed size; the offline tool computes the largest frequency of each window of a recorded stream.
 */
module Detector {
  import opened Bytes
  import opened Sequences

  const INDICATOR_LENGTH: nat := 32
  const THRESHOLD: nat := 160
  const WINDOW: nat := 16000

  type Indicator = seq<Byte>

  /** The last occurrence sees the whole count. */
  lemma {:induction false} LastOccurrence(s: seq<Indicator>, x: Indicator) returns (i: nat)
    requires Occurrences(s, x) > 0
    ensures i < |s| && s[i] == x && Occurrences(s[..i + 1], x) == Occurrences(s, x)
  {
    if s[|s| - 1] == x {
      i := |s| - 1;
      assert s[..i + 1] == s;
    } else {
      i := LastOccurrence(s[..|s| - 1], x);
      assert s[..|s| - 1][..i + 1] == s[..i + 1];
    }
  }

  // ---------------------------------------------------------------- windows of the stream

  function WindowStart(i: nat): (r: nat)
    ensures r <= i < r + WINDOW
  {
    i / WINDOW * WINDOW
  }

  /** Chunk i of the stream pushes its indicator past the threshold in its own window. */
  predicate Excess(stream: seq<Indicator>, i: nat)
    requires i < |stream|
  {
    Occurrences(stream[WindowStart(i)..i + 1], stream[i]) > THRESHOLD
  }

  /** Some chunk from number n on does. */
  ghost predicate ExcessFrom(stream: seq<Indicator>, n: nat) {
    exists i :: n <= i < |stream| && Excess(stream, i)
  }

  /**
   Window number k of the stream, for windows of the given size; the last one may be shorter. Size 0 is never reached.
   */
  function WindowOf(stream: seq<Indicator>, size: nat, k: nat): seq<Indicator>
    requires k * size <= |stream|
  {
    var start := k * size;
    if size > 0 && start + size <= |stream| then stream[start..start + size] else stream[start..]
  }

  /** m is the largest frequency of any indicator in s. */
  ghost predicate IsMaxFrequency(m: nat, s: seq<Indicator>) {
    && (forall x :: Occurrences(s, x) <= m)
    && (m > 0 ==> exists x :: Occurrences(s, x) == m)
  }

  lemma WindowPosition(stream: seq<Indicator>, k: nat, j: nat)
    requires k * WINDOW <= |stream| && j < |WindowOf(stream, WINDOW, k)|
    ensures k * WINDOW + j < |stream| && WindowStart(k * WINDOW + j) == k * WINDOW
    ensures stream[k * WINDOW + j] == WindowOf(stream, WINDOW, k)[j]
    ensures stream[k * WINDOW..k * WINDOW + j + 1] == WindowOf(stream, WINDOW, k)[..j + 1]
  {
    assert (k * WINDOW + j) / WINDOW == k;
  }

  lemma InWindow(stream: seq<Indicator>, k: nat, i: nat)
    requires i < |stream| && WindowStart(i) == k * WINDOW
    ensures k * WINDOW <= i && i - k * WINDOW < |WindowOf(stream, WINDOW, k)|
  {
  }

  /** A window holds a chunk that exceeds the threshold exactly if its largest frequency does. */
  lemma WindowTriggersByMax(stream: seq<Indicator>, k: nat, m: nat)
    requires k * WINDOW <= |stream| && IsMaxFrequency(m, WindowOf(stream, WINDOW, k))
    ensures (exists i :: 0 <= i < |stream| && WindowStart(i) == k * WINDOW && Excess(stream, i)) <==> m > THRESHOLD
  {
    hide WindowStart;
    var w := WindowOf(stream, WINDOW, k);
    if m > THRESHOLD {
      var x :| Occurrences(w, x) == m;
      var j := LastOccurrence(w, x);
      WindowPosition(stream, k, j);
      assert Excess(stream, k * WINDOW + j);
    }
    forall i | 0 <= i < |stream| && WindowStart(i) == k * WINDOW && Excess(stream, i) ensures m > THRESHOLD {
      var j := i - k * WINDOW;
      InWindow(stream, k, i);
      WindowPosition(stream, k, j);
      OccurrencesPrefix(w, j + 1, |w|, stream[i]);
      assert w[..|w|] == w;
    }
  }

  // ---------------------------------------------------------------- framing

  /** The chunks framed in src from `offset` on, up to the first broken frame, and whether there is none. */
  function Frames(src: seq<Byte>, offset: nat): (r: (seq<(nat, nat)>, bool))
    requires offset <= |src|
    ensures forall i :: 0 <= i < |r.0| ==> r.0[i].0 + r.0[i].1 <= |src|
    decreases |src| - offset
  {
    if offset == |src| then ([], true)
    else if |src| - offset < 4 then ([], false)
    else
      var size := Size32(src[offset..offset + 4]);
      if |src| - (offset + 4) < size then ([], false)
      else
        var (rest, ok) := Frames(src, offset + 4 + size);
        ([(offset + 4, size)] + rest, ok)
  }

  function Encode(chunks: seq<seq<Byte>>): seq<Byte>
    requires forall i :: 0 <= i < |chunks| ==> |chunks[i]| < 0x1_0000_0000
  {
    if chunks == [] then [] else Bytes32(|chunks[0]|) + chunks[0] + Encode(chunks[1..])
  }

  /** The indicator read at `offset`: the first bytes of the chunk, and for a short chunk whatever follows it. */
  function IndicatorAt(src: seq<Byte>, beyond: nat -> Byte, offset: nat): Indicator {
    seq(INDICATOR_LENGTH, k requires 0 <= k => if offset + k < |src| then src[offset + k] else beyond(offset + k))
  }

  function Indicators(src: seq<Byte>, beyond: nat -> Byte, frames: seq<(nat, nat)>): (r: seq<Indicator>)
    ensures |r| == |frames|
  {
    seq(|frames|, i requires 0 <= i < |frames| => IndicatorAt(src, beyond, frames[i].0))
  }

  lemma FrameStep(before: seq<Byte>, c: seq<Byte>, rest: seq<Byte>, beyond: nat -> Byte)
    requires INDICATOR_LENGTH <= |c| < 0x1_0000_0000
    ensures var next := before + Bytes32(|c|) + c;
      && Frames(next + rest, |before|)
         == ([(|before| + 4, |c|)] + Frames(next + rest, |next|).0, Frames(next + rest, |next|).1)
      && IndicatorAt(next + rest, beyond, |before| + 4) == c[..INDICATOR_LENGTH]
  {
    var header := Bytes32(|c|);
    hide Bytes32, Size32;
    var src := before + header + c + rest;
    assert src[|before|..|before| + 4] == header;
    assert src[|before| + 4..|before| + 4 + |c|] == c;
    forall k | 0 <= k < INDICATOR_LENGTH ensures src[|before| + 4 + k] == c[k] {
      assert src[|before| + 4..|before| + 4 + |c|][k] == c[k];
    }
  }

  /**
   A batch of whole chunks is framed without error, and long enough chunks give their own first bytes as indicators.
   */
  lemma {:induction false} FramesOfEncoded(before: seq<Byte>, chunks: seq<seq<Byte>>, beyond: nat -> Byte)
    requires forall i :: 0 <= i < |chunks| ==> INDICATOR_LENGTH <= |chunks[i]| < 0x1_0000_0000
    ensures var (frames, ok) := Frames(before + Encode(chunks), |before|);
      && ok && |frames| == |chunks|
      && forall i :: 0 <= i < |chunks| ==>
           Indicators(before + Encode(chunks), beyond, frames)[i] == chunks[i][..INDICATOR_LENGTH]
    decreases |chunks|
  {
    hide Bytes32, IndicatorAt;
    if chunks == [] {
      assert before + [] == before;
    } else {
      hide Frames;
      var c, rest := chunks[0], Encode(chunks[1..]);
      var next := before + Bytes32(|c|) + c;
      assert before + (Bytes32(|c|) + c + rest) == next + rest;
      FrameStep(before, c, rest, beyond);
      FramesOfEncoded(next, chunks[1..], beyond);
    }
  }

  // ---------------------------------------------------------------- the enclave

  /** `counts` are the frequencies in s. */
  ghost predicate CountsOf(counts: map<Indicator, nat>, s: seq<Indicator>) {
    forall x :: Occurrences(s, x) == if x in counts then counts[x] else 0
  }

  lemma CountsNext(counts: map<Indicator, nat>, s: seq<Indicator>, x: Indicator)
    requires CountsOf(counts, s)
    ensures CountsOf(counts[x := if x in counts then counts[x] + 1 else 1], s + [x])
  {
    assert (s + [x])[..|s|] == s;
  }

  lemma OneMoreIndicator(src: seq<Byte>, beyond: nat -> Byte, frames: seq<(nat, nat)>, f: (nat, nat))
    ensures Indicators(src, beyond, frames + [f]) == Indicators(src, beyond, frames) + [IndicatorAt(src, beyond, f.0)]
  {
  }

  lemma BatchStep(src: seq<Byte>, beyond: nat -> Byte, before: seq<Indicator>, done: seq<(nat, nat)>, f: (nat, nat),
                  rest: seq<(nat, nat)>)
    ensures before + Indicators(src, beyond, done) + [IndicatorAt(src, beyond, f.0)]
      == before + Indicators(src, beyond, done + [f])
    ensures done + ([f] + rest) == done + [f] + rest
  {
    OneMoreIndicator(src, beyond, done, f);
  }

  lemma FramesEnd(src: seq<Byte>)
    ensures Frames(src, |src|) == ([], true)
  {
  }

  lemma CountAt(counts: map<Indicator, nat>, s: seq<Indicator>, x: Indicator)
    requires CountsOf(counts, s)
    ensures Occurrences(s, x) == if x in counts then counts[x] else 0
  {
  }

  lemma CountPosition(n: nat)
    ensures WindowStart(n) == n - n % WINDOW
    ensures (n + 1) % WINDOW == if n % WINDOW + 1 == WINDOW then 0 else n % WINDOW + 1
  {
  }

  lemma ExcessAtEnd(stream: seq<Indicator>)
    requires stream != []
    ensures var n := |stream| - 1;
      n % WINDOW <= n && (Excess(stream, n) <==> Occurrences(stream[n - n % WINDOW..], stream[n]) > THRESHOLD)
  {
    CountPosition(|stream| - 1);
    assert stream[WindowStart(|stream| - 1)..|stream|] == stream[WindowStart(|stream| - 1)..];
  }

  /** Counting one more chunk in a window that is not full. */
  lemma CountStep(counts: map<Indicator, nat>, counter: nat, stream: seq<Indicator>, x: Indicator)
    requires counter == |stream| % WINDOW && CountsOf(counts, stream[|stream| - counter..])
    ensures var counts' := counts[x := if x in counts then counts[x] + 1 else 1];
      && CountsOf(counts', (stream + [x])[|stream| - counter..])
      && (Excess(stream + [x], |stream|) <==> counts'[x] > THRESHOLD)
    ensures (|stream| + 1) % WINDOW == if counter + 1 == WINDOW then 0 else counter + 1
  {
    hide CountsOf, Excess, Occurrences;
    var window := stream[|stream| - counter..];
    var counts' := counts[x := if x in counts then counts[x] + 1 else 1];
    assert (stream + [x])[|stream| - counter..] == window + [x];
    CountsNext(counts, window, x);
    CountAt(counts', window + [x], x);
    ExcessAtEnd(stream + [x]);
    CountPosition(|stream|);
  }

  lemma NoIndicators(src: seq<Byte>, beyond: nat -> Byte)
    ensures Indicators(src, beyond, []) == []
  {
  }

  /** Excess looks backwards only. */
  lemma EarlierExcess(s: seq<Indicator>, x: Indicator)
    ensures forall i :: 0 <= i < |s| ==> (Excess(s + [x], i) <==> Excess(s, i))
  {
    forall i | 0 <= i < |s| ensures Excess(s + [x], i) <==> Excess(s, i) {
      assert (s + [x])[WindowStart(i)..i + 1] == s[WindowStart(i)..i + 1];
    }
  }

  lemma ExcessFromNext(s: seq<Indicator>, x: Indicator, n: nat)
    requires n <= |s|
    ensures ExcessFrom(s + [x], n) <==> ExcessFrom(s, n) || Excess(s + [x], |s|)
  {
    hide Excess;
    EarlierExcess(s, x);
    if i :| n <= i < |s| && Excess(s, i) {
      assert Excess(s + [x], i);
    }
  }

  lemma NoExcessYet(s: seq<Indicator>)
    ensures !ExcessFrom(s, |s|)
  {
  }

  /** The frequencies of one window; `order` is the order in which the table is walked. */
  ghost predicate Table(counts: map<Indicator, nat>, order: seq<Indicator>) {
    (forall i :: 0 <= i < |order| ==> order[i] in counts) && forall x :: x in counts ==> x in order
  }

  lemma NoCounts()
    ensures CountsOf(map[], []) && Table(map[], [])
  {
  }

  class PowEnclave {
    var prefixList: map<Indicator, nat>
    var prefixListCounter: nat
    /** The indicators of all chunks counted so far. */
    ghost var stream: seq<Indicator>

    ghost predicate Valid()
      reads this
    {
      && prefixListCounter == |stream| % WINDOW
      && CountsOf(prefixList, stream[|stream| - prefixListCounter..])
    }

    constructor ()
      ensures Valid() && stream == []
    {
      prefixList, prefixListCounter, stream := map[], 0, [];
    }

    /** Counts one chunk; true if it pushes its indicator past the threshold. */
    method Count(x: Indicator) returns (detected: bool)
      requires Valid()
      modifies this
      ensures Valid() && stream == old(stream) + [x]
      ensures detected <==> Excess(stream, |stream| - 1)
    {
      hide CountsOf, Excess, Occurrences;
      CountStep(prefixList, prefixListCounter, stream, x);
      prefixListCounter := prefixListCounter + 1;
      detected := false;
      if x !in prefixList {
        prefixList := prefixList[x := 1];
      } else {
        prefixList := prefixList[x := prefixList[x] + 1];
        if prefixList[x] > THRESHOLD {
          detected := true;
        }
      }
      stream := stream + [x];
      if prefixListCounter >= WINDOW {
        prefixList := map[];
        prefixListCounter := 0;
        NoCounts();
        assert stream[|stream|..] == [];
      }
    }

    /** One frame: counted, unless it is broken. */
    method NextChunk(src: seq<Byte>, beyond: nat -> Byte, offset: nat) returns (broken: bool, next: nat, detected: bool)
      requires Valid() && offset < |src|
      modifies this
      ensures Valid()
      ensures broken ==> Frames(src, offset) == ([], false) && stream == old(stream) && !detected
      ensures !broken ==>
        && offset + 4 <= next <= |src|
        && Frames(src, offset) == ([(offset + 4, next - offset - 4)] + Frames(src, next).0, Frames(src, next).1)
        && stream == old(stream) + [IndicatorAt(src, beyond, offset + 4)]
        && (detected <==> Excess(stream, |stream| - 1))
    {
      hide Excess, Size32, Valid;
      if |src| - offset < 4 {
        return true, offset, false;
      }
      var size := Size32(src[offset..offset + 4]);
      if |src| - (offset + 4) < size {
        return true, offset, false;
      }
      broken, next := false, offset + 4 + size;
      detected := Count(IndicatorAt(src, beyond, offset + 4));
    }

    /**
     A batch. The MAC is withheld if some chunk was detected or a frame is broken; a broken frame ends the batch, and
     what was counted before it stays counted.
     */
    method CalcMac(src: seq<Byte>, beyond: nat -> Byte) returns (ok: bool, flagged: bool)
      requires Valid()
      modifies this
      ensures Valid() && ok == Frames(src, 0).1
      ensures stream == old(stream) + Indicators(src, beyond, Frames(src, 0).0)
      ensures flagged <==> ExcessFrom(stream, |old(stream)|)
    {
      hide Excess, ExcessFrom, IndicatorAt, Valid, Indicators, Frames;
      ghost var frames, before := Frames(src, 0).0, stream;
      ghost var done: seq<(nat, nat)> := [];
      var offset: nat := 0;
      ok, flagged := true, false;
      NoIndicators(src, beyond);
      assert !ExcessFrom(stream, |before|) by { NoExcessYet(stream); }
      while offset < |src|
        invariant offset <= |src| && Valid() && ok
        invariant frames == done + Frames(src, offset).0 && Frames(src, 0).1 == Frames(src, offset).1
        invariant stream == before + Indicators(src, beyond, done)
        invariant flagged <==> ExcessFrom(stream, |before|)
        decreases |src| - offset
      {
        ghost var stream0 := stream;
        var broken, next, detected := NextChunk(src, beyond, offset);
        if broken {
          assert done + [] == done;
          return false, flagged;
        }
        ghost var f := (offset + 4, next - offset - 4);
        ExcessFromNext(stream0, IndicatorAt(src, beyond, offset + 4), |before|);
        BatchStep(src, beyond, before, done, f, Frames(src, next).0);
        flagged := flagged || detected;
        done := done + [f];
        offset := next;
      }
      FramesEnd(src);
      assert done + [] == done;
    }
  }

  // ---------------------------------------------------------------- the offline tool

  method MaxOfTable(counts: map<Indicator, nat>, order: seq<Indicator>, ghost window: seq<Indicator>)
    returns (maxFreq: nat)
    requires Table(counts, order) && CountsOf(counts, window)
    ensures IsMaxFrequency(maxFreq, window)
  {
    maxFreq := 0;
    for i := 0 to |order|
      invariant forall j :: 0 <= j < i ==> counts[order[j]] <= maxFreq
      invariant maxFreq > 0 ==> exists j :: 0 <= j < i && counts[order[j]] == maxFreq
    {
      if counts[order[i]] > maxFreq {
        maxFreq := counts[order[i]];
      }
    }
    forall x ensures Occurrences(window, x) <= maxFreq {
      if x in counts {
        assert x in order;
      }
    }
    if maxFreq > 0 {
      var j :| 0 <= j < |order| && counts[order[j]] == maxFreq;
      assert Occurrences(window, order[j]) == maxFreq;
    }
  }

  /** m is what the tool must report for window number k. */
  ghost predicate IsWindowMax(stream: seq<Indicator>, size: nat, k: nat, m: nat) {
    k * size <= |stream| && IsMaxFrequency(m, WindowOf(stream, size, k))
  }

  lemma WindowFilled(stream: seq<Indicator>, size: nat, k: nat, i: nat, m: nat)
    requires i < |stream| && size > 0 && i + 1 == k * size + size
    requires IsMaxFrequency(m, stream[k * size..i] + [stream[i]])
    ensures IsWindowMax(stream, size, k, m)
  {
    assert stream[k * size..i] + [stream[i]] == stream[k * size..i + 1];
  }

  lemma LastWindow(stream: seq<Indicator>, size: nat, k: nat, m: nat)
    requires k * size <= |stream| && (size > 0 ==> |stream| < k * size + size)
    requires IsMaxFrequency(m, stream[k * size..])
    ensures IsWindowMax(stream, size, k, m)
  {
  }

  lemma NextWindow(size: nat, k: nat)
    ensures (k + 1) * size == k * size + size
  {
  }

  method CountOne(counts: map<Indicator, nat>, order: seq<Indicator>, x: Indicator, ghost window: seq<Indicator>)
    returns (counts': map<Indicator, nat>, order': seq<Indicator>)
    requires Table(counts, order) && CountsOf(counts, window)
    ensures Table(counts', order') && CountsOf(counts', window + [x])
  {
    CountsNext(counts, window, x);
    counts' := counts[x := if x in counts then counts[x] + 1 else 1];
    order' := if x in counts then order else order + [x];
  }

  /** The largest frequency of every full window, and of the last one if it is not full. */
  method WindowCheck(stream: seq<Indicator>, windowSize: nat) returns (maxFreqs: seq<nat>)
    ensures if windowSize == 0 then |maxFreqs| == (if stream == [] then 0 else 1)
            else |stream| <= |maxFreqs| * windowSize < |stream| + windowSize
    ensures forall k :: 0 <= k < |maxFreqs| ==> IsWindowMax(stream, windowSize, k, maxFreqs[k])
  {
    hide IsMaxFrequency, CountsOf, Table, IsWindowMax;
    var counts: map<Indicator, nat>, order: seq<Indicator>, currentWindowCount: nat := map[], [], 0;
    maxFreqs := [];
    NoCounts();
    ghost var start := 0;
    assert stream[0..0] == [];
    for i := 0 to |stream|
      invariant start == |maxFreqs| * windowSize && i == start + currentWindowCount
      invariant if windowSize == 0 then maxFreqs == [] else currentWindowCount < windowSize
      invariant Table(counts, order) && CountsOf(counts, stream[start..i])
      invariant forall k :: 0 <= k < |maxFreqs| ==> IsWindowMax(stream, windowSize, k, maxFreqs[k])
    {
      ghost var window := stream[start..i];
      assert window + [stream[i]] == stream[start..i + 1];
      counts, order := CountOne(counts, order, stream[i], window);
      currentWindowCount := currentWindowCount + 1;
      if currentWindowCount == windowSize {
        var maxFreq := MaxOfTable(counts, order, window + [stream[i]]);
        WindowFilled(stream, windowSize, |maxFreqs|, i, maxFreq);
        NextWindow(windowSize, |maxFreqs|);
        maxFreqs, start := maxFreqs + [maxFreq], start + windowSize;
        counts, order, currentWindowCount := map[], [], 0;
        NoCounts();
        assert stream[i + 1..i + 1] == [];
      }
    }
    if currentWindowCount != 0 {
      assert stream[start..|stream|] == stream[start..];
      var maxFreq := MaxOfTable(counts, order, stream[start..]);
      LastWindow(stream, windowSize, |maxFreqs|, maxFreq);
      NextWindow(windowSize, |maxFreqs|);
      maxFreqs := maxFreqs + [maxFreq];
    }
  }

  /**
   Run with the enclave's window size, the tool reports a frequency above the threshold where the enclave triggers.
   */
  lemma ToolAgreesWithEnclave(stream: seq<Indicator>, k: nat, m: nat)
    requires IsWindowMax(stream, WINDOW, k, m)
    ensures m > THRESHOLD <==> exists i :: 0 <= i < |stream| && WindowStart(i) == k * WINDOW && Excess(stream, i)
  {
    WindowTriggersByMax(stream, k, m);
  }
}
