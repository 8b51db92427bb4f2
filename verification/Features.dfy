/**
 Features of a chunk: the rolling fingerprints of all its windows but the last, modulo 2^64, and for each of twelve
 linear transforms the fingerprint that maximises it.
 */
module Features {
  import opened Bytes
  import opened CircularIndex
  import opened RollingHash

  const WINDOW: nat := 64
  const BASE: nat := 257
  const LOW_RANGE: nat := 0x1_0000_0000
  const FEATURE_NUMBER: nat := 12
  const M_SET: seq<nat> := [3433, 3449, 3457, 3461, 3463, 3467, 3469, 3491, 3499, 3511, 3517, 3527]
  const A_SET: seq<nat> := [3083, 3089, 3109, 3119, 3121, 3137, 3163, 3167, 3169, 3181, 3187, 3191]

  /** The fingerprint of a window. */
  function Fingerprint(w: seq<Byte>): nat {
    Wrap(Poly(BASE, w))
  }

  /** The windows whose fingerprints are listed: the last window of the chunk is not among them. */
  function Fingerprints(chunk: seq<Byte>): (r: seq<nat>)
    ensures |r| == if |chunk| <= WINDOW then 0 else |chunk| - WINDOW
    ensures forall k :: 0 <= k < |r| ==> r[k] == Fingerprint(chunk[k..k + WINDOW])
  {
    seq<nat>(if |chunk| <= WINDOW then 0 else |chunk| - WINDOW,
      k requires 0 <= k < |chunk| - WINDOW => Fingerprint(chunk[k..k + WINDOW]))
  }

  function Transform(m: nat, a: nat, fp: nat): (r: nat)
    ensures r < LOW_RANGE
  {
    Wrap(m * fp + a) % LOW_RANGE
  }

  /** The low half of the linear transform: cutting it to 64 bits first makes no difference. */
  lemma TransformIsLinear(m: nat, a: nat, fp: nat)
    ensures Transform(m, a, fp) < LOW_RANGE && Congruent(Transform(m, a, fp), m * fp + a, LOW_RANGE)
  {
    var x := m * fp + a;
    var r := Transform(m, a, fp);
    var k := x / WORD * LOW_RANGE + x % WORD / LOW_RANGE;
    assert r - x == -k * LOW_RANGE;
    CongruentBy(r, x, LOW_RANGE, -k);
  }

  // ---------------------------------------------------------------- the rolling computation

  /** The value while the first n bytes of the window are in. */
  ghost predicate Filled(w: seq<Byte>, fp: nat) {
    |w| <= WINDOW && fp < WORD && Congruent(fp, Poly(BASE, w) * Pow(BASE, WINDOW - |w|), WORD)
  }

  lemma WrapCongruent(x: int, y: int)
    requires Congruent(x, y, WORD)
    ensures Congruent(Wrap(x), y, WORD)
  {
    CongruentMod(x, WORD, 1);
    CongruentTrans(Wrap(x), x, y, WORD);
  }

  lemma FillKeeps(w: seq<Byte>, fp: nat, b: Byte, power: nat)
    requires Filled(w, fp) && |w| < WINDOW && Congruent(power, Pow(BASE, WINDOW - |w| - 1), WORD)
    ensures Filled(w + [b], Wrap(fp + power * b as nat))
  {
    hide Congruent, Poly, Pow;
    var n := WINDOW - |w| - 1;
    CongruentTimes(power, Pow(BASE, n), b as int, WORD);
    CongruentSum(fp, Poly(BASE, w) * Pow(BASE, n + 1), power * b as int, Pow(BASE, n) * b as int, WORD);
    PolyAppends(BASE, w, b, n);
    WrapCongruent(fp + power * b as nat, Poly(BASE, w + [b]) * Pow(BASE, n));
  }

  lemma FilledIsFingerprint(w: seq<Byte>, fp: nat)
    requires Filled(w, fp) && |w| == WINDOW
    ensures fp == Fingerprint(w)
  {
    CongruentEqual(fp, Poly(BASE, w), WORD);
  }

  lemma SlideArithmetic(fp: nat, poly: int, remove: nat, drop: int, b: nat)
    requires fp == Wrap(poly) && Congruent(remove, -drop, WORD)
    ensures Wrap((fp + remove) * BASE + b) == Wrap((poly - drop) * BASE + b)
  {
    hide Congruent;
    CongruentMod(poly, WORD, 1);
    CongruentSum(fp, poly, remove, -drop, WORD);
    CongruentTimes(fp + remove, poly - drop, BASE, WORD);
    CongruentSelf(b, WORD);
    var sum, target := (fp + remove) * BASE + b, (poly - drop) * BASE + b;
    CongruentSum((fp + remove) * BASE, (poly - drop) * BASE, b, b, WORD);
    WrapCongruent(sum, target);
    CongruentEqual(Wrap(sum), target, WORD);
  }

  lemma SlideIsFingerprint(w: seq<Byte>, fp: nat, remove: nat, b: Byte)
    requires |w| == WINDOW && fp == Fingerprint(w)
    requires Congruent(remove, -(w[0] as int * Pow(BASE, WINDOW - 1)), WORD)
    ensures Wrap((fp + remove) * BASE + b as nat) == Fingerprint(w[1..] + [b])
  {
    hide Congruent;
    PolySlides(BASE, w, b);
    SlideArithmetic(fp, Poly(BASE, w), remove, w[0] as int * Pow(BASE, WINDOW - 1), b as nat);
  }

  ghost predicate TablesOk(powerLUT: seq<nat>, removeLUT: seq<nat>) {
    && |powerLUT| == WINDOW && (forall i :: 0 <= i < WINDOW ==> Congruent(powerLUT[i], Pow(BASE, i), WORD))
    && |removeLUT| == 256 && forall v: Byte :: Congruent(removeLUT[v], -(v as int * Pow(BASE, WINDOW - 1)), WORD)
  }

  /** The two's complement that the table holds is the negative value modulo 2^64. */
  lemma RemoveEntry(v: nat, power: nat, p: int)
    requires Congruent(power, p, WORD)
    ensures var r := Wrap(v * power); Congruent(if r != 0 then Wrap(WORD - 1 - r + 1) else r, -(v * p), WORD)
  {
    var r := Wrap(v * power);
    CongruentTimes(power, p, v, WORD);
    WrapCongruent(power * v, p * v);
    assert power * v == v * power && p * v == v * p;
    var q :| r - v * p == q * WORD;
    if r != 0 {
      assert Wrap(WORD - 1 - r + 1) == WORD - r;
      CongruentBy(WORD - r, -(v * p), WORD, 1 - q);
    } else {
      assert (-q) * WORD == -(q * WORD);
      CongruentBy(0, -(v * p), WORD, -q);
    }
  }

  lemma PowerEntry(previous: nat, i: nat)
    requires i > 0 && Congruent(previous, Pow(BASE, i - 1), WORD)
    ensures Congruent(Wrap(previous * BASE), Pow(BASE, i), WORD)
  {
    hide Congruent;
    CongruentTimes(previous, Pow(BASE, i - 1), BASE, WORD);
    WrapCongruent(previous * BASE, Pow(BASE, i - 1) * BASE);
    assert Pow(BASE, i - 1) * BASE == Pow(BASE, i);
  }

  method BuildPowers() returns (powerLUT: seq<nat>)
    ensures |powerLUT| == WINDOW && forall i :: 0 <= i < WINDOW ==> Congruent(powerLUT[i], Pow(BASE, i), WORD)
  {
    powerLUT := [1];
    CongruentSelf(1, WORD);
    for i := 1 to WINDOW
      invariant |powerLUT| == i && forall j :: 0 <= j < i ==> Congruent(powerLUT[j], Pow(BASE, j), WORD)
    {
      hide Congruent, Pow, Wrap;
      PowerEntry(powerLUT[i - 1], i);
      powerLUT := powerLUT + [Wrap(powerLUT[i - 1] * BASE)];
    }
  }

  method BuildRemoves(powerLUT: seq<nat>) returns (removeLUT: seq<nat>)
    requires |powerLUT| == WINDOW && forall i :: 0 <= i < WINDOW ==> Congruent(powerLUT[i], Pow(BASE, i), WORD)
    ensures TablesOk(powerLUT, removeLUT)
  {
    hide Congruent, Pow, Wrap;
    removeLUT := [];
    for i := 0 to 256
      invariant |removeLUT| == i
      invariant forall v: Byte :: v as int < i ==> Congruent(removeLUT[v], -(v as int * Pow(BASE, WINDOW - 1)), WORD)
    {
      RemoveEntry(i, powerLUT[WINDOW - 1], Pow(BASE, WINDOW - 1));
      var r := Wrap(i * powerLUT[WINDOW - 1]);
      if r != 0 {
        r := Wrap(WORD - 1 - r + 1);
      }
      removeLUT := removeLUT + [r];
    }
  }

  lemma NothingFilled()
    ensures Filled([], 0)
  {
    assert 0 * Pow(BASE, WINDOW) == 0;
    CongruentSelf(0, WORD);
  }

  /** The value of the first window, or of as much of it as there is. */
  method FillWindow(powerLUT: seq<nat>, ghost removeLUT: seq<nat>, chunk: seq<Byte>) returns (winFp: nat)
    requires TablesOk(powerLUT, removeLUT)
    ensures |chunk| >= WINDOW ==> winFp == Fingerprint(chunk[..WINDOW])
  {
    hide Filled, Congruent, Wrap, Pow;
    var cnt: nat := 0;
    winFp := 0;
    NothingFilled();
    assert chunk[..0] == [];
    while cnt < |chunk| && cnt < WINDOW
      invariant cnt <= |chunk| && cnt <= WINDOW && Filled(chunk[..cnt], winFp)
      decreases WINDOW - cnt
    {
      FillKeeps(chunk[..cnt], winFp, chunk[cnt], powerLUT[WINDOW - cnt - 1]);
      assert chunk[..cnt] + [chunk[cnt]] == chunk[..cnt + 1];
      winFp := Wrap(winFp + powerLUT[WINDOW - cnt - 1] * chunk[cnt] as nat);
      cnt := cnt + 1;
    }
    if cnt == WINDOW {
      FilledIsFingerprint(chunk[..WINDOW], winFp);
    }
  }

  /** j is the first place where the transform is largest. */
  ghost predicate FirstMax(j: nat, m: nat, a: nat, fps: seq<nat>) {
    && j < |fps|
    && (forall k :: 0 <= k < j ==> Transform(m, a, fps[k]) < Transform(m, a, fps[j]))
    && forall k :: j < k < |fps| ==> Transform(m, a, fps[k]) <= Transform(m, a, fps[j])
  }

  /** The first fingerprint with the largest transform; 0 if all transforms are 0, or there are none. */
  ghost predicate IsFeature(f: nat, m: nat, a: nat, fps: seq<nat>) {
    if forall k :: 0 <= k < |fps| ==> Transform(m, a, fps[k]) == 0 then f == 0
    else exists j: nat :: FirstMax(j, m, a, fps) && f == fps[j]
  }

  method MaxFp(m: nat, a: nat, fpList: seq<nat>) returns (targetFp: nat)
    ensures IsFeature(targetFp, m, a, fpList)
  {
    var maxPi := 0;
    targetFp := 0;
    ghost var best: nat := 0;
    for j := 0 to |fpList|
      invariant forall k :: 0 <= k < j ==> Transform(m, a, fpList[k]) <= maxPi
      invariant maxPi == 0 ==> targetFp == 0
      invariant maxPi > 0 ==> best < j && targetFp == fpList[best] && Transform(m, a, targetFp) == maxPi
      invariant maxPi > 0 ==> forall k :: 0 <= k < best ==> Transform(m, a, fpList[k]) < maxPi
    {
      var pi := Transform(m, a, fpList[j]);
      if maxPi < pi {
        maxPi := pi;
        targetFp := fpList[j];
        best := j;
      }
    }
    if maxPi > 0 {
      assert FirstMax(best, m, a, fpList);
    }
  }

  class FeatureGen {
    var powerLUT: seq<nat>
    var removeLUT: seq<nat>

    ghost predicate Valid()
      reads this
    {
      TablesOk(powerLUT, removeLUT)
    }

    constructor ()
      ensures Valid()
    {
      var powers := BuildPowers();
      var removes := BuildRemoves(powers);
      powerLUT, removeLUT := powers, removes;
    }

    method FingerprintList(chunk: seq<Byte>) returns (fpList: seq<nat>)
      requires Valid()
      ensures fpList == Fingerprints(chunk)
    {
      var winFp := FillWindow(powerLUT, removeLUT, chunk);
      var cnt := if |chunk| < WINDOW then |chunk| else WINDOW;
      fpList := [];
      while cnt < |chunk|
        invariant cnt <= |chunk| && |fpList| == (if cnt < WINDOW then 0 else cnt - WINDOW)
        invariant cnt < |chunk| ==> cnt >= WINDOW
        invariant cnt >= WINDOW ==> winFp == Fingerprint(chunk[cnt - WINDOW..cnt])
        invariant forall k :: 0 <= k < |fpList| ==> fpList[k] == Fingerprint(chunk[k..k + WINDOW])
      {
        hide Fingerprint, Congruent, Wrap, Pow;
        var v := chunk[cnt - WINDOW];
        ghost var w := chunk[cnt - WINDOW..cnt];
        SlideIsFingerprint(w, winFp, removeLUT[v], chunk[cnt]);
        assert w[1..] + [chunk[cnt]] == chunk[cnt + 1 - WINDOW..cnt + 1];
        fpList := fpList + [winFp];
        winFp := Wrap((winFp + removeLUT[v]) * BASE + chunk[cnt] as nat);
        cnt := cnt + 1;
      }
    }

    method GetFeatureList(chunk: seq<Byte>) returns (featureList: seq<nat>)
      requires Valid()
      ensures |featureList| == FEATURE_NUMBER
      ensures forall i :: 0 <= i < FEATURE_NUMBER ==> IsFeature(featureList[i], M_SET[i], A_SET[i], Fingerprints(chunk))
    {
      hide IsFeature;
      var fpList := FingerprintList(chunk);
      featureList := [];
      for i := 0 to FEATURE_NUMBER
        invariant |featureList| == i
        invariant forall j :: 0 <= j < i ==> IsFeature(featureList[j], M_SET[j], A_SET[j], fpList)
      {
        var targetFp := MaxFp(M_SET[i], A_SET[i], fpList);
        featureList := featureList + [targetFp];
      }
    }
  }

  lemma FeatureIsUnique(f: nat, g: nat, m: nat, a: nat, fps: seq<nat>)
    requires IsFeature(f, m, a, fps) && IsFeature(g, m, a, fps)
    ensures f == g
  {
    hide Transform;
    if !(forall k :: 0 <= k < |fps| ==> Transform(m, a, fps[k]) == 0) {
      var i: nat :| FirstMax(i, m, a, fps) && f == fps[i];
      var j: nat :| FirstMax(j, m, a, fps) && g == fps[j];
      assert i == j;
    }
  }

  // ---------------------------------------------------------------- edits

  /**
   Window k of x + v + y meets v, or the seam where v is empty. At the end of a chunk the window before v counts too,
   because whether it is listed depends on v.
   */
  predicate Touches(k: nat, x: seq<Byte>, v: seq<Byte>, y: seq<Byte>) {
    (k + WINDOW > |x| || (y == [] && k + WINDOW == |x|)) && k < |x| + |v|
  }

  /** A window clear of the edit has the same fingerprint before and after it, in its old or its shifted place. */
  lemma ClearWindow(x: seq<Byte>, u: seq<Byte>, v: seq<Byte>, y: seq<Byte>, k: nat)
    requires k < |Fingerprints(x + v + y)| && !Touches(k, x, v, y)
    ensures var k' := if k + WINDOW <= |x| then k else k - |v| + |u|;
      0 <= k' < |Fingerprints(x + u + y)| && !Touches(k', x, u, y)
        && Fingerprints(x + u + y)[k'] == Fingerprints(x + v + y)[k]
  {
    hide Fingerprint;
    if k + WINDOW <= |x| {
      assert (x + v + y)[k..k + WINDOW] == x[k..k + WINDOW] == (x + u + y)[k..k + WINDOW];
    } else {
      var d := k - |x| - |v|;
      assert (x + v + y)[k..k + WINDOW] == y[d..d + WINDOW] == (x + u + y)[k - |v| + |u|..k - |v| + |u| + WINDOW];
    }
  }

  /**
   Replacing u by v inside a chunk leaves a feature alone if the window it came from is clear of the edit and every new
   window that touches the edit has a smaller transform.
   */
  lemma EditKeepsFeature(x: seq<Byte>, u: seq<Byte>, v: seq<Byte>, y: seq<Byte>, m: nat, a: nat, j: nat, f: nat)
    requires FirstMax(j, m, a, Fingerprints(x + u + y)) && Transform(m, a, Fingerprints(x + u + y)[j]) > 0
    requires !Touches(j, x, u, y)
    requires forall k :: 0 <= k < |Fingerprints(x + v + y)| && Touches(k, x, v, y) ==>
      Transform(m, a, Fingerprints(x + v + y)[k]) < Transform(m, a, Fingerprints(x + u + y)[j])
    requires IsFeature(f, m, a, Fingerprints(x + v + y))
    ensures f == Fingerprints(x + u + y)[j]
  {
    hide Transform, Fingerprints;
    var fps, fps' := Fingerprints(x + u + y), Fingerprints(x + v + y);
    ClearWindow(x, v, u, y, j);
    var j' := if j + WINDOW <= |x| then j else j - |u| + |v|;
    forall k | 0 <= k < |fps'|
      ensures Transform(m, a, fps'[k]) <= Transform(m, a, fps[j])
      ensures k < j' ==> Transform(m, a, fps'[k]) < Transform(m, a, fps[j])
    {
      if !Touches(k, x, v, y) {
        ClearWindow(x, u, v, y, k);
      }
    }
    assert FirstMax(j', m, a, fps');
    FeatureIsUnique(f, fps'[j'], m, a, fps');
  }
}
