/**
 * FPerlinNoise: a 512-entry permutation table built by a Fisher-Yates
 * shuffle of 0..255 and written out twice, the 2-D gradient noise read
 * through it, and the fractal sum of that noise over octaves. The random
 * stream the constructor seeds with a constant is a parameter: draw(i)
 * stands for the stream's RandRange(0, i) and is reduced into [0, i].
 * Floats are reals; a division by a zero MaxValue (NaN or infinity in the
 * source) is None.
 */
module PerlinNoises {
  import opened Wrappers
  import opened UnrealMath

  /** The values 0, 1, …, n - 1 in order. */
  function Iota(n: nat): (r: seq<int>)
    ensures |r| == n
    ensures forall i :: 0 <= i < n ==> r[i] == i
  {
    seq(n, i => i)
  }

  /** Each of 0..n-1 occurs exactly once in Iota(n), and nothing else occurs. */
  lemma {:induction false} IotaOnce(n: nat, v: int)
    ensures multiset(Iota(n))[v] == if 0 <= v < n then 1 else 0
  {
    if n > 0 {
      IotaOnce(n - 1, v);
      assert Iota(n) == Iota(n - 1) + [n - 1];
    }
  }

  /** s with the entries at i and j exchanged. */
  function Swapped(s: seq<int>, i: int, j: int): (r: seq<int>)
    requires 0 <= i < |s| && 0 <= j < |s|
    ensures |r| == |s|
    ensures r[i] == s[j] && r[j] == s[i]
    ensures forall k :: 0 <= k < |s| && k != i && k != j ==> r[k] == s[k]
  {
    s[i := s[j]][j := s[i]]
  }

  /** A swap keeps the multiset of entries. */
  lemma SwappedPermutes(s: seq<int>, i: int, j: int)
    requires 0 <= i < |s| && 0 <= j < |s|
    ensures multiset(Swapped(s, i, j)) == multiset(s)
  {
  }

  /** The index RandRange(0, i) yields in round i. */
  function Pick(draw: int -> int, i: nat): (j: int)
    ensures 0 <= j <= i
  {
    draw(i) % (i + 1)
  }

  /** The shuffle's rounds i, i - 1, …, 1, each swapping entry k with the drawn entry Pick(draw, k). */
  function Shuffle(s: seq<int>, i: nat, draw: int -> int): (r: seq<int>)
    requires i < |s|
    ensures |r| == |s|
    decreases i
  {
    if i == 0 then s else Shuffle(Swapped(s, i, Pick(draw, i)), i - 1, draw)
  }

  /** Round i swaps and leaves rounds i - 1, …, 1 to go. */
  lemma ShuffleRound(s: seq<int>, i: nat, draw: int -> int)
    requires 0 < i < |s|
    ensures Shuffle(s, i, draw) == Shuffle(Swapped(s, i, Pick(draw, i)), i - 1, draw)
  {
  }

  /** Whatever the draws, the shuffle only rearranges the entries. */
  lemma {:induction false} ShufflePermutes(s: seq<int>, i: nat, draw: int -> int)
    requires i < |s|
    ensures multiset(Shuffle(s, i, draw)) == multiset(s)
    decreases i
  {
    if i > 0 {
      var s' := Swapped(s, i, Pick(draw, i));
      ShufflePermutes(s', i - 1, draw);
      SwappedPermutes(s, i, Pick(draw, i));
      calc {
        multiset(Shuffle(s, i, draw));
        multiset(Shuffle(s', i - 1, draw));
        multiset(s');
        multiset(s);
      }
    }
  }

  /** A finished table: 512 entries, the second half a copy of the first, the first half a permutation of 0..255. */
  ghost predicate IsTable(p: seq<int>)
  {
    |p| == 512
    && p[256..] == p[..256]
    && multiset(p[..256]) == multiset(Iota(256))
  }

  /** Every entry of a table lies in [0, 255], and each of 0..255 occurs once in each half. */
  lemma TableEntries(p: seq<int>)
    requires IsTable(p)
    ensures forall i :: 0 <= i < 512 ==> 0 <= p[i] < 256
    ensures forall v :: 0 <= v < 256 ==> multiset(p[..256])[v] == 1
  {
    forall i | 0 <= i < 512
      ensures 0 <= p[i] < 256
    {
      if i < 256 {
        assert p[i] == p[..256][i];
      } else {
        assert p[i] == p[256..][i - 256];
      }
      assert p[i] in multiset(p[..256]);
      IotaOnce(256, p[i]);
    }
    forall v | 0 <= v < 256
      ensures multiset(p[..256])[v] == 1
    {
      IotaOnce(256, v);
    }
  }

  /** The lattice cell of a coordinate, FloorToInt(x) & 255: in two's complement, the floor modulo 256. */
  function Cell(x: real): (r: int)
    ensures 0 <= r < 256
  {
    FloorToInt(x) % 256
  }

  /** Fade: the quintic 6t^5 - 15t^4 + 10t^3, which runs from 0 at t = 0 to 1 at t = 1. */
  function Fade(t: real): (r: real)
    ensures t == 0.0 ==> r == 0.0
    ensures t == 1.0 ==> r == 1.0
  {
    t * t * t * (t * (t * 6.0 - 15.0) + 10.0)
  }

  /** Lerp: a + t (b - a), which is a at t = 0 and b at t = 1. */
  function Lerp(t: real, a: real, b: real): (r: real)
    ensures t == 0.0 ==> r == a
    ensures t == 1.0 ==> r == b
  {
    a + t * (b - a)
  }

  /** For t in [0, 1] the blend lies between its two ends. */
  lemma LerpBetween(t: real, a: real, b: real)
    requires 0.0 <= t <= 1.0
    ensures Min(a, b) <= Lerp(t, a, b) <= Max(a, b)
  {
    BlendWithin(t, a, b);
  }

  /** Grad: the low two bits of the hash (Hash & 3) choose the gradient, dotted with (x, y). */
  function Grad(hash: int, x: real, y: real): (r: real)
    ensures Abs(r) <= Abs(x) + Abs(y)
  {
    var h := hash % 4;
    var u := if h < 2 then x else y;
    var v := if h < 2 then y else x;
    (if h % 2 == 1 then -u else u) + (if h >= 2 then -v else v)
  }

  /** The four gradients: x + y, y - x, y - x and -x - y for low bits 0, 1, 2 and 3. */
  lemma GradTable(hash: int, x: real, y: real)
    ensures hash % 4 == 0 ==> Grad(hash, x, y) == x + y
    ensures hash % 4 == 1 ==> Grad(hash, x, y) == y - x
    ensures hash % 4 == 2 ==> Grad(hash, x, y) == y - x
    ensures hash % 4 == 3 ==> Grad(hash, x, y) == -x - y
    ensures x == 0.0 && y == 0.0 ==> Grad(hash, x, y) == 0.0
  {
  }

  /**
   * Generate, read through the table p: the cell's four corner hashes, the
   * faded offsets inside the cell, the bilinear blend of the corner
   * gradients, and the map (n + 1) / 2.
   */
  function Noise(p: seq<int>, x: real, y: real): real
    requires IsTable(p)
  {
    CellNoise(p, Cell(x), Cell(y), x - FloorToInt(x) as real, y - FloorToInt(y) as real)
  }

  /** The noise inside lattice cell (xi, yi) at offset (xf, yf) from its corner. */
  function CellNoise(p: seq<int>, xi: int, yi: int, xf: real, yf: real): real
    requires IsTable(p) && 0 <= xi < 256 && 0 <= yi < 256
  {
    TableEntries(p);
    var u := Fade(xf);
    var v := Fade(yf);
    var a := p[xi] + yi;
    var b := p[xi + 1] + yi;
    var x1 := Lerp(u, Grad(p[a], xf, yf), Grad(p[b], xf - 1.0, yf));
    var x2 := Lerp(u, Grad(p[a + 1], xf, yf - 1.0), Grad(p[b + 1], xf - 1.0, yf - 1.0));
    (Lerp(v, x1, x2) + 1.0) * 0.5
  }

  /** Every table read Generate makes, at Xi, Xi + 1, A, A + 1, B and B + 1, lies in [0, 511]. */
  lemma CornerIndices(p: seq<int>, x: real, y: real)
    requires IsTable(p)
    ensures 0 <= Cell(x) && Cell(x) + 1 <= 511
    ensures 0 <= p[Cell(x)] + Cell(y) && p[Cell(x)] + Cell(y) + 1 <= 511
    ensures 0 <= p[Cell(x) + 1] + Cell(y) && p[Cell(x) + 1] + Cell(y) + 1 <= 511
  {
    TableEntries(p);
  }

  /** Shifting a real by a whole number shifts its floor by the same number. */
  lemma FloorShift(x: real, k: int)
    ensures FloorToInt(x + k as real) == FloorToInt(x) + k
  {
    var f := FloorToInt(x);
    assert (f + k) as real <= x + k as real < (f + k) as real + 1.0;
  }

  /** Lattice coordinates 256 apart share a cell. */
  lemma CellPeriod(f: int)
    ensures (f + 256) % 256 == f % 256
  {
  }

  /** At a lattice point every gradient is dotted with a zero offset, so the noise is exactly one half. */
  lemma NoiseAtLattice(p: seq<int>, i: int, j: int)
    requires IsTable(p)
    ensures Noise(p, i as real, j as real) == 0.5
  {
    FloorShift(0.0, i);
    FloorShift(0.0, j);
    assert i as real - FloorToInt(i as real) as real == 0.0;
    assert j as real - FloorToInt(j as real) as real == 0.0;
    TableEntries(p);
    var a := p[Cell(i as real)] + Cell(j as real);
    GradTable(p[a], 0.0, 0.0);
    assert CellNoise(p, Cell(i as real), Cell(j as real), 0.0, 0.0) == 0.5;
  }

  /** The noise repeats every 256 cells along each axis. */
  lemma NoisePeriodic(p: seq<int>, x: real, y: real)
    requires IsTable(p)
    ensures Noise(p, x + 256.0, y) == Noise(p, x, y)
    ensures Noise(p, x, y + 256.0) == Noise(p, x, y)
  {
    FloorShift(x, 256);
    FloorShift(y, 256);
    CellPeriod(FloorToInt(x));
    CellPeriod(FloorToInt(y));
    assert (x + 256.0) - FloorToInt(x + 256.0) as real == x - FloorToInt(x) as real;
    assert (y + 256.0) - FloorToInt(y + 256.0) as real == y - FloorToInt(y) as real;
  }

  /** p^k. */
  function Power(p: real, k: nat): real
  {
    if k == 0 then 1.0 else Power(p, k - 1) * p
  }

  /** The amplitudes of the first k octaves, 1, p, p^2, …: each octave scales the last by the persistence. */
  function Amplitudes(p: real, k: nat): (r: seq<real>)
    ensures |r| == k
  {
    if k == 0 then [] else Amplitudes(p, k - 1) + [Power(p, k - 1)]
  }

  /** The noise read through table t, as a function of the point. */
  ghost function NoiseOf(t: seq<int>): (real, real) -> real
  {
    (x: real, y: real) => if IsTable(t) then Noise(t, x, y) else 0.0
  }

  /** The samples of noise f for k octaves starting at the given frequency: each octave doubles the frequency of the one before. */
  function Samples(f: (real, real) -> real, x: real, y: real, frequency: real, k: nat): (r: seq<real>)
    ensures |r| == k
    decreases k
  {
    if k == 0 then [] else [f(x * frequency, y * frequency)] + Samples(f, x, y, frequency * 2.0, k - 1)
  }

  /** MaxValue: the sum of the first k amplitudes. */
  function Total(w: seq<real>, k: nat): real
    requires k <= |w|
  {
    if k == 0 then 0.0 else Total(w, k - 1) + w[k - 1]
  }

  /** Total: the sum of the first k samples, each weighed by its amplitude. */
  function Weighted(s: seq<real>, w: seq<real>, k: nat): real
    requires k <= |s| && k <= |w|
  {
    if k == 0 then 0.0 else Weighted(s, w, k - 1) + s[k - 1] * w[k - 1]
  }

  /** The normalised fractal sum of octave samples s: Total / MaxValue, None where MaxValue is zero. */
  function FbmOf(s: seq<real>, p: real): Option<real>
  {
    var w := Amplitudes(p, |s|);
    if Total(w, |s|) == 0.0 then None else Some(Weighted(s, w, |s|) / Total(w, |s|))
  }

  /** GenerateFBM over the table t: the normalised sum of max(Octaves, 0) octaves. */
  ghost function Fbm(t: seq<int>, x: real, y: real, octaves: int, p: real): Option<real>
    requires IsTable(t)
  {
    FbmOf(Samples(NoiseOf(t), x, y, 1.0, if octaves < 0 then 0 else octaves), p)
  }

  /** Amplitude i of the first k is p^i. */
  lemma {:induction false} AmplitudeAt(p: real, k: nat, i: nat)
    requires i < k
    ensures Amplitudes(p, k)[i] == Power(p, i)
  {
    if i < k - 1 {
      AmplitudeAt(p, k - 1, i);
    }
  }

  /** The sums read only the first k entries. */
  lemma {:induction false} SumsOfPrefix(s: seq<real>, w: seq<real>, s': seq<real>, w': seq<real>, k: nat)
    requires k <= |s| && k <= |w| && k <= |s'| && k <= |w'|
    requires forall i :: 0 <= i < k ==> s[i] == s'[i] && w[i] == w'[i]
    ensures Total(w, k) == Total(w', k) && Weighted(s, w, k) == Weighted(s', w', k)
  {
    if k > 0 {
      SumsOfPrefix(s, w, s', w', k - 1);
    }
  }

  /** One more octave adds its amplitude to MaxValue. */
  lemma AmplitudeStep(p: real, k: nat)
    ensures Total(Amplitudes(p, k + 1), k + 1) == Total(Amplitudes(p, k), k) + Power(p, k)
  {
    var w := Amplitudes(p, k);
    SumsOfPrefix(w + [Power(p, k)], w + [Power(p, k)], w, w, k);
  }

  /** One more octave adds its weighted sample to Total. */
  lemma WeightedStep(s: seq<real>, w: seq<real>, v: real, a: real)
    requires |s| == |w|
    ensures Weighted(s + [v], w + [a], |s| + 1) == Weighted(s, w, |s|) + v * a
  {
    SumsOfPrefix(s + [v], w + [a], s, w, |s|);
  }

  /** The geometric sum in closed form: (1 - p) MaxValue = 1 - p^k. */
  lemma {:induction false} AmplitudeClosedForm(p: real, k: nat)
    ensures (1.0 - p) * Total(Amplitudes(p, k), k) == 1.0 - Power(p, k)
  {
    if k > 0 {
      AmplitudeClosedForm(p, k - 1);
      AmplitudeStep(p, k - 1);
    }
  }

  /** With a non-negative persistence every amplitude is non-negative and MaxValue is at least 1 from the first octave on. */
  lemma {:induction false} AmplitudesPositive(p: real, k: nat)
    requires p >= 0.0
    ensures forall i :: 0 <= i < k ==> Amplitudes(p, k)[i] >= 0.0
    ensures k >= 1 ==> Total(Amplitudes(p, k), k) >= 1.0
  {
    if k > 0 {
      AmplitudesPositive(p, k - 1);
      PowerNonNegative(p, k - 1);
      AmplitudeStep(p, k - 1);
      if k == 1 {
        assert Power(p, 0) == 1.0;
      }
    }
  }

  /** p^k >= 0 for p >= 0. */
  lemma {:induction false} PowerNonNegative(p: real, k: nat)
    requires p >= 0.0
    ensures Power(p, k) >= 0.0
  {
    if k > 0 {
      PowerNonNegative(p, k - 1);
      MulMonotone(0.0, Power(p, k - 1), p);
    }
  }

  /** Samples that all lie in [lo, hi], under non-negative weights, add up to between lo and hi times the weights' sum. */
  lemma {:induction false} WeightedBetween(s: seq<real>, w: seq<real>, k: nat, lo: real, hi: real)
    requires k <= |s| && k <= |w|
    requires forall i :: 0 <= i < k ==> lo <= s[i] <= hi && w[i] >= 0.0
    ensures lo * Total(w, k) <= Weighted(s, w, k) <= hi * Total(w, k)
  {
    if k > 0 {
      WeightedBetween(s, w, k - 1, lo, hi);
      BetweenStep(lo, hi, Total(w, k - 1), w[k - 1], Total(w, k), Weighted(s, w, k), s[k - 1], Weighted(s, w, k - 1));
    }
  }

  /** Adding one weighted sample keeps the running sum between lo and hi times the running weight. */
  lemma BetweenStep(lo: real, hi: real, a: real, w: real, m: real, total: real, n: real, before: real)
    requires lo * a <= before <= hi * a && lo <= n <= hi && w >= 0.0
    requires m == a + w && total == before + n * w
    ensures lo * m <= total <= hi * m
  {
    MulMonotone(lo, n, w);
    MulMonotone(n, hi, w);
  }

  /**
   * Dividing by MaxValue normalises: for at least one octave and a
   * non-negative persistence the result lies within the range of the
   * octaves' samples.
   */
  lemma FbmBetween(s: seq<real>, p: real, lo: real, hi: real)
    requires |s| >= 1 && p >= 0.0
    requires forall i :: 0 <= i < |s| ==> lo <= s[i] <= hi
    ensures FbmOf(s, p).Some?
    ensures lo <= FbmOf(s, p).value <= hi
  {
    var w := Amplitudes(p, |s|);
    AmplitudesPositive(p, |s|);
    WeightedBetween(s, w, |s|, lo, hi);
    DivBetween(Weighted(s, w, |s|), Total(w, |s|), lo, hi);
  }

  /** After i of n octaves, GenerateFBM's loop has the samples that, followed by those of the octaves left at its current frequency, make all n. */
  ghost predicate SampledSoFar(f: (real, real) -> real, x: real, y: real, n: nat, i: nat, samples: seq<real>, frequency: real)
  {
    i <= n && samples + Samples(f, x, y, frequency, n - i) == Samples(f, x, y, 1.0, n)
  }

  /** The sums GenerateFBM's loop has built from the samples after i octaves, and the amplitude it has reached. */
  ghost predicate SummedSoFar(p: real, i: nat, samples: seq<real>, total: real, maxValue: real, amplitude: real)
  {
    |samples| == i
    && total == Weighted(samples, Amplitudes(p, i), i)
    && maxValue == Total(Amplitudes(p, i), i)
    && amplitude == Power(p, i)
  }

  /** Before GenerateFBM's loop: no samples yet, both sums zero, amplitude and frequency one. */
  lemma FbmStart(f: (real, real) -> real, x: real, y: real, n: nat, p: real)
    ensures SampledSoFar(f, x, y, n, 0, [], 1.0)
    ensures SummedSoFar(p, 0, [], 0.0, 0.0, 1.0)
  {
    assert [] + Samples(f, x, y, 1.0, n) == Samples(f, x, y, 1.0, n);
  }

  /** One round of GenerateFBM's loop samples the next octave. */
  lemma SampleNext(f: (real, real) -> real, x: real, y: real, n: nat, i: nat, samples: seq<real>, frequency: real,
                   sample: real, samples': seq<real>, frequency': real)
    requires i < n && SampledSoFar(f, x, y, n, i, samples, frequency)
    requires sample == f(x * frequency, y * frequency)
    requires samples' == samples + [sample] && frequency' == frequency * 2.0
    ensures SampledSoFar(f, x, y, n, i + 1, samples', frequency')
  {
    var rest := Samples(f, x, y, frequency', n - (i + 1));
    assert Samples(f, x, y, frequency, n - i) == [sample] + rest;
    assert samples + ([sample] + rest) == samples' + rest;
  }

  /** One octave of GenerateFBM on values: the sample at the current frequency extends both loop invariants. */
  lemma OctaveStep(t: seq<int>, x: real, y: real, persistence: real, n: nat, i: nat, samples: seq<real>,
                   total: real, maxValue: real, amplitude: real, frequency: real, sample: real)
    requires IsTable(t) && i < n
    requires SampledSoFar(NoiseOf(t), x, y, n, i, samples, frequency)
    requires SummedSoFar(persistence, i, samples, total, maxValue, amplitude)
    requires sample == Noise(t, x * frequency, y * frequency)
    ensures SampledSoFar(NoiseOf(t), x, y, n, i + 1, samples + [sample], frequency * 2.0)
    ensures SummedSoFar(persistence, i + 1, samples + [sample], total + sample * amplitude, maxValue + amplitude,
                        amplitude * persistence)
  {
    assert sample == NoiseOf(t)(x * frequency, y * frequency);
    SampleNext(NoiseOf(t), x, y, n, i, samples, frequency, sample, samples + [sample], frequency * 2.0);
    SumNext(persistence, i, samples, total, maxValue, amplitude, sample, samples + [sample], total + sample * amplitude,
            maxValue + amplitude, amplitude * persistence);
  }

  /** One round of GenerateFBM's loop adds the weighted sample and the amplitude. */
  lemma SumNext(p: real, i: nat, samples: seq<real>, total: real, maxValue: real, amplitude: real, sample: real,
                samples': seq<real>, total': real, maxValue': real, amplitude': real)
    requires SummedSoFar(p, i, samples, total, maxValue, amplitude)
    requires samples' == samples + [sample] && total' == total + sample * amplitude
    requires maxValue' == maxValue + amplitude && amplitude' == amplitude * p
    ensures SummedSoFar(p, i + 1, samples', total', maxValue', amplitude')
  {
    WeightedStep(samples, Amplitudes(p, i), sample, amplitude);
    AmplitudeStep(p, i);
  }

  /** After the loop, Total / MaxValue is the normalised sum. */
  lemma FbmDone(t: seq<int>, x: real, y: real, octaves: int, p: real, i: nat, samples: seq<real>,
                total: real, maxValue: real, amplitude: real, frequency: real)
    requires IsTable(t) && i == (if octaves < 0 then 0 else octaves)
    requires SampledSoFar(NoiseOf(t), x, y, i, i, samples, frequency) && SummedSoFar(p, i, samples, total, maxValue, amplitude)
    ensures Fbm(t, x, y, octaves, p) == if maxValue == 0.0 then None else Some(total / maxValue)
  {
    assert samples + [] == samples;
  }

  /** The constructor's first loop: entry i holds i. */
  method FillIota(a: array<int>)
    modifies a
    ensures a[..] == Iota(a.Length)
  {
    for i := 0 to a.Length
      invariant forall k :: 0 <= k < i ==> a[k] == k
    {
      a[i] := i;
    }
  }

  /** The shuffled values written to both halves make a table. */
  lemma TableOfShuffle(p: seq<int>, base: seq<int>, draw: int -> int)
    requires base == Shuffle(Iota(256), 255, draw)
    requires |p| == 512 && forall k :: 0 <= k < 256 ==> p[k] == base[k] && p[k + 256] == base[k]
    ensures IsTable(p) && p[..256] == base
  {
    ShufflePermutes(Iota(256), 255, draw);
    assert |base| == 256;
    assert p[..256] == base by {
      forall k | 0 <= k < 256 ensures p[..256][k] == base[k] {}
    }
    assert p[256..] == base by {
      forall k | 0 <= k < 256 ensures p[256..][k] == base[k] {}
    }
  }

  /** Exchanges entries i and j of a. */
  method SwapEntries(a: array<int>, i: int, j: int)
    requires 0 <= i < a.Length && 0 <= j < a.Length
    modifies a
    ensures a[..] == Swapped(old(a[..]), i, j)
  {
    a[i], a[j] := a[j], a[i];
  }

  /** The constructor's Fisher-Yates loop: for i from the top down to 1, swap entry i with entry RandRange(0, i). */
  method ShuffleInPlace(a: array<int>, draw: int -> int)
    requires a.Length > 0
    modifies a
    ensures a[..] == Shuffle(old(a[..]), a.Length - 1, draw)
  {
    ghost var target := Shuffle(a[..], a.Length - 1, draw);
    var i := a.Length - 1;
    while i > 0
      invariant 0 <= i < a.Length
      invariant Shuffle(a[..], i, draw) == target
    {
      ShuffleRound(a[..], i, draw);
      SwapEntries(a, i, Pick(draw, i));
      i := i - 1;
    }
  }

  /** The constructor's last loop: the 256 entries written to both halves of a new 512-entry table. */
  method Duplicate(base: array<int>) returns (p: array<int>)
    requires base.Length == 256
    ensures fresh(p) && p.Length == 512
    ensures forall k :: 0 <= k < 256 ==> p[k] == base[k] && p[k + 256] == base[k]
  {
    p := new int[512];
    for i := 0 to 256
      invariant forall k :: 0 <= k < i ==> p[k] == base[k] && p[k + 256] == base[k]
    {
      p[i] := base[i];
      p[256 + i] := base[i];
    }
  }

  class PerlinNoise {
    const permutation: array<int>

    /** The table is finished. */
    ghost predicate Valid()
      reads this, permutation
    {
      IsTable(permutation[..])
    }

    /** The constructor: 0..255, shuffled from the top down, then written to both halves of a 512-entry table. */
    constructor(draw: int -> int)
      ensures Valid() && fresh(permutation)
      ensures permutation[..256] == Shuffle(Iota(256), 255, draw)
    {
      var base := new int[256];
      FillIota(base);
      ShuffleInPlace(base, draw);
      assert base[..] == Shuffle(Iota(256), 255, draw);
      var p := Duplicate(base);
      TableOfShuffle(p[..], base[..], draw);
      permutation := p;
    }

    /** Generate. */
    function Generate(x: real, y: real): (r: real)
      reads this, permutation
      requires Valid()
      // one half at every lattice point
      ensures x == FloorToInt(x) as real && y == FloorToInt(y) as real ==> r == 0.5
    {
      if x == FloorToInt(x) as real && y == FloorToInt(y) as real then
        NoiseAtLattice(permutation[..], FloorToInt(x), FloorToInt(y));
        Noise(permutation[..], x, y)
      else
        Noise(permutation[..], x, y)
    }

    /** One round of GenerateFBM's loop: the noise at the current frequency, weighed by the current amplitude. */
    method Octave(x: real, y: real, persistence: real, ghost n: nat, ghost i: nat, ghost samples: seq<real>,
                  total: real, maxValue: real, amplitude: real, frequency: real)
      returns (sample: real, ghost samples': seq<real>, total': real, maxValue': real, amplitude': real, frequency': real)
      requires Valid() && i < n
      requires SampledSoFar(NoiseOf(permutation[..]), x, y, n, i, samples, frequency)
      requires SummedSoFar(persistence, i, samples, total, maxValue, amplitude)
      // the sample is the next of the n octave samples, taken at the current frequency
      ensures samples' == samples + [sample]
      ensures SampledSoFar(NoiseOf(permutation[..]), x, y, n, i + 1, samples', frequency')
      ensures SummedSoFar(persistence, i + 1, samples', total', maxValue', amplitude')
      ensures total' == total + sample * amplitude && maxValue' == maxValue + amplitude
      ensures amplitude' == amplitude * persistence && frequency' == frequency * 2.0
    {
      sample := Generate(x * frequency, y * frequency);
      samples' := samples + [sample];
      total' := total + sample * amplitude;
      maxValue' := maxValue + amplitude;
      amplitude' := amplitude * persistence;
      frequency' := frequency * 2.0;
      OctaveStep(permutation[..], x, y, persistence, n, i, samples, total, maxValue, amplitude, frequency, sample);
    }

    /** GenerateFBM: sums the octaves while doubling the frequency and scaling the amplitude, then divides by the summed amplitudes. */
    method GenerateFBM(x: real, y: real, octaves: int, persistence: real) returns (r: Option<real>)
      requires Valid()
      ensures r == Fbm(permutation[..], x, y, octaves, persistence)
    {
      var total := 0.0;
      var frequency := 1.0;
      var amplitude := 1.0;
      var maxValue := 0.0;
      var i := 0;
      ghost var t := permutation[..];
      ghost var samples := [];
      ghost var n := if octaves < 0 then 0 else octaves;
      FbmStart(NoiseOf(t), x, y, n, persistence);
      while i < octaves
        invariant 0 <= i <= n
        invariant SampledSoFar(NoiseOf(t), x, y, n, i, samples, frequency)
        invariant SummedSoFar(persistence, i, samples, total, maxValue, amplitude)
      {
        var sample;
        sample, samples, total, maxValue, amplitude, frequency := Octave(x, y, persistence, n, i, samples, total, maxValue, amplitude, frequency);
        i := i + 1;
      }
      FbmDone(t, x, y, octaves, persistence, i, samples, total, maxValue, amplitude, frequency);
      if maxValue == 0.0 {
        return None;
      }
      return Some(total / maxValue);
    }
  }
}
