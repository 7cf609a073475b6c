/** The mel-statistics embedding: framing, filterbank, statistics and normalisation, over real numbers. */
module Embedding {
  import opened Common
  import opened MelBank
  import opened MelStatistics

  const HOP := 512
  const MIN_SAMPLES := 32000

  /** The numerics the embedding leans on: a Fourier transform's two parts, the window, and functions of one number. */
  datatype Numerics = Numerics(
    transform: seq<real> -> (seq<real>, seq<real>), window: seq<real>,
    log1p: real -> real, sqrt: real -> real, hzToMel: real -> real, melToHz: real -> real)

  ghost predicate Increasing(f: real -> real) { forall x, y :: x < y ==> f(x) < f(y) }

  ghost predicate Lawful(n: Numerics) {
    && |n.window| == WINDOW && IsRoot(n.sqrt) && Increasing(n.hzToMel) && Increasing(n.melToHz)
    && forall x :: |x| == WINDOW ==> |n.transform(x).0| == |n.transform(x).1| == WINDOW
  }

  const LO_HZ := 20.0
  const HI_HZ := 8000.0

  /** The `i`th of the points that part the mel scale evenly. */
  function MelPoint(n: Numerics, i: nat): real {
    var lo, hi := n.hzToMel(LO_HZ), n.hzToMel(HI_HZ);
    lo + (hi - lo) * i as real / (BANDS + 1) as real
  }

  /** The points run from the mels of 20 Hz to the mels of 8000 Hz, each as far from the next. */
  lemma MelPointsEven(n: Numerics, i: nat)
    ensures MelPoint(n, 0) == n.hzToMel(20.0) && MelPoint(n, 49) == n.hzToMel(8000.0)
    ensures MelPoint(n, i + 1) - MelPoint(n, i) == (n.hzToMel(8000.0) - n.hzToMel(20.0)) / 49.0
  {
    var width := n.hzToMel(HI_HZ) - n.hzToMel(LO_HZ);
    assert width * (i + 1) as real == width * i as real + width;
  }

  function Edges(n: Numerics): (edges: seq<real>)
    ensures |edges| == BANDS + 2
  {
    seq(BANDS + 2, i requires 0 <= i < BANDS + 2 => n.melToHz(MelPoint(n, i)))
  }

  lemma MelPointsRise(n: Numerics, i: nat, j: nat)
    requires Lawful(n) && i < j
    ensures MelPoint(n, i) < MelPoint(n, j)
  {
    var width := n.hzToMel(HI_HZ) - n.hzToMel(LO_HZ);
    assert width > 0.0;
    assert width * j as real - width * i as real == width * (j - i) as real;
    ProductSign(width, (j - i) as real, width * (j - i) as real);
  }

  /** Edges even on the mel scale rise on the scale of frequencies. */
  lemma EdgesRise(n: Numerics)
    requires Lawful(n)
    ensures Rising(Edges(n))
  {
    hide MelPoint;
    forall i, j | 0 <= i < j < BANDS + 2
      ensures Edges(n)[i] < Edges(n)[j]
    {
      MelPointsRise(n, i, j);
    }
  }

  /** The corners of a band's triangle. */
  function BandCorners(n: Numerics, b: nat): Corners
    requires b < BANDS
  {
    CornersAt(Edges(n), b)
  }

  lemma CornersProper(n: Numerics, b: nat)
    requires Lawful(n) && b < BANDS
    ensures Proper(BandCorners(n, b))
  {
    hide Edges;
    EdgesRise(n);
  }

  datatype EmbedError = TooFewSamples | Silent

  // --------------------------------------------------------------- what is to be computed

  function FrameCount(length: nat): (frames: nat)
    requires length >= MIN_SAMPLES
    ensures frames >= 2 && (frames - 1) * HOP + WINDOW <= length < frames * HOP + WINDOW
  {
    1 + (length - WINDOW) / HOP
  }

  function Windowed(n: Numerics, samples: seq<real>, f: nat): (w: seq<real>)
    requires |n.window| == WINDOW && f * HOP + WINDOW <= |samples|
    ensures |w| == WINDOW
  {
    seq(WINDOW, i requires 0 <= i < WINDOW => samples[f * HOP + i] * n.window[i])
  }

  /** A flat window leaves the samples as they are, and a frame begins 512 samples after the one before. */
  lemma FramesStep(n: Numerics, samples: seq<real>, f: nat)
    requires |n.window| == WINDOW && f * HOP + WINDOW <= |samples|
    ensures (forall k :: 0 <= k < WINDOW ==> n.window[k] == 1.0) ==> Windowed(n, samples, f) == samples[f * 512..f * 512 + 1024]
    ensures f > 0 ==> Windowed(n, samples, f) == Windowed(n, samples[512..], f - 1)
  {
    if forall k :: 0 <= k < WINDOW ==> n.window[k] == 1.0 {
      var slice := samples[f * 512..f * 512 + 1024];
      assert forall i :: 0 <= i < WINDOW ==> Windowed(n, samples, f)[i] == samples[f * HOP + i] == slice[i];
    }
    if f > 0 {
      var rest, later := samples[512..], (f - 1) * HOP;
      assert later + WINDOW <= |rest| && later + 512 == f * HOP;
      assert rest[later..later + WINDOW] == samples[f * HOP..f * HOP + WINDOW];
      SameFrame(n, samples, f, rest, f - 1);
    }
  }

  /** The window weighs each sample: a weight so many times as heavy brings so many times the sample. */
  lemma WindowWeighs(n: Numerics, m: Numerics, samples: seq<real>, f: nat, i: nat, times: real)
    requires |n.window| == |m.window| == WINDOW && f * HOP + WINDOW <= |samples| && i < WINDOW
    requires m.window[i] == times * n.window[i]
    ensures Windowed(m, samples, f)[i] == times * Windowed(n, samples, f)[i]
  {
    var x, w := samples[f * HOP + i], n.window[i];
    assert x * (times * w) == times * (x * w);
  }

  lemma SameFrame(n: Numerics, a: seq<real>, f: nat, b: seq<real>, g: nat)
    requires |n.window| == WINDOW && f * HOP + WINDOW <= |a| && g * HOP + WINDOW <= |b|
    requires a[f * HOP..f * HOP + WINDOW] == b[g * HOP..g * HOP + WINDOW]
    ensures Windowed(n, a, f) == Windowed(n, b, g)
  {
    forall i: nat | i < WINDOW
      ensures Windowed(n, a, f)[i] == Windowed(n, b, g)[i]
    {
      assert a[f * HOP..f * HOP + WINDOW][i] == b[g * HOP..g * HOP + WINDOW][i];
    }
  }

  function Power(n: Numerics, frame: seq<real>): (p: seq<real>)
    requires |n.transform(frame).0| == |n.transform(frame).1| == WINDOW
    ensures |p| == BINS
  {
    var (re, im) := n.transform(frame);
    seq(BINS, k requires 0 <= k < BINS => re[k] * re[k] + im[k] * im[k])
  }

  /** Power is blind to phase: turning a bin's two parts about by any angle leaves it, and of a single part it is the square. */
  lemma PhaseBlind(n: Numerics, m: Numerics, frame: seq<real>, k: nat, cos: real, sin: real)
    requires |n.transform(frame).0| == |n.transform(frame).1| == WINDOW
    requires |m.transform(frame).0| == |m.transform(frame).1| == WINDOW
    requires k < BINS && cos * cos + sin * sin == 1.0
    requires
      var re, im := n.transform(frame).0[k], n.transform(frame).1[k];
      m.transform(frame).0[k] == cos * re - sin * im && m.transform(frame).1[k] == sin * re + cos * im
    ensures Power(m, frame)[k] == Power(n, frame)[k]
    ensures n.transform(frame).1[k] == 0.0 ==> Power(n, frame)[k] == n.transform(frame).0[k] * n.transform(frame).0[k]
  {
    var re, im := n.transform(frame).0[k], n.transform(frame).1[k];
    Turned(re, im, cos, sin);
  }

  lemma Turned(re: real, im: real, cos: real, sin: real)
    requires cos * cos + sin * sin == 1.0
    ensures (cos * re - sin * im) * (cos * re - sin * im) + (sin * re + cos * im) * (sin * re + cos * im) == re * re + im * im
  {
    var a, b, c, d := cos * re, sin * im, sin * re, cos * im;
    assert (a - b) * (a - b) == a * a - 2.0 * (a * b) + b * b;
    assert (c + d) * (c + d) == c * c + 2.0 * (c * d) + d * d;
    assert a * b == (cos * sin) * (re * im) && c * d == (cos * sin) * (re * im);
    assert a * a == (cos * cos) * (re * re) && c * c == (sin * sin) * (re * re);
    assert b * b == (sin * sin) * (im * im) && d * d == (cos * cos) * (im * im);
    Distributed(cos * cos, sin * sin, re * re);
    Distributed(cos * cos, sin * sin, im * im);
  }

  lemma Distributed(a: real, b: real, x: real)
    requires a + b == 1.0
    ensures a * x + b * x == x
  {
    assert (a + b) * x == a * x + b * x;
  }

  /** The log-compressed energy of one band of one frame: the triangle against the frame's whole spectrum. */
  ghost function BandLevel(n: Numerics, samples: seq<real>, f: nat, b: nat): real
    requires Lawful(n) && f * HOP + WINDOW <= |samples| && b < BANDS
  {
    CornersProper(n, b);
    n.log1p(Filtered(BandCorners(n, b), Power(n, Windowed(n, samples, f)), BINS))
  }

  lemma FrameInside(f: nat, frames: nat, length: nat)
    requires f < frames && (frames - 1) * HOP + WINDOW <= length
    ensures f * HOP + WINDOW <= length
  {
  }

  ghost function Levels(n: Numerics, samples: seq<real>, b: nat): (xs: seq<real>)
    requires Lawful(n) && |samples| >= MIN_SAMPLES && b < BANDS
    ensures |xs| == FrameCount(|samples|)
  {
    seq(FrameCount(|samples|), f requires 0 <= f < FrameCount(|samples|) =>
      FrameInside(f, FrameCount(|samples|), |samples|);
      BandLevel(n, samples, f, b))
  }

  /** Every band's levels over the frames, and from them the four blocks of statistics. */
  ghost function StatisticsOf(n: Numerics, samples: seq<real>): (v: seq<real>)
    requires Lawful(n) && |samples| >= MIN_SAMPLES
    ensures |v| == DIMS
  {
    VectorOf(n.sqrt, seq(BANDS, b requires 0 <= b < BANDS => Levels(n, samples, b)))
  }

  // ------------------------------------------------------------------------ the embedder

  class Embedder {
    const numerics: Numerics
    var bands: seq<Band>
    const src: array<real>
    const power: array<real>

    ghost predicate Valid()
      reads this, src, power
    {
      && Lawful(numerics) && src.Length == WINDOW && power.Length == BINS && src != power && |bands| == BANDS
      && forall b :: 0 <= b < BANDS ==> Proper(BandCorners(numerics, b)) && IsBand(bands[b], BandCorners(numerics, b), BINS)
    }

    /** A band between each two edges that have one between them. */
    static method BuildBank(n: Numerics) returns (bank: seq<Band>)
      requires Lawful(n)
      ensures |bank| == BANDS && forall b :: 0 <= b < BANDS ==> Proper(BandCorners(n, b)) && IsBand(bank[b], BandCorners(n, b), BINS)
    {
      hide Lawful, IsBand, BandCorners, Proper;
      bank := [];
      for b := 0 to BANDS
        invariant |bank| == b
        invariant forall j :: 0 <= j < b ==> Proper(BandCorners(n, j)) && IsBand(bank[j], BandCorners(n, j), BINS)
      {
        CornersProper(n, b);
        var band := BuildBand(BandCorners(n, b), BINS);
        bank := bank + [band];
      }
    }

    constructor (n: Numerics)
      requires Lawful(n)
      ensures Valid() && numerics == n && fresh(src) && fresh(power)
    {
      hide Lawful, IsBand, BandCorners, Proper;
      numerics := n;
      src, power := new real[WINDOW](_ => 0.0), new real[BINS](_ => 0.0);
      bands := [];
      new;
      bands := BuildBank(n);
    }

    /** The power spectrum of one frame, through the buffers every frame shares. */
    method FramePower(samples: seq<real>, f: nat)
      requires Valid() && f * HOP + WINDOW <= |samples|
      modifies src, power
      ensures Valid() && power[..] == Power(numerics, Windowed(numerics, samples, f))
    {
      var base := f * HOP;
      for i := 0 to WINDOW
        invariant forall j :: 0 <= j < i ==> src[j] == Windowed(numerics, samples, f)[j]
      {
        src[i] := samples[base + i] * numerics.window[i];
      }
      assert src[..] == Windowed(numerics, samples, f);
      var (re, im) := numerics.transform(src[..]);
      for k := 0 to BINS
        invariant forall j :: 0 <= j < k ==> power[j] == Power(numerics, Windowed(numerics, samples, f))[j]
      {
        power[k] := re[k] * re[k] + im[k] * im[k];
      }
      assert power[..] == Power(numerics, Windowed(numerics, samples, f));
    }

    method BandEnergy(band: Band) returns (sum: real)
      requires power.Length == BINS && (band.weights != [] ==> 0 <= band.first && band.first + |band.weights| <= BINS)
      ensures sum == Energy(band, power[..], |band.weights|)
    {
      sum := 0.0;
      for i := 0 to |band.weights|
        invariant sum == Energy(band, power[..], i)
      {
        sum := sum + band.weights[i] * power[band.first + i];
      }
    }

    /** One frame's row of the matrix. */
    method Row(samples: seq<real>, f: nat) returns (row: seq<real>)
      requires Valid() && f * HOP + WINDOW <= |samples|
      modifies src, power
      ensures Valid() && |row| == BANDS
      ensures forall b :: 0 <= b < BANDS ==> row[b] == BandLevel(numerics, samples, f, b)
    {
      hide Energy, Filtered, IsBand, Power, Windowed, BandCorners;
      FramePower(samples, f);
      row := [];
      for b := 0 to BANDS
        invariant Valid() && power[..] == Power(numerics, Windowed(numerics, samples, f))
        invariant |row| == b && forall j :: 0 <= j < b ==> row[j] == BandLevel(numerics, samples, f, j)
      {
        BandFits(bands[b], BandCorners(numerics, b));
        var sum := BandEnergy(bands[b]);
        EnergyIsFiltered(bands[b], BandCorners(numerics, b), power[..]);
        row := row + [numerics.log1p(sum)];
      }
    }

    /**
     The embedding of some samples. Whatever the shared buffers held, it is the
     statistics of these samples and no others, scaled to length one; it is
     refused exactly for too few samples, and where all the statistics are zero.
     */
    method Embed(samples: seq<real>) returns (r: Result<seq<real>, EmbedError>)
      requires Valid()
      modifies src, power
      ensures Valid()
      ensures |samples| < MIN_SAMPLES ==> r == Err(TooFewSamples)
      ensures |samples| >= MIN_SAMPLES ==>
        var vec := StatisticsOf(numerics, samples);
        if forall i :: 0 <= i < DIMS ==> vec[i] == 0.0 then r == Err(Silent)
        else numerics.sqrt(SumSquares(vec)) > 0.0 && r == Ok(Scaled(vec, numerics.sqrt(SumSquares(vec))))
      ensures r.Ok? ==> |r.value| == DIMS && SumSquares(r.value) == 1.0
    {
      hide VectorOf, SumSquares, Scaled, Columns, Column, BandLevel, IsBand, BandCorners;
      if |samples| < MIN_SAMPLES {
        return Err(TooFewSamples);
      }
      var frames := FrameCount(|samples|);
      var mel: seq<real> := [];
      for f := 0 to frames
        invariant Valid() && |mel| == f * BANDS
        invariant forall g, b :: 0 <= g < f && 0 <= b < BANDS ==>
          g * HOP + WINDOW <= |samples| && mel[g * BANDS + b] == BandLevel(numerics, samples, g, b)
      {
        FrameInside(f, frames, |samples|);
        var row := Row(samples, f);
        mel := mel + row;
      }
      ColumnsAre(numerics, samples, mel);
      var vec := Statistics(numerics.sqrt, mel, frames);
      var out := Normalise(numerics.sqrt, vec);
      if out.None? {
        return Err(Silent);
      }
      return Ok(out.value);
    }
  }

  lemma BandFits(band: Band, c: Corners)
    requires Proper(c) && IsBand(band, c, BINS)
    ensures band.weights != [] ==> 0 <= band.first && band.first + |band.weights| <= BINS
  {
  }

  lemma ColumnsAre(n: Numerics, samples: seq<real>, mel: seq<real>)
    requires Lawful(n) && |samples| >= MIN_SAMPLES && |mel| == FrameCount(|samples|) * BANDS
    requires forall g, b :: 0 <= g < FrameCount(|samples|) && 0 <= b < BANDS ==>
      g * HOP + WINDOW <= |samples| && mel[g * BANDS + b] == BandLevel(n, samples, g, b)
    ensures VectorOf(n.sqrt, Columns(mel, FrameCount(|samples|))) == StatisticsOf(n, samples)
  {
    hide BandLevel, VectorOf;
    forall b | 0 <= b < BANDS
      ensures Column(mel, FrameCount(|samples|), b) == Levels(n, samples, b)
    {
    }
    assert Columns(mel, FrameCount(|samples|)) == seq(BANDS, b requires 0 <= b < BANDS => Levels(n, samples, b));
  }
}
