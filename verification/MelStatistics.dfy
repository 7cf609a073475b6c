/** The embedding's per-band statistics and its normalisation, over real numbers. */
module MelStatistics {
  import opened Common
  import opened MelBank

  const DIMS := 192

  // -------------------------------------------------------------------- sums and spread

  lemma ProductSign(a: real, b: real, r: real)
    requires a > 0.0 && b > 0.0 && r == a * b
    ensures r > 0.0
  {
  }

  lemma SquareSign(x: real, r: real)
    requires r == x * x
    ensures x == 0.0 ==> r == 0.0
    ensures x != 0.0 ==> r > 0.0
  {
    if x > 0.0 {
      ProductSign(x, x, r);
    } else if x < 0.0 {
      ProductSign(-x, -x, r);
    }
  }

  function Square(x: real): (r: real)
    ensures x == 0.0 ==> r == 0.0
    ensures x != 0.0 ==> r > 0.0
  {
    var r := x * x;
    SquareSign(x, r);
    r
  }

  function Sum(xs: seq<real>): real { if xs == [] then 0.0 else Sum(xs[..|xs| - 1]) + xs[|xs| - 1] }

  function SumSquares(xs: seq<real>): real {
    if xs == [] then 0.0 else SumSquares(xs[..|xs| - 1]) + Square(xs[|xs| - 1])
  }

  /** How far a sample strays from a centre, squared and summed. */
  function Strays(xs: seq<real>, centre: real): real {
    if xs == [] then 0.0
    else Strays(xs[..|xs| - 1], centre) + Square(xs[|xs| - 1] - centre)
  }

  function Mean(xs: seq<real>): real
    requires xs != []
  {
    Sum(xs) / |xs| as real
  }

  /** The population variance: the mean squared distance from the mean. */
  function Variance(xs: seq<real>): real
    requires xs != []
  {
    Strays(xs, Mean(xs)) / |xs| as real
  }

  lemma LastStep(xs: seq<real>, c: real)
    requires xs != []
    ensures
      var n := |xs| - 1;
      && Sum(xs) == Sum(xs[..n]) + xs[n] && SumSquares(xs) == SumSquares(xs[..n]) + Square(xs[n])
      && Strays(xs, c) == Strays(xs[..n], c) + Square(xs[n] - c)
  {
  }

  lemma {:induction false} StraysExpand(xs: seq<real>, c: real)
    ensures Strays(xs, c) == SumSquares(xs) - 2.0 * c * Sum(xs) + |xs| as real * (c * c)
    ensures Strays(xs, c) >= 0.0
    decreases |xs|, 1
  {
    if xs == [] {
      assert 2.0 * c * 0.0 == 0.0 && 0.0 * (c * c) == 0.0;
    } else {
      StraysExpandStep(xs, c);
    }
  }

  lemma {:induction false} StraysExpandStep(xs: seq<real>, c: real)
    requires xs != []
    ensures Strays(xs, c) == SumSquares(xs) - 2.0 * c * Sum(xs) + |xs| as real * (c * c)
    ensures Strays(xs, c) >= 0.0
    decreases |xs|, 0
  {
    hide Sum, SumSquares, Strays;
    var n := |xs| - 1;
    StraysExpand(xs[..n], c);
    LastStep(xs, c);
    ExpandStep(xs[n], c, Sum(xs[..n]), SumSquares(xs[..n]), n as real, Strays(xs[..n], c));
    assert |xs| as real == n as real + 1.0;
  }

  lemma ExpandStep(x: real, c: real, s: real, q: real, n: real, strays: real)
    requires strays == q - 2.0 * c * s + n * (c * c)
    ensures strays + Square(x - c) == (q + Square(x)) - 2.0 * c * (s + x) + (n + 1.0) * (c * c)
  {
    assert (x - c) * (x - c) == x * x - 2.0 * c * x + c * c;
    assert (n + 1.0) * (c * c) == n * (c * c) + c * c;
    assert 2.0 * c * (s + x) == 2.0 * c * s + 2.0 * c * x;
  }

  lemma DivideTerms(q: real, m: real, n: real, s: real, strays: real)
    requires n > 0.0 && m * n == s && strays == q - 2.0 * m * s + n * (m * m)
    ensures q / n - Square(m) == strays / n
  {
    var r := q / n;
    assert r * n == q;
    assert 2.0 * m * s == 2.0 * (m * m) * n && n * (m * m) == (m * m) * n;
    assert strays == (r - m * m) * n;
    Cancel(r - m * m, n);
  }

  lemma Cancel(a: real, n: real)
    requires n != 0.0
    ensures (a * n) / n == a
  {
  }

  /** The sum-of-squares form of the variance is the variance, and never negative, so its clamp changes nothing. */
  lemma {:induction false} ClampIsIdle(xs: seq<real>)
    requires xs != []
    ensures SumSquares(xs) / |xs| as real - Square(Mean(xs)) == Variance(xs) >= 0.0
  {
    hide Sum, SumSquares, Strays;
    var n, m := |xs| as real, Mean(xs);
    StraysExpand(xs, m);
    QuotientTimes(Sum(xs), n);
    DivideTerms(SumSquares(xs), m, n, Sum(xs), Strays(xs, m));
    QuotientSign(Strays(xs, m), n);
  }

  lemma QuotientTimes(a: real, n: real)
    requires n != 0.0
    ensures (a / n) * n == a
  {
  }

  lemma QuotientSign(a: real, n: real)
    requires a >= 0.0 && n > 0.0
    ensures a / n >= 0.0
  {
    var q := a / n;
    assert q * n == a;
    assert q < 0.0 ==> q * n < 0.0;
  }

  // ------------------------------------------------------------------------- the deltas

  function Deltas(xs: seq<real>): (d: seq<real>)
    ensures |d| == if xs == [] then 0 else |xs| - 1
  {
    seq(if xs == [] then 0 else |xs| - 1, i requires 0 <= i && xs != [] && i < |xs| - 1 => xs[i + 1] - xs[i])
  }

  lemma DeltasSnoc(xs: seq<real>)
    requires |xs| >= 2
    ensures Deltas(xs) == Deltas(xs[..|xs| - 1]) + [xs[|xs| - 1] - xs[|xs| - 2]]
  {
  }

  /** The frame-to-frame changes telescope. */
  lemma {:induction false} DeltasTelescope(xs: seq<real>)
    requires xs != []
    ensures Sum(Deltas(xs)) == xs[|xs| - 1] - xs[0]
  {
    if |xs| > 1 {
      DeltasTelescope(xs[..|xs| - 1]);
      DeltasSnoc(xs);
    }
  }

  // ----------------------------------------------------------------------- the vector

  /** The square root, of which only this is used. */
  ghost predicate IsRoot(sqrt: real -> real) { forall x :: x >= 0.0 ==> sqrt(x) >= 0.0 && Square(sqrt(x)) == x }

  /** Means, deviations, delta means and delta deviations, a block of each. */
  function VectorOf(sqrt: real -> real, columns: seq<seq<real>>): (v: seq<real>)
    requires |columns| == BANDS && forall b :: 0 <= b < BANDS ==> |columns[b]| >= 2
    ensures |v| == DIMS
  {
    seq(DIMS, i requires 0 <= i < DIMS =>
      if i < BANDS then Mean(columns[i])
      else if i < 2 * BANDS then sqrt(Variance(columns[i - BANDS]))
      else if i < 3 * BANDS then
        var xs := columns[i - 2 * BANDS];
        (xs[|xs| - 1] - xs[0]) / (|xs| - 1) as real
      else sqrt(Variance(Deltas(columns[i - 3 * BANDS]))))
  }

  /** One band's column of the frame-major matrix. */
  function Column(mel: seq<real>, frames: nat, b: nat): (c: seq<real>)
    requires b < BANDS && |mel| == frames * BANDS
    ensures |c| == frames
  {
    seq(frames, f requires 0 <= f < frames => mel[f * BANDS + b])
  }

  function Columns(mel: seq<real>, frames: nat): (c: seq<seq<real>>)
    requires |mel| == frames * BANDS
    ensures |c| == BANDS && forall b :: 0 <= b < BANDS ==> |c[b]| == frames
  {
    seq(BANDS, b requires 0 <= b < BANDS => Column(mel, frames, b))
  }

  function Clamped(x: real): real { if x > 0.0 then x else 0.0 }

  /** A band's mean and deviation, by two running sums over the frames. */
  method Moments(sqrt: real -> real, xs: seq<real>) returns (mean: real, spread: real)
    requires xs != []
    ensures mean == Mean(xs) && spread == sqrt(Variance(xs))
  {
    hide Variance, Square;
    var sum, sumSq := 0.0, 0.0;
    for f := 0 to |xs|
      invariant sum == Sum(xs[..f]) && sumSq == SumSquares(xs[..f])
    {
      assert xs[..f + 1][..f] == xs[..f];
      sum := sum + xs[f];
      sumSq := sumSq + Square(xs[f]);
    }
    assert xs[..|xs|] == xs;
    mean := sum / |xs| as real;
    ClampIsIdle(xs);
    spread := sqrt(Clamped(sumSq / |xs| as real - Square(mean)));
  }

  /** The same of the frame-to-frame changes, which are not kept. */
  method DeltaMoments(sqrt: real -> real, xs: seq<real>) returns (mean: real, spread: real)
    requires |xs| >= 2
    ensures mean == (xs[|xs| - 1] - xs[0]) / (|xs| - 1) as real && spread == sqrt(Variance(Deltas(xs)))
  {
    hide Variance, Square;
    var dn := (|xs| - 1) as real;
    var dSum, dSumSq := 0.0, 0.0;
    ghost var deltas := Deltas(xs);
    for f := 1 to |xs|
      invariant dSum == Sum(deltas[..f - 1]) && dSumSq == SumSquares(deltas[..f - 1])
    {
      var d := xs[f] - xs[f - 1];
      assert deltas[..f][..f - 1] == deltas[..f - 1] && deltas[f - 1] == d;
      dSum := dSum + d;
      dSumSq := dSumSq + Square(d);
    }
    assert deltas[..|deltas|] == deltas;
    DeltasTelescope(xs);
    mean := dSum / dn;
    assert |deltas| as real == dn && mean == Mean(deltas);
    ClampIsIdle(deltas);
    spread := sqrt(Clamped(dSumSq / dn - Square(mean)));
  }

  method BandStatistics(sqrt: real -> real, xs: seq<real>) returns (mean: real, spread: real, dMean: real, dSpread: real)
    requires |xs| >= 2
    ensures mean == Mean(xs) && spread == sqrt(Variance(xs))
    ensures dMean == (xs[|xs| - 1] - xs[0]) / (|xs| - 1) as real && dSpread == sqrt(Variance(Deltas(xs)))
  {
    mean, spread := Moments(sqrt, xs);
    dMean, dSpread := DeltaMoments(sqrt, xs);
  }

  /** Every band's four numbers, each at its own place in its own block. */
  method Statistics(sqrt: real -> real, mel: seq<real>, frames: nat) returns (vec: seq<real>)
    requires |mel| == frames * BANDS && frames >= 2
    ensures vec == VectorOf(sqrt, Columns(mel, frames))
  {
    hide VectorOf, Columns, Placed, Mean, Variance, Deltas, Column;
    var v := new real[DIMS](_ => 0.0);
    ghost var goal := VectorOf(sqrt, Columns(mel, frames));
    NothingPlaced(v[..], goal);
    for b := 0 to BANDS
      invariant Placed(v[..], goal, b)
    {
      var m, s, dm, ds := BandStatistics(sqrt, Column(mel, frames, b));
      BandPlaces(sqrt, mel, frames, b);
      PlaceBand(v[..], goal, b);
      v[b], v[BANDS + b], v[2 * BANDS + b], v[3 * BANDS + b] := m, s, dm, ds;
    }
    AllPlaced(v[..], goal);
    return v[..];
  }

  /** The first `b` places of every block are filled as they should be. */
  ghost predicate Placed(v: seq<real>, goal: seq<real>, b: nat) {
    |v| == |goal| == DIMS && forall i :: 0 <= i < DIMS && i % BANDS < b ==> v[i] == goal[i]
  }

  lemma NothingPlaced(v: seq<real>, goal: seq<real>)
    requires |v| == |goal| == DIMS
    ensures Placed(v, goal, 0)
  {
  }

  lemma PlaceBand(v: seq<real>, goal: seq<real>, b: nat)
    requires Placed(v, goal, b) && b < BANDS
    ensures Placed(
      v[b := goal[b]][BANDS + b := goal[BANDS + b]][2 * BANDS + b := goal[2 * BANDS + b]][3 * BANDS + b := goal[3 * BANDS + b]],
      goal, b + 1)
  {
  }

  lemma AllPlaced(v: seq<real>, goal: seq<real>)
    requires Placed(v, goal, BANDS)
    ensures v == goal
  {
  }

  lemma BandPlaces(sqrt: real -> real, mel: seq<real>, frames: nat, b: nat)
    requires |mel| == frames * BANDS && frames >= 2 && b < BANDS
    ensures
      var v, xs := VectorOf(sqrt, Columns(mel, frames)), Column(mel, frames, b);
      && v[b] == Mean(xs) && v[BANDS + b] == sqrt(Variance(xs))
      && v[2 * BANDS + b] == (xs[|xs| - 1] - xs[0]) / (|xs| - 1) as real && v[3 * BANDS + b] == sqrt(Variance(Deltas(xs)))
  {
    hide Mean, Variance, Column, Deltas;
  }

  // ------------------------------------------------------------------- normalisation

  lemma {:induction false} SquaresVanish(v: seq<real>)
    ensures SumSquares(v) >= 0.0
    ensures SumSquares(v) == 0.0 <==> forall i :: 0 <= i < |v| ==> v[i] == 0.0
  {
    hide Square;
    if v != [] {
      var n := |v| - 1;
      SquaresVanish(v[..n]);
      assert forall i :: 0 <= i < n ==> v[..n][i] == v[i];
    }
  }

  function Scaled(v: seq<real>, norm: real): seq<real>
    requires norm != 0.0
  {
    seq(|v|, i requires 0 <= i < |v| => v[i] / norm)
  }

  lemma {:induction false} ScaledSquares(v: seq<real>, norm: real)
    requires norm != 0.0
    ensures SumSquares(Scaled(v, norm)) * Square(norm) == SumSquares(v)
  {
    hide Square;
    if v != [] {
      var n := |v| - 1;
      ScaledSquares(v[..n], norm);
      assert Scaled(v, norm)[..n] == Scaled(v[..n], norm);
      SquareOfQuotient(v[n], norm);
      Distribute(SumSquares(Scaled(v[..n], norm)), Square(v[n] / norm), Square(norm));
    }
  }

  lemma Distribute(a: real, b: real, c: real)
    ensures (a + b) * c == a * c + b * c
  {
  }

  lemma SquareOfQuotient(x: real, norm: real)
    requires norm != 0.0
    ensures Square(x / norm) * Square(norm) == Square(x)
  {
    var q := x / norm;
    QuotientTimes(x, norm);
    assert (q * q) * (norm * norm) == (q * norm) * (q * norm);
  }

  lemma CancelProduct(a: real, s: real)
    requires s > 0.0 && a * s == s
    ensures a == 1.0
  {
    assert (a - 1.0) * s == a * s - s == 0.0 && (1.0 - a) * s == s - a * s == 0.0;
    if a > 1.0 {
      ProductSign(a - 1.0, s, 0.0);
    } else if a < 1.0 {
      ProductSign(1.0 - a, s, 0.0);
    }
  }

  lemma UnitLength(v: seq<real>, norm: real)
    requires Square(norm) == SumSquares(v)
    ensures norm == 0.0 <==> SumSquares(v) == 0.0
    ensures norm != 0.0 ==> SumSquares(Scaled(v, norm)) == 1.0
  {
    hide SumSquares, Square;
    if norm != 0.0 {
      ScaledSquares(v, norm);
      CancelProduct(SumSquares(Scaled(v, norm)), Square(norm));
    }
  }

  /** A vector is refused exactly when it is all zeros; one that is returned has length one. */
  method Normalise(sqrt: real -> real, vec: seq<real>) returns (out: Option<seq<real>>)
    requires IsRoot(sqrt)
    ensures out.None? <==> forall i :: 0 <= i < |vec| ==> vec[i] == 0.0
    ensures out.Some? ==> |out.value| == |vec| && SumSquares(out.value) == 1.0
    ensures out.Some? ==> sqrt(SumSquares(vec)) > 0.0 && out.value == Scaled(vec, sqrt(SumSquares(vec)))
  {
    hide Square;
    var norm := 0.0;
    for i := 0 to |vec|
      invariant norm == SumSquares(vec[..i])
    {
      assert vec[..i + 1][..i] == vec[..i];
      norm := norm + Square(vec[i]);
    }
    assert vec[..|vec|] == vec;
    SquaresVanish(vec);
    norm := sqrt(norm);
    UnitLength(vec, norm);
    if norm == 0.0 {
      return None;
    }
    return Some(Scaled(vec, norm));
  }
}
