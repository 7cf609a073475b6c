/** The triangular filterbank of the mel-statistics embedding, over real numbers. */
module MelBank {
  import opened Common

  const WINDOW := 1024
  const BINS := 513
  const BANDS := 48
  const BIN_HZ: real := 15.625

  function Hz(k: int): real { k as real * BIN_HZ }

  /** A band as its first bin, -1 where it has none, and a weight for each consecutive bin. */
  datatype Band = Band(first: int, weights: seq<real>)

  /** A triangle's three corners. */
  datatype Corners = Corners(lo: real, centre: real, hi: real)

  predicate Proper(c: Corners) { c.lo < c.centre < c.hi }

  predicate Inside(c: Corners, f: real) { c.lo < f < c.hi }

  /** The triangle itself, zero outside its corners. */
  function Triangle(c: Corners, f: real): real
    requires Proper(c)
  {
    if f <= c.lo || f >= c.hi then 0.0
    else if f <= c.centre then (f - c.lo) / (c.centre - c.lo)
    else (c.hi - f) / (c.hi - c.centre)
  }

  /** Every bin inside the triangle, and no other, has its weight at its own place. */
  ghost predicate IsBand(band: Band, c: Corners, bins: nat)
    requires Proper(c)
  {
    && (band.weights == [] ==> band.first == -1)
    && (band.weights != [] ==> 0 <= band.first && band.first + |band.weights| <= bins)
    && (forall k :: 0 <= k < bins ==> (Inside(c, Hz(k)) <==> band.first <= k < band.first + |band.weights|))
    && forall i :: 0 <= i < |band.weights| ==> band.weights[i] == Triangle(c, Hz(band.first + i))
  }

  /** Bins between two that lie inside lie inside too. */
  lemma NoGap(c: Corners, i: int, j: int, k: int)
    requires i <= j <= k && Inside(c, Hz(i)) && Inside(c, Hz(k))
    ensures Inside(c, Hz(j))
  {
  }

  /** One pass over the bins. The weights come out side by side because a triangle's bins do. */
  method BuildBand(c: Corners, bins: nat) returns (band: Band)
    requires Proper(c)
    ensures IsBand(band, c, bins)
  {
    hide Hz, Triangle;
    band := Band(-1, []);
    for k := 0 to bins
      invariant IsBand(band, c, k)
    {
      var f := Hz(k);
      if f <= c.lo || f >= c.hi {
        continue;
      }
      if band.weights != [] {
        NoGap(c, band.first, k - 1, k);
      }
      band := Band(if band.first < 0 then k else band.first, band.weights + [Triangle(c, f)]);
    }
  }

  lemma RatioBetween(a: real, b: real)
    requires 0.0 < a <= b
    ensures 0.0 < a / b <= 1.0
  {
    var q := a / b;
    assert q * b == a;
    assert q <= 0.0 ==> q * b <= 0.0;
    assert q > 1.0 ==> (q - 1.0) * b > 0.0;
  }

  lemma WeightsBetween(c: Corners, f: real)
    requires Proper(c)
    ensures 0.0 <= Triangle(c, f) <= 1.0 && (Inside(c, f) <==> Triangle(c, f) > 0.0)
  {
    if Inside(c, f) {
      if f <= c.centre {
        RatioBetween(f - c.lo, c.centre - c.lo);
      } else {
        RatioBetween(c.hi - f, c.hi - c.centre);
      }
    }
  }

  /** The triangle is nought at its corners and one at its centre, and its sides are straight. */
  lemma SidesAreStraight(c: Corners, f: real)
    requires Proper(c)
    ensures Triangle(c, c.lo) == 0.0 && Triangle(c, c.centre) == 1.0 && Triangle(c, c.hi) == 0.0
    ensures c.lo <= f <= c.centre ==> Triangle(c, f) * (c.centre - c.lo) == f - c.lo
    ensures c.centre <= f <= c.hi ==> Triangle(c, f) * (c.hi - c.centre) == c.hi - f
  {
    Divided(c.centre - c.lo, c.centre - c.lo);
    Divided(f - c.lo, c.centre - c.lo);
    Divided(c.hi - f, c.hi - c.centre);
  }

  lemma Divided(a: real, b: real)
    requires b > 0.0
    ensures a / b * b == a && (a == b ==> a / b == 1.0)
  {
  }

  ghost predicate Rising(edges: seq<real>) { forall i, j :: 0 <= i < j < |edges| ==> edges[i] < edges[j] }

  function CornersAt(edges: seq<real>, b: nat): Corners
    requires b + 2 < |edges|
  {
    Corners(edges[b], edges[b + 1], edges[b + 2])
  }

  /** Between the first centre and the last, two neighbouring triangles share every frequency out in full. */
  lemma BandsShareOut(edges: seq<real>, b: nat, f: real)
    requires Rising(edges) && b + 3 < |edges| && edges[b + 1] <= f <= edges[b + 2]
    ensures Triangle(CornersAt(edges, b), f) + Triangle(CornersAt(edges, b + 1), f) == 1.0
  {
    var before, lo, hi := edges[b], edges[b + 1], edges[b + 2];
    Shares(f - lo, hi - f, hi - lo);
    Shares(lo - before, 0.0, lo - before);
  }

  lemma OthersVanish(edges: seq<real>, b: nat, f: real, other: nat)
    requires Rising(edges) && b + 3 < |edges| && edges[b + 1] <= f <= edges[b + 2]
    requires other + 2 < |edges| && other != b && other != b + 1
    ensures Triangle(CornersAt(edges, other), f) == 0.0
  {
    if other < b {
      assert edges[other + 2] <= edges[b + 1];
    } else {
      assert edges[b + 2] <= edges[other];
    }
  }

  lemma Shares(a: real, b: real, c: real)
    requires a + b == c > 0.0
    ensures a / c + b / c == 1.0
  {
    assert (a + b) / c == 1.0;
  }

  // ------------------------------------------------------------------------ band energy

  /** The weighted power of the first `n` bins of a band. */
  function Energy(band: Band, power: seq<real>, n: nat): real
    requires n <= |band.weights| && (band.weights != [] ==> 0 <= band.first && band.first + |band.weights| <= |power|)
  {
    if n == 0 then 0.0 else Energy(band, power, n - 1) + band.weights[n - 1] * power[band.first + n - 1]
  }

  /** The triangle against the whole spectrum. */
  function Filtered(c: Corners, power: seq<real>, bins: nat): real
    requires Proper(c) && bins <= |power|
  {
    if bins == 0 then 0.0 else Filtered(c, power, bins - 1) + Triangle(c, Hz(bins - 1)) * power[bins - 1]
  }

  /** A band's stored weights do what its triangle does over the whole spectrum. */
  lemma {:induction false} EnergyUpTo(band: Band, c: Corners, power: seq<real>, bins: nat)
    requires Proper(c) && IsBand(band, c, |power|) && bins <= |power|
    ensures Filtered(c, power, bins) ==
      Energy(band, power, if band.weights == [] || bins <= band.first then 0 else Min(bins - band.first, |band.weights|))
    decreases bins
  {
    hide Hz, Triangle;
    if bins > 0 {
      EnergyUpTo(band, c, power, bins - 1);
      OutsideIsZero(c, Hz(bins - 1));
      var i := bins - 1 - band.first;
      if Inside(c, Hz(bins - 1)) {
        assert band.weights[i] == Triangle(c, Hz(band.first + i));
      }
    }
  }

  lemma OutsideIsZero(c: Corners, f: real)
    requires Proper(c)
    ensures !Inside(c, f) ==> Triangle(c, f) == 0.0
  {
  }

  lemma EnergyIsFiltered(band: Band, c: Corners, power: seq<real>)
    requires Proper(c) && IsBand(band, c, |power|)
    ensures Energy(band, power, |band.weights|) == Filtered(c, power, |power|)
  {
    EnergyUpTo(band, c, power, |power|);
  }
}
