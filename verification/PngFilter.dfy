/**
 Scanline filtering as the brand generator's PNG writer does it, and as its
 reader undoes it: sections 6.2 to 6.6 of RFC 2083, with 8-bit samples and
 `ch` bytes to a pixel.
 */
module PngFilter {
  import opened Common

  datatype FilterError = IndexError | UnknownFilter

  // ---------------------------------------------------------------- one byte

  /** A byte of a row, where the row is taken to be zero left of its start. */
  function At(row: Bytes, x: int): byte
    requires x < |row|
  {
    if x < 0 then 0 else row[x]
  }

  /** Whichever of left, above and upper left is nearest left + above - upper left, ties in that order. */
  function Paeth(a: byte, b: byte, c: byte): byte {
    var p := a + b - c;
    var pa, pb, pc := Abs(p - a), Abs(p - b), Abs(p - c);
    if pa <= pb && pa <= pc then a else if pb <= pc then b else c
  }

  /** The five predictors: None, Sub, Up, Average, Paeth. */
  function Predict(kind: nat, a: byte, b: byte, c: byte): byte
    requires kind <= 4
  {
    match kind
    case 0 => 0
    case 1 => a
    case 2 => b
    case 3 => (a + b) / 2
    case _ => Paeth(a, b, c)
  }

  // ----------------------------------------------------------------- one row

  function Prediction(kind: nat, line: Bytes, prior: Bytes, ch: nat, x: nat): byte
    requires kind <= 4 && ch > 0 && x <= |line| && x < |prior|
  {
    Predict(kind, At(line, x - ch), prior[x], At(prior, x - ch))
  }

  /** What the writer emits for a row: each byte less its prediction, modulo 256. */
  function FilterRow(kind: nat, line: Bytes, prior: Bytes, ch: nat): (r: Bytes)
    requires kind <= 4 && ch > 0 && |line| <= |prior|
    ensures |r| == |line|
  {
    seq(|line|, x requires 0 <= x < |line| => (line[x] - Prediction(kind, line, prior, ch, x)) % 256)
  }

  /** Of three bytes the one that lies nearest to `p`, and where several do the first of them. */
  ghost predicate FirstNearest(p: int, a: byte, b: byte, c: byte, r: byte) {
    && (r == a || r == b || r == c)
    && Abs(p - r) <= Abs(p - a) && Abs(p - r) <= Abs(p - b) && Abs(p - r) <= Abs(p - c)
    && (r != a ==> Abs(p - r) < Abs(p - a))
    && (r != a && r != b ==> Abs(p - r) < Abs(p - b))
  }

  /** What section 6 of RFC 2083 asks of a prediction from the bytes to the left, above and above left. */
  ghost predicate Predicts(kind: nat, left: byte, above: byte, corner: byte, r: byte) {
    match kind
    case 0 => r == 0
    case 1 => r == left
    case 2 => r == above
    case 3 => 2 * r <= left + above < 2 * r + 2
    case 4 => FirstNearest(left + above - corner, left, above, corner, r)
    case _ => false
  }

  /** The predictors are the standard's: each gives the one byte its rule allows. */
  lemma PredictorsAreStandard(kind: nat, left: byte, above: byte, corner: byte, r: byte)
    requires kind <= 4
    ensures Predicts(kind, left, above, corner, r) <==> r == Predict(kind, left, above, corner)
  {
  }

  /** The rule for one byte: what the residual took off was the standard's prediction, with zeros left of the row. */
  ghost predicate ReconstructsAt(kind: nat, filtered: Bytes, prior: Bytes, ch: nat, recon: Bytes, x: nat)
    requires x < |filtered| <= |prior| && |recon| == |filtered|
  {
    var left: byte := if x < ch then 0 else recon[x - ch];
    var corner: byte := if x < ch then 0 else prior[x - ch];
    var residual: int := filtered[x];
    Predicts(kind, left, prior[x], corner, (recon[x] - residual) % 256)
  }

  /** RFC 2083's reconstruction rule, as an equation the recovered row satisfies at every byte. */
  ghost predicate Reconstructs(kind: nat, filtered: Bytes, prior: Bytes, ch: nat, recon: Bytes)
    requires |filtered| <= |prior|
  {
    |recon| == |filtered| && forall x :: 0 <= x < |filtered| ==> ReconstructsAt(kind, filtered, prior, ch, recon, x)
  }

  /** The same, with the predictor the program computes. */
  ghost predicate Rebuilds(kind: nat, filtered: Bytes, prior: Bytes, ch: nat, recon: Bytes)
    requires kind <= 4 && ch > 0 && |filtered| <= |prior|
  {
    |recon| == |filtered| &&
    forall x :: 0 <= x < |filtered| ==>
      recon[x] == (filtered[x] + Prediction(kind, recon, prior, ch, x)) % 256
  }

  lemma RebuildsAt(kind: nat, filtered: Bytes, prior: Bytes, ch: nat, recon: Bytes, x: nat)
    requires kind <= 4 && ch > 0 && x < |filtered| <= |prior| && |recon| == |filtered|
    ensures ReconstructsAt(kind, filtered, prior, ch, recon, x) <==>
      recon[x] == (filtered[x] + Prediction(kind, recon, prior, ch, x)) % 256
  {
    hide Predict, Predicts;
    var left, corner := At(recon, x - ch), At(prior, x - ch);
    var pred: int, residual: int := Prediction(kind, recon, prior, ch, x), filtered[x];
    PredictorsAreStandard(kind, left, prior[x], corner, (recon[x] - residual) % 256);
    assert recon[x] == (residual + pred) % 256 <==> pred == (recon[x] - residual) % 256;
  }

  lemma RebuildsIsStandard(kind: nat, filtered: Bytes, prior: Bytes, ch: nat, recon: Bytes)
    requires kind <= 4 && ch > 0 && |filtered| <= |prior|
    ensures Reconstructs(kind, filtered, prior, ch, recon) <==> Rebuilds(kind, filtered, prior, ch, recon)
  {
    hide ReconstructsAt, Prediction;
    if |recon| == |filtered| {
      forall x: nat | x < |filtered|
        ensures ReconstructsAt(kind, filtered, prior, ch, recon, x) <==>
          recon[x] == (filtered[x] + Prediction(kind, recon, prior, ch, x)) % 256
      {
        RebuildsAt(kind, filtered, prior, ch, recon, x);
      }
    }
  }

  /** The row that satisfies it, built left to right. */
  function UnfilterRow(kind: nat, filtered: Bytes, prior: Bytes, ch: nat): (recon: Bytes)
    requires kind <= 4 && ch > 0 && |filtered| <= |prior|
    ensures |recon| == |filtered|
  {
    if filtered == [] then []
    else
      var n := |filtered| - 1;
      var front := UnfilterRow(kind, filtered[..n], prior, ch);
      front + [(filtered[n] + Prediction(kind, front, prior, ch, n)) % 256]
  }

  lemma {:induction false} UnfilterRowRebuilds(kind: nat, filtered: Bytes, prior: Bytes, ch: nat)
    requires kind <= 4 && ch > 0 && |filtered| <= |prior|
    ensures Rebuilds(kind, filtered, prior, ch, UnfilterRow(kind, filtered, prior, ch))
  {
    if filtered != [] {
      var n := |filtered| - 1;
      var front, recon := UnfilterRow(kind, filtered[..n], prior, ch), UnfilterRow(kind, filtered, prior, ch);
      UnfilterRowRebuilds(kind, filtered[..n], prior, ch);
      forall x | 0 <= x < |filtered|
        ensures recon[x] == (filtered[x] + Prediction(kind, recon, prior, ch, x)) % 256
      {
        assert At(recon, x - ch) == At(front, x - ch);
      }
    }
  }

  /** The row the reader builds satisfies the standard's rule at every byte. */
  lemma UnfilterRowReconstructs(kind: nat, filtered: Bytes, prior: Bytes, ch: nat)
    requires kind <= 4 && ch > 0 && |filtered| <= |prior|
    ensures Reconstructs(kind, filtered, prior, ch, UnfilterRow(kind, filtered, prior, ch))
  {
    hide Reconstructs, Rebuilds;
    UnfilterRowRebuilds(kind, filtered, prior, ch);
    RebuildsIsStandard(kind, filtered, prior, ch, UnfilterRow(kind, filtered, prior, ch));
  }

  lemma {:induction false} RebuiltOnce(kind: nat, filtered: Bytes, prior: Bytes, ch: nat, r1: Bytes, r2: Bytes)
    requires kind <= 4 && ch > 0 && |filtered| <= |prior|
    requires Rebuilds(kind, filtered, prior, ch, r1) && Rebuilds(kind, filtered, prior, ch, r2)
    ensures r1 == r2
  {
    var n := 0;
    while n < |filtered|
      invariant n <= |filtered|
      invariant forall x :: 0 <= x < n ==> r1[x] == r2[x]
    {
      n := n + 1;
    }
  }

  /** The rule determines the row: two rows that satisfy it are the same row. */
  lemma ReconstructionUnique(kind: nat, filtered: Bytes, prior: Bytes, ch: nat, r1: Bytes, r2: Bytes)
    requires kind <= 4 && ch > 0 && |filtered| <= |prior|
    requires Reconstructs(kind, filtered, prior, ch, r1)
    requires Reconstructs(kind, filtered, prior, ch, r2)
    ensures r1 == r2
  {
    hide Reconstructs, Rebuilds;
    RebuildsIsStandard(kind, filtered, prior, ch, r1);
    RebuildsIsStandard(kind, filtered, prior, ch, r2);
    RebuiltOnce(kind, filtered, prior, ch, r1, r2);
  }

  /** What the writer emits for a row is what the standard's rule turns back into it. */
  lemma FilterReconstructs(kind: nat, line: Bytes, prior: Bytes, ch: nat)
    requires kind <= 4 && ch > 0 && |line| <= |prior|
    ensures Reconstructs(kind, FilterRow(kind, line, prior, ch), prior, ch, line)
  {
    hide Prediction, Reconstructs;
    RebuildsIsStandard(kind, FilterRow(kind, line, prior, ch), prior, ch, line);
    var f := FilterRow(kind, line, prior, ch);
    forall x | 0 <= x < |f|
      ensures line[x] == (f[x] + Prediction(kind, line, prior, ch, x)) % 256
    {
      var p: int := Prediction(kind, line, prior, ch, x);
      assert f[x] == (line[x] - p) % 256;
    }
  }

  /** ... and the only residuals that do. */
  lemma ResidualsUnique(kind: nat, filtered: Bytes, line: Bytes, prior: Bytes, ch: nat)
    requires kind <= 4 && ch > 0 && |filtered| <= |prior| && Reconstructs(kind, filtered, prior, ch, line)
    ensures filtered == FilterRow(kind, line, prior, ch)
  {
    hide Prediction, Reconstructs;
    RebuildsIsStandard(kind, filtered, prior, ch, line);
    forall x | 0 <= x < |filtered|
      ensures filtered[x] == (line[x] - Prediction(kind, line, prior, ch, x)) % 256
    {
      var p: int := Prediction(kind, line, prior, ch, x);
      assert line[x] == (filtered[x] + p) % 256;
    }
  }

  /** Unfiltering undoes filtering, whichever predictor and whatever row above. */
  lemma RowRoundTrip(kind: nat, line: Bytes, prior: Bytes, ch: nat)
    requires kind <= 4 && ch > 0 && |line| <= |prior|
    ensures UnfilterRow(kind, FilterRow(kind, line, prior, ch), prior, ch) == line
  {
    FilterReconstructs(kind, line, prior, ch);
    var f := FilterRow(kind, line, prior, ch);
    UnfilterRowReconstructs(kind, f, prior, ch);
    ReconstructionUnique(kind, f, prior, ch, UnfilterRow(kind, f, prior, ch), line);
  }

  // ------------------------------------------------------ the reader, in place

  /**
   What undoing one row comes to, for any row the reader can hold: `stride` is
   the length the header calls for and the row may be cut short.
   */
  function UnfilterOutcome(kind: byte, filtered: Bytes, prior: Bytes, ch: nat, stride: nat): Result<Bytes, FilterError>
    requires ch > 0 && |filtered| <= stride == |prior|
  {
    if kind == 0 then Ok(filtered)
    else if kind > 4 then Err(UnknownFilter)
    else if |filtered| < stride && (kind == 1 ==> ch < stride) then Err(IndexError)
    else Ok(UnfilterRow(kind, filtered, prior, ch))
  }

  /** A row is undone exactly where the filter is known and the loop stays in the row, and then as the standard asks. */
  lemma OutcomeIsStandard(kind: byte, filtered: Bytes, prior: Bytes, ch: nat, stride: nat, row: Bytes)
    requires ch > 0 && |filtered| <= stride == |prior|
    ensures UnfilterOutcome(kind, filtered, prior, ch, stride) == Err(UnknownFilter) <==> kind > 4
    ensures UnfilterOutcome(kind, filtered, prior, ch, stride) == Ok(row) <==>
      && kind <= 4 && Reconstructs(kind, filtered, prior, ch, row)
      && (|filtered| == stride || kind == 0 || (kind == 1 && stride <= ch))
  {
    hide Reconstructs, UnfilterRow, Rebuilds;
    if kind <= 4 {
      var built := UnfilterRow(kind, filtered, prior, ch);
      UnfilterRowReconstructs(kind, filtered, prior, ch);
      if Reconstructs(kind, filtered, prior, ch, row) {
        ReconstructionUnique(kind, filtered, prior, ch, built, row);
      }
      if kind == 0 {
        NoneKeeps(filtered, prior, ch);
        ReconstructionUnique(kind, filtered, prior, ch, built, filtered);
      }
    }
  }

  lemma NoneKeeps(filtered: Bytes, prior: Bytes, ch: nat)
    requires ch > 0 && |filtered| <= |prior|
    ensures Reconstructs(0, filtered, prior, ch, filtered)
  {
  }

  ghost predicate Rewritten(kind: nat, was: Bytes, now: Bytes, prior: Bytes, ch: nat, n: nat)
    requires kind <= 4 && ch > 0 && |was| <= |prior|
  {
    |now| == |was| && n <= |was| &&
    (forall x :: 0 <= x < n ==> now[x] == (was[x] + Prediction(kind, now, prior, ch, x)) % 256) &&
    (forall x :: n <= x < |was| ==> now[x] == was[x])
  }

  lemma RewrittenStep(kind: nat, was: Bytes, now: Bytes, prior: Bytes, ch: nat, n: nat, v: byte)
    requires kind <= 4 && ch > 0 && |was| <= |prior| && n < |was|
    requires Rewritten(kind, was, now, prior, ch, n)
    requires v == (was[n] + Prediction(kind, now, prior, ch, n)) % 256
    ensures Rewritten(kind, was, now[n := v], prior, ch, n + 1)
  {
    forall x | 0 <= x < n + 1
      ensures now[n := v][x] == (was[x] + Prediction(kind, now[n := v], prior, ch, x)) % 256
    {
      assert At(now[n := v], x - ch) == At(now, x - ch);
    }
  }

  lemma RewrittenAll(kind: nat, was: Bytes, now: Bytes, prior: Bytes, ch: nat)
    requires kind <= 4 && ch > 0 && |was| <= |prior|
    requires Rewritten(kind, was, now, prior, ch, |was|)
    ensures now == UnfilterRow(kind, was, prior, ch)
  {
    UnfilterRowRebuilds(kind, was, prior, ch);
    RebuiltOnce(kind, was, prior, ch, now, UnfilterRow(kind, was, prior, ch));
  }

  /** Sub: each byte takes the reconstructed one a pixel to its left; the first pixel is already itself. */
  method UnfilterSub(line: array<byte>, prior: array<byte>, ch: nat, stride: nat) returns (complete: bool)
    requires ch > 0 && line != prior && line.Length <= stride == prior.Length
    modifies line
    ensures complete <==> line.Length == stride || stride <= ch
    ensures complete ==> line[..] == UnfilterRow(1, old(line[..]), prior[..], ch)
  {
    hide UnfilterRow;
    ghost var was := line[..];
    ghost var up := prior[..];
    assert Rewritten(1, was, line[..], up, ch, Min(ch, line.Length));
    for x := ch to Max(ch, stride)
      invariant ch < x ==> x <= line.Length
      invariant Rewritten(1, was, line[..], up, ch, Min(x, line.Length))
    {
      if x >= line.Length {
        return false;
      }
      ghost var now := line[..];
      var left: int := line[x - ch];
      line[x] := (line[x] + left) % 256;
      assert line[..] == now[x := line[x]];
      RewrittenStep(1, was, now, up, ch, x, line[x]);
    }
    RewrittenAll(1, was, line[..], up, ch);
    return true;
  }

  /** Up: each byte takes the one above it. */
  method UnfilterUp(line: array<byte>, prior: array<byte>, ghost ch: nat, stride: nat) returns (complete: bool)
    requires ch > 0 && line != prior && line.Length <= stride == prior.Length
    modifies line
    ensures complete <==> line.Length == stride
    ensures complete ==> line[..] == UnfilterRow(2, old(line[..]), prior[..], ch)
  {
    ghost var was := line[..];
    ghost var up := prior[..];
    for x := 0 to stride
      invariant x <= line.Length
      invariant Rewritten(2, was, line[..], up, ch, x)
    {
      if x >= line.Length {
        return false;
      }
      ghost var now := line[..];
      var above: int := prior[x];
      line[x] := (line[x] + above) % 256;
      assert line[..] == now[x := line[x]];
      RewrittenStep(2, was, now, up, ch, x, line[x]);
    }
    RewrittenAll(2, was, line[..], up, ch);
    return true;
  }

  /** Average: each byte takes the floored mean of the one to its left and the one above. */
  method UnfilterAverage(line: array<byte>, prior: array<byte>, ch: nat, stride: nat) returns (complete: bool)
    requires ch > 0 && line != prior && line.Length <= stride == prior.Length
    modifies line
    ensures complete <==> line.Length == stride
    ensures complete ==> line[..] == UnfilterRow(3, old(line[..]), prior[..], ch)
  {
    ghost var was := line[..];
    ghost var up := prior[..];
    for x := 0 to stride
      invariant x <= line.Length
      invariant Rewritten(3, was, line[..], up, ch, x)
    {
      if x >= line.Length {
        return false;
      }
      ghost var now := line[..];
      var left: int := if x >= ch then line[x - ch] else 0;
      line[x] := (line[x] + (left + prior[x]) / 2) % 256;
      assert line[..] == now[x := line[x]];
      RewrittenStep(3, was, now, up, ch, x, line[x]);
    }
    RewrittenAll(3, was, line[..], up, ch);
    return true;
  }

  /** Paeth: each byte takes whichever of left, above and upper left is nearest left + above - upper left. */
  method UnfilterPaeth(line: array<byte>, prior: array<byte>, ch: nat, stride: nat) returns (complete: bool)
    requires ch > 0 && line != prior && line.Length <= stride == prior.Length
    modifies line
    ensures complete <==> line.Length == stride
    ensures complete ==> line[..] == UnfilterRow(4, old(line[..]), prior[..], ch)
  {
    ghost var was := line[..];
    ghost var up := prior[..];
    for x := 0 to stride
      invariant x <= line.Length
      invariant Rewritten(4, was, line[..], up, ch, x)
    {
      if x >= line.Length {
        return false;
      }
      ghost var now := line[..];
      var a := if x >= ch then line[x - ch] else 0;
      var c := if x >= ch then prior[x - ch] else 0;
      var pred: int := Paeth(a, prior[x], c);
      line[x] := (line[x] + pred) % 256;
      assert line[..] == now[x := line[x]];
      RewrittenStep(4, was, now, up, ch, x, line[x]);
    }
    RewrittenAll(4, was, line[..], up, ch);
    return true;
  }

  /** Undoes one row in place by its filter byte, or raises where the byte is unknown or the row is too short. */
  method Unfilter(kind: byte, line: array<byte>, prior: array<byte>, ch: nat, stride: nat)
    returns (r: Result<(), FilterError>)
    requires ch > 0 && line != prior && line.Length <= stride == prior.Length
    modifies line
    ensures match UnfilterOutcome(kind, old(line[..]), prior[..], ch, stride)
            case Ok(row) => r == Ok(()) && line[..] == row
            case Err(e) => r == Err(e)
  {
    var complete := true;
    if kind == 0 {
    } else if kind == 1 {
      complete := UnfilterSub(line, prior, ch, stride);
    } else if kind == 2 {
      complete := UnfilterUp(line, prior, ch, stride);
    } else if kind == 3 {
      complete := UnfilterAverage(line, prior, ch, stride);
    } else if kind == 4 {
      complete := UnfilterPaeth(line, prior, ch, stride);
    } else {
      return Err(UnknownFilter);
    }
    return if complete then Ok(()) else Err(IndexError);
  }
}
