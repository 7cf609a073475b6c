/**
 Whole images of scanlines: the writer's adaptive choice of filter row by row,
 and the reader's loop that carries the row above from one row to the next.
 */
module PngScanlines {
  import opened Common
  import opened PngFilter

  // ------------------------------------------------------------ rows of a raster

  function Zeros(n: nat): (z: Bytes)
    ensures |z| == n && forall k :: 0 <= k < n ==> z[k] == 0
  {
    seq(n, _ => 0)
  }

  /** A flat buffer cut into rows of `stride` bytes; what does not fill a row is dropped. */
  function RowsOf(data: Bytes, stride: nat): (rows: seq<Bytes>)
    requires stride > 0
    ensures forall y :: 0 <= y < |rows| ==> |rows[y]| == stride
    decreases |data|
  {
    if |data| < stride then [] else [data[..stride]] + RowsOf(data[stride..], stride)
  }

  lemma {:induction false} RowsOfConcat(data: Bytes, stride: nat, n: nat)
    requires stride > 0 && |data| == n * stride
    ensures Concat(RowsOf(data, stride)) == data
    ensures |RowsOf(data, stride)| == n
    decreases n
  {
    if n > 0 {
      assert |data| == stride + (n - 1) * stride;
      assert |data[stride..]| == (n - 1) * stride;
      RowsOfConcat(data[stride..], stride, n - 1);
      assert RowsOf(data, stride)[1..] == RowsOf(data[stride..], stride);
    }
  }

  // ----------------------------------------------------------- choosing a filter

  function AbsResidual(v: byte): byte { Min(v, 256 - v) }

  function Score(row: Bytes): nat {
    if row == [] then 0 else Score(row[..|row| - 1]) + AbsResidual(row[|row| - 1])
  }

  const CANDIDATES: seq<byte> := [0, 1, 2, 4]

  function ScoreOf(kind: byte, line: Bytes, prior: Bytes, ch: nat): nat
    requires kind <= 4 && ch > 0 && |line| <= |prior|
  {
    Score(FilterRow(kind, line, prior, ch))
  }

  function Scores(line: Bytes, prior: Bytes, ch: nat): (scores: seq<nat>)
    requires ch > 0 && |line| <= |prior|
    ensures |scores| == |CANDIDATES|
    ensures forall i :: 0 <= i < |CANDIDATES| ==> scores[i] == ScoreOf(CANDIDATES[i], line, prior, ch)
  {
    [ScoreOf(0, line, prior, ch), ScoreOf(1, line, prior, ch), ScoreOf(2, line, prior, ch), ScoreOf(4, line, prior, ch)]
  }

  ghost predicate IsFirstMin(scores: seq<nat>, i: nat) {
    i < |scores| && forall k :: 0 <= k < |scores| ==> scores[i] <= scores[k] && (k < i ==> scores[i] < scores[k])
  }

  function FirstMin(scores: seq<nat>): (i: nat)
    requires scores != []
    ensures IsFirstMin(scores, i)
  {
    if |scores| == 1 then 0
    else
      var n := |scores| - 1;
      var m := FirstMin(scores[..n]);
      if scores[n] < scores[m] then n else m
  }

  /** The candidate with the smallest score, the first of those that tie. */
  function BestKind(line: Bytes, prior: Bytes, ch: nat): (kind: byte)
    requires ch > 0 && |line| <= |prior|
    ensures kind <= 4
  {
    CANDIDATES[FirstMin(Scores(line, prior, ch))]
  }

  /** No filter the writer considers would have scored lower on the row. */
  lemma BestKindIsCheapest(line: Bytes, prior: Bytes, ch: nat, other: byte)
    requires ch > 0 && |line| <= |prior| && other in {0, 1, 2, 4}
    ensures BestKind(line, prior, ch) in {0, 1, 2, 4}
    ensures ScoreOf(BestKind(line, prior, ch), line, prior, ch) <= ScoreOf(other, line, prior, ch)
    ensures other < BestKind(line, prior, ch) ==>
      ScoreOf(BestKind(line, prior, ch), line, prior, ch) < ScoreOf(other, line, prior, ch)
  {
    hide ScoreOf;
    var scores := Scores(line, prior, ch);
    var k := if other == 4 then 3 else other as nat;
    var best := FirstMin(scores);
    assert CANDIDATES[k] == other && CANDIDATES[0] == 0 && CANDIDATES[1] == 1 && CANDIDATES[2] == 2 && CANDIDATES[3] == 4;
    assert scores[best] <= scores[k] && (k < best ==> scores[best] < scores[k]);
  }

  /** A residual costs its size as a signed byte, and a row what its residuals cost together. */
  lemma {:induction false} ScoreIsDistance(a: Bytes, b: Bytes, v: byte)
    ensures Score([]) == 0 && Score([v]) == Abs(if v < 128 then v else v - 256)
    ensures Score(a + b) == Score(a) + Score(b)
    decreases |b|
  {
    assert [v][..0] == [];
    if b == [] {
      assert a + b == a;
    } else {
      var n := |b| - 1;
      ScoreIsDistance(a, b[..n], v);
      assert (a + b)[..|a + b| - 1] == a + b[..n];
    }
  }

  // -------------------------------------------------------------- the row stream

  /** Rows filtered with the given filters, each row behind its filter byte. */
  function Stream(rows: seq<Bytes>, kinds: seq<byte>, prior: Bytes, ch: nat): Bytes
    requires ch > 0 && |kinds| == |rows|
    requires forall y :: 0 <= y < |rows| ==> |rows[y]| == |prior| && kinds[y] <= 4
  {
    if rows == [] then []
    else [kinds[0]] + FilterRow(kinds[0], rows[0], prior, ch) + Stream(rows[1..], kinds[1..], rows[0], ch)
  }

  /** Filtered bytes that hold some rows as RFC 2083 says: each a filter byte and residuals, against the row above. */
  ghost predicate Spells(raw: Bytes, rows: seq<Bytes>, above: Bytes, ch: nat) {
    if rows == [] then raw == []
    else
      && |raw| > |rows[0]| == |above| && raw[0] <= 4
      && Reconstructs(raw[0], raw[1..1 + |above|], above, ch, rows[0])
      && Spells(raw[1 + |above|..], rows[1..], rows[0], ch)
  }

  /** The writer's stream holds its rows, whatever filters they take. */
  lemma {:induction false} StreamSpells(rows: seq<Bytes>, kinds: seq<byte>, prior: Bytes, ch: nat)
    requires ch > 0 && |kinds| == |rows|
    requires forall y :: 0 <= y < |rows| ==> |rows[y]| == |prior| && kinds[y] <= 4
    ensures Spells(Stream(rows, kinds, prior, ch), rows, prior, ch)
  {
    hide Reconstructs, FilterRow;
    if rows != [] {
      var filtered := FilterRow(kinds[0], rows[0], prior, ch);
      StreamHead(kinds[0], filtered, Stream(rows[1..], kinds[1..], rows[0], ch));
      FilterReconstructs(kinds[0], rows[0], prior, ch);
      StreamSpells(rows[1..], kinds[1..], rows[0], ch);
    }
  }

  /** Whatever holds some rows is a stream of them. */
  lemma {:induction false} SpelledIsStream(raw: Bytes, rows: seq<Bytes>, above: Bytes, ch: nat) returns (kinds: seq<byte>)
    requires ch > 0 && Spells(raw, rows, above, ch)
    ensures |kinds| == |rows| && forall y :: 0 <= y < |rows| ==> |rows[y]| == |above| && kinds[y] <= 4
    ensures raw == Stream(rows, kinds, above, ch)
    decreases |rows|
  {
    hide Reconstructs, FilterRow;
    if rows == [] {
      kinds := [];
    } else {
      var filtered := raw[1..1 + |above|];
      ResidualsUnique(raw[0], filtered, rows[0], above, ch);
      var rest := SpelledIsStream(raw[1 + |above|..], rows[1..], rows[0], ch);
      kinds := [raw[0]] + rest;
      assert kinds[1..] == rest;
      assert [raw[0]] == raw[..1] && raw[..1] + filtered == raw[..1 + |above|];
    }
  }

  function BestKinds(rows: seq<Bytes>, prior: Bytes, ch: nat): (kinds: seq<byte>)
    requires ch > 0
    requires forall y :: 0 <= y < |rows| ==> |rows[y]| == |prior|
    ensures |kinds| == |rows| && forall y :: 0 <= y < |rows| ==> kinds[y] <= 4
  {
    if rows == [] then []
    else [BestKind(rows[0], prior, ch)] + BestKinds(rows[1..], rows[0], ch)
  }

  /** Every row takes the cheapest of the four filters against the row above it, the first of those that tie. */
  lemma {:induction false} RowsTakeCheapest(rows: seq<Bytes>, prior: Bytes, ch: nat, y: nat, other: byte)
    requires ch > 0 && y < |rows| && other in {0, 1, 2, 4}
    requires forall k :: 0 <= k < |rows| ==> |rows[k]| == |prior|
    ensures
      var above, kind := if y == 0 then prior else rows[y - 1], BestKinds(rows, prior, ch)[y];
      && kind in {0, 1, 2, 4}
      && Score(FilterRow(kind, rows[y], above, ch)) <= Score(FilterRow(other, rows[y], above, ch))
      && (other < kind ==> Score(FilterRow(kind, rows[y], above, ch)) < Score(FilterRow(other, rows[y], above, ch)))
  {
    hide BestKind, Score, FilterRow;
    if y == 0 {
      BestKindIsCheapest(rows[0], prior, ch, other);
    } else {
      RowsTakeCheapest(rows[1..], rows[0], ch, y - 1, other);
    }
  }

  /** The reader's loop over `rows` rows, as a function of the bytes still ahead of it. */
  function UnfilterRows(raw: Bytes, rows: nat, prior: Bytes, ch: nat): (r: Result<seq<Bytes>, FilterError>)
    requires ch > 0
    ensures r.Ok? ==> |r.value| == rows
    ensures r.Ok? ==> forall y :: 0 <= y < rows - 1 ==> |r.value[y]| == |prior|
    ensures r.Ok? && rows > 0 ==> |r.value[rows - 1]| <= |prior|
    decreases rows
  {
    if rows == 0 then Ok([])
    else if raw == [] then Err(IndexError)
    else
      var cut := Min(1 + |prior|, |raw|);
      var line := UnfilterOutcome(raw[0], raw[1..cut], prior, ch, |prior|);
      if line.Err? then Err(line.error)
      else if |line.value| < |prior| then (if rows == 1 then Ok([line.value]) else Err(IndexError))
      else
        var rest := UnfilterRows(raw[cut..], rows - 1, line.value, ch);
        if rest.Err? then Err(rest.error) else Ok([line.value] + rest.value)
  }

  /** The reader recovers the rows of any stream, whichever filter each row took. */
  lemma {:induction false} StreamRoundTrip(rows: seq<Bytes>, kinds: seq<byte>, prior: Bytes, ch: nat)
    requires ch > 0 && |kinds| == |rows|
    requires forall y :: 0 <= y < |rows| ==> |rows[y]| == |prior| && kinds[y] <= 4
    ensures UnfilterRows(Stream(rows, kinds, prior, ch), |rows|, prior, ch) == Ok(rows)
  {
    if rows != [] {
      var raw := Stream(rows, kinds, prior, ch);
      var filtered := FilterRow(kinds[0], rows[0], prior, ch);
      var rest := Stream(rows[1..], kinds[1..], rows[0], ch);
      StreamHead(kinds[0], filtered, rest);
      assert raw[1..1 + |prior|] == filtered && raw[1 + |prior|..] == rest;
      RowOutcome(kinds[0], rows[0], prior, ch);
      StreamRoundTrip(rows[1..], kinds[1..], rows[0], ch);
      assert [rows[0]] + rows[1..] == rows;
    }
  }

  /** The reader over a stream of full length: the first row, and then the rest below it. */
  lemma ReadsFirst(raw: Bytes, rows: nat, prior: Bytes, ch: nat)
    requires ch > 0 && rows > 0 && |raw| == rows * (1 + |prior|)
    ensures |prior| < |raw| && |raw[1 + |prior|..]| == (rows - 1) * (1 + |prior|)
    ensures
      var line := UnfilterOutcome(raw[0], raw[1..1 + |prior|], prior, ch, |prior|);
      && (line.Ok? ==> |line.value| == |prior|)
      && UnfilterRows(raw, rows, prior, ch) ==
           if line.Err? then Err(line.error)
           else
             var rest := UnfilterRows(raw[1 + |prior|..], rows - 1, line.value, ch);
             if rest.Err? then Err(rest.error) else Ok([line.value] + rest.value)
  {
    assert rows * (1 + |prior|) == (1 + |prior|) + (rows - 1) * (1 + |prior|);
  }

  /** The reader's rows are the standard's: those the bytes hold, and no others. */
  lemma {:induction false} ReaderIsStandard(raw: Bytes, rows: seq<Bytes>, prior: Bytes, ch: nat)
    requires ch > 0 && |raw| == |rows| * (1 + |prior|)
    ensures UnfilterRows(raw, |rows|, prior, ch) == Ok(rows) <==> Spells(raw, rows, prior, ch)
    decreases |rows|
  {
    hide UnfilterOutcome, UnfilterRows, Reconstructs;
    if rows == [] {
      ReadsNone(raw, prior, ch);
    } else {
      ReadsFirst(raw, |rows|, prior, ch);
      var filtered, rest := raw[1..1 + |prior|], raw[1 + |prior|..];
      var line := UnfilterOutcome(raw[0], filtered, prior, ch, |prior|);
      OutcomeIsStandard(raw[0], filtered, prior, ch, |prior|, rows[0]);
      assert rows == [rows[0]] + rows[1..];
      if line == Ok(rows[0]) {
        ReaderIsStandard(rest, rows[1..], rows[0], ch);
      }
    }
  }

  lemma ReadsNone(raw: Bytes, prior: Bytes, ch: nat)
    requires ch > 0
    ensures UnfilterRows(raw, 0, prior, ch) == Ok([])
  {
  }

  lemma StreamHead(kind: byte, filtered: Bytes, rest: Bytes)
    ensures var raw := [kind] + filtered + rest;
            raw[0] == kind && raw[1..1 + |filtered|] == filtered && raw[1 + |filtered|..] == rest
  {
  }

  lemma RowOutcome(kind: byte, row: Bytes, prior: Bytes, ch: nat)
    requires ch > 0 && kind <= 4 && |row| == |prior|
    ensures UnfilterOutcome(kind, FilterRow(kind, row, prior, ch), prior, ch, |prior|) == Ok(row)
  {
    RowRoundTrip(kind, row, prior, ch);
    if kind == 0 {
      assert FilterRow(0, row, prior, ch) == row;
    }
  }

  lemma {:induction false} StreamLength(rows: seq<Bytes>, kinds: seq<byte>, prior: Bytes, ch: nat)
    requires ch > 0 && |kinds| == |rows|
    requires forall y :: 0 <= y < |rows| ==> |rows[y]| == |prior| && kinds[y] <= 4
    ensures |Stream(rows, kinds, prior, ch)| == |rows| * (1 + |prior|)
  {
    if rows != [] {
      StreamLength(rows[1..], kinds[1..], rows[0], ch);
      assert |rows| * (1 + |prior|) == (1 + |prior|) + (|rows| - 1) * (1 + |prior|);
    }
  }

  /** The stream the writer emits: every row takes its cheapest filter. */
  function Adaptive(rows: seq<Bytes>, prior: Bytes, ch: nat): Bytes
    requires ch > 0
    requires forall y :: 0 <= y < |rows| ==> |rows[y]| == |prior|
  {
    Stream(rows, BestKinds(rows, prior, ch), prior, ch)
  }

  lemma AdaptiveStep(line: Bytes, below: seq<Bytes>, prior: Bytes, ch: nat)
    requires ch > 0 && |line| == |prior|
    requires forall y :: 0 <= y < |below| ==> |below[y]| == |prior|
    ensures var kind := BestKind(line, prior, ch);
            Adaptive([line] + below, prior, ch)
              == ([kind] + FilterRow(kind, line, prior, ch)) + Adaptive(below, line, ch)
  {
    var rows := [line] + below;
    assert rows[1..] == below;
    assert BestKinds(rows, prior, ch)[1..] == BestKinds(below, line, ch);
  }

  // --------------------------------------------------------------- the writer's loops

  method ScoreRow(row: Bytes) returns (total: nat)
    ensures total == Score(row)
  {
    total := 0;
    for x := 0 to |row|
      invariant total == Score(row[..x])
    {
      assert row[..x + 1][..x] == row[..x];
      total := total + AbsResidual(row[x]);
    }
    assert row[..|row|] == row;
  }

  /** The Paeth candidate, built a byte at a time from the two rows padded on the left. */
  method PaethRow(line: Bytes, prior: Bytes, ch: nat) returns (r: Bytes)
    requires ch > 0 && |prior| == |line|
    ensures r == FilterRow(4, line, prior, ch)
  {
    var out := new byte[|line|](_ => 0);
    var left, upleft := Zeros(ch) + line, Zeros(ch) + prior;
    for x := 0 to |line|
      invariant forall k :: 0 <= k < x ==> out[k] == FilterRow(4, line, prior, ch)[k]
    {
      assert left[x] == At(line, x - ch) && upleft[x] == At(prior, x - ch);
      var pred: int := Paeth(left[x], prior[x], upleft[x]);
      out[x] := (line[x] - pred) % 256;
    }
    r := out[..];
  }

  /** The four candidates: the row itself, then Sub, Up and Paeth. */
  method Candidates(line: Bytes, prior: Bytes, ch: nat) returns (rows: seq<Bytes>)
    requires ch > 0 && |prior| == |line|
    ensures |rows| == |CANDIDATES|
    ensures forall i :: 0 <= i < |CANDIDATES| ==> rows[i] == FilterRow(CANDIDATES[i], line, prior, ch)
  {
    var sub := seq(|line|, x requires 0 <= x < |line| => (line[x] - At(line, x - ch)) % 256);
    var up := seq(|line|, x requires 0 <= x < |line| => (var above: int := prior[x]; (line[x] - above) % 256));
    var paeth := PaethRow(line, prior, ch);
    assert line == FilterRow(0, line, prior, ch);
    assert sub == FilterRow(1, line, prior, ch);
    assert up == FilterRow(2, line, prior, ch);
    rows := [line, sub, up, paeth];
  }

  /** Scores the candidates for one row and keeps the first of the cheapest. */
  method CheapestFilter(line: Bytes, prior: Bytes, ch: nat) returns (kind: byte, filtered: Bytes)
    requires ch > 0 && |prior| == |line|
    ensures kind == BestKind(line, prior, ch)
    ensures filtered == FilterRow(kind, line, prior, ch)
  {
    var candidates := Candidates(line, prior, ch);
    ghost var scores := Scores(line, prior, ch);
    var best := 0;
    var bestScore := ScoreRow(candidates[0]);
    for i := 1 to 4
      invariant best < i && bestScore == scores[best] && best == FirstMin(scores[..i])
    {
      var score := ScoreRow(candidates[i]);
      assert scores[..i + 1][..i] == scores[..i];
      if score < bestScore {
        best, bestScore := i, score;
      }
    }
    assert scores[..4] == scores;
    kind, filtered := CANDIDATES[best], candidates[best];
  }

  /** Adaptive filtering of a flat buffer, each row predicted from the row before it. */
  method FilterScanlines(data: Bytes, stride: nat, ch: nat) returns (out: Bytes)
    requires ch > 0 && stride > 0
    ensures out == Adaptive(RowsOf(data, stride), Zeros(stride), ch)
  {
    out := [];
    var prior := Zeros(stride);
    var rest := data;
    while |rest| >= stride
      invariant |prior| == stride
      invariant out + Adaptive(RowsOf(rest, stride), prior, ch) == Adaptive(RowsOf(data, stride), Zeros(stride), ch)
      decreases |rest|
    {
      var line := rest[..stride];
      var kind, filtered := CheapestFilter(line, prior, ch);
      AdaptiveStep(line, RowsOf(rest[stride..], stride), prior, ch);
      out := out + ([kind] + filtered);
      prior, rest := line, rest[stride..];
    }
  }
}
