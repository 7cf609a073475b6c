/** The separable box blur of the brand generator: running sums, against the windows they stand for. */
module BoxBlur {
  import opened Common
  import opened Grid

  // ---------------------------------------------------------------- one line

  function Clamp(i: int, n: int): int { if i < 0 then 0 else if i >= n then n - 1 else i }

  /** The sum over positions [a, b), each clamped to the line. */
  function SumRange(line: seq<int>, a: int, b: int): int
    requires line != []
    decreases b - a
  {
    if b <= a then 0 else SumRange(line, a, b - 1) + line[Clamp(b - 1, |line|)]
  }

  /** The window of 2 * radius + 1 positions centred on x. */
  function Window(line: seq<int>, x: int, radius: nat): int
    requires line != []
  {
    SumRange(line, x - radius, x + radius + 1)
  }

  /** The blurred value: the floored mean of the window. */
  function Mean(line: seq<int>, x: int, radius: nat): int
    requires line != []
  {
    Window(line, x, radius) / (2 * radius + 1)
  }

  lemma {:induction false} SumSplitLeft(line: seq<int>, a: int, b: int)
    requires line != [] && a < b
    ensures SumRange(line, a, b) == line[Clamp(a, |line|)] + SumRange(line, a + 1, b)
    decreases b - a
  {
    if a + 1 < b {
      SumSplitLeft(line, a, b - 1);
    }
  }

  lemma Slide(line: seq<int>, x: int, radius: nat)
    requires line != []
    ensures Window(line, x + 1, radius)
      == Window(line, x, radius) + line[Clamp(x + radius + 1, |line|)] - line[Clamp(x - radius, |line|)]
  {
    SumSplitLeft(line, x - radius, x + radius + 1);
  }

  lemma {:induction false} SumLeftEdge(line: seq<int>, n: nat)
    requires line != []
    ensures SumRange(line, 1 - n, 1) == line[0] * n
    decreases n
  {
    if n > 0 {
      SumSplitLeft(line, 1 - n, 1);
      SumLeftEdge(line, n - 1);
      assert line[0] * n == line[0] + line[0] * (n - 1);
    }
  }

  lemma {:induction false} SumBetween(line: seq<int>, a: int, b: int, lo: int, hi: int)
    requires line != [] && a <= b
    requires forall i :: 0 <= i < |line| ==> lo <= line[i] <= hi
    ensures lo * (b - a) <= SumRange(line, a, b) <= hi * (b - a)
    decreases b - a
  {
    if a < b {
      SumBetween(line, a, b - 1, lo, hi);
      assert lo * (b - a) == lo * (b - 1 - a) + lo && hi * (b - a) == hi * (b - 1 - a) + hi;
    }
  }

  lemma MeanBetween(line: seq<int>, x: int, radius: nat, lo: int, hi: int)
    requires line != []
    requires forall i :: 0 <= i < |line| ==> lo <= line[i] <= hi
    ensures lo <= Mean(line, x, radius) <= hi
  {
    var span := 2 * radius + 1;
    SumBetween(line, x - radius, x + radius + 1, lo, hi);
    FloorBetween(Window(line, x, radius), span, lo, hi);
  }

  // ------------------------------------------------------------- the two passes

  /** The horizontal means down one column of cells. */
  function AcrossColumn(values: seq<int>, w: nat, h: nat, radius: nat, x: nat): (c: seq<int>)
    requires |values| == h * w && x < w
    ensures |c| == h
  {
    seq(h, y requires 0 <= y < h => Mean(Row(values, w, h, y), x, radius))
  }

  /** The naive blur of one cell: the vertical mean of the horizontal means around it, each window clamped to the image. */
  function BlurCell(values: seq<int>, w: nat, h: nat, radius: nat, x: nat, y: nat): int
    requires |values| == h * w && x < w && y < h
  {
    Mean(AcrossColumn(values, w, h, radius, x), y, radius)
  }

  /** The position of a line of `n` nearest to `i`. */
  function Nearest(i: int, n: nat): (k: nat)
    requires n > 0
    ensures k < n
  {
    Max(0, Min(i, n - 1))
  }

  /** The values of row `y` at `n` positions from `a` on, added up; past an edge the edge counts again. */
  function AcrossSum(values: seq<int>, w: nat, h: nat, y: nat, a: int, n: nat): int
    requires |values| == h * w && w > 0 && y < h
  {
    if n == 0 then 0 else AcrossSum(values, w, h, y, a, n - 1) + At(values, w, h, Nearest(a + n - 1, w), y)
  }

  /** The floored means across, at column `x` of `n` rows from `b` on, added up. */
  function DownSum(values: seq<int>, w: nat, h: nat, radius: nat, x: nat, b: int, n: nat): int
    requires |values| == h * w && x < w && h > 0
  {
    if n == 0 then 0
    else
      DownSum(values, w, h, radius, x, b, n - 1)
        + AcrossSum(values, w, h, Nearest(b + n - 1, h), x - radius, 2 * radius + 1) / (2 * radius + 1)
  }

  lemma {:induction false} AcrossIs(values: seq<int>, w: nat, h: nat, y: nat, a: int, n: nat)
    requires |values| == h * w && w > 0 && y < h
    ensures SumRange(Row(values, w, h, y), a, a + n) == AcrossSum(values, w, h, y, a, n)
  {
    if n > 0 {
      AcrossIs(values, w, h, y, a, n - 1);
    }
  }

  lemma {:induction false} DownIs(values: seq<int>, w: nat, h: nat, radius: nat, x: nat, b: int, n: nat)
    requires |values| == h * w && x < w && h > 0
    ensures SumRange(AcrossColumn(values, w, h, radius, x), b, b + n) == DownSum(values, w, h, radius, x, b, n)
  {
    hide Row;
    if n > 0 {
      DownIs(values, w, h, radius, x, b, n - 1);
      AcrossIs(values, w, h, Nearest(b + n - 1, h), x - radius, 2 * radius + 1);
    }
  }

  /** A blurred cell is the floored mean of the floored means across the rows around it, edges repeated. */
  lemma BlurIsNaive(values: seq<int>, w: nat, h: nat, radius: nat, x: nat, y: nat)
    requires |values| == h * w && x < w && y < h
    ensures BlurCell(values, w, h, radius, x, y)
      == DownSum(values, w, h, radius, x, y - radius, 2 * radius + 1) / (2 * radius + 1)
  {
    hide AcrossColumn, Row;
    DownIs(values, w, h, radius, x, y - radius, 2 * radius + 1);
  }

  /** The blur stays within the channel's own minimum and maximum; so a flat channel stays as it is. */
  lemma BlurStaysBetween(values: seq<int>, w: nat, h: nat, radius: nat, x: nat, y: nat, lo: int, hi: int)
    requires |values| == h * w && x < w && y < h
    requires forall i :: 0 <= i < |values| ==> lo <= values[i] <= hi
    ensures lo <= BlurCell(values, w, h, radius, x, y) <= hi
  {
    var column := AcrossColumn(values, w, h, radius, x);
    forall y' | 0 <= y' < h
      ensures lo <= column[y'] <= hi
    {
      var row := Row(values, w, h, y');
      forall i | 0 <= i < w
        ensures lo <= row[i] <= hi
      {
        Cell(values, w, h, i, y');
      }
      MeanBetween(row, x, radius, lo, hi);
    }
    MeanBetween(column, y, radius, lo, hi);
  }

  /** A blur of radius nought is no blur. */
  lemma BlurRadiusZero(values: seq<int>, w: nat, h: nat, x: nat, y: nat)
    requires |values| == h * w && x < w && y < h
    ensures BlurCell(values, w, h, 0, x, y) == At(values, w, h, x, y)
  {
    var row, column := Row(values, w, h, y), AcrossColumn(values, w, h, 0, x);
    assert SumRange(row, x, x + 1) == SumRange(row, x, x) + row[x];
    assert SumRange(column, y, y + 1) == SumRange(column, y, y) + column[y];
  }

  /** One row's running sum: the first window whole, then one value in and one out at each step. */
  method BlurRow(values: seq<int>, w: nat, h: nat, y: nat, radius: nat, rows: array<int>)
    requires w > 0 && y < h && |values| == h * w == rows.Length
    modifies rows
    ensures forall x', y' :: 0 <= x' < w && 0 <= y' < h ==>
      At(rows[..], w, h, x', y') ==
        if y' == y then Mean(Row(values, w, h, y), x', radius) else At(old(rows[..]), w, h, x', y')
  {
    var span := radius * 2 + 1;
    var base := y * w;
    ghost var line := Row(values, w, h, y);
    ghost var start := rows[..];
    Cell(values, w, h, 0, y);
    var total := values[base] * (radius + 1);
    SumLeftEdge(line, radius + 1);
    for x := 1 to radius + 1
      invariant rows[..] == start && total == SumRange(line, 1 - (radius + 1), x)
    {
      Cell(values, w, h, Min(x, w - 1), y);
      total := total + values[base + Min(x, w - 1)];
    }
    for x := 0 to w
      invariant total == Window(line, x, radius)
      invariant forall x', y' :: 0 <= x' < w && 0 <= y' < h ==>
        At(rows[..], w, h, x', y') ==
          if y' == y && x' < x then Mean(line, x', radius) else At(start, w, h, x', y')
    {
      CellInRange(w, h, x, y);
      ghost var before := rows[..];
      rows[base + x] := total / span;
      Store(before, w, h, x, y, total / span, rows[..]);
      Slide(line, x, radius);
      var entering, leaving := Min(x + radius + 1, w - 1), Max(x - radius, 0);
      Cell(values, w, h, entering, y);
      Cell(values, w, h, leaving, y);
      total := total + values[base + entering] - values[base + leaving];
    }
  }

  /** One column's running sum. */
  method BlurColumn(rows: seq<int>, w: nat, h: nat, x: nat, radius: nat, out: array<int>)
    requires h > 0 && x < w && |rows| == h * w == out.Length
    modifies out
    ensures forall x', y' :: 0 <= x' < w && 0 <= y' < h ==>
      At(out[..], w, h, x', y') ==
        if x' == x then Mean(Column(rows, w, h, x), y', radius) else At(old(out[..]), w, h, x', y')
  {
    var span := radius * 2 + 1;
    ghost var line := Column(rows, w, h, x);
    ghost var start := out[..];
    Cell(rows, w, h, x, 0);
    var total := rows[x] * (radius + 1);
    SumLeftEdge(line, radius + 1);
    for y := 1 to radius + 1
      invariant out[..] == start && total == SumRange(line, 1 - (radius + 1), y)
    {
      Cell(rows, w, h, x, Min(y, h - 1));
      total := total + rows[Min(y, h - 1) * w + x];
    }
    for y := 0 to h
      invariant total == Window(line, y, radius)
      invariant forall x', y' :: 0 <= x' < w && 0 <= y' < h ==>
        At(out[..], w, h, x', y') ==
          if x' == x && y' < y then Mean(line, y', radius) else At(start, w, h, x', y')
    {
      CellInRange(w, h, x, y);
      ghost var before := out[..];
      out[y * w + x] := total / span;
      Store(before, w, h, x, y, total / span, out[..]);
      Slide(line, y, radius);
      var entering, leaving := Min(y + radius + 1, h - 1), Max(y - radius, 0);
      Cell(rows, w, h, x, entering);
      Cell(rows, w, h, x, leaving);
      total := total + rows[entering * w + x] - rows[leaving * w + x];
    }
  }

  /** One value a pixel, from its red, green and blue. */
  method ChannelOf(img: Image, channel: (byte, byte, byte) -> int) returns (values: seq<int>)
    requires img.Valid()
    ensures |values| == img.h * img.w && 4 * |values| == |img.px|
    ensures forall i :: 0 <= i < |values| ==> values[i] == channel(img.px[4 * i], img.px[4 * i + 1], img.px[4 * i + 2])
  {
    assert |img.px| == img.h * img.w * 4;
    var out := new int[img.h * img.w](_ => 0);
    for i := 0 to img.h * img.w
      invariant forall k :: 0 <= k < i ==> out[k] == channel(img.px[4 * k], img.px[4 * k + 1], img.px[4 * k + 2])
    {
      var o := i * 4;
      out[i] := channel(img.px[o], img.px[o + 1], img.px[o + 2]);
    }
    values := out[..];
  }

  /** One derived channel, blurred: whatever the running sums do, each cell is the naive blur of that cell. */
  method Blurred(img: Image, radius: nat, channel: (byte, byte, byte) -> int) returns (values: seq<int>, result: seq<int>)
    requires img.Valid() && img.w > 0 && img.h > 0
    ensures |values| == img.h * img.w == |result| && 4 * |values| == |img.px|
    ensures forall i :: 0 <= i < |values| ==> values[i] == channel(img.px[4 * i], img.px[4 * i + 1], img.px[4 * i + 2])
    ensures forall x, y :: 0 <= x < img.w && 0 <= y < img.h ==>
      At(result, img.w, img.h, x, y) == BlurCell(values, img.w, img.h, radius, x, y)
  {
    var w, h := img.w, img.h;
    values := ChannelOf(img, channel);
    var rows := new int[h * w](_ => 0);
    for y := 0 to h
      invariant forall x', y' :: 0 <= x' < w && 0 <= y' < y ==>
        At(rows[..], w, h, x', y') == Mean(Row(values, w, h, y'), x', radius)
    {
      BlurRow(values, w, h, y, radius, rows);
    }
    var across := rows[..];
    var out := new int[h * w](_ => 0);
    for x := 0 to w
      invariant forall x', y' :: 0 <= x' < x && 0 <= y' < h ==>
        At(out[..], w, h, x', y') == BlurCell(values, w, h, radius, x', y')
    {
      assert Column(across, w, h, x) == AcrossColumn(values, w, h, radius, x);
      BlurColumn(across, w, h, x, radius, out);
    }
    result := out[..];
  }
}
