/** The two-pass area-average resize of the brand generator, and the halving chain over it. */
module Resize {
  import opened Common
  import opened Grid

  // --------------------------------------------------------------------- spans

  /** Source positions [lo, hi) that one destination position averages. */
  datatype Span = Span(lo: nat, hi: nat)

  /** Where the `i`th of `dst` equal parts of the source begins. */
  function Part(i: nat, src: nat, dst: nat): nat
    requires dst > 0
  {
    FloorAtLeast(i * src, dst, 0);
    i * src / dst
  }

  function SpanOf(i: nat, src: nat, dst: nat): Span
    requires i < dst
  {
    var a := Part(i, src, dst);
    Span(a, Min(Max(Part(i + 1, src, dst), a + 1), src))
  }

  /** Every span is non-empty and inside the source, up or down. */
  lemma SpanInside(i: nat, src: nat, dst: nat)
    requires i < dst && src > 0
    ensures SpanOf(i, src, dst).lo < SpanOf(i, src, dst).hi <= src
  {
    ScaledIndex(i, src, dst);
    FloorLess(i * src, dst, src);
  }

  lemma ScaledIndex(i: nat, src: nat, dst: nat)
    requires i < dst && src > 0
    ensures i * src < src * dst
  {
    MulMono(i + 1, dst, src);
    assert (i + 1) * src == i * src + src && dst * src == src * dst;
  }

  /** A span begins at its share of the source, rounded down; going up it takes one position in, going down as many as any other, give or take one. */
  lemma SpansEven(i: nat, src: nat, dst: nat)
    requires i < dst && src > 0
    ensures
      var span := SpanOf(i, src, dst);
      && span.lo * dst <= i * src < span.lo * dst + dst
      && (src <= dst ==> span.hi == span.lo + 1)
      && (dst <= src ==> src / dst <= span.hi - span.lo <= src / dst + 1)
  {
    hide Part;
    assert (i + 1) * src == i * src + src;
    FloorIs(i * src, dst, Part(i, src, dst)) by { PartIs(i, src, dst); }
    if src <= dst {
      SpanInside(i, src, dst);
      PartIs(i + 1, src, dst);
      NextFloor(i * src, src, dst, Part(i, src, dst), Part(i + 1, src, dst)) by { PartIs(i, src, dst); }
    }
    if dst <= src {
      SpanEnd(i, src, dst);
      PartIs(i, src, dst);
      FloorsDiffer(i * src, src, dst);
    }
  }

  lemma PartIs(i: nat, src: nat, dst: nat)
    requires dst > 0
    ensures Part(i, src, dst) == i * src / dst
  {
  }

  lemma FloorIs(n: nat, d: nat, q: int)
    requires d > 0 && q == n / d
    ensures q * d <= n < q * d + d
  {
  }

  lemma NextFloor(n: nat, k: nat, d: nat, q: int, r: int)
    requires 0 < d && k <= d && q == n / d && r == (n + k) / d
    ensures r <= q + 1
  {
    FloorIs(n, d, q);
    assert (q + 2) * d == q * d + 2 * d;
    FloorLess(n + k, d, q + 2);
  }

  lemma FloorsDiffer(n: nat, k: nat, d: nat)
    requires d > 0
    ensures k / d <= (n + k) / d - n / d <= k / d + 1
  {
    var a, b := n / d, k / d;
    assert a * d <= n < a * d + d && b * d <= k < b * d + d;
    assert (a + b) * d == a * d + b * d && (a + b + 2) * d == a * d + b * d + 2 * d;
    FloorAtLeast(n + k, d, a + b);
    FloorLess(n + k, d, a + b + 2);
  }

  /** On a downscale a span ends exactly where the next would begin. */
  lemma SpanEnd(i: nat, src: nat, dst: nat)
    requires i < dst <= src
    ensures SpanOf(i, src, dst).hi == (i + 1) * src / dst <= src
  {
    var n, m := i * src, (i + 1) * src;
    assert m == n + src;
    var a := n / dst;
    assert a * dst <= n;
    assert (a + 1) * dst == a * dst + dst;
    FloorAtLeast(m, dst, a + 1);
    MulMono(i + 1, dst, src);
    assert m <= src * dst by { assert dst * src == src * dst; }
    assert (src + 1) * dst == src * dst + dst;
    FloorLess(m, dst, src + 1);
  }

  /** On a downscale the spans run end to end from the first source position to the last. */
  lemma SpansAbut(i: nat, src: nat, dst: nat)
    requires i < dst <= src
    ensures i == 0 ==> SpanOf(i, src, dst).lo == 0
    ensures i + 1 < dst ==> SpanOf(i, src, dst).hi == SpanOf(i + 1, src, dst).lo
    ensures i + 1 == dst ==> SpanOf(i, src, dst).hi == src
  {
    SpanEnd(i, src, dst);
    if i == 0 {
      assert 0 * src == 0;
    }
    if i + 1 == dst {
      assert dst * src == src * dst;
      FloorAtLeast(dst * src, dst, src);
    }
  }

  /** Source position k falls in one span. */
  lemma {:induction false} SpanCovers(k: nat, src: nat, dst: nat, n: nat) returns (i: nat)
    requires 0 < n <= dst <= src && k < SpanOf(n - 1, src, dst).hi
    ensures i < n && SpanOf(i, src, dst).lo <= k < SpanOf(i, src, dst).hi
    decreases n
  {
    SpansAbut(n - 1, src, dst);
    if SpanOf(n - 1, src, dst).lo <= k {
      i := n - 1;
    } else {
      SpansAbut(n - 2, src, dst);
      i := SpanCovers(k, src, dst, n - 1);
    }
  }

  lemma {:induction false} SpansOrdered(i: nat, j: nat, src: nat, dst: nat)
    requires i < j < dst <= src
    ensures SpanOf(i, src, dst).hi <= SpanOf(j, src, dst).lo
    decreases j
  {
    SpansAbut(j - 1, src, dst);
    if i < j - 1 {
      SpansOrdered(i, j - 1, src, dst);
      SpanInside(j - 1, src, dst);
    }
  }

  /** The spans of a downscale partition the source: each position is read once, by one span. */
  lemma SpansPartition(src: nat, dst: nat, k: nat)
    requires 0 < dst <= src && k < src
    ensures exists i :: 0 <= i < dst && SpanOf(i, src, dst).lo <= k < SpanOf(i, src, dst).hi
    ensures forall i, j | 0 <= i < dst && 0 <= j < dst ::
      SpanOf(i, src, dst).lo <= k < SpanOf(i, src, dst).hi && SpanOf(j, src, dst).lo <= k < SpanOf(j, src, dst).hi ==> i == j
  {
    SpansAbut(dst - 1, src, dst);
    var at := SpanCovers(k, src, dst, dst);
    forall i, j | 0 <= i < j < dst
      ensures SpanOf(i, src, dst).hi <= SpanOf(j, src, dst).lo
    {
      SpansOrdered(i, j, src, dst);
    }
  }

  method Spans(src: nat, dst: nat) returns (out: seq<Span>)
    ensures |out| == dst && forall i :: 0 <= i < dst ==> out[i] == SpanOf(i, src, dst)
  {
    hide Part;
    out := [];
    for i := 0 to dst
      invariant |out| == i && forall k :: 0 <= k < i ==> out[k] == SpanOf(k, src, dst)
    {
      var a := Part(i, src, dst);
      var b := Max(Part(i + 1, src, dst), a + 1);
      out := out + [Span(a, Min(b, src))];
    }
  }

  // -------------------------------------------------------------------- averages

  function SumSlice(line: Bytes, a: nat, b: nat): nat
    requires a <= b <= |line|
  {
    if a == b then 0 else SumSlice(line, a, b - 1) + line[b - 1]
  }

  lemma {:induction false} SumSliceBetween(line: Bytes, a: nat, b: nat, lo: int, hi: int)
    requires a <= b <= |line|
    requires forall i :: a <= i < b ==> lo <= line[i] <= hi
    ensures lo * (b - a) <= SumSlice(line, a, b) <= hi * (b - a)
    decreases b
  {
    if a < b {
      SumSliceBetween(line, a, b - 1, lo, hi);
      assert lo * (b - a) == lo * (b - 1 - a) + lo && hi * (b - a) == hi * (b - 1 - a) + hi;
    }
  }

  lemma {:induction false} AverageBetween(line: Bytes, a: nat, b: nat, lo: int, hi: int)
    requires a < b <= |line|
    requires forall i :: a <= i < b ==> lo <= line[i] <= hi
    ensures lo <= SumSlice(line, a, b) / (b - a) <= hi
  {
    SumSliceBetween(line, a, b, lo, hi);
    FloorBetween(SumSlice(line, a, b), b - a, lo, hi);
  }

  /** The floored mean of the positions a span takes in; of bytes, always a byte. */
  function Average(line: Bytes, span: Span): byte
    requires span.lo < span.hi <= |line|
  {
    AverageBetween(line, span.lo, span.hi, 0, 255);
    SumSlice(line, span.lo, span.hi) / (span.hi - span.lo)
  }

  // ------------------------------------------------------------- channels of an image

  /** Channel c of the pixel at (x, y). */
  function Sample(img: Image, x: nat, y: nat, c: nat): byte
    requires img.Valid() && x < img.w && y < img.h && c < 4
  {
    At(img.px, img.w * 4, img.h, 4 * x + c, y)
  }

  function ChannelRow(img: Image, y: nat, c: nat): (r: Bytes)
    requires img.Valid() && y < img.h && c < 4
    ensures |r| == img.w
  {
    seq(img.w, x requires 0 <= x < img.w => Sample(img, x, y, c))
  }

  function ChannelColumn(img: Image, x: nat, c: nat): (r: Bytes)
    requires img.Valid() && x < img.w && c < 4
    ensures |r| == img.h
  {
    seq(img.h, y requires 0 <= y < img.h => Sample(img, x, y, c))
  }

  /** The area average along the row: the first pass's value for one cell. */
  function AcrossCell(img: Image, dw: nat, x: nat, y: nat, c: nat): byte
    requires img.Valid() && img.w > 0 && x < dw && y < img.h && c < 4
  {
    SpanInside(x, img.w, dw);
    Average(ChannelRow(img, y, c), SpanOf(x, img.w, dw))
  }

  function AcrossColumn(img: Image, dw: nat, x: nat, c: nat): (r: Bytes)
    requires img.Valid() && img.w > 0 && x < dw && c < 4
    ensures |r| == img.h
  {
    seq(img.h, y requires 0 <= y < img.h => AcrossCell(img, dw, x, y, c))
  }

  /** The area average down the column of those. */
  function ResizeCell(img: Image, dw: nat, dh: nat, x: nat, y: nat, c: nat): byte
    requires img.Valid() && img.w > 0 && img.h > 0 && x < dw && y < dh && c < 4
  {
    SpanInside(y, img.h, dh);
    Average(AcrossColumn(img, dw, x, c), SpanOf(y, img.h, dh))
  }

  /** A channel of `n` pixels of a row, from `a` on, added up. */
  function AcrossTotal(img: Image, y: nat, c: nat, a: nat, n: nat): nat
    requires img.Valid() && y < img.h && c < 4 && a + n <= img.w
  {
    if n == 0 then 0 else AcrossTotal(img, y, c, a, n - 1) + Sample(img, a + n - 1, y, c)
  }

  /** The floored means of a stretch of each of `n` rows, from row `b` on, added up. */
  function DownTotal(img: Image, c: nat, a: nat, across: nat, b: nat, n: nat): nat
    requires img.Valid() && c < 4 && a + across <= img.w && b + n <= img.h && across > 0
  {
    if n == 0 then 0
    else
      FloorAtLeast(AcrossTotal(img, b + n - 1, c, a, across), across, 0);
      DownTotal(img, c, a, across, b, n - 1) + AcrossTotal(img, b + n - 1, c, a, across) / across
  }

  lemma {:induction false} AcrossIs(img: Image, y: nat, c: nat, a: nat, n: nat)
    requires img.Valid() && y < img.h && c < 4 && a + n <= img.w
    ensures SumSlice(ChannelRow(img, y, c), a, a + n) == AcrossTotal(img, y, c, a, n)
  {
    hide Sample;
    if n > 0 {
      AcrossIs(img, y, c, a, n - 1);
    }
  }

  lemma {:induction false} DownIs(img: Image, dw: nat, x: nat, c: nat, b: nat, n: nat)
    requires img.Valid() && img.w > 0 && x < dw && c < 4 && b + n <= img.h
    ensures
      var span := SpanOf(x, img.w, dw);
      && span.lo < span.hi <= img.w
      && SumSlice(AcrossColumn(img, dw, x, c), b, b + n) == DownTotal(img, c, span.lo, span.hi - span.lo, b, n)
  {
    hide SpanOf, ChannelRow;
    SpanInside(x, img.w, dw);
    if n > 0 {
      DownIs(img, dw, x, c, b, n - 1);
      var span := SpanOf(x, img.w, dw);
      AcrossIs(img, b + n - 1, c, span.lo, span.hi - span.lo);
    }
  }

  /** A resized cell is the floored mean down its span of rows of the floored means along its span of each. */
  lemma ResizeIsNaive(img: Image, dw: nat, dh: nat, x: nat, y: nat, c: nat)
    requires img.Valid() && img.w > 0 && img.h > 0 && x < dw && y < dh && c < 4
    ensures
      var across, down := SpanOf(x, img.w, dw), SpanOf(y, img.h, dh);
      && across.lo < across.hi <= img.w && down.lo < down.hi <= img.h
      && ResizeCell(img, dw, dh, x, y, c)
           == DownTotal(img, c, across.lo, across.hi - across.lo, down.lo, down.hi - down.lo) / (down.hi - down.lo)
  {
    hide SpanOf, AcrossColumn;
    SpanInside(x, img.w, dw);
    SpanInside(y, img.h, dh);
    var down := SpanOf(y, img.h, dh);
    DownIs(img, dw, x, c, down.lo, down.hi - down.lo);
  }

  /** `out` is `img` resized: itself where the size is its own, area averages otherwise. */
  ghost predicate IsResized(img: Image, dw: nat, dh: nat, out: Image)
    requires img.Valid() && img.w > 0 && img.h > 0
  {
    if (dw, dh) == (img.w, img.h) then out == img
    else
      && out.w == dw && out.h == dh && out.Valid()
      && forall x, y, c :: 0 <= x < dw && 0 <= y < dh && 0 <= c < 4 ==> Sample(out, x, y, c) == ResizeCell(img, dw, dh, x, y, c)
  }

  // ------------------------------------------------------------------ the two passes

  /** The flat index the loops use for a pixel. */
  lemma PixelIndex(img: Image, x: nat, y: nat)
    requires img.Valid() && x < img.w && y < img.h
    ensures (y * img.w + x) * 4 == y * img.w * 4 + x * 4
    ensures 0 <= (y * img.w + x) * 4 && (y * img.w + x) * 4 + 3 < |img.px|
    ensures forall c :: 0 <= c < 4 ==> img.px[(y * img.w + x) * 4 + c] == Sample(img, x, y, c)
  {
    var stride := img.w * 4;
    assert (y * img.w + x) * 4 == y * stride + 4 * x;
    CellInRange(stride, img.h, 4 * x, y);
    CellInRange(stride, img.h, 4 * x + 3, y);
    forall c | 0 <= c < 4
      ensures img.px[(y * img.w + x) * 4 + c] == Sample(img, x, y, c)
    {
      Cell(img.px, stride, img.h, 4 * x + c, y);
    }
  }

  /** One pixel of the first pass. */
  method PixelAcross(img: Image, y: nat, span: Span) returns (p: Bytes)
    requires img.Valid() && y < img.h && span.lo < span.hi <= img.w
    ensures |p| == 4 && forall c :: 0 <= c < 4 ==> p[c] == Average(ChannelRow(img, y, c), span)
  {
    var a, n := span.lo, span.hi - span.lo;
    var r: nat, g: nat, bl: nat, al: nat := 0, 0, 0, 0;
    var base := y * img.w * 4 + a * 4;
    for i := 0 to n
      invariant r == SumSlice(ChannelRow(img, y, 0), a, a + i)
      invariant g == SumSlice(ChannelRow(img, y, 1), a, a + i)
      invariant bl == SumSlice(ChannelRow(img, y, 2), a, a + i)
      invariant al == SumSlice(ChannelRow(img, y, 3), a, a + i)
    {
      PixelIndex(img, a + i, y);
      var o := base + i * 4;
      r := r + img.px[o];
      g := g + img.px[o + 1];
      bl := bl + img.px[o + 2];
      al := al + img.px[o + 3];
    }
    p := Quotients(ChannelRow(img, y, 0), ChannelRow(img, y, 1), ChannelRow(img, y, 2), ChannelRow(img, y, 3), span, r, g, bl, al);
  }

  /** One pixel of the second pass. */
  method PixelDown(mid: Image, x: nat, span: Span) returns (p: Bytes)
    requires mid.Valid() && x < mid.w && span.lo < span.hi <= mid.h
    ensures |p| == 4 && forall c :: 0 <= c < 4 ==> p[c] == Average(ChannelColumn(mid, x, c), span)
  {
    var r: nat, g: nat, bl: nat, al: nat := 0, 0, 0, 0;
    for sy := span.lo to span.hi
      invariant r == SumSlice(ChannelColumn(mid, x, 0), span.lo, sy)
      invariant g == SumSlice(ChannelColumn(mid, x, 1), span.lo, sy)
      invariant bl == SumSlice(ChannelColumn(mid, x, 2), span.lo, sy)
      invariant al == SumSlice(ChannelColumn(mid, x, 3), span.lo, sy)
    {
      PixelIndex(mid, x, sy);
      var o := (sy * mid.w + x) * 4;
      r := r + mid.px[o];
      g := g + mid.px[o + 1];
      bl := bl + mid.px[o + 2];
      al := al + mid.px[o + 3];
    }
    p := Quotients(ChannelColumn(mid, x, 0), ChannelColumn(mid, x, 1), ChannelColumn(mid, x, 2), ChannelColumn(mid, x, 3), span, r, g, bl, al);
  }

  /** The four sums divided, each quotient a byte. */
  method Quotients(ghost l0: Bytes, ghost l1: Bytes, ghost l2: Bytes, ghost l3: Bytes, span: Span, r: nat, g: nat, bl: nat, al: nat)
    returns (p: Bytes)
    requires |l0| == |l1| == |l2| == |l3| && span.lo < span.hi <= |l0|
    requires r == SumSlice(l0, span.lo, span.hi) && g == SumSlice(l1, span.lo, span.hi)
    requires bl == SumSlice(l2, span.lo, span.hi) && al == SumSlice(l3, span.lo, span.hi)
    ensures p == [Average(l0, span), Average(l1, span), Average(l2, span), Average(l3, span)]
  {
    var n := span.hi - span.lo;
    AverageBetween(l0, span.lo, span.hi, 0, 255);
    AverageBetween(l1, span.lo, span.hi, 0, 255);
    AverageBetween(l2, span.lo, span.hi, 0, 255);
    AverageBetween(l3, span.lo, span.hi, 0, 255);
    p := [r / n, g / n, bl / n, al / n];
  }

  /** Four bytes stored at a pixel: that pixel changes and no other. */
  method StorePixel(buf: array<byte>, ghost w: nat, ghost h: nat, ghost x: nat, ghost y: nat, o: nat, p: Bytes)
    requires buf.Length == h * (w * 4) && x < w && y < h && |p| == 4
    requires o == (y * w + x) * 4
    modifies buf
    ensures forall x', y', c :: 0 <= x' < w && 0 <= y' < h && 0 <= c < 4 ==>
      Sample(Image(w, h, buf[..]), x', y', c)
        == if x' == x && y' == y then p[c] else Sample(Image(w, h, old(buf[..])), x', y', c)
  {
    var s0 := buf[..];
    PixelIndex(Image(w, h, s0), x, y);
    buf[o] := p[0];
    buf[o + 1] := p[1];
    buf[o + 2] := p[2];
    buf[o + 3] := p[3];
    forall x', y', c | 0 <= x' < w && 0 <= y' < h && 0 <= c < 4
      ensures Sample(Image(w, h, buf[..]), x', y', c)
        == if x' == x && y' == y then p[c] else Sample(Image(w, h, s0), x', y', c)
    {
      var o' := (y' * w + x') * 4;
      PixelIndex(Image(w, h, s0), x', y');
      PixelIndex(Image(w, h, buf[..]), x', y');
      if x' != x || y' != y {
        CellsDiffer(w, x, y, x', y');
        assert o' + 4 <= o || o + 4 <= o';
      }
      assert buf[..][o' + c] == if x' == x && y' == y then p[c] else s0[o' + c];
    }
  }

  /** Rows first: every cell of the middle buffer is the average along its row. */
  method ResizeAcross(img: Image, dw: nat) returns (mid: Image)
    requires img.Valid() && img.w > 0
    ensures mid.w == dw && mid.h == img.h && mid.Valid()
    ensures forall x, y, c :: 0 <= x < dw && 0 <= y < img.h && 0 <= c < 4 ==> Sample(mid, x, y, c) == AcrossCell(img, dw, x, y, c)
  {
    var spans := Spans(img.w, dw);
    var buf := new byte[img.h * (dw * 4)](_ => 0);
    for y := 0 to img.h
      invariant forall x', y', c :: 0 <= x' < dw && 0 <= y' < y && 0 <= c < 4 ==>
        Sample(Image(dw, img.h, buf[..]), x', y', c) == AcrossCell(img, dw, x', y', c)
    {
      for x := 0 to dw
        invariant forall x', y', c :: 0 <= x' < dw && 0 <= y' < img.h && 0 <= c < 4 && (y' < y || (y' == y && x' < x)) ==>
          Sample(Image(dw, img.h, buf[..]), x', y', c) == AcrossCell(img, dw, x', y', c)
      {
        SpanInside(x, img.w, dw);
        var p := PixelAcross(img, y, spans[x]);
        assert (y * dw + x) * 4 == y * dw * 4 + x * 4 >= 0;
        StorePixel(buf, dw, img.h, x, y, y * dw * 4 + x * 4, p);
      }
    }
    mid := Image(dw, img.h, buf[..]);
  }

  /** Then columns: every cell of the result is the average down its column. */
  method ResizeDown(mid: Image, dh: nat) returns (out: Image)
    requires mid.Valid() && mid.h > 0
    ensures out.w == mid.w && out.h == dh && out.Valid()
    ensures forall y :: 0 <= y < dh ==> SpanOf(y, mid.h, dh).lo < SpanOf(y, mid.h, dh).hi <= mid.h
    ensures forall x, y, c :: 0 <= x < mid.w && 0 <= y < dh && 0 <= c < 4 ==>
      Sample(out, x, y, c) == Average(ChannelColumn(mid, x, c), SpanOf(y, mid.h, dh))
  {
    hide SpanOf, Average, ChannelColumn, Sample;
    forall y | 0 <= y < dh
      ensures SpanOf(y, mid.h, dh).lo < SpanOf(y, mid.h, dh).hi <= mid.h
    {
      SpanInside(y, mid.h, dh);
    }
    var spans := Spans(mid.h, dh);
    var buf := new byte[dh * (mid.w * 4)](_ => 0);
    for y := 0 to dh
      invariant forall x', y', c :: 0 <= x' < mid.w && 0 <= y' < y && 0 <= c < 4 ==>
        Sample(Image(mid.w, dh, buf[..]), x', y', c) == Average(ChannelColumn(mid, x', c), SpanOf(y', mid.h, dh))
    {
      for x := 0 to mid.w
        invariant forall x', y', c :: 0 <= x' < mid.w && 0 <= y' < dh && 0 <= c < 4 && (y' < y || (y' == y && x' < x)) ==>
          Sample(Image(mid.w, dh, buf[..]), x', y', c) == Average(ChannelColumn(mid, x', c), SpanOf(y', mid.h, dh))
      {
        var p := PixelDown(mid, x, spans[y]);
        assert (y * mid.w + x) * 4 == y * mid.w * 4 + x * 4 >= 0;
        StorePixel(buf, mid.w, dh, x, y, y * mid.w * 4 + x * 4, p);
      }
    }
    out := Image(mid.w, dh, buf[..]);
  }

  /** The resize: every cell the area average of the area averages, at its own size a copy. */
  method ResizeImage(img: Image, dw: nat, dh: nat) returns (out: Image)
    requires img.Valid() && img.w > 0 && img.h > 0
    ensures out.w == dw && out.h == dh && out.Valid()
    ensures IsResized(img, dw, dh, out)
  {
    if (dw, dh) == (img.w, img.h) {
      return img;
    }
    var mid := ResizeAcross(img, dw);
    out := ResizeDown(mid, dh);
    forall x, y, c | 0 <= x < dw && 0 <= y < dh && 0 <= c < 4
      ensures Sample(out, x, y, c) == ResizeCell(img, dw, dh, x, y, c)
    {
      assert ChannelColumn(mid, x, c) == AcrossColumn(img, dw, x, c);
    }
  }

  // ------------------------------------------------------------------------ theorems

  ghost predicate ChannelBetween(img: Image, c: nat, lo: int, hi: int)
    requires img.Valid() && c < 4
  {
    forall x, y :: 0 <= x < img.w && 0 <= y < img.h ==> lo <= Sample(img, x, y, c) <= hi
  }

  /** A resize keeps every channel within the source's own bounds; so a flat channel stays as it is. */
  lemma ResizeStaysBetween(img: Image, dw: nat, dh: nat, out: Image, c: nat, lo: int, hi: int)
    requires img.Valid() && img.w > 0 && img.h > 0 && c < 4
    requires IsResized(img, dw, dh, out) && ChannelBetween(img, c, lo, hi)
    ensures out.Valid() && ChannelBetween(out, c, lo, hi)
  {
    if (dw, dh) != (img.w, img.h) {
      forall x, y | 0 <= x < dw && 0 <= y < dh
        ensures lo <= Sample(out, x, y, c) <= hi
      {
        assert Sample(out, x, y, c) == ResizeCell(img, dw, dh, x, y, c);
        SpanInside(x, img.w, dw);
        SpanInside(y, img.h, dh);
        var spanX, spanY, column := SpanOf(x, img.w, dw), SpanOf(y, img.h, dh), AcrossColumn(img, dw, x, c);
        forall sy | 0 <= sy < img.h
          ensures lo <= column[sy] <= hi
        {
          AverageBetween(ChannelRow(img, sy, c), spanX.lo, spanX.hi, lo, hi);
        }
        AverageBetween(column, spanY.lo, spanY.hi, lo, hi);
      }
    }
  }

  // --------------------------------------------------------------- the halving chain

  ghost predicate Usable(img: Image) { img.Valid() && img.w > 0 && img.h > 0 }

  ghost predicate Halves(a: Image, b: Image) {
    && Usable(a) && Min(a.w, a.h) > 64
    && IsResized(a, a.w / 2, a.h / 2, b) && b.w == a.w / 2 && b.h == a.h / 2 && Usable(b)
  }

  ghost predicate Link(levels: seq<Image>, k: nat)
    requires 0 < k < |levels|
  {
    Halves(levels[k - 1], levels[k])
  }

  /** Each level is the one before it halved, which was still longer than 64 on both sides. */
  ghost predicate HalvingChain(levels: seq<Image>) {
    levels != [] && Usable(levels[0]) && forall k :: 0 < k < |levels| ==> Link(levels, k)
  }

  lemma LevelUsable(levels: seq<Image>, k: nat)
    requires HalvingChain(levels) && k < |levels|
    ensures Usable(levels[k])
  {
    hide IsResized;
    if k > 0 {
      assert Link(levels, k);
    }
  }

  /** The level an output is taken from: the last big enough to be halved to it, or else the crop itself. */
  function BestLevel(levels: seq<Image>, w: nat, h: nat): (k: nat)
    requires levels != []
    ensures k < |levels| && (k > 0 ==> levels[k].w >= w * 2 && levels[k].h >= h * 2)
    ensures forall j :: k < j < |levels| ==> !(levels[j].w >= w * 2 && levels[j].h >= h * 2)
  {
    var n := |levels| - 1;
    if n == 0 then 0
    else if levels[n].w >= w * 2 && levels[n].h >= h * 2 then n
    else BestLevel(levels[..n], w, h)
  }

  /** `out` is what the chain gives at a size: its best level, resized. */
  ghost predicate IsOutput(levels: seq<Image>, w: nat, h: nat, out: Image) {
    && levels != [] && Usable(levels[BestLevel(levels, w, h)])
    && IsResized(levels[BestLevel(levels, w, h)], w, h, out)
  }

  lemma {:induction false} ChainStaysBetween(levels: seq<Image>, k: nat, c: nat, lo: int, hi: int)
    requires HalvingChain(levels) && k < |levels| && c < 4 && ChannelBetween(levels[0], c, lo, hi)
    ensures Usable(levels[k]) && ChannelBetween(levels[k], c, lo, hi)
  {
    if k > 0 {
      ChainStaysBetween(levels, k - 1, c, lo, hi);
      assert Link(levels, k);
      ResizeStaysBetween(levels[k - 1], levels[k - 1].w / 2, levels[k - 1].h / 2, levels[k], c, lo, hi);
    }
  }

  lemma ChainExtends(levels: seq<Image>, next: Image)
    requires HalvingChain(levels) && Halves(levels[|levels| - 1], next)
    ensures HalvingChain(levels + [next])
  {
    hide Halves, Usable;
    var longer := levels + [next];
    forall k | 0 < k < |longer|
      ensures Link(longer, k)
    {
      if k < |levels| {
        assert Link(levels, k);
      }
    }
  }

  /** The scan over the levels: the last one big enough wins. */
  method FindBest(levels: seq<Image>, w: nat, h: nat) returns (best: nat)
    requires levels != []
    ensures best == BestLevel(levels, w, h)
  {
    best := 0;
    for k := 0 to |levels|
      invariant if k == 0 then best == 0 else best == BestLevel(levels[..k], w, h)
    {
      assert k > 0 ==> levels[..k + 1][..k] == levels[..k];
      if levels[k].w >= w * 2 && levels[k].h >= h * 2 {
        best := k;
      }
    }
    assert levels[..|levels|] == levels;
  }

  /** One crop of the master with its halving chain and the sizes already made. */
  class Source {
    var levels: seq<Image>
    var cache: map<(nat, nat), Image>

    ghost predicate Valid()
      reads this
    {
      && HalvingChain(levels) && Min(levels[|levels| - 1].w, levels[|levels| - 1].h) <= 64
      && forall key :: key in cache ==> IsOutput(levels, key.0, key.1, cache[key])
    }

    constructor (img: Image)
      requires img.Valid() && img.w > 0 && img.h > 0
      ensures Valid() && levels[0] == img && cache == map[]
    {
      hide IsResized, Link;
      levels := [img];
      cache := map[];
      new;
      while Min(levels[|levels| - 1].w, levels[|levels| - 1].h) > 64
        invariant HalvingChain(levels) && levels[0] == img && cache == map[]
        decreases levels[|levels| - 1].w
      {
        var last := levels[|levels| - 1];
        LevelUsable(levels, |levels| - 1);
        var next := ResizeImage(last, Max(last.w / 2, 1), Max(last.h / 2, 1));
        ChainExtends(levels, next);
        levels := levels + [next];
      }
    }

    /** An output at a size, made once from its best level and the same ever after. */
    method Output(w: nat, h: nat) returns (out: Image)
      requires Valid()
      modifies this`cache
      ensures Valid()
      ensures IsOutput(levels, w, h, out)
      ensures cache == old(cache)[(w, h) := out]
      ensures (w, h) in old(cache) ==> out == old(cache)[(w, h)]
    {
      hide IsResized, BestLevel, Link;
      var key := (w, h);
      if key !in cache {
        var best := FindBest(levels, w, h);
        LevelUsable(levels, best);
        var made := ResizeImage(levels[best], w, h);
        cache := cache[key := made];
      }
      out := cache[key];
    }
  }

  /** Every output keeps each channel within the crop's own bounds, however many levels it came through. */
  lemma OutputStaysBetween(levels: seq<Image>, w: nat, h: nat, out: Image, c: nat, lo: int, hi: int)
    requires HalvingChain(levels) && c < 4 && ChannelBetween(levels[0], c, lo, hi)
    requires IsOutput(levels, w, h, out)
    ensures out.Valid() && ChannelBetween(out, c, lo, hi)
  {
    var k := BestLevel(levels, w, h);
    ChainStaysBetween(levels, k, c, lo, hi);
    ResizeStaysBetween(levels[k], w, h, out, c, lo, hi);
  }
}
