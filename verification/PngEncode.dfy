/** The brand generator's PNG writer: posterised truecolour, or an exact palette. */
module PngEncode {
  import opened Common
  import opened PngScanlines
  import opened PngContainer
  import opened PngDecode

  datatype EncodeError = DivideByZero | PackError

  type Pixel = Bytes

  // -------------------------------------------------------------------- truecolour

  /** The mask keeps the top six bits of a byte. */
  function Masked(v: byte): byte { v / 4 * 4 }

  lemma MaskedIsMask(v: bv8)
    ensures Masked(v as int) == (v & 0xFC) as int
  {
    assert v & 0xFC == v / 4 * 4;
  }

  /** Red, green and blue masked; alpha, every fourth byte, as it was. */
  function Posterised(px: Bytes): (r: Bytes)
    ensures |r| == |px|
  {
    seq(|px|, i requires 0 <= i < |px| => if i % 4 == 3 then px[i] else Masked(px[i]))
  }

  /** Each pixel keeps its alpha and the top six bits of its red, green and blue. */
  lemma PosterisedPixel(px: Bytes, i: nat)
    requires 4 * i + 4 <= |px|
    ensures Posterised(px)[4 * i..4 * i + 4]
      == [Masked(px[4 * i]), Masked(px[4 * i + 1]), Masked(px[4 * i + 2]), px[4 * i + 3]]
  {
    assert (4 * i + 3) % 4 == 3 && 4 * i % 4 == 0 && (4 * i + 1) % 4 == 1 && (4 * i + 2) % 4 == 2;
  }

  /** The three-chunk file both writers end with, or the packing error a size over 32 bits raises. */
  function TruecolourPng(z: Zlib, img: Image): Result<Bytes, EncodeError> {
    if img.w == 0 then Err(DivideByZero)
    else
      var rows := RowsOf(Posterised(img.px), img.w * 4);
      var data := z.compress(Adaptive(rows, Zeros(img.w * 4), 4));
      if img.w >= WORD || img.h >= WORD || |data| >= WORD then Err(PackError)
      else
        Ok(SIGNATURE + ChunksBytes(z, [
          Chunk(IHDR, HeaderBytes(Header(img.w, img.h, 8, 6, 0, 0, 0))),
          Chunk(IDAT, data),
          Chunk(IEND, [])]))
  }

  // ------------------------------------------------------------------------ palette

  /** Distinct pixels in order of first appearance. */
  function FirstSeen(pixels: seq<Pixel>): (seen: seq<Pixel>)
    ensures forall p :: p in seen <==> p in pixels
    ensures forall i, j :: 0 <= i < j < |seen| ==> seen[i] != seen[j]
  {
    if pixels == [] then []
    else
      var n := |pixels| - 1;
      var before := FirstSeen(pixels[..n]);
      assert pixels == pixels[..n] + [pixels[n]];
      if pixels[n] in before then before else before + [pixels[n]]
  }

  function IndexIn(p: Pixel, seen: seq<Pixel>): (i: nat)
    requires p in seen
    ensures i < |seen| && seen[i] == p
  {
    if seen[0] == p then 0 else 1 + IndexIn(p, seen[1..])
  }

  function Indices(pixels: seq<Pixel>, seen: seq<Pixel>): (r: Bytes)
    requires |seen| <= 256 && forall p :: p in pixels ==> p in seen
    ensures |r| == |pixels|
  {
    seq(|pixels|, i requires 0 <= i < |pixels| => IndexIn(pixels[i], seen))
  }

  function Colours(seen: seq<Pixel>): Bytes
    requires forall p :: p in seen ==> |p| == 4
  {
    if seen == [] then [] else seen[0][..3] + Colours(seen[1..])
  }

  function Alphas(seen: seq<Pixel>): (r: Bytes)
    requires forall p :: p in seen ==> |p| == 4
    ensures |r| == |seen|
  {
    seq(|seen|, i requires 0 <= i < |seen| => seen[i][3])
  }

  /** The bytes without their trailing 255s. */
  function TrimOpaque(alphas: Bytes): (r: Bytes)
    ensures |r| <= |alphas| && r == alphas[..|r|]
    ensures forall i :: |r| <= i < |alphas| ==> alphas[i] == 255
    ensures r != [] ==> r[|r| - 1] != 255
  {
    if alphas == [] then []
    else if alphas[|alphas| - 1] == 255 then TrimOpaque(alphas[..|alphas| - 1])
    else alphas
  }

  function PaletteChunks(header: Header, seen: seq<Pixel>, data: Bytes): seq<Chunk>
    requires header.w < WORD && header.h < WORD
    requires forall p :: p in seen ==> |p| == 4
  {
    var trimmed := TrimOpaque(Alphas(seen));
    var head, plte := Chunk(IHDR, HeaderBytes(header)), Chunk(PLTE, Colours(seen));
    if trimmed == [] then [head, plte, Chunk(IDAT, data), Chunk(IEND, [])]
    else [head, plte, Chunk(TRNS, trimmed), Chunk(IDAT, data), Chunk(IEND, [])]
  }

  lemma {:induction false} ColoursLength(seen: seq<Pixel>)
    requires forall p :: p in seen ==> |p| == 4
    ensures |Colours(seen)| == 3 * |seen|
  {
    if seen != [] {
      ColoursLength(seen[1..]);
    }
  }

  lemma PaletteChunksWellFormed(header: Header, seen: seq<Pixel>, data: Bytes)
    requires header.w < WORD && header.h < WORD && |data| < WORD && |seen| <= 256
    requires forall p :: p in seen ==> |p| == 4
    ensures var chunks := PaletteChunks(header, seen, data);
            forall k :: 0 <= k < |chunks| ==> WellFormed(chunks[k])
  {
    ColoursLength(seen);
  }

  function PalettePng(z: Zlib, img: Image): Result<Bytes, EncodeError>
    requires |FirstSeen(RowsOf(img.px, 4))| <= 256
  {
    if img.w == 0 then Err(DivideByZero)
    else
      var pixels := RowsOf(img.px, 4);
      var seen := FirstSeen(pixels);
      var rows := RowsOf(Indices(pixels, seen), img.w);
      var data := z.compress(Adaptive(rows, Zeros(img.w), 1));
      if img.w >= WORD || img.h >= WORD || |data| >= WORD then Err(PackError)
      else
        PaletteChunksWellFormed(Header(img.w, img.h, 8, 3, 0, 0, 0), seen, data);
        Ok(SIGNATURE + ChunksBytes(z, PaletteChunks(Header(img.w, img.h, 8, 3, 0, 0, 0), seen, data)))
  }

  /** A palette where 256 colours are enough, truecolour otherwise. */
  function EncodePng(z: Zlib, img: Image): Result<Bytes, EncodeError> {
    if |FirstSeen(RowsOf(img.px, 4))| <= 256 then PalettePng(z, img) else TruecolourPng(z, img)
  }

  // --------------------------------------------------------------- the writer's loops

  /** The posterising loop, four bytes at a step over one flat buffer. */
  method MaskPixels(flat: array<byte>)
    requires flat.Length % 4 == 0
    modifies flat
    ensures flat[..] == Posterised(old(flat[..]))
  {
    var i := 0;
    while i < flat.Length
      invariant 0 <= i <= flat.Length && i % 4 == 0
      invariant forall k :: 0 <= k < i ==> flat[k] == Posterised(old(flat[..]))[k]
      invariant forall k :: i <= k < flat.Length ==> flat[k] == old(flat[k])
    {
      flat[i] := Masked(flat[i]);
      flat[i + 1] := Masked(flat[i + 1]);
      flat[i + 2] := Masked(flat[i + 2]);
      i := i + 4;
    }
  }

  method EncodeTruecolour(z: Zlib, img: Image) returns (r: Result<Bytes, EncodeError>)
    requires img.Valid()
    ensures r == TruecolourPng(z, img)
  {
    if img.w == 0 {
      return Err(DivideByZero);
    }
    var flat := new byte[|img.px|](i requires 0 <= i < |img.px| => img.px[i]);
    assert flat[..] == img.px;
    assert |img.px| % 4 == 0 by { assert |img.px| == (img.h * img.w) * 4; }
    MaskPixels(flat);
    var raw := FilterScanlines(flat[..], img.w * 4, 4);
    var data := z.compress(raw);
    if img.w >= WORD || img.h >= WORD || |data| >= WORD {
      return Err(PackError);
    }
    var chunks := [
      Chunk(IHDR, HeaderBytes(Header(img.w, img.h, 8, 6, 0, 0, 0))),
      Chunk(IDAT, data),
      Chunk(IEND, [])];
    return Ok(SIGNATURE + ChunksBytes(z, chunks));
  }

  /** `counts` numbers the pixels of `seen` in order. */
  ghost predicate Numbers(counts: map<Pixel, nat>, seen: seq<Pixel>) {
    |counts| == |seen| &&
    (forall i :: 0 <= i < |seen| ==> seen[i] in counts && counts[seen[i]] == i) &&
    (forall p :: p in counts ==> p in seen)
  }

  /** Distinct pixels numbered as they appear; it gives up at the 257th, having numbered that one too. */
  method CountColours(px: Bytes) returns (counts: map<Pixel, nat>)
    ensures |FirstSeen(RowsOf(px, 4))| <= 256 ==> Numbers(counts, FirstSeen(RowsOf(px, 4)))
    ensures |FirstSeen(RowsOf(px, 4))| > 256 <==> |counts| > 256
  {
    hide FirstSeen, RowsOf, Numbers;
    counts := map[];
    var pixels := RowsOf(px, 4);
    NothingNumbered();
    for i := 0 to |pixels|
      invariant Numbers(counts, FirstSeen(pixels[..i])) && |counts| <= 256
    {
      NumbersStep(counts, pixels[..i], pixels[i]);
      assert pixels[..i + 1] == pixels[..i] + [pixels[i]];
      if pixels[i] !in counts {
        counts := counts[pixels[i] := |counts|];
        if |counts| > 256 {
          SeenGrows(pixels, i + 1);
          return;
        }
      }
    }
    assert pixels[..|pixels|] == pixels;
    NumbersCount(counts, FirstSeen(pixels));
  }

  lemma NumbersCount(counts: map<Pixel, nat>, seen: seq<Pixel>)
    requires Numbers(counts, seen)
    ensures |counts| == |seen|
  {
  }

  lemma NothingNumbered()
    ensures Numbers(map[], FirstSeen([]))
  {
  }

  lemma SeenSnoc(pixels: seq<Pixel>, p: Pixel)
    ensures FirstSeen(pixels + [p]) == if p in FirstSeen(pixels) then FirstSeen(pixels) else FirstSeen(pixels) + [p]
  {
    assert (pixels + [p])[..|pixels|] == pixels;
  }

  lemma Numbered(counts: map<Pixel, nat>, seen: seq<Pixel>, p: Pixel)
    requires Numbers(counts, seen)
    ensures |counts| == |seen| && (p in counts <==> p in seen)
    ensures p !in counts ==> Numbers(counts[p := |counts|], seen + [p])
  {
    if p !in counts {
      assert |counts[p := |counts|]| == |counts| + 1;
    }
  }

  /** One pixel more: numbered already, or given the next number. */
  lemma {:induction false} NumbersStep(counts: map<Pixel, nat>, pixels: seq<Pixel>, p: Pixel)
    requires Numbers(counts, FirstSeen(pixels))
    ensures p in counts ==> Numbers(counts, FirstSeen(pixels + [p]))
    ensures p !in counts ==> Numbers(counts[p := |counts|], FirstSeen(pixels + [p])) && |counts[p := |counts|]| == |counts| + 1
    ensures |FirstSeen(pixels + [p])| == if p in counts then |counts| else |counts| + 1
  {
    hide FirstSeen, Numbers;
    SeenSnoc(pixels, p);
    Numbered(counts, FirstSeen(pixels), p);
    if p !in counts {
      NumbersCount(counts[p := |counts|], FirstSeen(pixels) + [p]);
    }
  }

  /** Pixels are numbered as they come: the first `n` pixels' colours have the first numbers. */
  lemma {:induction false} SeenGrows(pixels: seq<Pixel>, n: nat)
    requires n <= |pixels|
    ensures FirstSeen(pixels[..n]) <= FirstSeen(pixels)
    decreases |pixels|
  {
    if n < |pixels| {
      SeenGrows(pixels[..|pixels| - 1], n);
      assert pixels[..|pixels| - 1][..n] == pixels[..n];
    } else {
      assert pixels[..n] == pixels;
    }
  }

  /** The palette in number order, from the numbering. */
  method Entries(counts: map<Pixel, nat>, ghost seen: seq<Pixel>) returns (entries: seq<Pixel>)
    requires Numbers(counts, seen)
    ensures entries == seen
  {
    entries := [];
    for i := 0 to |counts|
      invariant entries == seen[..i]
    {
      assert seen[i] in counts && counts[seen[i]] == i;
      var p :| p in counts && counts[p] == i;
      assert p in seen;
      entries := entries + [p];
    }
  }

  /** One byte a pixel: its number in the palette. */
  method NumberPixels(pixels: seq<Pixel>, counts: map<Pixel, nat>) returns (rows: Bytes)
    requires |FirstSeen(pixels)| <= 256 && Numbers(counts, FirstSeen(pixels))
    ensures rows == Indices(pixels, FirstSeen(pixels))
  {
    ghost var seen := FirstSeen(pixels);
    var out := new byte[|pixels|](_ => 0);
    for i := 0 to |pixels|
      invariant forall k :: 0 <= k < i ==> out[k] == Indices(pixels, seen)[k]
    {
      assert pixels[i] in seen;
      ghost var at := IndexIn(pixels[i], seen);
      out[i] := counts[pixels[i]];
    }
    rows := out[..];
  }

  method EncodePalette(z: Zlib, img: Image, counts: map<Pixel, nat>) returns (r: Result<Bytes, EncodeError>)
    requires img.Valid() && |FirstSeen(RowsOf(img.px, 4))| <= 256
    requires Numbers(counts, FirstSeen(RowsOf(img.px, 4)))
    ensures r == PalettePng(z, img)
  {
    var pixels := RowsOf(img.px, 4);
    var entries := Entries(counts, FirstSeen(pixels));
    var rows := NumberPixels(pixels, counts);
    if img.w == 0 {
      return Err(DivideByZero);
    }
    var raw := FilterScanlines(rows, img.w, 1);
    var data := z.compress(raw);
    if img.w >= WORD || img.h >= WORD || |data| >= WORD {
      return Err(PackError);
    }
    PaletteChunksWellFormed(Header(img.w, img.h, 8, 3, 0, 0, 0), entries, data);
    return Ok(SIGNATURE + ChunksBytes(z, PaletteChunks(Header(img.w, img.h, 8, 3, 0, 0, 0), entries, data)));
  }

  method Encode(z: Zlib, img: Image) returns (r: Result<Bytes, EncodeError>)
    requires img.Valid()
    ensures r == EncodePng(z, img)
  {
    var counts := CountColours(img.px);
    if |counts| <= 256 {
      r := EncodePalette(z, img, counts);
    } else {
      r := EncodeTruecolour(z, img);
    }
  }
}
