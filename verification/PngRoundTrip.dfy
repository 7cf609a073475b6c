/**
 What the PNG writer and reader promise each other, and what RFC 2083 makes of
 the writer's files.
 */
module PngRoundTrip {
  import opened Common
  import PngFilter
  import opened PngScanlines
  import opened PngContainer
  import opened PngDecode
  import opened PngEncode

  // ------------------------------------------------- the generator's own reader

  /** The bodies of every chunk of one type, in order. */
  function Bodies(chunks: seq<Chunk>, tag: Bytes): seq<Bytes> {
    if chunks == [] then []
    else (if chunks[0].tag == tag then [chunks[0].body] else []) + Bodies(chunks[1..], tag)
  }

  function Pixels(rows: seq<Bytes>, ch: nat): Bytes {
    if rows == [] then [] else PixelsOfRow(rows[0], ch) + Pixels(rows[1..], ch)
  }

  lemma StreamCut(raw: Bytes, pos: nat, kind: byte, filtered: Bytes, rest: Bytes)
    requires pos <= |raw| && raw[pos..] == [kind] + filtered + rest
    ensures pos + 1 + |filtered| <= |raw| && raw[pos] == kind
    ensures Slice(raw, pos + 1, pos + 1 + |filtered|) == filtered
    ensures raw[pos + 1 + |filtered|..] == rest
  {
    StreamHead(kind, filtered, rest);
    assert |raw[pos..]| == 1 + |filtered| + |rest|;
    assert raw[pos..][0] == raw[pos];
    assert raw[pos..][1..1 + |filtered|] == raw[pos + 1..pos + 1 + |filtered|];
    assert raw[pos..][1 + |filtered|..] == raw[pos + 1 + |filtered|..];
  }

  lemma {:induction false} ReadsStream(raw: Bytes, pos: nat, rows: seq<Bytes>, kinds: seq<byte>, above: Bytes, ch: nat)
    requires ch > 0 && |kinds| == |rows| && pos <= |raw|
    requires forall y :: 0 <= y < |rows| ==> |rows[y]| == |above| && kinds[y] <= 4
    requires raw[pos..] == Stream(rows, kinds, above, ch)
    ensures ReadRows(raw, pos, |rows|, above, |above|, ch) == Ok(Pixels(rows, ch))
    decreases |rows|
  {
    hide ReadRows, RowAt, PixelsOfRow, PngFilter.FilterRow;
    ReadRowsStep([], raw, pos, |rows|, above, |above|, ch);
    var r := ReadRows(raw, pos, |rows|, above, |above|, ch);
    assert r.Ok? ==> [] + r.value == r.value;
    if rows != [] {
      var filtered := PngFilter.FilterRow(kinds[0], rows[0], above, ch);
      var rest := Stream(rows[1..], kinds[1..], rows[0], ch);
      StreamCut(raw, pos, kinds[0], filtered, rest);
      RowAtIs(raw, pos, kinds[0], rows[0], above, ch);
      ReadsStream(raw, pos + 1 + |above|, rows[1..], kinds[1..], rows[0], ch);
      assert [] + PixelsOfRow(rows[0], ch) == PixelsOfRow(rows[0], ch);
    }
  }

  lemma RowAtIs(raw: Bytes, pos: nat, kind: byte, row: Bytes, above: Bytes, ch: nat)
    requires ch > 0 && kind <= 4 && |row| == |above| && pos < |raw| && raw[pos] == kind
    requires Slice(raw, pos + 1, pos + 1 + |above|) == PngFilter.FilterRow(kind, row, above, ch)
    ensures RowAt(raw, pos, above, ch) == Ok((row, PixelsOfRow(row, ch)))
  {
    RowOutcome(kind, row, above, ch);
  }

  lemma {:induction false} WalkGathers(middle: seq<Chunk>, after: seq<Chunk>, found: Found)
    requires forall k :: 0 <= k < |middle| ==> middle[k].tag != IHDR && middle[k].tag != IEND
    ensures WalkChunks(middle + [Chunk(IEND, [])] + after, found)
      == Ok(found.(idat := found.idat + Concat(Bodies(middle, IDAT))))
  {
    var all := middle + [Chunk(IEND, [])] + after;
    if middle == [] {
      assert all[0].tag == IEND;
      assert found.idat + [] == found.idat;
    } else {
      assert all[0] == middle[0] && all[1..] == middle[1..] + [Chunk(IEND, [])] + after;
      if middle[0].tag == IDAT {
        WalkGathers(middle[1..], after, found.(idat := found.idat + middle[0].body));
        assert [middle[0].body] + Bodies(middle[1..], IDAT) == Bodies(middle, IDAT);
        assert Bodies(middle, IDAT)[1..] == Bodies(middle[1..], IDAT);
        assert found.idat + middle[0].body + Concat(Bodies(middle[1..], IDAT)) == found.idat + Concat(Bodies(middle, IDAT));
      } else {
        WalkGathers(middle[1..], after, found);
        assert Bodies(middle, IDAT) == Bodies(middle[1..], IDAT);
      }
    }
  }

  /** Pixel `x` of a row: its own bytes, and full alpha where the row has none. */
  function PixelOf(row: Bytes, x: nat, ch: nat): Bytes
    requires (ch == 3 || ch == 4) && ch * x + ch <= |row|
  {
    if ch == 3 then row[3 * x..3 * x + 3] + [255] else row[4 * x..4 * x + 4]
  }

  /** The image is the rows: `w` pixels to a row, row-major. */
  ghost predicate Shows(px: Bytes, rows: seq<Bytes>, w: nat, ch: nat)
    requires ch == 3 || ch == 4
    requires forall y :: 0 <= y < |rows| ==> |rows[y]| == ch * w
    decreases |rows|
  {
    if rows == [] then px == []
    else
      && |px| >= 4 * w
      && (forall x: nat :: x < w ==> px[4 * x..4 * x + 4] == PixelOf(rows[0], x, ch))
      && Shows(px[4 * w..], rows[1..], w, ch)
  }

  lemma RowPixels(row: Bytes, w: nat, ch: nat)
    requires (ch == 3 || ch == 4) && |row| == ch * w
    ensures |PixelsOfRow(row, ch)| == 4 * w
    ensures forall x: nat :: x < w ==> PixelsOfRow(row, ch)[4 * x..4 * x + 4] == PixelOf(row, x, ch)
  {
    hide Opaque;
    if ch == 3 {
      OpaqueLength(row);
      forall x: nat | x < w
        ensures Opaque(row)[4 * x..4 * x + 4] == PixelOf(row, x, ch)
      {
        OpaquePixel(row, x);
      }
    }
  }

  lemma {:induction false} PixelsShow(rows: seq<Bytes>, w: nat, ch: nat)
    requires ch == 3 || ch == 4
    requires forall y :: 0 <= y < |rows| ==> |rows[y]| == ch * w
    ensures Shows(Pixels(rows, ch), rows, w, ch)
  {
    hide PixelsOfRow, PixelOf;
    if rows != [] {
      RowPixels(rows[0], w, ch);
      PixelsShow(rows[1..], w, ch);
      var first, rest := PixelsOfRow(rows[0], ch), Pixels(rows[1..], ch);
      assert (first + rest)[4 * w..] == rest;
      forall x: nat | x < w
        ensures (first + rest)[4 * x..4 * x + 4] == PixelOf(rows[0], x, ch)
      {
        assert (first + rest)[4 * x..4 * x + 4] == first[4 * x..4 * x + 4];
      }
    }
  }

  /** What the reader takes on: 8-bit samples, not interlaced, RGB or RGBA. */
  ghost predicate Readable(header: Header) { header.depth == 8 && header.interlace == 0 && header.colour in {2, 6} }

  /**
   The reader reads every 8-bit non-interlaced RGB or RGBA file: any of the five
   filters on any row, the image data cut into any number of chunks, any other
   chunks among them, and whatever follows the end chunk. The rows are those the
   image data holds by the standard's own rule, and the image is their pixels.
   */
  lemma DecodesStandardFile(z: Zlib, header: Header, middle: seq<Chunk>, after: seq<Chunk>, raw: Bytes, rows: seq<Bytes>)
    requires header.w < WORD && header.h < WORD && Readable(header) && |rows| == header.h
    requires forall k :: 0 <= k < |middle| ==> WellFormed(middle[k]) && middle[k].tag != IHDR && middle[k].tag != IEND
    requires forall k :: 0 <= k < |after| ==> WellFormed(after[k])
    requires z.decompress(Concat(Bodies(middle, IDAT))) == Some(raw)
    requires var ch := if header.colour == 2 then 3 else 4; Spells(raw, rows, Zeros(ch * header.w), ch)
    ensures
      var chunks := [Chunk(IHDR, HeaderBytes(header))] + middle + [Chunk(IEND, [])] + after;
      var ch := if header.colour == 2 then 3 else 4;
      && (forall k :: 0 <= k < |chunks| ==> WellFormed(chunks[k]))
      && (forall y :: 0 <= y < |rows| ==> |rows[y]| == ch * header.w)
      && match DecodePng(z, SIGNATURE + ChunksBytes(z, chunks))
         case Ok(img) => img.w == header.w && img.h == header.h && Shows(img.px, rows, header.w, ch)
         case Err(_) => false
  {
    hide Walk, WalkChunks, ChunksBytes, HeaderBytes, Stream, Spells, ReadRows, Pixels, Bodies, Shows;
    var ch := if header.colour == 2 then 3 else 4;
    var stride := ch * header.w;
    assert stride == header.w * ch;
    StartsWalk(z, header, middle, after);
    var kinds := SpelledIsStream(raw, rows, Zeros(stride), ch);
    assert raw[0..] == raw;
    ReadsStream(raw, 0, rows, kinds, Zeros(stride), ch);
    PixelsShow(rows, header.w, ch);
  }

  /** A file that begins with its header is decoded as what the walk gathers. */
  lemma StartsWalk(z: Zlib, header: Header, middle: seq<Chunk>, after: seq<Chunk>)
    requires header.w < WORD && header.h < WORD
    requires forall k :: 0 <= k < |middle| ==> WellFormed(middle[k]) && middle[k].tag != IHDR && middle[k].tag != IEND
    requires forall k :: 0 <= k < |after| ==> WellFormed(after[k])
    ensures
      var chunks := [Chunk(IHDR, HeaderBytes(header))] + middle + [Chunk(IEND, [])] + after;
      && (forall k :: 0 <= k < |chunks| ==> WellFormed(chunks[k]))
      && DecodePng(z, SIGNATURE + ChunksBytes(z, chunks)) == DecodeFound(z, Found(Some(header), Concat(Bodies(middle, IDAT))))
  {
    hide Walk, WalkChunks, ChunksBytes, HeaderBytes, Bodies, DecodeFound;
    var chunks := [Chunk(IHDR, HeaderBytes(header))] + middle + [Chunk(IEND, [])] + after;
    var data := SIGNATURE + ChunksBytes(z, chunks);
    assert data[..8] == SIGNATURE && data[8..] == ChunksBytes(z, chunks);
    WalkReadsChunks(z, chunks, Found(None, []));
    WalkStandard(header, middle, after);
  }

  /** Any other profile it refuses, and image data that does not decompress. */
  lemma {:induction false} DecodeRefuses(z: Zlib, header: Header, middle: seq<Chunk>, after: seq<Chunk>)
    requires header.w < WORD && header.h < WORD
    requires forall k :: 0 <= k < |middle| ==> WellFormed(middle[k]) && middle[k].tag != IHDR && middle[k].tag != IEND
    requires forall k :: 0 <= k < |after| ==> WellFormed(after[k])
    ensures
      var chunks := [Chunk(IHDR, HeaderBytes(header))] + middle + [Chunk(IEND, [])] + after;
      && (forall k :: 0 <= k < |chunks| ==> WellFormed(chunks[k]))
      && var r := DecodePng(z, SIGNATURE + ChunksBytes(z, chunks));
         && (r == Err(Unsupported) <==> !Readable(header))
         && (r == Err(ZlibError) <==> Readable(header) && z.decompress(Concat(Bodies(middle, IDAT))).None?)
  {
    hide DecodePng, ChunksBytes, HeaderBytes, Bodies, ReadRows, Zeros, Concat;
    StartsWalk(z, header, middle, after);
    var raw := z.decompress(Concat(Bodies(middle, IDAT)));
    if Readable(header) && raw.Some? {
      RowErrors(raw.value, 0, header.h, Zeros(header.w * Channels(header)), header.w * Channels(header), Channels(header));
    }
  }

  lemma {:induction false} RowErrors(raw: Bytes, pos: nat, rows: nat, above: Bytes, stride: nat, ch: nat)
    requires ch > 0 && (|above| == stride || |raw| <= pos)
    ensures
      var r := ReadRows(raw, pos, rows, above, stride, ch);
      r.Err? ==> r.error == IndexError || r.error == UnknownFilter
    decreases rows
  {
    hide RowAt;
    if rows > 0 && pos < |raw| {
      RowError(raw, pos, above, ch);
      if RowAt(raw, pos, above, ch).Ok? {
        ReadRowsStep([], raw, pos, rows, above, stride, ch);
        RowErrors(raw, pos + 1 + stride, rows - 1, RowAt(raw, pos, above, ch).value.0, stride, ch);
      }
    }
  }

  lemma RowError(raw: Bytes, pos: nat, above: Bytes, ch: nat)
    requires ch > 0 && pos < |raw|
    ensures RowAt(raw, pos, above, ch).Err? ==> RowAt(raw, pos, above, ch).error in {IndexError, UnknownFilter}
  {
  }

  /** What does not begin as a PNG is refused, and so are chunks with no header before the end. */
  lemma DecodeNeedsHeader(z: Zlib, middle: seq<Chunk>, after: seq<Chunk>, data: Bytes)
    requires forall k :: 0 <= k < |middle| ==> WellFormed(middle[k]) && middle[k].tag != IHDR && middle[k].tag != IEND
    requires forall k :: 0 <= k < |after| ==> WellFormed(after[k])
    ensures DecodePng(z, SIGNATURE + ChunksBytes(z, middle + [Chunk(IEND, [])] + after)) == Err(NoHeader)
    ensures |data| < 8 || data[..8] != [137, 80, 78, 71, 13, 10, 26, 10] ==> DecodePng(z, data) == Err(NotPng)
  {
    hide Walk, WalkChunks, ChunksBytes, Bodies;
    var none := middle + [Chunk(IEND, [])] + after;
    var file := SIGNATURE + ChunksBytes(z, none);
    assert file[..8] == SIGNATURE && file[8..] == ChunksBytes(z, none);
    WalkReadsChunks(z, none, Found(None, []));
    WalkGathers(middle, after, Found(None, []));
  }

  /** A header of any length but thirteen is refused. */
  lemma HeaderLengthMatters(z: Zlib, body: Bytes, after: seq<Chunk>)
    requires |body| < WORD && forall k :: 0 <= k < |after| ==> WellFormed(after[k])
    ensures |body| != 13 ==> DecodePng(z, SIGNATURE + ChunksBytes(z, [Chunk(IHDR, body)] + after)) == Err(StructError)
  {
    hide Walk, ChunksBytes;
    TagsDiffer();
    var chunks := [Chunk(IHDR, body)] + after;
    var file := SIGNATURE + ChunksBytes(z, chunks);
    assert file[..8] == SIGNATURE && file[8..] == ChunksBytes(z, chunks);
    WalkReadsChunks(z, chunks, Found(None, []));
  }

  lemma WalkStandard(header: Header, middle: seq<Chunk>, after: seq<Chunk>)
    requires header.w < WORD && header.h < WORD
    requires forall k :: 0 <= k < |middle| ==> middle[k].tag != IHDR && middle[k].tag != IEND
    ensures WalkChunks([Chunk(IHDR, HeaderBytes(header))] + middle + [Chunk(IEND, [])] + after, Found(None, []))
      == Ok(Found(Some(header), Concat(Bodies(middle, IDAT))))
  {
    hide HeaderBytes, Bodies;
    TagsDiffer();
    var first := Chunk(IHDR, HeaderBytes(header));
    var chunks := [first] + middle + [Chunk(IEND, [])] + after;
    assert chunks[0] == first && chunks[1..] == middle + [Chunk(IEND, [])] + after;
    HeaderRoundTrip(header);
    WalkGathers(middle, after, Found(Some(header), []));
    assert [] + Concat(Bodies(middle, IDAT)) == Concat(Bodies(middle, IDAT));
  }

  /** Rows of four-byte pixels show as themselves. */
  lemma {:induction false} ShowsItself(px: Bytes, rows: seq<Bytes>, w: nat)
    requires forall y :: 0 <= y < |rows| ==> |rows[y]| == 4 * w
    requires Shows(px, rows, w, 4)
    ensures px == Concat(rows)
    decreases |rows|
  {
    if rows != [] {
      ShowsItself(px[4 * w..], rows[1..], w);
      forall i | 0 <= i < 4 * w
        ensures px[i] == rows[0][i]
      {
        var x: nat := i / 4;
        assert px[4 * x..4 * x + 4][i % 4] == PixelOf(rows[0], x, 4)[i % 4];
      }
      assert px == px[..4 * w] + px[4 * w..] && px[..4 * w] == rows[0];
    }
  }

  /** Truecolour out and in again: the image comes back posterised and otherwise exact. */
  lemma TruecolourRoundTrip(z: Zlib, img: Image)
    requires Lossless(z) && img.Valid()
    ensures TruecolourPng(z, img).Ok? ==> DecodePng(z, TruecolourPng(z, img).value) == Ok(img.(px := Posterised(img.px)))
  {
    hide RowsOf, DecodePng, HeaderBytes, Posterised, ChunksBytes, Stream, Spells, BestKinds, Shows;
    if TruecolourPng(z, img).Ok? {
      var stride := img.w * 4;
      var px := Posterised(img.px);
      var rows := RowsOf(px, stride);
      RowsOfConcat(px, stride, img.h);
      var kinds := BestKinds(rows, Zeros(stride), 4);
      var raw := Adaptive(rows, Zeros(stride), 4);
      StreamSpells(rows, kinds, Zeros(stride), 4);
      var header := Header(img.w, img.h, 8, 6, 0, 0, 0);
      var middle := [Chunk(IDAT, z.compress(raw))];
      assert z.decompress(z.compress(raw)) == Some(raw);
      assert Bodies(middle, IDAT) == [z.compress(raw)];
      assert Concat([z.compress(raw)]) == z.compress(raw);
      assert Zeros(stride) == Zeros(4 * img.w);
      DecodesStandardFile(z, header, middle, [], raw, rows);
      var chunks := [Chunk(IHDR, HeaderBytes(header)), Chunk(IDAT, z.compress(raw)), Chunk(IEND, [])];
      assert [Chunk(IHDR, HeaderBytes(header))] + middle + [Chunk(IEND, [])] + [] == chunks;
      ShowsItself(DecodePng(z, SIGNATURE + ChunksBytes(z, chunks)).value.px, rows, img.w);
    }
  }

  // ---------------------------------------------------- the standard's own reader

  /** Every chunk of type `a` stands before every chunk of type `b`. */
  predicate Precedes(chunks: seq<Chunk>, a: Bytes, b: Bytes) {
    forall i, j :: 0 <= i < j < |chunks| ==> !(chunks[i].tag == b && chunks[j].tag == a)
  }

  /** RFC 2083 section 5.6: one header first, one empty end chunk last, the palette before the data. */
  predicate Framed(chunks: seq<Chunk>) {
    && |chunks| >= 2
    && chunks[0].tag == IHDR && |chunks[0].body| == 13
    && chunks[|chunks| - 1] == Chunk(IEND, [])
    && (forall k :: 0 < k < |chunks| - 1 ==> chunks[k].tag != IHDR && chunks[k].tag != IEND)
    && Precedes(chunks, PLTE, TRNS) && Precedes(chunks, PLTE, IDAT) && Precedes(chunks, TRNS, IDAT)
  }

  /** Section 4.2.9: an entry past the end of tRNS is opaque. */
  function Lookup(i: byte, plte: Bytes, trns: Bytes): Option<Pixel> {
    if 3 * i + 3 > |plte| then None
    else Some(plte[3 * i..3 * i + 3] + [if i < |trns| then trns[i] else 255])
  }

  function Lookups(indices: Bytes, plte: Bytes, trns: Bytes): Option<Bytes> {
    if indices == [] then Some([])
    else
      var p, rest := Lookup(indices[0], plte, trns), Lookups(indices[1..], plte, trns);
      if p.None? || rest.None? then None else Some(p.value + rest.value)
  }

  function ReadIndexed(chunks: seq<Chunk>, indices: Bytes): Option<Bytes> {
    var plte, trns := Bodies(chunks, PLTE), Bodies(chunks, TRNS);
    if |plte| != 1 || |plte[0]| % 3 != 0 || |plte[0]| == 0 || |plte[0]| > 768 then None
    else if |trns| > 1 || (|trns| == 1 && 3 * |trns[0]| > |plte[0]|) then None
    else Lookups(indices, plte[0], if trns == [] then [] else trns[0])
  }

  /** An 8-bit RGBA or palette file as RFC 2083 says to read one: strictly, checksums and all. */
  function ReadPng(z: Zlib, data: Bytes): Option<Image> {
    if |data| < 8 || data[..8] != SIGNATURE then None
    else
      var chunks := ParseChunks(z, data[8..]);
      if chunks.None? || !Framed(chunks.value) then None
      else ReadChunks(z, chunks.value)
  }

  function ReadChunks(z: Zlib, chunks: seq<Chunk>): Option<Image>
    requires Framed(chunks)
  {
    var header := HeaderOf(chunks[0].body);
    if header != Header(header.w, header.h, 8, header.colour, 0, 0, 0) || header.w == 0 || header.h == 0 then None
    else if header.colour != 3 && header.colour != 6 then None
    else
      var ch := SamplesPerPixel(header);
      var raw := z.decompress(Concat(Bodies(chunks, IDAT)));
      if raw.None? || |raw.value| != header.h * (1 + header.w * ch) then None
      else
        var rows := UnfilterRows(raw.value, header.h, Zeros(header.w * ch), ch);
        if rows.Err? then None
        else
          var px := if ch == 1 then ReadIndexed(chunks, Concat(rows.value)) else Some(Concat(rows.value));
          if px.None? then None else Some(Image(header.w, header.h, px.value))
  }

  /** What the strict reader recovers from image data the writer filtered. */
  lemma ReadsAdaptive(data: Bytes, w: nat, h: nat, ch: nat)
    requires ch > 0 && w > 0 && |data| == h * (w * ch)
    ensures
      var stride := w * ch;
      var raw := Adaptive(RowsOf(data, stride), Zeros(stride), ch);
      && |raw| == h * (1 + stride)
      && UnfilterRows(raw, h, Zeros(stride), ch).Ok?
      && Concat(UnfilterRows(raw, h, Zeros(stride), ch).value) == data
  {
    var stride := w * ch;
    var rows := RowsOf(data, stride);
    RowsOfConcat(data, stride, h);
    var kinds := BestKinds(rows, Zeros(stride), ch);
    StreamRoundTrip(rows, kinds, Zeros(stride), ch);
    StreamLength(rows, kinds, Zeros(stride), ch);
  }

  lemma StrictParse(z: Zlib, chunks: seq<Chunk>)
    requires forall k :: 0 <= k < |chunks| ==> WellFormed(chunks[k])
    requires Framed(chunks)
    ensures ReadPng(z, SIGNATURE + ChunksBytes(z, chunks)) == ReadChunks(z, chunks)
  {
    var data := SIGNATURE + ChunksBytes(z, chunks);
    assert data[..8] == SIGNATURE && data[8..] == ChunksBytes(z, chunks);
    ParseReadsChunks(z, chunks);
  }

  /** The truecolour file is a valid PNG holding the posterised image. */
  lemma TruecolourIsStandard(z: Zlib, img: Image)
    requires Lossless(z) && img.Valid() && img.h > 0
    ensures TruecolourPng(z, img).Ok? ==> ReadPng(z, TruecolourPng(z, img).value) == Some(img.(px := Posterised(img.px)))
  {
    hide HeaderBytes, HeaderOf, Adaptive, UnfilterRows, RowsOf, ParseChunks, ReadChunks;
    if TruecolourPng(z, img).Ok? {
      TagsDiffer();
      var px := Posterised(img.px);
      var raw := Adaptive(RowsOf(px, img.w * 4), Zeros(img.w * 4), 4);
      var header := Header(img.w, img.h, 8, 6, 0, 0, 0);
      var chunks := [Chunk(IHDR, HeaderBytes(header)), Chunk(IDAT, z.compress(raw)), Chunk(IEND, [])];
      StrictParse(z, chunks);
      assert z.decompress(z.compress(raw)) == Some(raw);
      OneBody(chunks, IDAT, 1);
      ReadsAdaptive(px, img.w, img.h, 4);
      ReadsParts(z, chunks, header, raw, px);
    }
  }

  function SamplesPerPixel(header: Header): nat { if header.colour == 3 then 1 else 4 }

  /** The strict reader on chunks whose parts are known. */
  lemma ReadsParts(z: Zlib, chunks: seq<Chunk>, header: Header, raw: Bytes, px: Bytes)
    requires Framed(chunks) && 0 < header.w < WORD && 0 < header.h < WORD
    requires chunks[0].body == HeaderBytes(header)
    requires header == Header(header.w, header.h, 8, header.colour, 0, 0, 0) && header.colour in {3, 6}
    requires |Bodies(chunks, IDAT)| == 1 && z.decompress(Bodies(chunks, IDAT)[0]) == Some(raw)
    requires
      var ch := SamplesPerPixel(header);
      var rows := UnfilterRows(raw, header.h, Zeros(header.w * ch), ch);
      && |raw| == header.h * (1 + header.w * ch) && rows.Ok?
      && if ch == 1 then ReadIndexed(chunks, Concat(rows.value)) == Some(px) else Concat(rows.value) == px
    ensures ReadChunks(z, chunks) == Some(Image(header.w, header.h, px))
  {
    hide HeaderBytes, HeaderOf, UnfilterRows, Bodies, ReadIndexed;
    HeaderRoundTrip(header);
    var bodies := Bodies(chunks, IDAT);
    assert Concat(bodies) == bodies[0] + Concat(bodies[1..]) == bodies[0];
  }

  /** Where one chunk alone has the type, its body is all there is. */
  lemma {:induction false} OneBody(chunks: seq<Chunk>, tag: Bytes, at: nat)
    requires at < |chunks| && chunks[at].tag == tag
    requires forall k :: 0 <= k < |chunks| && k != at ==> chunks[k].tag != tag
    ensures Bodies(chunks, tag) == [chunks[at].body]
  {
    if at == 0 {
      NoBody(chunks[1..], tag);
    } else {
      OneBody(chunks[1..], tag, at - 1);
    }
  }

  lemma {:induction false} NoBody(chunks: seq<Chunk>, tag: Bytes)
    requires forall k :: 0 <= k < |chunks| ==> chunks[k].tag != tag
    ensures Bodies(chunks, tag) == []
  {
    if chunks != [] {
      NoBody(chunks[1..], tag);
    }
  }

  // --------------------------------------------------------- the palette is lossless

  lemma {:induction false} ColoursAt(seen: seq<Pixel>, i: nat)
    requires i < |seen| && forall p :: p in seen ==> |p| == 4
    ensures |Colours(seen)| == 3 * |seen|
    ensures Colours(seen)[3 * i..3 * i + 3] == seen[i][..3]
  {
    ColoursLength(seen);
    if i > 0 {
      ColoursAt(seen[1..], i - 1);
      assert Colours(seen)[3 * i..3 * i + 3] == Colours(seen[1..])[3 * (i - 1)..3 * (i - 1) + 3];
    }
  }

  /** Each number looks up the very pixel it stands for, alpha included. */
  lemma {:induction false} LookupFinds(seen: seq<Pixel>, p: Pixel)
    requires |seen| <= 256 && p in seen && forall q :: q in seen ==> |q| == 4
    ensures Lookup(IndexIn(p, seen), Colours(seen), TrimOpaque(Alphas(seen))) == Some(p)
  {
    var i := IndexIn(p, seen);
    ColoursAt(seen, i);
    AlphaFinds(seen, i);
    LookupIs(i, Colours(seen), TrimOpaque(Alphas(seen)), p);
  }

  lemma AlphaFinds(seen: seq<Pixel>, i: nat)
    requires i < |seen| && forall q :: q in seen ==> |q| == 4
    ensures var trns := TrimOpaque(Alphas(seen)); (if i < |trns| then trns[i] else 255) == seen[i][3]
  {
    hide TrimOpaque;
    assert Alphas(seen)[i] == seen[i][3];
  }

  lemma LookupIs(i: byte, plte: Bytes, trns: Bytes, p: Pixel)
    requires |p| == 4 && 3 * i + 3 <= |plte| && plte[3 * i..3 * i + 3] == p[..3]
    requires (if i < |trns| then trns[i] else 255) == p[3]
    ensures Lookup(i, plte, trns) == Some(p)
  {
    assert p == p[..3] + [p[3]];
  }

  lemma {:induction false} LookupsFind(pixels: seq<Pixel>, seen: seq<Pixel>)
    requires |seen| <= 256 && (forall p :: p in pixels ==> p in seen) && forall q :: q in seen ==> |q| == 4
    ensures Lookups(Indices(pixels, seen), Colours(seen), TrimOpaque(Alphas(seen))) == Some(Concat(pixels))
  {
    if pixels != [] {
      LookupFinds(seen, pixels[0]);
      LookupsFind(pixels[1..], seen);
      assert Indices(pixels, seen)[1..] == Indices(pixels[1..], seen);
    }
  }

  function Body(c: Chunk, tag: Bytes): seq<Bytes> { if c.tag == tag then [c.body] else [] }

  lemma BodiesOfTwo(a: Chunk, b: Chunk, rest: seq<Chunk>, tag: Bytes)
    ensures Bodies([a, b] + rest, tag) == Body(a, tag) + Body(b, tag) + Bodies(rest, tag)
  {
    var chunks := [a, b] + rest;
    assert chunks[1..] == [b] + rest && ([b] + rest)[1..] == rest;
  }

  /** The palette file's chunks, with the parts the reader picks out of them. */
  lemma PaletteParts(header: Header, seen: seq<Pixel>, data: Bytes)
    requires header.w < WORD && header.h < WORD && |data| < WORD && 0 < |seen| <= 256
    requires forall p :: p in seen ==> |p| == 4
    ensures
      var chunks := PaletteChunks(header, seen, data);
      var trns := TrimOpaque(Alphas(seen));
      && Framed(chunks) && chunks[0].body == HeaderBytes(header)
      && Bodies(chunks, IDAT) == [data]
      && Bodies(chunks, PLTE) == [Colours(seen)]
      && Bodies(chunks, TRNS) == if trns == [] then [] else [trns]
  {
    hide HeaderBytes, Colours, TrimOpaque, Framed, Bodies;
    var trns := TrimOpaque(Alphas(seen));
    var a, b, c := Chunk(IHDR, HeaderBytes(header)), Chunk(PLTE, Colours(seen)), Chunk(TRNS, trns);
    var d, e := Chunk(IDAT, data), Chunk(IEND, []);
    PartsOfFour(a, b, d, e);
    PartsOfFive(a, b, c, d, e);
  }

  lemma FourBodies(a: Chunk, b: Chunk, d: Chunk, e: Chunk, tag: Bytes)
    ensures Bodies([a, b, d, e], tag) == Body(a, tag) + Body(b, tag) + (Body(d, tag) + Body(e, tag))
  {
    hide Bodies, Body;
    assert [a, b, d, e] == [a, b] + [d, e] && [d, e] == [d, e] + [];
    BodiesOfTwo(a, b, [d, e], tag);
    BodiesOfTwo(d, e, [], tag);
    NoBody([], tag);
    assert Body(d, tag) + Body(e, tag) + [] == Body(d, tag) + Body(e, tag);
  }

  lemma FiveBodies(a: Chunk, b: Chunk, c: Chunk, d: Chunk, e: Chunk, tag: Bytes)
    ensures Bodies([a, b, c, d, e], tag) == Body(a, tag) + Body(b, tag) + (Body(c, tag) + Body(d, tag) + Body(e, tag))
  {
    hide Bodies, Body;
    assert [a, b, c, d, e] == [a, b] + [c, d, e] && [c, d, e] == [c, d] + [e];
    BodiesOfTwo(a, b, [c, d, e], tag);
    BodiesOfTwo(c, d, [e], tag);
    BodiesOfOne(e, tag);
  }

  lemma BodiesOfOne(c: Chunk, tag: Bytes)
    ensures Bodies([c], tag) == Body(c, tag)
  {
    assert [c][1..] == [];
  }

  lemma PartsOfFour(a: Chunk, b: Chunk, d: Chunk, e: Chunk)
    requires a.tag == IHDR && |a.body| == 13 && b.tag == PLTE && d.tag == IDAT && e == Chunk(IEND, [])
    ensures
      var chunks := [a, b, d, e];
      && Framed(chunks) && Bodies(chunks, IDAT) == [d.body]
      && Bodies(chunks, PLTE) == [b.body] && Bodies(chunks, TRNS) == []
  {
    hide Bodies, Framed, Ranks;
    TagsDiffer();
    FourBodies(a, b, d, e, IDAT);
    FourBodies(a, b, d, e, PLTE);
    FourBodies(a, b, d, e, TRNS);
    FourRanked(a, b, d, e);
    RanksFrame([a, b, d, e], [0, 1, 3, 4]);
  }

  lemma FourRanked(a: Chunk, b: Chunk, d: Chunk, e: Chunk)
    requires a.tag == IHDR && b.tag == PLTE && d.tag == IDAT && e.tag == IEND
    ensures Ranks([a, b, d, e], [0, 1, 3, 4])
  {
  }

  lemma PartsOfFive(a: Chunk, b: Chunk, c: Chunk, d: Chunk, e: Chunk)
    requires a.tag == IHDR && |a.body| == 13 && b.tag == PLTE && c.tag == TRNS && d.tag == IDAT && e == Chunk(IEND, [])
    ensures
      var chunks := [a, b, c, d, e];
      && Framed(chunks) && Bodies(chunks, IDAT) == [d.body]
      && Bodies(chunks, PLTE) == [b.body] && Bodies(chunks, TRNS) == [c.body]
  {
    hide Bodies, Framed, Ranks;
    TagsDiffer();
    FiveBodies(a, b, c, d, e, IDAT);
    FiveBodies(a, b, c, d, e, PLTE);
    FiveBodies(a, b, c, d, e, TRNS);
    FiveRanked(a, b, c, d, e);
    RanksFrame([a, b, c, d, e], [0, 1, 2, 3, 4]);
  }

  lemma FiveRanked(a: Chunk, b: Chunk, c: Chunk, d: Chunk, e: Chunk)
    requires a.tag == IHDR && b.tag == PLTE && c.tag == TRNS && d.tag == IDAT && e.tag == IEND
    ensures Ranks([a, b, c, d, e], [0, 1, 2, 3, 4])
  {
  }

  /** A chunk type's place in the order of the palette file. */
  function TagOfRank(rank: nat): Bytes {
    match rank case 0 => IHDR case 1 => PLTE case 2 => TRNS case 3 => IDAT case _ => IEND
  }

  ghost predicate Ranks(chunks: seq<Chunk>, ranks: seq<nat>) {
    |ranks| == |chunks| && forall k :: 0 <= k < |chunks| ==> ranks[k] <= 4 && chunks[k].tag == TagOfRank(ranks[k])
  }

  lemma RanksFrame(chunks: seq<Chunk>, ranks: seq<nat>)
    requires |chunks| >= 2 && Ranks(chunks, ranks)
    requires forall i, j :: 0 <= i < j < |ranks| ==> ranks[i] < ranks[j]
    requires chunks[0].tag == IHDR && |chunks[0].body| == 13 && chunks[|chunks| - 1] == Chunk(IEND, [])
    ensures Framed(chunks)
  {
    TagsDiffer();
    forall i, j, a: nat, b: nat | 0 <= i < j < |chunks| && a < b <= 4
      ensures !(chunks[i].tag == TagOfRank(b) && chunks[j].tag == TagOfRank(a))
    {
      assert ranks[i] < ranks[j];
    }
    forall k | 0 < k < |chunks| - 1
      ensures chunks[k].tag != IHDR && chunks[k].tag != IEND
    {
      assert ranks[0] < ranks[k] < ranks[|chunks| - 1];
    }
    assert Precedes(chunks, TagOfRank(1), TagOfRank(2)) && Precedes(chunks, TagOfRank(1), TagOfRank(3));
    assert Precedes(chunks, TagOfRank(2), TagOfRank(3));
  }

  lemma TagsDiffer()
    ensures IHDR != PLTE && IHDR != TRNS && IHDR != IDAT && IHDR != IEND && PLTE != TRNS
    ensures PLTE != IDAT && PLTE != IEND && TRNS != IDAT && TRNS != IEND && IDAT != IEND
  {
    assert IHDR[1] == 72 && PLTE[1] == 76 && TRNS[1] == 82 && IDAT[1] == 68 && IEND[1] == 69;
  }

  lemma IndexedReads(header: Header, seen: seq<Pixel>, data: Bytes, pixels: seq<Pixel>)
    requires header.w < WORD && header.h < WORD && |data| < WORD && 0 < |seen| <= 256
    requires (forall p :: p in pixels ==> p in seen) && forall p :: p in seen ==> |p| == 4
    ensures ReadIndexed(PaletteChunks(header, seen, data), Indices(pixels, seen)) == Some(Concat(pixels))
  {
    hide Lookups, Colours, TrimOpaque, PaletteChunks, Bodies, Framed, Alphas, Indices, Concat;
    PaletteParts(header, seen, data);
    ColoursLength(seen);
    LookupsFind(pixels, seen);
  }

  /** The palette file is a valid PNG holding the image itself, every pixel exact. */
  lemma PaletteIsLossless(z: Zlib, img: Image)
    requires Lossless(z) && img.Valid() && img.h > 0
    ensures |FirstSeen(RowsOf(img.px, 4))| <= 256 && PalettePng(z, img).Ok? ==> ReadPng(z, PalettePng(z, img).value) == Some(img)
  {
    hide HeaderBytes, HeaderOf, Adaptive, UnfilterRows, ParseChunks, PaletteChunks, ReadIndexed, Indices, Bodies, ReadChunks, Framed;
    if |FirstSeen(RowsOf(img.px, 4))| <= 256 && PalettePng(z, img).Ok? {
      var pixels := RowsOf(img.px, 4);
      assert |img.px| == (img.h * img.w) * 4;
      RowsOfConcat(img.px, 4, img.h * img.w);
      assert pixels != [] by { assert img.h * img.w > 0; }
      var seen := FirstSeen(pixels);
      assert pixels[0] in seen;
      var data := Indices(pixels, seen);
      var raw := Adaptive(RowsOf(data, img.w), Zeros(img.w), 1);
      var header := Header(img.w, img.h, 8, 3, 0, 0, 0);
      var chunks := PaletteChunks(header, seen, z.compress(raw));
      PaletteParts(header, seen, z.compress(raw));
      PaletteChunksWellFormed(header, seen, z.compress(raw));
      StrictParse(z, chunks);
      assert z.decompress(z.compress(raw)) == Some(raw);
      ReadsAdaptive(data, img.w, img.h, 1);
      IndexedReads(header, seen, z.compress(raw), pixels);
      ReadsParts(z, chunks, header, raw, img.px);
    }
  }

  /** Whatever the writer chooses, the file is a standard one and holds the image, posterised only past 256 colours. */
  lemma EncodedIsStandard(z: Zlib, img: Image)
    requires Lossless(z) && img.Valid() && img.h > 0
    ensures EncodePng(z, img).Ok? ==>
      ReadPng(z, EncodePng(z, img).value) == Some(if |FirstSeen(RowsOf(img.px, 4))| <= 256 then img else img.(px := Posterised(img.px)))
  {
    if |FirstSeen(RowsOf(img.px, 4))| <= 256 {
      PaletteIsLossless(z, img);
    } else {
      TruecolourIsStandard(z, img);
    }
  }

  /** An image without width cannot be written; any other can, unless a size does not fit in 32 bits. */
  lemma EncodeAnswers(z: Zlib, img: Image)
    requires img.Valid()
    ensures EncodePng(z, img) == Err(DivideByZero) <==> img.w == 0
    ensures EncodePng(z, img).Ok? ==> 0 < img.w < WORD && img.h < WORD
    ensures 0 < img.w < WORD && img.h < WORD && (forall raw :: |z.compress(raw)| < WORD) ==> EncodePng(z, img).Ok?
  {
    hide FirstSeen, RowsOf, Adaptive, Indices, Posterised, HeaderBytes, ChunksBytes, PaletteChunks;
  }
}
