/**
 The chunk layout of a PNG file: how the brand generator writes it, how its
 lenient reader walks it, and how RFC 2083 section 3.2 says to read it.
 */
module PngContainer {
  import opened Common

  /** zlib as the generator uses it: two opaque functions and a checksum. */
  datatype Zlib = Zlib(compress: Bytes -> Bytes, decompress: Bytes -> Option<Bytes>, crc32: Bytes -> int)

  /** What zlib is trusted for: decompressing gives back what was compressed. */
  ghost predicate Lossless(z: Zlib) {
    forall raw :: z.decompress(z.compress(raw)) == Some(raw)
  }

  datatype Chunk = Chunk(tag: Bytes, body: Bytes)

  predicate WellFormed(c: Chunk) {
    |c.tag| == 4 && |c.body| < WORD
  }

  const SIGNATURE: Bytes := [137, 80, 78, 71, 13, 10, 26, 10]
  const IHDR: Bytes := [73, 72, 68, 82]
  const PLTE: Bytes := [80, 76, 84, 69]
  const TRNS: Bytes := [116, 82, 78, 83]
  const IDAT: Bytes := [73, 68, 65, 84]
  const IEND: Bytes := [73, 69, 78, 68]

  // -------------------------------------------------------- big-endian integers

  function Be32(n: nat): (b: Bytes)
    requires n < WORD
    ensures |b| == 4
  {
    [n / 0x100_0000, n / 0x1_0000 % 0x100, n / 0x100 % 0x100, n % 0x100]
  }

  function FromBe32(b: Bytes): nat
    requires |b| == 4
  {
    var a: int := b[0];
    ((a * 256 + b[1]) * 256 + b[2]) * 256 + b[3]
  }

  lemma Be32RoundTrip(n: nat)
    requires n < WORD
    ensures FromBe32(Be32(n)) == n
  {
    var a, b, c := n / 0x100_0000, n / 0x1_0000, n / 0x100;
    assert c == b * 256 + c % 256 && b == a * 256 + b % 256 && n == c * 256 + n % 256;
  }

  /** RFC 2083 section 2.1: the most significant byte comes first. */
  lemma BigEndian(b: Bytes)
    requires |b| == 4
    ensures FromBe32(b) == b[0] as int * 0x100_0000 + b[1] as int * 0x1_0000 + b[2] as int * 0x100 + b[3]
  {
  }

  // ------------------------------------------------------------------- the header

  datatype Header = Header(w: nat, h: nat, depth: byte, colour: byte, compression: byte, filtering: byte, interlace: byte)

  function HeaderBytes(header: Header): (b: Bytes)
    requires header.w < WORD && header.h < WORD
    ensures |b| == 13
  {
    Be32(header.w) + Be32(header.h)
      + [header.depth, header.colour, header.compression, header.filtering, header.interlace]
  }

  function HeaderOf(b: Bytes): Header
    requires |b| == 13
  {
    Header(FromBe32(b[..4]), FromBe32(b[4..8]), b[8], b[9], b[10], b[11], b[12])
  }

  /** The header reads back, each field from where section 4.1.1 puts it. */
  lemma HeaderRoundTrip(header: Header)
    requires header.w < WORD && header.h < WORD
    ensures HeaderOf(HeaderBytes(header)) == header
    ensures
      var b := HeaderBytes(header);
      && FromBe32(b[..4]) == header.w && FromBe32(b[4..8]) == header.h
      && b[8..] == [header.depth, header.colour, header.compression, header.filtering, header.interlace]
  {
    var b := HeaderBytes(header);
    assert b[..4] == Be32(header.w) && b[4..8] == Be32(header.h);
    Be32RoundTrip(header.w);
    Be32RoundTrip(header.h);
  }

  // -------------------------------------------------------------------- the writer

  function ChunkBytes(z: Zlib, c: Chunk): (b: Bytes)
    requires WellFormed(c)
    ensures |b| == 12 + |c.body|
  {
    Be32(|c.body|) + c.tag + c.body + Be32(z.crc32(c.tag + c.body) % WORD)
  }

  function ChunksBytes(z: Zlib, chunks: seq<Chunk>): Bytes
    requires forall k :: 0 <= k < |chunks| ==> WellFormed(chunks[k])
  {
    if chunks == [] then [] else ChunkBytes(z, chunks[0]) + ChunksBytes(z, chunks[1..])
  }

  lemma ChunkParts(z: Zlib, c: Chunk, rest: Bytes)
    requires WellFormed(c)
    ensures var d := ChunkBytes(z, c) + rest; var n := |c.body|;
            && FromBe32(d[..4]) == n && d[4..8] == c.tag && d[8..8 + n] == c.body
            && d[8 + n..12 + n] == Be32(z.crc32(c.tag + c.body) % WORD) && d[12 + n..] == rest
  {
    var d, n := ChunkBytes(z, c) + rest, |c.body|;
    assert d[..4] == Be32(n);
    Be32RoundTrip(n);
  }

  // --------------------------------------------------------- the generator's reader

  datatype DecodeError = NotPng | StructError | NoHeader | Unsupported | ZlibError | IndexError | UnknownFilter

  /** A slice as Python takes it: both ends clipped to what is there. */
  function Slice(data: Bytes, lo: nat, hi: nat): Bytes
    requires lo <= hi
  {
    data[Min(lo, |data|)..Min(hi, |data|)]
  }

  /** What the walk carries: the last header seen and the image data so far. */
  datatype Found = Found(header: Option<Header>, idat: Bytes)

  function Take(found: Found, tag: Bytes, body: Bytes): Result<Found, DecodeError> {
    if tag == IHDR then
      if |body| == 13 then Ok(found.(header := Some(HeaderOf(body)))) else Err(StructError)
    else if tag == IDAT then Ok(found.(idat := found.idat + body))
    else Ok(found)
  }

  function LengthOf(data: Bytes): nat
    requires |data| >= 4
  {
    FromBe32(data[..4])
  }

  function TagOf(data: Bytes): Bytes { Slice(data, 4, 8) }

  function BodyOf(data: Bytes): Bytes
    requires |data| >= 4
  {
    Slice(data, 8, 8 + LengthOf(data))
  }

  function TailOf(data: Bytes): Bytes
    requires |data| >= 4
  {
    data[Min(12 + LengthOf(data), |data|)..]
  }

  /** The walk over the bytes still ahead; lengths are believed, checksums are not read. */
  function Walk(data: Bytes, found: Found): Result<Found, DecodeError>
    decreases |data|
  {
    if data == [] then Ok(found)
    else if |data| < 4 then Err(StructError)
    else if TagOf(data) == IEND then Ok(found)
    else
      var next := Take(found, TagOf(data), BodyOf(data));
      if next.Err? then next else Walk(TailOf(data), next.value)
  }

  /** The same walk over a list of chunks. */
  function WalkChunks(chunks: seq<Chunk>, found: Found): Result<Found, DecodeError> {
    if chunks == [] || chunks[0].tag == IEND then Ok(found)
    else
      var next := Take(found, chunks[0].tag, chunks[0].body);
      if next.Err? then next else WalkChunks(chunks[1..], next.value)
  }

  /** On bytes that are a list of chunks, the walk sees exactly those chunks. */
  lemma {:induction false} WalkReadsChunks(z: Zlib, chunks: seq<Chunk>, found: Found)
    requires forall k :: 0 <= k < |chunks| ==> WellFormed(chunks[k])
    ensures Walk(ChunksBytes(z, chunks), found) == WalkChunks(chunks, found)
  {
    if chunks != [] {
      var c, rest := chunks[0], ChunksBytes(z, chunks[1..]);
      ChunkParts(z, c, rest);
      var next := Take(found, c.tag, c.body);
      if next.Ok? {
        WalkReadsChunks(z, chunks[1..], next.value);
      }
    }
  }

  lemma SliceShift(data: Bytes, i: nat, lo: nat, hi: nat)
    requires i <= |data| && lo <= hi
    ensures Slice(data[i..], lo, hi) == Slice(data, i + lo, i + hi)
  {
  }

  /** What the walk reads ahead of it, seen from an offset into the file. */
  lemma ChunkShift(data: Bytes, i: nat, ahead: Bytes, length: nat)
    requires i + 4 <= |data| && ahead == data[i..] && length == FromBe32(data[i..i + 4])
    ensures LengthOf(ahead) == length
    ensures TagOf(ahead) == Slice(data, i + 4, i + 8)
    ensures BodyOf(ahead) == Slice(data, i + 8, i + 8 + length)
    ensures TailOf(ahead) == data[Min(i + 12 + length, |data|)..]
  {
    assert ahead[..4] == data[i..i + 4];
    SliceShift(data, i, 4, 8);
    SliceShift(data, i, 8, 8 + length);
    assert ahead[Min(12 + length, |ahead|)..] == data[Min(i + 12 + length, |data|)..];
  }

  /** The walk as the generator runs it, an offset into the whole file. */
  method WalkFile(data: Bytes) returns (r: Result<Found, DecodeError>)
    requires |data| >= 8
    ensures r == Walk(data[8..], Found(None, []))
  {
    var found := Found(None, []);
    var i := 8;
    ghost var ahead := data[8..];
    ghost var outcome := Walk(ahead, found);
    while i < |data|
      invariant 8 <= i && ahead == data[Min(i, |data|)..]
      invariant outcome == Walk(ahead, found)
      decreases |data| - i
    {
      if |data| - i < 4 {
        return Err(StructError);
      }
      var length := FromBe32(data[i..i + 4]);
      var tag := Slice(data, i + 4, i + 8);
      var body := Slice(data, i + 8, i + 8 + length);
      ChunkShift(data, i, ahead, length);
      if tag == IEND {
        return Ok(found);
      }
      var next := Take(found, tag, body);
      if next.Err? {
        return next;
      }
      found, ahead := next.value, TailOf(ahead);
      i := i + 12 + length;
    }
    return Ok(found);
  }

  // ------------------------------------------------------------ RFC 2083's own reading

  /** Section 3.2: length, type, data and a checksum over type and data, to the end of the file. */
  function ParseChunks(z: Zlib, data: Bytes): Option<seq<Chunk>>
    decreases |data|
  {
    if data == [] then Some([])
    else if |data| < 12 then None
    else
      var length := FromBe32(data[..4]);
      if |data| < 12 + length then None
      else
        var tag, body := data[4..8], data[8..8 + length];
        if data[8 + length..12 + length] != Be32(z.crc32(tag + body) % WORD) then None
        else
          var rest := ParseChunks(z, data[12 + length..]);
          if rest.None? then None else Some([Chunk(tag, body)] + rest.value)
  }

  lemma {:induction false} ParseReadsChunks(z: Zlib, chunks: seq<Chunk>)
    requires forall k :: 0 <= k < |chunks| ==> WellFormed(chunks[k])
    ensures ParseChunks(z, ChunksBytes(z, chunks)) == Some(chunks)
  {
    if chunks != [] {
      ChunkParts(z, chunks[0], ChunksBytes(z, chunks[1..]));
      ParseReadsChunks(z, chunks[1..]);
      assert [Chunk(chunks[0].tag, chunks[0].body)] + chunks[1..] == chunks;
    }
  }
}
