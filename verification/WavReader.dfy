/** Reading a RIFF WAVE stream into mono samples, and the probe stream it must read back. */
module WavReader {
  import opened Common

  const FORMAT_PCM := 1
  const FORMAT_FLOAT := 3
  const FORMAT_EXTENSIBLE := 0xFFFE

  const RIFF: Bytes := [82, 73, 70, 70]
  const WAVE: Bytes := [87, 65, 86, 69]
  const FMT: Bytes := [102, 109, 116, 32]
  const DATA: Bytes := [100, 97, 116, 97]

  /** IEEE floating point, whose decoding is not modelled. */
  datatype Floats = Floats(float32: Bytes -> real, float64: Bytes -> real)

  datatype Format = Format(code: nat, channels: nat, rate: nat, bits: nat)

  datatype Wave = Wave(samples: seq<real>, rate: nat)

  datatype WaveError = NotRiff | ShortFormat(n: nat) | ShortExtensible(n: nat) | NoFormat | NoData | BadFormat | Unsupported

  // -------------------------------------------------------------- little-endian integers

  function Power256(w: nat): (p: nat)
    ensures p >= 1
  {
    if w == 0 then 1 else 256 * Power256(w - 1)
  }

  function FromLe(b: Bytes): (n: nat)
    ensures n < Power256(|b|)
  {
    if b == [] then 0 else b[0] as int + 256 * FromLe(b[1..])
  }

  function Le(n: nat, w: nat): (b: Bytes)
    requires n < Power256(w)
    ensures |b| == w
  {
    if w == 0 then [] else [n % 256] + Le(n / 256, w - 1)
  }

  lemma {:induction false} LeRoundTrip(n: nat, w: nat)
    requires n < Power256(w)
    ensures FromLe(Le(n, w)) == n
  {
    if w > 0 {
      LeRoundTrip(n / 256, w - 1);
      assert Le(n, w)[1..] == Le(n / 256, w - 1);
    }
  }

  lemma Powers()
    ensures Power256(1) == 256 && Power256(2) == 0x1_0000 && Power256(3) == 0x100_0000 && Power256(4) == WORD
  {
    assert Power256(1) == 256 && Power256(2) == 256 * 256;
    assert Power256(3) == 256 * Power256(2);
  }

  /** The least significant byte comes first. */
  lemma LittleEndian(a: byte, b: byte, c: byte, d: byte)
    ensures FromLe([a, b]) == a as int + 0x100 * b as int
    ensures FromLe([a, b, c]) == a as int + 0x100 * b as int + 0x1_0000 * c as int
    ensures FromLe([a, b, c, d]) == a as int + 0x100 * b as int + 0x1_0000 * c as int + 0x100_0000 * d as int
  {
    LeFirst(d, []);
    LeFirst(c, [d]);
    LeFirst(b, [c, d]);
    LeFirst(a, [b, c, d]);
    LeFirst(c, []);
    LeFirst(b, [c]);
    LeFirst(a, [b, c]);
    LeFirst(b, []);
    LeFirst(a, [b]);
  }

  lemma LeFirst(a: byte, rest: Bytes)
    ensures FromLe([a] + rest) == a as int + 256 * FromLe(rest) && FromLe([]) == 0
  {
    assert ([a] + rest)[1..] == rest;
  }

  // ------------------------------------------------------------------------ the chunks

  datatype Chunk = Chunk(id: Bytes, body: Bytes)

  /** The chunks of a stream. One that claims more than there is holds what there is, and is the last. */
  function Chunks(s: Bytes): seq<Chunk>
    decreases |s|
  {
    if |s| < 8 then []
    else
      var size := FromLe(s[4..8]);
      if size > |s| - 8 then [Chunk(s[..4], s[8..])]
      else
        var next := 8 + size + size % 2;
        [Chunk(s[..4], s[8..8 + size])] + if next <= |s| then Chunks(s[next..]) else []
  }

  function FormatIn(body: Bytes): Result<Format, WaveError> {
    if |body| < 16 then Err(ShortFormat(|body|))
    else
      var code := FromLe(body[0..2]);
      var format := Format(code, FromLe(body[2..4]), FromLe(body[4..8]), FromLe(body[14..16]));
      if code != FORMAT_EXTENSIBLE then Ok(format)
      else if |body| < 26 then Err(ShortExtensible(|body|))
      else Ok(format.(code := FromLe(body[24..26])))
  }

  datatype Found = Found(format: Option<Format>, data: Option<Bytes>)

  /** What the chunks leave behind: the last format and the last data, unless a format is malformed. */
  function Gather(found: Found, chunks: seq<Chunk>): Result<Found, WaveError>
    decreases |chunks|
  {
    if chunks == [] then Ok(found)
    else if chunks[0].id == FMT then
      var format := FormatIn(chunks[0].body);
      if format.Err? then Err(format.error) else Gather(found.(format := Some(format.value)), chunks[1..])
    else if chunks[0].id == DATA then Gather(found.(data := Some(chunks[0].body)), chunks[1..])
    else Gather(found, chunks[1..])
  }

  // ----------------------------------------------------------------------- the samples

  function BytesPerSample(code: nat, bits: nat): nat {
    if code == FORMAT_PCM then if bits in {8, 16, 24, 32} then bits / 8 else 0
    else if code == FORMAT_FLOAT then if bits in {32, 64} then bits / 8 else 0
    else 0
  }

  /** An unsigned word of `half + half` values taken as signed. */
  function ToSigned(n: nat, half: nat): int { if n >= half then n - 2 * half else n }

  /** Three bytes shifted up into a 32-bit word and down again. */
  function SignExtend24(n: nat): int { ToSigned(n * 256 % WORD, WORD / 2) / 256 }

  function Sample(code: nat, bits: nat, b: Bytes, floats: Floats): real
    requires |b| == BytesPerSample(code, bits) > 0
  {
    if code == FORMAT_PCM then
      if bits == 8 then (b[0] as int - 128) as real / 128.0
      else if bits == 16 then ToSigned(FromLe(b), 0x8000) as real / 32768.0
      else if bits == 24 then SignExtend24(FromLe(b)) as real / 8388608.0
      else ToSigned(FromLe(b), WORD / 2) as real / 2147483648.0
    else if bits == 32 then floats.float32(b)
    else floats.float64(b)
  }

  /** The sum of `n` samples that stand side by side from `base`. */
  function SampleSum(data: Bytes, base: nat, n: nat, code: nat, bits: nat, floats: Floats): real
    requires BytesPerSample(code, bits) > 0 && base + n * BytesPerSample(code, bits) <= |data|
    decreases n
  {
    if n == 0 then 0.0
    else
      var w := BytesPerSample(code, bits);
      SampleBounds(base, n, w, |data|);
      SampleSum(data, base, n - 1, code, bits, floats) + Sample(code, bits, data[base + (n - 1) * w..base + (n - 1) * w + w], floats)
  }

  lemma SampleBounds(base: nat, n: nat, w: nat, length: nat)
    requires n > 0 && base + n * w <= length
    ensures (n - 1) * w >= 0 && base + (n - 1) * w + w <= length
  {
    assert n * w == (n - 1) * w + w;
  }

  predicate Readable(format: Format) { format.channels >= 1 && BytesPerSample(format.code, format.bits) > 0 }

  function FrameSize(format: Format): (n: nat)
    requires Readable(format)
    ensures n > 0 && n == format.channels * BytesPerSample(format.code, format.bits)
  {
    ProductPositive(BytesPerSample(format.code, format.bits), format.channels);
    BytesPerSample(format.code, format.bits) * format.channels
  }

  lemma ProductPositive(w: nat, channels: nat)
    requires w > 0 && channels > 0
    ensures w * channels == channels * w > 0
  {
  }

  /** Whole frames in so many bytes. */
  function Frames(length: nat, size: nat): nat
    requires size > 0
  {
    FloorAtLeast(length, size, 0);
    length / size
  }

  lemma FrameBounds(f: nat, size: nat, length: nat)
    requires size > 0 && f < Frames(length, size)
    ensures f * size >= 0 && f * size + size <= length
  {
    var frames := Frames(length, size);
    MulMono(f + 1, frames, size);
    assert (f + 1) * size == f * size + size;
    assert frames * size <= length;
  }

  /** The mean of a frame's channels. */
  function Frame(data: Bytes, f: nat, format: Format, floats: Floats): real
    requires Readable(format) && f < Frames(|data|, FrameSize(format))
  {
    FrameBounds(f, FrameSize(format), |data|);
    SampleSum(data, f * FrameSize(format), format.channels, format.code, format.bits, floats) / format.channels as real
  }

  /** One mono sample a frame. A rest shorter than a frame is left. */
  function Decoded(data: Bytes, format: Format, floats: Floats): seq<real>
    requires Readable(format)
  {
    seq(Frames(|data|, FrameSize(format)), f requires 0 <= f < Frames(|data|, FrameSize(format)) => Frame(data, f, format, floats))
  }

  function Finish(found: Found, floats: Floats): Result<Wave, WaveError> {
    if found.format.None? then Err(NoFormat)
    else if found.data.None? then Err(NoData)
    else
      var format := found.format.value;
      if format.channels < 1 || format.rate < 1 then Err(BadFormat)
      else if !Readable(format) then Err(Unsupported)
      else Ok(Wave(Decoded(found.data.value, format, floats), format.rate))
  }

  function IsRiff(b: Bytes): bool { |b| >= 12 && b[0..4] == RIFF && b[8..12] == WAVE }

  function WaveOf(b: Bytes, floats: Floats): Result<Wave, WaveError> {
    if !IsRiff(b) then Err(NotRiff)
    else
      var found := Gather(Found(None, None), Chunks(b[12..]));
      if found.Err? then Err(found.error) else Finish(found.value, floats)
  }

  // ------------------------------------------------------------------------ the reader

  /** What is still to be walked: nothing behind a chunk that was cut short. */
  function Ahead(b: Bytes, off: nat, clamped: bool): Bytes { if !clamped && off <= |b| then b[off..] else [] }

  /** One turn of the walk: the chunk at `off`, and the rest. */
  lemma ChunkAt(b: Bytes, off: nat, size: nat, clamped: bool)
    requires off + 8 <= |b| && clamped == (FromLe(b[off + 4..off + 8]) > |b| - off - 8)
    requires size == if clamped then |b| - off - 8 else FromLe(b[off + 4..off + 8])
    ensures Chunks(Ahead(b, off, false))
      == [Chunk(b[off..off + 4], b[off + 8..][..size])] + Chunks(Ahead(b, off + 8 + size + size % 2, clamped))
  {
    hide FromLe;
    var s, next := b[off..], 8 + size + size % 2;
    assert s[..4] == b[off..off + 4] && s[4..8] == b[off + 4..off + 8];
    assert s[8..8 + size] == b[off + 8..][..size];
    if clamped {
      assert s[8..8 + size] == s[8..];
    } else {
      assert next <= |s| ==> s[next..] == b[off + next..];
    }
  }

  method ParseWave(b: Bytes, floats: Floats) returns (r: Result<Wave, WaveError>)
    ensures r == WaveOf(b, floats)
  {
    hide Chunks, FromLe, FormatIn, Finish, Gather, Ahead;
    if |b| < 12 || b[0..4] != RIFF || b[8..12] != WAVE {
      return Err(NotRiff);
    }
    var format: Option<Format>, data: Option<Bytes> := None, None;
    ghost var whole := Gather(Found(None, None), Chunks(b[12..]));
    var off: nat := 12;
    var clamped := false;
    AheadIs(b, off, clamped);
    while !clamped && off + 8 <= |b|
      invariant whole == Gather(Found(format, data), Chunks(Ahead(b, off, clamped)))
      decreases |b| - off, !clamped
    {
      var id := b[off..off + 4];
      var size: nat := FromLe(b[off + 4..off + 8]);
      var body := b[off + 8..];
      if size > |body| {
        size := |body|;
        clamped := true;
      }
      body := body[..size];
      ChunkAt(b, off, size, clamped);
      off := off + 8 + size + size % 2;
      GatherStep(Found(format, data), Chunk(id, body), Chunks(Ahead(b, off, clamped)));
      if id == FMT {
        var found := FormatIn(body);
        if found.Err? {
          return Err(found.error);
        }
        format := Some(found.value);
      } else if id == DATA {
        data := Some(body);
      }
    }
    AheadIs(b, off, clamped);
    NoChunks(Ahead(b, off, clamped));
    GatherNone(Found(format, data));
    FinishIs(Found(format, data), floats);
    if format.None? {
      r := Err(NoFormat);
    } else if data.None? {
      r := Err(NoData);
    } else if format.value.channels < 1 || format.value.rate < 1 {
      r := Err(BadFormat);
    } else {
      r := DecodePcm(data.value, format.value, floats);
    }
  }

  lemma AheadIs(b: Bytes, off: nat, clamped: bool)
    ensures !clamped && off <= |b| ==> Ahead(b, off, clamped) == b[off..]
    ensures clamped || off + 8 > |b| ==> |Ahead(b, off, clamped)| < 8
  {
  }

  lemma GatherStep(found: Found, c: Chunk, rest: seq<Chunk>)
    ensures Gather(found, [c] + rest) ==
      if c.id == FMT then
        if FormatIn(c.body).Err? then Err(FormatIn(c.body).error) else Gather(found.(format := Some(FormatIn(c.body).value)), rest)
      else if c.id == DATA then Gather(found.(data := Some(c.body)), rest)
      else Gather(found, rest)
  {
    hide FormatIn;
    assert ([c] + rest)[1..] == rest;
  }

  lemma GatherNone(found: Found)
    ensures Gather(found, []) == Ok(found)
  {
  }

  lemma ClampedChunk(s: Bytes)
    requires |s| >= 8 && FromLe(s[4..8]) > |s| - 8
    ensures Chunks(s) == [Chunk(s[..4], s[8..])]
  {
  }

  lemma NoChunks(s: Bytes)
    requires |s| < 8
    ensures Chunks(s) == []
  {
  }

  lemma FinishIs(found: Found, floats: Floats)
    ensures found.format.None? ==> Finish(found, floats) == Err(NoFormat)
    ensures found.format.Some? && found.data.None? ==> Finish(found, floats) == Err(NoData)
    ensures found.format.Some? && found.data.Some? ==>
      var format := found.format.value;
      Finish(found, floats) ==
        if format.channels < 1 || format.rate < 1 then Err(BadFormat)
        else if !Readable(format) then Err(Unsupported)
        else Ok(Wave(Decoded(found.data.value, format, floats), format.rate))
  {
  }

  method DecodePcm(data: Bytes, format: Format, floats: Floats) returns (r: Result<Wave, WaveError>)
    requires format.channels >= 1
    ensures r == if !Readable(format) then Err(Unsupported) else Ok(Wave(Decoded(data, format, floats), format.rate))
  {
    hide Sample, BytesPerSample, FrameSize, SampleSum, Frames;
    var w := BytesPerSample(format.code, format.bits);
    if w == 0 {
      return Err(Unsupported);
    }
    var frames := Frames(|data|, FrameSize(format));
    var out: seq<real> := [];
    ghost var all := Decoded(data, format, floats);
    for f := 0 to frames
      invariant out == all[..f]
    {
      FrameBounds(f, FrameSize(format), |data|);
      var sum := SumFrame(data, f * FrameSize(format), format, floats);
      assert all[..f + 1] == all[..f] + [all[f]];
      out := out + [sum / format.channels as real];
    }
    assert all[..frames] == all;
    return Ok(Wave(out, format.rate));
  }

  method SumFrame(data: Bytes, base: nat, format: Format, floats: Floats) returns (sum: real)
    requires Readable(format) && base + format.channels * BytesPerSample(format.code, format.bits) <= |data|
    ensures sum == SampleSum(data, base, format.channels, format.code, format.bits, floats)
  {
    hide Sample, BytesPerSample;
    var w := BytesPerSample(format.code, format.bits);
    sum := 0.0;
    for c := 0 to format.channels
      invariant base + c * w <= |data|
      invariant sum == SampleSum(data, base, c, format.code, format.bits, floats)
    {
      MulMono(c + 1, format.channels, w);
      assert (c + 1) * w == c * w + w;
      sum := sum + Sample(format.code, format.bits, data[base + c * w..base + c * w + w], floats);
    }
  }

  // ---------------------------------------------------------------- chunks read back

  predicate WellFormed(c: Chunk) { |c.id| == 4 && |c.body| < WORD }

  function Header(c: Chunk): Bytes
    requires WellFormed(c)
  {
    Powers();
    c.id + Le(|c.body|, 4)
  }

  /** Chunks one behind another, each on a word boundary. */
  function Serialised(chunks: seq<Chunk>): Bytes
    requires forall k :: 0 <= k < |chunks| ==> WellFormed(chunks[k])
  {
    if chunks == [] then []
    else Header(chunks[0]) + chunks[0].body + (if |chunks[0].body| % 2 == 1 then [0] else []) + Serialised(chunks[1..])
  }

  lemma {:induction false} ChunkReadsBack(c: Chunk, pad: Bytes, tail: Bytes)
    requires WellFormed(c) && |pad| == |c.body| % 2
    ensures Chunks(Header(c) + c.body + pad + tail) == [c] + Chunks(tail)
  {
    hide FromLe, Le;
    var s := Header(c) + c.body + pad + tail;
    Powers();
    LeRoundTrip(|c.body|, 4);
    assert s[4..8] == Le(|c.body|, 4);
    assert s[..4] == c.id && s[8..8 + |c.body|] == c.body;
    var next := 8 + |c.body| + |pad|;
    assert next <= |s| && s[next..] == tail;
  }

  /** What comes behind serialised chunks is read as though it stood alone. */
  lemma {:induction false} ChunksReadBack(chunks: seq<Chunk>, tail: Bytes)
    requires forall k :: 0 <= k < |chunks| ==> WellFormed(chunks[k])
    ensures Chunks(Serialised(chunks) + tail) == chunks + Chunks(tail)
    decreases |chunks|
  {
    hide Chunks, Header;
    if chunks == [] {
      assert Serialised(chunks) + tail == tail && chunks + Chunks(tail) == Chunks(tail);
    } else {
      var c, rest := chunks[0], chunks[1..];
      var pad: Bytes := if |c.body| % 2 == 1 then [0] else [];
      ChunksReadBack(rest, tail);
      ChunkReadsBack(c, pad, Serialised(rest) + tail);
      Assoc(Header(c) + c.body + pad, Serialised(rest), tail);
      Assoc([c], rest, Chunks(tail));
      assert [c] + rest == chunks;
    }
  }

  /** A last chunk whose length is a placeholder too large yields the bytes that are there. */
  lemma {:induction false} OversizedChunk(chunks: seq<Chunk>, id: Bytes, size: nat, present: Bytes)
    requires forall k :: 0 <= k < |chunks| ==> WellFormed(chunks[k])
    requires |id| == 4 && |present| < size < WORD
    ensures (Powers(); Chunks(Serialised(chunks) + (id + Le(size, 4) + present)) == chunks + [Chunk(id, present)])
  {
    hide Chunks, FromLe, Le;
    Powers();
    var tail := id + Le(size, 4) + present;
    ChunksReadBack(chunks, tail);
    LeRoundTrip(size, 4);
    assert tail[4..8] == Le(size, 4) && tail[..4] == id && tail[8..] == present;
    ClampedChunk(tail);
  }

  /** The last body under an id, if there is one. */
  function Last(chunks: seq<Chunk>, id: Bytes): Option<Bytes>
    decreases |chunks|
  {
    if chunks == [] then None
    else if chunks[|chunks| - 1].id == id then Some(chunks[|chunks| - 1].body)
    else Last(chunks[..|chunks| - 1], id)
  }

  ghost predicate FormatsRead(chunks: seq<Chunk>) {
    forall k :: 0 <= k < |chunks| && chunks[k].id == FMT ==> FormatIn(chunks[k].body).Ok?
  }

  /** Whatever chunks stand around them, the last format and the last data are what is found. */
  lemma {:induction false} GatherTakesLast(found: Found, chunks: seq<Chunk>)
    requires FormatsRead(chunks)
    ensures Gather(found, chunks).Ok?
    ensures Gather(found, chunks).value.data == if Last(chunks, DATA).Some? then Last(chunks, DATA) else found.data
    ensures Last(chunks, FMT).Some? ==> FormatIn(Last(chunks, FMT).value).Ok?
    ensures Gather(found, chunks).value.format
      == if Last(chunks, FMT).Some? then Some(FormatIn(Last(chunks, FMT).value).value) else found.format
    decreases |chunks|
  {
    hide FormatIn;
    if chunks != [] {
      var n := |chunks| - 1;
      GatherTakesLast(found, chunks[..n]);
      GatherAppend(found, chunks[..n], [chunks[n]]);
      assert chunks == chunks[..n] + [chunks[n]];
    }
  }

  lemma {:induction false} GatherAppend(found: Found, a: seq<Chunk>, b: seq<Chunk>)
    ensures Gather(found, a + b) == if Gather(found, a).Err? then Gather(found, a) else Gather(Gather(found, a).value, b)
    decreases |a|
  {
    hide FormatIn;
    if a == [] {
      assert a + b == b;
    } else {
      assert (a + b)[0] == a[0] && (a + b)[1..] == a[1..] + b;
      var format := FormatIn(a[0].body);
      if a[0].id == FMT {
        if format.Ok? {
          GatherAppend(found.(format := Some(format.value)), a[1..], b);
        }
      } else if a[0].id == DATA {
        GatherAppend(found.(data := Some(a[0].body)), a[1..], b);
      } else {
        GatherAppend(found, a[1..], b);
      }
    }
  }

  /** Parsing a written stream: its last format and its last data, and nothing of the chunks it does not know. */
  lemma WrittenStreamParses(size: Bytes, chunks: seq<Chunk>, floats: Floats)
    requires |size| == 4 && (forall k :: 0 <= k < |chunks| ==> WellFormed(chunks[k])) && FormatsRead(chunks)
    requires Last(chunks, FMT).Some? && Last(chunks, DATA).Some?
    ensures FormatIn(Last(chunks, FMT).value).Ok?
    ensures WaveOf(RIFF + size + WAVE + Serialised(chunks), floats)
      == Finish(Found(Some(FormatIn(Last(chunks, FMT).value).value), Last(chunks, DATA)), floats)
  {
    hide Chunks, FormatIn, Finish, Gather, Serialised, Last, FormatsRead, WellFormed;
    RiffHeader(size, Serialised(chunks));
    assert Serialised(chunks) + [] == Serialised(chunks) && chunks + [] == chunks;
    ChunksReadBack(chunks, []);
    NoChunks([]);
    GatherTakesLast(Found(None, None), chunks);
    assert Found(Some(FormatIn(Last(chunks, FMT).value).value), Last(chunks, DATA)) == Gather(Found(None, None), chunks).value;
  }

  lemma RiffHeader(size: Bytes, rest: Bytes)
    requires |size| == 4
    ensures IsRiff(RIFF + size + WAVE + rest) && (RIFF + size + WAVE + rest)[12..] == rest
  {
    var b := RIFF + size + WAVE + rest;
    assert b[0..4] == RIFF && b[8..12] == WAVE;
  }

  // -------------------------------------------------------------- formats read back

  /** A format chunk's sixteen bytes. */
  function FormatBytes(f: Format, byteRate: nat, align: nat): (b: Bytes)
    requires f.code < 0x1_0000 && f.channels < 0x1_0000 && f.rate < WORD && byteRate < WORD && align < 0x1_0000 && f.bits < 0x1_0000
    ensures |b| == 16
  {
    Powers();
    Le(f.code, 2) + Le(f.channels, 2) + Le(f.rate, 4) + Le(byteRate, 4) + Le(align, 2) + Le(f.bits, 2)
  }

  lemma FormatParts(f: Format, byteRate: nat, align: nat, more: Bytes)
    requires f.code < 0x1_0000 && f.channels < 0x1_0000 && f.rate < WORD && byteRate < WORD && align < 0x1_0000 && f.bits < 0x1_0000
    ensures
      var b := FormatBytes(f, byteRate, align) + more;
      && FromLe(b[0..2]) == f.code && FromLe(b[2..4]) == f.channels && FromLe(b[4..8]) == f.rate && FromLe(b[14..16]) == f.bits
      && b[16..] == more
  {
    hide FromLe, Le, Power256;
    Powers();
    LeRoundTrip(f.code, 2);
    LeRoundTrip(f.channels, 2);
    LeRoundTrip(f.rate, 4);
    LeRoundTrip(f.bits, 2);
    var b := FormatBytes(f, byteRate, align) + more;
    assert b[0..2] == Le(f.code, 2) && b[2..4] == Le(f.channels, 2) && b[4..8] == Le(f.rate, 4) && b[14..16] == Le(f.bits, 2);
  }

  /**
   A format reads back, whatever follows it. An extensible one takes its code
   from the two bytes eight further on, and is refused where they are not there.
   */
  lemma FormatReadsBack(f: Format, byteRate: nat, align: nat, more: Bytes, eight: Bytes)
    requires f.code < 0x1_0000 && f.channels < 0x1_0000 && f.rate < WORD && byteRate < WORD && align < 0x1_0000 && f.bits < 0x1_0000
    requires |eight| == 8
    ensures f.code != 0xFFFE ==> FormatIn(FormatBytes(f, byteRate, align) + more) == Ok(f)
    ensures
      var extensible := FormatBytes(f.(code := 0xFFFE), byteRate, align);
      && (Powers(); FormatIn(extensible + (eight + Le(f.code, 2) + more)) == Ok(f))
      && (|more| < 10 ==> FormatIn(extensible + more) == Err(ShortExtensible(16 + |more|)))
    ensures |more| < 16 ==> FormatIn(more) == Err(ShortFormat(|more|))
  {
    hide FromLe, Le, Power256, FormatBytes;
    Powers();
    FormatParts(f, byteRate, align, more);
    FormatParts(f.(code := 0xFFFE), byteRate, align, more);
    var tail := eight + Le(f.code, 2) + more;
    FormatParts(f.(code := 0xFFFE), byteRate, align, tail);
    LeRoundTrip(f.code, 2);
    var b := FormatBytes(f.(code := 0xFFFE), byteRate, align) + tail;
    assert b[24..26] == tail[8..10] == Le(f.code, 2);
  }

  lemma GatherMalformed(found: Found, chunks: seq<Chunk>, k: nat)
    requires k < |chunks| && FormatsRead(chunks[..k]) && chunks[k].id == FMT && FormatIn(chunks[k].body).Err?
    ensures Gather(found, chunks) == Err(FormatIn(chunks[k].body).error)
  {
    hide FormatIn, Gather, FormatsRead;
    GatherTakesLast(found, chunks[..k]);
    assert chunks == chunks[..k] + ([chunks[k]] + chunks[k + 1..]);
    GatherAppend(found, chunks[..k], [chunks[k]] + chunks[k + 1..]);
    GatherStep(Gather(found, chunks[..k]).value, chunks[k], chunks[k + 1..]);
  }

  /** The first malformed format ends the walk with its own error. */
  lemma MalformedRefused(size: Bytes, chunks: seq<Chunk>, k: nat, floats: Floats)
    requires |size| == 4 && (forall i :: 0 <= i < |chunks| ==> WellFormed(chunks[i])) && k < |chunks| && FormatsRead(chunks[..k])
    requires chunks[k].id == FMT && FormatIn(chunks[k].body).Err?
    ensures WaveOf(RIFF + size + WAVE + Serialised(chunks), floats) == Err(FormatIn(chunks[k].body).error)
  {
    hide Chunks, FormatIn, Gather, Finish, Serialised, FormatsRead, WellFormed;
    RiffHeader(size, Serialised(chunks));
    assert Serialised(chunks) + [] == Serialised(chunks) && chunks + [] == chunks;
    ChunksReadBack(chunks, []);
    NoChunks([]);
    GatherMalformed(Found(None, None), chunks, k);
  }

  lemma NotRiffRefused(b: Bytes, floats: Floats)
    requires |b| < 12 || b[..4] != [82, 73, 70, 70] || b[8..12] != [87, 65, 86, 69]
    ensures WaveOf(b, floats) == Err(NotRiff)
  {
  }

  /** A format that has a reader: integers of one to four bytes, or floating point of four or eight. */
  ghost predicate HasReader(f: Format) { (f.code == 1 && f.bits in {8, 16, 24, 32}) || (f.code == 3 && f.bits in {32, 64}) }

  /** A stream without a format or data is refused, and so is a format that names no channel, no rate or no reader. */
  lemma StreamRefused(size: Bytes, chunks: seq<Chunk>, floats: Floats)
    requires |size| == 4 && (forall k :: 0 <= k < |chunks| ==> WellFormed(chunks[k])) && FormatsRead(chunks)
    ensures
      var r, fmt, data := WaveOf(RIFF + size + WAVE + Serialised(chunks), floats), Last(chunks, FMT), Last(chunks, DATA);
      && (r == Err(NoFormat) <==> fmt.None?)
      && (r == Err(NoData) <==> fmt.Some? && data.None?)
      && (fmt.Some? && data.Some? ==>
            && FormatIn(fmt.value).Ok?
            && var f := FormatIn(fmt.value).value;
            && (r == Err(BadFormat) <==> f.channels < 1 || f.rate < 1)
            && (r == Err(Unsupported) <==> f.channels >= 1 && f.rate >= 1 && !HasReader(f))
            && (r.Ok? <==> f.channels >= 1 && f.rate >= 1 && HasReader(f))
            && (r.Ok? ==> r.value.rate == f.rate))
  {
    hide Chunks, FormatIn, Gather, Serialised, Last, FormatsRead, WellFormed, Decoded;
    RiffHeader(size, Serialised(chunks));
    assert Serialised(chunks) + [] == Serialised(chunks) && chunks + [] == chunks;
    ChunksReadBack(chunks, []);
    NoChunks([]);
    GatherTakesLast(Found(None, None), chunks);
  }

  // --------------------------------------------------------------- samples read back

  lemma SignExtendIs(n: nat)
    requires n < 0x100_0000
    ensures SignExtend24(n) == ToSigned(n, 0x80_0000)
  {
    assert n * 256 < WORD;
  }

  /** Every integer sample is a two's-complement fraction of its half range. */
  lemma SampleIs(bits: nat, b: Bytes, floats: Floats)
    requires bits in {16, 24, 32} && |b| == bits / 8
    ensures BytesPerSample(FORMAT_PCM, bits) == |b|
    ensures (Powers(); Sample(FORMAT_PCM, bits, b, floats) == ToSigned(FromLe(b), Power256(|b|) / 2) as real / (Power256(|b|) / 2) as real)
  {
    hide FromLe, ToSigned, SignExtend24, Power256;
    Powers();
    if bits == 16 {
      assert Power256(|b|) / 2 == 0x8000;
    } else if bits == 24 {
      assert Power256(|b|) / 2 == 0x80_0000;
      SignExtendIs(FromLe(b));
    } else {
      assert Power256(|b|) / 2 == WORD / 2;
    }
  }

  lemma SampleBetween(bits: nat, b: Bytes, floats: Floats)
    requires |b| == BytesPerSample(FORMAT_PCM, bits) > 0
    ensures -1.0 <= Sample(FORMAT_PCM, bits, b, floats) <= 1.0
  {
    hide FromLe, Power256;
    Powers();
    if bits == 24 {
      SignExtendIs(FromLe(b));
    }
  }

  lemma {:induction false} SumBetween(data: Bytes, base: nat, n: nat, bits: nat, floats: Floats)
    requires BytesPerSample(FORMAT_PCM, bits) > 0 && base + n * BytesPerSample(FORMAT_PCM, bits) <= |data|
    ensures -(n as real) <= SampleSum(data, base, n, FORMAT_PCM, bits, floats) <= n as real
    decreases n
  {
    hide Sample, BytesPerSample;
    if n > 0 {
      var w := BytesPerSample(FORMAT_PCM, bits);
      SampleBounds(base, n, w, |data|);
      SumBetween(data, base, n - 1, bits, floats);
      SampleBetween(bits, data[base + (n - 1) * w..base + (n - 1) * w + w], floats);
    }
  }

  lemma NotPositive(a: real, n: real)
    requires n > 0.0 && a * n <= 0.0
    ensures a <= 0.0
  {
  }

  lemma QuotientBetween(sum: real, n: real)
    requires n > 0.0 && -n <= sum <= n
    ensures -1.0 <= sum / n <= 1.0
  {
    var q := sum / n;
    assert q * n == sum;
    assert (q - 1.0) * n == sum - n && (-1.0 - q) * n == -n - sum;
    NotPositive(q - 1.0, n);
    NotPositive(-1.0 - q, n);
  }

  /** Integer samples decode into [-1, 1], whatever the bytes and however many the channels. */
  lemma DecodedBetween(data: Bytes, format: Format, floats: Floats)
    requires format.code == FORMAT_PCM && Readable(format)
    ensures forall f :: 0 <= f < |Decoded(data, format, floats)| ==> -1.0 <= Decoded(data, format, floats)[f] <= 1.0
  {
    hide Sample, BytesPerSample, SampleSum, FrameSize, Frames;
    forall f | 0 <= f < Frames(|data|, FrameSize(format))
      ensures -1.0 <= Decoded(data, format, floats)[f] <= 1.0
    {
      FrameBounds(f, FrameSize(format), |data|);
      SumBetween(data, f * FrameSize(format), format.channels, format.bits, floats);
      QuotientBetween(SampleSum(data, f * FrameSize(format), format.channels, FORMAT_PCM, format.bits, floats), format.channels as real);
    }
  }

  /** Integer samples as a writer lays them down, interleaved. */
  function Encoded(values: seq<int>, w: nat): (b: Bytes)
    requires w > 0
    requires forall k :: 0 <= k < |values| ==> -(Power256(w) / 2) <= values[k] < Power256(w) / 2
    ensures |b| == |values| * w
  {
    if values == [] then []
    else
      var n := |values| - 1;
      assert |values| * w == n * w + w;
      Encoded(values[..n], w) + Le(if values[n] < 0 then values[n] + Power256(w) else values[n], w)
  }

  lemma {:induction false} EncodedSlot(values: seq<int>, w: nat, k: nat)
    requires w in {2, 3, 4} && k < |values|
    requires forall i :: 0 <= i < |values| ==> -(Power256(w) / 2) <= values[i] < Power256(w) / 2
    ensures k * w >= 0 && k * w + w <= |Encoded(values, w)|
    ensures ToSigned(FromLe(Encoded(values, w)[k * w..k * w + w]), Power256(w) / 2) == values[k]
    decreases |values|
  {
    hide Le, FromLe, Power256;
    Powers();
    var n := |values| - 1;
    var b, before := Encoded(values, w), Encoded(values[..n], w);
    assert |values| * w == n * w + w;
    var word := if values[n] < 0 then values[n] + Power256(w) else values[n];
    assert b == before + Le(word, w);
    if k == n {
      LeRoundTrip(word, w);
      assert b[k * w..k * w + w] == Le(word, w);
    } else {
      EncodedSlot(values[..n], w, k);
      assert b[k * w..k * w + w] == before[k * w..k * w + w];
    }
  }

  function SumOf(values: seq<int>, half: nat): real
    requires half > 0
  {
    if values == [] then 0.0 else SumOf(values[..|values| - 1], half) + values[|values| - 1] as real / half as real
  }

  predicate InRange(values: seq<int>, half: int) { forall k :: 0 <= k < |values| ==> -half <= values[k] < half }

  /** Samples side by side sum to the integers they were written from. */
  lemma {:induction false} EncodedSum(values: seq<int>, w: nat, half: nat, from: nat, n: nat, floats: Floats)
    requires w in {2, 3, 4} && half > 0 && half == Power256(w) / 2 && InRange(values, half) && from + n <= |values|
    requires BytesPerSample(FORMAT_PCM, w * 8) == w && from * w >= 0 && from * w + n * w <= |Encoded(values, w)|
    ensures SampleSum(Encoded(values, w), from * w, n, FORMAT_PCM, w * 8, floats) == SumOf(values[from..from + n], half)
    decreases n
  {
    hide Sample, ToSigned, FromLe, Encoded, Power256, BytesPerSample;
    if n > 0 {
      var b, k := Encoded(values, w), from + n - 1;
      assert n * w == (n - 1) * w + w && k * w == from * w + (n - 1) * w;
      EncodedSum(values, w, half, from, n - 1, floats);
      EncodedSlot(values, w, k);
      SampleIs(w * 8, b[k * w..k * w + w], floats);
      var part := values[from..from + n];
      assert part[..n - 1] == values[from..from + n - 1] && part[n - 1] == values[k];
    }
  }

  /** The mean over the channels of frame `f`. */
  function MeanAt(values: seq<int>, f: nat, channels: nat, half: nat): real
    requires half > 0 && channels > 0 && 0 <= f * channels && f * channels + channels <= |values|
  {
    SumOf(values[f * channels..f * channels + channels], half) / channels as real
  }

  lemma FrameInside(f: nat, frames: nat, channels: nat)
    requires f < frames
    ensures 0 <= f * channels && f * channels + channels <= frames * channels
  {
    MulMono(f + 1, frames, channels);
    assert (f + 1) * channels == f * channels + channels;
  }

  /** Interleaved integers of any channel count decode to each frame's mean, as fractions of the half range. */
  lemma EncodedDecodes(values: seq<int>, frames: nat, format: Format, w: nat, half: nat, floats: Floats)
    requires format.code == FORMAT_PCM && w in {2, 3, 4} && format.bits == w * 8 && format.channels >= 1
    requires half > 0 && half == Power256(w) / 2 && InRange(values, half) && |values| == frames * format.channels
    ensures Readable(format)
    ensures Decoded(Encoded(values, w), format, floats) == seq(frames, f requires 0 <= f < frames =>
      FrameInside(f, frames, format.channels);
      MeanAt(values, f, format.channels, half))
  {
    hide SampleSum, SumOf, Encoded, Power256, FrameSize, Frame, Frames, MeanAt;
    FramesExact(frames, format.channels, w, FrameSize(format));
    forall f | 0 <= f < frames
      ensures Frame(Encoded(values, w), f, format, floats) == (FrameInside(f, frames, format.channels); MeanAt(values, f, format.channels, half))
    {
      FrameInside(f, frames, format.channels);
      FrameDecodes(values, f, format, w, half, floats);
    }
  }

  /** A whole stream of interleaved integers, whatever other chunks it has, parses to each frame's mean at its rate. */
  lemma StreamOfSamplesParses(size: Bytes, chunks: seq<Chunk>, values: seq<int>, frames: nat, format: Format, w: nat, half: nat, floats: Floats)
    requires |size| == 4 && (forall k :: 0 <= k < |chunks| ==> WellFormed(chunks[k])) && FormatsRead(chunks)
    requires format.code == FORMAT_PCM && w in {2, 3, 4} && format.bits == w * 8 && format.channels >= 1 && format.rate >= 1
    requires half > 0 && half == Power256(w) / 2 && InRange(values, half) && |values| == frames * format.channels
    requires Last(chunks, FMT).Some? && FormatIn(Last(chunks, FMT).value) == Ok(format)
    requires Last(chunks, DATA) == Some(Encoded(values, w))
    ensures WaveOf(RIFF + size + WAVE + Serialised(chunks), floats) == Ok(Wave(
      seq(frames, f requires 0 <= f < frames => FrameInside(f, frames, format.channels); MeanAt(values, f, format.channels, half)),
      format.rate))
  {
    hide WaveOf, Serialised, Last, FormatIn, Decoded, Encoded, MeanAt, Power256, FormatsRead, WellFormed;
    WrittenStreamParses(size, chunks, floats);
    EncodedDecodes(values, frames, format, w, half, floats);
  }

  /** A byte sample is its value offset by 128; a floating-point one is what its bytes spell. */
  lemma OtherSamples(v: int, b: Bytes, floats: Floats)
    requires -128 <= v < 128
    ensures Sample(FORMAT_PCM, 8, [v + 128], floats) == v as real / 128.0
    ensures |b| == 4 ==> Sample(FORMAT_FLOAT, 32, b, floats) == floats.float32(b)
    ensures |b| == 8 ==> Sample(FORMAT_FLOAT, 64, b, floats) == floats.float64(b)
  {
  }

  lemma FrameDecodes(values: seq<int>, f: nat, format: Format, w: nat, half: nat, floats: Floats)
    requires format.code == FORMAT_PCM && w in {2, 3, 4} && format.bits == w * 8 && Readable(format)
    requires half > 0 && half == Power256(w) / 2 && InRange(values, half)
    requires 0 <= f * format.channels && f * format.channels + format.channels <= |values|
    requires f < Frames(|Encoded(values, w)|, FrameSize(format))
    ensures Frame(Encoded(values, w), f, format, floats) == MeanAt(values, f, format.channels, half)
  {
    hide SampleSum, SumOf, Encoded, Power256, FrameSize, Frames;
    var c, size := format.channels, FrameSize(format);
    FrameBounds(f, size, |Encoded(values, w)|);
    assert f * size == f * (c * w) == f * c * w;
    EncodedSum(values, w, half, f * c, c, floats);
  }

  lemma FramesExact(frames: nat, c: nat, w: nat, size: nat)
    requires c > 0 && w > 0 && size == c * w > 0
    ensures frames * c * w >= 0 && Frames(frames * c * w, size) == frames
  {
    assert frames * c * w == frames * (c * w) == frames * size;
    FloorBetween(frames * size, size, frames, frames);
  }

  // ------------------------------------------------------------------ the probe stream

  const PROBE_RATE := 44100
  const PROBE_CHANNELS := 1
  const PROBE_BITS := 16
  const PROBE_SECONDS := 1

  function Zeros(n: nat): Bytes { seq(n, _ => 0) }

  /** A second of silence, header and all. */
  method ProbeWave() returns (out: Bytes)
    ensures forall floats :: WaveOf(out, floats) == Ok(Wave(seq(PROBE_RATE * PROBE_SECONDS, _ => 0.0), PROBE_RATE))
  {
    hide FromLe, Le, Power256, WaveOf, Zeros;
    var align: nat := PROBE_CHANNELS * PROBE_BITS / 8;
    var length: nat := PROBE_RATE * PROBE_SECONDS * align;
    Powers();
    out := RIFF;
    out := out + Le(36 + length, 4);
    out := out + (WAVE + FMT);
    out := out + Le(16, 4);
    out := out + Le(1, 2);
    out := out + Le(PROBE_CHANNELS, 2);
    out := out + Le(PROBE_RATE, 4);
    out := out + Le(PROBE_RATE * align, 4);
    out := out + Le(align, 2);
    out := out + Le(PROBE_BITS, 2);
    out := out + DATA;
    out := out + Le(length, 4);
    out := out + Zeros(length);
    forall floats
      ensures WaveOf(out, floats) == Ok(Wave(seq(PROBE_RATE * PROBE_SECONDS, _ => 0.0), PROBE_RATE))
    {
      ProbeReadsBack(out, floats);
    }
  }

  function ProbeFormat(): Bytes {
    Powers();
    Le(1, 2) + Le(PROBE_CHANNELS, 2) + Le(PROBE_RATE, 4) + Le(PROBE_RATE * 2, 4) + Le(2, 2) + Le(PROBE_BITS, 2)
  }

  lemma ProbeFormatReads()
    ensures |ProbeFormat()| == 16 && FormatIn(ProbeFormat()) == Ok(Format(FORMAT_PCM, PROBE_CHANNELS, PROBE_RATE, PROBE_BITS))
  {
    hide FromLe, Le, Power256;
    Powers();
    var b := ProbeFormat();
    LeRoundTrip(1, 2);
    LeRoundTrip(PROBE_RATE, 4);
    LeRoundTrip(PROBE_BITS, 2);
    assert b[0..2] == Le(1, 2) && b[2..4] == Le(PROBE_CHANNELS, 2) && b[4..8] == Le(PROBE_RATE, 4) && b[14..16] == Le(PROBE_BITS, 2);
  }

  /** Silence decodes to zeros. */
  lemma SilenceDecodes(frames: nat, format: Format, floats: Floats)
    requires format == Format(FORMAT_PCM, 1, format.rate, 16)
    ensures Decoded(Zeros(frames * 2), format, floats) == seq(frames, _ => 0.0)
  {
    var b := Zeros(frames * 2);
    assert FrameSize(format) == 2 && Frames(|b|, 2) == frames;
    forall f | 0 <= f < frames
      ensures Frame(b, f, format, floats) == 0.0
    {
      assert SampleSum(b, f * 2, 0, FORMAT_PCM, 16, floats) == 0.0;
      var slot := b[f * 2..f * 2 + 2];
      assert slot == [0, 0] && FromLe([0, 0]) == 0 + 256 * FromLe([0]);
    }
  }

  lemma ProbeReadsBack(out: Bytes, floats: Floats)
    requires (Powers(); out == RIFF + Le(88236, 4) + (WAVE + FMT) + Le(16, 4) + Le(1, 2) + Le(PROBE_CHANNELS, 2) + Le(PROBE_RATE, 4)
      + Le(PROBE_RATE * 2, 4) + Le(2, 2) + Le(PROBE_BITS, 2) + DATA + Le(88200, 4) + Zeros(88200))
    ensures WaveOf(out, floats) == Ok(Wave(seq(PROBE_RATE * PROBE_SECONDS, _ => 0.0), PROBE_RATE))
  {
    hide FromLe, Le, Power256, WaveOf, FormatIn, ProbeFormat, Zeros, Decoded;
    Powers();
    var format, data := Chunk(FMT, ProbeFormat()), Chunk(DATA, Zeros(88200));
    ProbeFormatReads();
    ProbeLayout(out);
    var chunks := [format, data];
    assert Last(chunks, DATA) == Some(data.body);
    assert chunks[..1] == [format] && Last([format], FMT) == Some(format.body);
    WrittenStreamParses(Le(88236, 4), chunks, floats);
    SilenceDecodes(44100, Format(FORMAT_PCM, PROBE_CHANNELS, PROBE_RATE, PROBE_BITS), floats);
  }

  lemma ProbeLayout(out: Bytes)
    requires (Powers(); out == RIFF + Le(88236, 4) + (WAVE + FMT) + Le(16, 4) + Le(1, 2) + Le(PROBE_CHANNELS, 2) + Le(PROBE_RATE, 4)
      + Le(PROBE_RATE * 2, 4) + Le(2, 2) + Le(PROBE_BITS, 2) + DATA + Le(88200, 4) + Zeros(88200))
    ensures |ProbeFormat()| == 16 && |Zeros(88200)| == 88200
    ensures (Powers(); out == RIFF + Le(88236, 4) + WAVE + Serialised([Chunk(FMT, ProbeFormat()), Chunk(DATA, Zeros(88200))]))
  {
    hide Le, Power256;
    Powers();
    var format, data := Chunk(FMT, ProbeFormat()), Chunk(DATA, Zeros(88200));
    assert [format, data][1..] == [data] && [data][1..] == [];
    assert Serialised([data]) == DATA + Le(88200, 4) + Zeros(88200);
    assert Serialised([format, data]) == FMT + Le(16, 4) + ProbeFormat() + Serialised([data]);
  }
}
