/**
 The brand generator's PNG reader, and the standard's own reading of the files
 its writer makes.
 */
module PngDecode {
  import opened Common
  import PngFilter
  import opened PngScanlines
  import opened PngContainer

  function Lift(e: PngFilter.FilterError): DecodeError {
    match e
    case IndexError => IndexError
    case UnknownFilter => UnknownFilter
  }

  // -------------------------------------------------------------------- the reader

  /** Three-byte pixels widened to four with full alpha; a partial last pixel is dropped. */
  function Opaque(line: Bytes): Bytes {
    if |line| < 3 then [] else [line[0], line[1], line[2], 255] + Opaque(line[3..])
  }

  /** Pixel `x` of a row of three-byte pixels comes out as its own three bytes and full alpha. */
  lemma {:induction false} OpaquePixel(line: Bytes, x: nat)
    requires 3 * x + 3 <= |line|
    ensures |Opaque(line)| == |line| / 3 * 4
    ensures 4 * x + 4 <= |Opaque(line)| && Opaque(line)[4 * x..4 * x + 4] == line[3 * x..3 * x + 3] + [255]
    decreases x
  {
    OpaqueLength(line);
    if x > 0 {
      OpaquePixel(line[3..], x - 1);
      assert Opaque(line)[4 * x..4 * x + 4] == Opaque(line[3..])[4 * (x - 1)..4 * (x - 1) + 4];
      assert line[3 * x..3 * x + 3] == line[3..][3 * (x - 1)..3 * (x - 1) + 3];
    }
  }

  lemma {:induction false} OpaqueLength(line: Bytes)
    ensures |Opaque(line)| == |line| / 3 * 4
    decreases |line|
  {
    if |line| >= 3 {
      OpaqueLength(line[3..]);
    }
  }

  function PixelsOfRow(line: Bytes, channels: nat): Bytes {
    if channels == 4 then line else Opaque(line)
  }

  function Prepend(px: Bytes, r: Result<Bytes, DecodeError>): Result<Bytes, DecodeError> {
    if r.Err? then r else Ok(px + r.value)
  }

  /** The row whose filter byte is at `pos`: the row itself, and its pixels. */
  function RowAt(raw: Bytes, pos: nat, above: Bytes, ch: nat): Result<(Bytes, Bytes), DecodeError>
    requires ch > 0 && pos < |raw|
  {
    var row := PngFilter.UnfilterOutcome(raw[pos], Slice(raw, pos + 1, pos + 1 + |above|), above, ch, |above|);
    if row.Err? then Err(Lift(row.error))
    else if ch == 3 && |row.value| < |above| then Err(IndexError)
    else Ok((row.value, PixelsOfRow(row.value, ch)))
  }

  /**
   The pixels of the `rows` rows from `pos` on, below the row `above` of an
   image `stride` bytes wide. A row cut short is the last there can be.
   */
  function ReadRows(raw: Bytes, pos: nat, rows: nat, above: Bytes, stride: nat, ch: nat): Result<Bytes, DecodeError>
    requires ch > 0 && (|above| == stride || |raw| <= pos)
    decreases rows
  {
    if rows == 0 then Ok([])
    else if pos >= |raw| then Err(IndexError)
    else
      var row := RowAt(raw, pos, above, ch);
      if row.Err? then Err(row.error)
      else Prepend(row.value.1, ReadRows(raw, pos + 1 + stride, rows - 1, row.value.0, stride, ch))
  }

  function Supported(header: Header): bool {
    header.depth == 8 && header.interlace == 0 && (header.colour == 2 || header.colour == 6)
  }

  function Channels(header: Header): nat { if header.colour == 2 then 3 else 4 }

  /** What the reader makes of a file's bytes. */
  function DecodePng(z: Zlib, data: Bytes): Result<Image, DecodeError> {
    if |data| < 8 || data[..8] != SIGNATURE then Err(NotPng)
    else
      var walked := Walk(data[8..], Found(None, []));
      if walked.Err? then Err(walked.error)
      else DecodeFound(z, walked.value)
  }

  function DecodeFound(z: Zlib, found: Found): Result<Image, DecodeError> {
    if found.header.None? then Err(NoHeader)
    else
      var header := found.header.value;
      if !Supported(header) then Err(Unsupported)
      else
        var raw := z.decompress(found.idat);
        if raw.None? then Err(ZlibError)
        else
          var stride := header.w * Channels(header);
          var px := ReadRows(raw.value, 0, header.h, Zeros(stride), stride, Channels(header));
          if px.Err? then Err(px.error) else Ok(Image(header.w, header.h, px.value))
  }

  // ------------------------------------------------------------ the reader's two loops

  lemma {:induction false} OpaqueStep(line: Bytes, x: nat)
    requires 3 * x + 3 <= |line|
    ensures |Opaque(line[..3 * x])| == 4 * x
    ensures Opaque(line[..3 * x + 3])
      == Opaque(line[..3 * x]) + [line[3 * x], line[3 * x + 1], line[3 * x + 2], 255]
  {
    if x == 0 {
      assert Opaque(line[..3][3..]) == [];
    } else {
      OpaqueStep(line[3..], x - 1);
      assert line[3..][..3 * (x - 1)] == line[..3 * x][3..];
      assert line[3..][..3 * (x - 1) + 3] == line[..3 * x + 3][3..];
    }
  }

  /** One row of three-byte pixels copied out as four, raising where the row is cut short. */
  lemma OpaqueNothing(line: Bytes)
    ensures Opaque(line[..0]) == []
  {
  }

  method WidenRow(line: Bytes, w: nat) returns (r: Result<Bytes, DecodeError>)
    requires |line| <= 3 * w
    ensures |line| == 3 * w ==> r == Ok(Opaque(line))
    ensures |line| < 3 * w ==> r == Err(IndexError)
  {
    hide Opaque;
    var row := new byte[w * 4](_ => 0);
    OpaqueNothing(line);
    for x := 0 to w
      invariant 3 * x <= |line|
      invariant row[..4 * x] == Opaque(line[..3 * x])
    {
      var s, d := x * 3, x * 4;
      if s + 2 >= |line| {
        return Err(IndexError);
      }
      row[d] := line[s];
      row[d + 1] := line[s + 1];
      row[d + 2] := line[s + 2];
      row[d + 3] := 255;
      OpaqueStep(line, x);
      assert row[..d + 4] == row[..d] + [line[s], line[s + 1], line[s + 2], 255];
    }
    assert row[..4 * w] == row[..] && line[..3 * w] == line;
    return Ok(row[..]);
  }

  /** The body of the reader's loop: one row unfiltered against the row above, and its pixels. */
  method ReadRow(raw: Bytes, pos: nat, w: nat, channels: nat, prior: array<byte>)
    returns (px: Result<Bytes, DecodeError>, line: array<byte>)
    requires channels == 3 || channels == 4
    requires pos < |raw| && prior.Length == w * channels
    ensures px.Ok? ==> RowAt(raw, pos, prior[..], channels) == Ok((line[..], px.value))
    ensures px.Err? ==> RowAt(raw, pos, prior[..], channels) == Err(px.error)
  {
    hide PngFilter.UnfilterOutcome, Opaque;
    var kind := raw[pos];
    var cut := Slice(raw, pos + 1, pos + 1 + prior.Length);
    line := new byte[|cut|](i requires 0 <= i < |cut| => cut[i]);
    assert line[..] == cut;
    var undone := PngFilter.Unfilter(kind, line, prior, channels, prior.Length);
    if undone.Err? {
      px := Err(Lift(undone.error));
    } else if channels == 4 {
      px := Ok(line[..]);
    } else {
      px := WidenRow(line[..], w);
    }
  }

  /** One turn of the row loop: what `px` and the rows still to come amount to, before and after. */
  lemma ReadRowsStep(px: Bytes, raw: Bytes, pos: nat, rows: nat, above: Bytes, stride: nat, ch: nat)
    requires ch > 0 && (|above| == stride || |raw| <= pos)
    ensures
      var whole := Prepend(px, ReadRows(raw, pos, rows, above, stride, ch));
      && (rows == 0 ==> whole == Ok(px))
      && (rows > 0 && pos >= |raw| ==> whole == Err(IndexError))
      && (rows > 0 && pos < |raw| ==>
            var row := RowAt(raw, pos, above, ch);
            if row.Err? then whole == Err(row.error)
            else
              && (|row.value.0| == stride || |raw| <= pos + 1 + stride)
              && whole == Prepend(px + row.value.1, ReadRows(raw, pos + 1 + stride, rows - 1, row.value.0, stride, ch)))
  {
    assert px + [] == px;
    if rows > 0 && pos < |raw| && RowAt(raw, pos, above, ch).Ok? {
      var (row, more) := RowAt(raw, pos, above, ch).value;
      var rest := ReadRows(raw, pos + 1 + stride, rows - 1, row, stride, ch);
      if rest.Ok? {
        assert px + (more + rest.value) == px + more + rest.value;
      }
    }
  }

  /** The reader's row loop: one filter byte and one row at a time, the row above carried along. */
  method ReadImageRows(raw: Bytes, w: nat, h: nat, channels: nat) returns (r: Result<Bytes, DecodeError>)
    requires channels == 3 || channels == 4
    ensures r == ReadRows(raw, 0, h, Zeros(w * channels), w * channels, channels)
  {
    hide ReadRows, RowAt;
    var stride := w * channels;
    var px: Bytes := [];
    var prior := new byte[stride](_ => 0);
    var pos: nat := 0;
    ghost var above, left: nat := Zeros(stride), h;
    ghost var whole := ReadRows(raw, 0, h, above, stride, channels);
    assert prior[..] == above;
    assert whole == Prepend([], whole) by { if whole.Ok? { assert [] + whole.value == whole.value; } }
    for y := 0 to h
      invariant left == h - y && above == prior[..]
      invariant |above| == stride || |raw| <= pos
      invariant whole == Prepend(px, ReadRows(raw, pos, left, above, stride, channels))
    {
      ReadRowsStep(px, raw, pos, left, above, stride, channels);
      if pos >= |raw| {
        return Err(IndexError);
      }
      var row, line := ReadRow(raw, pos, w, channels, prior);
      if row.Err? {
        return row;
      }
      px := px + row.value;
      pos, prior, above, left := pos + 1 + stride, line, line[..], left - 1;
    }
    ReadRowsStep(px, raw, pos, 0, above, stride, channels);
    return Ok(px);
  }

  /** The reader over a file's bytes. */
  method Decode(z: Zlib, data: Bytes) returns (r: Result<Image, DecodeError>)
    ensures r == DecodePng(z, data)
  {
    if Slice(data, 0, 8) != SIGNATURE {
      return Err(NotPng);
    }
    var walked := WalkFile(data);
    if walked.Err? {
      return Err(walked.error);
    }
    if walked.value.header.None? {
      return Err(NoHeader);
    }
    var header := walked.value.header.value;
    if !Supported(header) {
      return Err(Unsupported);
    }
    var raw := z.decompress(walked.value.idat);
    if raw.None? {
      return Err(ZlibError);
    }
    var px := ReadImageRows(raw.value, header.w, header.h, Channels(header));
    if px.Err? {
      return Err(px.error);
    }
    return Ok(Image(header.w, header.h, px.value));
  }
}
