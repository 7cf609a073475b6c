/** UTF-8 as RFC 3629 section 4 defines it: the well-formed byte strings and the runes they spell. */
module Utf8 {
  import opened Common

  type Rune = r: int | 0 <= r < 0xD800 || 0xE000 <= r <= 0x10FFFF

  predicate Tail(b: byte) { 0x80 <= b <= 0xBF }

  /** How many bytes the well-formed sequence at the front of `s` takes; none is 0. */
  function RuneLen(s: Bytes): (n: nat)
    ensures n <= 4 && n <= |s|
  {
    if s == [] then 0
    else if s[0] <= 0x7F then 1
    else if |s| >= 2 && 0xC2 <= s[0] <= 0xDF && Tail(s[1]) then 2
    else if |s| >= 3 && 0xE0 <= s[0] <= 0xEF && Second3(s[0], s[1]) && Tail(s[2]) then 3
    else if |s| >= 4 && 0xF0 <= s[0] <= 0xF4 && Second4(s[0], s[1]) && Tail(s[2]) && Tail(s[3]) then 4
    else 0
  }

  /** The second byte of three: not overlong, not a surrogate. */
  predicate Second3(lead: byte, b: byte) {
    if lead == 0xE0 then 0xA0 <= b <= 0xBF else if lead == 0xED then 0x80 <= b <= 0x9F else Tail(b)
  }

  /** The second byte of four: not overlong, not past U+10FFFF. */
  predicate Second4(lead: byte, b: byte) {
    if lead == 0xF0 then 0x90 <= b <= 0xBF else if lead == 0xF4 then 0x80 <= b <= 0x8F else Tail(b)
  }

  predicate Valid(s: Bytes) {
    s == [] || (RuneLen(s) > 0 && Valid(s[RuneLen(s)..]))
  }

  function RuneAt(s: Bytes): Rune
    requires RuneLen(s) > 0
  {
    var n := RuneLen(s);
    if n == 1 then s[0]
    else if n == 2 then Six(s[0] - 0xC0, s[1])
    else if n == 3 then Six(Six(s[0] - 0xE0, s[1]), s[2])
    else Six(Six(Six(s[0] - 0xF0, s[1]), s[2]), s[3])
  }

  /** Six more bits, from a continuation byte. */
  function Six(high: nat, b: byte): nat
    requires Tail(b)
  {
    high * 64 + (b - 0x80)
  }

  function Decode(s: Bytes): seq<Rune>
    requires Valid(s)
  {
    if s == [] then [] else [RuneAt(s)] + Decode(s[RuneLen(s)..])
  }

  function EncodeRune(r: Rune): (b: Bytes)
    ensures 1 <= |b| <= 4
  {
    var q1 := r / 64;
    var q2 := q1 / 64;
    var q3 := q2 / 64;
    if r <= 0x7F then [r as byte]
    else if r <= 0x7FF then [Lead(0xC0, q1), Low6(r)]
    else if r <= 0xFFFF then [Lead(0xE0, q2), Low6(q1), Low6(r)]
    else [Lead(0xF0, q3), Low6(q2), Low6(q1), Low6(r)]
  }

  /** A continuation byte: the low six bits. */
  function Low6(n: nat): (b: byte)
    ensures Tail(b)
  {
    0x80 + n % 64
  }

  /** A leading byte: the mark and the high bits. */
  function Lead(mark: byte, n: nat): byte
    requires mark + n < 256
  {
    mark + n
  }

  function Encode(runes: seq<Rune>): Bytes {
    if runes == [] then [] else EncodeRune(runes[0]) + Encode(runes[1..])
  }

  lemma RuneRoundTrip(r: Rune, tail: Bytes)
    ensures RuneLen(EncodeRune(r) + tail) == |EncodeRune(r)|
    ensures RuneAt(EncodeRune(r) + tail) == r
  {
    var b, s := EncodeRune(r), EncodeRune(r) + tail;
    var q1 := r / 64;
    var q2 := q1 / 64;
    assert |s| >= |b| && s[0] == b[0];
    if |b| > 1 {
      assert s[1] == b[1];
      SixLow6(r);
    }
    if |b| > 2 {
      assert s[2] == b[2];
      SixLow6(q1);
    }
    if |b| > 3 {
      assert s[3] == b[3];
      SixLow6(q2);
    }
  }

  lemma SixLow6(n: nat)
    ensures Six(n / 64, Low6(n)) == n
  {
  }

  lemma SixSplits(high: nat, b: byte)
    requires Tail(b)
    ensures Six(high, b) / 64 == high && Low6(Six(high, b)) == b
  {
  }

  /** What runes spell is well formed, and spells those runes. */
  lemma {:induction false} EncodeDecode(runes: seq<Rune>)
    ensures Valid(Encode(runes)) && Decode(Encode(runes)) == runes
  {
    if runes != [] {
      var tail := Encode(runes[1..]);
      EncodeDecode(runes[1..]);
      RuneRoundTrip(runes[0], tail);
      assert Encode(runes)[|EncodeRune(runes[0])|..] == tail;
    }
  }

  lemma RuneSpelling(s: Bytes)
    requires RuneLen(s) > 0
    ensures EncodeRune(RuneAt(s)) == s[..RuneLen(s)]
  {
    var n := RuneLen(s);
    if n == 2 {
      SixSplits(s[0] - 0xC0, s[1]);
    } else if n == 3 {
      var high := Six(s[0] - 0xE0, s[1]);
      SixSplits(s[0] - 0xE0, s[1]);
      SixSplits(high, s[2]);
    } else if n == 4 {
      var high := Six(s[0] - 0xF0, s[1]);
      SixSplits(s[0] - 0xF0, s[1]);
      SixSplits(high, s[2]);
      SixSplits(Six(high, s[2]), s[3]);
    }
  }

  /** A well-formed string is spelled by its runes and by nothing else. */
  lemma {:induction false} DecodeEncode(s: Bytes)
    requires Valid(s)
    ensures Encode(Decode(s)) == s
    decreases |s|
  {
    hide RuneLen, RuneAt, EncodeRune;
    if s != [] {
      RuneSpelling(s);
      DecodeEncode(s[RuneLen(s)..]);
      assert s == s[..RuneLen(s)] + s[RuneLen(s)..];
    }
  }

  /** Validity runs rune by rune: what stands before a rune boundary has no say in what follows. */
  lemma {:induction false} ValidAfter(runes: seq<Rune>, rest: Bytes)
    ensures Valid(Encode(runes) + rest) <==> Valid(rest)
  {
    var s := Encode(runes) + rest;
    if runes == [] {
      assert s == rest;
    } else {
      var tail := Encode(runes[1..]) + rest;
      assert s == EncodeRune(runes[0]) + tail;
      RuneRoundTrip(runes[0], tail);
      assert s[|EncodeRune(runes[0])|..] == tail;
      ValidAfter(runes[1..], rest);
    }
  }

  /** No proper part of a rune's spelling is a spelling. */
  lemma PartialRuneInvalid(r: Rune, n: nat)
    requires 0 < n < |EncodeRune(r)|
    ensures !Valid(EncodeRune(r)[..n])
  {
    var b, part := EncodeRune(r), EncodeRune(r)[..n];
    assert part[0] == b[0] && b[0] > 0x7F;
    assert RuneLen(part) == 0;
  }

  lemma {:induction false} EncodeConcat(a: seq<Rune>, b: seq<Rune>)
    ensures Encode(a + b) == Encode(a) + Encode(b)
  {
    if a == [] {
      assert a + b == b;
    } else {
      assert (a + b)[1..] == a[1..] + b;
      EncodeConcat(a[1..], b);
    }
  }
}
