/** The capping and decoding of a station's text. */
module IcyText {
  import opened Common
  import opened Utf8

  /** Up to `tries` bytes dropped from the end, while what is left is not well formed. */
  function DropPartial(raw: Bytes, tries: nat): Bytes
    decreases tries
  {
    if tries > 0 && raw != [] && !Valid(raw) then DropPartial(raw[..|raw| - 1], tries - 1) else raw
  }

  function Cut(raw: Bytes, max: nat): Bytes {
    if |raw| > max then DropPartial(raw[..max], 3) else raw
  }

  /** Every byte a rune of its own. */
  function Latin1(raw: Bytes): (r: seq<Rune>)
    ensures |r| == |raw| && forall i :: 0 <= i < |raw| ==> r[i] == raw[i]
  {
    seq(|raw|, i requires 0 <= i < |raw| => raw[i] as int)
  }

  predicate Space(r: Rune) { WhiteSpace(r) }

  function TrimLeft(s: seq<Rune>): seq<Rune> {
    if s != [] && Space(s[0]) then TrimLeft(s[1..]) else s
  }

  function TrimRight(s: seq<Rune>): seq<Rune> {
    if s != [] && Space(s[|s| - 1]) then TrimRight(s[..|s| - 1]) else s
  }

  function Trim(s: seq<Rune>): seq<Rune> { TrimRight(TrimLeft(s)) }

  lemma {:induction false} TrimLeftIs(s: seq<Rune>) returns (i: nat)
    ensures i <= |s| && TrimLeft(s) == s[i..] && (forall k :: 0 <= k < i ==> Space(s[k])) && (i < |s| ==> !Space(s[i]))
  {
    i := 0;
    if s != [] && Space(s[0]) {
      var rest := TrimLeftIs(s[1..]);
      i := 1 + rest;
    }
  }

  lemma {:induction false} TrimRightIs(s: seq<Rune>) returns (j: nat)
    ensures j <= |s| && TrimRight(s) == s[..j] && (forall k :: j <= k < |s| ==> Space(s[k])) && (j > 0 ==> !Space(s[j - 1]))
  {
    j := |s|;
    if s != [] && Space(s[|s| - 1]) {
      j := TrimRightIs(s[..|s| - 1]);
    }
  }

  /** Trimming takes the white space off either end, all of it, and nothing else. */
  lemma TrimIs(s: seq<Rune>) returns (i: nat, j: nat)
    ensures i <= j <= |s| && Trim(s) == s[i..j]
    ensures (forall k :: 0 <= k < i ==> Space(s[k])) && forall k :: j <= k < |s| ==> Space(s[k])
    ensures i < j ==> !Space(s[i]) && !Space(s[j - 1])
  {
    hide Space;
    i := TrimLeftIs(s);
    var n := TrimRightIs(s[i..]);
    j := i + n;
    forall k | j <= k < |s|
      ensures Space(s[k])
    {
      assert s[k] == s[i..][k - i];
    }
  }

  /** A text with no white space at either end is kept as it is, and one that is trimmed to nothing held nothing else. */
  lemma TrimKeeps(s: seq<Rune>)
    ensures s != [] && !Space(s[0]) && !Space(s[|s| - 1]) ==> Trim(s) == s
    ensures Trim(s) == [] <==> forall k :: 0 <= k < |s| ==> Space(s[k])
  {
    hide Space, Trim;
    var i, j := TrimIs(s);
    assert s[0..|s|] == s;
  }

  /** The text before its white space is trimmed. */
  function Spelled(cut: Bytes): seq<Rune> {
    if Valid(cut) then Decode(cut) else Latin1(cut)
  }

  function TextOf(raw: Bytes, max: nat): seq<Rune> { Trim(Spelled(Cut(raw, max))) }

  method ReadText(raw: Bytes, max: nat) returns (text: seq<Rune>)
    ensures text == TextOf(raw, max)
  {
    var kept := raw;
    if |kept| > max {
      kept := kept[..max];
      var i := 0;
      while i < 3 && |kept| > 0 && !Valid(kept)
        invariant 0 <= i <= 3
        invariant DropPartial(kept, 3 - i) == DropPartial(raw[..max], 3)
      {
        kept := kept[..|kept| - 1];
        i := i + 1;
      }
    }
    if Valid(kept) {
      text := Decode(kept);
    } else {
      text := [];
      for k := 0 to |kept|
        invariant |text| == k && forall j :: 0 <= j < k ==> text[j] == kept[j]
      {
        text := text + [kept[k] as int];
      }
      assert text == Latin1(kept);
    }
    text := Trim(text);
  }

  // ------------------------------------------------------------------------ the cut

  /** How many leading runes fit in `max` bytes. */
  function Fitting(runes: seq<Rune>, max: int): (k: nat)
    ensures k <= |runes|
  {
    if runes == [] || |EncodeRune(runes[0])| > max then 0
    else 1 + Fitting(runes[1..], max - |EncodeRune(runes[0])|)
  }

  /** It is the longest prefix that fits: the next rune, if any, would not. */
  lemma {:induction false} FittingIsLongest(runes: seq<Rune>, max: nat)
    ensures
      var k := Fitting(runes, max);
      && |Encode(runes[..k])| <= max
      && (k < |runes| ==> |Encode(runes[..k])| + |EncodeRune(runes[k])| > max)
  {
    hide EncodeRune;
    var k := Fitting(runes, max);
    if k > 0 {
      FittingIsLongest(runes[1..], max - |EncodeRune(runes[0])|);
      assert runes[..k][1..] == runes[1..][..k - 1];
    }
  }

  lemma {:induction false} DropsPartialRune(whole: seq<Rune>, r: Rune, n: nat, tries: nat)
    requires n < |EncodeRune(r)| && n <= tries
    ensures DropPartial(Encode(whole) + EncodeRune(r)[..n], tries) == Encode(whole)
    decreases n
  {
    hide EncodeRune, Encode, Valid;
    var raw := Encode(whole) + EncodeRune(r)[..n];
    ValidAfter(whole, EncodeRune(r)[..n]);
    if n == 0 {
      assert raw == Encode(whole);
      EncodeDecode(whole);
    } else {
      PartialRuneInvalid(r, n);
      assert raw[..|raw| - 1] == Encode(whole) + EncodeRune(r)[..n - 1];
      DropsPartialRune(whole, r, n - 1, tries - 1);
    }
  }

  /** A cut through a well-formed string backs up to the rune boundary before it, and no further. */
  lemma CutAtRune(runes: seq<Rune>, max: nat)
    ensures Cut(Encode(runes), max) == Encode(runes[..Fitting(runes, max)])
  {
    hide EncodeRune;
    var raw, k := Encode(runes), Fitting(runes, max);
    FittingIsLongest(runes, max);
    assert runes == runes[..k] + runes[k..];
    EncodeConcat(runes[..k], runes[k..]);
    if k < |runes| {
      var whole, next := Encode(runes[..k]), EncodeRune(runes[k]);
      var n := max - |whole|;
      assert Encode(runes[k..]) == next + Encode(runes[k..][1..]);
      assert raw[..max] == whole + next[..n];
      DropsPartialRune(runes[..k], runes[k], n, 3);
    } else {
      assert runes[..k] == runes && runes[k..] == [];
    }
  }

  /** A well-formed value reads as its longest whole-rune prefix within the cap, trimmed; never as Latin-1. */
  lemma {:induction false} WellFormedText(raw: Bytes, max: nat)
    requires Valid(raw)
    ensures
      var runes := Decode(raw);
      && Valid(Cut(raw, max))
      && |raw| - |Cut(raw, max)| <= Max(0, |raw| - max) + 3
      && TextOf(raw, max) == Trim(runes[..Fitting(runes, max)])
  {
    var runes := Decode(raw);
    DecodeEncode(raw);
    CutAtRune(runes, max);
    EncodeDecode(runes[..Fitting(runes, max)]);
    CutIsNear(raw, max);
  }

  lemma {:induction false} DropsFew(raw: Bytes, tries: nat)
    ensures |DropPartial(raw, tries)| <= |raw| <= |DropPartial(raw, tries)| + tries
    ensures DropPartial(raw, tries) == raw[..|DropPartial(raw, tries)|]
    decreases tries
  {
    if tries > 0 && raw != [] && !Valid(raw) {
      DropsFew(raw[..|raw| - 1], tries - 1);
    }
  }

  /** The cut is a prefix no longer than the cap and at most three bytes short of it. */
  lemma CutIsNear(raw: Bytes, max: nat)
    ensures |Cut(raw, max)| <= max || Cut(raw, max) == raw
    ensures Cut(raw, max) == raw[..|Cut(raw, max)|]
    ensures |Cut(raw, max)| >= Min(|raw|, max) - 3
  {
    if |raw| > max {
      DropsFew(raw[..max], 3);
    } else {
      assert raw[..|raw|] == raw;
    }
  }

  /** Anything else left by the cut reads as Latin-1, one rune to every byte that is left. */
  lemma Latin1Text(raw: Bytes, max: nat)
    requires !Valid(Cut(raw, max))
    ensures
      var cut := Cut(raw, max);
      && TextOf(raw, max) == Trim(Latin1(cut))
      && |Latin1(cut)| == |cut| >= Min(|raw|, max) - 3
  {
    CutIsNear(raw, max);
  }
}
