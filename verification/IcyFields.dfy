/** Reading one key's value out of an ICY metadata block. */
module IcyFields {
  import opened Common

  const QUOTE: byte := 39
  const EQUALS: byte := 61
  const SEMICOLON: byte := 59

  /** What may precede a key: the separator, white space, or the padding. */
  predicate Boundary(c: byte) {
    c == SEMICOLON || c == 32 || c == 9 || c == 13 || c == 10 || c == 0
  }

  function TrimNuls(block: Bytes): Bytes {
    if block != [] && block[|block| - 1] == 0 then TrimNuls(block[..|block| - 1]) else block
  }

  predicate OccursAt(s: Bytes, k: Bytes, i: nat) {
    i + |k| <= |s| && s[i..i + |k|] == k
  }

  /** Where `k` first occurs in `s`, at `from` or after. */
  function IndexFrom(s: Bytes, k: Bytes, from: nat): (r: Option<nat>)
    ensures r.Some? ==> r.value >= from && OccursAt(s, k, r.value) && forall j :: from <= j < r.value ==> !OccursAt(s, k, j)
    ensures r.None? ==> forall j :: from <= j ==> !OccursAt(s, k, j)
    decreases |s| - from
  {
    if from + |k| > |s| then None
    else if s[from..from + |k|] == k then Some(from)
    else IndexFrom(s, k, from + 1)
  }

  predicate Anchored(s: Bytes, k: Bytes, i: nat) {
    OccursAt(s, k, i) && (i == 0 || Boundary(s[i - 1]))
  }

  /** The first place, at `from` or after, where `k` begins a field. */
  function FindAnchored(s: Bytes, k: Bytes, from: nat): (r: Option<nat>)
    ensures r.Some? ==> r.value >= from && Anchored(s, k, r.value) && forall j :: from <= j < r.value ==> !Anchored(s, k, j)
    ensures r.None? ==> forall j :: from <= j ==> !Anchored(s, k, j)
    decreases |s| + 1 - from
  {
    var found := IndexFrom(s, k, from);
    if found.None? || Anchored(s, k, found.value) then found
    else FindAnchored(s, k, found.value + 1)
  }

  function Pattern(key: Bytes): Bytes { key + [EQUALS, QUOTE] }

  /** The value that starts at `from`: up to the first quote and semicolon, or else up to a last quote. */
  function ValueAt(s: Bytes, from: nat): Option<Bytes>
    requires from <= |s|
  {
    var rest := s[from..];
    match IndexFrom(rest, [QUOTE, SEMICOLON], 0)
    case Some(j) => Some(rest[..j])
    case None =>
      if rest != [] && rest[|rest| - 1] == QUOTE then Some(rest[..|rest| - 1]) else None
  }

  /** What a block says for a key: the value where the key first begins a field, if that value is closed. */
  function ValueOf(block: Bytes, key: Bytes): Option<Bytes> {
    var s, k := TrimNuls(block), Pattern(key);
    match FindAnchored(s, k, 0)
    case None => None
    case Some(i) => ValueAt(s, i + |k|)
  }

  /** The search: near misses are passed over, and it ends. */
  method IcyValue(block: Bytes, key: Bytes) returns (value: Option<Bytes>)
    ensures value == ValueOf(block, key)
  {
    hide IndexFrom, TrimNuls;
    var s := TrimNuls(block);
    var k := Pattern(key);
    var off := 0;
    while true
      invariant 0 <= off <= |s|
      invariant FindAnchored(s, k, 0) == FindAnchored(s, k, off)
      decreases |s| - off
    {
      var found := IndexFrom(s, k, off);
      if found.None? {
        return None;
      }
      var i := found.value;
      if i != 0 && !Boundary(s[i - 1]) {
        off := i + 1;
        continue;
      }
      return ValueAt(s, i + |k|);
    }
  }

  // -------------------------------------------------------------- blocks as stations print them

  /** A field, and what stands between it and the one before. */
  datatype Field = Field(gap: Bytes, name: Bytes, value: Bytes)

  function PrintField(f: Field): (r: Bytes)
    ensures |r| == |f.name| + |f.value| + 4
  {
    f.name + [EQUALS, QUOTE] + f.value + [QUOTE, SEMICOLON]
  }

  /** Fields as a station prints them; some leave off the last semicolon. */
  function Print(fields: seq<Field>, closed: bool): Bytes {
    if fields == [] then []
    else if |fields| == 1 && !closed then fields[0].gap + PrintField(fields[0])[..|PrintField(fields[0])| - 1]
    else fields[0].gap + (PrintField(fields[0]) + Print(fields[1..], closed))
  }

  function Nuls(n: nat): Bytes { seq(n, _ => 0) }

  /** Semicolon, space, tab, the two line breaks and NUL set fields apart. */
  ghost predicate Separates(c: byte) { c in {59, 32, 9, 13, 10, 0} }

  ghost predicate Gap(gap: Bytes) { forall i :: 0 <= i < |gap| ==> Separates(gap[i]) }

  ghost predicate PlainName(name: Bytes) {
    forall i :: 0 <= i < |name| ==> name[i] != QUOTE && !Separates(name[i])
  }

  /** A value that cannot be taken for its own end, nor hides the key behind a boundary. */
  ghost predicate Quiet(value: Bytes, k: Bytes) {
    && (forall i :: 0 <= i ==> !OccursAt(value, [QUOTE, SEMICOLON], i))
    && (forall j :: 0 < j <= |value| && Separates(value[j - 1]) ==> !OccursAt(value + [QUOTE], k, j))
  }

  function FirstNamed(fields: seq<Field>, key: Bytes): Option<Bytes> {
    if fields == [] then None
    else if fields[0].name == key then Some(fields[0].value)
    else FirstNamed(fields[1..], key)
  }

  /** Where the parts of a printed field lie. */
  lemma FieldLayout(f: Field, tail: Bytes)
    ensures
      var s, n, v := PrintField(f) + tail, |f.name|, |f.value|;
      && |PrintField(f)| == n + v + 4
      && (forall i :: 0 <= i < n ==> s[i] == f.name[i])
      && s[n] == EQUALS && s[n + 1] == QUOTE
      && (forall i :: 0 <= i < v ==> s[n + 2 + i] == f.value[i])
      && s[n + 2 + v] == QUOTE && s[n + 3 + v] == SEMICOLON
  {
  }

  lemma PatternLayout(s: Bytes, key: Bytes, p: nat)
    requires PlainName(key) && OccursAt(s, Pattern(key), p)
    ensures |Pattern(key)| == |key| + 2 && p + |key| + 2 <= |s| && s[p..p + |key|] == key
    ensures forall i :: p <= i <= p + |key| ==> s[i] != QUOTE
    ensures s[p + |key| + 1] == QUOTE
  {
    var k, m := Pattern(key), |key|;
    var t := s[p..p + m + 2];
    assert t == k;
    assert k[m] == EQUALS && k[m + 1] == QUOTE;
    assert t[m] == s[p + m] && t[m + 1] == s[p + m + 1];
    assert s[p..p + m] == t[..m] == key;
    forall i | p <= i <= p + m
      ensures s[i] != QUOTE
    {
      assert t[i - p] == s[i];
      if i < p + m {
        assert key[i - p] == t[i - p];
      }
    }
  }

  lemma NoQuoteInName(f: Field, tail: Bytes, q: nat)
    requires PlainName(f.name) && q < |PrintField(f)| && (PrintField(f) + tail)[q] == QUOTE
    ensures q >= |f.name| + 1
  {
    FieldLayout(f, tail);
  }

  lemma NoGapInName(f: Field, tail: Bytes, p: nat)
    requires PlainName(f.name) && p < |PrintField(f)| && Separates((PrintField(f) + tail)[p])
    ensures p >= |f.name| + 2
  {
    FieldLayout(f, tail);
  }

  lemma QuietIs(value: Bytes, k: Bytes, j: nat)
    requires Quiet(value, k) && 0 < j <= |value| && Separates(value[j - 1])
    ensures !OccursAt(value + [QUOTE], k, j)
  {
  }

  /** Inside one printed field the key begins a field only at its front, and only if it is the name. */
  lemma AnchorsInField(f: Field, tail: Bytes, key: Bytes, p: nat)
    requires PlainName(f.name) && PlainName(key) && Quiet(f.value, Pattern(key))
    requires p < |PrintField(f)| && Anchored(PrintField(f) + tail, Pattern(key), p)
    ensures p == 0 && f.name == key
  {
    hide PlainName, Quiet, PrintField, Pattern, OccursAt;
    var s, n, v, m := PrintField(f) + tail, |f.name|, |f.value|, |key|;
    FieldLayout(f, tail);
    PatternLayout(s, key, p);
    var q, close := p + m + 1, n + 2 + v;
    if p == 0 {
      assert q >= n + 1 by { NoQuoteInName(f, tail, q); }
      assert m == n && s[0..n] == f.name;
    } else {
      assert Separates(s[p - 1]);
      assert p - 1 >= n + 2 by { NoGapInName(f, tail, p - 1); }
      assert p - 1 != close && q <= close;
      var j := p - (n + 2);
      assert Separates(f.value[j - 1]);
      InValue(f, tail, Pattern(key), j);
      QuietIs(f.value, Pattern(key), j);
      assert false;
    }
  }

  /** What lies in a printed value and its closing quote lies there in the field. */
  lemma InValue(f: Field, tail: Bytes, k: Bytes, j: nat)
    requires OccursAt(PrintField(f) + tail, k, |f.name| + 2 + j) && j + |k| <= |f.value| + 1
    ensures OccursAt(f.value + [QUOTE], k, j)
  {
    var s, w, at := PrintField(f) + tail, f.value + [QUOTE], |f.name| + 2;
    FieldLayout(f, tail);
    assert forall i :: 0 <= i < |w| ==> w[i] == s[at + i];
    assert w[j..j + |k|] == s[at + j..at + j + |k|];
  }

  /** Past one field the search is the search of the rest. */
  lemma AnchoredShift(a: Bytes, t: Bytes, k: Bytes, j: nat)
    requires a != [] && Boundary(a[|a| - 1])
    ensures Anchored(a + t, k, |a| + j) <==> Anchored(t, k, j)
  {
    var s := a + t;
    if j + |k| <= |t| {
      assert s[|a| + j..|a| + j + |k|] == t[j..j + |k|];
    }
  }

  lemma FieldEnds(f: Field)
    ensures PrintField(f) != [] && Boundary(PrintField(f)[|PrintField(f)| - 1])
  {
    FieldLayout(f, []);
    assert PrintField(f) + [] == PrintField(f);
  }

  lemma FindShift(f: Field, tail: Bytes, key: Bytes)
    requires PlainName(f.name) && PlainName(key) && Quiet(f.value, Pattern(key)) && f.name != key
    ensures FindAnchored(PrintField(f) + tail, Pattern(key), 0)
      == match FindAnchored(tail, Pattern(key), 0)
         case None => None
         case Some(i) => Some(|PrintField(f)| + i)
  {
    hide Anchored, PlainName, Quiet, PrintField, Pattern, FindAnchored;
    var a, k := PrintField(f), Pattern(key);
    var s := a + tail;
    FieldEnds(f);
    forall j | 0 <= j && Anchored(s, k, j)
      ensures j >= |a| && Anchored(tail, k, j - |a|)
    {
      if j < |a| {
        AnchorsInField(f, tail, key, j);
      } else {
        AnchoredShift(a, tail, k, j - |a|);
      }
    }
    match FindAnchored(tail, k, 0) {
      case None =>
      case Some(i) => AnchoredShift(a, tail, k, i);
    }
  }

  /** The value of a printed field reads back whole. */
  lemma ValueReadsBack(f: Field, tail: Bytes, k: Bytes)
    requires Quiet(f.value, k)
    ensures ValueAt(PrintField(f) + tail, |f.name| + 2) == Some(f.value)
  {
    var s, from, v, mark := PrintField(f) + tail, |f.name| + 2, |f.value|, [QUOTE, SEMICOLON];
    var rest := s[from..];
    FieldLayout(f, tail);
    assert forall i :: 0 <= i < v ==> rest[i] == f.value[i];
    assert rest[v] == QUOTE && rest[v + 1] == SEMICOLON;
    assert rest[v..v + 2] == mark;
    assert OccursAt(rest, mark, v);
    forall j | 0 <= j < v
      ensures !OccursAt(rest, mark, j)
    {
      assert !OccursAt(f.value, mark, j);
      if j + 1 < v {
        assert f.value[j..j + 2] == rest[j..j + 2];
      } else {
        assert rest[j..j + 2][1] == QUOTE && mark[1] == SEMICOLON;
      }
    }
    assert rest[..v] == f.value;
  }

  lemma ValueAtShift(a: Bytes, t: Bytes, from: nat)
    requires from <= |t|
    ensures ValueAt(a + t, |a| + from) == ValueAt(t, from)
  {
    assert (a + t)[|a| + from..] == t[from..];
  }

  lemma FindAtFront(s: Bytes, k: Bytes)
    requires OccursAt(s, k, 0)
    ensures FindAnchored(s, k, 0) == Some(0)
  {
    assert Anchored(s, k, 0);
  }

  ghost function Found(s: Bytes, k: Bytes): Option<Bytes> {
    match FindAnchored(s, k, 0)
    case None => None
    case Some(i) => ValueAt(s, i + |k|)
  }

  lemma FoundPast(f: Field, tail: Bytes, key: Bytes)
    requires PlainName(f.name) && PlainName(key) && Quiet(f.value, Pattern(key)) && f.name != key
    ensures Found(PrintField(f) + tail, Pattern(key)) == Found(tail, Pattern(key))
  {
    hide PrintField, Quiet, ValueAt;
    FindShift(f, tail, key);
    match FindAnchored(tail, Pattern(key), 0) {
      case None =>
      case Some(i) => ValueAtShift(PrintField(f), tail, i + |Pattern(key)|);
    }
  }

  lemma FoundHere(f: Field, tail: Bytes)
    requires Quiet(f.value, Pattern(f.name))
    ensures Found(PrintField(f) + tail, Pattern(f.name)) == Some(f.value)
  {
    var s, k := PrintField(f) + tail, Pattern(f.name);
    assert s[..|k|] == k;
    FindAtFront(s, k);
    ValueReadsBack(f, tail, k);
  }

  /** The search passes over a gap. */
  lemma FoundPastGap(gap: Bytes, tail: Bytes, key: Bytes)
    requires Gap(gap) && PlainName(key)
    ensures Found(gap + tail, Pattern(key)) == Found(tail, Pattern(key))
  {
    hide ValueAt, FindAnchored;
    var k, s := Pattern(key), gap + tail;
    if gap != [] {
      forall j: nat
        ensures Anchored(s, k, j) <==> j >= |gap| && Anchored(tail, k, j - |gap|)
      {
        if j >= |gap| {
          AnchoredShift(gap, tail, k, j - |gap|);
        } else {
          assert !Separates(k[0]) && s[j] == gap[j];
        }
      }
      FindFirst(s, tail, k, |gap|);
      match FindAnchored(tail, k, 0) {
        case None =>
        case Some(i) => ValueAtShift(gap, tail, i + |k|);
      }
    } else {
      assert s == tail;
    }
  }

  lemma FindFirst(s: Bytes, t: Bytes, k: Bytes, n: nat)
    requires forall j: nat :: Anchored(s, k, j) <==> j >= n && Anchored(t, k, j - n)
    ensures FindAnchored(s, k, 0) == match FindAnchored(t, k, 0) case None => None case Some(i) => Some(n + i)
  {
    hide Anchored, FindAnchored;
    var found := FindAnchored(s, k, 0);
    if found.Some? {
      assert Anchored(t, k, found.value - n);
    }
    if FindAnchored(t, k, 0).Some? {
      assert Anchored(s, k, n + FindAnchored(t, k, 0).value);
    }
  }

  /** A last field without its semicolon reads as it would with it. */
  lemma FoundInOpen(f: Field, key: Bytes)
    requires PlainName(f.name) && PlainName(key) && Quiet(f.value, Pattern(key))
    ensures Found(PrintField(f)[..|PrintField(f)| - 1], Pattern(key)) == if f.name == key then Some(f.value) else None
  {
    hide PlainName, Quiet, IndexFrom;
    var whole, k := PrintField(f), Pattern(key);
    var s := whole[..|whole| - 1];
    FieldLayout(f, []);
    assert whole + [] == whole;
    forall p: nat | Anchored(s, k, p)
      ensures p == 0 && f.name == key
    {
      assert s[p..p + |k|] == whole[p..p + |k|];
      AnchorsInField(f, [], key, p);
    }
    if f.name == key {
      assert s[..|k|] == k;
      FindAtFront(s, k);
      OpenValue(f, k);
    }
  }

  lemma OpenValue(f: Field, k: Bytes)
    requires Quiet(f.value, k)
    ensures ValueAt(PrintField(f)[..|PrintField(f)| - 1], |f.name| + 2) == Some(f.value)
  {
    var s, mark := PrintField(f)[..|PrintField(f)| - 1], [QUOTE, SEMICOLON];
    var rest := s[|f.name| + 2..];
    assert rest == f.value + [QUOTE];
    forall j: nat
      ensures !OccursAt(rest, mark, j)
    {
      assert !OccursAt(f.value, mark, j);
      if j + 2 <= |f.value| {
        assert rest[j..j + 2] == f.value[j..j + 2];
      } else if j + 2 == |rest| {
        assert rest[j..j + 2][1] == QUOTE;
      }
    }
    assert rest[..|rest| - 1] == f.value;
  }

  lemma {:induction false} ValueInFields(fields: seq<Field>, closed: bool, key: Bytes)
    requires PlainName(key)
    requires forall i :: 0 <= i < |fields| ==> Gap(fields[i].gap) && PlainName(fields[i].name) && Quiet(fields[i].value, Pattern(key))
    ensures Found(Print(fields, closed), Pattern(key)) == FirstNamed(fields, key)
  {
    hide PrintField, Quiet, Found, Gap;
    if fields == [] {
      FoundNowhere(Pattern(key));
    } else {
      var f, rest := fields[0], Print(fields[1..], closed);
      if |fields| == 1 && !closed {
        FoundPastGap(f.gap, PrintField(f)[..|PrintField(f)| - 1], key);
        FoundInOpen(f, key);
      } else {
        FoundPastGap(f.gap, PrintField(f) + rest, key);
        if f.name == key {
          FoundHere(f, rest);
        } else {
          FoundPast(f, rest, key);
          ValueInFields(fields[1..], closed, key);
        }
      }
    }
  }

  lemma FoundNowhere(k: Bytes)
    requires k != []
    ensures Found([], k) == None
  {
  }

  lemma {:induction false} TrimsPadding(s: Bytes, n: nat)
    requires s != [] ==> s[|s| - 1] != 0
    ensures TrimNuls(s + Nuls(n)) == s
    decreases n
  {
    if n == 0 {
      assert s + Nuls(0) == s;
    } else {
      assert (s + Nuls(n))[..|s| + n - 1] == s + Nuls(n - 1);
      TrimsPadding(s, n - 1);
    }
  }

  lemma {:induction false} PrintEnds(fields: seq<Field>, closed: bool)
    requires fields != []
    ensures Print(fields, closed) != [] && Print(fields, closed)[|Print(fields, closed)| - 1] != 0
  {
    FieldLayout(fields[0], []);
    assert PrintField(fields[0]) + [] == PrintField(fields[0]);
    if |fields| > 1 {
      PrintEnds(fields[1..], closed);
    } else {
      assert Print(fields[1..], closed) == [];
    }
  }

  /**
   Printing and reading back: a block of name='value'; fields with gaps
   between, padded out with NULs, the last field closed by its quote at least,
   gives the value of the first field that has the key for its name, whatever
   other names end in the key; and nothing if no field has.
   */
  lemma {:induction false} PrintedValueReadsBack(fields: seq<Field>, closed: bool, key: Bytes, padding: nat)
    requires PlainName(key)
    requires forall i :: 0 <= i < |fields| ==> Gap(fields[i].gap) && PlainName(fields[i].name) && Quiet(fields[i].value, Pattern(key))
    ensures ValueOf(Print(fields, closed) + Nuls(padding), key) == FirstNamed(fields, key)
  {
    hide Quiet, TrimNuls, FindAnchored, ValueAt, FirstNamed, Gap;
    if fields != [] {
      PrintEnds(fields, closed);
    }
    TrimsPadding(Print(fields, closed), padding);
    ValueInFields(fields, closed, key);
  }
}
