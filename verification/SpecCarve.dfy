/** Carving a spec fragment's lines into the sections under its keys. */
module SpecCarve {
  import opened Common

  type Line = string

  predicate Space(c: char) { WhiteSpace(c as int) }

  predicate Blank(l: Line) { forall i :: 0 <= i < |l| ==> Space(l[i]) }

  function TrimBlank(lines: seq<Line>): (r: seq<Line>)
    ensures |r| <= |lines| && r == lines[..|r|]
    ensures forall i :: |r| <= i < |lines| ==> Blank(lines[i])
    ensures r != [] ==> !Blank(r[|r| - 1])
  {
    if lines != [] && Blank(lines[|lines| - 1]) then TrimBlank(lines[..|lines| - 1]) else lines
  }

  lemma TrimBlankKeeps(lines: seq<Line>)
    requires lines != [] ==> !Blank(lines[|lines| - 1])
    ensures TrimBlank(lines) == lines
  {
  }

  // ------------------------------------------------------------------------- keys

  function Pad(indent: nat): string { seq(indent, _ => ' ') }

  /** A key line: the indent exactly, then something that is neither a space nor a comment. */
  predicate IsKey(l: Line, indent: nat) {
    |l| > indent && l[..indent] == Pad(indent) && l[indent] != ' ' && l[indent] != '#'
  }

  function IndexFrom(s: string, mark: string, i: nat): (r: nat)
    ensures r <= |s|
    decreases |s| - i
  {
    if i + |mark| > |s| then |s| else if s[i..i + |mark|] == mark then i else IndexFrom(s, mark, i + 1)
  }

  function CutAt(s: string, mark: string): string { s[..IndexFrom(s, mark, 0)] }

  function TrimRight(s: string): string {
    if s != [] && (s[|s| - 1] == ' ' || s[|s| - 1] == '\t') then TrimRight(s[..|s| - 1]) else s
  }

  /** The key of a key line: no trailing comment, no trailing white space, no colon. */
  function SectionKey(line: string): string {
    var s := TrimRight(CutAt(CutAt(line, " #"), "\t#"));
    if s != [] && s[|s| - 1] == ':' then s[..|s| - 1] else s
  }

  predicate PlainKey(k: string) {
    k != [] && k[0] != '#' && forall i :: 0 <= i < |k| ==> k[i] != ' ' && k[i] != '\t'
  }

  lemma {:induction false} IndexAbsent(s: string, mark: string, i: nat)
    requires mark != [] && forall k :: 0 <= k < |s| ==> s[k] != mark[0]
    ensures IndexFrom(s, mark, i) == |s|
    decreases |s| - i
  {
    if i + |mark| <= |s| {
      assert s[i..i + |mark|][0] == s[i];
      IndexAbsent(s, mark, i + 1);
    }
  }

  lemma SectionKeyReadsBack(k: string)
    requires PlainKey(k)
    ensures SectionKey(k + ":") == k
  {
    var s := k + ":";
    IndexAbsent(s, " #", 0);
    assert s[..|s|] == s;
    IndexAbsent(s, "\t#", 0);
    assert s[..|s| - 1] == k;
  }

  /** Where the mark `c#` stands in a string. */
  predicate MarkAt(s: string, c: char, i: int) { 0 <= i < |s| - 1 && s[i] == c && s[i + 1] == '#' }

  lemma {:induction false} IndexIs(s: string, c: char, i: nat, at: nat)
    requires i <= at <= |s| && (forall j :: i <= j < at ==> !MarkAt(s, c, j)) && (at < |s| ==> MarkAt(s, c, at))
    ensures IndexFrom(s, [c] + "#", i) == at
    decreases |s| - i
  {
    var mark := [c] + "#";
    if i + 2 <= |s| {
      assert s[i..i + 2] == mark <==> MarkAt(s, c, i);
      if i < at {
        IndexIs(s, c, i + 1, at);
      }
    }
  }

  lemma CutIs(s: string, c: char, at: nat)
    requires at <= |s| && (forall j :: 0 <= j < at ==> !MarkAt(s, c, j)) && (at < |s| ==> MarkAt(s, c, at))
    ensures CutAt(s, [c] + "#") == s[..at]
  {
    IndexIs(s, c, 0, at);
  }

  /** Spaces and tabs. */
  ghost predicate Gap(s: string) { forall i :: 0 <= i < |s| ==> s[i] == ' ' || s[i] == '\t' }

  lemma {:induction false} GapTrimmed(k: string, gap: string)
    requires PlainKey(k) && Gap(gap)
    ensures TrimRight(k + ":" + gap) == k + ":"
    decreases |gap|
  {
    var s := k + ":" + gap;
    if gap != "" {
      GapTrimmed(k, gap[..|gap| - 1]);
      assert s[..|s| - 1] == k + ":" + gap[..|gap| - 1];
    } else {
      assert s == k + ":";
    }
  }

  /** A key reads back past white space, and past a comment set off by some. */
  lemma SectionKeyIgnoresComment(k: string, gap: string, comment: string)
    requires PlainKey(k) && Gap(gap) && (comment != "" ==> comment[0] == '#' && gap != "")
    ensures SectionKey(k + ":" + gap + comment) == k
  {
    hide TrimRight, IndexFrom;
    var head := k + ":" + gap;
    var line := head + comment;
    var end := if comment == "" then |line| else |head| - 1;
    forall c, j | c in {' ', '\t'} && 0 <= j < |line| && MarkAt(line, c, j)
      ensures j >= end && (j == end ==> c == gap[|gap| - 1])
    {
      assert j >= |k|;
    }
    var kept := CutBoth(line, end);
    var rest := gap[..end - |k| - 1];
    assert line[..end] == k + ":" + rest;
    GapTrimmed(k, rest);
    assert (k + ":")[..|k|] == k;
  }

  /** Cutting at both marks cuts at the first of either. */
  lemma CutBoth(s: string, end: nat) returns (kept: string)
    requires end <= |s| && forall j :: 0 <= j < end ==> !MarkAt(s, ' ', j) && !MarkAt(s, '\t', j)
    requires end < |s| ==> MarkAt(s, ' ', end) || MarkAt(s, '\t', end)
    ensures kept == CutAt(CutAt(s, " #"), "\t#") == s[..end]
  {
    assert [' '] + "#" == " #" && ['\t'] + "#" == "\t#";
    var at := FirstMark(s, ' ', end);
    CutIs(s, ' ', at);
    var once := s[..at];
    if end < |s| && MarkAt(s, '\t', end) {
      assert at > end + 1;
    }
    assert forall j :: 0 <= j < at - 1 ==> MarkAt(once, '\t', j) == MarkAt(s, '\t', j);
    CutIs(once, '\t', end);
    kept := once[..end];
  }

  lemma {:induction false} FirstMark(s: string, c: char, from: nat) returns (at: nat)
    requires from <= |s|
    ensures from <= at <= |s| && (forall j :: from <= j < at ==> !MarkAt(s, c, j)) && (at < |s| ==> MarkAt(s, c, at))
    decreases |s| - from
  {
    if from == |s| || MarkAt(s, c, from) {
      at := from;
    } else {
      at := FirstMark(s, c, from + 1);
    }
  }

  lemma KeyLine(k: string, indent: nat)
    requires PlainKey(k)
    ensures IsKey(Pad(indent) + k + ":", indent)
    ensures (Pad(indent) + k + ":")[indent..] == k + ":"
    ensures indent > 0 ==> !IsKey(Pad(indent) + k + ":", 0)
  {
    var l := Pad(indent) + k + ":";
    assert l[..indent] == Pad(indent) && l[indent] == k[0];
  }

  /** A line is a key line at the indent it has and no other, and a comment at none. */
  lemma IndentTells(m: nat, n: nat, rest: string)
    requires rest != "" && rest[0] != ' '
    ensures IsKey(Pad(m) + rest, n) <==> m == n && rest[0] != '#'
  {
    var l := Pad(m) + rest;
    assert l[m] == rest[0] && forall i :: 0 <= i < m ==> l[i] == ' ';
    if n <= m {
      assert l[..n] == Pad(n);
    } else if |l| > n {
      assert l[..n][m] != Pad(n)[m];
    }
  }

  // ----------------------------------------------------------------------- carving

  datatype Section = Section(key: string, body: seq<Line>)

  ghost predicate NoKeys(lines: seq<Line>, indent: nat) { forall i :: 0 <= i < |lines| ==> !IsKey(lines[i], indent) }

  function FirstKey(lines: seq<Line>, indent: nat): (n: nat)
    ensures n <= |lines| && forall i :: 0 <= i < n ==> !IsKey(lines[i], indent)
    ensures n < |lines| ==> IsKey(lines[n], indent)
  {
    if lines == [] || IsKey(lines[0], indent) then 0 else 1 + FirstKey(lines[1..], indent)
  }

  /** The sections of lines that begin with a key line. */
  function Sections(lines: seq<Line>, indent: nat): seq<Section>
    requires lines != [] ==> IsKey(lines[0], indent)
    decreases |lines|
  {
    if lines == [] then []
    else
      var n := 1 + FirstKey(lines[1..], indent);
      [Section(SectionKey(lines[0][indent..]), TrimBlank(lines[1..n]))] + Sections(lines[n..], indent)
  }

  datatype Carved = Carved(prefix: seq<Line>, sections: seq<Section>)

  function CarveOf(lines: seq<Line>, indent: nat): Carved {
    var n := FirstKey(lines, indent);
    Carved(lines[..n], Sections(lines[n..], indent))
  }

  lemma FirstKeyIs(lines: seq<Line>, indent: nat, n: nat)
    requires n <= |lines| && (forall i :: 0 <= i < n ==> !IsKey(lines[i], indent)) && (n < |lines| ==> IsKey(lines[n], indent))
    ensures FirstKey(lines, indent) == n
  {
  }

  /** One key line, lines that hold no key, and then the next key line or nothing: one section and the rest. */
  lemma {:induction false} SectionStep(lines: seq<Line>, indent: nat, head: Line, body: seq<Line>, tail: seq<Line>)
    requires lines == [head] + body + tail
    requires IsKey(head, indent) && NoKeys(body, indent) && (tail != [] ==> IsKey(tail[0], indent))
    ensures Sections(lines, indent) == [Section(SectionKey(head[indent..]), TrimBlank(body))] + Sections(tail, indent)
  {
    hide IsKey, SectionKey, TrimBlank;
    var n := |body|;
    assert lines[1..] == body + tail;
    FirstKeyIs(lines[1..], indent, n);
    assert lines[1..1 + n] == body && lines[1 + n..] == tail;
  }

  method NextKey(lines: seq<Line>, from: nat, indent: nat) returns (end: nat)
    requires from <= |lines|
    ensures from <= end <= |lines| && NoKeys(lines[from..end], indent) && (end < |lines| ==> IsKey(lines[end], indent))
  {
    hide IsKey;
    end := from;
    while end < |lines| && !IsKey(lines[end], indent)
      invariant from <= end <= |lines| && NoKeys(lines[from..end], indent)
    {
      assert lines[from..end + 1] == lines[from..end] + [lines[end]];
      end := end + 1;
    }
  }

  /** The walk: lines before the first key are the prefix, then each key takes the lines up to the next. */
  method Carve(lines: seq<Line>, indent: nat) returns (prefix: seq<Line>, sections: seq<Section>)
    ensures Carved(prefix, sections) == CarveOf(lines, indent)
  {
    hide SectionKey, TrimBlank, Sections;
    prefix, sections := [], [];
    ghost var first := FirstKey(lines, indent);
    ghost var whole := Sections(lines[first..], indent);
    SectionsOfNothing(indent);
    var i := 0;
    while i < |lines|
      invariant 0 <= i <= |lines|
      invariant i <= first ==> sections == [] && prefix == lines[..i]
      invariant first < i ==> prefix == lines[..first] && (i < |lines| ==> IsKey(lines[i], indent))
      invariant first < i ==> whole == sections + Sections(lines[i..], indent)
    {
      if !IsKey(lines[i], indent) {
        prefix := prefix + [lines[i]];
        i := i + 1;
        assert i <= first;
        continue;
      }
      assert first <= i;
      assert whole == sections + Sections(lines[i..], indent) by { assert [] + whole == whole; }
      var key := SectionKey(lines[i][indent..]);
      var end := NextKey(lines, i + 1, indent);
      var section := Section(key, TrimBlank(lines[i + 1..end]));
      assert lines[i..] == [lines[i]] + lines[i + 1..end] + lines[end..];
      SectionStep(lines[i..], indent, lines[i], lines[i + 1..end], lines[end..]);
      Assoc(sections, [section], Sections(lines[end..], indent));
      sections := sections + [section];
      i := end;
    }
    assert lines[i..] == [] && sections + [] == sections;
    assert first == |lines| ==> lines[first..] == [];
  }

  lemma SectionsOfNothing(indent: nat)
    ensures Sections([], indent) == [] && Stretches([], indent) == []
  {
  }

  // ------------------------------------------------------------ what carving loses

  /** The lines from each key line to the next. */
  function Stretches(lines: seq<Line>, indent: nat): seq<seq<Line>>
    requires lines != [] ==> IsKey(lines[0], indent)
    decreases |lines|
  {
    if lines == [] then []
    else
      var n := 1 + FirstKey(lines[1..], indent);
      [lines[..n]] + Stretches(lines[n..], indent)
  }

  /** A stretch is its section: a key line the key is read from, the body, and then blank lines only. */
  ghost predicate Holds(stretch: seq<Line>, s: Section, indent: nat) {
    && 1 + |s.body| <= |stretch|
    && IsKey(stretch[0], indent) && SectionKey(stretch[0][indent..]) == s.key
    && stretch[1..1 + |s.body|] == s.body
    && (forall i :: 1 <= i < |stretch| ==> !IsKey(stretch[i], indent))
    && (forall i :: 1 + |s.body| <= i < |stretch| ==> Blank(stretch[i]))
    && (s.body != [] ==> !Blank(s.body[|s.body| - 1]))
  }

  /** Carving loses key lines and trailing blank lines, and nothing else. */
  lemma CarveLosesLittle(lines: seq<Line>, indent: nat)
    ensures
      var carved := CarveOf(lines, indent);
      var stretches := Stretches(lines[FirstKey(lines, indent)..], indent);
      && lines == carved.prefix + Concat(stretches)
      && NoKeys(carved.prefix, indent)
      && |stretches| == |carved.sections|
      && forall k :: 0 <= k < |stretches| ==> Holds(stretches[k], carved.sections[k], indent)
  {
    hide IsKey, Holds, Sections, Stretches;
    var n := FirstKey(lines, indent);
    StretchesHold(lines[n..], indent);
    assert lines == lines[..n] + lines[n..];
  }

  lemma {:induction false} StretchesHold(lines: seq<Line>, indent: nat)
    requires lines != [] ==> IsKey(lines[0], indent)
    ensures
      var stretches, sections := Stretches(lines, indent), Sections(lines, indent);
      && lines == Concat(stretches) && |stretches| == |sections|
      && forall k :: 0 <= k < |stretches| ==> Holds(stretches[k], sections[k], indent)
    decreases |lines|
  {
    hide SectionKey, Blank, TrimBlank, Holds, Sections, Stretches;
    if lines == [] {
      SectionsOfNothing(indent);
    } else {
      var n := 1 + FirstKey(lines[1..], indent);
      var first, rest := lines[..n], Stretches(lines[n..], indent);
      StretchHolds(lines, indent, n);
      StretchesHold(lines[n..], indent);
      StretchStep(lines, indent, n);
      assert ([first] + rest)[1..] == rest;
      assert lines == first + lines[n..];
    }
  }

  lemma StretchStep(lines: seq<Line>, indent: nat, n: nat)
    requires lines != [] && IsKey(lines[0], indent) && n == 1 + FirstKey(lines[1..], indent)
    ensures Stretches(lines, indent) == [lines[..n]] + Stretches(lines[n..], indent)
    ensures Sections(lines, indent)
      == [Section(SectionKey(lines[0][indent..]), TrimBlank(lines[1..n]))] + Sections(lines[n..], indent)
  {
    hide SectionKey, TrimBlank;
  }

  lemma StretchHolds(lines: seq<Line>, indent: nat, n: nat)
    requires lines != [] && IsKey(lines[0], indent) && n == 1 + FirstKey(lines[1..], indent)
    ensures Holds(lines[..n], Section(SectionKey(lines[0][indent..]), TrimBlank(lines[1..n])), indent)
  {
    hide IsKey, SectionKey, Blank;
    var body, stretch := TrimBlank(lines[1..n]), lines[..n];
    assert stretch[1..1 + |body|] == lines[1..n][..|body|];
    forall i | 1 <= i < n
      ensures !IsKey(stretch[i], indent) && (i >= 1 + |body| ==> Blank(stretch[i]))
    {
      assert stretch[i] == lines[1..][i - 1] == lines[1..n][i - 1];
    }
  }

  // ----------------------------------------------------------- putting sections together

  /** Sections side by side carve to both lists of sections. */
  lemma {:induction false} SectionsConcat(a: seq<Line>, b: seq<Line>, indent: nat)
    requires a != [] ==> IsKey(a[0], indent)
    requires b != [] ==> IsKey(b[0], indent)
    ensures a + b != [] ==> IsKey((a + b)[0], indent)
    ensures Sections(a + b, indent) == Sections(a, indent) + Sections(b, indent)
    decreases |a|
  {
    hide SectionKey, TrimBlank, Sections;
    if a == [] {
      assert a + b == b;
      SectionsOfNothing(indent);
      assert [] + Sections(b, indent) == Sections(b, indent);
    } else {
      var n := 1 + FirstKey(a[1..], indent);
      var head, body, tail := a[0], a[1..n], a[n..];
      assert a == [head] + body + tail && a + b == [head] + body + (tail + b);
      SectionsConcat(tail, b, indent);
      SectionStep(a, indent, head, body, tail);
      SectionStep(a + b, indent, head, body, tail + b);
      Assoc([Section(SectionKey(head[indent..]), TrimBlank(body))], Sections(tail, indent), Sections(b, indent));
    }
  }

  /** One key line and lines that hold no key are one section. */
  lemma OneSection(key: Line, body: seq<Line>, indent: nat)
    requires IsKey(key, indent) && NoKeys(body, indent)
    ensures Sections([key] + body, indent) == [Section(SectionKey(key[indent..]), TrimBlank(body))]
  {
    hide SectionKey, TrimBlank, Sections;
    assert [key] + body == [key] + body + [];
    SectionStep([key] + body, indent, key, body, []);
    SectionsOfNothing(indent);
  }

  /** What stands before a key line carves as it would alone. */
  lemma CarveBefore(a: seq<Line>, b: seq<Line>, indent: nat)
    requires b != [] && IsKey(b[0], indent)
    ensures CarveOf(a + b, indent) == Carved(CarveOf(a, indent).prefix, CarveOf(a, indent).sections + Sections(b, indent))
  {
    hide IsKey, SectionKey, TrimBlank, Sections;
    var n, s := FirstKey(a, indent), a + b;
    assert s[..n] == a[..n];
    FirstKeyIs(s, indent, n);
    assert s[n..] == a[n..] + b;
    SectionsConcat(a[n..], b, indent);
  }

  /** A trailing blank line is no part of a section. */
  lemma {:induction false} SectionsBlank(lines: seq<Line>, indent: nat)
    requires lines != [] && IsKey(lines[0], indent)
    ensures Sections(lines + [""], indent) == Sections(lines, indent)
    decreases |lines|
  {
    hide IsKey, SectionKey, TrimBlank, Sections;
    var n := 1 + FirstKey(lines[1..], indent);
    var head, body, tail := lines[0], lines[1..n], lines[n..];
    assert lines == [head] + body + tail;
    SectionStep(lines, indent, head, body, tail);
    EmptyIsNoKey(indent);
    if tail != [] {
      assert lines + [""] == [head] + body + (tail + [""]);
      SectionStep(lines + [""], indent, head, body, tail + [""]);
      SectionsBlank(tail, indent);
    } else {
      assert lines + [""] == [head] + (body + [""]) + [];
      SectionStep(lines + [""], indent, head, body + [""], []);
      TrimOneBlank(body);
    }
  }

  lemma EmptyIsNoKey(indent: nat)
    ensures !IsKey("", indent)
  {
  }

  lemma TrimOneBlank(lines: seq<Line>)
    ensures TrimBlank(lines + [""]) == TrimBlank(lines)
  {
    assert (lines + [""])[..|lines|] == lines;
  }
}
