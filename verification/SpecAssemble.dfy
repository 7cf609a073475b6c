/** Printing the bundle, and carving it again. */
module SpecAssemble {
  import opened Common
  import opened SpecCarve
  import opened SpecBundle

  // The two lines are put together from parts short enough for the verifier to look through.
  const GENERATED: Line := "#" + " Code generated by" + " specbundle from" + " api/spec/*.yaml;" + " DO NOT EDIT."
  const EDIT: Line := "#" + " Edit the fragment" + " files in api/spec/" + " and run `make" + " generate`."
  const BANNER: seq<Line> := [GENERATED, EDIT]

  // ------------------------------------------------------------------ the bundle's lines

  /** Bodies one after another, one blank line between. */
  function Join(bodies: seq<seq<Line>>): seq<Line> {
    if bodies == [] then []
    else if |bodies| == 1 then bodies[0]
    else bodies[0] + [""] + Join(bodies[1..])
  }

  function PathBodies(frags: seq<Fragment>): seq<seq<Line>> {
    if frags == [] then []
    else
      var n := |frags| - 1;
      PathBodies(frags[..n]) + if frags[n].paths.Some? then [frags[n].paths.value] else []
  }

  function KindBodies(frags: seq<Fragment>, kind: string): seq<seq<Line>> {
    if frags == [] then []
    else
      var n := |frags| - 1;
      KindBodies(frags[..n], kind) + if kind in frags[n].kinds then [frags[n].kinds[kind]] else []
  }

  /** Bodies are in fragment order: the first fragment's, then the rest's. */
  lemma {:induction false} PathsInOrder(f: Fragment, rest: seq<Fragment>)
    ensures PathBodies([f] + rest) == (if f.paths.Some? then [f.paths.value] else []) + PathBodies(rest)
    decreases |rest|
  {
    var all := [f] + rest;
    if rest == [] {
      assert all[..0] == [] && all == [f];
    } else {
      var n := |rest| - 1;
      assert all[..|all| - 1] == [f] + rest[..n] && all[|all| - 1] == rest[n];
      PathsInOrder(f, rest[..n]);
    }
  }

  lemma {:induction false} KindInOrder(f: Fragment, rest: seq<Fragment>, kind: string)
    ensures KindBodies([f] + rest, kind) == (if kind in f.kinds then [f.kinds[kind]] else []) + KindBodies(rest, kind)
    decreases |rest|
  {
    var all := [f] + rest;
    if rest == [] {
      assert all[..0] == [] && all == [f];
    } else {
      var n := |rest| - 1;
      assert all[..|all| - 1] == [f] + rest[..n] && all[|all| - 1] == rest[n];
      KindInOrder(f, rest[..n], kind);
    }
  }

  function KindLine(kind: string): Line { Pad(2) + kind + ":" }

  /** The kinds that any fragment has, in order, each with its bodies. */
  function KindLines(frags: seq<Fragment>, kinds: seq<string>): seq<Line> {
    if kinds == [] then []
    else
      var bodies := KindBodies(frags, kinds[0]);
      (if bodies == [] then [] else [KindLine(kinds[0])] + Join(bodies)) + KindLines(frags, kinds[1..])
  }

  function PathLines(frags: seq<Fragment>): seq<Line> {
    if PathBodies(frags) == [] then [] else [""] + ["paths:"] + Join(PathBodies(frags))
  }

  function ComponentLines(frags: seq<Fragment>): seq<Line> {
    var lines := KindLines(frags, KIND_ORDER);
    if lines == [] then [] else [""] + ["components:"] + lines
  }

  function BundleLines(root: seq<Line>, frags: seq<Fragment>): seq<Line> {
    BANNER + root + PathLines(frags) + ComponentLines(frags)
  }

  function Unlines(lines: seq<Line>): string {
    if lines == [] then "" else lines[0] + "\n" + Unlines(lines[1..])
  }

  // --------------------------------------------------------------------- the writer

  lemma {:induction false} UnlinesConcat(a: seq<Line>, b: seq<Line>)
    ensures Unlines(a + b) == Unlines(a) + Unlines(b)
  {
    if a == [] {
      assert a + b == b;
    } else {
      assert (a + b)[0] == a[0] && (a + b)[1..] == a[1..] + b;
      UnlinesConcat(a[1..], b);
      Assoc(a[0] + "\n", Unlines(a[1..]), Unlines(b));
    }
  }

  method WriteLines(b: string, lines: seq<Line>) returns (out: string)
    ensures out == b + Unlines(lines)
  {
    out := b;
    for i := 0 to |lines|
      invariant out == b + Unlines(lines[..i])
    {
      assert lines[..i + 1] == lines[..i] + [lines[i]];
      UnlinesConcat(lines[..i], [lines[i]]);
      assert Unlines([lines[i]]) == lines[i] + "\n";
      Assoc(b, Unlines(lines[..i]), lines[i] + "\n");
      Assoc(out, lines[i], "\n");
      out := out + lines[i] + "\n";
    }
    assert lines[..|lines|] == lines;
  }

  lemma {:induction false} JoinSnoc(bodies: seq<seq<Line>>, body: seq<Line>)
    ensures Join(bodies + [body]) == if bodies == [] then body else Join(bodies) + [""] + body
  {
    if bodies == [] {
      assert bodies + [body] == [body];
    } else {
      var all := bodies + [body];
      assert all[0] == bodies[0] && all[1..] == bodies[1..] + [body];
      JoinSnoc(bodies[1..], body);
      if |bodies| > 1 {
        assert bodies[0] + [""] + (Join(bodies[1..]) + [""] + body) == bodies[0] + [""] + Join(bodies[1..]) + [""] + body;
      }
    }
  }

  method WriteBodies(b: string, bodies: seq<seq<Line>>) returns (out: string)
    ensures out == b + Unlines(Join(bodies))
  {
    hide Unlines, Join;
    out := b;
    JoinNone();
    assert b + "" == b;
    for i := 0 to |bodies|
      invariant out == b + Unlines(Join(bodies[..i]))
    {
      assert bodies[..i + 1] == bodies[..i] + [bodies[i]];
      JoinSnoc(bodies[..i], bodies[i]);
      ghost var before := Join(bodies[..i]);
      if i > 0 {
        out := out + "\n";
        UnlinesOne("");
        UnlinesConcat(before, [""]);
        Assoc(b, Unlines(before), "\n");
        before := before + [""];
      } else {
        assert bodies[..i] == [];
        assert before + bodies[i] == bodies[i];
      }
      assert out == b + Unlines(before);
      UnlinesConcat(before, bodies[i]);
      Assoc(b, Unlines(before), Unlines(bodies[i]));
      out := WriteLines(out, bodies[i]);
    }
    assert bodies[..|bodies|] == bodies;
  }

  lemma JoinNone()
    ensures Join([]) == [] && Unlines([]) == ""
  {
  }

  lemma UnlinesOne(l: Line)
    ensures Unlines([l]) == l + "\n"
  {
  }

  /** `kindBodies` holds the bodies of each kind, and no kind without any. */
  ghost predicate Gathered(kindBodies: map<string, seq<seq<Line>>>, frags: seq<Fragment>, kinds: seq<string>) {
    && (forall k :: k in kindBodies ==> k in kinds && kindBodies[k] != [])
    && forall k :: k in kinds ==> KindBodies(frags, k) == if k in kindBodies then kindBodies[k] else []
  }

  ghost predicate Distinct(kinds: seq<string>) { forall i, j :: 0 <= i < j < |kinds| ==> kinds[i] != kinds[j] }

  /** One fragment's kinds added, each body behind those already held for its kind. */
  method GatherFrom(kindBodies: map<string, seq<seq<Line>>>, f: Fragment, kinds: seq<string>)
    returns (out: map<string, seq<seq<Line>>>)
    requires Distinct(kinds)
    requires forall k :: k in kindBodies ==> k in kinds && kindBodies[k] != []
    ensures forall k :: k in out ==> k in kinds && out[k] != []
    ensures forall k :: k in kinds ==>
      (if k in out then out[k] else []) ==
        (if k in kindBodies then kindBodies[k] else []) + (if k in f.kinds then [f.kinds[k]] else [])
  {
    out := kindBodies;
    for j := 0 to |kinds|
      invariant forall k :: k in out ==> k in kinds && out[k] != []
      invariant forall i :: 0 <= i < j ==>
        (if kinds[i] in out then out[kinds[i]] else []) ==
          (if kinds[i] in kindBodies then kindBodies[kinds[i]] else []) + (if kinds[i] in f.kinds then [f.kinds[kinds[i]]] else [])
      invariant forall i :: j <= i < |kinds| ==>
        (kinds[i] in out <==> kinds[i] in kindBodies) && (kinds[i] in out ==> out[kinds[i]] == kindBodies[kinds[i]])
    {
      var kind := kinds[j];
      if kind in f.kinds {
        var held := if kind in out then out[kind] else [];
        out := out[kind := held + [f.kinds[kind]]];
      }
    }
  }

  method GatherKinds(frags: seq<Fragment>, kinds: seq<string>) returns (kindBodies: map<string, seq<seq<Line>>>)
    requires Distinct(kinds)
    ensures Gathered(kindBodies, frags, kinds)
  {
    kindBodies := map[];
    for i := 0 to |frags|
      invariant Gathered(kindBodies, frags[..i], kinds)
    {
      assert frags[..i + 1][..i] == frags[..i];
      kindBodies := GatherFrom(kindBodies, frags[i], kinds);
    }
    assert frags[..|frags|] == frags;
  }

  lemma KindsDistinct()
    ensures Distinct(KIND_ORDER)
  {
    assert forall i :: 0 <= i < |KIND_ORDER| ==> |KIND_ORDER[i]| == [15, 10, 9, 7, 13, 7, 8, 5, 9][i];
    assert KIND_ORDER[2][0] == 'r' && KIND_ORDER[8][0] == 'c' && KIND_ORDER[3][0] == 's' && KIND_ORDER[5][0] == 'h';
  }

  method WriteKinds(b: string, ghost frags: seq<Fragment>, kindBodies: map<string, seq<seq<Line>>>, kinds: seq<string>)
    returns (out: string)
    requires Gathered(kindBodies, frags, kinds)
    ensures out == b + Unlines(KindLines(frags, kinds))
  {
    hide Unlines, Join;
    out := b;
    ghost var whole := b + Unlines(KindLines(frags, kinds));
    for i := 0 to |kinds|
      invariant whole == out + Unlines(KindLines(frags, kinds[i..]))
    {
      var kind := kinds[i];
      assert kinds[i..][0] == kind && kinds[i..][1..] == kinds[i + 1..];
      ghost var rest := KindLines(frags, kinds[i + 1..]);
      if kind in kindBodies {
        ghost var was := out;
        out := out + ("  " + kind + ":\n");
        out := WriteBodies(out, kindBodies[kind]);
        KindText(was, kind, Join(kindBodies[kind]), rest);
      } else {
        assert [] + rest == rest;
      }
    }
    JoinNone();
    assert kinds[|kinds|..] == [];
    assert out + "" == out;
  }

  lemma KindText(b: string, kind: string, body: seq<Line>, rest: seq<Line>)
    ensures b + Unlines([KindLine(kind)] + body + rest) == b + ("  " + kind + ":\n") + Unlines(body) + Unlines(rest)
  {
    hide Unlines;
    UnlinesConcat([KindLine(kind)] + body, rest);
    UnlinesConcat([KindLine(kind)], body);
    UnlinesOne(KindLine(kind));
    assert KindLine(kind) + "\n" == "  " + kind + ":\n";
    Assoc(b, "  " + kind + ":\n", Unlines(body));
    Assoc(b, "  " + kind + ":\n" + Unlines(body), Unlines(rest));
  }

  method GatherPaths(frags: seq<Fragment>) returns (bodies: seq<seq<Line>>)
    ensures bodies == PathBodies(frags)
  {
    bodies := [];
    for i := 0 to |frags|
      invariant bodies == PathBodies(frags[..i])
    {
      assert frags[..i + 1][..i] == frags[..i];
      if frags[i].paths.Some? {
        bodies := bodies + [frags[i].paths.value];
      }
    }
    assert frags[..|frags|] == frags;
  }

  method WritePaths(b: string, frags: seq<Fragment>) returns (out: string)
    ensures out == b + Unlines(PathLines(frags))
  {
    hide Unlines, Join, PathBodies;
    out := b;
    var bodies := GatherPaths(frags);
    if bodies != [] {
      HeadedText(b, "paths:", Join(bodies));
      out := out + "\npaths:\n";
      out := WriteBodies(out, bodies);
    } else {
      JoinNone();
    }
  }

  method WriteGathered(b: string, ghost frags: seq<Fragment>, kindBodies: map<string, seq<seq<Line>>>, kinds: seq<string>)
    returns (out: string)
    requires Gathered(kindBodies, frags, kinds)
    ensures out == b + Unlines(if kindBodies == map[] then [] else [""] + ["components:"] + KindLines(frags, kinds))
  {
    hide Unlines, KindLines, Gathered;
    out := b;
    if kindBodies != map[] {
      HeadedText(b, "components:", KindLines(frags, kinds));
      out := out + "\ncomponents:\n";
      out := WriteKinds(out, frags, kindBodies, kinds);
    } else {
      JoinNone();
    }
  }

  method WriteComponents(b: string, frags: seq<Fragment>) returns (out: string)
    ensures out == b + Unlines(ComponentLines(frags))
  {
    hide Unlines, KindLines, Gathered, Distinct, ComponentLines;
    KindsDistinct();
    var kindBodies := GatherKinds(frags, KIND_ORDER);
    ComponentLinesAre(frags, kindBodies);
    out := WriteGathered(b, frags, kindBodies, KIND_ORDER);
  }

  /** The bundle text: banner, root, then the sections in order. */
  method Assemble(root: seq<Line>, frags: seq<Fragment>) returns (text: string)
    ensures text == Unlines(BundleLines(root, frags))
  {
    hide Unlines, PathLines, ComponentLines;
    text := WriteLines("", BANNER);
    text := WriteLines(text, root);
    UnlinesConcat(BANNER, root);
    text := WritePaths(text, frags);
    UnlinesConcat(BANNER + root, PathLines(frags));
    text := WriteComponents(text, frags);
    UnlinesConcat(BANNER + root + PathLines(frags), ComponentLines(frags));
  }

  lemma HeadedText(text: string, head: Line, body: seq<Line>)
    ensures text + Unlines([""] + [head] + body) == text + ("\n" + head + "\n") + Unlines(body)
  {
    hide Unlines;
    UnlinesConcat([""] + [head], body);
    UnlinesConcat([""], [head]);
    UnlinesOne("");
    UnlinesOne(head);
    Assoc("\n", head, "\n");
    Assoc(text, "\n" + head + "\n", Unlines(body));
  }

  lemma ComponentLinesAre(frags: seq<Fragment>, kindBodies: map<string, seq<seq<Line>>>)
    requires Gathered(kindBodies, frags, KIND_ORDER)
    ensures ComponentLines(frags) == if kindBodies == map[] then [] else [""] + ["components:"] + KindLines(frags, KIND_ORDER)
  {
    hide KindLines, KindBodies;
    KindLinesEmpty(frags, kindBodies, KIND_ORDER);
    if kindBodies != map[] {
      var k :| k in kindBodies;
    }
  }

  lemma {:induction false} KindLinesEmpty(frags: seq<Fragment>, kindBodies: map<string, seq<seq<Line>>>, kinds: seq<string>)
    requires forall k :: k in kinds ==> KindBodies(frags, k) == if k in kindBodies then kindBodies[k] else []
    requires forall k :: k in kindBodies ==> kindBodies[k] != []
    ensures KindLines(frags, kinds) == [] <==> forall k :: k in kinds ==> k !in kindBodies
  {
    hide Join, KindBodies;
    if kinds != [] {
      KindLinesEmpty(frags, kindBodies, kinds[1..]);
      assert forall k :: k in kinds <==> k == kinds[0] || k in kinds[1..];
    }
  }

  // --------------------------------------------------------------- carving it again

  lemma {:induction false} JoinNoKeys(bodies: seq<seq<Line>>, indents: set<nat>, n: nat)
    requires bodies != [] && n in indents && forall i :: 0 <= i < |bodies| ==> Body(bodies[i], indents)
    ensures NoKeys(Join(bodies), n) && Join(bodies) != [] && !Blank(Join(bodies)[|Join(bodies)| - 1])
  {
    hide IsKey, Blank;
    EmptyIsNoKey(n);
    if |bodies| > 1 {
      JoinNoKeys(bodies[1..], indents, n);
    }
  }

  lemma {:induction false} PathBodiesSound(frags: seq<Fragment>)
    requires forall i :: 0 <= i < |frags| ==> Loaded(frags[i])
    ensures forall i :: 0 <= i < |PathBodies(frags)| ==> Body(PathBodies(frags)[i], {0})
  {
    hide Body;
    if frags != [] {
      PathBodiesSound(frags[..|frags| - 1]);
    }
  }

  lemma {:induction false} KindBodiesSound(frags: seq<Fragment>, kind: string)
    requires forall i :: 0 <= i < |frags| ==> Loaded(frags[i])
    ensures forall i :: 0 <= i < |KindBodies(frags, kind)| ==> Body(KindBodies(frags, kind)[i], {0, 2})
  {
    hide Body;
    if frags != [] {
      KindBodiesSound(frags[..|frags| - 1], kind);
    }
  }

  /** The sections a components body ought to carve to: a kind with bodies, in the kinds' order. */
  function KindSections(frags: seq<Fragment>, kinds: seq<string>): seq<Section> {
    if kinds == [] then []
    else
      var bodies := KindBodies(frags, kinds[0]);
      (if bodies == [] then [] else [Section(kinds[0], Join(bodies))]) + KindSections(frags, kinds[1..])
  }

  /** The components body carves to its kinds, holds no key at the top, and ends in content. */
  lemma {:induction false} KindLinesCarve(frags: seq<Fragment>, kinds: seq<string>)
    requires forall i :: 0 <= i < |frags| ==> Loaded(frags[i])
    requires forall i :: 0 <= i < |kinds| ==> PlainKey(kinds[i])
    ensures
      var lines := KindLines(frags, kinds);
      && (lines != [] ==> IsKey(lines[0], 2) && !Blank(lines[|lines| - 1]))
      && NoKeys(lines, 0)
      && Sections(lines, 2) == KindSections(frags, kinds)
  {
    hide IsKey, Blank, Body, Sections, Join, SectionKey, TrimBlank, KindBodies, PlainKey;
    SectionsOfNothing(2);
    if kinds != [] {
      var kind, bodies, rest := kinds[0], KindBodies(frags, kinds[0]), KindLines(frags, kinds[1..]);
      KindLinesCarve(frags, kinds[1..]);
      KindBodiesSound(frags, kind);
      if bodies != [] {
        KindCarves(kind, bodies);
        var here := [KindLine(kind)] + Join(bodies);
        SectionsConcat(here, rest, 2);
        NoKeysConcat(here, rest, 0);
      } else {
        assert [] + rest == rest;
        assert [] + KindSections(frags, kinds[1..]) == KindSections(frags, kinds[1..]);
      }
    }
  }

  lemma NoKeysConcat(a: seq<Line>, b: seq<Line>, n: nat)
    requires NoKeys(a, n) && NoKeys(b, n)
    ensures NoKeys(a + b, n)
  {
  }

  lemma {:induction false} KindCarves(kind: string, bodies: seq<seq<Line>>)
    requires PlainKey(kind) && bodies != [] && forall i :: 0 <= i < |bodies| ==> Body(bodies[i], {0, 2})
    ensures
      var lines := [KindLine(kind)] + Join(bodies);
      && IsKey(lines[0], 2) && NoKeys(lines, 0) && !Blank(lines[|lines| - 1])
      && Sections(lines, 2) == [Section(kind, Join(bodies))]
  {
    hide IsKey, Blank, Body, Sections, Join, SectionKey, TrimBlank, PlainKey;
    KeyLine(kind, 2);
    SectionKeyReadsBack(kind);
    JoinNoKeys(bodies, {0, 2}, 0);
    JoinNoKeys(bodies, {0, 2}, 2);
    OneSection(KindLine(kind), Join(bodies), 2);
    TrimBlankKeeps(Join(bodies));
  }

  /** Sections behind others. The first of all leaves the blank line above it to the prefix. */
  function Extended(c: Carved, sections: seq<Section>): Carved {
    Carved(c.prefix + (if c.sections == [] && sections != [] then [""] else []), c.sections + sections)
  }

  lemma ExtendedTwice(c: Carved, a: seq<Section>, b: seq<Section>)
    ensures Extended(Extended(c, a), b) == Extended(c, a + b)
  {
    Assoc(c.sections, a, b);
  }

  lemma {:induction false} KeyedSection(key: string, body: seq<Line>)
    requires PlainKey(key) && NoKeys(body, 0) && body != [] && !Blank(body[|body| - 1])
    ensures IsKey(key + ":", 0) && Sections([key + ":"] + body, 0) == [Section(key, body)]
  {
    hide IsKey, Blank, SectionKey, TrimBlank, PlainKey, Sections;
    var line := key + ":";
    KeyLine(key, 0);
    assert Pad(0) + key + ":" == line && line[0..] == line;
    SectionKeyReadsBack(key);
    OneSection(line, body, 0);
    TrimBlankKeeps(body);
  }

  /** A blank line, a key and its body, behind any lines. */
  lemma AppendSection(a: seq<Line>, key: string, body: seq<Line>)
    requires PlainKey(key) && NoKeys(body, 0) && body != [] && !Blank(body[|body| - 1])
    ensures CarveOf(a + ([""] + [key + ":"] + body), 0) == Extended(CarveOf(a, 0), [Section(key, body)])
  {
    hide IsKey, Blank, NoKeys, PlainKey, CarveOf, Sections;
    KeyedSection(key, body);
    CarveBlank(a);
    assert a + ([""] + [key + ":"] + body) == (a + [""]) + ([key + ":"] + body);
    CarveBefore(a + [""], [key + ":"] + body, 0);
  }

  /** A blank line at the end is lost, unless there is no section it could end. */
  lemma CarveBlank(a: seq<Line>)
    ensures CarveOf(a + [""], 0)
      == Carved(CarveOf(a, 0).prefix + (if CarveOf(a, 0).sections == [] then [""] else []), CarveOf(a, 0).sections)
  {
    hide IsKey, SectionKey, TrimBlank, Sections;
    SectionsOfNothing(0);
    var n := FirstKey(a, 0);
    SomeKey(a, 0);
    if n < |a| {
      FirstKeyIs(a + [""], 0, n);
      assert (a + [""])[..n] == a[..n] && (a + [""])[n..] == a[n..] + [""];
      SectionsBlank(a[n..], 0);
    } else {
      EmptyIsNoKey(0);
      FirstKeyIs(a + [""], 0, n + 1);
      assert (a + [""])[..n + 1] == a[..n] + [""] && (a + [""])[n + 1..] == [] && a[n..] == [];
    }
  }

  lemma SomeKey(a: seq<Line>, indent: nat)
    ensures FirstKey(a, indent) < |a| <==> CarveOf(a, indent).sections != []
  {
    assert a[|a|..] == [];
  }

  lemma CarveBehindBanner(root: seq<Line>)
    ensures CarveOf(BANNER + root, 0) == Carved(BANNER + CarveOf(root, 0).prefix, CarveOf(root, 0).sections)
  {
    hide Sections;
    var n, s := FirstKey(root, 0), BANNER + root;
    BannerHoldsNoKey();
    assert forall i :: 0 <= i < 2 + n ==> s[i] == if i < 2 then BANNER[i] else root[i - 2];
    FirstKeyIs(s, 0, 2 + n);
    CarveShifted(root, BANNER, n, s);
  }

  lemma BannerHoldsNoKey()
    ensures |BANNER| == 2 && NoKeys(BANNER, 0)
  {
    assert BANNER[0][0] == '#' && BANNER[1][0] == '#' && Pad(0) == "";
  }

  lemma CarveShifted(a: seq<Line>, before: seq<Line>, n: nat, s: seq<Line>)
    requires n <= |a| && s == before + a
    ensures s[..|before| + n] == before + a[..n] && s[|before| + n..] == a[n..]
  {
  }

  lemma PlainKinds()
    ensures forall i :: 0 <= i < |KIND_ORDER| ==> PlainKey(KIND_ORDER[i])
  {
  }

  /** The bundle's own sections, after the root's: paths where there are any, components where there are any. */
  function PathSections(frags: seq<Fragment>): seq<Section> {
    if PathBodies(frags) == [] then [] else [Section("paths", Join(PathBodies(frags)))]
  }

  function ComponentSections(frags: seq<Fragment>): seq<Section> {
    if KindLines(frags, KIND_ORDER) == [] then [] else [Section("components", KindLines(frags, KIND_ORDER))]
  }

  lemma CarvePaths(a: seq<Line>, frags: seq<Fragment>)
    requires forall i :: 0 <= i < |frags| ==> Loaded(frags[i])
    ensures CarveOf(a + PathLines(frags), 0) == Extended(CarveOf(a, 0), PathSections(frags))
  {
    hide IsKey, Blank, CarveOf, PathBodies, Join, Loaded;
    if PathBodies(frags) == [] {
      assert a + [] == a && CarveOf(a, 0).sections + [] == CarveOf(a, 0).sections && CarveOf(a, 0).prefix + [] == CarveOf(a, 0).prefix;
    } else {
      PathBodiesSound(frags);
      JoinNoKeys(PathBodies(frags), {0}, 0);
      assert "paths" + ":" == "paths:";
      AppendSection(a, "paths", Join(PathBodies(frags)));
    }
  }

  lemma CarveComponents(a: seq<Line>, frags: seq<Fragment>)
    requires forall i :: 0 <= i < |frags| ==> Loaded(frags[i])
    ensures CarveOf(a + ComponentLines(frags), 0) == Extended(CarveOf(a, 0), ComponentSections(frags))
  {
    hide IsKey, Blank, CarveOf, KindLines, KindSections, Sections, Loaded;
    var lines := KindLines(frags, KIND_ORDER);
    if lines == [] {
      assert a + [] == a && CarveOf(a, 0).sections + [] == CarveOf(a, 0).sections && CarveOf(a, 0).prefix + [] == CarveOf(a, 0).prefix;
    } else {
      PlainKinds();
      KindLinesCarve(frags, KIND_ORDER);
      assert "components" + ":" == "components:";
      AppendSection(a, "components", lines);
    }
  }

  /**
   Printing and carving: the bundle carves to the root's sections, then every
   fragment's paths, then the components, whose body carves in turn to the
   kinds in order, each the fragments' own bodies with one blank line between.
   */
  lemma BundleCarvesBack(root: seq<Line>, frags: seq<Fragment>)
    requires forall i :: 0 <= i < |frags| ==> Loaded(frags[i])
    ensures CarveOf(BundleLines(root, frags), 0) == Extended(
      Carved(BANNER + CarveOf(root, 0).prefix, CarveOf(root, 0).sections),
      PathSections(frags) + ComponentSections(frags))
    ensures CarveOf(KindLines(frags, KIND_ORDER), 2) == Carved([], KindSections(frags, KIND_ORDER))
  {
    hide IsKey, CarveOf, PathLines, ComponentLines, PathSections, ComponentSections, KindLines, KindSections, Loaded, Extended;
    CarveBehindBanner(root);
    CarvePaths(BANNER + root, frags);
    CarveComponents(BANNER + root + PathLines(frags), frags);
    ExtendedTwice(CarveOf(BANNER + root, 0), PathSections(frags), ComponentSections(frags));
    PlainKinds();
    KindLinesCarve(frags, KIND_ORDER);
    CarveFromKey(KindLines(frags, KIND_ORDER), 2);
  }

  lemma CarveFromKey(lines: seq<Line>, indent: nat)
    requires lines != [] ==> IsKey(lines[0], indent)
    ensures CarveOf(lines, indent) == Carved([], Sections(lines, indent))
  {
    hide IsKey, Sections;
    FirstKeyIs(lines, indent, 0);
    assert lines[..0] == [] && lines[0..] == lines;
  }

  // ----------------------------------------------------------------- and loading it

  /** Among the kinds' sections the body of a kind is its own joined bodies. */
  lemma {:induction false} KindSectionsLast(frags: seq<Fragment>, kinds: seq<string>, kind: string)
    requires Distinct(kinds)
    ensures LastBody(KindSections(frags, kinds), kind)
      == if kind in kinds && KindBodies(frags, kind) != [] then Some(Join(KindBodies(frags, kind))) else None
  {
    hide LastBody, KindBodies, Join;
    if kinds == [] {
      NoLastBody();
    } else {
      var bodies, rest := KindBodies(frags, kinds[0]), KindSections(frags, kinds[1..]);
      KindSectionsLast(frags, kinds[1..], kind);
      assert kind in kinds <==> kind == kinds[0] || kind in kinds[1..];
      assert kinds[0] !in kinds[1..];
      if bodies != [] {
        LastBodyFirst(Section(kinds[0], Join(bodies)), rest, kind);
      } else {
        assert [] + rest == rest;
      }
    }
  }

  lemma {:induction false} KindSectionsFit(frags: seq<Fragment>, kinds: seq<string>)
    requires (forall i :: 0 <= i < |frags| ==> Loaded(frags[i])) && forall i :: 0 <= i < |kinds| ==> kinds[i] in KIND_ORDER
    ensures KindsFit(KindSections(frags, kinds))
    ensures KindSections(frags, kinds) == [] <==> KindLines(frags, kinds) == []
  {
    hide Join, KindBodies, Body, Loaded;
    if kinds != [] {
      KindSectionsFit(frags, kinds[1..]);
      KindBodiesSound(frags, kinds[0]);
      if KindBodies(frags, kinds[0]) != [] {
        JoinNoKeys(KindBodies(frags, kinds[0]), {0, 2}, 0);
      }
    }
  }

  lemma {:induction false} OneOrTwo(paths: seq<Section>, components: seq<Section>)
    requires |paths| <= 1 && forall i :: 0 <= i < |paths| ==> paths[i].key == "paths" && SectionFits(paths[i])
    requires |components| <= 1 && forall i :: 0 <= i < |components| ==> components[i].key == "components" && SectionFits(components[i])
    ensures forall i :: 0 <= i < |paths + components| ==> SectionFits((paths + components)[i])
    ensures LastBody(paths + components, "paths") == if paths == [] then None else Some(paths[0].body)
    ensures KindsWithin(paths + components) == if components == [] then [] else CarveOf(components[0].body, 2).sections
  {
    hide CarveOf, SectionFits, LastBody;
    LastBodyConcat(paths, components, "paths");
    LastBodyOne(paths, "paths");
    LastBodyOne(components, "paths");
    assert paths != [] ==> (paths + components)[1..] == components;
    assert paths == [] ==> paths + components == components;
    assert components != [] ==> components[1..] == [] && KindsWithin(components) == CarveOf(components[0].body, 2).sections + [];
    assert [] + KindsWithin(components) == KindsWithin(components);
  }

  lemma LastBodyOne(sections: seq<Section>, key: string)
    requires |sections| <= 1
    ensures LastBody(sections, key) == if sections != [] && sections[0].key == key then Some(sections[0].body) else None
  {
  }

  lemma OwnPathsFit(frags: seq<Fragment>)
    requires forall i :: 0 <= i < |frags| ==> Loaded(frags[i])
    ensures PathSections(frags) != [] ==> SectionFits(PathSections(frags)[0])
  {
    hide PathBodies, Join, Loaded, Body;
    PathBodiesSound(frags);
    if PathBodies(frags) != [] {
      JoinNoKeys(PathBodies(frags), {0}, 0);
    }
  }

  lemma OwnComponentsFit(frags: seq<Fragment>)
    requires forall i :: 0 <= i < |frags| ==> Loaded(frags[i])
    ensures ComponentSections(frags) != [] ==> SectionFits(ComponentSections(frags)[0])
    ensures CarveOf(KindLines(frags, KIND_ORDER), 2) == Carved([], KindSections(frags, KIND_ORDER))
  {
    hide CarveOf, KindLines, KindSections, Sections, Loaded;
    PlainKinds();
    KindLinesCarve(frags, KIND_ORDER);
    CarveFromKey(KindLines(frags, KIND_ORDER), 2);
  }

  /** The lines of the bundle's own sections, with nothing in front. */
  lemma OwnLinesCarve(frags: seq<Fragment>)
    requires forall i :: 0 <= i < |frags| ==> Loaded(frags[i])
    ensures
      var carved := CarveOf(PathLines(frags) + ComponentLines(frags), 0);
      && AllBlank(carved.prefix) && carved.sections == PathSections(frags) + ComponentSections(frags)
  {
    hide CarveOf, PathLines, ComponentLines, PathSections, ComponentSections, Loaded;
    CarveNothing();
    CarvePaths([], frags);
    CarveComponents(PathLines(frags), frags);
    assert [] + PathLines(frags) == PathLines(frags);
    ExtendedTwice(CarveOf([], 0), PathSections(frags), ComponentSections(frags));
  }

  lemma CarveNothing()
    ensures CarveOf([], 0) == Carved([], [])
  {
  }

  /** The joined bodies of every kind that any fragment has. */
  function JoinedKinds(frags: seq<Fragment>): map<string, seq<Line>> {
    map k | k in KIND_ORDER && KindBodies(frags, k) != [] :: Join(KindBodies(frags, k))
  }

  lemma JoinedKindsAre(frags: seq<Fragment>)
    ensures forall k :: k in JoinedKinds(frags) <==> LastBody(KindSections(frags, KIND_ORDER), k).Some?
    ensures forall k :: k in JoinedKinds(frags) ==> LastBody(KindSections(frags, KIND_ORDER), k) == Some(JoinedKinds(frags)[k])
  {
    hide LastBody, KindSections, KindBodies, Join;
    KindsDistinct();
    forall k
      ensures LastBody(KindSections(frags, KIND_ORDER), k)
        == if k in KIND_ORDER && KindBodies(frags, k) != [] then Some(Join(KindBodies(frags, k))) else None
    {
      KindSectionsLast(frags, KIND_ORDER, k);
    }
  }

  lemma KindsAreLast(f: map<string, seq<Line>>, g: map<string, seq<Line>>, sections: seq<Section>)
    requires forall k :: k in f <==> LastBody(sections, k).Some?
    requires forall k :: k in f ==> LastBody(sections, k) == Some(f[k])
    requires forall k :: k in g <==> LastBody(sections, k).Some?
    requires forall k :: k in g ==> LastBody(sections, k) == Some(g[k])
    ensures f == g
  {
    hide LastBody;
  }

  /** The bundle's own sections are sections a fragment may have. */
  lemma OwnLinesFit(frags: seq<Fragment>)
    requires forall i :: 0 <= i < |frags| ==> Loaded(frags[i])
    ensures
      var sections, kinds := PathSections(frags) + ComponentSections(frags), KindSections(frags, KIND_ORDER);
      && (forall i :: 0 <= i < |sections| ==> SectionFits(sections[i]))
      && KindsFit(kinds)
      && LastBody(sections, "paths") == (if PathBodies(frags) == [] then None else Some(Join(PathBodies(frags))))
      && KindsWithin(sections) == kinds
  {
    hide CarveOf, KindLines, KindSections, LastBody, SectionFits, KindsFit, Join, PathBodies, Loaded;
    OwnPathsFit(frags);
    OwnComponentsFit(frags);
    OrderKnown();
    KindSectionsFit(frags, KIND_ORDER);
    OneOrTwo(PathSections(frags), ComponentSections(frags));
  }

  /**
   Printing and loading: what the assembler prints of some loaded fragments
   loads as one fragment that has their bodies, joined, and nothing else,
   with any document that asks for no more.
   */
  lemma BundleLoadsBack(frags: seq<Fragment>, doc: Doc)
    requires forall i :: 0 <= i < |frags| ==> Loaded(frags[i])
    requires forall k :: k in doc ==> k == "paths" || k == "components"
    requires "paths" in doc ==> PathBodies(frags) != []
    requires "components" in doc && doc["components"].Mapping? ==>
      forall k :: k in doc["components"].entries ==> k in JoinedKinds(frags)
    ensures LoadOf(PathLines(frags) + ComponentLines(frags), doc)
      == Ok(Fragment(doc, if PathBodies(frags) == [] then None else Some(Join(PathBodies(frags))), JoinedKinds(frags)))
  {
    hide CarveOf, LoadOf, PathLines, ComponentLines, PathSections, ComponentSections, KindSections, KindsWithin, LastBody,
      SectionFits, KindsFit, Join, JoinedKinds, PathBodies, Loaded, AllBlank;
    var lines := PathLines(frags) + ComponentLines(frags);
    OwnLinesCarve(frags);
    OwnLinesFit(frags);
    JoinedKindsAre(frags);
    LoadIs(lines, doc);
    KindsAreLast(LoadOf(lines, doc).value.kinds, JoinedKinds(frags), KindSections(frags, KIND_ORDER));
  }

  lemma OrderKnown()
    ensures forall i :: 0 <= i < |KIND_ORDER| ==> KIND_ORDER[i] in KIND_ORDER
  {
  }

  /** One fragment printed and loaded again is the fragment it was. */
  lemma FragmentLoadsBack(f: Fragment)
    requires Loaded(f) && CrossCheck(f).Ok? && forall k :: k in f.doc ==> k == "paths" || k == "components"
    ensures LoadOf(PathLines([f]) + ComponentLines([f]), f.doc) == Ok(f)
  {
    hide LoadOf, PathLines, ComponentLines, Body, KindBodies, PathBodies, JoinedKinds;
    OneFragment(f);
    OneFragmentKinds(f);
    BundleLoadsBack([f], f.doc);
  }

  lemma OneFragmentKinds(f: Fragment)
    requires Loaded(f)
    ensures JoinedKinds([f]) == f.kinds
  {
    hide KindBodies, Body;
    OneFragment(f);
  }

  lemma OneFragment(f: Fragment)
    ensures PathBodies([f]) == if f.paths.Some? then [f.paths.value] else []
    ensures forall k :: KindBodies([f], k) == if k in f.kinds then [f.kinds[k]] else []
  {
    assert [f][..0] == [];
    assert forall k :: KindBodies([f][..0], k) == [];
  }

  // ----------------------------------------------------------------- the bundle's text

  /** The lines of a text: what stands between one line break and the next. */
  function Lines(text: string): (r: seq<Line>)
    ensures r != []
  {
    if text == "" then [""]
    else
      var rest := Lines(text[1..]);
      if text[0] == '\n' then [""] + rest else [[text[0]] + rest[0]] + rest[1..]
  }

  /** Loading splits its text into whole lines. */
  lemma {:induction false} LinesAreWhole(text: string)
    ensures Whole(Lines(text))
  {
    if text != "" {
      LinesAreWhole(text[1..]);
    }
  }

  lemma {:induction false} LinesOfLine(l: Line, rest: string)
    requires '\n' !in l
    ensures Lines(l + "\n" + rest) == [l] + Lines(rest)
  {
    var text := l + "\n" + rest;
    if l == "" {
      assert text[1..] == rest;
    } else {
      LinesOfLine(l[1..], rest);
      assert text[1..] == l[1..] + "\n" + rest;
      assert [l[0]] + l[1..] == l;
    }
  }

  /** Writing lines and splitting the text gives the lines, and an empty one behind the last break. */
  lemma {:induction false} LinesOfUnlines(lines: seq<Line>)
    requires Whole(lines)
    ensures Lines(Unlines(lines)) == lines + [""]
  {
    if lines == [] {
      assert Lines("") == [""] && [] + [""] == [""];
    } else {
      LinesOfUnlines(lines[1..]);
      LinesOfLine(lines[0], Unlines(lines[1..]));
      assert [lines[0]] + (lines[1..] + [""]) == lines + [""];
    }
  }

  lemma {:induction false} JoinWhole(bodies: seq<seq<Line>>)
    requires forall i :: 0 <= i < |bodies| ==> Whole(bodies[i])
    ensures Whole(Join(bodies))
  {
    if |bodies| > 1 {
      JoinWhole(bodies[1..]);
    }
  }

  lemma {:induction false} KindLinesWhole(frags: seq<Fragment>, kinds: seq<string>)
    requires forall i :: 0 <= i < |frags| ==> Loaded(frags[i])
    requires forall i :: 0 <= i < |kinds| ==> '\n' !in kinds[i]
    ensures Whole(KindLines(frags, kinds))
  {
    hide Join, KindBodies, Loaded;
    if kinds != [] {
      KindBodiesSound(frags, kinds[0]);
      JoinWhole(KindBodies(frags, kinds[0]));
      KindLinesWhole(frags, kinds[1..]);
    }
  }

  lemma GeneratedWhole()
    ensures '\n' !in GENERATED
  {
    assert '\n' !in "#" + " Code generated by" && '\n' !in " specbundle from" && '\n' !in " api/spec/*.yaml;";
  }

  lemma EditWhole()
    ensures '\n' !in EDIT
  {
    assert '\n' !in "#" + " Edit the fragment" && '\n' !in " files in api/spec/" && '\n' !in " and run `make";
  }

  lemma KindsWhole()
    ensures forall i :: 0 <= i < |KIND_ORDER| ==> '\n' !in KIND_ORDER[i]
  {
  }

  lemma BundleWhole(root: seq<Line>, frags: seq<Fragment>)
    requires Whole(root) && forall i :: 0 <= i < |frags| ==> Loaded(frags[i])
    ensures Whole(BundleLines(root, frags))
  {
    hide Join, KindLines, PathBodies, Loaded;
    GeneratedWhole();
    EditWhole();
    KindsWhole();
    PathBodiesSound(frags);
    JoinWhole(PathBodies(frags));
    KindLinesWhole(frags, KIND_ORDER);
  }

  /** The same of the text: what the assembler writes, split into lines and carved. */
  lemma BundleTextCarvesBack(root: seq<Line>, frags: seq<Fragment>)
    requires Whole(root) && forall i :: 0 <= i < |frags| ==> Loaded(frags[i])
    ensures Lines(Unlines(BundleLines(root, frags))) == BundleLines(root, frags) + [""]
    ensures CarveOf(Lines(Unlines(BundleLines(root, frags))), 0).sections
      == CarveOf(root, 0).sections + (PathSections(frags) + ComponentSections(frags))
  {
    hide CarveOf, BundleLines, Unlines, PathSections, ComponentSections, Loaded;
    BundleCarvesBack(root, frags);
    BundleWhole(root, frags);
    LinesOfUnlines(BundleLines(root, frags));
    CarveBlank(BundleLines(root, frags));
  }
}
