/** Loading spec fragments, and assembling the bundle from their section bodies. */
module SpecBundle {
  import opened Common
  import opened SpecCarve

  /** The component kinds, in the order the bundle emits them. */
  const KIND_ORDER: seq<string> := [
    "securitySchemes", "parameters", "responses", "schemas",
    "requestBodies", "headers", "examples", "links", "callbacks"]

  /** A decoded YAML document: mappings, and whatever else a value may be. */
  datatype Node = Mapping(entries: map<string, Node>) | Other(value: int)

  type Doc = map<string, Node>

  datatype Fragment = Fragment(doc: Doc, paths: Option<seq<Line>>, kinds: map<string, seq<Line>>)

  datatype LoadError =
    | BadKey
    | ContentBeforeKey
    | EmptyPaths
    | ContentBeforeKind
    | UnknownKind
    | EmptyKind
    | UnexpectedKey
    | PathsNotCarved
    | KindNotCarved

  // --------------------------------------------------------------------------- loading

  predicate AllBlank(lines: seq<Line>) { forall i :: 0 <= i < |lines| ==> Blank(lines[i]) }

  /** The kinds of one components section, added to those already carved. */
  function TakeKinds(kinds: map<string, seq<Line>>, sections: seq<Section>): Result<map<string, seq<Line>>, LoadError>
    decreases |sections|
  {
    if sections == [] then Ok(kinds)
    else if sections[0].key !in KIND_ORDER then Err(UnknownKind)
    else if sections[0].body == [] then Err(EmptyKind)
    else TakeKinds(kinds[sections[0].key := sections[0].body], sections[1..])
  }

  function TakeSection(f: Fragment, s: Section): Result<Fragment, LoadError> {
    if s.key == "paths" then
      if s.body == [] then Err(EmptyPaths) else Ok(f.(paths := Some(s.body)))
    else if s.key == "components" then
      var carved := CarveOf(s.body, 2);
      if !AllBlank(carved.prefix) then Err(ContentBeforeKind)
      else
        var kinds := TakeKinds(f.kinds, carved.sections);
        if kinds.Err? then Err(kinds.error) else Ok(f.(kinds := kinds.value))
    else Err(UnexpectedKey)
  }

  function TakeSections(f: Fragment, sections: seq<Section>): Result<Fragment, LoadError>
    decreases |sections|
  {
    if sections == [] then Ok(f)
    else
      var next := TakeSection(f, sections[0]);
      if next.Err? then next else TakeSections(next.value, sections[1..])
  }

  /** The carve against the document: every section the document has must have been carved. */
  function CrossCheck(f: Fragment): Result<Fragment, LoadError> {
    if "paths" in f.doc && f.paths.None? then Err(PathsNotCarved)
    else if "components" in f.doc && f.doc["components"].Mapping?
         && exists k :: k in f.doc["components"].entries && k !in f.kinds then Err(KindNotCarved)
    else Ok(f)
  }

  /** What loading makes of a fragment's body lines and its decoded document. */
  function LoadOf(lines: seq<Line>, doc: Doc): Result<Fragment, LoadError> {
    if exists k :: k in doc && k != "paths" && k != "components" then Err(BadKey)
    else
      var carved := CarveOf(lines, 0);
      if !AllBlank(carved.prefix) then Err(ContentBeforeKey)
      else
        var f := TakeSections(Fragment(doc, None, map[]), carved.sections);
        if f.Err? then f else CrossCheck(f.value)
  }

  method FirstContent(lines: seq<Line>) returns (found: bool)
    ensures found <==> !AllBlank(lines)
  {
    for i := 0 to |lines|
      invariant forall k :: 0 <= k < i ==> Blank(lines[k])
    {
      if !Blank(lines[i]) {
        return true;
      }
    }
    return false;
  }

  method LoadKinds(kinds: map<string, seq<Line>>, sections: seq<Section>) returns (r: Result<map<string, seq<Line>>, LoadError>)
    ensures r == TakeKinds(kinds, sections)
  {
    var out := kinds;
    for i := 0 to |sections|
      invariant TakeKinds(kinds, sections) == TakeKinds(out, sections[i..])
    {
      var kind := sections[i];
      assert sections[i..][0] == kind && sections[i..][1..] == sections[i + 1..];
      if kind.key !in KIND_ORDER {
        return Err(UnknownKind);
      }
      if kind.body == [] {
        return Err(EmptyKind);
      }
      out := out[kind.key := kind.body];
    }
    return Ok(out);
  }

  method LoadFragment(lines: seq<Line>, doc: Doc) returns (r: Result<Fragment, LoadError>)
    ensures r == LoadOf(lines, doc)
  {
    hide CarveOf, TakeKinds;
    if exists k :: k in doc && k != "paths" && k != "components" {
      return Err(BadKey);
    }
    var f := Fragment(doc, None, map[]);
    var pre, secs := Carve(lines, 0);
    var content := FirstContent(pre);
    if content {
      return Err(ContentBeforeKey);
    }
    for i := 0 to |secs|
      invariant f.doc == doc
      invariant TakeSections(Fragment(doc, None, map[]), secs) == TakeSections(f, secs[i..])
    {
      var sec := secs[i];
      assert secs[i..][0] == sec && secs[i..][1..] == secs[i + 1..];
      if sec.key == "paths" {
        if sec.body == [] {
          return Err(EmptyPaths);
        }
        f := f.(paths := Some(sec.body));
      } else if sec.key == "components" {
        var kpre, kinds := Carve(sec.body, 2);
        content := FirstContent(kpre);
        if content {
          return Err(ContentBeforeKind);
        }
        var taken := LoadKinds(f.kinds, kinds);
        if taken.Err? {
          return Err(taken.error);
        }
        f := f.(kinds := taken.value);
      } else {
        return Err(UnexpectedKey);
      }
    }
    if "paths" in doc && f.paths.None? {
      return Err(PathsNotCarved);
    }
    if "components" in doc && doc["components"].Mapping?
       && exists k :: k in doc["components"].entries && k !in f.kinds {
      return Err(KindNotCarved);
    }
    return Ok(f);
  }

  // ---------------------------------------------------------- what is loaded, and when

  /** The body of the last section under a key. */
  function LastBody(sections: seq<Section>, key: string): Option<seq<Line>> {
    if sections == [] then None
    else
      var n := |sections| - 1;
      if sections[n].key == key then Some(sections[n].body) else LastBody(sections[..n], key)
  }

  lemma {:induction false} LastBodyConcat(a: seq<Section>, b: seq<Section>, key: string)
    ensures LastBody(a + b, key) == if LastBody(b, key).Some? then LastBody(b, key) else LastBody(a, key)
    decreases |b|
  {
    if b == [] {
      assert a + b == a;
    } else {
      var n := |b| - 1;
      assert (a + b)[..|a + b| - 1] == a + b[..n] && (a + b)[|a + b| - 1] == b[n];
      LastBodyConcat(a, b[..n], key);
    }
  }

  lemma LastBodyFirst(s: Section, rest: seq<Section>, key: string)
    ensures LastBody([s] + rest, key)
      == if LastBody(rest, key).Some? then LastBody(rest, key) else if s.key == key then Some(s.body) else None
  {
    LastBodyConcat([s], rest, key);
    assert [s][..0] == [];
  }

  function KindsIn(s: Section): seq<Section> { if s.key == "components" then CarveOf(s.body, 2).sections else [] }

  /** The kind sections of every components section, one after another. */
  function KindsWithin(sections: seq<Section>): seq<Section> {
    if sections == [] then [] else KindsIn(sections[0]) + KindsWithin(sections[1..])
  }

  /** A kinds map holds the last body of each kind, or what was held before. */
  ghost predicate HoldsLast(kinds: map<string, seq<Line>>, was: map<string, seq<Line>>, sections: seq<Section>) {
    forall k ::
      && (k in kinds <==> LastBody(sections, k).Some? || k in was)
      && (k in kinds ==> kinds[k] == if LastBody(sections, k).Some? then LastBody(sections, k).value else was[k])
  }

  ghost predicate KindSectionFits(s: Section) { s.key in KIND_ORDER && s.body != [] }

  lemma {:induction false} TakeKindsIs(kinds: map<string, seq<Line>>, sections: seq<Section>)
    ensures TakeKinds(kinds, sections).Ok? <==> forall i :: 0 <= i < |sections| ==> KindSectionFits(sections[i])
    ensures TakeKinds(kinds, sections).Ok? ==> HoldsLast(TakeKinds(kinds, sections).value, kinds, sections)
    decreases |sections|
  {
    hide LastBody;
    if sections == [] {
      NoLastBody();
    } else {
      var s, rest := sections[0], sections[1..];
      assert sections == [s] + rest;
      TakeKindsIs(kinds[s.key := s.body], rest);
      forall k
        ensures LastBody(sections, k)
          == if LastBody(rest, k).Some? then LastBody(rest, k) else if s.key == k then Some(s.body) else None
      {
        LastBodyFirst(s, rest, k);
      }
    }
  }

  lemma NoLastBody()
    ensures forall k :: LastBody([], k) == None
  {
  }

  ghost predicate SectionFits(s: Section) {
    (s.key == "paths" && s.body != []) || (s.key == "components" && AllBlank(CarveOf(s.body, 2).prefix))
  }

  ghost predicate KindsFit(sections: seq<Section>) { forall i :: 0 <= i < |sections| ==> KindSectionFits(sections[i]) }

  lemma TakeSectionIs(f: Fragment, s: Section)
    ensures TakeSection(f, s).Ok? <==> SectionFits(s) && KindsFit(KindsIn(s))
    ensures TakeSection(f, s).Ok? ==>
      var next := TakeSection(f, s).value;
      && next.doc == f.doc && HoldsLast(next.kinds, f.kinds, KindsIn(s))
      && next.paths == if s.key == "paths" then Some(s.body) else f.paths
  {
    hide CarveOf, TakeKinds, KindSectionFits, AllBlank, HoldsLast;
    HoldsNothingNew(f.kinds);
    TakeKindsIs(f.kinds, KindsIn(s));
  }

  lemma {:induction false} TakeSectionsIs(f: Fragment, sections: seq<Section>)
    ensures
      var r, kinds := TakeSections(f, sections), KindsWithin(sections);
      && (r.Ok? <==> (forall i :: 0 <= i < |sections| ==> SectionFits(sections[i])) && KindsFit(kinds))
      && (r.Ok? ==>
            && r.value.doc == f.doc && HoldsLast(r.value.kinds, f.kinds, kinds)
            && r.value.paths == if LastBody(sections, "paths").Some? then LastBody(sections, "paths") else f.paths)
    decreases |sections|
  {
    hide LastBody, TakeSection, SectionFits, KindsFit, KindsIn, HoldsLast;
    if sections == [] {
      NoLastBody();
      HoldsNothingNew(f.kinds);
      assert KindsFit([]) by { NothingFits(); }
    } else {
      var s, rest := sections[0], sections[1..];
      var own, more := KindsIn(s), KindsWithin(rest);
      assert sections == [s] + rest;
      LastBodyFirst(s, rest, "paths");
      TakeSectionIs(f, s);
      FitTogether(own + more, own, more);
      FirstFits(sections);
      if TakeSection(f, s).Ok? {
        var next := TakeSection(f, s).value;
        TakeSectionsIs(next, rest);
        if TakeSections(next, rest).Ok? {
          HeldTogether(TakeSections(next, rest).value.kinds, next.kinds, f.kinds, own, more);
        }
      }
    }
  }

  lemma NothingFits()
    ensures KindsFit([])
  {
  }

  lemma HoldsNothingNew(kinds: map<string, seq<Line>>)
    ensures HoldsLast(kinds, kinds, [])
  {
  }

  lemma FirstFits(sections: seq<Section>)
    requires sections != []
    ensures (forall i :: 0 <= i < |sections| ==> SectionFits(sections[i])) <==>
      SectionFits(sections[0]) && forall i :: 0 <= i < |sections[1..]| ==> SectionFits(sections[1..][i])
  {
    hide SectionFits;
    assert forall i :: 0 < i < |sections| ==> sections[i] == sections[1..][i - 1];
  }

  lemma FitTogether(all: seq<Section>, a: seq<Section>, b: seq<Section>)
    requires all == a + b
    ensures KindsFit(all) <==> KindsFit(a) && KindsFit(b)
  {
    hide KindSectionFits;
    assert forall i :: 0 <= i < |a| ==> all[i] == a[i];
    assert forall i :: 0 <= i < |b| ==> all[|a| + i] == b[i];
  }

  lemma HeldTogether(kinds: map<string, seq<Line>>, mid: map<string, seq<Line>>, was: map<string, seq<Line>>, a: seq<Section>, b: seq<Section>)
    requires HoldsLast(mid, was, a) && HoldsLast(kinds, mid, b)
    ensures HoldsLast(kinds, was, a + b)
  {
    hide LastBody;
    forall k
      ensures LastBody(a + b, k) == if LastBody(b, k).Some? then LastBody(b, k) else LastBody(a, k)
    {
      LastBodyConcat(a, b, k);
    }
  }

  /** What has to hold of a fragment's carved lines and its document for it to load. */
  ghost predicate Loads(lines: seq<Line>, doc: Doc) {
    var carved := CarveOf(lines, 0);
    var kinds := KindsWithin(carved.sections);
    && (forall k :: k in doc ==> k == "paths" || k == "components")
    && AllBlank(carved.prefix)
    && (forall i :: 0 <= i < |carved.sections| ==> SectionFits(carved.sections[i]))
    && KindsFit(kinds)
    && ("paths" in doc ==> LastBody(carved.sections, "paths").Some?)
    && ("components" in doc && doc["components"].Mapping? ==>
          forall k :: k in doc["components"].entries ==> LastBody(kinds, k).Some?)
  }

  /**
   Loading succeeds exactly where every section is one the bundle knows, with
   something in it, and the document has nothing that was not carved; and it
   keeps, whole, the last paths body and the last body of each kind.
   */
  lemma LoadIs(lines: seq<Line>, doc: Doc)
    ensures LoadOf(lines, doc).Ok? <==> Loads(lines, doc)
    ensures LoadOf(lines, doc).Ok? ==>
      var f, sections := LoadOf(lines, doc).value, CarveOf(lines, 0).sections;
      && f.doc == doc && f.paths == LastBody(sections, "paths")
      && (forall k :: k in f.kinds <==> LastBody(KindsWithin(sections), k).Some?)
      && (forall k :: k in f.kinds ==> LastBody(KindsWithin(sections), k) == Some(f.kinds[k]))
  {
    hide LastBody, CarveOf, TakeSections, KindsWithin, SectionFits, KindsFit, AllBlank;
    TakeSectionsIs(Fragment(doc, None, map[]), CarveOf(lines, 0).sections);
  }

  // ------------------------------------------------------ what a loaded fragment is good for

  /** Lines as a split at line breaks leaves them. */
  ghost predicate Whole(lines: seq<Line>) { forall i :: 0 <= i < |lines| ==> '\n' !in lines[i] }

  /** A body that ends in content and holds no key at any of the indents it stands under. */
  ghost predicate Body(lines: seq<Line>, indents: set<nat>) {
    lines != [] && Whole(lines) && !Blank(lines[|lines| - 1]) && forall n :: n in indents ==> NoKeys(lines, n)
  }

  ghost predicate Loaded(f: Fragment) {
    && (f.paths.Some? ==> Body(f.paths.value, {0}))
    && forall k :: k in f.kinds ==> k in KIND_ORDER && Body(f.kinds[k], {0, 2})
  }

  lemma {:induction false} SectionBodies(lines: seq<Line>, indent: nat, others: set<nat>)
    requires lines != [] ==> IsKey(lines[0], indent)
    requires Whole(lines) && forall n :: n in others ==> NoKeys(lines, n)
    ensures forall k :: 0 <= k < |Sections(lines, indent)| ==>
      var body := Sections(lines, indent)[k].body;
      body != [] ==> Body(body, {indent} + others)
    decreases |lines|
  {
    hide SectionKey, IsKey;
    if lines != [] {
      var n := 1 + FirstKey(lines[1..], indent);
      SectionBodies(lines[n..], indent, others);
      var body := TrimBlank(lines[1..n]);
      forall i | 0 <= i < |body|
        ensures '\n' !in body[i] && !IsKey(body[i], indent) && forall m :: m in others ==> !IsKey(body[i], m)
      {
        assert body[i] == lines[1..][i] == lines[1 + i];
      }
    }
  }

  lemma {:induction false} TakeKindsSound(kinds: map<string, seq<Line>>, sections: seq<Section>)
    requires forall k :: k in kinds ==> k in KIND_ORDER && Body(kinds[k], {0, 2})
    requires forall i :: 0 <= i < |sections| ==> sections[i].body != [] ==> Body(sections[i].body, {0, 2})
    requires TakeKinds(kinds, sections).Ok?
    ensures forall k :: k in TakeKinds(kinds, sections).value ==> k in KIND_ORDER && Body(TakeKinds(kinds, sections).value[k], {0, 2})
    decreases |sections|
  {
    hide Body;
    if sections != [] {
      TakeKindsSound(kinds[sections[0].key := sections[0].body], sections[1..]);
    }
  }

  lemma TakeSectionSound(f: Fragment, s: Section)
    requires Loaded(f) && (s.body != [] ==> Body(s.body, {0})) && TakeSection(f, s).Ok?
    ensures Loaded(TakeSection(f, s).value)
  {
    if s.key == "components" {
      var n := FirstKey(s.body, 2);
      assert NoKeys(s.body[n..], 0);
      SectionBodies(s.body[n..], 2, {0});
      assert {2} + {0} == {0, 2};
      TakeKindsSound(f.kinds, CarveOf(s.body, 2).sections);
    }
  }

  lemma {:induction false} TakeSectionsSound(f: Fragment, sections: seq<Section>)
    requires Loaded(f) && TakeSections(f, sections).Ok?
    requires forall i :: 0 <= i < |sections| ==> sections[i].body != [] ==> Body(sections[i].body, {0})
    ensures Loaded(TakeSections(f, sections).value)
    decreases |sections|
  {
    hide TakeSection, Loaded, Body;
    if sections != [] {
      TakeSectionSound(f, sections[0]);
      TakeSectionsSound(TakeSection(f, sections[0]).value, sections[1..]);
    }
  }

  lemma {:induction false} TakeSectionsDoc(f: Fragment, sections: seq<Section>)
    requires TakeSections(f, sections).Ok?
    ensures TakeSections(f, sections).value.doc == f.doc
    decreases |sections|
  {
    hide CarveOf, TakeKinds;
    if sections != [] {
      TakeSectionsDoc(TakeSection(f, sections[0]).value, sections[1..]);
    }
  }

  /** Every fragment that loads has bodies the bundle can hold, and one for whatever its document has. */
  lemma LoadedFragments(lines: seq<Line>, doc: Doc)
    requires Whole(lines) && LoadOf(lines, doc).Ok?
    ensures
      var f := LoadOf(lines, doc).value;
      && Loaded(f) && CrossCheck(f).Ok? && f.doc == doc
      && (forall k :: k in doc ==> k == "paths" || k == "components")
      && ("paths" in doc ==> f.paths.Some?)
      && ("components" in doc && doc["components"].Mapping? ==> forall k :: k in doc["components"].entries ==> k in f.kinds)
  {
    hide TakeSections, Loaded, Body;
    var n := FirstKey(lines, 0);
    SectionBodies(lines[n..], 0, {});
    assert {0} + {} == {0};
    NothingLoaded(doc);
    TakeSectionsSound(Fragment(doc, None, map[]), CarveOf(lines, 0).sections);
    TakeSectionsDoc(Fragment(doc, None, map[]), CarveOf(lines, 0).sections);
  }

  lemma NothingLoaded(doc: Doc)
    ensures Loaded(Fragment(doc, None, map[]))
  {
  }
}
