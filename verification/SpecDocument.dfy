/**
 What the bundle means: given how YAML reads block mappings, the assembled
 text is a text of the merged document.
 */
module SpecDocument {
  import opened Common
  import opened SpecCarve
  import opened SpecBundle
  import opened SpecAssemble
  import opened SpecMerge

  /**
   YAML, as two readings: of the lines of a file that holds one document, and
   of lines that are a block mapping, not empty, whose keys stand at a column
   and which end in nothing that a blank line behind them would alter.
   */
  datatype Yaml = Yaml(doc: seq<Line> -> Option<Doc>, block: (seq<Line>, nat) -> Option<Table>)

  const HEADS := ["paths", "components"]

  predicate Comments(lines: seq<Line>) { forall i :: 0 <= i < |lines| ==> lines[i] != "" && lines[i][0] == '#' }

  /** Comments say nothing; a key and its block mapping behind a document add one entry to it. */
  ghost predicate ReadsFiles(y: Yaml) {
    && (forall a, b :: Comments(a) ==> y.doc(a + b) == y.doc(b))
    && forall a, key, body, n ::
        y.doc(a).Some? && key in HEADS && key !in y.doc(a).value && n > 0 && y.block(body, n).Some? ==>
        y.doc(a + ([""] + [key + ":"] + body)) == Some(y.doc(a).value[key := Mapping(y.block(body, n).value)])
  }

  /** Block mappings at one column, with a blank line between, are one; a kind and a deeper block are one more entry. */
  ghost predicate ReadsBlocks(y: Yaml) {
    && (forall a, b, n :: y.block(a, n).Some? && y.block(b, n).Some? && y.block(a, n).value.Keys !! y.block(b, n).value.Keys ==>
        y.block(a + [""] + b, n) == Some(y.block(a, n).value + y.block(b, n).value))
    && (forall kind, body, n :: kind in KIND_ORDER && n > 2 && y.block(body, n).Some? ==>
        y.block([KindLine(kind)] + body, 2) == Some(map[kind := Mapping(y.block(body, n).value)]))
    && (forall a, kind, body, n ::
        kind in KIND_ORDER && n > 2 && y.block(body, n).Some? && y.block(a, 2).Some? && kind !in y.block(a, 2).value ==>
        y.block(a + ([KindLine(kind)] + body), 2) == Some(y.block(a, 2).value[kind := Mapping(y.block(body, n).value)]))
    && forall a, n :: y.block(a, n).Some? ==> y.block(a, n).value != map[]
  }

  /** Where the keys of a body stand: of every paths body at one column, of every body of a kind at one column. */
  datatype Columns = Columns(paths: nat, kinds: string -> nat)

  /** The document a fragment came with is what its carved bodies say, as block mappings at those columns. */
  ghost predicate Faithful(y: Yaml, f: Fragment, at: Columns) {
    && ("paths" in f.doc <==> f.paths.Some?)
    && (f.paths.Some? ==> y.block(f.paths.value, at.paths) == Some(Paths(f)))
    && Kinds(f).Keys == f.kinds.Keys
    && forall kind :: kind in f.kinds ==> y.block(f.kinds[kind], at.kinds(kind)) == Some(Names(Kinds(f), kind))
  }

  ghost predicate AllFaithful(y: Yaml, frags: seq<Fragment>, at: Columns) {
    at.paths > 0 && (forall kind :: at.kinds(kind) > 2) && forall i :: 0 <= i < |frags| ==> Faithful(y, frags[i], at)
  }

  /** `bodies`, joined, say `t`; nothing says nothing. */
  ghost predicate Say(y: Yaml, bodies: seq<seq<Line>>, n: nat, t: Table) {
    if bodies == [] then t == map[] else y.block(Join(bodies), n) == Some(t)
  }

  lemma SayMore(y: Yaml, bodies: seq<seq<Line>>, n: nat, t: Table, body: seq<Line>, u: Table)
    requires ReadsBlocks(y) && Say(y, bodies, n, t) && y.block(body, n) == Some(u) && t.Keys !! u.Keys
    ensures Say(y, bodies + [body], n, t + u)
  {
    hide Join;
    JoinSnoc(bodies, body);
    if bodies == [] {
      assert map[] + u == u;
    }
  }

  lemma SayEntry(y: Yaml, lines: seq<Line>, e: Table, kind: string, body: seq<Line>, n: nat)
    requires ReadsBlocks(y) && kind in KIND_ORDER && n > 2 && y.block(body, n).Some? && kind !in e
    requires if lines == [] then e == map[] else y.block(lines, 2) == Some(e)
    ensures y.block(lines + ([KindLine(kind)] + body), 2) == Some(e[kind := Mapping(y.block(body, n).value)])
  {
    hide KindLine;
    if lines == [] {
      assert [] + ([KindLine(kind)] + body) == [KindLine(kind)] + body;
    }
  }

  // ------------------------------------------------------------------------------- paths

  function PathTable(frags: seq<Fragment>): Table {
    if frags == [] then map[] else PathTable(frags[..|frags| - 1]) + Paths(frags[|frags| - 1])
  }

  lemma ApartPrefix(frags: seq<Fragment>)
    requires frags != [] && PathsApart(frags)
    ensures PathsApart(frags[..|frags| - 1])
  {
    var before := frags[..|frags| - 1];
    assert forall i :: 0 <= i < |before| ==> before[i] == frags[i];
  }

  lemma ComponentsApartPrefix(frags: seq<Fragment>)
    requires frags != [] && ComponentsApart(frags)
    ensures ComponentsApart(frags[..|frags| - 1])
  {
    hide Defines;
    var before := frags[..|frags| - 1];
    assert forall i :: 0 <= i < |before| ==> before[i] == frags[i];
  }

  lemma {:induction false} PathTableIsUnion(frags: seq<Fragment>)
    requires PathsApart(frags)
    ensures IsUnion(PathTable(frags), frags)
  {
    hide Paths, PathsApart;
    if frags != [] {
      var before, f := frags[..|frags| - 1], frags[|frags| - 1];
      ApartPrefix(frags);
      PathTableIsUnion(before);
      LastApart(frags, PathTable(before));
      UnionAdded(before, f, PathTable(before));
      assert frags == before + [f];
    }
  }

  lemma LastApart(frags: seq<Fragment>, t: Table)
    requires frags != [] && PathsApart(frags) && IsUnion(t, frags[..|frags| - 1])
    ensures t.Keys !! Paths(frags[|frags| - 1]).Keys
  {
    hide Paths;
    var n := |frags| - 1;
    forall k | k in t
      ensures k !in Paths(frags[n])
    {
      var f :| f in frags[..n] && k in Paths(f);
      var i :| 0 <= i < n && frags[..n][i] == f;
      assert k in Paths(frags[i]);
    }
  }

  /** The joined paths bodies say what the fragments' documents say of paths together. */
  lemma {:induction false} PathsMean(y: Yaml, frags: seq<Fragment>, at: Columns)
    requires ReadsBlocks(y) && AllFaithful(y, frags, at) && PathsApart(frags)
    ensures Say(y, PathBodies(frags), at.paths, PathTable(frags))
  {
    hide PathsApart, Paths, ReadsBlocks, Say, Faithful;
    if frags == [] {
      NothingSaid(y, at.paths);
    } else {
      var before, f := frags[..|frags| - 1], frags[|frags| - 1];
      ApartPrefix(frags);
      PathsMean(y, before, at);
      PathTableIsUnion(before);
      LastApart(frags, PathTable(before));
      FaithfulPaths(y, f, at);
      if f.paths.Some? {
        SayMore(y, PathBodies(before), at.paths, PathTable(before), f.paths.value, Paths(f));
      } else {
        assert PathBodies(before) + [] == PathBodies(before) && PathTable(before) + map[] == PathTable(before);
      }
    }
  }

  lemma NothingSaid(y: Yaml, n: nat)
    ensures Say(y, [], n, map[])
  {
  }

  lemma FaithfulPaths(y: Yaml, f: Fragment, at: Columns)
    requires Faithful(y, f, at)
    ensures if f.paths.Some? then y.block(f.paths.value, at.paths) == Some(Paths(f)) else Paths(f) == map[]
  {
  }

  // -------------------------------------------------------------------------- components

  function KindTable(frags: seq<Fragment>, kind: string): Table {
    if frags == [] then map[] else KindTable(frags[..|frags| - 1], kind) + Names(Kinds(frags[|frags| - 1]), kind)
  }

  /** Each name of a kind stands in the table as the one fragment that defines it has it. */
  ghost predicate HoldsNames(t: Table, frags: seq<Fragment>, kind: string) {
    && (forall i, k :: 0 <= i < |frags| && Defines(Kinds(frags[i]), kind, k) ==> k in t && t[k] == Names(Kinds(frags[i]), kind)[k])
    && (forall k :: k in t ==> exists i :: 0 <= i < |frags| && Defines(Kinds(frags[i]), kind, k))
  }

  lemma {:induction false} KindTableHolds(frags: seq<Fragment>, kind: string)
    requires ComponentsApart(frags)
    ensures HoldsNames(KindTable(frags, kind), frags, kind)
    ensures frags != [] ==> KindTable(frags[..|frags| - 1], kind).Keys !! Names(Kinds(frags[|frags| - 1]), kind).Keys
  {
    hide EntriesAt;
    if frags != [] {
      var n := |frags| - 1;
      var before := frags[..n];
      ComponentsApartPrefix(frags);
      KindTableHolds(before, kind);
      var t := KindTable(before, kind);
      forall k | k in t
        ensures k !in Names(Kinds(frags[n]), kind)
      {
        var i :| 0 <= i < n && Defines(Kinds(before[i]), kind, k);
        assert !Defines(Kinds(frags[n]), kind, k);
      }
      HoldsMore(t, frags, kind);
    }
  }

  lemma HoldsMore(t: Table, frags: seq<Fragment>, kind: string)
    requires frags != [] && HoldsNames(t, frags[..|frags| - 1], kind) && t.Keys !! Names(Kinds(frags[|frags| - 1]), kind).Keys
    ensures HoldsNames(t + Names(Kinds(frags[|frags| - 1]), kind), frags, kind)
  {
    hide EntriesAt;
    var n := |frags| - 1;
    var before, all := frags[..n], t + Names(Kinds(frags[n]), kind);
    forall i, k | 0 <= i < |frags| && Defines(Kinds(frags[i]), kind, k)
      ensures k in all && all[k] == Names(Kinds(frags[i]), kind)[k]
    {
      if i < n {
        assert before[i] == frags[i];
      }
    }
    forall k | k in all
      ensures exists i :: 0 <= i < |frags| && Defines(Kinds(frags[i]), kind, k)
    {
      if k in Names(Kinds(frags[n]), kind) {
        assert Defines(Kinds(frags[n]), kind, k);
      } else {
        var i :| 0 <= i < n && Defines(Kinds(before[i]), kind, k);
        assert frags[i] == before[i];
      }
    }
  }

  /** The joined bodies of a kind say what the fragments' documents say of it together. */
  lemma {:induction false} KindMeans(y: Yaml, frags: seq<Fragment>, at: Columns, kind: string)
    requires ReadsBlocks(y) && AllFaithful(y, frags, at) && ComponentsApart(frags)
    ensures Say(y, KindBodies(frags, kind), at.kinds(kind), KindTable(frags, kind))
  {
    hide ComponentsApart, EntriesAt, ReadsBlocks, Say, Faithful, HoldsNames;
    if frags == [] {
      NothingSaid(y, at.kinds(kind));
    } else {
      var before, f := frags[..|frags| - 1], frags[|frags| - 1];
      ComponentsApartPrefix(frags);
      KindMeans(y, before, at, kind);
      KindTableHolds(frags, kind);
      FaithfulKind(y, f, at, kind);
      if kind in f.kinds {
        SayMore(y, KindBodies(before, kind), at.kinds(kind), KindTable(before, kind), f.kinds[kind], Names(Kinds(f), kind));
      } else {
        assert KindBodies(before, kind) + [] == KindBodies(before, kind) && KindTable(before, kind) + map[] == KindTable(before, kind);
      }
    }
  }

  lemma FaithfulKind(y: Yaml, f: Fragment, at: Columns, kind: string)
    requires Faithful(y, f, at)
    ensures if kind in f.kinds then y.block(f.kinds[kind], at.kinds(kind)) == Some(Names(Kinds(f), kind)) else Names(Kinds(f), kind) == map[]
  {
  }

  lemma {:induction false} KindPresent(frags: seq<Fragment>, kind: string)
    ensures KindBodies(frags, kind) != [] <==> exists i :: 0 <= i < |frags| && kind in frags[i].kinds
  {
    if frags != [] {
      var n := |frags| - 1;
      KindPresent(frags[..n], kind);
      assert forall i :: 0 <= i < n ==> frags[..n][i] == frags[i];
      if KindBodies(frags[..n], kind) != [] {
        var i :| 0 <= i < n && kind in frags[..n][i].kinds;
        assert kind in frags[i].kinds;
      }
    }
  }

  /** A table of names for each of some kinds that any fragment has. */
  function KindTables(frags: seq<Fragment>, kinds: seq<string>): map<string, Table> {
    map kind | kind in kinds && KindBodies(frags, kind) != [] :: KindTable(frags, kind)
  }

  lemma {:induction false} KindLinesSnoc(frags: seq<Fragment>, kinds: seq<string>, kind: string)
    ensures KindLines(frags, kinds + [kind]) == KindLines(frags, kinds) +
      if KindBodies(frags, kind) == [] then [] else [KindLine(kind)] + Join(KindBodies(frags, kind))
  {
    hide Join, KindBodies, KindLine;
    var here: seq<Line> := if KindBodies(frags, kind) == [] then [] else [KindLine(kind)] + Join(KindBodies(frags, kind));
    if kinds == [] {
      assert kinds + [kind] == [kind] && [kind][1..] == [];
      assert here + [] == [] + here;
    } else {
      assert (kinds + [kind])[0] == kinds[0] && (kinds + [kind])[1..] == kinds[1..] + [kind];
      KindLinesSnoc(frags, kinds[1..], kind);
      var first: seq<Line> := if KindBodies(frags, kinds[0]) == [] then [] else [KindLine(kinds[0])] + Join(KindBodies(frags, kinds[0]));
      Assoc(first, KindLines(frags, kinds[1..]), here);
    }
  }

  /** The components body says every kind's table. */
  lemma {:induction false} KindsMean(y: Yaml, frags: seq<Fragment>, at: Columns, kinds: seq<string>)
    requires ReadsBlocks(y) && AllFaithful(y, frags, at) && ComponentsApart(frags)
    requires Distinct(kinds) && forall i :: 0 <= i < |kinds| ==> kinds[i] in KIND_ORDER
    ensures KindLines(frags, kinds) == [] <==> KindTables(frags, kinds) == map[]
    ensures KindLines(frags, kinds) != [] ==> y.block(KindLines(frags, kinds), 2) == Some(Wrap(KindTables(frags, kinds)))
  {
    hide Join, KindBodies, KindTable, KindTables, KindLines, ComponentsApart, AllFaithful, KindLine, ReadsBlocks, Wrap;
    if kinds == [] {
      NoTables(frags, kinds);
    } else {
      var n := |kinds| - 1;
      var before, kind := kinds[..n], kinds[n];
      KindsMean(y, frags, at, before);
      KindMeans(y, frags, at, kind);
      KindLinesSnoc(frags, before, kind);
      assert kinds == before + [kind] && kind !in before;
      TablesSnoc(frags, before, kind);
      DeepColumn(y, frags, at, kind);
      var lines := KindLines(frags, before);
      if KindBodies(frags, kind) == [] {
        assert lines + [] == lines;
      } else {
        SayEntry(y, lines, Wrap(KindTables(frags, before)), kind, Join(KindBodies(frags, kind)), at.kinds(kind));
      }
    }
  }

  lemma DeepColumn(y: Yaml, frags: seq<Fragment>, at: Columns, kind: string)
    requires AllFaithful(y, frags, at)
    ensures at.kinds(kind) > 2
  {
  }

  lemma NoTables(frags: seq<Fragment>, kinds: seq<string>)
    requires kinds == []
    ensures KindLines(frags, kinds) == [] && KindTables(frags, kinds) == map[]
  {
  }

  lemma {:induction false} TablesSnoc(frags: seq<Fragment>, before: seq<string>, kind: string)
    requires kind !in before
    ensures
      var was, now := KindTables(frags, before), KindTables(frags, before + [kind]);
      if KindBodies(frags, kind) == [] then now == was
      else
        && kind !in Wrap(was) && now == was[kind := KindTable(frags, kind)] && kind in now
        && Wrap(now) == Wrap(was)[kind := Mapping(KindTable(frags, kind))]
        && (was == map[] ==> Wrap(was) == map[])
  {
    hide KindBodies, KindTable;
    assert forall k :: k in before + [kind] <==> k in before || k == kind;
  }

  /** The kinds' tables are the union the merge makes. */
  lemma TablesAreUnion(y: Yaml, frags: seq<Fragment>, at: Columns)
    requires ReadsBlocks(y) && AllFaithful(y, frags, at) && ComponentsApart(frags)
    requires forall i :: 0 <= i < |frags| ==> Loaded(frags[i])
    ensures IsKindUnion(KindTables(frags, KIND_ORDER), frags)
  {
    hide ReadsBlocks, ComponentsApart, KindBodies, KindTable, HoldsNames, EntriesAt, Body, HasKinds, HasNames;
    var comps := KindTables(frags, KIND_ORDER);
    forall kind
      ensures kind in comps <==> exists i :: 0 <= i < |frags| && kind in frags[i].kinds
      ensures kind in comps ==> HoldsNames(comps[kind], frags, kind)
    {
      KindPresent(frags, kind);
      KindTableHolds(frags, kind);
      if i :| 0 <= i < |frags| && kind in frags[i].kinds {
        assert Loaded(frags[i]) && kind in KIND_ORDER;
      }
    }
    forall i | 0 <= i < |frags|
      ensures Kinds(frags[i]).Keys == frags[i].kinds.Keys
    {
      assert Faithful(y, frags[i], at);
    }
    UnionByIndex(comps, frags);
  }

  lemma UnionByIndex(comps: map<string, Table>, frags: seq<Fragment>)
    requires forall kind :: kind in comps <==> exists i :: 0 <= i < |frags| && kind in frags[i].kinds
    requires forall kind :: kind in comps ==> HoldsNames(comps[kind], frags, kind)
    requires forall i :: 0 <= i < |frags| ==> Kinds(frags[i]).Keys == frags[i].kinds.Keys
    ensures IsKindUnion(comps, frags)
  {
    hide EntriesAt, HoldsNames, HasKinds, HasNames;
    KindsByIndex(comps, frags);
    NamesByIndex(comps, frags);
  }

  lemma KindsByIndex(comps: map<string, Table>, frags: seq<Fragment>)
    requires forall kind :: kind in comps <==> exists i :: 0 <= i < |frags| && kind in frags[i].kinds
    requires forall i :: 0 <= i < |frags| ==> Kinds(frags[i]).Keys == frags[i].kinds.Keys
    ensures HasKinds(comps, frags)
  {
    hide EntriesAt;
    forall f, kind | f in frags && kind in Kinds(f)
      ensures kind in comps
    {
      var i :| 0 <= i < |frags| && frags[i] == f;
      assert kind in frags[i].kinds;
    }
    forall kind | kind in comps
      ensures exists f :: f in frags && kind in Kinds(f)
    {
      var i :| 0 <= i < |frags| && kind in frags[i].kinds;
      assert frags[i] in frags && kind in Kinds(frags[i]);
    }
  }

  lemma NamesByIndex(comps: map<string, Table>, frags: seq<Fragment>)
    requires forall kind :: kind in comps <==> exists i :: 0 <= i < |frags| && kind in frags[i].kinds
    requires forall kind :: kind in comps ==> HoldsNames(comps[kind], frags, kind)
    requires forall i :: 0 <= i < |frags| ==> Kinds(frags[i]).Keys == frags[i].kinds.Keys
    ensures HasNames(comps, frags)
  {
    hide EntriesAt;
    forall f, kind, k {:trigger f in frags, Defines(Kinds(f), kind, k)} | f in frags && Defines(Kinds(f), kind, k)
      ensures kind in comps && k in comps[kind] && comps[kind][k] == Names(Kinds(f), kind)[k]
    {
      var i :| 0 <= i < |frags| && frags[i] == f;
      NamesInKinds(Kinds(f), kind, k);
      assert kind in frags[i].kinds;
      assert HoldsNames(comps[kind], frags, kind) && Defines(Kinds(frags[i]), kind, k);
    }
    forall kind, k | kind in comps && k in comps[kind]
      ensures exists f :: f in frags && Defines(Kinds(f), kind, k)
    {
      assert HoldsNames(comps[kind], frags, kind);
      var i :| 0 <= i < |frags| && Defines(Kinds(frags[i]), kind, k);
      assert frags[i] in frags;
    }
  }

  // -------------------------------------------------------------------- the whole bundle

  lemma BannerComments()
    ensures Comments(BANNER)
  {
    BannerHoldsNoKey();
    assert BANNER[0][0] == '#' && BANNER[1][0] == '#';
  }

  lemma DocEntry(y: Yaml, a: seq<Line>, key: string, body: seq<Line>, n: nat)
    requires ReadsFiles(y) && y.doc(a).Some? && key in HEADS && key !in y.doc(a).value && n > 0 && y.block(body, n).Some?
    ensures y.doc(a + ([""] + [key + ":"] + body)) == Some(y.doc(a).value[key := Mapping(y.block(body, n).value)])
  {
  }

  lemma DocPaths(y: Yaml, a: seq<Line>, frags: seq<Fragment>, at: Columns)
    requires ReadsFiles(y) && ReadsBlocks(y) && AllFaithful(y, frags, at) && PathsApart(frags)
    requires y.doc(a).Some? && "paths" !in y.doc(a).value
    ensures y.doc(a + PathLines(frags)) ==
      Some(if |PathTable(frags)| > 0 then y.doc(a).value["paths" := Mapping(PathTable(frags))] else y.doc(a).value)
  {
    hide Join, PathBodies, PathTable, PathsApart, Faithful, ReadsFiles;
    PathsMean(y, frags, at);
    if PathBodies(frags) == [] {
      assert a + [] == a;
    } else {
      assert HEADS[0] == "paths" && "paths" + ":" == "paths:";
      DocEntry(y, a, "paths", Join(PathBodies(frags)), at.paths);
    }
  }

  lemma DocComponents(y: Yaml, a: seq<Line>, frags: seq<Fragment>, at: Columns)
    requires ReadsFiles(y) && ReadsBlocks(y) && AllFaithful(y, frags, at) && ComponentsApart(frags)
    requires y.doc(a).Some? && "components" !in y.doc(a).value
    ensures y.doc(a + ComponentLines(frags)) ==
      var comps := KindTables(frags, KIND_ORDER);
      Some(if |comps| > 0 then y.doc(a).value["components" := Mapping(Wrap(comps))] else y.doc(a).value)
  {
    hide KindLines, KindTables, ComponentsApart, Faithful, ReadsFiles, ReadsBlocks, Wrap, Distinct;
    KindsDistinct();
    KindsMean(y, frags, at, KIND_ORDER);
    var lines := KindLines(frags, KIND_ORDER);
    if lines == [] {
      assert a + [] == a;
    } else {
      assert HEADS[1] == "components" && "components" + ":" == "components:";
      DocEntry(y, a, "components", lines, 2);
    }
  }

  lemma IdsApartComponents(frags: seq<Fragment>)
    requires IdsApart(frags)
    ensures ComponentsApart(frags)
  {
    hide Id, EntriesAt, Defines;
    forall i, j, kind, name | 0 <= i < j < |frags| && Defines(Kinds(frags[i]), kind, name)
      ensures !Defines(Kinds(frags[j]), kind, name)
    {
      assert Id(kind, name) == Id(kind, name);
    }
  }

  /**
   The self-check holds: where YAML reads block mappings as it should, and each
   fragment's document is what its carved bodies say at common columns, the
   bundle's document is the merge of the root with the fragments.
   */
  lemma BundleMeansMerge(y: Yaml, root: seq<Line>, frags: seq<Fragment>, at: Columns)
    requires ReadsFiles(y) && ReadsBlocks(y) && AllFaithful(y, frags, at) && Mergeable(frags)
    requires forall i :: 0 <= i < |frags| ==> Loaded(frags[i])
    requires y.doc(root).Some? && "paths" !in y.doc(root).value && "components" !in y.doc(root).value
    ensures y.doc(BundleLines(root, frags)).Some?
    ensures IsMerge(y.doc(BundleLines(root, frags)).value, y.doc(root).value, frags)
  {
    hide ReadsBlocks, AllFaithful, PathsApart, IdsApart, ComponentsApart, PathTable, KindTables, PathLines, ComponentLines, IsUnion, IsKindUnion;
    IdsApartComponents(frags);
    BannerComments();
    assert y.doc(BANNER + root) == y.doc(root);
    DocPaths(y, BANNER + root, frags, at);
    DocComponents(y, BANNER + root + PathLines(frags), frags, at);
    PathTableIsUnion(frags);
    TablesAreUnion(y, frags, at);
    assert y.doc(BundleLines(root, frags)) == Some(Under(y.doc(root).value, PathTable(frags), KindTables(frags, KIND_ORDER)));
  }

  /** So what merging gives is what the bundle says. */
  lemma SelfCheckPasses(y: Yaml, root: seq<Line>, frags: seq<Fragment>, at: Columns, merged: Doc)
    requires ReadsFiles(y) && ReadsBlocks(y) && AllFaithful(y, frags, at) && Mergeable(frags)
    requires forall i :: 0 <= i < |frags| ==> Loaded(frags[i])
    requires y.doc(root).Some? && "paths" !in y.doc(root).value && "components" !in y.doc(root).value
    requires IsMerge(merged, y.doc(root).value, frags)
    ensures y.doc(BundleLines(root, frags)) == Some(merged)
  {
    hide ReadsFiles, ReadsBlocks, AllFaithful, Mergeable, IsMerge, BundleLines, Loaded;
    BundleMeansMerge(y, root, frags, at);
    MergeIsUnique(y.doc(BundleLines(root, frags)).value, merged, y.doc(root).value, frags, frags);
  }
}
