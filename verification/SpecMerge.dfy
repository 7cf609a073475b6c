/** Merging the decoded fragments under the root, where a path or component defined twice is refused. */
module SpecMerge {
  import opened Common
  import opened SpecBundle

  /** Fragments go by their position; a clash names the two that clash. */
  datatype MergeError =
    | PathsNotMapping(at: nat)
    | ComponentsNotMapping(at: nat)
    | KindNotMapping(at: nat, kind: string)
    | PathTwice(path: string, before: nat, at: nat)
    | ComponentTwice(id: string, before: nat, at: nat)

  type Table = map<string, Node>

  function EntriesAt(doc: Doc, key: string): Table {
    if key in doc && doc[key].Mapping? then doc[key].entries else map[]
  }

  function Paths(f: Fragment): Table { EntriesAt(f.doc, "paths") }

  function Kinds(f: Fragment): Table { EntriesAt(f.doc, "components") }

  function Names(kinds: Table, kind: string): Table { EntriesAt(kinds, kind) }

  /** The name a component is remembered by. */
  function Id(kind: string, name: string): string { kind + "/" + name }

  ghost predicate Defines(kinds: Table, kind: string, name: string) { name in Names(kinds, kind) }

  ghost predicate AllMappings(kinds: Table) { forall k :: k in kinds ==> kinds[k].Mapping? }

  ghost predicate Shaped(f: Fragment) {
    && ("paths" in f.doc ==> f.doc["paths"].Mapping?)
    && ("components" in f.doc ==> f.doc["components"].Mapping?)
    && AllMappings(Kinds(f))
  }

  // ------------------------------------------------------------- when fragments merge

  ghost predicate PathsApart(frags: seq<Fragment>) {
    forall i, j, k :: 0 <= i < j < |frags| && k in Paths(frags[i]) ==> k !in Paths(frags[j])
  }

  /** No two components share an id, be they of one fragment or of two. */
  ghost predicate IdsApart(frags: seq<Fragment>) {
    forall i, j, kind, name, kind', name' ::
      0 <= i < |frags| && 0 <= j < |frags| && Defines(Kinds(frags[i]), kind, name) && Defines(Kinds(frags[j]), kind', name')
      && Id(kind, name) == Id(kind', name')
      ==> i == j && kind == kind' && name == name'
  }

  ghost predicate Mergeable(frags: seq<Fragment>) {
    (forall i :: 0 <= i < |frags| ==> Shaped(frags[i])) && PathsApart(frags) && IdsApart(frags)
  }

  /** No component, a name under a kind, is defined by two fragments. */
  ghost predicate ComponentsApart(frags: seq<Fragment>) {
    forall i, j, kind, name :: 0 <= i < j < |frags| && Defines(Kinds(frags[i]), kind, name) ==> !Defines(Kinds(frags[j]), kind, name)
  }

  // ---------------------------------------------------------------- what merging gives

  ghost predicate IsUnion(t: Table, frags: seq<Fragment>) {
    && (forall f, k :: f in frags && k in Paths(f) ==> k in t && t[k] == Paths(f)[k])
    && (forall k :: k in t ==> exists f :: f in frags && k in Paths(f))
  }

  ghost predicate HasKinds(comps: map<string, Table>, frags: seq<Fragment>) {
    && (forall f, kind :: f in frags && kind in Kinds(f) ==> kind in comps)
    && (forall kind :: kind in comps ==> exists f :: f in frags && kind in Kinds(f))
  }

  ghost predicate HasNames(comps: map<string, Table>, frags: seq<Fragment>) {
    && (forall f, kind, k {:trigger f in frags, Defines(Kinds(f), kind, k)} :: f in frags && Defines(Kinds(f), kind, k) ==>
        kind in comps && k in comps[kind] && comps[kind][k] == Names(Kinds(f), kind)[k])
    && (forall kind, k :: kind in comps && k in comps[kind] ==> exists f :: f in frags && Defines(Kinds(f), kind, k))
  }

  ghost predicate IsKindUnion(comps: map<string, Table>, frags: seq<Fragment>) { HasKinds(comps, frags) && HasNames(comps, frags) }

  function Wrap(comps: map<string, Table>): Table { map k | k in comps :: Mapping(comps[k]) }

  function Under(root: Doc, paths: Table, comps: map<string, Table>): Doc {
    var merged := if |paths| > 0 then root["paths" := Mapping(paths)] else root;
    if |comps| > 0 then merged["components" := Mapping(Wrap(comps))] else merged
  }

  /** The root with every fragment's paths and components under it. */
  ghost predicate IsMerge(doc: Doc, root: Doc, frags: seq<Fragment>) {
    exists paths, comps :: IsUnion(paths, frags) && IsKindUnion(comps, frags) && doc == Under(root, paths, comps)
  }

  // ------------------------------------------------------------------------- merging

  lemma SlashAt(kind: string, name: string)
    ensures |Id(kind, name)| == |kind| + 1 + |name| && Id(kind, name)[|kind|] == '/'
    ensures Id(kind, name)[..|kind|] == kind && Id(kind, name)[|kind| + 1..] == name
  {
  }

  lemma IdSplits(kind: string, name: string, kind': string, name': string)
    requires Id(kind, name) == Id(kind', name') && (kind == kind' || ('/' !in kind && '/' !in kind'))
    ensures kind == kind' && name == name'
  {
    hide Id;
    SlashAt(kind, name);
    SlashAt(kind', name');
    if kind != kind' {
      NoSlashBefore(kind, name);
      NoSlashBefore(kind', name');
    }
  }

  lemma NoSlashBefore(kind: string, name: string)
    requires '/' !in kind
    ensures forall i :: 0 <= i < |kind| ==> Id(kind, name)[i] != '/'
  {
  }

  function Ids(kind: string, names: set<string>): set<string> { set k | k in names :: Id(kind, k) }

  lemma IdsHold(kind: string, names: set<string>, name: string)
    ensures Id(kind, name) in Ids(kind, names) <==> name in names
    ensures Ids(kind, names + {name}) == Ids(kind, names) + {Id(kind, name)}
    ensures Ids(kind, {}) == {}
  {
    hide Id;
    if Id(kind, name) in Ids(kind, names) {
      var k :| k in names && Id(kind, k) == Id(kind, name);
      IdSplits(kind, k, kind, name);
    }
  }

  method MergePaths(paths: Table, owner: map<string, nat>, pm: Table, at: nat)
    returns (clash: Option<MergeError>, paths': Table, owner': map<string, nat>)
    requires owner.Keys == paths.Keys
    ensures clash.None? <==> paths.Keys !! pm.Keys
    ensures clash.None? ==> paths' == paths + pm && owner'.Keys == paths'.Keys
    ensures clash.None? ==> forall k :: k in owner' ==> owner'[k] == if k in owner then owner[k] else at
    ensures clash.Some? ==> exists k :: k in owner && k in pm && clash.value == PathTwice(k, owner[k], at)
  {
    paths', owner' := paths, owner;
    var rest := pm.Keys;
    while rest != {}
      invariant rest <= pm.Keys && paths.Keys !! (pm.Keys - rest)
      invariant owner'.Keys == paths'.Keys == paths.Keys + (pm.Keys - rest)
      invariant forall k :: k in paths' ==> paths'[k] == if k in paths then paths[k] else pm[k]
      invariant forall k :: k in owner' ==> owner'[k] == if k in owner then owner[k] else at
    {
      var k :| k in rest;
      if k in owner' {
        clash := Some(PathTwice(k, owner'[k], at));
        return;
      }
      owner' := owner'[k := at];
      paths' := paths'[k := pm[k]];
      rest := rest - {k};
    }
    clash := None;
    assert paths' == paths + pm;
  }

  ghost predicate NameClash(e: MergeError, owner: map<string, nat>, kind: string, names: Table, k: string, at: nat) {
    k in names && Id(kind, k) in owner && e == ComponentTwice(Id(kind, k), owner[Id(kind, k)], at)
  }

  method MergeNames(dst: Table, owner: map<string, nat>, kind: string, names: Table, at: nat)
    returns (clash: Option<MergeError>, dst': Table, owner': map<string, nat>)
    ensures clash.None? <==> forall k :: k in names ==> Id(kind, k) !in owner
    ensures clash.None? ==> dst' == dst + names
    ensures clash.None? ==> owner'.Keys == owner.Keys + Ids(kind, names.Keys)
    ensures clash.None? ==> forall id :: id in owner' ==> owner'[id] == if id in owner then owner[id] else at
    ensures clash.Some? ==> exists k :: NameClash(clash.value, owner, kind, names, k, at)
  {
    hide Id, Ids;
    IdsHold(kind, {}, "");
    dst', owner' := dst, owner;
    var rest := names.Keys;
    assert names.Keys - rest == {};
    while rest != {}
      invariant rest <= names.Keys
      invariant forall k :: k in names.Keys - rest ==> Id(kind, k) !in owner
      invariant dst'.Keys == dst.Keys + (names.Keys - rest)
      invariant forall k :: k in dst' ==> dst'[k] == if k in names.Keys - rest then names[k] else dst[k]
      invariant owner'.Keys == owner.Keys + Ids(kind, names.Keys - rest)
      invariant forall id :: id in owner' ==> owner'[id] == if id in owner then owner[id] else at
    {
      var k :| k in rest;
      IdsHold(kind, names.Keys - rest, k);
      var id := Id(kind, k);
      if id in owner' {
        clash := Some(ComponentTwice(id, owner'[id], at));
        assert NameClash(clash.value, owner, kind, names, k, at);
        return;
      }
      owner' := owner'[id := at];
      dst' := dst'[k := names[k]];
      assert names.Keys - (rest - {k}) == (names.Keys - rest) + {k};
      rest := rest - {k};
    }
    clash := None;
    assert names.Keys - rest == names.Keys;
    assert dst' == dst + names;
  }

  ghost predicate FreshIds(taken: set<string>, cm: Table) {
    forall kind, name :: Defines(cm, kind, name) ==> Id(kind, name) !in taken
  }

  ghost predicate OwnIdsApart(cm: Table) {
    forall kind, name, kind', name' :: Defines(cm, kind, name) && Defines(cm, kind', name') && Id(kind, name) == Id(kind', name')
      ==> kind == kind' && name == name'
  }

  /** Everything the merge of one more components mapping does to the tables. */
  ghost predicate Added(comps: map<string, Table>, owner: map<string, nat>, cm: Table, at: nat,
                        comps': map<string, Table>, owner': map<string, nat>)
  {
    && comps'.Keys == comps.Keys + cm.Keys
    && (forall kind :: kind in comps' ==> comps'[kind] == (if kind in comps then comps[kind] else map[]) + Names(cm, kind))
    && (forall id :: id in owner' <==> id in owner || exists kind, name :: Defines(cm, kind, name) && id == Id(kind, name))
    && (forall id :: id in owner' ==> owner'[id] == if id in owner then owner[id] else at)
  }

  /** Two components of one mapping that are remembered alike. */
  ghost predicate TwiceIn(cm: Table, id: string) {
    exists kind, name, kind', name' ::
      Defines(cm, kind, name) && Defines(cm, kind', name') && (kind != kind' || name != name')
      && id == Id(kind, name) && id == Id(kind', name')
  }

  ghost predicate ClashIs(e: MergeError, owner: map<string, nat>, cm: Table, at: nat) {
    || (e.KindNotMapping? && e.at == at && e.kind in cm && !cm[e.kind].Mapping?)
    || (e.ComponentTwice? && e.at == at
        && (exists kind, name :: Defines(cm, kind, name) && e.id == Id(kind, name))
        && if e.id in owner then e.before == owner[e.id] else e.before == at && TwiceIn(cm, e.id))
  }

  function Part(cm: Table, kinds: set<string>): Table { map k | k in cm && k in kinds :: cm[k] }

  method MergeComponents(comps: map<string, Table>, owner: map<string, nat>, cm: Table, at: nat)
    returns (clash: Option<MergeError>, comps': map<string, Table>, owner': map<string, nat>)
    ensures clash.None? <==> AllMappings(cm) && FreshIds(owner.Keys, cm) && OwnIdsApart(cm)
    ensures clash.None? ==> Added(comps, owner, cm, at, comps', owner')
    ensures clash.Some? ==> ClashIs(clash.value, owner, cm, at)
  {
    hide Id, EntriesAt, Added, FreshIds, OwnIdsApart, ClashIs;
    comps', owner' := comps, owner;
    var rest := cm.Keys;
    NothingAdded(comps, owner, Part(cm, {}), at);
    assert cm.Keys - rest == {};
    while rest != {}
      invariant rest <= cm.Keys
      invariant AllMappings(Part(cm, cm.Keys - rest))
      invariant FreshIds(owner.Keys, Part(cm, cm.Keys - rest)) && OwnIdsApart(Part(cm, cm.Keys - rest))
      invariant Added(comps, owner, Part(cm, cm.Keys - rest), at, comps', owner')
    {
      var kind :| kind in rest;
      ghost var done := cm.Keys - rest;
      if !cm[kind].Mapping? {
        clash := Some(KindNotMapping(at, kind));
        NotMappingClash(owner, cm, at, kind);
        return;
      }
      var dst := if kind in comps' then comps'[kind] else map[];
      var names := cm[kind].entries;
      var found, dst', grown := MergeNames(dst, owner', kind, names, at);
      if found.Some? {
        clash := found;
        ghost var k :| NameClash(found.value, owner', kind, names, k, at);
        IdClash(comps, owner, cm, at, done, comps', owner', kind, k);
        return;
      }
      KindAdded(comps, owner, cm, at, done, comps', owner', kind, dst', grown);
      comps', owner' := comps'[kind := dst'], grown;
      rest := rest - {kind};
      assert cm.Keys - rest == done + {kind};
    }
    clash := None;
    assert Part(cm, cm.Keys - rest) == cm;
  }

  lemma NothingAdded(comps: map<string, Table>, owner: map<string, nat>, none: Table, at: nat)
    requires none == map[]
    ensures Added(comps, owner, none, at, comps, owner) && FreshIds(owner.Keys, none) && OwnIdsApart(none)
  {
    hide Id;
  }

  lemma NotMappingClash(owner: map<string, nat>, cm: Table, at: nat, kind: string)
    requires kind in cm && !cm[kind].Mapping?
    ensures !AllMappings(cm) && ClashIs(KindNotMapping(at, kind), owner, cm, at)
  {
    hide Id;
  }

  lemma PartDefines(cm: Table, kinds: set<string>, kind: string, name: string)
    ensures Defines(Part(cm, kinds), kind, name) <==> kind in kinds && Defines(cm, kind, name)
  {
  }

  lemma MappingDefines(cm: Table, kind: string, name: string)
    requires kind in cm && cm[kind].Mapping? && name in cm[kind].entries
    ensures Defines(cm, kind, name)
  {
  }

  lemma IdClash(comps: map<string, Table>, owner: map<string, nat>, cm: Table, at: nat, done: set<string>,
                comps': map<string, Table>, owner': map<string, nat>, kind: string, name: string)
    requires Added(comps, owner, Part(cm, done), at, comps', owner')
    requires kind in cm && kind !in done && cm[kind].Mapping? && name in cm[kind].entries && Id(kind, name) in owner'
    ensures !(FreshIds(owner.Keys, cm) && OwnIdsApart(cm))
    ensures ClashIs(ComponentTwice(Id(kind, name), owner'[Id(kind, name)], at), owner, cm, at)
  {
    hide Id, Part, EntriesAt, Defines;
    MappingDefines(cm, kind, name);
    if Id(kind, name) !in owner {
      var kind', name' :| Defines(Part(cm, done), kind', name') && Id(kind, name) == Id(kind', name');
      PartDefines(cm, done, kind', name');
    }
  }

  lemma KindAdded(comps: map<string, Table>, owner: map<string, nat>, cm: Table, at: nat, done: set<string>,
                  comps': map<string, Table>, owner': map<string, nat>, kind: string, dst: Table, grown: map<string, nat>)
    requires Added(comps, owner, Part(cm, done), at, comps', owner')
    requires AllMappings(Part(cm, done)) && FreshIds(owner.Keys, Part(cm, done)) && OwnIdsApart(Part(cm, done))
    requires kind in cm && kind !in done && cm[kind].Mapping?
    requires forall k :: k in cm[kind].entries ==> Id(kind, k) !in owner'
    requires dst == (if kind in comps' then comps'[kind] else map[]) + cm[kind].entries
    requires grown.Keys == owner'.Keys + Ids(kind, cm[kind].entries.Keys)
    requires forall id :: id in grown ==> grown[id] == if id in owner' then owner'[id] else at
    ensures
      var part := Part(cm, done + {kind});
      AllMappings(part) && FreshIds(owner.Keys, part) && OwnIdsApart(part) && Added(comps, owner, part, at, comps'[kind := dst], grown)
  {
    hide Id, Part, EntriesAt, Ids, Defines, FreshIds, OwnIdsApart, AllMappings;
    var before, part := Part(cm, done), Part(cm, done + {kind});
    var names := cm[kind].entries;
    PartGrows(cm, done, kind);
    OwnIds(owner.Keys, owner'.Keys, before, part, kind, names);
    AddedIds(owner, before, part, kind, names, owner', grown);
    AddedNames(comps, before, part, kind, comps', dst);
  }

  lemma AddedNames(comps: map<string, Table>, before: Table, part: Table, kind: string, comps': map<string, Table>, dst: Table)
    requires comps'.Keys == comps.Keys + before.Keys && part.Keys == before.Keys + {kind}
    requires forall k :: k in comps' ==> comps'[k] == (if k in comps then comps[k] else map[]) + Names(before, k)
    requires forall k :: k != kind ==> Names(part, k) == Names(before, k)
    requires Names(before, kind) == map[] && kind !in before
    requires dst == (if kind in comps' then comps'[kind] else map[]) + Names(part, kind)
    ensures comps'[kind := dst].Keys == comps.Keys + part.Keys
    ensures forall k :: k in comps'[kind := dst] ==>
      comps'[kind := dst][k] == (if k in comps then comps[k] else map[]) + Names(part, k)
  {
    hide EntriesAt;
  }

  lemma PartGrows(cm: Table, done: set<string>, kind: string)
    requires kind in cm && kind !in done && cm[kind].Mapping?
    ensures
      var before, part := Part(cm, done), Part(cm, done + {kind});
      && (forall k, n :: Defines(part, k, n) <==> Defines(before, k, n) || (k == kind && n in cm[kind].entries))
      && (forall k :: k != kind ==> Names(part, k) == Names(before, k))
      && Names(part, kind) == cm[kind].entries && Names(before, kind) == map[]
      && kind !in before && part.Keys == before.Keys + {kind} && (AllMappings(before) ==> AllMappings(part))
  {
  }

  lemma OwnIds(held: set<string>, taken: set<string>, before: Table, part: Table, kind: string, names: Table)
    requires FreshIds(held, before) && OwnIdsApart(before) && held <= taken
    requires forall k, n :: Defines(part, k, n) <==> Defines(before, k, n) || (k == kind && n in names)
    requires forall k, n :: Defines(before, k, n) ==> Id(k, n) in taken
    requires forall n :: n in names ==> Id(kind, n) !in taken
    ensures FreshIds(held, part) && OwnIdsApart(part)
  {
    hide Id, Defines;
    forall k, n, k', n' | Defines(part, k, n) && Defines(part, k', n') && Id(k, n) == Id(k', n')
      ensures k == k' && n == n'
    {
      if k == kind && k' == kind {
        IdSplits(k, n, k', n');
      }
    }
  }

  lemma AddedIds(owner: map<string, nat>, before: Table, part: Table, kind: string, names: Table,
                 owner': map<string, nat>, grown: map<string, nat>)
    requires forall k, n :: Defines(part, k, n) <==> Defines(before, k, n) || (k == kind && n in names)
    requires forall id :: id in owner' <==> id in owner || exists k, n :: Defines(before, k, n) && id == Id(k, n)
    requires grown.Keys == owner'.Keys + Ids(kind, names.Keys)
    ensures forall id :: id in grown <==> id in owner || exists k, n :: Defines(part, k, n) && id == Id(k, n)
  {
    hide Id, Defines;
    assert forall id :: id in Ids(kind, names.Keys) <==> exists n :: n in names && id == Id(kind, n);
    forall id
      ensures id in grown <==> id in owner || exists k, n :: Defines(part, k, n) && id == Id(k, n)
    {
      assert id in grown <==> id in owner' || exists n :: n in names && id == Id(kind, n);
      assert (exists n :: n in names && id == Id(kind, n)) ==> exists k, n :: Defines(part, k, n) && id == Id(k, n);
    }
  }

  // --------------------------------------------------------- one fragment after another

  ghost predicate PathState(frags: seq<Fragment>, paths: Table, owner: map<string, nat>) {
    && owner.Keys == paths.Keys && IsUnion(paths, frags)
    && forall k :: k in owner ==> owner[k] < |frags| && k in Paths(frags[owner[k]])
  }

  ghost predicate DefinesId(f: Fragment, id: string) { exists kind, name :: Defines(Kinds(f), kind, name) && id == Id(kind, name) }

  ghost predicate CompState(frags: seq<Fragment>, comps: map<string, Table>, owner: map<string, nat>) {
    && IsKindUnion(comps, frags)
    && (forall id :: id in owner ==> owner[id] < |frags| && DefinesId(frags[owner[id]], id))
    && forall i, kind, name :: 0 <= i < |frags| && Defines(Kinds(frags[i]), kind, name) ==> Id(kind, name) in owner
  }

  /** The fragments an error names really are at fault; where one is named twice, two of its components clash. */
  ghost predicate Explains(e: MergeError, frags: seq<Fragment>) {
    match e
    case PathsNotMapping(at) => at < |frags| && "paths" in frags[at].doc && !frags[at].doc["paths"].Mapping?
    case ComponentsNotMapping(at) => at < |frags| && "components" in frags[at].doc && !frags[at].doc["components"].Mapping?
    case KindNotMapping(at, kind) => at < |frags| && kind in Kinds(frags[at]) && !Kinds(frags[at])[kind].Mapping?
    case PathTwice(k, before, at) => before < at < |frags| && k in Paths(frags[before]) && k in Paths(frags[at])
    case ComponentTwice(id, before, at) =>
      && before <= at < |frags| && DefinesId(frags[before], id) && DefinesId(frags[at], id)
      && (before == at ==> TwiceIn(Kinds(frags[at]), id))
  }

  lemma MergeableStep(frags: seq<Fragment>, f: Fragment, paths: Table, pathOwner: map<string, nat>,
                      comps: map<string, Table>, owner: map<string, nat>)
    requires PathState(frags, paths, pathOwner) && CompState(frags, comps, owner)
    ensures Mergeable(frags + [f]) <==>
      (Mergeable(frags) && Shaped(f) && paths.Keys !! Paths(f).Keys && FreshIds(owner.Keys, Kinds(f)) && OwnIdsApart(Kinds(f)))
  {
    hide PathsApart, IdsApart, FreshIds, OwnIdsApart, Shaped, PathState, CompState, EntriesAt;
    var all := frags + [f];
    assert (forall i :: 0 <= i < |all| ==> Shaped(all[i])) <==> (forall i :: 0 <= i < |frags| ==> Shaped(frags[i])) && Shaped(f) by {
      assert all[|frags|] == f;
      assert forall i :: 0 <= i < |frags| ==> all[i] == frags[i];
    }
    PathsApartStep(frags, f, paths, pathOwner);
    IdsApartStep(frags, f, comps, owner);
  }

  lemma PathsApartStep(frags: seq<Fragment>, f: Fragment, paths: Table, owner: map<string, nat>)
    requires PathState(frags, paths, owner)
    ensures PathsApart(frags + [f]) <==> PathsApart(frags) && paths.Keys !! Paths(f).Keys
  {
    hide EntriesAt;
    var all := frags + [f];
    assert all[|frags|] == f && forall i :: 0 <= i < |frags| ==> all[i] == frags[i];
    forall i, k | 0 <= i < |frags| && k in Paths(frags[i])
      ensures k in paths
    {
      assert frags[i] in frags;
    }
    if PathsApart(all) {
      forall i, j, k | 0 <= i < j < |frags| && k in Paths(frags[i])
        ensures k !in Paths(frags[j])
      {
        assert k in Paths(all[i]);
      }
      forall k | k in paths
        ensures k !in Paths(f)
      {
        assert k in Paths(all[owner[k]]);
      }
    }
  }

  lemma IdsApartStep(frags: seq<Fragment>, f: Fragment, comps: map<string, Table>, owner: map<string, nat>)
    requires CompState(frags, comps, owner)
    ensures IdsApart(frags + [f]) <==> IdsApart(frags) && FreshIds(owner.Keys, Kinds(f)) && OwnIdsApart(Kinds(f))
  {
    hide Id, EntriesAt, Defines, IsKindUnion;
    var all := frags + [f];
    assert all[|frags|] == f && forall i :: 0 <= i < |frags| ==> all[i] == frags[i];
    if IdsApart(all) {
      forall kind, name | Defines(Kinds(f), kind, name)
        ensures Id(kind, name) !in owner
      {
        if Id(kind, name) in owner {
          OwnedClash(frags, f, comps, owner, kind, name);
        }
      }
      OwnIdsIn(all, |frags|);
      IdsApartPrefix(frags, f);
    } else if FreshIds(owner.Keys, Kinds(f)) && OwnIdsApart(Kinds(f)) && IdsApart(frags) {
      IdsApartSnoc(frags, f, owner);
    }
  }

  lemma OwnedClash(frags: seq<Fragment>, f: Fragment, comps: map<string, Table>, owner: map<string, nat>, kind: string, name: string)
    requires CompState(frags, comps, owner) && Defines(Kinds(f), kind, name) && Id(kind, name) in owner
    ensures !IdsApart(frags + [f])
  {
    hide Id, EntriesAt, Defines, IsKindUnion;
    var i, all := owner[Id(kind, name)], frags + [f];
    var kind', name' :| Defines(Kinds(frags[i]), kind', name') && Id(kind, name) == Id(kind', name');
    assert Defines(Kinds(all[i]), kind', name') && Defines(Kinds(all[|frags|]), kind, name);
  }

  lemma OwnIdsIn(frags: seq<Fragment>, i: nat)
    requires i < |frags| && IdsApart(frags)
    ensures OwnIdsApart(Kinds(frags[i]))
  {
    hide Id, EntriesAt, Defines;
  }

  lemma IdsApartPrefix(frags: seq<Fragment>, f: Fragment)
    requires IdsApart(frags + [f])
    ensures IdsApart(frags)
  {
    hide Id, EntriesAt, Defines;
    var all := frags + [f];
    assert forall i :: 0 <= i < |frags| ==> all[i] == frags[i];
  }

  lemma IdsApartSnoc(frags: seq<Fragment>, f: Fragment, owner: map<string, nat>)
    requires IdsApart(frags) && FreshIds(owner.Keys, Kinds(f)) && OwnIdsApart(Kinds(f))
    requires forall i, kind, name :: 0 <= i < |frags| && Defines(Kinds(frags[i]), kind, name) ==> Id(kind, name) in owner
    ensures IdsApart(frags + [f])
  {
    hide Id, EntriesAt, Defines;
    var all := frags + [f];
    assert all[|frags|] == f && forall i :: 0 <= i < |frags| ==> all[i] == frags[i];
  }

  lemma MergeablePrefix(frags: seq<Fragment>, n: nat)
    requires n <= |frags| && Mergeable(frags)
    ensures Mergeable(frags[..n])
  {
    hide Id, EntriesAt, Defines, Shaped;
    assert forall i :: 0 <= i < n ==> frags[..n][i] == frags[i];
  }

  lemma PathsAdded(frags: seq<Fragment>, f: Fragment, paths: Table, owner: map<string, nat>, paths': Table, owner': map<string, nat>)
    requires PathState(frags, paths, owner) && paths.Keys !! Paths(f).Keys
    requires paths' == paths + Paths(f) && owner'.Keys == paths'.Keys
    requires forall k :: k in owner' ==> owner'[k] == if k in owner then owner[k] else |frags|
    ensures PathState(frags + [f], paths', owner')
  {
    hide EntriesAt, IsUnion;
    var all := frags + [f];
    assert all[|frags|] == f && forall i :: 0 <= i < |frags| ==> all[i] == frags[i];
    UnionAdded(frags, f, paths);
  }

  lemma UnionAdded(frags: seq<Fragment>, f: Fragment, paths: Table)
    requires IsUnion(paths, frags) && paths.Keys !! Paths(f).Keys
    ensures IsUnion(paths + Paths(f), frags + [f])
  {
    hide EntriesAt;
    assert forall g :: g in frags + [f] <==> g in frags || g == f;
  }

  lemma CompsAdded(frags: seq<Fragment>, f: Fragment, comps: map<string, Table>, owner: map<string, nat>,
                   comps': map<string, Table>, owner': map<string, nat>)
    requires CompState(frags, comps, owner) && FreshIds(owner.Keys, Kinds(f))
    requires Added(comps, owner, Kinds(f), |frags|, comps', owner')
    ensures CompState(frags + [f], comps', owner')
  {
    hide EntriesAt, Id, Defines, DefinesId, FreshIds, OwnIdsApart, IsKindUnion;
    var all := frags + [f];
    assert all[|frags|] == f && forall i :: 0 <= i < |frags| ==> all[i] == frags[i];
    KindUnionAdded(frags, f, comps, owner, comps', owner');
    forall id | id in owner'
      ensures owner'[id] < |all| && DefinesId(all[owner'[id]], id)
    {
      if id !in owner {
        var kind, name :| Defines(Kinds(f), kind, name) && id == Id(kind, name);
        IdDefined(f, kind, name);
      }
    }
  }

  lemma IdDefined(f: Fragment, kind: string, name: string)
    requires Defines(Kinds(f), kind, name)
    ensures DefinesId(f, Id(kind, name))
  {
    hide Id, Defines;
  }

  lemma KindUnionAdded(frags: seq<Fragment>, f: Fragment, comps: map<string, Table>, owner: map<string, nat>,
                       comps': map<string, Table>, owner': map<string, nat>)
    requires CompState(frags, comps, owner) && FreshIds(owner.Keys, Kinds(f))
    requires Added(comps, owner, Kinds(f), |frags|, comps', owner')
    ensures IsKindUnion(comps', frags + [f])
  {
    hide EntriesAt, Id, HasKinds, HasNames, Defines;
    KindsAdded(frags, f, comps, comps');
    forall g, kind, k {:trigger g in frags, Defines(Kinds(g), kind, k)} | g in frags && Defines(Kinds(g), kind, k)
      ensures !Defines(Kinds(f), kind, k)
    {
      var i :| 0 <= i < |frags| && frags[i] == g;
      assert Id(kind, k) in owner;
    }
    NamesAdded(frags, f, comps, comps');
  }

  lemma KindsAdded(frags: seq<Fragment>, f: Fragment, comps: map<string, Table>, comps': map<string, Table>)
    requires HasKinds(comps, frags) && comps'.Keys == comps.Keys + Kinds(f).Keys
    ensures HasKinds(comps', frags + [f])
  {
    hide EntriesAt;
    var all := frags + [f];
    assert f in all && forall g :: g in all <==> g in frags || g == f;
    forall kind | kind in comps'
      ensures exists g :: g in all && kind in Kinds(g)
    {
      if kind !in Kinds(f) {
        var g :| g in frags && kind in Kinds(g);
        assert g in all;
      }
    }
  }

  lemma NameHeld(comps: map<string, Table>, frags: seq<Fragment>, g: Fragment, kind: string, k: string)
    requires HasNames(comps, frags) && g in frags && Defines(Kinds(g), kind, k)
    ensures kind in comps && k in comps[kind] && comps[kind][k] == Names(Kinds(g), kind)[k]
  {
  }

  lemma NamesAdded(frags: seq<Fragment>, f: Fragment, comps: map<string, Table>, comps': map<string, Table>)
    requires HasNames(comps, frags) && comps'.Keys == comps.Keys + Kinds(f).Keys
    requires forall kind :: kind in comps' ==> comps'[kind] == (if kind in comps then comps[kind] else map[]) + Names(Kinds(f), kind)
    requires forall g, kind, k {:trigger g in frags, Defines(Kinds(g), kind, k)} :: g in frags && Defines(Kinds(g), kind, k) ==> !Defines(Kinds(f), kind, k)
    ensures HasNames(comps', frags + [f])
  {
    hide EntriesAt;
    var all := frags + [f];
    assert forall g :: g in all <==> g in frags || g == f;
    forall g, kind, k {:trigger g in all, Defines(Kinds(g), kind, k)} | g in all && Defines(Kinds(g), kind, k)
      ensures kind in comps' && k in comps'[kind] && comps'[kind][k] == Names(Kinds(g), kind)[k]
    {
      if g in frags {
        NameHeld(comps, frags, g, kind, k);
        assert !Defines(Kinds(f), kind, k);
      } else {
        NamesInKinds(Kinds(f), kind, k);
      }
    }
    forall kind, k | kind in comps' && k in comps'[kind]
      ensures exists g :: g in all && Defines(Kinds(g), kind, k)
    {
      if k in Names(Kinds(f), kind) {
        assert f in all && Defines(Kinds(f), kind, k);
      } else {
        var g :| g in frags && Defines(Kinds(g), kind, k);
        assert g in all;
      }
    }
  }

  lemma NamesInKinds(kinds: Table, kind: string, name: string)
    requires Defines(kinds, kind, name)
    ensures kind in kinds
  {
  }

  /** One fragment: its paths, then its components, or the first thing found wrong with it. */
  method MergeFragment(ghost frags: seq<Fragment>, f: Fragment, i: nat, paths: Table, pathOwner: map<string, nat>,
                       comps: map<string, Table>, compOwner: map<string, nat>)
    returns (wrong: Option<MergeError>, paths': Table, pathOwner': map<string, nat>,
             comps': map<string, Table>, compOwner': map<string, nat>)
    requires i < |frags| && frags[i] == f
    requires Mergeable(frags[..i]) && PathState(frags[..i], paths, pathOwner) && CompState(frags[..i], comps, compOwner)
    ensures wrong.None? <==> Mergeable(frags[..i] + [f])
    ensures wrong.None? ==> PathState(frags[..i] + [f], paths', pathOwner') && CompState(frags[..i] + [f], comps', compOwner')
    ensures wrong.Some? ==> Explains(wrong.value, frags)
  {
    hide Mergeable, IsUnion, IsKindUnion, Explains, Shaped, Added, ClashIs, PathState, CompState, FreshIds, OwnIdsApart, AllMappings,
      EntriesAt;
    paths', pathOwner', comps', compOwner' := paths, pathOwner, comps, compOwner;
    MergeableStep(frags[..i], f, paths, pathOwner, comps, compOwner);
    ShapedIs(f);
    StateKeys(frags[..i], paths, pathOwner);
    ExplainsShape(frags, i);
    wrong := None;
    if "paths" in f.doc && !f.doc["paths"].Mapping? {
      return Some(PathsNotMapping(i)), paths', pathOwner', comps', compOwner';
    }
    wrong, paths', pathOwner' := MergePaths(paths, pathOwner, Paths(f), i);
    if wrong.Some? {
      ExplainsPath(frags, i, paths, pathOwner, wrong.value);
      return;
    }
    if "components" in f.doc && !f.doc["components"].Mapping? {
      wrong := Some(ComponentsNotMapping(i));
      return;
    }
    wrong, comps', compOwner' := MergeComponents(comps, compOwner, Kinds(f), i);
    if wrong.Some? {
      ExplainsComponent(frags, i, comps, compOwner, wrong.value);
      return;
    }
    PathsAdded(frags[..i], f, paths, pathOwner, paths', pathOwner');
    CompsAdded(frags[..i], f, comps, compOwner, comps', compOwner');
  }

  /** Merging succeeds exactly on fragments that clash nowhere, and then gives the union. */
  method MergeDocs(root: Doc, frags: seq<Fragment>) returns (r: Result<Doc, MergeError>)
    ensures r.Ok? <==> Mergeable(frags)
    ensures r.Ok? ==> IsMerge(r.value, root, frags)
    ensures r.Err? ==> Explains(r.error, frags)
  {
    hide Mergeable, IsUnion, IsKindUnion, Explains, PathState, CompState;
    var paths: Table, pathOwner: map<string, nat> := map[], map[];
    var comps: map<string, Table>, compOwner: map<string, nat> := map[], map[];
    NothingMerged(paths, pathOwner, comps, compOwner);
    for i := 0 to |frags|
      invariant Mergeable(frags[..i]) && PathState(frags[..i], paths, pathOwner) && CompState(frags[..i], comps, compOwner)
    {
      assert frags[..i + 1] == frags[..i] + [frags[i]];
      if Mergeable(frags) {
        MergeablePrefix(frags, i + 1);
      }
      var wrong;
      wrong, paths, pathOwner, comps, compOwner := MergeFragment(frags, frags[i], i, paths, pathOwner, comps, compOwner);
      if wrong.Some? {
        return Err(wrong.value);
      }
    }
    assert frags[..|frags|] == frags;
    UnionsHold(frags, paths, pathOwner, comps, compOwner);
    var merged := root;
    if |paths| > 0 {
      merged := merged["paths" := Mapping(paths)];
    }
    if |comps| > 0 {
      merged := merged["components" := Mapping(Wrap(comps))];
    }
    assert merged == Under(root, paths, comps);
    return Ok(merged);
  }

  lemma NothingMerged(paths: Table, pathOwner: map<string, nat>, comps: map<string, Table>, owner: map<string, nat>)
    requires paths == map[] && pathOwner == map[] && comps == map[] && owner == map[]
    ensures Mergeable([]) && PathState([], paths, pathOwner) && CompState([], comps, owner)
  {
  }

  lemma StateKeys(frags: seq<Fragment>, paths: Table, owner: map<string, nat>)
    requires PathState(frags, paths, owner)
    ensures owner.Keys == paths.Keys
  {
  }

  lemma UnionsHold(frags: seq<Fragment>, paths: Table, pathOwner: map<string, nat>, comps: map<string, Table>, owner: map<string, nat>)
    requires PathState(frags, paths, pathOwner) && CompState(frags, comps, owner)
    ensures IsUnion(paths, frags) && IsKindUnion(comps, frags)
  {
    hide IsUnion, IsKindUnion;
  }

  lemma ShapedIs(f: Fragment)
    ensures Shaped(f) ==> ("paths" in f.doc ==> f.doc["paths"].Mapping?)
    ensures Shaped(f) ==> ("components" in f.doc ==> f.doc["components"].Mapping?) && AllMappings(Kinds(f))
    ensures (("paths" in f.doc ==> f.doc["paths"].Mapping?) && ("components" in f.doc ==> f.doc["components"].Mapping?)
      && AllMappings(Kinds(f))) ==> Shaped(f)
  {
  }

  lemma ExplainsShape(frags: seq<Fragment>, i: nat)
    requires i < |frags|
    ensures "paths" in frags[i].doc && !frags[i].doc["paths"].Mapping? ==> Explains(PathsNotMapping(i), frags)
    ensures "components" in frags[i].doc && !frags[i].doc["components"].Mapping? ==> Explains(ComponentsNotMapping(i), frags)
  {
  }

  lemma ExplainsPath(frags: seq<Fragment>, i: nat, paths: Table, owner: map<string, nat>, e: MergeError)
    requires i < |frags| && PathState(frags[..i], paths, owner)
    requires exists k :: k in owner && k in Paths(frags[i]) && e == PathTwice(k, owner[k], i)
    ensures Explains(e, frags)
  {
    hide EntriesAt, IsUnion;
  }

  lemma ExplainsComponent(frags: seq<Fragment>, i: nat, comps: map<string, Table>, owner: map<string, nat>, e: MergeError)
    requires i < |frags| && CompState(frags[..i], comps, owner) && ClashIs(e, owner, Kinds(frags[i]), i)
    ensures Explains(e, frags)
  {
    hide EntriesAt, IsKindUnion, Id, Defines, TwiceIn;
  }

  // ---------------------------------------------------------------- what that comes to

  /** The merge is one document, whatever order the fragments come in. */
  lemma MergeIsUnique(x: Doc, y: Doc, root: Doc, a: seq<Fragment>, b: seq<Fragment>)
    requires IsMerge(x, root, a) && IsMerge(y, root, b) && forall f :: f in a <==> f in b
    ensures x == y
  {
    hide EntriesAt, IsUnion, IsKindUnion;
    var p, c :| IsUnion(p, a) && IsKindUnion(c, a) && x == Under(root, p, c);
    var p', c' :| IsUnion(p', b) && IsKindUnion(c', b) && y == Under(root, p', c');
    UnionIsUnique(p, p', a, b);
    KindUnionIsUnique(c, c', a, b);
  }

  lemma UnionIsUnique(p: Table, p': Table, a: seq<Fragment>, b: seq<Fragment>)
    requires IsUnion(p, a) && IsUnion(p', b) && forall f :: f in a <==> f in b
    ensures p == p'
  {
    hide EntriesAt;
    assert p.Keys == p'.Keys;
  }

  lemma KindUnionIsUnique(c: map<string, Table>, c': map<string, Table>, a: seq<Fragment>, b: seq<Fragment>)
    requires IsKindUnion(c, a) && IsKindUnion(c', b) && forall f :: f in a <==> f in b
    ensures c == c'
  {
    hide EntriesAt, Defines, HasNames;
    assert c.Keys == c'.Keys;
    forall kind | kind in c
      ensures c[kind] == c'[kind]
    {
      NamesAgree(c, c', a, b, kind);
    }
  }

  lemma NamesAgree(c: map<string, Table>, c': map<string, Table>, a: seq<Fragment>, b: seq<Fragment>, kind: string)
    requires HasNames(c, a) && HasNames(c', b) && (forall f :: f in a <==> f in b) && kind in c && kind in c'
    ensures c[kind] == c'[kind]
  {
    hide EntriesAt, Defines;
    assert c[kind].Keys == c'[kind].Keys;
  }

  /** Where no kind holds a slash, as none of a loaded fragment does, ids clash only where components do. */
  lemma DuplicatesAreReal(frags: seq<Fragment>)
    requires forall i, kind :: 0 <= i < |frags| && kind in Kinds(frags[i]) ==> '/' !in kind
    ensures IdsApart(frags) <==> ComponentsApart(frags)
  {
    hide Id, EntriesAt;
    if ComponentsApart(frags) {
      forall i, j, kind, name, kind', name' |
        0 <= i < |frags| && 0 <= j < |frags| && Defines(Kinds(frags[i]), kind, name) && Defines(Kinds(frags[j]), kind', name')
        && Id(kind, name) == Id(kind', name')
        ensures i == j && kind == kind' && name == name'
      {
        NamesInKinds(Kinds(frags[i]), kind, name);
        NamesInKinds(Kinds(frags[j]), kind', name');
        IdSplits(kind, name, kind', name');
      }
    }
    if IdsApart(frags) {
      forall i, j, kind, name | 0 <= i < j < |frags| && Defines(Kinds(frags[i]), kind, name)
        ensures !Defines(Kinds(frags[j]), kind, name)
      {
        assert Id(kind, name) == Id(kind, name);
      }
    }
  }

  lemma KnownKinds()
    ensures forall i :: 0 <= i < |KIND_ORDER| ==> '/' !in KIND_ORDER[i]
  {
  }

  lemma KnownKind(f: Fragment, kind: string)
    requires CrossCheck(f).Ok? && Loaded(f) && kind in Kinds(f)
    ensures '/' !in kind
  {
    hide Body;
    KnownKinds();
    assert kind in f.kinds;
  }

  /** Fragments that passed the cross-check merge exactly when no path and no component is defined twice. */
  lemma LoadedMerge(frags: seq<Fragment>)
    requires forall i :: 0 <= i < |frags| ==> CrossCheck(frags[i]).Ok? && Loaded(frags[i])
    ensures Mergeable(frags) <==> (forall i :: 0 <= i < |frags| ==> Shaped(frags[i])) && PathsApart(frags) && ComponentsApart(frags)
  {
    hide Id, EntriesAt, PathsApart, IdsApart, ComponentsApart, Shaped, CrossCheck, Loaded;
    forall i, kind | 0 <= i < |frags| && kind in Kinds(frags[i])
      ensures '/' !in kind
    {
      KnownKind(frags[i], kind);
    }
    DuplicatesAreReal(frags);
  }

  /** A kind with a slash is enough for a clash between components that differ. */
  lemma SlashedKindsClash()
    ensures exists f, g :: Shaped(f) && Shaped(g) && PathsApart([f, g]) && ComponentsApart([f, g]) && !Mergeable([f, g])
  {
    var a := map["components" := Mapping(map["a" := Mapping(map["b/c" := Other(0)])])];
    var b := map["components" := Mapping(map["a/b" := Mapping(map["c" := Other(0)])])];
    var f, g := Fragment(a, None, map[]), Fragment(b, None, map[]);
    assert Defines(Kinds([f, g][0]), "a", "b/c") && Defines(Kinds([f, g][1]), "a/b", "c");
    assert Id("a", "b/c") == "a/b/c" == Id("a/b", "c");
    assert Shaped(f) && Shaped(g) && PathsApart([f, g]) && ComponentsApart([f, g]) && !IdsApart([f, g]);
  }
}
