/** The loops that list the objects of a fragment and index the sources by object. */
module Recorder {
  import opened Trees
  import opened MergeRules
  import opened MergeFacts
  import opened Fragments
  import opened Provenance
  import opened Equivalence
  import opened RawObjects
  import Compiler

  method AsTree(root: Rule, data: Fragment) returns (ids: map<string, map<string, Tree>>)
    ensures ids == TreeOf(root, data)
    ensures forall kind, id, item :: (kind in ids && id in ids[kind] && ids[kind][id] == item) <==> HasObject(root, data, kind, id, item)
  {
    ids := map[];
    var d := if data.Map? then data.m else map[];
    var keys := d.Keys;
    while keys != {}
      invariant keys <= d.Keys
      invariant forall k :: k in ids <==> k in TreeOf(root, data) && k !in keys
      invariant forall k | k in ids :: ids[k] == TreeOf(root, data)[k]
      decreases keys
    {
      var key :| key in keys;
      keys := keys - {key};
      if key in root.children {
        var child, val := root.children[key], d[key];
        if child.kind == ListKind && val.List? {
          var nested := ListTree(val.items, child.idAttr);
          ids := ids[key := nested];
        }
        if child.kind == SetKind && val.Map? {
          var nested := SetTree(val.m);
          ids := ids[key := nested];
        }
      }
    }
    assert ids == TreeOf(root, data);
    TreeIs(root, data);
  }

  /** The listed objects are those that the fragment holds. */
  lemma TreeIs(root: Rule, data: Fragment)
    ensures var ids := TreeOf(root, data);
            forall kind, id, item :: (kind in ids && id in ids[kind] && ids[kind][id] == item) <==> HasObject(root, data, kind, id, item)
  {
    var ids := TreeOf(root, data);
    forall kind, id, item
      ensures (kind in ids && id in ids[kind] && ids[kind][id] == item) <==> HasObject(root, data, kind, id, item)
    {
      LookupIs(root, data, kind, id);
    }
  }

  /** The loop over the items of a list. */
  method ListTree(items: seq<Tree>, idAttr: string) returns (nested: map<string, Tree>)
    ensures nested == ById(items, idAttr)
  {
    nested := map[];
    for i := 0 to |items|
      invariant nested == ById(items[..i], idAttr)
    {
      assert items[..i + 1][..i] == items[..i];
      var item := items[i];
      if item.Map? && idAttr in item.m {
        var idString := AsString(item.m[idAttr]);
        if idString.Some? {
          nested := nested[idString.value := item];
        }
      }
    }
    assert items[..|items|] == items;
  }

  /** The loop over the entries of a set. */
  method SetTree(m: map<string, Tree>) returns (nested: map<string, Tree>)
    ensures nested == map k | k in m && m[k].Map? :: m[k]
  {
    nested := map[];
    var keys := m.Keys;
    while keys != {}
      invariant keys <= m.Keys
      invariant forall k :: k in nested <==> k in m && m[k].Map? && k !in keys
      invariant forall k | k in nested :: nested[k] == m[k]
      decreases keys
    {
      var key :| key in keys;
      keys := keys - {key};
      if m[key].Map? {
        nested := nested[key := m[key]];
      }
    }
  }

  type SourceIndex = map<string, map<string, seq<string>>>

  /** The sources listed for an object. */
  function Listed(index: SourceIndex, kind: string, id: string): seq<string> {
    if kind in index && id in index[kind] then index[kind][id] else []
  }

  /** The index lists, once each, the definers among `done`, and `path` for the given pairs. */
  ghost predicate Lists(index: SourceIndex, root: Rule, sources: map<string, Fragment>, done: set<string>,
                        path: string, pairs: set<(string, string)>) {
    && (forall kind, id :: NoDups(Listed(index, kind, id)))
    && (forall kind, id, p :: p in Listed(index, kind, id) <==>
          (p in done && Defines(root, sources, kind, id, p)) || (p == path && (kind, id) in pairs))
  }

  /** Each source that defines an object, once. */
  ghost predicate ListsDefiners(paths: seq<string>, root: Rule, sources: map<string, Fragment>, kind: string, id: string) {
    NoDups(paths) && forall p :: p in paths <==> Defines(root, sources, kind, id, p)
  }

  /** The index lists a source for an object, once, if and only if the source defines it. */
  method IndexSnippets(root: Rule, sources: map<string, Fragment>) returns (index: SourceIndex)
    ensures forall kind, id :: ListsDefiners(Listed(index, kind, id), root, sources, kind, id)
    ensures forall kind, id, p :: p in Listed(index, kind, id) <==> Contributes(root, sources, kind, id, p)
  {
    index := map[];
    var paths := sources.Keys;
    while paths != {}
      invariant paths <= sources.Keys
      invariant Lists(index, root, sources, sources.Keys - paths, "", {})
      decreases paths
    {
      var path :| path in paths;
      var mapping := AsTree(root, sources[path]);
      index := AddSource(index, mapping, path, root, sources, sources.Keys - paths);
      assert sources.Keys - paths + {path} == sources.Keys - (paths - {path});
      paths := paths - {path};
    }
    forall kind, id, p ensures p in Listed(index, kind, id) <==> Contributes(root, sources, kind, id, p) {
      DefinesIs(root, sources, kind, id, p);
    }
  }

  ghost predicate Has(mapping: map<string, map<string, Tree>>, kind: string, id: string) {
    kind in mapping && id in mapping[kind]
  }

  /** The loops over the kinds and ids of one source. */
  method AddSource(before: SourceIndex, mapping: map<string, map<string, Tree>>, path: string,
                   ghost root: Rule, ghost sources: map<string, Fragment>, ghost done: set<string>) returns (index: SourceIndex)
    requires path in sources && path !in done && mapping == TreeOf(root, sources[path])
    requires Lists(before, root, sources, done, "", {})
    ensures Lists(index, root, sources, done + {path}, "", {})
  {
    index := before;
    ghost var pairs: set<(string, string)> := {};
    var kinds := mapping.Keys;
    while kinds != {}
      invariant kinds <= mapping.Keys
      invariant forall k, i :: (k, i) in pairs <==> Has(mapping, k, i) && k !in kinds
      invariant Lists(index, root, sources, done, path, pairs)
      decreases kinds
    {
      var kind :| kind in kinds;
      if kind !in index {
        ListsSame(index, index[kind := map[]], root, sources, done, path, pairs);
        index := index[kind := map[]];
      }
      ghost var outer := pairs;
      var ids := mapping[kind].Keys;
      while ids != {}
        invariant kind in index && ids <= mapping[kind].Keys
        invariant forall k, i :: (k, i) in pairs <==> (k, i) in outer || (k == kind && i in mapping[kind] && i !in ids)
        invariant Lists(index, root, sources, done, path, pairs)
        decreases ids
      {
        var id :| id in ids;
        ids := ids - {id};
        ListOneMore(index, root, sources, done, path, pairs, kind, id);
        var desc := Listed(index, kind, id) + [path];
        assert index[kind := index[kind][id := desc]] == ListMore(index, path, kind, id);
        index := index[kind := index[kind][id := desc]];
        pairs := pairs + {(kind, id)};
      }
      kinds := kinds - {kind};
    }
    assert forall k, i :: Defines(root, sources, k, i, path) <==> Has(mapping, k, i);
  }

  lemma ListsSame(index: SourceIndex, after: SourceIndex, root: Rule, sources: map<string, Fragment>, done: set<string>,
                  path: string, pairs: set<(string, string)>)
    requires Lists(index, root, sources, done, path, pairs)
    requires forall k, i :: Listed(after, k, i) == Listed(index, k, i)
    ensures Lists(after, root, sources, done, path, pairs)
  {
    forall k, i ensures NoDups(Listed(after, k, i)) {
      assert NoDups(Listed(index, k, i));
    }
  }

  function ListMore(index: SourceIndex, path: string, kind: string, id: string): SourceIndex
    requires kind in index
  {
    index[kind := index[kind][id := Listed(index, kind, id) + [path]]]
  }

  lemma ListedAfter(index: SourceIndex, path: string, kind: string, id: string, k: string, i: string)
    requires kind in index
    ensures Listed(ListMore(index, path, kind, id), k, i)
         == if k == kind && i == id then Listed(index, kind, id) + [path] else Listed(index, k, i)
  {}

  lemma NoDupsAfter(index: SourceIndex, path: string, kind: string, id: string, k: string, i: string)
    requires kind in index && path !in Listed(index, kind, id)
    requires NoDups(Listed(index, kind, id)) && NoDups(Listed(index, k, i))
    ensures NoDups(Listed(ListMore(index, path, kind, id), k, i))
  {
    ListedAfter(index, path, kind, id, k, i);
    DisjointNoDups(Listed(index, kind, id), [path]);
  }

  lemma InListedAfter(index: SourceIndex, path: string, kind: string, id: string, k: string, i: string, p: string)
    requires kind in index
    ensures p in Listed(ListMore(index, path, kind, id), k, i) <==>
              p in Listed(index, k, i) || (p == path && k == kind && i == id)
  {
    ListedAfter(index, path, kind, id, k, i);
  }

  lemma ListOneMore(index: SourceIndex, root: Rule, sources: map<string, Fragment>, done: set<string>,
                    path: string, pairs: set<(string, string)>, kind: string, id: string)
    requires Lists(index, root, sources, done, path, pairs)
    requires kind in index && path !in done && (kind, id) !in pairs
    ensures Lists(ListMore(index, path, kind, id), root, sources, done, path, pairs + {(kind, id)})
  {
    var after := ListMore(index, path, kind, id);
    forall k, i ensures NoDups(Listed(after, k, i)) {
      NoDupsAfter(index, path, kind, id, k, i);
    }
    forall k, i, p
      ensures p in Listed(after, k, i) <==>
                (p in done && Defines(root, sources, k, i, p)) || (p == path && (k, i) in pairs + {(kind, id)})
    {
      InListedAfter(index, path, kind, id, k, i, p);
    }
  }

  /**
   If all the sources merge, then what is served for an object is an equivalent
   object, and nothing is served exactly when the full merge does not hold it.
   */
  ghost predicate Served(root: Rule, snippets: map<string, Fragment>, fetch: seq<string>, kind: string, id: string,
                         r: Option<Result<Fragment>>)
    requires kind in root.children
  {
    var full := MergeAll(Datas(snippets, fetch), root);
    full.Ok? ==>
      var served := if r.Some? && r.value.Ok? then Lookup(root, r.value.value, kind, id) else None;
      && (r.None? <==> Lookup(root, full.value, kind, id).None?)
      && EquivOpt(served, Lookup(root, full.value, kind, id), EntryRule(root.children[kind], true, id))
  }

  lemma ServedObject(root: Rule, snippets: map<string, Fragment>, fetch: seq<string>, kind: string, id: string, paths: seq<string>)
    requires root.kind == MapKind && kind in root.children
    requires NoDups(paths) && forall p :: p in paths <==> Defines(root, snippets, kind, id, p)
    requires NoDups(fetch) && forall p :: p in fetch <==> p in snippets
    ensures Served(root, snippets, fetch, kind, id,
                   if paths == [] then None else Some(MergeAll(Datas(snippets, paths), root)))
  {
    if MergeAll(Datas(snippets, fetch), root).Ok? {
      SliceInAnyOrder(root, snippets, fetch, kind, id, paths);
      if paths != [] {
        DefinedInMerge(root, snippets, paths, kind, id);
      }
    }
  }

  /** An object that every merged source defines is in the merge. */
  lemma {:induction false} DefinedInMerge(root: Rule, sources: map<string, Fragment>, paths: seq<string>, kind: string, id: string)
    requires root.kind == MapKind && kind in root.children && paths != []
    requires forall p | p in paths :: Defines(root, sources, kind, id, p)
    requires MergeAll(Datas(sources, paths), root).Ok?
    ensures Lookup(root, MergeAll(Datas(sources, paths), root).value, kind, id).Some?
  {
    var init, last := paths[..|paths| - 1], paths[|paths| - 1];
    assert paths == init + [last] && last in paths;
    DatasSnoc(sources, init, last);
    MergeAllSnoc(Datas(sources, init), sources[last], root);
    LookupOfMerged(MergeAll(Datas(sources, init), root).value, sources[last], root, kind, id);
  }

  // ---------- Descriptors of the validated config ----------

  /** What is kept of an object; its tags are left out. */
  datatype Descriptor = Descriptor(paths: seq<string>)

  type Descriptors = map<string, map<string, Descriptor>>

  /** The objects of the validated config, each with the sources that the index lists for it. */
  function Described(root: Rule, config: Fragment, index: SourceIndex): Descriptors {
    var tree := TreeOf(root, config);
    map kind | kind in tree :: DescribedKind(tree[kind], index, kind)
  }

  function DescribedKind(ids: map<string, Tree>, index: SourceIndex, kind: string): map<string, Descriptor> {
    map id | id in ids :: Descriptor(Listed(index, kind, id))
  }

  method DescribeConfigs(root: Rule, config: Fragment, index: SourceIndex) returns (result: Descriptors)
    ensures result == Described(root, config, index)
  {
    result := map[];
    var tree := AsTree(root, config);
    var kinds := tree.Keys;
    while kinds != {}
      invariant kinds <= tree.Keys && result.Keys == tree.Keys - kinds
      invariant forall kind | kind in result :: result[kind] == DescribedKind(tree[kind], index, kind)
      decreases kinds
    {
      var kind :| kind in kinds;
      kinds := kinds - {kind};
      var descriptors := DescribeKind(tree[kind], index, kind);
      result := result[kind := descriptors];
    }
  }

  /** The loop over the objects of one kind. */
  method DescribeKind(ids: map<string, Tree>, index: SourceIndex, kind: string) returns (result: map<string, Descriptor>)
    ensures result == DescribedKind(ids, index, kind)
  {
    result := map[];
    var keys := ids.Keys;
    while keys != {}
      invariant keys <= ids.Keys && result.Keys == ids.Keys - keys
      invariant forall id | id in result :: result[id] == Descriptor(Listed(index, kind, id))
      decreases keys
    {
      var id :| id in keys;
      keys := keys - {id};
      var desc := Descriptor([]);
      if kind in index {
        desc := Descriptor(if id in index[kind] then index[kind][id] else []);
      }
      result := result[id := desc];
    }
  }

  // ---------- What is committed and served ----------

  /** Each object of the config is described, with the sources that define it. */
  ghost predicate Describes(desc: Descriptors, root: Rule, config: Fragment, sources: map<string, Fragment>) {
    && desc.Keys == TreeOf(root, config).Keys
    && (forall kind | kind in desc :: desc[kind].Keys == TreeOf(root, config)[kind].Keys)
    && (forall kind, id | kind in desc && id in desc[kind] :: ListsDefiners(desc[kind][id].paths, root, sources, kind, id))
  }

  /** `fetch` is an order in which the sources may have been fetched. */
  ghost predicate Fetches(fetch: seq<string>, sources: map<string, Fragment>) {
    NoDups(fetch) && forall p :: p in fetch <==> p in sources
  }

  datatype Answer = NotReady | NotFound | Failed | Config(config: Fragment)

  /** The object is in the validated config, and some source defines it. */
  ghost predicate Known(root: Rule, config: Fragment, sources: map<string, Fragment>, kind: string, id: string) {
    Lookup(root, config, kind, id).Some? && exists p :: Defines(root, sources, kind, id, p)
  }

  /** The same, of the config and the sources themselves. */
  ghost predicate Held(root: Rule, config: Fragment, sources: map<string, Fragment>, kind: string, id: string) {
    HasSome(root, config, kind, id) && exists p :: Contributes(root, sources, kind, id, p)
  }

  lemma KnownIsHeld(root: Rule, config: Fragment, sources: map<string, Fragment>, kind: string, id: string)
    ensures Known(root, config, sources, kind, id) <==> Held(root, config, sources, kind, id)
  {
    LookupIs(root, config, kind, id);
    forall p ensures Defines(root, sources, kind, id, p) <==> Contributes(root, sources, kind, id, p) {
      DefinesIs(root, sources, kind, id, p);
    }
    if p :| Defines(root, sources, kind, id, p) {
      assert Contributes(root, sources, kind, id, p);
    }
    if p :| Contributes(root, sources, kind, id, p) {
      assert Defines(root, sources, kind, id, p);
    }
  }

  /** The merge of the sources that define an object. */
  ghost predicate MergesDefiners(r: Answer, root: Rule, sources: map<string, Fragment>, kind: string, id: string) {
    exists paths :: ListsDefiners(paths, root, sources, kind, id) && AnswerOf(MergeAll(Datas(sources, paths), root)) == r
  }

  function AnswerOf(merged: Result<Fragment>): Answer {
    match merged
    case Ok(config) => Config(config)
    case Err => Failed
  }

  /** The answer holds the object of the full merge, up to list order. */
  ghost predicate HoldsObject(r: Answer, root: Rule, sources: map<string, Fragment>, fetch: seq<string>, kind: string, id: string)
    requires kind in root.children && MergeAll(Datas(sources, fetch), root).Ok?
  {
    && r.Config?
    && EquivOpt(Lookup(root, r.config, kind, id), Lookup(root, MergeAll(Datas(sources, fetch), root).value, kind, id),
                EntryRule(root.children[kind], true, id))
  }

  /** What the recorder keeps for one gateway. */
  class Instance {
    var snippets: map<string, Fragment>
    var index: Option<Descriptors>
    /** The config that was validated last and could be parsed. */
    ghost var config: Fragment

    ghost predicate Valid()
      reads this
    {
      index.Some? ==> Describes(index.value, Compiler.DefaultMergingRules(), config, snippets)
    }

    constructor ()
      ensures Valid() && index.None?
    {
      snippets, index, config := map[], None, Null;
    }

    /** Indexes the sources and describes the validated config, if it can be parsed. */
    method Commit(parsed: Result<Fragment>, sources: map<string, Fragment>)
      requires Valid()
      modifies this
      ensures Valid()
      ensures parsed.Err? ==> snippets == old(snippets) && index == old(index) && config == old(config)
      ensures parsed.Ok? ==> snippets == sources && index.Some? && config == parsed.value
    {
      if parsed.Err? {
        return;
      }
      var root := Compiler.DefaultMergingRules();
      var sourceIndex := IndexSnippets(root, sources);
      var descriptions := DescribeConfigs(root, parsed.value, sourceIndex);
      DescribedIsRight(root, parsed.value, sourceIndex, sources);
      snippets, index, config := sources, Some(descriptions), parsed.value;
    }

    /**
     Serves one object: nothing is found if and only if the validated config does not
     hold it or no source defines it; otherwise the answer is the merge of exactly the
     sources that define it, which holds the object that a merge of all sources holds.
     */
    method GetConfig(kind: string, id: string) returns (r: Answer)
      requires Valid()
      ensures r.NotReady? <==> index.None?
      ensures r.NotFound? <==> index.Some? && !Known(Compiler.DefaultMergingRules(), config, snippets, kind, id)
      ensures r.NotFound? <==> index.Some? && !Held(Compiler.DefaultMergingRules(), config, snippets, kind, id)
      ensures r.Config? || r.Failed? ==> MergesDefiners(r, Compiler.DefaultMergingRules(), snippets, kind, id)
      ensures r.Config? || r.Failed? ==> kind in Compiler.DefaultMergingRules().children
      ensures r.Config? || r.Failed? ==>
                forall fetch | Fetches(fetch, snippets) && MergeAll(Datas(snippets, fetch), Compiler.DefaultMergingRules()).Ok? ::
                  HoldsObject(r, Compiler.DefaultMergingRules(), snippets, fetch, kind, id)
    {
      ghost var root := Compiler.DefaultMergingRules();
      if index.None? {
        return NotReady;
      }
      LookupIsHas(root, config, kind, id);
      KnownIsHeld(root, config, snippets, kind, id);
      if kind !in index.value || |index.value[kind]| == 0 {
        return NotFound;
      }
      if id !in index.value[kind] {
        return NotFound;
      }
      var paths := index.value[kind][id].paths;
      if |paths| == 0 {
        return NotFound;
      }
      assert paths[0] in paths;
      var result := MergeSources(snippets, paths);
      forall fetch | Fetches(fetch, snippets) && MergeAll(Datas(snippets, fetch), root).Ok?
        ensures MergeAll(Datas(snippets, paths), root).Ok? && HoldsObject(AnswerOf(result), root, snippets, fetch, kind, id)
      {
        SliceInAnyOrder(root, snippets, fetch, kind, id, paths);
      }
      r := if result.Ok? then Config(result.value) else Failed;
    }
  }

  lemma DescribedIsRight(root: Rule, config: Fragment, index: SourceIndex, sources: map<string, Fragment>)
    requires forall kind, id :: ListsDefiners(Listed(index, kind, id), root, sources, kind, id)
    ensures Describes(Described(root, config, index), root, config, sources)
  {}

  lemma LookupIsHas(root: Rule, data: Fragment, kind: string, id: string)
    ensures Lookup(root, data, kind, id).Some? <==> Has(TreeOf(root, data), kind, id)
    ensures kind in TreeOf(root, data) ==> kind in root.children
  {}

  /** The loop that selects the listed sources, and their merge. */
  method MergeSources(snippets: map<string, Fragment>, paths: seq<string>) returns (result: Result<Fragment>)
    ensures result == MergeAll(Datas(snippets, paths), Compiler.DefaultMergingRules())
  {
    var selection: seq<Fragment> := [];
    for i := 0 to |paths|
      invariant selection == Datas(snippets, paths[..i])
    {
      assert paths[..i + 1][..i] == paths[..i];
      if paths[i] in snippets {
        selection := selection + [snippets[paths[i]]];
      }
    }
    assert paths[..|paths|] == paths;
    result := Compiler.Merge(selection);
  }
}
