/**
 Which sources contribute to an object, and what is left when only those are
 merged. An object is a kind (a key of the root rule) and an id.
 */
module Provenance {
  import opened Trees
  import opened MergeRules
  import opened MergeFacts
  import opened Compatibility
  import opened Equivalence
  import opened Fragments

  // ---------- The objects of a fragment ----------

  /** The maps of a list by id; the last one with an id wins. */
  function ById(items: seq<Tree>, idAttr: string): map<string, Tree>
    decreases |items|
  {
    if items == [] then map[]
    else
      var item, before := items[|items| - 1], ById(items[..|items| - 1], idAttr);
      if item.Map? && idAttr in item.m && AsString(item.m[idAttr]).Some? then
        before[AsString(item.m[idAttr]).value := item]
      else before
  }

  /** The objects under one key; `None` when the key is not of a kind that holds objects. */
  function Objects(child: Rule, val: Tree): Option<map<string, Tree>> {
    match (child.kind, val)
    case (ListKind, List(items)) => Some(ById(items, child.idAttr))
    case (SetKind, Map(m)) => Some(map k | k in m && m[k].Map? :: m[k])
    case _ => None
  }

  function DataOf(data: Fragment): map<string, Tree> {
    if data.Map? then data.m else map[]
  }

  function TreeOf(root: Rule, data: Fragment): map<string, map<string, Tree>> {
    var d := DataOf(data);
    map kind | kind in d && kind in root.children && Objects(root.children[kind], d[kind]).Some? ::
      Objects(root.children[kind], d[kind]).value
  }

  /** The object (kind, id) that a fragment defines, if any. */
  function Lookup(root: Rule, data: Fragment, kind: string, id: string): Option<Tree> {
    var tree := TreeOf(root, data);
    if kind in tree then Get(tree[kind], id) else None
  }

  /** The same, from the value under the kind's key. */
  function Find(child: Rule, val: Option<Tree>, id: string): Option<Tree> {
    if val.Some? && Objects(child, val.value).Some? then Get(Objects(child, val.value).value, id) else None
  }

  lemma LookupIsFind(root: Rule, data: Fragment, kind: string, id: string)
    ensures Lookup(root, data, kind, id)
         == if kind in root.children then Find(root.children[kind], Get(DataOf(data), kind), id) else None
  {}

  lemma ByIdIsIndex(items: seq<Tree>, rule: Rule)
    requires IndexList(items, rule).Ok?
    ensures ById(items, rule.idAttr) == IndexList(items, rule).value.items
    decreases |items|
  {
    if items != [] {
      ByIdIsIndex(items[..|items| - 1], rule);
    }
  }

  // ---------- Looking up is a homomorphism ----------

  lemma FindOfMerged(child: Rule, x: Tree, y: Tree, id: string)
    requires Apply(x, y, child).Ok?
    ensures EntryOpt(child, true, id, Find(child, Some(x), id), Find(child, Some(y), id))
         == Ok(Find(child, Some(Apply(x, y, child).value), id))
  {
    if child.kind == ListKind && x.List? && y.List? {
      FindInList(child, x.items, y.items, id);
    } else if child.kind == SetKind && x.Map? && y.Map? {
      FindInSet(child, x.m, y.m, id);
    }
  }

  lemma FindInList(child: Rule, x: seq<Tree>, y: seq<Tree>, id: string)
    requires child.kind == ListKind && MergeLists(x, y, child).Ok?
    ensures EntryOpt(child, true, id, Find(child, Some(List(x)), id), Find(child, Some(List(y)), id))
         == Ok(Find(child, Some(MergeLists(x, y, child).value), id))
  {
    IndexOfMerged(x, y, child);
    ByIdIsIndex(x, child);
    ByIdIsIndex(y, child);
    ByIdIsIndex(MergeLists(x, y, child).value.items, child);
    var li, ri := IndexList(x, child).value.items, IndexList(y, child).value.items;
    EntriesPointwise(li, ri, child, true);
    assert EntryAt(li, ri, child, true, id) == Ok(Get(MergeEntries(li, ri, child, true).value, id));
  }

  lemma FindInSet(child: Rule, x: map<string, Tree>, y: map<string, Tree>, id: string)
    requires child.kind == SetKind && MergeMaps(x, y, child).Ok?
    ensures EntryOpt(child, true, id, Find(child, Some(Map(x)), id), Find(child, Some(Map(y)), id))
         == Ok(Find(child, Some(MergeMaps(x, y, child).value), id))
  {
    MergeMapsByEntries(x, y, child);
    MergedAllMaps(x, y, child);
    EntriesPointwise(x, y, child, true);
    assert EntryAt(x, y, child, true, id) == Ok(Get(MergeEntries(x, y, child, true).value, id));
  }

  /** The object in a merge is the merge of the objects in its two parts. */
  lemma LookupOfMerged(a: Fragment, b: Fragment, root: Rule, kind: string, id: string)
    requires root.kind == MapKind && kind in root.children
    requires Apply(a, b, root).Ok?
    ensures Apply(a, b, root).value.Null? || Apply(a, b, root).value.Map?
    ensures EntryOpt(root.children[kind], true, id, Lookup(root, a, kind, id), Lookup(root, b, kind, id))
         == Ok(Lookup(root, Apply(a, b, root).value, kind, id))
  {
    var child := root.children[kind];
    LookupIsFind(root, a, kind, id);
    LookupIsFind(root, b, kind, id);
    if a.Map? && b.Map? {
      MergeMapsByEntries(a.m, b.m, root);
      EntriesPointwise(a.m, b.m, root, false);
      var m := MergeEntries(a.m, b.m, root, false).value;
      LookupIsFind(root, Map(m), kind, id);
      assert EntryAt(a.m, b.m, root, false, kind) == Ok(Get(m, kind));
      if kind in a.m && kind in b.m {
        FindOfMerged(child, NormID(root, false, kind, a.m[kind]), NormID(root, false, kind, b.m[kind]), id);
      }
    }
  }

  // ---------- The index of sources ----------

  /** The fragments of the given sources, in the given order; unknown sources are skipped. */
  function Datas(sources: map<string, Fragment>, paths: seq<string>): seq<Fragment>
    decreases |paths|
  {
    if paths == [] then []
    else
      var last := paths[|paths| - 1];
      Datas(sources, paths[..|paths| - 1]) + if last in sources then [sources[last]] else []
  }

  predicate Defines(root: Rule, sources: map<string, Fragment>, kind: string, id: string, path: string) {
    path in sources && Lookup(root, sources[path], kind, id).Some?
  }

  /** The sources among `paths` that define the object, in the order of `paths`. */
  function Definers(root: Rule, sources: map<string, Fragment>, kind: string, id: string, paths: seq<string>): seq<string>
    decreases |paths|
  {
    if paths == [] then []
    else
      var last := paths[|paths| - 1];
      Definers(root, sources, kind, id, paths[..|paths| - 1])
        + if Defines(root, sources, kind, id, last) then [last] else []
  }

  lemma DefinersAre(root: Rule, sources: map<string, Fragment>, kind: string, id: string, paths: seq<string>)
    ensures forall p :: p in Definers(root, sources, kind, id, paths) <==> p in paths && Defines(root, sources, kind, id, p)
    ensures NoDups(paths) ==> NoDups(Definers(root, sources, kind, id, paths))
    decreases |paths|
  {
    if paths != [] {
      var init, last := paths[..|paths| - 1], paths[|paths| - 1];
      assert paths == init + [last];
      DefinersAre(root, sources, kind, id, init);
      if NoDups(paths) {
        NoDupsSnoc(init, last);
        DisjointNoDups(Definers(root, sources, kind, id, init), [last]);
      }
    }
  }

  lemma DatasAre(sources: map<string, Fragment>, paths: seq<string>)
    ensures forall t :: t in Datas(sources, paths) <==> exists p :: p in paths && p in sources && sources[p] == t
    decreases |paths|
  {
    if paths != [] {
      var init, last := paths[..|paths| - 1], paths[|paths| - 1];
      assert forall p :: p in paths <==> p in init || p == last;
      DatasAre(sources, init);
    }
  }

  /** The fragments of known sources, position by position. */
  lemma {:induction false} DatasAt(sources: map<string, Fragment>, paths: seq<string>)
    requires forall p | p in paths :: p in sources
    ensures |Datas(sources, paths)| == |paths|
    ensures forall i | 0 <= i < |paths| :: Datas(sources, paths)[i] == sources[paths[i]]
    decreases |paths|
  {
    if paths != [] {
      DatasAt(sources, paths[..|paths| - 1]);
      assert paths[|paths| - 1] in paths;
    }
  }

  /** The positions of the definers among `paths`, in order. */
  ghost predicate DefinerPositions(at: seq<nat>, root: Rule, sources: map<string, Fragment>, kind: string, id: string, paths: seq<string>) {
    && (forall i, j | 0 <= i < j < |at| :: at[i] < at[j])
    && (forall p :: p in at <==> DefinesAt(root, sources, kind, id, paths, p))
  }

  predicate DefinesAt(root: Rule, sources: map<string, Fragment>, kind: string, id: string, paths: seq<string>, p: int) {
    0 <= p < |paths| && Defines(root, sources, kind, id, paths[p])
  }

  lemma DefinerPositionsSnoc(at: seq<nat>, root: Rule, sources: map<string, Fragment>, kind: string, id: string, paths: seq<string>)
    requires paths != [] && DefinerPositions(at, root, sources, kind, id, paths[..|paths| - 1])
    ensures var n := |paths| - 1;
            DefinerPositions(if Defines(root, sources, kind, id, paths[n]) then at + [n] else at, root, sources, kind, id, paths)
  {
    hide Defines;
    var n, init := |paths| - 1, paths[..|paths| - 1];
    var after := if Defines(root, sources, kind, id, paths[n]) then at + [n] else at;
    forall p ensures p in after <==> DefinesAt(root, sources, kind, id, paths, p) {
      assert p in at <==> DefinesAt(root, sources, kind, id, init, p);
    }
    forall i | 0 <= i < |at| ensures at[i] < n {
      assert at[i] in at;
      assert DefinesAt(root, sources, kind, id, init, at[i]);
    }
  }

  /** The definers are those of `paths`, each where it was, in order. */
  lemma {:induction false} DefinersAt(root: Rule, sources: map<string, Fragment>, kind: string, id: string, paths: seq<string>)
    returns (at: seq<nat>)
    ensures DefinerPositions(at, root, sources, kind, id, paths)
    ensures |Definers(root, sources, kind, id, paths)| == |at|
    ensures forall i | 0 <= i < |at| :: at[i] < |paths| && Definers(root, sources, kind, id, paths)[i] == paths[at[i]]
    decreases |paths|
  {
    hide Defines, DefinerPositions;
    at := [];
    if paths == [] {
      NoDefiners(root, sources, kind, id);
    } else {
      var n, init := |paths| - 1, paths[..|paths| - 1];
      var before := DefinersAt(root, sources, kind, id, init);
      DefinerPositionsSnoc(before, root, sources, kind, id, paths);
      at := if Defines(root, sources, kind, id, paths[n]) then before + [n] else before;
    }
  }

  lemma NoDefiners(root: Rule, sources: map<string, Fragment>, kind: string, id: string)
    ensures DefinerPositions([], root, sources, kind, id, [])
  {}

  lemma DatasSnoc(sources: map<string, Fragment>, paths: seq<string>, last: string)
    requires last in sources
    ensures Datas(sources, paths + [last]) == Datas(sources, paths) + [sources[last]]
  {
    assert (paths + [last])[..|paths|] == paths;
  }

  lemma DatasOfConcat(sources: map<string, Fragment>, u: seq<string>, v: seq<string>)
    ensures Datas(sources, u + v) == Datas(sources, u) + Datas(sources, v)
    decreases |v|
  {
    if v == [] {
      assert u + v == u;
    } else {
      assert (u + v)[..|u + v| - 1] == u + v[..|v| - 1];
      DatasOfConcat(sources, u, v[..|v| - 1]);
    }
  }

  // ---------- Slicing, in fetch order ----------

  /** A fragment that merges after all of `paths` merges after their definers alone. */
  lemma DefinersMerge(root: Rule, sources: map<string, Fragment>, paths: seq<string>, kind: string, id: string, data: Fragment)
    requires MergeAll(Datas(sources, paths), root).Ok?
    requires Apply(MergeAll(Datas(sources, paths), root).value, data, root).Ok?
    requires MergeAll(Datas(sources, Definers(root, sources, kind, id, paths)), root).Ok?
    ensures Apply(MergeAll(Datas(sources, Definers(root, sources, kind, id, paths)), root).value, data, root).Ok?
  {
    var slice := Definers(root, sources, kind, id, paths);
    var all, some := Datas(sources, paths), Datas(sources, slice);
    PrefixCompatible(all, data, root);
    PrefixCompatible(some, data, root);
    DatasAre(sources, paths);
    DatasAre(sources, slice);
    DefinersAre(root, sources, kind, id, paths);
    forall i | 0 <= i < |some| ensures Apply(some[i], data, root).Ok? {
      assert some[i] in some;
      assert some[i] in all;
    }
  }

  /** What is kept when merging only the definers of an object among `fetch`. */
  ghost predicate Keeps(root: Rule, sources: map<string, Fragment>, fetch: seq<string>, kind: string, id: string)
    requires MergeAll(Datas(sources, fetch), root).Ok?
  {
    var slice := MergeAll(Datas(sources, Definers(root, sources, kind, id, fetch)), root);
    slice.Ok? && Lookup(root, slice.value, kind, id) == Lookup(root, MergeAll(Datas(sources, fetch), root).value, kind, id)
  }

  lemma {:induction false} SliceStep(root: Rule, sources: map<string, Fragment>, init: seq<string>, last: string, kind: string, id: string)
    requires root.kind == MapKind && kind in root.children && last in sources
    requires MergeAll(Datas(sources, init + [last]), root).Ok? && MergeAll(Datas(sources, init), root).Ok?
    requires Keeps(root, sources, init, kind, id)
    ensures Keeps(root, sources, init + [last], kind, id)
  {
    var data, all := sources[last], init + [last];
    var before := Definers(root, sources, kind, id, init);
    assert all[..|all| - 1] == init;
    DatasSnoc(sources, init, last);
    MergeAllSnoc(Datas(sources, init), data, root);
    LookupOfMerged(MergeAll(Datas(sources, init), root).value, data, root, kind, id);
    if Defines(root, sources, kind, id, last) {
      assert Definers(root, sources, kind, id, all) == before + [last];
      DatasSnoc(sources, before, last);
      MergeAllSnoc(Datas(sources, before), data, root);
      DefinersMerge(root, sources, init, kind, id, data);
      LookupOfMerged(MergeAll(Datas(sources, before), root).value, data, root, kind, id);
    } else {
      assert Definers(root, sources, kind, id, all) == before;
    }
  }

  /** Merging only the defining sources, in fetch order, keeps the object exactly. */
  lemma {:induction false} SliceInOrder(root: Rule, sources: map<string, Fragment>, fetch: seq<string>, kind: string, id: string)
    requires root.kind == MapKind && kind in root.children
    requires MergeAll(Datas(sources, fetch), root).Ok?
    ensures Keeps(root, sources, fetch, kind, id)
    decreases |fetch|
  {
    if fetch == [] {
      assert Definers(root, sources, kind, id, fetch) == fetch;
    } else {
      var init, last := fetch[..|fetch| - 1], fetch[|fetch| - 1];
      assert fetch == init + [last];
      if last in sources {
        DatasSnoc(sources, init, last);
        MergeAllSnoc(Datas(sources, init), sources[last], root);
        SliceInOrder(root, sources, init, kind, id);
        SliceStep(root, sources, init, last, kind, id);
      } else {
        assert Datas(sources, fetch) == Datas(sources, init);
        assert Definers(root, sources, kind, id, fetch) == Definers(root, sources, kind, id, init);
        SliceInOrder(root, sources, init, kind, id);
      }
    }
  }

  // ---------- Slicing, in any order ----------

  ghost predicate EquivOpt(x: Option<Tree>, y: Option<Tree>, rule: Rule) {
    x.Some? == y.Some? && (x.Some? ==> Equiv(x.value, y.value, rule))
  }

  lemma FindEquiv(child: Rule, x: Tree, y: Tree, id: string)
    requires Equiv(x, y, child)
    ensures EquivOpt(Find(child, Some(x), id), Find(child, Some(y), id), EntryRule(child, true, id))
  {
    if x != y && x.List? && child.kind == ListKind {
      EquivListsItems(x.items, y.items, child);
      ByIdIsIndex(x.items, child);
      ByIdIsIndex(y.items, child);
    } else if x != y && x.Map? && child.kind == SetKind {
      assert EquivEntries(x.m, y.m, child, true);
      assert id in x.m ==> Equiv(x.m[id], y.m[id], EntryRule(child, true, id));
    }
  }

  /** Equivalent trees hold equivalent objects. */
  lemma LookupEquiv(m: Fragment, n: Fragment, root: Rule, kind: string, id: string)
    requires root.kind == MapKind && kind in root.children
    requires Equiv(m, n, root)
    ensures EquivOpt(Lookup(root, m, kind, id), Lookup(root, n, kind, id), EntryRule(root.children[kind], true, id))
  {
    LookupIsFind(root, m, kind, id);
    LookupIsFind(root, n, kind, id);
    if m != n {
      assert EquivEntries(m.m, n.m, root, false);
      if kind in m.m {
        FindEquiv(root.children[kind], m.m[kind], n.m[kind], id);
      }
    }
  }

  lemma NoDupsCount(s: seq<string>)
    requires NoDups(s)
    ensures forall x :: multiset(s)[x] == if x in s then 1 else 0
    decreases |s|
  {
    if s != [] {
      var init, last := s[..|s| - 1], s[|s| - 1];
      assert s == init + [last];
      NoDupsSnoc(init, last);
      NoDupsCount(init);
    }
  }

  lemma SameIds(s: seq<string>, t: seq<string>)
    requires NoDups(s) && NoDups(t) && forall x :: x in s <==> x in t
    ensures multiset(s) == multiset(t)
  {
    NoDupsCount(s);
    NoDupsCount(t);
  }

  lemma PermutedDatas(sources: map<string, Fragment>, p: seq<string>, q: seq<string>)
    requires multiset(p) == multiset(q)
    ensures multiset(Datas(sources, p)) == multiset(Datas(sources, q))
    decreases |p|
  {
    if p == [] {
      assert |multiset(q)| == 0;
    } else {
      var init, last := p[..|p| - 1], p[|p| - 1];
      assert p == init + [last];
      var u, w := FindLast(p, q);
      PermutedDatas(sources, init, u + w);
      DatasOfConcat(sources, init, [last]);
      DatasOfConcat(sources, u + [last], w);
      DatasOfConcat(sources, u, [last]);
      DatasOfConcat(sources, u, w);
    }
  }

  /**
   The sources that define an object, listed once each in any order, merge, and hold
   an equivalent object under its id; in fetch order they hold the same object.
   */
  lemma SliceInAnyOrder(root: Rule, sources: map<string, Fragment>, fetch: seq<string>, kind: string, id: string, paths: seq<string>)
    requires root.kind == MapKind && kind in root.children
    requires NoDups(fetch) && forall p :: p in fetch <==> p in sources
    requires MergeAll(Datas(sources, fetch), root).Ok?
    requires NoDups(paths) && forall p :: p in paths <==> Defines(root, sources, kind, id, p)
    ensures MergeAll(Datas(sources, paths), root).Ok?
    ensures EquivOpt(Lookup(root, MergeAll(Datas(sources, paths), root).value, kind, id),
                     Lookup(root, MergeAll(Datas(sources, fetch), root).value, kind, id),
                     EntryRule(root.children[kind], true, id))
  {
    var slice := Definers(root, sources, kind, id, fetch);
    SliceInOrder(root, sources, fetch, kind, id);
    DefinersAre(root, sources, kind, id, fetch);
    SameIds(paths, slice);
    PermutedDatas(sources, paths, slice);
    OrderIrrelevant(Datas(sources, paths), Datas(sources, slice), root);
    LookupEquiv(MergeAll(Datas(sources, paths), root).value, MergeAll(Datas(sources, slice), root).value, root, kind, id);
  }
}
