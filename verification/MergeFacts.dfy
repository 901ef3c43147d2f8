/**
 Facts shared by the theorems about merging: `MergeEntries` is pointwise, the id
 of an item survives a merge, and a list that was rendered from an index indexes
 back to it.
 */
module MergeFacts {
  import opened Trees
  import opened MergeRules

  // ---------- Entry by entry ----------

  /** `EntryOpt` on results, failing when either side failed. */
  function EntryRes(rule: Rule, keyed: bool, k: string, x: Result<Option<Tree>>, y: Result<Option<Tree>>): Result<Option<Tree>> {
    if x.Ok? && y.Ok? then EntryOpt(rule, keyed, k, x.value, y.value) else Err
  }

  /** The merged value of the one entry `k`. */
  function EntryAt(l: map<string, Tree>, r: map<string, Tree>, rule: Rule, keyed: bool, k: string): Result<Option<Tree>> {
    EntryOpt(rule, keyed, k, Get(l, k), Get(r, k))
  }

  lemma EntriesPointwise(l: map<string, Tree>, r: map<string, Tree>, rule: Rule, keyed: bool)
    ensures MergeEntries(l, r, rule, keyed).Ok? <==> forall k :: EntryAt(l, r, rule, keyed, k).Ok?
    ensures MergeEntries(l, r, rule, keyed).Ok? ==>
              && MergeEntries(l, r, rule, keyed).value.Keys == l.Keys + r.Keys
              && forall k :: EntryAt(l, r, rule, keyed, k) == Ok(Get(MergeEntries(l, r, rule, keyed).value, k))
  {
    if forall k :: EntryAt(l, r, rule, keyed, k).Ok? {
      forall k | k in l && k in r ensures Entry(rule, keyed, k, l[k], r[k]).Ok? {
        assert EntryAt(l, r, rule, keyed, k).Ok?;
      }
    }
  }

  /** The merged value of every entry, tabulated so that a loop can refer to it by key. */
  ghost predicate Tabulates(spec: map<string, Result<Option<Tree>>>,
                            l: map<string, Tree>, r: map<string, Tree>, rule: Rule, keyed: bool) {
    && spec.Keys == l.Keys + r.Keys
    && forall k {:trigger EntryAt(l, r, rule, keyed, k)} :: k in spec ==> spec[k] == EntryAt(l, r, rule, keyed, k)
  }

  lemma Tabulate(l: map<string, Tree>, r: map<string, Tree>, rule: Rule, keyed: bool)
    returns (spec: map<string, Result<Option<Tree>>>)
    ensures Tabulates(spec, l, r, rule, keyed)
  {
    spec := map k | k in l.Keys + r.Keys :: EntryAt(l, r, rule, keyed, k);
  }

  lemma OneSidedEntries(spec: map<string, Result<Option<Tree>>>,
                        l: map<string, Tree>, r: map<string, Tree>, rule: Rule, keyed: bool)
    requires Tabulates(spec, l, r, rule, keyed)
    ensures forall k | k in l && k !in r :: spec[k] == Ok(Some(l[k]))
    ensures forall k | k in r && k !in l :: spec[k] == Ok(Some(r[k]))
  {
    forall k | k in l && k !in r ensures spec[k] == Ok(Some(l[k])) {
      assert spec[k] == EntryAt(l, r, rule, keyed, k);
    }
    forall k | k in r && k !in l ensures spec[k] == Ok(Some(r[k])) {
      assert spec[k] == EntryAt(l, r, rule, keyed, k);
    }
  }

  lemma EntriesMerge(spec: map<string, Result<Option<Tree>>>,
                     l: map<string, Tree>, r: map<string, Tree>, rule: Rule, keyed: bool, m: map<string, Tree>)
    requires Tabulates(spec, l, r, rule, keyed)
    requires m.Keys == spec.Keys && forall k | k in m :: spec[k] == Ok(Some(m[k]))
    ensures MergeEntries(l, r, rule, keyed) == Ok(m)
  {
    forall k ensures EntryAt(l, r, rule, keyed, k) == Ok(Get(m, k)) {}
    EntriesPointwise(l, r, rule, keyed);
    MapsEqual(m, MergeEntries(l, r, rule, keyed).value);
  }

  lemma EntryFails(l: map<string, Tree>, r: map<string, Tree>, rule: Rule, keyed: bool, k: string)
    requires EntryAt(l, r, rule, keyed, k) == Err
    ensures MergeEntries(l, r, rule, keyed) == Err
  {
    EntriesPointwise(l, r, rule, keyed);
  }

  /** Two maps with the same entries are the same map. */
  lemma MapsEqual(m: map<string, Tree>, n: map<string, Tree>)
    requires forall k :: Get(m, k) == Get(n, k)
    ensures m == n
  {
    forall k ensures k in m <==> k in n {
      assert Get(m, k) == Get(n, k);
    }
    forall k | k in m ensures m[k] == n[k] {
      assert Get(m, k) == Get(n, k);
    }
  }

  /** Merging two normalised values gives a normalised value. */
  lemma NormOfMerged(rule: Rule, keyed: bool, k: string, x: Tree, y: Tree, inner: Rule)
    ensures NormID(rule, keyed, k, NormID(rule, keyed, k, x)) == NormID(rule, keyed, k, x)
    ensures var r := Apply(NormID(rule, keyed, k, x), NormID(rule, keyed, k, y), inner);
            r.Ok? ==> NormID(rule, keyed, k, r.value) == r.value
  {}

  /** The merge of two maps is a map, of two lists a list, of two leaves a leaf. */
  lemma ShapeOfMerged(x: Tree, y: Tree, rule: Rule)
    requires Apply(x, y, rule).Ok?
    ensures x.Map? && y.Map? ==> Apply(x, y, rule).value.Map?
    ensures x.Map? && y.Null? ==> Apply(x, y, rule).value.Map?
    ensures !x.Null? ==> Apply(x, y, rule).value.List? == x.List? && Apply(x, y, rule).value.Map? == x.Map?
  {}

  // ---------- Keyed lists ----------

  predicate HasID(item: Tree, rule: Rule, id: string) {
    item.Map? && ExtractID(item.m, rule) == Ok(Some(id))
  }

  predicate Anonymous(item: Tree, rule: Rule) {
    item.Map? && ExtractID(item.m, rule) == Ok(None)
  }

  ghost predicate NoDups(s: seq<string>) {
    forall i, j | 0 <= i < j < |s| :: s[i] != s[j]
  }

  /** What an index of a list under `rule` satisfies. */
  ghost predicate WellFormed(ix: Index, rule: Rule) {
    && (forall id :: id in ix.order <==> id in ix.items)
    && NoDups(ix.order)
    && (forall id | id in ix.items :: HasID(ix.items[id], rule, id))
    && (forall t | t in ix.tail :: Anonymous(t, rule))
  }

  lemma IndexWellFormed(items: seq<Tree>, rule: Rule)
    requires IndexList(items, rule).Ok?
    ensures WellFormed(IndexList(items, rule).value, rule)
    decreases |items|
  {
    if items != [] {
      IndexWellFormed(items[..|items| - 1], rule);
    }
  }

  /** Merging two items with one id under the map form of the rule keeps the id. */
  lemma MergedKeepsID(x: Tree, y: Tree, rule: Rule, id: string)
    requires HasID(x, rule, id) && HasID(y, rule, id)
    requires Apply(x, y, rule.(kind := MapKind)).Ok?
    ensures HasID(Apply(x, y, rule.(kind := MapKind)).value, rule, id)
  {
    var inner := rule.(kind := MapKind);
    EntriesPointwise(x.m, y.m, inner, false);
    var k, merged := rule.idAttr, MergeEntries(x.m, y.m, inner, false).value;
    assert EntryAt(x.m, y.m, inner, false, k) == Ok(Get(merged, k));
    assert NormID(inner, false, k, x.m[k]) == Leaf(Str(id));
    assert Entry(inner, false, k, x.m[k], y.m[k]) == Ok(Leaf(Str(id)));
    assert merged[k] == Leaf(Str(id));
  }

  lemma MergeIndexWellFormed(l: Index, r: Index, rule: Rule)
    requires WellFormed(l, rule) && WellFormed(r, rule)
    requires MergeIndex(l, r, rule).Ok?
    ensures WellFormed(MergeIndex(l, r, rule).value, rule)
  {
    FreshNoDups(r.order, l.order);
    FreshIds(r.order, l.order);
    DisjointNoDups(l.order, Fresh(r.order, l.order));
    var ix := MergeIndex(l, r, rule).value;
    forall id | id in ix.items ensures HasID(ix.items[id], rule, id) {
      MergedItemHasID(l, r, rule, id);
    }
    assert WellFormed(ix, rule);
  }

  lemma MergedItemHasID(l: Index, r: Index, rule: Rule, id: string)
    requires WellFormed(l, rule) && WellFormed(r, rule)
    requires MergeIndex(l, r, rule).Ok? && id in MergeIndex(l, r, rule).value.items
    ensures HasID(MergeIndex(l, r, rule).value.items[id], rule, id)
  {
    EntriesPointwise(l.items, r.items, rule, true);
    var m := MergeIndex(l, r, rule).value.items;
    assert EntryAt(l.items, r.items, rule, true, id) == Ok(Get(m, id));
    if id in l.items && id in r.items {
      MergedKeepsID(l.items[id], r.items[id], rule, id);
    }
  }

  lemma DisjointNoDups(s: seq<string>, t: seq<string>)
    requires NoDups(s) && NoDups(t) && forall x | x in t :: x !in s
    ensures NoDups(s + t)
  {
    forall i, j | 0 <= i < j < |s + t| ensures (s + t)[i] != (s + t)[j] {
      if i < |s| <= j {
        assert s[i] in s && t[j - |s|] in t;
      }
    }
  }

  lemma FreshIds(order: seq<string>, seen: seq<string>)
    ensures forall id :: id in Fresh(order, seen) <==> id in order && id !in seen
    decreases |order|
  {
    if order != [] {
      FreshIds(order[..|order| - 1], seen);
    }
  }

  lemma FreshNoDups(order: seq<string>, seen: seq<string>)
    requires NoDups(order)
    ensures NoDups(Fresh(order, seen))
    decreases |order|
  {
    if order != [] {
      var init := order[..|order| - 1];
      FreshNoDups(init, seen);
      FreshIds(init, seen);
      assert order[|order| - 1] !in init;
      assert order[|order| - 1] !in Fresh(init, seen);
    }
  }

  lemma IndexSnoc(items: seq<Tree>, ix: Index, item: Tree, rule: Rule)
    requires IndexList(items, rule) == Ok(ix)
    ensures IndexList(items + [item], rule) == AddItem(ix, item, rule)
  {
    assert (items + [item])[..|items|] == items;
  }

  lemma {:induction false} IndexOfTail(items: seq<Tree>, ix: Index, tail: seq<Tree>, rule: Rule)
    requires IndexList(items, rule) == Ok(ix)
    requires forall t | t in tail :: Anonymous(t, rule)
    ensures IndexList(items + tail, rule) == Ok(ix.(tail := ix.tail + tail))
    decreases |tail|
  {
    if tail == [] {
      assert items + tail == items;
      assert ix.tail + tail == ix.tail;
    } else {
      var init, last := tail[..|tail| - 1], tail[|tail| - 1];
      assert tail == init + [last] && last in tail;
      IndexOfTail(items, ix, init, rule);
      IndexSnoc(items + init, ix.(tail := ix.tail + init), last, rule);
      assert items + tail == (items + init) + [last];
      assert ix.tail + tail == (ix.tail + init) + [last];
    }
  }

  function Restrict(items: map<string, Tree>, order: seq<string>): map<string, Tree> {
    map id | id in items && id in order :: items[id]
  }

  lemma RestrictSnoc(items: map<string, Tree>, init: seq<string>, last: string)
    requires last in items
    ensures Restrict(items, init + [last]) == Restrict(items, init)[last := items[last]]
  {
    forall id ensures id in init + [last] <==> id in init || id == last {}
  }

  lemma NoDupsSnoc(init: seq<string>, last: string)
    requires NoDups(init + [last])
    ensures NoDups(init) && last !in init
  {
    var s := init + [last];
    forall i, j | 0 <= i < j < |init| ensures init[i] != init[j] {
      assert s[i] == init[i] && s[j] == init[j];
    }
    forall i | 0 <= i < |init| ensures init[i] != last {
      assert s[i] == init[i] && s[|init|] == last;
    }
  }

  lemma {:induction false} IndexOfSelect(order: seq<string>, items: map<string, Tree>, rule: Rule)
    requires NoDups(order)
    requires forall id | id in order :: id in items && HasID(items[id], rule, id)
    ensures IndexList(Select(order, items), rule) == Ok(Index(order, Restrict(items, order), []))
    decreases |order|
  {
    if order == [] {
      assert Restrict(items, order) == map[];
    } else {
      var init, last := order[..|order| - 1], order[|order| - 1];
      assert order == init + [last];
      assert last in order;
      NoDupsSnoc(init, last);
      RestrictSnoc(items, init, last);
      forall id | id in init ensures id in items && HasID(items[id], rule, id) {
        assert id in order;
      }
      IndexOfSelect(init, items, rule);
      IndexSnoc(Select(init, items), Index(init, Restrict(items, init), []), items[last], rule);
    }
  }

  lemma SelectStep(order: seq<string>, i: nat, items: map<string, Tree>)
    requires i < |order| && order[i] in items
    ensures Select(order[..i + 1], items) == Select(order[..i], items) + [items[order[i]]]
  {
    assert order[..i + 1][..i] == order[..i];
  }

  lemma FreshStep(order: seq<string>, i: nat, seen: seq<string>)
    requires i < |order|
    ensures Fresh(order[..i + 1], seen) == Fresh(order[..i], seen) + if order[i] in seen then [] else [order[i]]
  {
    assert order[..i + 1][..i] == order[..i];
  }

  lemma NotYetFresh(order: seq<string>, i: nat, seen: seq<string>)
    requires i < |order| && NoDups(order)
    ensures order[i] !in Fresh(order[..i], seen)
  {
    FreshIds(order[..i], seen);
    assert order[i] !in order[..i];
  }

  lemma SelectOfConcat(s: seq<string>, t: seq<string>, items: map<string, Tree>)
    ensures Select(s + t, items) == Select(s, items) + Select(t, items)
    decreases |t|
  {
    if t == [] {
      assert s + t == s;
    } else {
      assert (s + t)[..|s + t| - 1] == s + t[..|t| - 1];
      SelectOfConcat(s, t[..|t| - 1], items);
    }
  }

  lemma SelectSnoc(order: seq<string>, id: string, items: map<string, Tree>)
    requires id in items
    ensures Select(order + [id], items) == Select(order, items) + [items[id]]
  {
    assert (order + [id])[..|order|] == order;
  }

  /** Indexing undoes rendering. */
  lemma IndexOfRender(ix: Index, rule: Rule)
    requires WellFormed(ix, rule)
    ensures IndexList(Render(ix), rule) == Ok(ix)
  {
    IndexOfSelect(ix.order, ix.items, rule);
    assert Restrict(ix.items, ix.order) == ix.items;
    IndexOfTail(Select(ix.order, ix.items), ix.(tail := []), ix.tail, rule);
    assert [] + ix.tail == ix.tail;
  }

  /** The index of a merged list is the merge of the indexes. */
  lemma IndexOfMerged(l: seq<Tree>, r: seq<Tree>, rule: Rule)
    requires MergeLists(l, r, rule).Ok?
    ensures MergeLists(l, r, rule).value.List?
    ensures IndexList(l, rule).Ok? && IndexList(r, rule).Ok?
    ensures IndexList(MergeLists(l, r, rule).value.items, rule)
         == MergeIndex(IndexList(l, rule).value, IndexList(r, rule).value, rule)
  {
    IndexWellFormed(l, rule);
    IndexWellFormed(r, rule);
    var li, ri := IndexList(l, rule).value, IndexList(r, rule).value;
    MergeIndexWellFormed(li, ri, rule);
    IndexOfRender(MergeIndex(li, ri, rule).value, rule);
  }

  // ---------- Apply, case by case ----------

  /** `Apply` on results, failing when either side failed. */
  function Merge2(x: Result<Tree>, y: Result<Tree>, rule: Rule): Result<Tree> {
    if x.Ok? && y.Ok? then Apply(x.value, y.value, rule) else Err
  }

  function Entries2(l: Result<map<string, Tree>>, r: Result<map<string, Tree>>, rule: Rule, keyed: bool): Result<map<string, Tree>> {
    if l.Ok? && r.Ok? then MergeEntries(l.value, r.value, rule, keyed) else Err
  }

  function Index2(l: Result<Index>, r: Result<Index>, rule: Rule): Result<Index>
  {
    if l.Ok? && r.Ok? then MergeIndex(l.value, r.value, rule) else Err
  }

  function RenderRes(ix: Result<Index>): Result<Tree>
  {
    if ix.Ok? then Ok(List(Render(ix.value))) else Err
  }

  lemma MergeListsByIndex(l: seq<Tree>, r: seq<Tree>, rule: Rule)
    ensures MergeLists(l, r, rule) == RenderRes(Index2(IndexList(l, rule), IndexList(r, rule), rule))
  {}

  lemma ApplyLists(l: seq<Tree>, r: seq<Tree>, rule: Rule)
    requires rule.kind == ListKind
    ensures Apply(List(l), List(r), rule) == MergeLists(l, r, rule)
  {}

  lemma ApplyMaps(l: map<string, Tree>, r: map<string, Tree>, rule: Rule)
    ensures Apply(Map(l), Map(r), rule) == MergeMaps(l, r, rule)
  {}

  predicate SetOperands(l: map<string, Tree>, r: map<string, Tree>, rule: Rule) {
    rule.kind == SetKind ==> AllMaps(l) && AllMaps(r)
  }

  lemma MergeMapsByEntries(l: map<string, Tree>, r: map<string, Tree>, rule: Rule)
    requires rule.kind == MapKind || rule.kind == SetKind
    ensures MergeMaps(l, r, rule)
         == if SetOperands(l, r, rule) && MergeEntries(l, r, rule, rule.kind == SetKind).Ok?
            then Ok(Map(MergeEntries(l, r, rule, rule.kind == SetKind).value)) else Err
  {}

  /** The entries merged under a set rule are maps exactly when both sides' are. */
  lemma MergedAllMaps(l: map<string, Tree>, r: map<string, Tree>, rule: Rule)
    ensures MergeEntries(l, r, rule, true).Ok? && AllMaps(l) && AllMaps(r) ==>
              AllMaps(MergeEntries(l, r, rule, true).value)
  {
    if MergeEntries(l, r, rule, true).Err? || !AllMaps(l) || !AllMaps(r) { return; }
    var m := MergeEntries(l, r, rule, true).value;
    assert forall k | k in m :: EntryAt(l, r, rule, true, k) == Ok(Get(m, k)) by {
      EntriesPointwise(l, r, rule, true);
    }
    forall k | k in m ensures m[k].Map? {
      assert EntryAt(l, r, rule, true, k) == Ok(Get(m, k));
      if k in l && k in r {
        ShapeOfMerged(l[k], r[k], EntryRule(rule, true, k));
      }
    }
  }

  // ---------- Scalar lists ----------

  lemma AddNewItems(output: seq<Tree>, items: seq<Tree>)
    ensures forall t :: t in AddNew(output, items) <==> t in output || t in items
    decreases |items|
  {
    if items != [] {
      AddNewItems(output, items[..|items| - 1]);
    }
  }
}
