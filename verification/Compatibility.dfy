/**
 When a merge succeeds. A merged tree is compatible with a third exactly when
 both of its parts are, so whether a sequence of fragments merges is decided by
 its pairs.
 */
module Compatibility {
  import opened Trees
  import opened MergeRules
  import opened MergeFacts

  lemma {:induction false} MergedCompatible(a: Tree, b: Tree, c: Tree, rule: Rule)
    requires Apply(a, b, rule).Ok?
    ensures Apply(Apply(a, b, rule).value, c, rule).Ok? <==> Apply(a, c, rule).Ok? && Apply(b, c, rule).Ok?
    decreases Height(a), 1
  {
    if a.Null? || b.Null? || c.Null? {
    } else if a.Map? && b.Map? && c.Map? {
      assert Heights(a.m) < Height(a);
      MapsCompatible(a.m, b.m, c.m, rule);
    } else if a.List? && b.List? && c.List? {
      if rule.kind == ListKind {
        ListsCompatible(a.items, b.items, c.items, rule);
      } else {
        AddNewItems(a.items, b.items);
      }
    }
  }

  lemma {:induction false} EntryCompatible(
    rule: Rule, keyed: bool, k: string, x: Option<Tree>, y: Option<Tree>, z: Option<Tree>)
    requires EntryOpt(rule, keyed, k, x, y).Ok?
    ensures EntryOpt(rule, keyed, k, EntryOpt(rule, keyed, k, x, y).value, z).Ok? <==>
              EntryOpt(rule, keyed, k, x, z).Ok? && EntryOpt(rule, keyed, k, y, z).Ok?
    decreases if x.Some? then Height(x.value) else 0, 2
  {
    if x.Some? && y.Some? && z.Some? {
      var inner := EntryRule(rule, keyed, k);
      var u, v, w := NormID(rule, keyed, k, x.value), NormID(rule, keyed, k, y.value), NormID(rule, keyed, k, z.value);
      MergedCompatible(u, v, w, inner);
      NormOfMerged(rule, keyed, k, x.value, y.value, inner);
    }
  }

  lemma {:induction false} EntriesCompatible(
    a: map<string, Tree>, b: map<string, Tree>, c: map<string, Tree>, rule: Rule, keyed: bool)
    requires MergeEntries(a, b, rule, keyed).Ok?
    ensures MergeEntries(MergeEntries(a, b, rule, keyed).value, c, rule, keyed).Ok? <==>
              MergeEntries(a, c, rule, keyed).Ok? && MergeEntries(b, c, rule, keyed).Ok?
    decreases Heights(a), 3
  {
    var ab := MergeEntries(a, b, rule, keyed).value;
    EntriesPointwise(a, b, rule, keyed);
    forall k
      ensures EntryAt(ab, c, rule, keyed, k).Ok? <==>
                EntryAt(a, c, rule, keyed, k).Ok? && EntryAt(b, c, rule, keyed, k).Ok?
    {
      assert EntryAt(a, b, rule, keyed, k) == Ok(Get(ab, k));
      EntryCompatible(rule, keyed, k, Get(a, k), Get(b, k), Get(c, k));
    }
    EntriesPointwise(ab, c, rule, keyed);
    EntriesPointwise(a, c, rule, keyed);
    EntriesPointwise(b, c, rule, keyed);
  }

  lemma {:induction false} MapsCompatible(a: map<string, Tree>, b: map<string, Tree>, c: map<string, Tree>, rule: Rule)
    requires MergeMaps(a, b, rule).Ok?
    ensures MergeMaps(a, b, rule).value.Map?
    ensures MergeMaps(MergeMaps(a, b, rule).value.m, c, rule).Ok? <==>
              MergeMaps(a, c, rule).Ok? && MergeMaps(b, c, rule).Ok?
    decreases Heights(a), 4
  {
    var keyed := rule.kind == SetKind;
    MergeMapsByEntries(a, b, rule);
    var ab := MergeEntries(a, b, rule, keyed).value;
    EntriesCompatible(a, b, c, rule, keyed);
    if keyed { MergedAllMaps(a, b, rule); }
    MergeMapsByEntries(ab, c, rule);
    MergeMapsByEntries(a, c, rule);
    MergeMapsByEntries(b, c, rule);
  }

  lemma {:induction false} ListsCompatible(a: seq<Tree>, b: seq<Tree>, c: seq<Tree>, rule: Rule)
    requires MergeLists(a, b, rule).Ok?
    ensures MergeLists(a, b, rule).value.List?
    ensures MergeLists(MergeLists(a, b, rule).value.items, c, rule).Ok? <==>
              MergeLists(a, c, rule).Ok? && MergeLists(b, c, rule).Ok?
    decreases Height(List(a)), 0
  {
    IndexOfMerged(a, b, rule);
    var ab := MergeLists(a, b, rule).value.items;
    MergeListsByIndex(ab, c, rule);
    MergeListsByIndex(a, c, rule);
    MergeListsByIndex(b, c, rule);
    if IndexList(c, rule).Ok? {
      IndexItems(a, rule);
      HeightsBelow(IndexList(a, rule).value.items, a);
      EntriesCompatible(IndexList(a, rule).value.items, IndexList(b, rule).value.items, IndexList(c, rule).value.items, rule, true);
    }
  }
}
