/**
 Trees that differ only in what the order of the fragments decides. Under a rule,
 keyed lists are compared as maps from ids and a multiset of anonymous items,
 scalar lists as sets, maps and sets entry by entry, and everything else by
 equality. Merging respects this relation, and is commutative up to it.
 */
module Equivalence {
  import opened Trees
  import opened MergeRules
  import opened MergeFacts

  ghost predicate Equiv(x: Tree, y: Tree, rule: Rule)
    decreases Height(x), 1
  {
    || x == y
    || (x.Map? && y.Map? && (rule.kind == MapKind || rule.kind == SetKind) &&
        assert Heights(x.m) < Height(x); EquivEntries(x.m, y.m, rule, rule.kind == SetKind))
    || (x.List? && y.List? && rule.kind == ListKind && EquivLists(x.items, y.items, rule))
    || (x.List? && y.List? && rule.kind == ScalarListKind && SameItems(x.items, y.items))
  }

  ghost predicate EquivEntries(l: map<string, Tree>, r: map<string, Tree>, rule: Rule, keyed: bool)
    decreases Heights(l), 2
  {
    l.Keys == r.Keys && forall k | k in l :: Equiv(l[k], r[k], EntryRule(rule, keyed, k))
  }

  ghost predicate EquivLists(l: seq<Tree>, r: seq<Tree>, rule: Rule)
    decreases Height(List(l)), 0
  {
    var li, ri := IndexList(l, rule), IndexList(r, rule);
    IndexItems(l, rule);
    if li.Ok? then HeightsBelow(li.value.items, l); ri.Ok? && EquivIndex(li.value, ri.value, rule) else false
  }

  ghost predicate EquivIndex(l: Index, r: Index, rule: Rule)
    decreases Heights(l.items), 3
  {
    EquivEntries(l.items, r.items, rule, true) && multiset(l.tail) == multiset(r.tail)
  }

  ghost predicate SameItems(l: seq<Tree>, r: seq<Tree>) {
    forall t :: t in l <==> t in r
  }

  /** Both failed, or both succeeded with equivalent trees. */
  ghost predicate EquivRes(x: Result<Tree>, y: Result<Tree>, rule: Rule) {
    x.Ok? == y.Ok? && (x.Ok? ==> Equiv(x.value, y.value, rule))
  }

  // ---------- An equivalence relation ----------

  lemma {:induction false} EquivSymmetric(x: Tree, y: Tree, rule: Rule)
    requires Equiv(x, y, rule)
    ensures Equiv(y, x, rule)
    decreases Height(x), 1
  {
    if x == y {
    } else if x.Map? {
      assert Heights(x.m) < Height(x);
      EquivEntriesSymmetric(x.m, y.m, rule, rule.kind == SetKind);
    } else if rule.kind == ListKind {
      EquivListsSymmetric(x.items, y.items, rule);
    }
  }

  lemma {:induction false} EquivListsSymmetric(l: seq<Tree>, r: seq<Tree>, rule: Rule)
    requires EquivLists(l, r, rule)
    ensures EquivLists(r, l, rule)
    decreases Height(List(l)), 0
  {
    var li, ri := IndexList(l, rule).value, IndexList(r, rule).value;
    IndexItems(l, rule);
    HeightsBelow(li.items, l);
    EquivEntriesSymmetric(li.items, ri.items, rule, true);
  }

  lemma {:induction false} EquivEntriesSymmetric(l: map<string, Tree>, r: map<string, Tree>, rule: Rule, keyed: bool)
    requires EquivEntries(l, r, rule, keyed)
    ensures EquivEntries(r, l, rule, keyed)
    decreases Heights(l), 2
  {
    forall k | k in r ensures Equiv(r[k], l[k], EntryRule(rule, keyed, k)) {
      EquivSymmetric(l[k], r[k], EntryRule(rule, keyed, k));
    }
  }

  lemma {:induction false} EquivTransitive(x: Tree, y: Tree, z: Tree, rule: Rule)
    requires Equiv(x, y, rule) && Equiv(y, z, rule)
    ensures Equiv(x, z, rule)
    decreases Height(x), 1
  {
    if x == y || y == z {
    } else if x.Map? {
      assert Heights(x.m) < Height(x);
      EquivEntriesTransitive(x.m, y.m, z.m, rule, rule.kind == SetKind);
    } else if rule.kind == ListKind {
      EquivListsTransitive(x.items, y.items, z.items, rule);
    }
  }

  lemma {:induction false} EquivListsTransitive(l: seq<Tree>, m: seq<Tree>, r: seq<Tree>, rule: Rule)
    requires EquivLists(l, m, rule) && EquivLists(m, r, rule)
    ensures EquivLists(l, r, rule)
    decreases Height(List(l)), 0
  {
    var li, mi, ri := IndexList(l, rule).value, IndexList(m, rule).value, IndexList(r, rule).value;
    IndexItems(l, rule);
    HeightsBelow(li.items, l);
    EquivEntriesTransitive(li.items, mi.items, ri.items, rule, true);
  }

  lemma {:induction false} EquivEntriesTransitive(
    l: map<string, Tree>, m: map<string, Tree>, r: map<string, Tree>, rule: Rule, keyed: bool)
    requires EquivEntries(l, m, rule, keyed) && EquivEntries(m, r, rule, keyed)
    ensures EquivEntries(l, r, rule, keyed)
    decreases Heights(l), 2
  {
    forall k | k in l ensures Equiv(l[k], r[k], EntryRule(rule, keyed, k)) {
      EquivTransitive(l[k], m[k], r[k], EntryRule(rule, keyed, k));
    }
  }

  lemma EquivListsItems(l: seq<Tree>, r: seq<Tree>, rule: Rule)
    requires EquivLists(l, r, rule)
    ensures IndexList(l, rule).Ok? && IndexList(r, rule).Ok?
    ensures EquivEntries(IndexList(l, rule).value.items, IndexList(r, rule).value.items, rule, true)
  {
    assert EquivIndex(IndexList(l, rule).value, IndexList(r, rule).value, rule);
  }

  // ---------- Commutativity ----------

  lemma {:induction false} MergeIsCommutative(a: Tree, b: Tree, rule: Rule)
    ensures EquivRes(Apply(a, b, rule), Apply(b, a, rule), rule)
    decreases Height(a), 1
  {
    if a.Null? || b.Null? {
    } else if a.Map? && b.Map? {
      assert Heights(a.m) < Height(a);
      if rule.kind == MapKind || rule.kind == SetKind {
        MergeMapsByEntries(a.m, b.m, rule);
        MergeMapsByEntries(b.m, a.m, rule);
        EntriesCommutative(a.m, b.m, rule, rule.kind == SetKind);
      }
    } else if a.List? && b.List? {
      if rule.kind == ListKind {
        ListsCommutative(a.items, b.items, rule);
      } else if rule.kind == ScalarListKind {
        AddNewItems(a.items, b.items);
        AddNewItems(b.items, a.items);
      }
    }
  }

  lemma {:induction false} EntriesCommutative(a: map<string, Tree>, b: map<string, Tree>, rule: Rule, keyed: bool)
    ensures MergeEntries(a, b, rule, keyed).Ok? == MergeEntries(b, a, rule, keyed).Ok?
    ensures MergeEntries(a, b, rule, keyed).Ok? ==>
              EquivEntries(MergeEntries(a, b, rule, keyed).value, MergeEntries(b, a, rule, keyed).value, rule, keyed)
    decreases Heights(a), 3
  {
    forall k | k in a && k in b
      ensures EquivRes(Entry(rule, keyed, k, a[k], b[k]), Entry(rule, keyed, k, b[k], a[k]), EntryRule(rule, keyed, k))
    {
      MergeIsCommutative(NormID(rule, keyed, k, a[k]), NormID(rule, keyed, k, b[k]), EntryRule(rule, keyed, k));
    }
  }

  lemma {:induction false} ListsCommutative(a: seq<Tree>, b: seq<Tree>, rule: Rule)
    requires rule.kind == ListKind
    ensures EquivRes(MergeLists(a, b, rule), MergeLists(b, a, rule), rule)
    decreases Height(List(a)), 0
  {
    MergeListsByIndex(a, b, rule);
    MergeListsByIndex(b, a, rule);
    if IndexList(a, rule).Ok? && IndexList(b, rule).Ok? {
      var ia, ib := IndexList(a, rule).value, IndexList(b, rule).value;
      IndexItems(a, rule);
      HeightsBelow(ia.items, a);
      EntriesCommutative(ia.items, ib.items, rule, true);
      if MergeIndex(ia, ib, rule).Ok? {
        IndexOfMerged(a, b, rule);
        IndexOfMerged(b, a, rule);
      }
    }
  }

  // ---------- Congruence ----------

  /** Equivalent left operands fail together or give equivalent results. */
  lemma {:induction false} CongruentLeft(a: Tree, a': Tree, b: Tree, rule: Rule)
    requires Equiv(a, a', rule)
    ensures EquivRes(Apply(a, b, rule), Apply(a', b, rule), rule)
    decreases Height(a), 1
  {
    if a == a' || b.Null? {
    } else if a.Map? && b.Map? {
      assert Heights(a.m) < Height(a);
      MergeMapsByEntries(a.m, b.m, rule);
      MergeMapsByEntries(a'.m, b.m, rule);
      EntriesCongruent(a.m, a'.m, b.m, rule, rule.kind == SetKind);
      if rule.kind == SetKind { EquivAllMaps(a.m, a'.m, rule); }
    } else if a.List? && b.List? {
      if rule.kind == ListKind {
        ListsCongruent(a.items, a'.items, b.items, rule);
      } else {
        AddNewItems(a.items, b.items);
        AddNewItems(a'.items, b.items);
      }
    }
  }

  lemma EquivAllMaps(l: map<string, Tree>, r: map<string, Tree>, rule: Rule)
    requires EquivEntries(l, r, rule, true)
    ensures AllMaps(l) <==> AllMaps(r)
  {
    forall k | k in l ensures l[k].Map? <==> r[k].Map? {
      assert Equiv(l[k], r[k], EntryRule(rule, true, k));
    }
  }

  lemma {:induction false} EntriesCongruent(
    a: map<string, Tree>, a': map<string, Tree>, b: map<string, Tree>, rule: Rule, keyed: bool)
    requires EquivEntries(a, a', rule, keyed)
    ensures MergeEntries(a, b, rule, keyed).Ok? == MergeEntries(a', b, rule, keyed).Ok?
    ensures MergeEntries(a, b, rule, keyed).Ok? ==>
              EquivEntries(MergeEntries(a, b, rule, keyed).value, MergeEntries(a', b, rule, keyed).value, rule, keyed)
    decreases Heights(a), 3
  {
    forall k | k in a && k in b
      ensures EquivRes(Entry(rule, keyed, k, a[k], b[k]), Entry(rule, keyed, k, a'[k], b[k]), EntryRule(rule, keyed, k))
    {
      assert Equiv(NormID(rule, keyed, k, a[k]), NormID(rule, keyed, k, a'[k]), EntryRule(rule, keyed, k));
      CongruentLeft(NormID(rule, keyed, k, a[k]), NormID(rule, keyed, k, a'[k]),
                    NormID(rule, keyed, k, b[k]), EntryRule(rule, keyed, k));
    }
  }

  lemma {:induction false} ListsCongruent(a: seq<Tree>, a': seq<Tree>, b: seq<Tree>, rule: Rule)
    requires rule.kind == ListKind && EquivLists(a, a', rule)
    ensures EquivRes(MergeLists(a, b, rule), MergeLists(a', b, rule), rule)
    decreases Height(List(a)), 0
  {
    MergeListsByIndex(a, b, rule);
    MergeListsByIndex(a', b, rule);
    if IndexList(b, rule).Ok? {
      var ia, ia', ib := IndexList(a, rule).value, IndexList(a', rule).value, IndexList(b, rule).value;
      IndexItems(a, rule);
      HeightsBelow(ia.items, a);
      EntriesCongruent(ia.items, ia'.items, ib.items, rule, true);
      if MergeIndex(ia, ib, rule).Ok? {
        IndexOfMerged(a, b, rule);
        IndexOfMerged(a', b, rule);
      }
    }
  }

  /** Merging respects equivalence in both operands. */
  lemma MergeIsCongruent(a: Tree, a': Tree, b: Tree, b': Tree, rule: Rule)
    requires Equiv(a, a', rule) && Equiv(b, b', rule)
    ensures EquivRes(Apply(a, b, rule), Apply(a', b', rule), rule)
  {
    CongruentLeft(a, a', b, rule);
    MergeIsCommutative(a', b, rule);
    CongruentLeft(b, b', a', rule);
    MergeIsCommutative(b', a', rule);
    if Apply(a, b, rule).Ok? {
      EquivTransitive(Apply(a, b, rule).value, Apply(a', b, rule).value, Apply(b, a', rule).value, rule);
      EquivTransitive(Apply(a, b, rule).value, Apply(b, a', rule).value, Apply(b', a', rule).value, rule);
      EquivTransitive(Apply(a, b, rule).value, Apply(b', a', rule).value, Apply(a', b', rule).value, rule);
    }
  }
}
