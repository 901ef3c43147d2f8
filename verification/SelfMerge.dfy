/**
 Merging what is equal. Two scalars merge if and only if they are equal; a tree merges
 with itself if and only if the rules allow every part of it, and if it has no item
 without an id the result is the tree, with the ids that were merged as strings.
 */
module SelfMerge {
  import opened Trees
  import opened MergeRules
  import opened MergeFacts
  import opened MergeMeaning

  /** Scalars agree if and only if they are equal, whatever their type. */
  lemma ScalarsMergeIff(v: Scalar, w: Scalar, rule: Rule)
    ensures Apply(Leaf(v), Leaf(w), rule) == if rule.kind == ScalarKind && v == w then Ok(Leaf(v)) else Err
  {
    if Apply(Leaf(v), Leaf(w), rule).Ok? {
      MergesExactly(Leaf(v), Leaf(w), Apply(Leaf(v), Leaf(w), rule).value, rule);
    }
    MergesExactly(Leaf(v), Leaf(w), Leaf(v), rule);
  }

  /** Every part of the tree has a rule that allows it to meet its like. */
  ghost predicate SelfMergeable(t: Tree, rule: Rule)
    decreases Height(t), 1
  {
    match t
    case Null => true
    case Leaf(_) => rule.kind == ScalarKind
    case Map(m) =>
      assert Heights(m) < Height(t);
      if rule.kind == MapKind then forall k | k in m :: SelfMergeable(Normal(rule, k, m[k]), Below(rule, k))
      else
        && rule.kind == SetKind
        && forall k | k in m :: m[k].Map? && rule.allowMergeSameID && SelfMergeable(m[k], rule.(kind := MapKind))
    case List(items) =>
      if rule.kind == ScalarListKind then forall p | 0 <= p < |items| :: !items[p].Map? && !items[p].List?
      else
        && rule.kind == ListKind && ValidList(items, rule)
        && forall p | 0 <= p < |items| && NameOf(items[p], rule).Some? ::
             rule.allowMergeSameID && (HeightOfItem(items, p); SelfMergeable(items[p], rule.(kind := MapKind)))
  }

  /** No merged list of the tree has an item without an id; such items would be doubled. */
  ghost predicate AllNamed(t: Tree, rule: Rule)
    decreases Height(t), 1
  {
    match t
    case Map(m) =>
      assert Heights(m) < Height(t);
      if rule.kind == MapKind then forall k | k in m :: AllNamed(Normal(rule, k, m[k]), Below(rule, k))
      else forall k | k in m :: AllNamed(m[k], rule.(kind := MapKind))
    case List(items) =>
      rule.kind == ListKind ==>
        forall p | 0 <= p < |items| ::
          NameOf(items[p], rule).Some? && (HeightOfItem(items, p); AllNamed(items[p], rule.(kind := MapKind)))
    case _ => true
  }

  /** The tree with each id that a merge meets as a string. */
  ghost function WithStringIDs(t: Tree, rule: Rule): (n: Tree)
    decreases Height(t), 1
  {
    match t
    case Map(m) =>
      assert Heights(m) < Height(t);
      if rule.kind == MapKind then Map(map k | k in m :: WithStringIDs(Normal(rule, k, m[k]), Below(rule, k)))
      else Map(map k | k in m :: WithStringIDs(m[k], rule.(kind := MapKind)))
    case List(items) =>
      if rule.kind == ListKind then
        List(seq(|items|, p requires 0 <= p < |items| => HeightOfItem(items, p); WithStringIDs(items[p], rule.(kind := MapKind))))
      else t
    case _ => t
  }

  /** A tree merges with itself if and only if the rules allow it. */
  lemma {:induction false} SelfMergesIff(t: Tree, rule: Rule)
    ensures Apply(t, t, rule).Ok? <==> SelfMergeable(t, rule)
    decreases Height(t), 1
  {
    match t {
      case Null =>
      case Leaf(v) => ScalarsMergeIff(v, v, rule);
      case Map(m) =>
        assert Heights(m) < Height(t);
        MapSelfMergesIff(m, rule);
      case List(items) =>
        if rule.kind == ListKind {
          ListSelfMergesIff(items, rule);
        } else if rule.kind == ScalarListKind {
          AllScalarIs(items);
        }
    }
  }

  lemma {:induction false} MapSelfMergesIff(m: map<string, Tree>, rule: Rule)
    ensures Apply(Map(m), Map(m), rule).Ok? <==> SelfMergeable(Map(m), rule)
    decreases Heights(m), 2
  {
    ApplyMaps(m, m, rule);
    SelfEntriesIff(m, rule, false);
    SelfEntriesIff(m, rule, true);
    hide Apply, MergeEntries;
    if rule.kind == MapKind {
      forall k | k in m
        ensures Entry(rule, false, k, m[k], m[k]).Ok? <==> SelfMergeable(Normal(rule, k, m[k]), Below(rule, k))
      {
        SelfMergesIff(Normal(rule, k, m[k]), Below(rule, k));
        assert NormID(rule, false, k, m[k]) == Normal(rule, k, m[k]) && ChildRule(rule, k) == Below(rule, k);
      }
    } else {
      forall k | k in m
        ensures Entry(rule, true, k, m[k], m[k]).Ok? <==>
                  rule.allowMergeSameID && SelfMergeable(m[k], rule.(kind := MapKind))
      {
        SelfMergesIff(m[k], rule.(kind := MapKind));
      }
    }
  }

  lemma SelfEntriesIff(m: map<string, Tree>, rule: Rule, keyed: bool)
    ensures MergeEntries(m, m, rule, keyed).Ok? <==> forall k | k in m :: Entry(rule, keyed, k, m[k], m[k]).Ok?
  {}

  lemma SelfListIff(items: seq<Tree>, ix: Index, rule: Rule)
    requires IndexList(items, rule) == Ok(ix)
    ensures MergeLists(items, items, rule).Ok? <==> MergeEntries(ix.items, ix.items, rule, true).Ok?
  {}

  lemma {:induction false} ListSelfMergesIff(items: seq<Tree>, rule: Rule)
    requires rule.kind == ListKind
    ensures MergeLists(items, items, rule).Ok? <==> SelfMergeable(List(items), rule)
    decreases Height(List(items)), 0
  {
    IndexIs(items, rule);
    NamesAre(items, rule);
    if ValidList(items, rule) {
      var ix := IndexList(items, rule).value;
      SelfListIff(items, ix, rule);
      SelfEntriesIff(ix.items, rule, true);
      hide MergeLists, MergeEntries, IndexList, ValidList, Names, Apply;
      forall p | 0 <= p < |items| && NameOf(items[p], rule).Some?
        ensures SelfItemAllowed(items, p, rule)
      {
        SelfItemIff(items, p, rule);
      }
      if forall id | id in ix.items :: Entry(rule, true, id, ix.items[id], ix.items[id]).Ok? {
        forall p | 0 <= p < |items| && NameOf(items[p], rule).Some?
          ensures rule.allowMergeSameID && SelfMergeable(items[p], rule.(kind := MapKind))
        {
          assert NamedAt(items, p, NameOf(items[p], rule).value, rule);
          assert SelfItemAllowed(items, p, rule);
        }
      }
      if forall p | 0 <= p < |items| && NameOf(items[p], rule).Some? ::
           rule.allowMergeSameID && SelfMergeable(items[p], rule.(kind := MapKind)) {
        forall id | id in ix.items ensures Entry(rule, true, id, ix.items[id], ix.items[id]).Ok? {
          var p :| NamedAt(items, p, id, rule);
          assert SelfItemAllowed(items, p, rule);
        }
      }
    }
  }

  ghost predicate SelfItemAllowed(items: seq<Tree>, p: nat, rule: Rule)
    requires p < |items| && NameOf(items[p], rule).Some?
  {
    Entry(rule, true, NameOf(items[p], rule).value, items[p], items[p]).Ok? <==>
      rule.allowMergeSameID && SelfMergeable(items[p], rule.(kind := MapKind))
  }

  lemma {:induction false} SelfItemIff(items: seq<Tree>, p: nat, rule: Rule)
    requires p < |items| && NameOf(items[p], rule).Some?
    ensures SelfItemAllowed(items, p, rule)
    decreases Height(List(items)), 0, 0
  {
    HeightOfItem(items, p);
    SelfMergesIff(items[p], rule.(kind := MapKind));
  }

  // ---------- The result ----------

  /** Equal trees without anonymous items merge to the same tree, with the ids that were merged as strings. */
  lemma {:induction false} SelfMergeIsSame(t: Tree, rule: Rule)
    requires SelfMergeable(t, rule) && AllNamed(t, rule)
    ensures Apply(t, t, rule) == Ok(WithStringIDs(t, rule))
    decreases Height(t), 1
  {
    match t {
      case Null =>
      case Leaf(v) => ScalarsMergeIff(v, v, rule);
      case Map(m) =>
        assert Heights(m) < Height(t);
        var n := WithStringIDs(t, rule).m;
        if rule.kind == MapKind {
          forall k | k in m ensures Merges(Normal(rule, k, m[k]), Normal(rule, k, m[k]), n[k], Below(rule, k)) {
            SelfMergeIsSame(Normal(rule, k, m[k]), Below(rule, k));
            MergesExactly(Normal(rule, k, m[k]), Normal(rule, k, m[k]), n[k], Below(rule, k));
          }
          assert MapsTo(m, m, n, rule);
        } else {
          forall k | k in m ensures Merges(m[k], m[k], n[k], rule.(kind := MapKind)) {
            SelfMergeIsSame(m[k], rule.(kind := MapKind));
            MergesExactly(m[k], m[k], n[k], rule.(kind := MapKind));
          }
          assert SetsTo(m, m, n, rule);
        }
        MergesExactly(t, t, Map(n), rule);
      case List(items) =>
        if rule.kind == ListKind {
          ListSelfMergeIsSame(items, rule);
        } else {
          ScalarListSelfMergeIsSame(items);
          MergesExactly(t, t, t, rule);
        }
    }
  }

  lemma ScalarListSelfMergeIsSame(items: seq<Tree>)
    requires forall p | 0 <= p < |items| :: !items[p].Map? && !items[p].List?
    ensures ScalarListsTo(items, items, items)
  {
    assert NewAt([], items, items) by {
      forall p ensures !IsNew(items, items, p) {}
    }
    assert items + Picked(items, []) == items;
  }

  /** When every item has an id, the ids are those of the items, position by position. */
  lemma {:induction false} AllNames(items: seq<Tree>, rule: Rule)
    requires forall p | 0 <= p < |items| :: NameOf(items[p], rule).Some?
    ensures |Names(items, rule)| == |items| && Unnamed(items, rule) == []
    ensures forall p | 0 <= p < |items| :: Names(items, rule)[p] == NameOf(items[p], rule).value
    decreases |items|
  {
    if items != [] {
      AllNames(items[..|items| - 1], rule);
    }
  }

  lemma {:induction false} NothingWithout(names: seq<string>, seen: seq<string>)
    requires forall id | id in names :: id in seen
    ensures Without(names, seen) == []
    decreases |names|
  {
    if names != [] {
      assert names[0] in names;
      NothingWithout(names[1..], seen);
    }
  }

  lemma {:induction false} ListSelfMergeIsSame(items: seq<Tree>, rule: Rule)
    requires rule.kind == ListKind && SelfMergeable(List(items), rule) && AllNamed(List(items), rule)
    ensures Apply(List(items), List(items), rule) == Ok(WithStringIDs(List(items), rule))
    decreases Height(List(items)), 0
  {
    hide Apply, MergeLists, Names, Unnamed, Without;
    var out := WithStringIDs(List(items), rule).items;
    var names := Names(items, rule);
    AllNames(items, rule);
    NothingWithout(names, names);
    assert names + [] == names;
    forall i | 0 <= i < |names| ensures ItemTo(items, items, names[i], out[i], rule) {
      HeightOfItem(items, i);
      SelfMergeIsSame(items[i], rule.(kind := MapKind));
      MergesExactly(items[i], items[i], out[i], rule.(kind := MapKind));
      OnlyAt(items, i, rule);
      assert names[i] in names;
    }
    assert out[|names|..] == [];
    assert ListsTo(items, items, out, rule);
    MergesExactly(List(items), List(items), List(out), rule);
  }

  lemma OnlyAt(items: seq<Tree>, i: nat, rule: Rule)
    requires ValidList(items, rule) && i < |items| && NameOf(items[i], rule).Some?
    ensures forall p | NamedAt(items, p, NameOf(items[i], rule).value, rule) :: p == i
  {}
}
