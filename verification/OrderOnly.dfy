/**
 The equivalence of merged trees, said of the trees themselves: keyed lists hold the same
 ids with equivalent objects and the same items without an id, each as often, in any
 order; scalar lists hold the same scalars; everything else is the same.
 */
module OrderOnly {
  import opened Trees
  import opened MergeRules
  import opened MergeFacts
  import opened Equivalence
  import opened MergeMeaning

  ghost predicate SameButOrder(x: Tree, y: Tree, rule: Rule)
    decreases Height(x), 1
  {
    x == y ||
    match (x, y)
    case (Map(l), Map(r)) =>
      assert Heights(l) < Height(x);
      && l.Keys == r.Keys
      && ((rule.kind == MapKind && forall k | k in l :: SameButOrder(l[k], r[k], Below(rule, k)))
          || (rule.kind == SetKind && forall k | k in l :: SameButOrder(l[k], r[k], rule.(kind := MapKind))))
    case (List(l), List(r)) =>
      (rule.kind == ListKind && ListsSameButOrder(l, r, rule)) || (rule.kind == ScalarListKind && forall t :: t in l <==> t in r)
    case _ => false
  }

  ghost predicate ListsSameButOrder(l: seq<Tree>, r: seq<Tree>, rule: Rule)
    decreases Height(List(l)), 0
  {
    && ValidList(l, rule) && ValidList(r, rule)
    && multiset(Unnamed(l, rule)) == multiset(Unnamed(r, rule))
    && (forall id :: id in Names(l, rule) <==> id in Names(r, rule))
    && forall p, q, id | NamedAt(l, p, id, rule) && NamedAt(r, q, id, rule) ::
         HeightOfItem(l, p);
         SameButOrder(l[p], r[q], rule.(kind := MapKind))
  }

  /** Two trees are equivalent if and only if they are the same but for the order of lists. */
  lemma {:induction false} EquivIsSameButOrder(x: Tree, y: Tree, rule: Rule)
    ensures Equiv(x, y, rule) <==> SameButOrder(x, y, rule)
    decreases Height(x), 1
  {
    match (x, y) {
      case (Map(l), Map(r)) =>
        assert Heights(l) < Height(x);
        if l.Keys == r.Keys {
          forall k | k in l
            ensures Equiv(l[k], r[k], Below(rule, k)) <==> SameButOrder(l[k], r[k], Below(rule, k))
            ensures Equiv(l[k], r[k], rule.(kind := MapKind)) <==> SameButOrder(l[k], r[k], rule.(kind := MapKind))
          {
            EquivIsSameButOrder(l[k], r[k], Below(rule, k));
            EquivIsSameButOrder(l[k], r[k], rule.(kind := MapKind));
          }
          assert forall k | k in l :: EntryRule(rule, false, k) == Below(rule, k);
          assert forall k | k in l :: EntryRule(rule, true, k) == rule.(kind := MapKind);
        }
      case (List(l), List(r)) =>
        if rule.kind == ListKind {
          ListsAreSameButOrder(l, r, rule);
        }
      case _ =>
    }
  }

  lemma {:induction false} ListsAreSameButOrder(l: seq<Tree>, r: seq<Tree>, rule: Rule)
    ensures EquivLists(l, r, rule) <==> ListsSameButOrder(l, r, rule)
    decreases Height(List(l)), 0
  {
    IndexIs(l, rule);
    IndexIs(r, rule);
    NamesAre(l, rule);
    NamesAre(r, rule);
    if ValidList(l, rule) && ValidList(r, rule) {
      var li, ri := IndexList(l, rule).value, IndexList(r, rule).value;
      EquivListsIs(l, r, li, ri, rule);
      hide EquivLists, IndexList, ValidList, Names, Unnamed;
      forall p, q, id | NamedAt(l, p, id, rule) && NamedAt(r, q, id, rule)
        ensures li.items[id] == l[p] && ri.items[id] == r[q]
        ensures Equiv(l[p], r[q], rule.(kind := MapKind)) <==> SameButOrder(l[p], r[q], rule.(kind := MapKind))
      {
        HeightOfItem(l, p);
        EquivIsSameButOrder(l[p], r[q], rule.(kind := MapKind));
      }
      if ListsSameButOrder(l, r, rule) {
        forall id | id in li.items ensures id in ri.items && Equiv(li.items[id], ri.items[id], rule.(kind := MapKind)) {
          var p :| NamedAt(l, p, id, rule);
          var q :| NamedAt(r, q, id, rule);
        }
      }
    }
  }

  lemma EquivListsIs(l: seq<Tree>, r: seq<Tree>, li: Index, ri: Index, rule: Rule)
    requires IndexList(l, rule) == Ok(li) && IndexList(r, rule) == Ok(ri)
    ensures EquivLists(l, r, rule) <==>
              && multiset(li.tail) == multiset(ri.tail) && li.items.Keys == ri.items.Keys
              && forall id | id in li.items :: Equiv(li.items[id], ri.items[id], rule.(kind := MapKind))
  {
    assert EquivLists(l, r, rule) <==> EquivIndex(li, ri, rule);
    hide Equiv;
    assert EquivIndex(li, ri, rule) <==> EquivEntries(li.items, ri.items, rule, true) && multiset(li.tail) == multiset(ri.tail);
    if li.items.Keys == ri.items.Keys {
      forall id | id in li.items
        ensures Equiv(li.items[id], ri.items[id], EntryRule(rule, true, id)) <==>
                  Equiv(li.items[id], ri.items[id], rule.(kind := MapKind))
      {
        assert EntryRule(rule, true, id) == rule.(kind := MapKind);
      }
    }
  }
}
