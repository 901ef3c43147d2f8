/**
 Merging is associative with failure: grouping three fragments to the left or to
 the right fails on the same inputs and gives the identical tree, list order,
 anonymous tails and normalised ids included.
 */
module Associativity {
  import opened Trees
  import opened MergeRules
  import opened MergeFacts

  lemma {:induction false} MergeIsAssociative(a: Tree, b: Tree, c: Tree, rule: Rule)
    ensures Merge2(Apply(a, b, rule), Ok(c), rule) == Merge2(Ok(a), Apply(b, c, rule), rule)
    decreases Height(a), 1
  {
    if a.Null? || b.Null? || c.Null? {
    } else if a.Map? && b.Map? && c.Map? {
      assert Heights(a.m) < Height(a);
      if rule.kind == MapKind || rule.kind == SetKind {
        MapsAssociative(a.m, b.m, c.m, rule);
      }
    } else if a.List? && b.List? && c.List? {
      if rule.kind == ListKind {
        ListsAssociative(a.items, b.items, c.items, rule);
      } else if rule.kind == ScalarListKind {
        AddNewAssociative(a.items, b.items, c.items);
        AddNewItems(a.items, b.items);
        AddNewItems(b.items, c.items);
      }
    }
  }

  // ---------- Maps, sets and keyed items ----------

  lemma {:induction false} EntryAssociative(
    rule: Rule, keyed: bool, k: string, x: Option<Tree>, y: Option<Tree>, z: Option<Tree>)
    ensures EntryRes(rule, keyed, k, EntryOpt(rule, keyed, k, x, y), Ok(z))
         == EntryRes(rule, keyed, k, Ok(x), EntryOpt(rule, keyed, k, y, z))
    decreases if x.Some? then Height(x.value) else 0, 2
  {
    if x.Some? && y.Some? && z.Some? && (keyed ==> rule.allowMergeSameID) {
      var inner := EntryRule(rule, keyed, k);
      var u, v, w := NormID(rule, keyed, k, x.value), NormID(rule, keyed, k, y.value), NormID(rule, keyed, k, z.value);
      MergeIsAssociative(u, v, w, inner);
      NormOfMerged(rule, keyed, k, x.value, y.value, inner);
      NormOfMerged(rule, keyed, k, y.value, z.value, inner);
    }
  }

  lemma {:induction false} EntriesAssociative(
    a: map<string, Tree>, b: map<string, Tree>, c: map<string, Tree>, rule: Rule, keyed: bool)
    ensures Entries2(MergeEntries(a, b, rule, keyed), Ok(c), rule, keyed)
         == Entries2(Ok(a), MergeEntries(b, c, rule, keyed), rule, keyed)
    decreases Heights(a), 3
  {
    forall k
      ensures EntryRes(rule, keyed, k, EntryAt(a, b, rule, keyed, k), Ok(Get(c, k)))
           == EntryRes(rule, keyed, k, Ok(Get(a, k)), EntryAt(b, c, rule, keyed, k))
    {
      EntryAssociative(rule, keyed, k, Get(a, k), Get(b, k), Get(c, k));
    }
    EntriesOfThree(a, b, c, rule, keyed);
  }

  lemma {:induction false} MapsAssociative(
    a: map<string, Tree>, b: map<string, Tree>, c: map<string, Tree>, rule: Rule)
    requires rule.kind == MapKind || rule.kind == SetKind
    ensures Merge2(MergeMaps(a, b, rule), Ok(Map(c)), rule) == Merge2(Ok(Map(a)), MergeMaps(b, c, rule), rule)
    decreases Heights(a), 4
  {
    var keyed := rule.kind == SetKind;
    EntriesAssociative(a, b, c, rule, keyed);
    MergeMapsByEntries(a, b, rule);
    MergeMapsByEntries(b, c, rule);
    if keyed {
      MergedAllMaps(a, b, rule);
      MergedAllMaps(b, c, rule);
    }
    var ab, bc := MergeEntries(a, b, rule, keyed), MergeEntries(b, c, rule, keyed);
    if ab.Ok? { ApplyMaps(ab.value, c, rule); MergeMapsByEntries(ab.value, c, rule); }
    if bc.Ok? { ApplyMaps(a, bc.value, rule); MergeMapsByEntries(a, bc.value, rule); }
  }

  /** From entries that associate to maps that do. */
  lemma EntriesOfThree(a: map<string, Tree>, b: map<string, Tree>, c: map<string, Tree>, rule: Rule, keyed: bool)
    requires forall k :: EntryRes(rule, keyed, k, EntryAt(a, b, rule, keyed, k), Ok(Get(c, k)))
                      == EntryRes(rule, keyed, k, Ok(Get(a, k)), EntryAt(b, c, rule, keyed, k))
    ensures Entries2(MergeEntries(a, b, rule, keyed), Ok(c), rule, keyed)
         == Entries2(Ok(a), MergeEntries(b, c, rule, keyed), rule, keyed)
  {
    var left := Entries2(MergeEntries(a, b, rule, keyed), Ok(c), rule, keyed);
    var right := Entries2(Ok(a), MergeEntries(b, c, rule, keyed), rule, keyed);
    LeftEntries(a, b, c, rule, keyed);
    RightEntries(a, b, c, rule, keyed);
    if left.Ok? && right.Ok? {
      MapsEqual(left.value, right.value);
    }
  }

  lemma LeftEntries(a: map<string, Tree>, b: map<string, Tree>, c: map<string, Tree>, rule: Rule, keyed: bool)
    ensures var left := Entries2(MergeEntries(a, b, rule, keyed), Ok(c), rule, keyed);
            && (left.Ok? <==> forall k :: EntryRes(rule, keyed, k, EntryAt(a, b, rule, keyed, k), Ok(Get(c, k))).Ok?)
            && (left.Ok? ==> forall k ::
                  EntryRes(rule, keyed, k, EntryAt(a, b, rule, keyed, k), Ok(Get(c, k))) == Ok(Get(left.value, k)))
  {
    EntriesPointwise(a, b, rule, keyed);
    if MergeEntries(a, b, rule, keyed).Ok? {
      EntriesPointwise(MergeEntries(a, b, rule, keyed).value, c, rule, keyed);
    } else {
      var k :| !EntryAt(a, b, rule, keyed, k).Ok?;
      assert !EntryRes(rule, keyed, k, EntryAt(a, b, rule, keyed, k), Ok(Get(c, k))).Ok?;
    }
  }

  lemma RightEntries(a: map<string, Tree>, b: map<string, Tree>, c: map<string, Tree>, rule: Rule, keyed: bool)
    ensures var right := Entries2(Ok(a), MergeEntries(b, c, rule, keyed), rule, keyed);
            && (right.Ok? <==> forall k :: EntryRes(rule, keyed, k, Ok(Get(a, k)), EntryAt(b, c, rule, keyed, k)).Ok?)
            && (right.Ok? ==> forall k ::
                  EntryRes(rule, keyed, k, Ok(Get(a, k)), EntryAt(b, c, rule, keyed, k)) == Ok(Get(right.value, k)))
  {
    EntriesPointwise(b, c, rule, keyed);
    if MergeEntries(b, c, rule, keyed).Ok? {
      EntriesPointwise(a, MergeEntries(b, c, rule, keyed).value, rule, keyed);
    } else {
      var k :| !EntryAt(b, c, rule, keyed, k).Ok?;
      assert !EntryRes(rule, keyed, k, Ok(Get(a, k)), EntryAt(b, c, rule, keyed, k)).Ok?;
    }
  }

  // ---------- Keyed lists ----------

  lemma FreshOfConcat(s: seq<string>, t: seq<string>, seen: seq<string>)
    ensures Fresh(s + t, seen) == Fresh(s, seen) + Fresh(t, seen)
    decreases |t|
  {
    if t == [] {
      assert s + t == s;
    } else {
      assert (s + t)[..|s + t| - 1] == s + t[..|t| - 1];
      FreshOfConcat(s, t[..|t| - 1], seen);
    }
  }

  lemma FreshTwice(s: seq<string>, u: seq<string>, v: seq<string>, w: seq<string>)
    requires forall id :: id in w <==> id in u || id in v
    ensures Fresh(Fresh(s, u), v) == Fresh(s, w)
    decreases |s|
  {
    if s != [] {
      var init, last := s[..|s| - 1], s[|s| - 1];
      FreshTwice(init, u, v, w);
      FreshOfConcat(Fresh(init, u), [last], v);
      if last in u {
        assert Fresh(s, u) == Fresh(init, u);
      } else {
        assert Fresh(s, u) == Fresh(init, u) + [last];
        assert [last][..0] == [];
        assert Fresh([last], v) == if last in v then [] else [last];
      }
    }
  }

  lemma MergedOrderIds(a: seq<string>, b: seq<string>)
    ensures forall id :: id in a + Fresh(b, a) <==> id in b || id in a
  {
    FreshIds(b, a);
  }

  lemma ConcatAssociative(a: seq<string>, b: seq<string>, c: seq<string>)
    ensures (a + b) + c == a + (b + c)
  {}

  lemma OrderAssociative(a: seq<string>, b: seq<string>, c: seq<string>)
    ensures (a + Fresh(b, a)) + Fresh(c, a + Fresh(b, a)) == a + Fresh(b + Fresh(c, b), a)
  {
    MergedOrderIds(a, b);
    FreshTwice(c, b, a, a + Fresh(b, a));
    FreshOfConcat(b, Fresh(c, b), a);
    ConcatAssociative(a, Fresh(b, a), Fresh(Fresh(c, b), a));
  }

  lemma {:induction false} IndexAssociative(a: Index, b: Index, c: Index, rule: Rule)
    ensures Index2(MergeIndex(a, b, rule), Ok(c), rule) == Index2(Ok(a), MergeIndex(b, c, rule), rule)
    decreases Heights(a.items), 4
  {
    EntriesAssociative(a.items, b.items, c.items, rule, true);
    OrderAssociative(a.order, b.order, c.order);
    assert (a.tail + b.tail) + c.tail == a.tail + (b.tail + c.tail);
  }

  lemma {:induction false} ListsAssociative(a: seq<Tree>, b: seq<Tree>, c: seq<Tree>, rule: Rule)
    requires rule.kind == ListKind
    ensures Merge2(MergeLists(a, b, rule), Ok(List(c)), rule) == Merge2(Ok(List(a)), MergeLists(b, c, rule), rule)
    decreases Height(List(a)), 0
  {
    var ia, ib, ic := IndexList(a, rule), IndexList(b, rule), IndexList(c, rule);
    if ia.Ok? && ib.Ok? && ic.Ok? {
      IndexItems(a, rule);
      HeightsBelow(ia.value.items, a);
      IndexAssociative(ia.value, ib.value, ic.value, rule);
    }
    LeftOfThree(a, b, c, rule);
    RightOfThree(a, b, c, rule);
  }

  lemma LeftOfThree(a: seq<Tree>, b: seq<Tree>, c: seq<Tree>, rule: Rule)
    requires rule.kind == ListKind
    ensures Merge2(MergeLists(a, b, rule), Ok(List(c)), rule)
         == RenderRes(Index2(Index2(IndexList(a, rule), IndexList(b, rule), rule), IndexList(c, rule), rule))
  {
    MergeListsByIndex(a, b, rule);
    if MergeLists(a, b, rule).Ok? {
      IndexOfMerged(a, b, rule);
      var ab := MergeLists(a, b, rule).value.items;
      ApplyLists(ab, c, rule);
      MergeListsByIndex(ab, c, rule);
    }
  }

  lemma RightOfThree(a: seq<Tree>, b: seq<Tree>, c: seq<Tree>, rule: Rule)
    requires rule.kind == ListKind
    ensures Merge2(Ok(List(a)), MergeLists(b, c, rule), rule)
         == RenderRes(Index2(IndexList(a, rule), Index2(IndexList(b, rule), IndexList(c, rule), rule), rule))
  {
    MergeListsByIndex(b, c, rule);
    if MergeLists(b, c, rule).Ok? {
      IndexOfMerged(b, c, rule);
      var bc := MergeLists(b, c, rule).value.items;
      ApplyLists(a, bc, rule);
      MergeListsByIndex(a, bc, rule);
    }
  }

  // ---------- Scalar lists ----------

  lemma AddNewOfConcat(output: seq<Tree>, s: seq<Tree>, t: seq<Tree>)
    ensures AddNew(output, s + t) == AddNew(AddNew(output, s), t)
    decreases |t|
  {
    if t == [] {
      assert s + t == s;
    } else {
      assert (s + t)[..|s + t| - 1] == s + t[..|t| - 1];
      AddNewOfConcat(output, s, t[..|t| - 1]);
    }
  }

  /** Adding `b` extended by `c` is adding `b` and then `c`. */
  lemma AddNewAssociative(a: seq<Tree>, b: seq<Tree>, c: seq<Tree>)
    ensures AddNew(AddNew(a, b), c) == AddNew(a, AddNew(b, c))
    decreases |c|
  {
    if c != [] {
      var init, last := c[..|c| - 1], c[|c| - 1];
      AddNewAssociative(a, b, init);
      AddNewItems(b, init);
      AddNewItems(a, AddNew(b, init));
      if last !in AddNew(b, init) {
        AddNewOfConcat(a, AddNew(b, init), [last]);
        assert [last][..0] == [];
        assert AddNew(AddNew(a, AddNew(b, init)), [last])
            == var before := AddNew(a, AddNew(b, init)); if last in before then before else before + [last];
      }
    }
  }
}
