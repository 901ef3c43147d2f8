/**
 What a merge is, said of the trees themselves: which trees merge, and what every entry,
 position and scalar of the result is. Nothing here refers to indexes or to the order in
 which the engine works; the engine computes exactly this relation.
 */
module MergeMeaning {
  import opened Trees
  import opened MergeRules
  import opened MergeFacts

  // ---------- Keyed lists, position by position ----------

  /** The normalised id of an item. */
  function NameOf(item: Tree, rule: Rule): Option<string> {
    if item.Map? && rule.idAttr in item.m then AsString(item.m[rule.idAttr]) else None
  }

  /** Every item is an object with an id that is a string or a number, or without one where that is allowed. */
  predicate ValidItem(item: Tree, rule: Rule) {
    item.Map? && if rule.idAttr in item.m then AsString(item.m[rule.idAttr]).Some? else rule.idOptional
  }

  ghost predicate ValidList(items: seq<Tree>, rule: Rule) {
    && (forall p | 0 <= p < |items| :: ValidItem(items[p], rule))
    && (forall p, q | 0 <= p < q < |items| && NameOf(items[p], rule).Some? :: NameOf(items[p], rule) != NameOf(items[q], rule))
  }

  ghost predicate NamedAt(items: seq<Tree>, p: int, id: string, rule: Rule) {
    0 <= p < |items| && NameOf(items[p], rule) == Some(id)
  }

  /** The ids of a list in order. */
  function Names(items: seq<Tree>, rule: Rule): seq<string>
    decreases |items|
  {
    if items == [] then []
    else
      var last := NameOf(items[|items| - 1], rule);
      Names(items[..|items| - 1], rule) + if last.Some? then [last.value] else []
  }

  /** The items of a list without an id, in order. */
  function Unnamed(items: seq<Tree>, rule: Rule): seq<Tree>
    decreases |items|
  {
    if items == [] then []
    else
      var last := items[|items| - 1];
      Unnamed(items[..|items| - 1], rule) + if NameOf(last, rule).Some? then [] else [last]
  }

  /** The strings of `names` other than those of `seen`, in order. */
  function Without(names: seq<string>, seen: seq<string>): seq<string>
    decreases |names|
  {
    if names == [] then [] else (if names[0] in seen then [] else [names[0]]) + Without(names[1..], seen)
  }

  // ---------- Scalar lists, position by position ----------

  /** `at` are the positions of the items of `r` that neither `l` nor an earlier position of `r` holds, in order. */
  ghost predicate NewAt(at: seq<nat>, l: seq<Tree>, r: seq<Tree>) {
    && (forall i, j | 0 <= i < j < |at| :: at[i] < at[j])
    && (forall p :: p in at <==> IsNew(l, r, p))
  }

  predicate IsNew(l: seq<Tree>, r: seq<Tree>, p: int) {
    0 <= p < |r| && r[p] !in l && r[p] !in r[..p]
  }

  /** The items at the given positions. */
  function Picked(r: seq<Tree>, at: seq<nat>): seq<Tree>
    decreases |at|
  {
    if at == [] then []
    else
      var last := at[|at| - 1];
      Picked(r, at[..|at| - 1]) + if last < |r| then [r[last]] else []
  }

  ghost predicate ScalarListsTo(l: seq<Tree>, r: seq<Tree>, t: seq<Tree>) {
    && (forall p | 0 <= p < |l| :: !l[p].Map? && !l[p].List?)
    && (forall p | 0 <= p < |r| :: !r[p].Map? && !r[p].List?)
    && exists at :: NewAt(at, l, r) && t == l + Picked(r, at)
  }

  // ---------- The relation ----------

  /** Under the id attribute, a number is the string of its digits. */
  function Normal(rule: Rule, k: string, t: Tree): (n: Tree)
    ensures Height(n) == Height(t)
  {
    if k == rule.idAttr && AsString(t).Some? then Leaf(Str(AsString(t).value)) else t
  }

  /** The rule for an attribute: the child's, or scalars only. */
  function Below(rule: Rule, k: string): Rule {
    if k in rule.children then rule.children[k] else Rule(ScalarKind, "", false, false, false, map[])
  }

  /** `t` is the merge of `x` and `y` under `rule`. */
  ghost predicate Merges(x: Tree, y: Tree, t: Tree, rule: Rule)
    decreases Height(x), 1
  {
    if x.Null? then t == y
    else if y.Null? then t == x
    else
      match (x, y, t)
      case (Leaf(v), Leaf(w), Leaf(u)) => rule.kind == ScalarKind && u == v == w
      case (Map(l), Map(r), Map(m)) =>
        assert Heights(l) < Height(x);
        (rule.kind == MapKind && MapsTo(l, r, m, rule)) || (rule.kind == SetKind && SetsTo(l, r, m, rule))
      case (List(l), List(r), List(s)) =>
        (rule.kind == ListKind && ListsTo(l, r, s, rule)) || (rule.kind == ScalarListKind && ScalarListsTo(l, r, s))
      case _ => false
  }

  /** An attribute of one side is kept; attributes of both are merged. */
  ghost predicate MapsTo(l: map<string, Tree>, r: map<string, Tree>, m: map<string, Tree>, rule: Rule)
    decreases Heights(l), 2
  {
    && m.Keys == l.Keys + r.Keys
    && forall k | k in m ::
         if k !in l then m[k] == r[k]
         else if k !in r then m[k] == l[k]
         else Merges(Normal(rule, k, l[k]), Normal(rule, k, r[k]), m[k], Below(rule, k))
  }

  /** The same for objects under their ids; an id of both sides must be allowed. */
  ghost predicate SetsTo(l: map<string, Tree>, r: map<string, Tree>, m: map<string, Tree>, rule: Rule)
    decreases Heights(l), 2
  {
    && (forall k | k in l :: l[k].Map?) && (forall k | k in r :: r[k].Map?)
    && m.Keys == l.Keys + r.Keys
    && forall k | k in m ::
         if k !in l then m[k] == r[k]
         else if k !in r then m[k] == l[k]
         else rule.allowMergeSameID && Merges(l[k], r[k], m[k], rule.(kind := MapKind))
  }

  /** The objects of the left in order, the new ones of the right in order, then those without an id. */
  ghost predicate ListsTo(l: seq<Tree>, r: seq<Tree>, t: seq<Tree>, rule: Rule)
    decreases Height(List(l)), 0
  {
    var names := Names(l, rule) + Without(Names(r, rule), Names(l, rule));
    && ValidList(l, rule) && ValidList(r, rule)
    && |t| >= |names| && t[|names|..] == Unnamed(l, rule) + Unnamed(r, rule)
    && forall i | 0 <= i < |names| :: ItemTo(l, r, names[i], t[i], rule)
  }

  /** The object of one side is kept; objects of both are merged, if that is allowed. */
  ghost predicate ItemTo(l: seq<Tree>, r: seq<Tree>, id: string, t: Tree, rule: Rule)
    decreases Height(List(l)), 0, 0
  {
    && (forall p, q | NamedAt(l, p, id, rule) && NamedAt(r, q, id, rule) ::
          rule.allowMergeSameID && (HeightOfItem(l, p); Merges(l[p], r[q], t, rule.(kind := MapKind))))
    && (forall p | NamedAt(l, p, id, rule) && id !in Names(r, rule) :: t == l[p])
    && (forall q | NamedAt(r, q, id, rule) && id !in Names(l, rule) :: t == r[q])
  }

  // ---------- The engine's index is the list read this way ----------

  lemma {:induction false} NamesAre(items: seq<Tree>, rule: Rule)
    ensures forall id :: id in Names(items, rule) <==> exists p :: NamedAt(items, p, id, rule)
    decreases |items|
  {
    if items != [] {
      var init := items[..|items| - 1];
      NamesAre(init, rule);
      forall id ensures id in Names(items, rule) <==> exists p :: NamedAt(items, p, id, rule) {
        if id in Names(init, rule) {
          var p :| NamedAt(init, p, id, rule);
          assert NamedAt(items, p, id, rule);
        }
        if NamedAt(items, |init|, id, rule) {
          assert id in Names(items, rule);
        }
        if p :| NamedAt(items, p, id, rule) {
          assert p < |init| ==> NamedAt(init, p, id, rule);
        }
      }
    }
  }

  lemma {:induction false} IndexIs(items: seq<Tree>, rule: Rule)
    ensures IndexList(items, rule).Ok? <==> ValidList(items, rule)
    ensures IndexList(items, rule).Ok? ==>
              var ix := IndexList(items, rule).value;
              && ix.order == Names(items, rule) && ix.tail == Unnamed(items, rule)
              && (forall id :: id in ix.items <==> id in Names(items, rule))
              && (forall p, id | NamedAt(items, p, id, rule) :: id in ix.items && ix.items[id] == items[p])
    decreases |items|
  {
    if items != [] {
      var init, last := items[..|items| - 1], items[|items| - 1];
      IndexIs(init, rule);
      NamesAre(init, rule);
      NamesAre(items, rule);
      ValidSnoc(items, rule);
      if IndexList(items, rule).Ok? {
        forall p, id | NamedAt(items, p, id, rule)
          ensures id in IndexList(items, rule).value.items && IndexList(items, rule).value.items[id] == items[p]
        {
          if p < |init| {
            assert NamedAt(init, p, id, rule);
          }
        }
      }
    }
  }

  lemma ValidSnoc(items: seq<Tree>, rule: Rule)
    requires items != []
    ensures var init, last := items[..|items| - 1], items[|items| - 1];
            ValidList(items, rule) <==>
              && ValidList(init, rule) && ValidItem(last, rule)
              && (NameOf(last, rule).Some? ==> NameOf(last, rule).value !in Names(init, rule))
  {
    var init, last := items[..|items| - 1], items[|items| - 1];
    NamesAre(init, rule);
    if ValidList(items, rule) {
      forall p | 0 <= p < |init| ensures ValidItem(init[p], rule) {
        assert init[p] == items[p];
      }
    }
    if ValidList(init, rule) && ValidItem(last, rule) && (NameOf(last, rule).Some? ==> NameOf(last, rule).value !in Names(init, rule)) {
      forall p | 0 <= p < |items| ensures ValidItem(items[p], rule) {
        assert p < |init| ==> items[p] == init[p];
      }
      forall p, q | 0 <= p < q < |items| && NameOf(items[p], rule).Some? ensures NameOf(items[p], rule) != NameOf(items[q], rule) {
        assert init[p] == items[p];
        if q < |init| {
          assert init[q] == items[q];
        } else {
          assert NamedAt(init, p, NameOf(items[p], rule).value, rule);
        }
      }
    }
  }

  // ---------- The engine computes the relation ----------

  lemma EntriesAre(l: map<string, Tree>, r: map<string, Tree>, rule: Rule, keyed: bool, m: map<string, Tree>)
    ensures MergeEntries(l, r, rule, keyed) == Ok(m) <==>
              && m.Keys == l.Keys + r.Keys
              && forall k | k in m :: EntryAt(l, r, rule, keyed, k) == Ok(Some(m[k]))
  {
    EntriesPointwise(l, r, rule, keyed);
    if m.Keys == l.Keys + r.Keys && forall k | k in m :: EntryAt(l, r, rule, keyed, k) == Ok(Some(m[k])) {
      var spec := Tabulate(l, r, rule, keyed);
      assert forall k | k in m :: spec[k] == EntryAt(l, r, rule, keyed, k);
      EntriesMerge(spec, l, r, rule, keyed, m);
    }
    if MergeEntries(l, r, rule, keyed) == Ok(m) {
      forall k | k in m ensures EntryAt(l, r, rule, keyed, k) == Ok(Some(m[k])) {
        assert EntryAt(l, r, rule, keyed, k) == Ok(Get(m, k));
      }
    }
  }

  /** The engine succeeds with `t` if and only if `t` is the merge. */
  lemma {:induction false} MergesExactly(x: Tree, y: Tree, t: Tree, rule: Rule)
    ensures Apply(x, y, rule) == Ok(t) <==> Merges(x, y, t, rule)
    decreases Height(x), 1
  {
    match (x, y, t) {
      case (Map(l), Map(r), Map(m)) =>
        assert Heights(l) < Height(x);
        MapsExactly(l, r, m, rule);
        SetsExactly(l, r, m, rule);
        ApplyMaps(l, r, rule);
      case (List(l), List(r), List(s)) =>
        if rule.kind == ListKind {
          ListsExactly(l, r, s, rule);
        } else if rule.kind == ScalarListKind {
          ScalarListsExactly(l, r, s);
        }
      case _ =>
        if !x.Null? && !y.Null? && Apply(x, y, rule).Ok? {
          ShapeOfMerged(x, y, rule);
        }
    }
  }

  lemma {:induction false} MapsExactly(l: map<string, Tree>, r: map<string, Tree>, m: map<string, Tree>, rule: Rule)
    ensures MergeEntries(l, r, rule, false) == Ok(m) <==> MapsTo(l, r, m, rule)
    decreases Heights(l), 2
  {
    EntriesAre(l, r, rule, false, m);
    if m.Keys == l.Keys + r.Keys {
      forall k | k in m
        ensures EntryAt(l, r, rule, false, k) == Ok(Some(m[k])) <==>
                  if k !in l then m[k] == r[k]
                  else if k !in r then m[k] == l[k]
                  else Merges(Normal(rule, k, l[k]), Normal(rule, k, r[k]), m[k], Below(rule, k))
      {
        if k in l && k in r {
          assert NormID(rule, false, k, l[k]) == Normal(rule, k, l[k]) && NormID(rule, false, k, r[k]) == Normal(rule, k, r[k]);
          assert ChildRule(rule, k) == Below(rule, k);
          MergesExactly(Normal(rule, k, l[k]), Normal(rule, k, r[k]), m[k], Below(rule, k));
        }
      }
    }
  }

  lemma {:induction false} SetsExactly(l: map<string, Tree>, r: map<string, Tree>, m: map<string, Tree>, rule: Rule)
    ensures AllMaps(l) && AllMaps(r) && MergeEntries(l, r, rule, true) == Ok(m) <==> SetsTo(l, r, m, rule)
    decreases Heights(l), 2
  {
    EntriesAre(l, r, rule, true, m);
    if m.Keys == l.Keys + r.Keys {
      forall k | k in m
        ensures EntryAt(l, r, rule, true, k) == Ok(Some(m[k])) <==>
                  if k !in l then m[k] == r[k]
                  else if k !in r then m[k] == l[k]
                  else rule.allowMergeSameID && Merges(l[k], r[k], m[k], rule.(kind := MapKind))
      {
        if k in l && k in r {
          MergesExactly(l[k], r[k], m[k], rule.(kind := MapKind));
        }
      }
    }
  }

  lemma {:induction false} WithoutIsFresh(names: seq<string>, seen: seq<string>)
    ensures Without(names, seen) == Fresh(names, seen)
    decreases |names|
  {
    if names != [] {
      FreshOfHead(names, seen);
      WithoutIsFresh(names[1..], seen);
    }
  }

  lemma {:induction false} FreshOfHead(names: seq<string>, seen: seq<string>)
    requires names != []
    ensures Fresh(names, seen) == (if names[0] in seen then [] else [names[0]]) + Fresh(names[1..], seen)
    decreases |names|
  {
    if |names| == 1 {
      assert names[..0] == [] && names[1..] == [];
    } else {
      var init := names[..|names| - 1];
      FreshOfHead(init, seen);
      assert init[1..] == names[1..][..|names[1..]| - 1];
    }
  }

  lemma {:induction false} SelectAt(order: seq<string>, items: map<string, Tree>, i: nat)
    requires i < |order| && order[i] in items
    ensures |Select(order, items)| == |order| && Select(order, items)[i] == items[order[i]]
    decreases |order|
  {
    SelectLength(order[..|order| - 1], items);
    if i < |order| - 1 {
      SelectAt(order[..|order| - 1], items, i);
    }
  }

  lemma {:induction false} SelectLength(order: seq<string>, items: map<string, Tree>)
    ensures |Select(order, items)| == |order|
    decreases |order|
  {
    if order != [] {
      SelectLength(order[..|order| - 1], items);
    }
  }

  /** The merged object of one id. */
  lemma {:induction false} ItemExactly(l: seq<Tree>, r: seq<Tree>, li: Index, ri: Index, id: string, t: Tree, rule: Rule)
    requires IndexList(l, rule) == Ok(li) && IndexList(r, rule) == Ok(ri)
    requires id in Names(l, rule) || id in Names(r, rule)
    ensures EntryAt(li.items, ri.items, rule, true, id) == Ok(Some(t)) <==> ItemTo(l, r, id, t, rule)
    decreases Height(List(l)), 0, 0
  {
    hide Names, Merges, Apply, IndexList, ValidList;
    IndexIs(l, rule);
    IndexIs(r, rule);
    NamesAre(l, rule);
    NamesAre(r, rule);
    if id in Names(l, rule) && id in Names(r, rule) {
      var p :| NamedAt(l, p, id, rule);
      var q :| NamedAt(r, q, id, rule);
      HeightOfItem(l, p);
      assert li.items[id] == l[p] && ri.items[id] == r[q];
      MergesExactly(l[p], r[q], t, rule.(kind := MapKind));
      forall p', q' | NamedAt(l, p', id, rule) && NamedAt(r, q', id, rule) ensures l[p'] == l[p] && r[q'] == r[q] {
        assert li.items[id] == l[p'] && ri.items[id] == r[q'];
      }
    } else if id in Names(l, rule) {
      var p :| NamedAt(l, p, id, rule);
      assert li.items[id] == l[p];
    } else {
      var q :| NamedAt(r, q, id, rule);
      assert ri.items[id] == r[q];
    }
  }

  lemma NamesOfBoth(l: seq<Tree>, r: seq<Tree>, rule: Rule)
    requires IndexList(l, rule).Ok? && IndexList(r, rule).Ok?
    ensures var names := Names(l, rule) + Without(Names(r, rule), Names(l, rule));
            && NoDups(names)
            && (forall id :: id in names <==> id in Names(l, rule) || id in Names(r, rule))
            && Without(Names(r, rule), Names(l, rule)) == Fresh(Names(r, rule), Names(l, rule))
  {
    IndexIs(l, rule);
    IndexIs(r, rule);
    IndexWellFormed(l, rule);
    IndexWellFormed(r, rule);
    WithoutIsFresh(Names(r, rule), Names(l, rule));
    FreshIds(Names(r, rule), Names(l, rule));
    FreshNoDups(Names(r, rule), Names(l, rule));
    DisjointNoDups(Names(l, rule), Fresh(Names(r, rule), Names(l, rule)));
  }

  lemma {:induction false} ListsExactly(l: seq<Tree>, r: seq<Tree>, t: seq<Tree>, rule: Rule)
    ensures MergeLists(l, r, rule) == Ok(List(t)) <==> ListsTo(l, r, t, rule)
    decreases Height(List(l)), 0
  {
    IndexIs(l, rule);
    IndexIs(r, rule);
    if ValidList(l, rule) && ValidList(r, rule) {
      var li, ri := IndexList(l, rule).value, IndexList(r, rule).value;
      NamesOfBoth(l, r, rule);
      if MergeLists(l, r, rule) == Ok(List(t)) {
        ListsAreMerged(l, r, li, ri, t, rule);
      }
      if ListsTo(l, r, t, rule) {
        MergedAreLists(l, r, li, ri, t, rule);
      }
    }
  }

  lemma {:induction false} ListsAreMerged(l: seq<Tree>, r: seq<Tree>, li: Index, ri: Index, t: seq<Tree>, rule: Rule)
    requires IndexList(l, rule) == Ok(li) && IndexList(r, rule) == Ok(ri) && ValidList(l, rule) && ValidList(r, rule)
    requires MergeLists(l, r, rule) == Ok(List(t))
    ensures ListsTo(l, r, t, rule)
    decreases Height(List(l)), 0, 1
  {
    IndexIs(l, rule);
    IndexIs(r, rule);
    NamesOfBoth(l, r, rule);
    var names := Names(l, rule) + Without(Names(r, rule), Names(l, rule));
    var merged := MergeEntries(li.items, ri.items, rule, true).value;
    EntriesAre(li.items, ri.items, rule, true, merged);
    SelectLength(names, merged);
    assert t == Select(names, merged) + (li.tail + ri.tail);
    forall i | 0 <= i < |names| ensures ItemTo(l, r, names[i], t[i], rule) {
      assert names[i] in names;
      SelectAt(names, merged, i);
      ItemExactly(l, r, li, ri, names[i], t[i], rule);
    }
  }

  /** The merged objects of a list by id. */
  function ByName(names: seq<string>, t: seq<Tree>): map<string, Tree>
    requires |t| >= |names|
    decreases |names|
  {
    if names == [] then map[]
    else
      var n := |names| - 1;
      ByName(names[..n], t)[names[n] := t[n]]
  }

  lemma {:induction false} ByNameIs(names: seq<string>, t: seq<Tree>)
    requires |t| >= |names| && NoDups(names)
    ensures forall id :: id in ByName(names, t) <==> id in names
    ensures forall i | 0 <= i < |names| :: ByName(names, t)[names[i]] == t[i]
    decreases |names|
  {
    if names != [] {
      ByNameIs(names[..|names| - 1], t);
    }
  }

  lemma {:induction false} SelectByName(names: seq<string>, t: seq<Tree>, items: map<string, Tree>)
    requires |t| >= |names| && forall i | 0 <= i < |names| :: names[i] in items && items[names[i]] == t[i]
    ensures Select(names, items) == t[..|names|]
    decreases |names|
  {
    if names != [] {
      SelectByName(names[..|names| - 1], t, items);
    }
  }

  lemma {:induction false} MergedAreLists(l: seq<Tree>, r: seq<Tree>, li: Index, ri: Index, t: seq<Tree>, rule: Rule)
    requires IndexList(l, rule) == Ok(li) && IndexList(r, rule) == Ok(ri)
    requires ListsTo(l, r, t, rule)
    ensures MergeLists(l, r, rule) == Ok(List(t))
    decreases Height(List(l)), 0, 1
  {
    hide Merges, ItemTo, Apply, MergeEntries, MergeLists, EntryAt, Names, Without, Unnamed, Fresh, ByName, Select, ValidList;
    IndexIs(l, rule);
    IndexIs(r, rule);
    NamesOfBoth(l, r, rule);
    var names := Names(l, rule) + Without(Names(r, rule), Names(l, rule));
    var merged := ByName(names, t);
    ByNameIs(names, t);
    forall id | id in merged ensures EntryAt(li.items, ri.items, rule, true, id) == Ok(Some(merged[id])) {
      var i :| 0 <= i < |names| && names[i] == id;
      ItemExactly(l, r, li, ri, id, t[i], rule);
    }
    assert merged.Keys == li.items.Keys + ri.items.Keys;
    EntriesAre(li.items, ri.items, rule, true, merged);
    SelectByName(names, t, merged);
    MergedByIndex(l, r, li, ri, merged, rule);
    assert t == t[..|names|] + t[|names|..];
  }

  lemma MergedByIndex(l: seq<Tree>, r: seq<Tree>, li: Index, ri: Index, merged: map<string, Tree>, rule: Rule)
    requires IndexList(l, rule) == Ok(li) && IndexList(r, rule) == Ok(ri)
    requires MergeEntries(li.items, ri.items, rule, true) == Ok(merged)
    ensures MergeLists(l, r, rule)
         == Ok(List(Select(li.order + Fresh(ri.order, li.order), merged) + (li.tail + ri.tail)))
  {}

  // ---------- Scalar lists ----------

  lemma {:induction false} PickedOfPrefix(r: seq<Tree>, n: nat, at: seq<nat>)
    requires n <= |r| && forall i | 0 <= i < |at| :: at[i] < n
    ensures Picked(r, at) == Picked(r[..n], at)
    decreases |at|
  {
    if at != [] {
      PickedOfPrefix(r, n, at[..|at| - 1]);
    }
  }

  lemma IsNewOfPrefix(l: seq<Tree>, r: seq<Tree>, p: int)
    requires r != []
    ensures var n := |r| - 1;
            IsNew(l, r, p) <==> IsNew(l, r[..n], p) || (p == n && r[n] !in l && r[n] !in r[..n])
  {
    var n := |r| - 1;
    if 0 <= p < n {
      assert r[..n][..p] == r[..p];
    }
  }

  lemma NewAtSnoc(at: seq<nat>, l: seq<Tree>, r: seq<Tree>)
    requires r != [] && NewAt(at, l, r[..|r| - 1])
    ensures var n := |r| - 1;
            && NewAt(if r[n] in l || r[n] in r[..n] then at else at + [n], l, r)
            && forall i | 0 <= i < |at| :: at[i] < n
  {
    var n, init := |r| - 1, r[..|r| - 1];
    var new' := r[n] !in l && r[n] !in r[..n];
    var after := if new' then at + [n] else at;
    forall i | 0 <= i < |at| ensures at[i] < n {
      assert at[i] in at;
      assert IsNew(l, init, at[i]);
    }
    forall p ensures p in after <==> IsNew(l, r, p) {
      IsNewOfPrefix(l, r, p);
      assert p in at <==> IsNew(l, init, p);
    }
  }

  lemma {:induction false} AddNewAt(l: seq<Tree>, r: seq<Tree>) returns (at: seq<nat>)
    ensures NewAt(at, l, r) && AddNew(l, r) == l + Picked(r, at)
    decreases |r|
  {
    hide NewAt;
    at := [];
    if r == [] {
      EmptyNewAt(l, r);
    } else {
      var n, init := |r| - 1, r[..|r| - 1];
      var before := AddNewAt(l, init);
      AddNewItems(l, init);
      NewAtSnoc(before, l, r);
      PickedOfPrefix(r, n, before);
      if r[n] in l || r[n] in r[..n] {
        at := before;
      } else {
        at := before + [n];
        PickedSnoc(r, before, n);
        assert l + (Picked(r, before) + [r[n]]) == (l + Picked(r, before)) + [r[n]];
      }
    }
  }

  lemma EmptyNewAt(l: seq<Tree>, r: seq<Tree>)
    requires r == []
    ensures NewAt([], l, r) && l + Picked(r, []) == l
  {}

  lemma PickedSnoc(r: seq<Tree>, at: seq<nat>, n: nat)
    requires n < |r|
    ensures Picked(r, at + [n]) == Picked(r, at) + [r[n]]
  {
    assert (at + [n])[..|at|] == at;
  }

  lemma {:induction false} SameIncreasing(a: seq<nat>, b: seq<nat>)
    requires forall i, j | 0 <= i < j < |a| :: a[i] < a[j]
    requires forall i, j | 0 <= i < j < |b| :: b[i] < b[j]
    requires forall p :: p in a <==> p in b
    ensures a == b
    decreases |a|
  {
    if b != [] {
      assert b[0] in b;
    }
    if a != [] {
      assert a[|a| - 1] in a;
      assert b != [];
      var x, y := a[|a| - 1], b[|b| - 1];
      assert y in b;
      assert x == y;
      var a', b' := a[..|a| - 1], b[..|b| - 1];
      forall p ensures p in a' <==> p in b' {
        assert p in a' <==> p in a && p != x by { LastOnce(a, p); }
        assert p in b' <==> p in b && p != y by { LastOnce(b, p); }
      }
      SameIncreasing(a', b');
    }
  }

  lemma LastOnce(a: seq<nat>, p: int)
    requires a != [] && forall i, j | 0 <= i < j < |a| :: a[i] < a[j]
    ensures p in a[..|a| - 1] <==> p in a && p != a[|a| - 1]
  {}

  lemma AllScalarIs(l: seq<Tree>)
    ensures AllScalar(l) <==> forall p | 0 <= p < |l| :: !l[p].Map? && !l[p].List?
  {
    if forall p | 0 <= p < |l| :: !l[p].Map? && !l[p].List? {
      forall t | t in l ensures IsScalarItem(t) {
        var p :| 0 <= p < |l| && l[p] == t;
      }
    }
    if AllScalar(l) {
      forall p | 0 <= p < |l| ensures !l[p].Map? && !l[p].List? {
        assert l[p] in l;
      }
    }
  }

  lemma ScalarListsExactly(l: seq<Tree>, r: seq<Tree>, t: seq<Tree>)
    ensures MergeScalarLists(l, r) == Ok(List(t)) <==> ScalarListsTo(l, r, t)
  {
    var at := AddNewAt(l, r);
    if ScalarListsTo(l, r, t) {
      var bt :| NewAt(bt, l, r) && t == l + Picked(r, bt);
      SameIncreasing(at, bt);
    }
    AllScalarIs(l);
    AllScalarIs(r);
    assert NewAt(at, l, r);
  }
}
