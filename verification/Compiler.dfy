/**
 The merge engine as the compiler runs it: loops that fill local maps and slices.
 Each method is proved to return the value its specification function gives.
 Iteration over a map, or over its sorted keys, is modelled by picking any
 remaining key, so nothing depends on the order.
 */
module Compiler {
  import opened Trees
  import opened MergeRules
  import opened MergeFacts
  import opened Fragments

  /** Plugins and labels, which many kinds of object share, plus other entries. */
  function BasicRules(other: map<string, Rule>): map<string, Rule> {
    map["plugins" := SCALAR_RULE.(kind := MapKind), "labels" := SCALAR_RULE.(kind := MapKind)] + other
  }

  const SCALAR_LIST_RULE := SCALAR_RULE.(kind := ScalarListKind)
  const LABELS_RULE := SCALAR_RULE.(kind := MapKind)

  function ListRule(idAttr: string, idOptional: bool, allowMergeSameID: bool, supportsLabels: bool,
                    children: map<string, Rule>): Rule {
    Rule(ListKind, idAttr, idOptional, allowMergeSameID, supportsLabels, children)
  }

  /** The APISIX-specific rules. */
  function DefaultMergingRules(): Rule {
    Rule(MapKind, "", false, false, false, map[
      "routes" := ListRule("id", true, true, true, BasicRules(map["uris" := SCALAR_LIST_RULE, "hosts" := SCALAR_LIST_RULE])),
      "services" := ListRule("id", true, true, true, BasicRules(map["hosts" := SCALAR_LIST_RULE])),
      "upstreams" := ListRule("id", true, false, true, map[]),
      "ssls" := ListRule("id", true, false, true, map["snis" := SCALAR_LIST_RULE]),
      "global_rules" := ListRule("id", false, false, false, map[]),
      "consumer_groups" := ListRule("id", false, true, true, BasicRules(map[])),
      "plugin_configs" := ListRule("id", false, true, true, BasicRules(map[])),
      "stream_routes" := ListRule("id", true, true, true, map["labels" := LABELS_RULE]),
      "protos" := ListRule("id", true, false, true, map["labels" := LABELS_RULE.(idAttr := "route_id")]),
      "consumers" := ListRule("username", false, true, true,
                              BasicRules(map["credentials" := ListRule("credential_id", false, false, false, map[])])),
      "plugin_metadata" := ListRule("id", false, false, false, map[])
    ])
  }

  const KINDS: set<string> := {
    "routes", "services", "upstreams", "ssls", "global_rules", "consumer_groups", "plugin_configs", "stream_routes",
    "protos", "consumers", "plugin_metadata"
  }

  lemma DefaultKinds()
    ensures DefaultMergingRules().kind == MapKind && DefaultMergingRules().children.Keys == KINDS
  {}

  /** What the default rules say of a kind of objects: all are lists, told apart here by what each allows. */
  lemma DefaultRulesOfKind(k: string)
    requires k in KINDS
    ensures var rule := DefaultMergingRules().children[k];
            && rule.kind == ListKind && rule.idAttr == (if k == "consumers" then "username" else "id")
            && (rule.supportsLabels <==> k !in {"global_rules", "plugin_metadata"})
            && (rule.idOptional <==> k in {"routes", "services", "upstreams", "ssls", "stream_routes", "protos"})
            && (rule.allowMergeSameID <==>
                  k in {"routes", "services", "consumer_groups", "plugin_configs", "stream_routes", "consumers"})
  {}

  predicate HasKind(rules: map<string, Rule>, a: string, kind: Kind) {
    a in rules && rules[a].kind == kind
  }

  /** The attributes of an object that are merged as objects, by kind. */
  lemma DefaultMapAttributes(k: string)
    requires k in KINDS
    ensures var rules := DefaultMergingRules().children[k].children;
            && (HasKind(rules, "plugins", MapKind) <==>
                  k in {"routes", "services", "consumer_groups", "plugin_configs", "consumers"})
            && (HasKind(rules, "labels", MapKind) <==>
                  k in {"routes", "services", "consumer_groups", "plugin_configs", "consumers", "stream_routes", "protos"})
  {}

  /** Those that are merged as lists of scalars. */
  lemma DefaultHosts(k: string)
    requires k in KINDS
    ensures HasKind(DefaultMergingRules().children[k].children, "hosts", ScalarListKind) <==> k in {"routes", "services"}
  {}

  lemma DefaultUrisAndSnis(k: string)
    requires k in KINDS
    ensures var rules := DefaultMergingRules().children[k].children;
            && (HasKind(rules, "uris", ScalarListKind) <==> k == "routes")
            && (HasKind(rules, "snis", ScalarListKind) <==> k == "ssls")
  {}

  /** The one that is a list of objects, which may not share an id. */
  lemma DefaultListAttributes(k: string)
    requires k in KINDS
    ensures var rules := DefaultMergingRules().children[k].children;
            && (HasKind(rules, "credentials", ListKind) <==> k == "consumers")
            && (k == "consumers" ==> rules["credentials"].idAttr == "credential_id" && !rules["credentials"].allowMergeSameID)
  {}

  /** Every other attribute holds scalars. */
  lemma DefaultAttributes(k: string, a: string)
    requires k in KINDS && a in DefaultMergingRules().children[k].children
    ensures var rules := DefaultMergingRules().children[k].children;
            || (a in {"plugins", "labels"} && rules[a].kind == MapKind)
            || (a in {"uris", "hosts", "snis"} && rules[a].kind == ScalarListKind)
            || (a == "credentials" && rules[a].kind == ListKind)
  {}

  /** Merges the fragments in the order they come. */
  method Merge(snippets: seq<Fragment>) returns (r: Result<Fragment>)
    ensures r == MergeAll(snippets, DefaultMergingRules())
  {
    var rootRule := DefaultMergingRules();
    var merged: Fragment := Null;
    for i := 0 to |snippets|
      invariant MergeAll(snippets[..i], rootRule) == Ok(merged)
    {
      assert snippets[..i + 1] == snippets[..i] + [snippets[i]];
      MergeAllSnoc(snippets[..i], snippets[i], rootRule);
      assert snippets == snippets[..i + 1] + snippets[i + 1..];
      MergeAllConcat(snippets[..i + 1], snippets[i + 1..], rootRule);
      StepIsApply(merged, snippets[i], rootRule);
      if merged.Null? {
        merged := snippets[i];
      } else {
        var mergedAny := ApplyMergeRules(merged, snippets[i], rootRule);
        if mergedAny.Err? {
          return Err;
        }
        ShapeOfMerged(merged, snippets[i], rootRule);
        merged := mergedAny.value;
      }
    }
    assert snippets[..|snippets|] == snippets;
    return Ok(merged);
  }

  method ApplyMergeRules(left: Tree, right: Tree, rule: Rule) returns (r: Result<Tree>)
    ensures r == Apply(left, right, rule)
    decreases Height(left), 1
  {
    if left.Null? && right.Null? {
      return Ok(Null);
    }
    if left.Null? {
      return Ok(right);
    }
    if right.Null? {
      return Ok(left);
    }
    if left.Map? && right.Map? {
      assert Heights(left.m) < Height(left);
      match rule.kind {
        case MapKind => r := MergeMap(left.m, right.m, rule);
        case SetKind => r := MergeSet(left.m, right.m, rule);
        case _ => r := Err;
      }
      return;
    }
    if left.List? && right.List? {
      match rule.kind {
        case ListKind => r := MergeList(left.items, right.items, rule);
        case ScalarListKind => r := MergeScalarList(left.items, right.items);
        case _ => r := Err;
      }
      return;
    }
    if !left.Map? && !right.Map? && !left.List? && !right.List? {
      if rule.kind != ScalarKind {
        return Err;
      }
      if left == right {
        return Ok(left);
      }
      return Err;
    }
    return Err;
  }

  method MergeMap(left: map<string, Tree>, right: map<string, Tree>, rule: Rule) returns (r: Result<Tree>)
    ensures r == match MergeEntries(left, right, rule, false)
                 case Ok(m) => Ok(Map(m))
                 case Err => Err
    decreases Heights(left), 3
  {
    ghost var spec := Tabulate(left, right, rule, false);
    OneSidedEntries(spec, left, right, rule, false);
    var merged, keys := map[], left.Keys + right.Keys;
    while keys != {}
      invariant keys <= left.Keys + right.Keys
      invariant merged.Keys == left.Keys + right.Keys - keys
      invariant forall k | k in merged :: spec[k] == Ok(Some(merged[k]))
      decreases keys
    {
      var key :| key in keys;
      keys := keys - {key};
      if key !in left {
        merged := merged[key := right[key]];
      } else if key !in right {
        merged := merged[key := left[key]];
      } else {
        var mergedValue := MergeValue(key, left[key], right[key], rule, left, right, spec);
        if mergedValue.Err? {
          return Err;
        }
        merged := merged[key := mergedValue.value];
      }
    }
    EntriesMerge(spec, left, right, rule, false, merged);
    return Ok(Map(merged));
  }

  /** The body of the loop above for a key that both sides have. */
  method MergeValue(key: string, left: Tree, right: Tree, rule: Rule, ghost l: map<string, Tree>,
                    ghost r: map<string, Tree>, ghost spec: map<string, Result<Option<Tree>>>) returns (merged: Result<Tree>)
    requires Tabulates(spec, l, r, rule, false)
    requires Get(l, key) == Some(left) && Get(r, key) == Some(right)
    ensures merged.Ok? ==> spec[key] == Ok(Some(merged.value))
    ensures merged.Err? ==> MergeEntries(l, r, rule, false) == Err
    decreases Height(left), 2
  {
    var leftValue, rightValue := left, right;
    if key == rule.idAttr {
      var stringVal := AsString(leftValue);
      if stringVal.Some? {
        leftValue := Leaf(Str(stringVal.value));
      }
      stringVal := AsString(rightValue);
      if stringVal.Some? {
        rightValue := Leaf(Str(stringVal.value));
      }
    }
    merged := ApplyMergeRules(leftValue, rightValue, ChildRule(rule, key));
    assert spec[key] == EntryAt(l, r, rule, false, key);
    if merged.Err? {
      EntryFails(l, r, rule, false, key);
    }
  }

  method MergeList(left: seq<Tree>, right: seq<Tree>, rule: Rule) returns (r: Result<Tree>)
    ensures r == MergeLists(left, right, rule)
    decreases Height(List(left)), 0
  {
    var leftIndex := IndexListByID(left, rule);
    if leftIndex.Err? {
      return Err;
    }
    var rightIndex := IndexListByID(right, rule);
    if rightIndex.Err? {
      return Err;
    }
    var li, ri := leftIndex.value, rightIndex.value;
    IndexOrders(left, rule);
    IndexOrders(right, rule);
    var mergedItems := MergeKeyedItems(li.items, ri.items, rule);
    if mergedItems.Err? {
      return Err;
    }
    var merged := mergedItems.value;

    var output, seen := LeftItems(li.order, merged);
    var added := RightItems(li.order, ri.order, merged, seen);
    MergeListsOutput(left, right, rule, li, ri, merged, output, added);
    output := output + added;
    output := output + li.tail;
    output := output + ri.tail;
    return Ok(List(output));
  }

  lemma MergeListsOutput(left: seq<Tree>, right: seq<Tree>, rule: Rule, li: Index, ri: Index,
                         merged: map<string, Tree>, output: seq<Tree>, added: seq<Tree>)
    requires IndexList(left, rule) == Ok(li) && IndexList(right, rule) == Ok(ri)
    requires MergeEntries(li.items, ri.items, rule, true) == Ok(merged)
    requires output == Select(li.order, merged) && added == Select(Fresh(ri.order, li.order), merged)
    ensures MergeLists(left, right, rule) == Ok(List(((output + added) + li.tail) + ri.tail))
  {
    SelectOfConcat(li.order, Fresh(ri.order, li.order), merged);
    TailsConcat(output + added, li.tail, ri.tail);
  }

  lemma TailsConcat(a: seq<Tree>, b: seq<Tree>, c: seq<Tree>)
    ensures (a + b) + c == a + (b + c)
  {}

  /** The first of the two loops of `MergeList` that lay out the merged items: the left ids. */
  method LeftItems(leftOrder: seq<string>, merged: map<string, Tree>) returns (output: seq<Tree>, seen: set<string>)
    requires forall i | 0 <= i < |leftOrder| :: leftOrder[i] in merged
    ensures output == Select(leftOrder, merged)
    ensures forall id :: id in seen <==> id in leftOrder
  {
    output, seen := [], {};
    for i := 0 to |leftOrder|
      invariant output == Select(leftOrder[..i], merged)
      invariant forall j | 0 <= j < i :: leftOrder[j] in seen
      invariant forall id | id in seen :: id in leftOrder
    {
      SelectStep(leftOrder, i, merged);
      output := output + [merged[leftOrder[i]]];
      seen := seen + {leftOrder[i]};
    }
    assert leftOrder[..|leftOrder|] == leftOrder;
  }

  /** The second loop: the right ids that were not seen yet. */
  method RightItems(ghost leftOrder: seq<string>, rightOrder: seq<string>, merged: map<string, Tree>,
                    leftSeen: set<string>) returns (output: seq<Tree>)
    requires forall i | 0 <= i < |rightOrder| :: rightOrder[i] in merged
    requires NoDups(rightOrder)
    requires forall id :: id in leftSeen <==> id in leftOrder
    ensures output == Select(Fresh(rightOrder, leftOrder), merged)
  {
    output := [];
    var seen := leftSeen;
    ghost var added: seq<string> := [];
    for i := 0 to |rightOrder|
      invariant added == Fresh(rightOrder[..i], leftOrder)
      invariant output == Select(added, merged)
      invariant leftSeen <= seen
      invariant forall id | id in seen :: id in leftSeen || id in added
    {
      var id := rightOrder[i];
      FreshStep(rightOrder, i, leftOrder);
      NotYetFresh(rightOrder, i, leftOrder);
      if id !in seen {
        SelectSnoc(added, id, merged);
        added := added + [id];
        output := output + [merged[id]];
        seen := seen + {id};
      }
    }
    assert rightOrder[..|rightOrder|] == rightOrder;
  }

  /** The ids of an index are distinct and have items; the items are maps from the list. */
  lemma IndexOrders(items: seq<Tree>, rule: Rule)
    requires IndexList(items, rule).Ok?
    ensures var ix := IndexList(items, rule).value;
            && (forall i | 0 <= i < |ix.order| :: ix.order[i] in ix.items)
            && NoDups(ix.order)
            && AllMaps(ix.items)
            && Heights(ix.items) < Height(List(items))
  {
    IndexWellFormed(items, rule);
    IndexItems(items, rule);
    var ix := IndexList(items, rule).value;
    HeightsBelow(ix.items, items);
    forall i | 0 <= i < |ix.order| ensures ix.order[i] in ix.items {
      assert ix.order[i] in ix.order;
    }
    forall id | id in ix.items ensures ix.items[id].Map? {
      assert HasID(ix.items[id], rule, id);
    }
  }

  method MergeSet(left: map<string, Tree>, right: map<string, Tree>, rule: Rule) returns (r: Result<Tree>)
    requires rule.kind == SetKind
    ensures r == MergeMaps(left, right, rule)
    decreases Heights(left), 4
  {
    var leftItems := IndexSet(left);
    if leftItems.Err? {
      return Err;
    }
    var rightItems := IndexSet(right);
    if rightItems.Err? {
      return Err;
    }
    var mergedItems := MergeKeyedItems(leftItems.value, rightItems.value, rule);
    if mergedItems.Err? {
      return Err;
    }
    return Ok(Map(mergedItems.value));
  }

  method MergeScalarList(left: seq<Tree>, right: seq<Tree>) returns (r: Result<Tree>)
    ensures r == MergeScalarLists(left, right)
  {
    var output: seq<Tree> := [];
    for i := 0 to |left|
      invariant output == left[..i]
      invariant forall t | t in left[..i] :: IsScalarItem(t)
    {
      if !IsScalarItem(left[i]) {
        return Err;
      }
      output := output + [left[i]];
    }
    for i := 0 to |right|
      invariant output == AddNew(left, right[..i])
      invariant forall t | t in right[..i] :: IsScalarItem(t)
    {
      assert right[..i + 1][..i] == right[..i];
      if !IsScalarItem(right[i]) {
        return Err;
      }
      var contained := ContainsScalar(output, right[i]);
      if !contained {
        output := output + [right[i]];
      }
    }
    assert right[..|right|] == right;
    return Ok(List(output));
  }

  method ContainsScalar(values: seq<Tree>, target: Tree) returns (found: bool)
    ensures found <==> target in values
  {
    for i := 0 to |values|
      invariant target !in values[..i]
    {
      if values[i] == target {
        return true;
      }
    }
    return false;
  }

  method IndexListByID(items: seq<Tree>, rule: Rule) returns (r: Result<Index>)
    ensures r == IndexList(items, rule)
  {
    var order: seq<string>, indexed: map<string, Tree>, tail: seq<Tree> := [], map[], [];
    for i := 0 to |items|
      invariant IndexList(items[..i], rule) == Ok(Index(order, indexed, tail))
    {
      var item := items[i];
      assert items[..i + 1] == items[..i] + [item];
      IndexSnoc(items[..i], Index(order, indexed, tail), item, rule);
      IndexFails(items, i + 1, rule);
      if !item.Map? {
        return Err;
      }
      var id := ExtractID(item.m, rule);
      match id {
        case Err =>
          return Err;
        case Ok(None) =>
          tail := tail + [item];
        case Ok(Some(id)) =>
          if id in indexed {
            return Err;
          }
          order, indexed := order + [id], indexed[id := item];
      }
    }
    assert items[..|items|] == items;
    return Ok(Index(order, indexed, tail));
  }

  /** Once a prefix has failed to index, the whole list fails. */
  lemma IndexFails(items: seq<Tree>, n: nat, rule: Rule)
    requires n <= |items|
    ensures IndexList(items[..n], rule).Err? ==> IndexList(items, rule).Err?
    decreases |items|
  {
    if n < |items| {
      var init := items[..|items| - 1];
      IndexFails(init, n, rule);
      assert init[..n] == items[..n];
    } else {
      assert items[..n] == items;
    }
  }

  method IndexSet(items: map<string, Tree>) returns (r: Result<map<string, Tree>>)
    ensures r == if AllMaps(items) then Ok(items) else Err
  {
    var indexed, keys := map[], items.Keys;
    while keys != {}
      invariant keys <= items.Keys
      invariant indexed.Keys == items.Keys - keys
      invariant forall k | k in indexed :: indexed[k] == items[k] && items[k].Map?
      decreases keys
    {
      var key :| key in keys;
      keys := keys - {key};
      if !items[key].Map? {
        return Err;
      }
      indexed := indexed[key := items[key]];
    }
    assert indexed == items;
    return Ok(indexed);
  }

  method MergeKeyedItems(left: map<string, Tree>, right: map<string, Tree>, rule: Rule) returns (r: Result<map<string, Tree>>)
    requires AllMaps(left) && AllMaps(right)
    ensures r == MergeEntries(left, right, rule, true)
    decreases Heights(left), 3
  {
    ghost var spec := Tabulate(left, right, rule, true);
    OneSidedEntries(spec, left, right, rule, true);
    var merged, ids := left, right.Keys;
    while ids != {}
      invariant ids <= right.Keys
      invariant forall k :: k in merged <==> k in left || (k in right && k !in ids)
      invariant forall k | k in merged :: if k in ids then k in left && merged[k] == left[k] else spec[k] == Ok(Some(merged[k]))
      decreases ids
    {
      var id :| id in ids;
      ids := ids - {id};
      if id !in merged {
        merged := merged[id := right[id]];
      } else {
        var mergedValue := MergeItem(id, merged[id], right[id], rule, left, right, spec);
        if mergedValue.Err? {
          return Err;
        }
        merged := merged[id := mergedValue.value];
      }
    }
    EntriesMerge(spec, left, right, rule, true, merged);
    return Ok(merged);
  }

  /** The body of the loop above for an id that both sides have. */
  method MergeItem(id: string, existing: Tree, value: Tree, rule: Rule, ghost left: map<string, Tree>,
                   ghost right: map<string, Tree>, ghost spec: map<string, Result<Option<Tree>>>) returns (r: Result<Tree>)
    requires existing.Map? && value.Map?
    requires Tabulates(spec, left, right, rule, true)
    requires Get(left, id) == Some(existing) && Get(right, id) == Some(value)
    ensures r.Ok? ==> r.value.Map? && spec[id] == Ok(Some(r.value))
    ensures r.Err? ==> MergeEntries(left, right, rule, true) == Err
    decreases Height(existing), 2
  {
    assert spec[id] == EntryAt(left, right, rule, true, id);
    if !rule.allowMergeSameID {
      EntryFails(left, right, rule, true, id);
      return Err;
    }
    r := ApplyMergeRules(existing, value, rule.(kind := MapKind));
    if r.Err? {
      EntryFails(left, right, rule, true, id);
    } else {
      ShapeOfMerged(existing, value, rule.(kind := MapKind));
    }
  }
}
