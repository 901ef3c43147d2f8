/**
 The merge rules and what it means to merge two trees under a rule.

 `Apply` is the value that `ApplyMergeRules` returns. Map values and the keyed
 items of lists and sets are merged entry by entry by one function,
 `MergeEntries`; `keyed` tells the two apart.
 */
module MergeRules {
  import opened Trees

  /** `OtherKind` is any kind string the switch statements do not name. */
  datatype Kind = ScalarKind | MapKind | ListKind | SetKind | ScalarListKind | OtherKind

  datatype Rule = Rule(
    kind: Kind,
    idAttr: string,
    idOptional: bool,
    allowMergeSameID: bool,
    supportsLabels: bool,
    children: map<string, Rule>)

  const SCALAR_RULE := Rule(ScalarKind, "", false, false, false, map[])

  function ChildRule(rule: Rule, attrib: string): Rule {
    if attrib in rule.children then rule.children[attrib] else SCALAR_RULE
  }

  // ---------- Ids and the index of a keyed list ----------

  /** `Ok(None)` is an item without the id attribute under a rule that allows it. */
  function ExtractID(item: map<string, Tree>, rule: Rule): Result<Option<string>> {
    if rule.idAttr !in item then
      if rule.idOptional then Ok(None) else Err
    else
      match AsString(item[rule.idAttr])
      case Some(id) => Ok(Some(id))
      case None => Err
  }

  /** Ids in order of appearance, the items by id, and the anonymous items. */
  datatype Index = Index(order: seq<string>, items: map<string, Tree>, tail: seq<Tree>)

  const EMPTY_INDEX := Index([], map[], [])

  function AddItem(ix: Index, item: Tree, rule: Rule): Result<Index> {
    if !item.Map? then Err
    else
      match ExtractID(item.m, rule)
      case Err => Err
      case Ok(None) => Ok(ix.(tail := ix.tail + [item]))
      case Ok(Some(id)) =>
        if id in ix.items then Err
        else Ok(ix.(order := ix.order + [id], items := ix.items[id := item]))
  }

  function IndexList(items: seq<Tree>, rule: Rule): Result<Index>
    decreases |items|
  {
    if items == [] then Ok(EMPTY_INDEX)
    else
      match IndexList(items[..|items| - 1], rule)
      case Err => Err
      case Ok(ix) => AddItem(ix, items[|items| - 1], rule)
  }

  lemma IndexItems(items: seq<Tree>, rule: Rule)
    ensures IndexList(items, rule).Ok? ==>
              forall id | id in IndexList(items, rule).value.items :: IndexList(items, rule).value.items[id] in items
    decreases |items|
  {
    if items != [] {
      IndexItems(items[..|items| - 1], rule);
    }
  }

  /** The ids of `order` that do not occur in `seen`. */
  function Fresh(order: seq<string>, seen: seq<string>): seq<string>
    decreases |order|
  {
    if order == [] then []
    else
      var last := order[|order| - 1];
      Fresh(order[..|order| - 1], seen) + if last in seen then [] else [last]
  }

  /** The items with the given ids; looking up an absent id gives null. */
  function Select(order: seq<string>, items: map<string, Tree>): seq<Tree>
    decreases |order|
  {
    if order == [] then []
    else
      var last := order[|order| - 1];
      Select(order[..|order| - 1], items) + [if last in items then items[last] else Null]
  }

  /** The list an index stands for: the items in order, then the anonymous ones. */
  function Render(ix: Index): seq<Tree> {
    Select(ix.order, ix.items) + ix.tail
  }

  // ---------- Scalar lists ----------

  predicate IsScalarItem(t: Tree) {
    !t.Map? && !t.List?
  }

  predicate AllScalar(items: seq<Tree>) {
    forall t | t in items :: IsScalarItem(t)
  }

  /** `output` extended with the items of `items` it does not hold yet. */
  function AddNew(output: seq<Tree>, items: seq<Tree>): seq<Tree>
    decreases |items|
  {
    if items == [] then output
    else
      var last := items[|items| - 1];
      var before := AddNew(output, items[..|items| - 1]);
      if last in before then before else before + [last]
  }

  // ---------- Merging ----------

  /** The rule for the entry `k` of a map (not keyed), or for an item of a list or set (keyed). */
  function EntryRule(rule: Rule, keyed: bool, k: string): Rule {
    if keyed then rule.(kind := MapKind) else ChildRule(rule, k)
  }

  /** Under the id attribute of a map, numbers are read as their strings. */
  function NormID(rule: Rule, keyed: bool, k: string, t: Tree): (r: Tree)
    ensures Height(r) == Height(t)
  {
    if !keyed && k == rule.idAttr then
      match AsString(t)
      case Some(s) => Leaf(Str(s))
      case None => t
    else t
  }

  /** Merges two entries with the same key. */
  function Entry(rule: Rule, keyed: bool, k: string, x: Tree, y: Tree): Result<Tree>
    decreases Height(x), 2
  {
    if keyed && !rule.allowMergeSameID then Err
    else Apply(NormID(rule, keyed, k, x), NormID(rule, keyed, k, y), EntryRule(rule, keyed, k))
  }

  /** An entry present on one side only is passed through as it is. */
  function EntryOpt(rule: Rule, keyed: bool, k: string, x: Option<Tree>, y: Option<Tree>): Result<Option<Tree>>
    decreases if x.Some? then Height(x.value) else 0, 3
  {
    match (x, y)
    case (None, _) => Ok(y)
    case (_, None) => Ok(x)
    case (Some(u), Some(v)) =>
      match Entry(rule, keyed, k, u, v)
      case Ok(t) => Ok(Some(t))
      case Err => Err
  }

  function MergeEntries(l: map<string, Tree>, r: map<string, Tree>, rule: Rule, keyed: bool): Result<map<string, Tree>>
    decreases Heights(l), 4
  {
    if forall k | k in l && k in r :: Entry(rule, keyed, k, l[k], r[k]).Ok? then
      Ok(map k | k in l.Keys + r.Keys ::
           if k !in l then r[k]
           else if k !in r then l[k]
           else Entry(rule, keyed, k, l[k], r[k]).value)
    else Err
  }

  predicate AllMaps(m: map<string, Tree>) {
    forall k | k in m :: m[k].Map?
  }

  function MergeIndex(l: Index, r: Index, rule: Rule): Result<Index>
    decreases Heights(l.items), 5
  {
    match MergeEntries(l.items, r.items, rule, true)
    case Err => Err
    case Ok(items) => Ok(Index(l.order + Fresh(r.order, l.order), items, l.tail + r.tail))
  }

  function MergeLists(l: seq<Tree>, r: seq<Tree>, rule: Rule): Result<Tree>
    decreases Height(List(l)), 0
  {
    match (IndexList(l, rule), IndexList(r, rule))
    case (Ok(li), Ok(ri)) =>
      IndexItems(l, rule);
      HeightsBelow(li.items, l);
      (match MergeIndex(li, ri, rule)
       case Ok(ix) => Ok(List(Render(ix)))
       case Err => Err)
    case _ => Err
  }

  function MergeScalarLists(l: seq<Tree>, r: seq<Tree>): Result<Tree> {
    if AllScalar(l) && AllScalar(r) then Ok(List(AddNew(l, r))) else Err
  }

  function MergeMaps(l: map<string, Tree>, r: map<string, Tree>, rule: Rule): Result<Tree>
    decreases Heights(l), 5
  {
    if rule.kind == MapKind || (rule.kind == SetKind && AllMaps(l) && AllMaps(r)) then
      match MergeEntries(l, r, rule, rule.kind == SetKind)
      case Ok(m) => Ok(Map(m))
      case Err => Err
    else Err
  }

  /** The result of merging `left` and `right` under `rule`. */
  function Apply(left: Tree, right: Tree, rule: Rule): Result<Tree>
    decreases Height(left), 1
  {
    if left.Null? then Ok(right)
    else if right.Null? then Ok(left)
    else
      match (left, right)
      case (Map(l), Map(r)) => assert Heights(l) < Height(left); MergeMaps(l, r, rule)
      case (List(l), List(r)) =>
        if rule.kind == ListKind then MergeLists(l, r, rule)
        else if rule.kind == ScalarListKind then MergeScalarLists(l, r)
        else Err
      case (Leaf(_), Leaf(_)) => if rule.kind == ScalarKind && left == right then Ok(left) else Err
      case _ => Err
  }
}
