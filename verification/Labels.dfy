/**
 Ownership labels are written in place into the merged config of a gateway. The maps
 and lists of a decoded document are objects; a merge may share them with the
 fragments it came from. A deep copy shares nothing, so writing into it leaves every
 fragment, and with it the merge of every other gateway, unchanged.
 */
module Labels {
  import opened Trees
  import opened MergeRules
  import opened Cells
  import Compiler

  // ---------- Deep copy ----------

  /** An equal tree made of new objects only, none of them twice. */
  method DeepCopy(value: Value, ghost c: Cell, ghost nodes: set<object>)
      returns (out: Value, ghost d: Cell, ghost made: set<object>)
    requires value == ValueOf(c) && Holds(c, nodes)
    ensures Made(TreeOf(c), out, d, made) && fresh(made)
    decreases c, 1
  {
    match value {
      case VMap(node) =>
        var m: map<string, Value>;
        ghost var parts: map<string, Cell>;
        m, parts, made := CopyEntries(node.m, c, nodes);
        var copy := new MapNode(m);
        MapMade(TreeOf(c).m, copy, parts, made);
        out, d, made := VMap(copy), CMap(copy, parts), made + {copy};
      case VList(list) =>
        var items: seq<Value>;
        ghost var parts: seq<Cell>;
        items, parts, made := CopyItems(list.items, c, nodes);
        var copy := new ListNode(items);
        ListMade(TreeOf(c).items, copy, parts, made);
        out, d, made := VList(copy), CList(copy, parts), made + {copy};
      case _ =>
        out, d, made := value, c, {};
    }
  }

  /** The loop over the entries of a map. */
  method CopyEntries(m: map<string, Value>, ghost c: Cell, ghost nodes: set<object>)
      returns (out: map<string, Value>, ghost parts: map<string, Cell>, ghost made: set<object>)
    requires c.CMap? && Holds(c, nodes) && m == c.node.m
    ensures EntriesMade(TreeOf(c).m, out, parts, made) && fresh(made)
    decreases c, 0
  {
    out, parts, made := map[], map[], {};
    var keys := m.Keys;
    ghost var all, ts: map<string, Tree> := TreeOf(c).m, map[];
    while keys != {}
      invariant keys <= m.Keys && ts.Keys == m.Keys - keys && forall k | k in ts :: ts[k] == all[k]
      invariant EntriesMade(ts, out, parts, made) && fresh(made)
      decreases keys
    {
      var key :| key in keys;
      keys := keys - {key};
      var copied;
      ghost var d, more;
      copied, d, more := DeepCopy(m[key], c.m[key], nodes);
      EntryAdded(ts, out, parts, made, key, all[key], copied, d, more);
      ts, out, parts, made := ts[key := all[key]], out[key := copied], parts[key := d], made + more;
    }
    assert ts == all;
  }

  /** The loop over the items of a list. */
  method CopyItems(items: seq<Value>, ghost c: Cell, ghost nodes: set<object>)
      returns (out: seq<Value>, ghost parts: seq<Cell>, ghost made: set<object>)
    requires c.CList? && Holds(c, nodes) && items == c.list.items
    ensures ItemsMade(TreeOf(c).items, out, parts, made) && fresh(made)
    decreases c, 0
  {
    out, parts, made := [], [], {};
    ghost var ts := TreeOf(c).items;
    for i := 0 to |items|
      invariant ItemsMade(ts[..i], out, parts, made) && fresh(made)
    {
      var copied;
      ghost var d, more;
      copied, d, more := DeepCopy(items[i], c.items[i], nodes);
      ItemAdded(ts[..i], out, parts, made, ts[i], copied, d, more);
      assert ts[..i] + [ts[i]] == ts[..i + 1];
      out, parts, made := out + [copied], parts + [d], made + more;
    }
    assert ts[..|items|] == ts;
  }

  // ---------- The labels, on trees ----------

  function WithLabels(labels: map<string, Tree>, gw: string): map<string, Tree> {
    labels["managed-by" := Leaf(Str("sixpack"))]["sixpack-label" := Leaf(Str(gw))]
  }

  /** An object with its ownership labels; labels that are not an object are an error. */
  function LabelledItem(t: Tree, gw: string): Result<Tree> {
    match t
    case Map(m) =>
      (match Get<string, Tree>(m, "labels")
       case None => Ok(Map(m["labels" := Map(WithLabels(map[], gw))]))
       case Some(Null) => Ok(Map(m["labels" := Map(WithLabels(map[], gw))]))
       case Some(Map(labels)) => Ok(Map(m["labels" := Map(WithLabels(labels, gw))]))
       case Some(_) => Err)
    case _ => Ok(t)
  }

  /** A list of objects of one kind. */
  function LabelledKind(t: Tree, gw: string): Result<Tree> {
    match t
    case List(items) =>
      if exists i | 0 <= i < |items| :: LabelledItem(items[i], gw).Err? then Err
      else Ok(List(seq(|items|, i requires 0 <= i < |items| => LabelledItem(items[i], gw).value)))
    case _ => Ok(t)
  }

  function LabelledEntry(rules: map<string, Rule>, k: string, t: Tree, gw: string): Result<Tree> {
    if k in rules && rules[k].supportsLabels then LabelledKind(t, gw) else Ok(t)
  }

  /** A whole config: the objects of every kind that supports labels. */
  function Labelled(doc: map<string, Tree>, rules: map<string, Rule>, gw: string): Result<Tree> {
    if exists k | k in doc :: LabelledEntry(rules, k, doc[k], gw).Err? then Err
    else Ok(Map(map k | k in doc :: LabelledEntry(rules, k, doc[k], gw).value))
  }

  // ---------- The labels, in place ----------

  function WithLabelLeaves(node: MapNode, m: map<string, Cell>, gw: string): Cell {
    CMap(node, m["managed-by" := CLeaf(Str("sixpack"))]["sixpack-label" := CLeaf(Str(gw))])
  }

  lemma LabelsWritten(c: Cell, gw: string)
    requires c.CMap?
    ensures TreeOf(WithLabelLeaves(c.node, c.m, gw)) == Map(WithLabels(TreeOf(c).m, gw))
    ensures Nodes(WithLabelLeaves(c.node, c.m, gw)) <= Nodes(c)
  {
    EntryReplaced(c, "managed-by", CLeaf(Str("sixpack")));
    EntryReplaced(CMap(c.node, c.m["managed-by" := CLeaf(Str("sixpack"))]), "sixpack-label", CLeaf(Str(gw)));
  }

  /** Only the labels of an object were written, or given. */
  lemma Relabelled(c: Cell, e: Cell, nodes: set<object>, made: set<object>)
    requires c.CMap? && c.node in nodes && Nodes(c) <= nodes
    requires c.node.m.Keys == c.m.Keys + {"labels"} && c.node.m["labels"] == ValueOf(e)
    requires forall k | k in c.m && k != "labels" ::
               c.node.m[k] == ValueOf(c.m[k]) && Holds(c.m[k], Nodes(c.m[k])) && Nodes(c.m[k]) <= nodes
    requires Holds(e, nodes + made) && Nodes(e) <= Nodes(c) + made
    ensures Became(c, CMap(c.node, c.m["labels" := e]), Map(TreeOf(c).m["labels" := TreeOf(e)]), nodes, made)
  {
    var d := CMap(c.node, c.m["labels" := e]);
    EntryReplaced(c, "labels", e);
    forall k | k in d.m ensures Holds(d.m[k], nodes + made) {
      if k != "labels" {
        HoldsWithin(c.m[k], Nodes(c.m[k]), nodes + made);
      }
    }
  }

  /** What labelling an object means, by the cases of the code. */
  lemma LabelCases(c: Cell, gw: string)
    requires c.CMap?
    ensures "labels" !in c.m || c.m["labels"] == CNull ==>
              LabelledItem(TreeOf(c), gw) == Ok(Map(TreeOf(c).m["labels" := Map(WithLabels(map[], gw))]))
    ensures "labels" in c.m && c.m["labels"].CMap? ==>
              LabelledItem(TreeOf(c), gw) == Ok(Map(TreeOf(c).m["labels" := Map(WithLabels(TreeOf(c.m["labels"]).m, gw))]))
    ensures "labels" in c.m && !c.m["labels"].CNull? && !c.m["labels"].CMap? ==> LabelledItem(TreeOf(c), gw) == Err
  {}

  method EnsureManagedLabels(item: MapNode, gw: string, ghost c: Cell, ghost nodes: set<object>)
      returns (ok: bool, ghost d: Cell, ghost made: set<object>)
    requires c.CMap? && item == c.node && Holds(c, nodes) && Nodes(c) <= nodes && Separated(c)
    modifies nodes
    ensures fresh(made)
    ensures ok == LabelledItem(TreeOf(c), gw).Ok?
    ensures ok ==> Became(c, d, LabelledItem(TreeOf(c), gw).value, nodes, made)
  {
    LabelCases(c, gw);
    d, made := c, {};
    if "labels" !in item.m || item.m["labels"] == VNil {
      d, made := AddLabels(item, gw, c, nodes);
      return true, d, made;
    }
    match item.m["labels"] {
      case VMap(labels) =>
        d := ExtendLabels(labels, gw, c, nodes);
        ok := true;
      case _ => ok := false;
    }
  }

  /** The object has no labels yet. */
  method AddLabels(item: MapNode, gw: string, ghost c: Cell, ghost nodes: set<object>)
      returns (ghost d: Cell, ghost made: set<object>)
    requires c.CMap? && item == c.node && Holds(c, nodes) && Nodes(c) <= nodes && Separated(c)
    requires "labels" in c.m ==> c.m["labels"] == CNull
    modifies item
    ensures fresh(made)
    ensures Became(c, d, Map(TreeOf(c).m["labels" := Map(WithLabels(map[], gw))]), nodes, made)
  {
    EntriesHeld(c, nodes);
    var labels;
    ghost var e;
    labels, e := NewLabels(gw);
    made := {labels};
    item.m := item.m["labels" := VMap(labels)];
    d := CMap(item, c.m["labels" := e]);
    HoldsWithin(e, made, nodes + made);
    Relabelled(c, e, nodes, made);
  }

  method NewLabels(gw: string) returns (labels: MapNode, ghost e: Cell)
    ensures fresh(labels) && ValueOf(e) == VMap(labels) && Holds(e, {labels}) && Nodes(e) == {labels}
    ensures TreeOf(e) == Map(WithLabels(map[], gw))
  {
    labels := new MapNode(map["managed-by" := VScalar(Str("sixpack")), "sixpack-label" := VScalar(Str(gw))]);
    e := WithLabelLeaves(labels, map[], gw);
    LabelsWritten(CMap(labels, map[]), gw);
  }

  /** The object has labels: they are kept, and the two are added to them. */
  method ExtendLabels(labels: MapNode, gw: string, ghost c: Cell, ghost nodes: set<object>) returns (ghost d: Cell)
    requires c.CMap? && Holds(c, nodes) && Nodes(c) <= nodes && Separated(c)
    requires "labels" in c.m && c.m["labels"].CMap? && labels == c.m["labels"].node
    modifies labels
    ensures Became(c, d, Map(TreeOf(c).m["labels" := Map(WithLabels(TreeOf(c.m["labels"]).m, gw))]), nodes, {})
  {
    ghost var l := c.m["labels"];
    EntriesHeld(c, nodes);
    ghost var e := WriteLabels(labels, gw, l, Nodes(l));
    HoldsWithin(e, Nodes(l), nodes + {});
    d := CMap(c.node, c.m["labels" := e]);
    Relabelled(c, e, nodes, {});
  }

  method WriteLabels(labels: MapNode, gw: string, ghost c: Cell, ghost nodes: set<object>) returns (ghost d: Cell)
    requires c.CMap? && labels == c.node && Holds(c, nodes) && Nodes(c) == nodes && Separated(c)
    modifies labels
    ensures Holds(d, nodes) && d.CMap? && d.node == labels && Nodes(d) <= nodes
    ensures TreeOf(d) == Map(WithLabels(TreeOf(c).m, gw))
  {
    EntriesHeld(c, nodes);
    labels.m := labels.m["managed-by" := VScalar(Str("sixpack"))];
    labels.m := labels.m["sixpack-label" := VScalar(Str(gw))];
    d := WithLabelLeaves(labels, c.m, gw);
    LabelsWritten(c, gw);
    forall k | k in c.m ensures Holds(c.m[k], nodes) {
      HoldsWithin(c.m[k], Nodes(c.m[k]), nodes);
    }
  }

  /** `d` is what labelling `c` in place leaves. */
  ghost predicate ItemDone(c: Cell, d: Cell, gw: string, made: set<object>)
    reads Nodes(c), made
  {
    LabelledItem(TreeOf(c), gw).Ok? && Became(c, d, LabelledItem(TreeOf(c), gw).value, Nodes(c), made)
  }

  lemma KindFails(c: Cell, i: nat, gw: string)
    requires c.CList? && i < |c.items| && LabelledItem(TreeOf(c.items[i]), gw).Err?
    ensures LabelledKind(TreeOf(c), gw).Err?
  {
    assert TreeOf(c).items[i] == TreeOf(c.items[i]);
  }

  /** One item of a list: labelled when it is an object, left alone otherwise. */
  method LabelItem(raw: Value, gw: string, ghost c: Cell, ghost nodes: set<object>)
      returns (ok: bool, ghost d: Cell, ghost made: set<object>)
    requires raw == ValueOf(c) && Holds(c, nodes) && Nodes(c) == nodes && Separated(c)
    modifies nodes
    ensures fresh(made)
    ensures ok == LabelledItem(TreeOf(c), gw).Ok?
    ensures ok ==> ItemDone(c, d, gw, made)
  {
    ok, d, made := true, c, {};
    match raw {
      case VMap(item) => ok, d, made := EnsureManagedLabels(item, gw, c, nodes);
      case _ => assert nodes + {} == nodes;
    }
  }

  /** The first items are labelled, in the objects of `region`. */
  ghost predicate ItemsDone(cs: seq<Cell>, ds: seq<Cell>, gw: string, region: set<object>)
    reads region
  {
    && |ds| <= |cs|
    && forall i | 0 <= i < |ds| ::
         && LabelledItem(TreeOf(cs[i]), gw) == Ok(TreeOf(ds[i])) && ValueOf(ds[i]) == ValueOf(cs[i])
         && Holds(ds[i], region) && Nodes(ds[i]) <= region
  }

  /** The items from the `n`th on are as they were, in the objects of `region`. */
  ghost predicate ItemsTodo(cs: seq<Cell>, n: nat, region: set<object>)
    reads region
  {
    forall i | n <= i < |cs| :: Holds(cs[i], region) && Nodes(cs[i]) <= region
  }

  ghost predicate ItemsApart(cs: seq<Cell>) {
    && (forall i | 0 <= i < |cs| :: Separated(cs[i]))
    && (forall i, j | 0 <= i < j < |cs| :: Nodes(cs[i]) !! Nodes(cs[j]))
  }

  lemma AllTodo(c: Cell, nodes: set<object>)
    requires c.CList? && Holds(c, nodes) && Nodes(c) == nodes && Separated(c)
    ensures ItemsTodo(c.items, 0, nodes - {c.list}) && ItemsApart(c.items)
  {
    forall i | 0 <= i < |c.items| ensures Holds(c.items[i], nodes - {c.list}) && Nodes(c.items[i]) <= nodes - {c.list} {
      ItemWithin(c, i);
      HoldsWithin(c.items[i], nodes, nodes - {c.list});
    }
  }

  lemma NextTodo(cs: seq<Cell>, n: nat, region: set<object>)
    requires ItemsTodo(cs, n, region) && n < |cs| && ItemsApart(cs)
    ensures Holds(cs[n], Nodes(cs[n])) && Nodes(cs[n]) <= region
    ensures ItemsTodo(cs, n + 1, region - Nodes(cs[n]))
  {
    HoldsWithin(cs[n], region, Nodes(cs[n]));
    forall i | n < i < |cs| ensures Holds(cs[i], region - Nodes(cs[n])) && Nodes(cs[i]) <= region - Nodes(cs[n]) {
      HoldsWithin(cs[i], region, region - Nodes(cs[n]));
    }
  }

  lemma NextDone(cs: seq<Cell>, ds: seq<Cell>, gw: string, region: set<object>,
                 e: Cell, more: set<object>, region': set<object>)
    requires ItemsDone(cs, ds, gw, region) && |ds| < |cs|
    requires ItemDone(cs[|ds|], e, gw, more)
    requires region <= region' && more <= region' && Nodes(cs[|ds|]) <= region'
    ensures ItemsDone(cs, ds + [e], gw, region')
  {
    HoldsWithin(e, Nodes(cs[|ds|]) + more, region');
    forall i | 0 <= i < |ds| ensures Holds(ds[i], region') {
      HoldsWithin(ds[i], region, region');
    }
  }

  lemma AllDone(c: Cell, ds: seq<Cell>, gw: string, nodes: set<object>, made: set<object>, region: set<object>)
    requires c.CList? && Nodes(c) == nodes && |ds| == |c.items| == |c.list.items|
    requires forall i | 0 <= i < |ds| :: c.list.items[i] == ValueOf(c.items[i])
    requires ItemsDone(c.items, ds, gw, region) && region <= nodes + made
    ensures LabelledKind(TreeOf(c), gw).Ok?
    ensures Became(c, CList(c.list, ds), LabelledKind(TreeOf(c), gw).value, nodes, made)
  {
    var d := CList(c.list, ds);
    assert TreeOf(d).items == LabelledKind(TreeOf(c), gw).value.items;
    forall i | 0 <= i < |ds| ensures Holds(ds[i], nodes + made) {
      HoldsWithin(ds[i], region, nodes + made);
    }
  }

  /** Labels every object of a list; stops at the first that cannot be labelled. */
  method LabelItems(list: ListNode, gw: string, ghost c: Cell, ghost nodes: set<object>)
      returns (ok: bool, ghost d: Cell, ghost made: set<object>)
    requires c.CList? && list == c.list && Holds(c, nodes) && Nodes(c) == nodes && Separated(c)
    modifies nodes
    ensures fresh(made)
    ensures ok == LabelledKind(TreeOf(c), gw).Ok?
    ensures ok ==> Became(c, d, LabelledKind(TreeOf(c), gw).value, nodes, made)
  {
    AllTodo(c, nodes);
    ghost var parts: seq<Cell> := [];
    ghost var todo := nodes - {list};
    made := {};
    d := c;
    for i := 0 to |list.items|
      invariant list.items == old(list.items) && fresh(made) && |parts| == i
      invariant todo <= nodes - {list} && ItemsTodo(c.items, i, todo)
      invariant ItemsDone(c.items, parts, gw, (nodes - todo) + made)
    {
      NextTodo(c.items, i, todo);
      ghost var region := (nodes - todo) + made;
      ghost var own := Nodes(c.items[i]);
      ghost var e, more;
      ok, e, more := LabelItem(list.items[i], gw, c.items[i], own);
      if !ok {
        KindFails(c, i, gw);
        return;
      }
      todo := todo - own;
      NextDone(c.items, parts, gw, region, e, more, (nodes - todo) + (made + more));
      parts, made := parts + [e], made + more;
    }
    ok := true;
    d := CList(list, parts);
    AllDone(c, parts, gw, nodes, made, (nodes - todo) + made);
  }

  // ---------- All kinds ----------

  /** `d` is what labelling the entry `c` of the kind `key` in place leaves. */
  ghost predicate KindDone(c: Cell, d: Cell, key: string, rules: map<string, Rule>, gw: string, made: set<object>)
    reads Nodes(c), made
  {
    && LabelledEntry(rules, key, TreeOf(c), gw).Ok?
    && Became(c, d, LabelledEntry(rules, key, TreeOf(c), gw).value, Nodes(c), made)
  }

  /** The kinds of `ds` are labelled, in the objects of `region`. */
  ghost predicate KindsDone(cs: map<string, Cell>, ds: map<string, Cell>, rules: map<string, Rule>, gw: string,
                            region: set<object>)
    reads region
  {
    && ds.Keys <= cs.Keys
    && forall k | k in ds ::
         && LabelledEntry(rules, k, TreeOf(cs[k]), gw) == Ok(TreeOf(ds[k])) && ValueOf(ds[k]) == ValueOf(cs[k])
         && Holds(ds[k], region) && Nodes(ds[k]) <= region
  }

  /** The kinds other than `done` are as they were, in the objects of `region`. */
  ghost predicate KindsTodo(cs: map<string, Cell>, done: set<string>, region: set<object>)
    reads region
  {
    forall k | k in cs && k !in done :: Holds(cs[k], region) && Nodes(cs[k]) <= region
  }

  ghost predicate KindsApart(cs: map<string, Cell>) {
    && (forall k | k in cs :: Separated(cs[k]))
    && (forall k, l | k in cs && l in cs && k != l :: Nodes(cs[k]) !! Nodes(cs[l]))
  }

  lemma AllKindsTodo(c: Cell, nodes: set<object>)
    requires c.CMap? && Holds(c, nodes) && Nodes(c) == nodes && Separated(c)
    ensures KindsTodo(c.m, {}, nodes - {c.node}) && KindsApart(c.m)
  {
    forall k | k in c.m ensures Holds(c.m[k], nodes - {c.node}) && Nodes(c.m[k]) <= nodes - {c.node} {
      EntryWithin(c, k);
      HoldsWithin(c.m[k], nodes, nodes - {c.node});
    }
  }

  lemma NextKindTodo(cs: map<string, Cell>, done: set<string>, key: string, region: set<object>)
    requires KindsTodo(cs, done, region) && key in cs && key !in done && KindsApart(cs)
    ensures Holds(cs[key], Nodes(cs[key])) && Nodes(cs[key]) <= region
    ensures KindsTodo(cs, done + {key}, region - Nodes(cs[key]))
  {
    HoldsWithin(cs[key], region, Nodes(cs[key]));
    forall k | k in cs && k !in done + {key}
      ensures Holds(cs[k], region - Nodes(cs[key])) && Nodes(cs[k]) <= region - Nodes(cs[key])
    {
      HoldsWithin(cs[k], region, region - Nodes(cs[key]));
    }
  }

  lemma NextKindDone(cs: map<string, Cell>, ds: map<string, Cell>, rules: map<string, Rule>, gw: string,
                     region: set<object>, key: string, e: Cell, more: set<object>, region': set<object>)
    requires KindsDone(cs, ds, rules, gw, region) && key in cs
    requires KindDone(cs[key], e, key, rules, gw, more)
    requires region <= region' && more <= region' && Nodes(cs[key]) <= region'
    ensures KindsDone(cs, ds[key := e], rules, gw, region')
  {
    HoldsWithin(e, Nodes(cs[key]) + more, region');
    forall k | k in ds ensures Holds(ds[k], region') {
      HoldsWithin(ds[k], region, region');
    }
  }

  lemma LabelledByKind(c: Cell, ds: map<string, Cell>, rules: map<string, Rule>, gw: string)
    requires c.CMap? && ds.Keys == c.m.Keys
    requires forall k | k in ds :: LabelledEntry(rules, k, TreeOf(c.m[k]), gw) == Ok(TreeOf(ds[k]))
    ensures Labelled(TreeOf(c).m, rules, gw) == Ok(TreeOf(CMap(c.node, ds)))
  {
    var t := TreeOf(c).m;
    forall k | k in t ensures LabelledEntry(rules, k, t[k], gw) == Ok(TreeOf(ds[k])) {
      assert t[k] == TreeOf(c.m[k]);
    }
    assert TreeOf(CMap(c.node, ds)).m == Labelled(t, rules, gw).value.m;
  }

  /** The kinds that have no rule are left alone. */
  lemma RestDone(cs: map<string, Cell>, ds: map<string, Cell>, rules: map<string, Rule>, gw: string,
                 region: set<object>, todo: set<object>, nodes: set<object>)
    requires KindsDone(cs, ds, rules, gw, region) && KindsTodo(cs, ds.Keys, todo) && region <= nodes && todo <= nodes
    requires forall k | k in cs && k !in ds :: k !in rules
    ensures KindsDone(cs, cs + ds, rules, gw, nodes)
  {
    forall k | k in ds ensures Holds(ds[k], nodes) {
      HoldsWithin(ds[k], region, nodes);
    }
    forall k | k in cs && k !in ds ensures Holds(cs[k], nodes) {
      HoldsWithin(cs[k], todo, nodes);
    }
  }

  lemma AllKindsDone(c: Cell, ds: map<string, Cell>, rules: map<string, Rule>, gw: string, nodes: set<object>,
                     made: set<object>)
    requires c.CMap? && Nodes(c) == nodes && c.node.m.Keys == c.m.Keys == ds.Keys
    requires forall k | k in c.m :: c.node.m[k] == ValueOf(c.m[k])
    requires KindsDone(c.m, ds, rules, gw, nodes + made)
    ensures Labelled(TreeOf(c).m, rules, gw).Ok?
    ensures Became(c, CMap(c.node, ds), Labelled(TreeOf(c).m, rules, gw).value, nodes, made)
  {
    LabelledByKind(c, ds, rules, gw);
    assert Nodes(CMap(c.node, ds)) <= nodes + made;
  }

  lemma ConfigFails(c: Cell, k: string, rules: map<string, Rule>, gw: string)
    requires c.CMap? && k in c.m && LabelledEntry(rules, k, TreeOf(c.m[k]), gw).Err?
    ensures Labelled(TreeOf(c).m, rules, gw).Err?
  {
    assert TreeOf(c).m[k] == TreeOf(c.m[k]);
  }

  /** The entry of one kind: its objects are labelled when the kind supports it and the entry is a list. */
  method LabelKind(raw: Value, key: string, rules: map<string, Rule>, gw: string, ghost c: Cell, ghost nodes: set<object>)
      returns (ok: bool, ghost d: Cell, ghost made: set<object>)
    requires raw == ValueOf(c) && Holds(c, nodes) && Nodes(c) == nodes && Separated(c)
    modifies nodes
    ensures fresh(made)
    ensures ok == LabelledEntry(rules, key, TreeOf(c), gw).Ok?
    ensures ok ==> KindDone(c, d, key, rules, gw, made)
  {
    ok, d, made := true, c, {};
    if key in rules && rules[key].supportsLabels && raw.VList? {
      ok, d, made := LabelItems(raw.list, gw, c, nodes);
    } else {
      assert nodes + {} == nodes;
    }
  }

  /** One turn of the loop over the kinds. */
  method UpdateKind(value: MapNode, key: string, rules: map<string, Rule>, gw: string, ghost c: Cell, ghost nodes: set<object>,
                    ghost parts: map<string, Cell>, ghost todo: set<object>, ghost made: set<object>)
      returns (ok: bool, ghost parts': map<string, Cell>, ghost todo': set<object>, ghost made': set<object>)
    requires c.CMap? && key in c.m && key !in parts && key in value.m && value.m[key] == ValueOf(c.m[key])
    requires KindsApart(c.m) && todo <= nodes && made !! nodes && KindsTodo(c.m, parts.Keys, todo)
    requires KindsDone(c.m, parts, rules, gw, (nodes - todo) + made)
    modifies todo
    ensures made <= made' && fresh(made' - made) && todo' <= todo
    ensures ok == LabelledEntry(rules, key, TreeOf(c.m[key]), gw).Ok?
    ensures ok ==> parts'.Keys == parts.Keys + {key} && KindsTodo(c.m, parts'.Keys, todo')
    ensures ok ==> KindsDone(c.m, parts', rules, gw, (nodes - todo') + made')
  {
    NextKindTodo(c.m, parts.Keys, key, todo);
    ghost var own := Nodes(c.m[key]);
    ghost var e, more;
    parts', todo', made' := parts, todo, made;
    ok, e, more := LabelKind(value.m[key], key, rules, gw, c.m[key], own);
    if ok {
      todo', made' := todo - own, made + more;
      NextKindDone(c.m, parts, rules, gw, (nodes - todo) + made, key, e, more, (nodes - todo') + made');
      parts' := parts[key := e];
      assert parts'.Keys == parts.Keys + {key};
    }
  }

  /** The rules given, or the default ones when none are. */
  function ActiveRules(rules: map<string, Rule>): map<string, Rule> {
    if |rules| == 0 then Compiler.DefaultMergingRules().children else rules
  }

  /** The config of a gateway after the plugin; a nil config stays nil. */
  function Updated(t: Tree, rules: map<string, Rule>, gw: string): Result<Tree> {
    if t.Map? then Labelled(t.m, ActiveRules(rules), gw) else Ok(t)
  }

  /** Without rules the default ones apply; a nil config stays nil. */
  lemma UpdatedIs(doc: map<string, Tree>, rules: map<string, Rule>, gw: string)
    ensures Updated(Null, rules, gw) == Ok(Null)
    ensures Updated(Map(doc), map[], gw) == Labelled(doc, Compiler.DefaultMergingRules().children, gw)
    ensures rules != map[] ==> Updated(Map(doc), rules, gw) == Labelled(doc, rules, gw)
  {
    hide Labelled, Compiler.DefaultMergingRules;
    assert rules != map[] ==> |rules| != 0;
  }

  /** Labels the objects of every kind that supports it, in place. */
  method Update(value: Option<MapNode>, rules: map<string, Rule>, gw: string, ghost c: Cell, ghost nodes: set<object>)
      returns (ok: bool, ghost d: Cell, ghost made: set<object>)
    requires ValueOf(c) == (if value.Some? then VMap(value.value) else VNil)
    requires Holds(c, nodes) && Nodes(c) == nodes && Separated(c)
    modifies nodes
    ensures fresh(made)
    ensures ok == Updated(TreeOf(c), rules, gw).Ok?
    ensures ok ==> Became(c, d, Updated(TreeOf(c), rules, gw).value, nodes, made)
  {
    hide ActiveRules, Labelled;
    if value.None? {
      assert nodes + {} == nodes;
      return true, c, {};
    }
    var active := DefaultRules(rules);
    ok, d, made := LabelKinds(value.value, active, gw, c, nodes);
  }

  method DefaultRules(rules: map<string, Rule>) returns (active: map<string, Rule>)
    ensures active == ActiveRules(rules)
  {
    active := rules;
    if |rules| == 0 {
      active := Compiler.DefaultMergingRules().children;
    }
  }

  /** The loop over the kinds that have a rule. */
  method LabelKinds(value: MapNode, rules: map<string, Rule>, gw: string, ghost c: Cell, ghost nodes: set<object>)
      returns (ok: bool, ghost d: Cell, ghost made: set<object>)
    requires c.CMap? && value == c.node && Holds(c, nodes) && Nodes(c) == nodes && Separated(c)
    modifies nodes
    ensures fresh(made)
    ensures ok == Labelled(TreeOf(c).m, rules, gw).Ok?
    ensures ok ==> Became(c, d, Labelled(TreeOf(c).m, rules, gw).value, nodes, made)
  {
    AllKindsTodo(c, nodes);
    ghost var parts: map<string, Cell> := map[];
    ghost var todo := nodes - {value};
    made := {};
    d := c;
    var keys := rules.Keys;
    while keys != {}
      invariant value.m == old(value.m) && fresh(made)
      invariant (forall k | k in keys :: k !in parts) && (forall k | k in c.m && k !in parts :: k in keys || k !in rules)
      invariant todo <= nodes - {value} && KindsTodo(c.m, parts.Keys, todo)
      invariant KindsDone(c.m, parts, rules, gw, (nodes - todo) + made)
      decreases keys
    {
      var key :| key in keys;
      keys := keys - {key};
      if key in value.m {
        ok, parts, todo, made := UpdateKind(value, key, rules, gw, c, nodes, parts, todo, made);
        if !ok {
          ConfigFails(c, key, rules, gw);
          return;
        }
      }
    }
    ok := true;
    d := CMap(value, c.m + parts);
    RestDone(c.m, parts, rules, gw, (nodes - todo) + made, todo, nodes + made);
    AllKindsDone(c, c.m + parts, rules, gw, nodes, made);
  }

  // ---------- Labels of one gateway and of the others ----------

  /** A label that the user has given an object. */
  function UserLabel(item: map<string, Tree>, a: string): Option<Tree> {
    if "labels" in item && item["labels"].Map? then Get(item["labels"].m, a) else None
  }

  /** What labelling promises of one object of a supporting kind: both labels, and nothing else changed. */
  lemma ObjectLabelled(doc: map<string, Tree>, rules: map<string, Rule>, gw: string, k: string, i: nat)
    requires Labelled(doc, rules, gw).Ok? && k in doc && k in rules && rules[k].supportsLabels
    requires doc[k].List? && i < |doc[k].items| && doc[k].items[i].Map?
    ensures var before := doc[k].items[i].m;
            var t := Labelled(doc, rules, gw).value;
            && t.Map? && k in t.m && t.m[k].List? && |t.m[k].items| == |doc[k].items| && t.m[k].items[i].Map?
            && var after := t.m[k].items[i].m;
            && after.Keys == before.Keys + {"labels"}
            && (forall a | a in before && a != "labels" :: after[a] == before[a])
            && after["labels"].Map?
            && var labels := after["labels"].m;
            && "managed-by" in labels && labels["managed-by"] == Leaf(Str("sixpack"))
            && "sixpack-label" in labels && labels["sixpack-label"] == Leaf(Str(gw))
            && forall a | a != "managed-by" && a != "sixpack-label" ::
                 Get<string, Tree>(labels, a) == UserLabel(before, a)
  {
    var t := doc[k];
    assert LabelledEntry(rules, k, t, gw).Ok?;
    assert LabelledKind(t, gw).Ok?;
    assert LabelledItem(t.items[i], gw).Ok?;
  }

  /** Labels that cannot be extended: they are there, and are neither null nor an object. */
  predicate BadLabels(item: Tree) {
    item.Map? && "labels" in item.m && !item.m["labels"].Null? && !item.m["labels"].Map?
  }

  /** Labelling fails if and only if some object of a kind that supports labels has bad ones. */
  lemma LabelledFailsIff(doc: map<string, Tree>, rules: map<string, Rule>, gw: string)
    ensures Labelled(doc, rules, gw).Err? <==>
              exists k, i :: k in doc && k in rules && rules[k].supportsLabels && doc[k].List?
                             && 0 <= i < |doc[k].items| && BadLabels(doc[k].items[i])
  {
    forall k | k in doc
      ensures LabelledEntry(rules, k, doc[k], gw).Err? <==>
                k in rules && rules[k].supportsLabels && doc[k].List?
                && exists i :: 0 <= i < |doc[k].items| && BadLabels(doc[k].items[i])
    {
      KindFailsIff(doc[k], gw);
    }
  }

  lemma KindFailsIff(t: Tree, gw: string)
    ensures LabelledKind(t, gw).Err? <==> t.List? && exists i :: 0 <= i < |t.items| && BadLabels(t.items[i])
  {
    if t.List? {
      forall i | 0 <= i < |t.items| ensures LabelledItem(t.items[i], gw).Err? <==> BadLabels(t.items[i]) {}
      if i :| 0 <= i < |t.items| && BadLabels(t.items[i]) {
        assert LabelledItem(t.items[i], gw).Err?;
      }
    }
  }

  /** Items that are not objects are the same. */
  ghost predicate SameOthers(before: seq<Tree>, after: seq<Tree>) {
    |after| == |before| && forall i | 0 <= i < |before| && !before[i].Map? :: after[i] == before[i]
  }

  /** Labelling keeps the kinds, leaves those that do not support labels, and the items that are not objects, as they are. */
  lemma OthersUnlabelled(doc: map<string, Tree>, rules: map<string, Rule>, gw: string, k: string)
    requires Labelled(doc, rules, gw).Ok? && k in doc
    ensures var t := Labelled(doc, rules, gw).value;
            && t.Map? && t.m.Keys == doc.Keys
            && (k !in rules || !rules[k].supportsLabels || !doc[k].List? ==> t.m[k] == doc[k])
            && (doc[k].List? ==> t.m[k].List? && SameOthers(doc[k].items, t.m[k].items))
  {
    assert LabelledEntry(rules, k, doc[k], gw).Ok?;
  }

  lemma ItemRelabelled(t: Tree, a: string, b: string)
    requires LabelledItem(t, a).Ok?
    ensures LabelledItem(LabelledItem(t, a).value, b) == LabelledItem(t, b)
  {
    if t.Map? {
      var old1 := if "labels" in t.m && t.m["labels"].Map? then t.m["labels"].m else map[];
      assert WithLabels(WithLabels(old1, a), b) == WithLabels(old1, b);
      assert t.m["labels" := Map(WithLabels(old1, a))]["labels" := Map(WithLabels(old1, b))]
          == t.m["labels" := Map(WithLabels(old1, b))];
    }
  }

  lemma KindRelabelled(t: Tree, a: string, b: string)
    requires LabelledKind(t, a).Ok?
    ensures LabelledKind(LabelledKind(t, a).value, b) == LabelledKind(t, b)
  {
    if t.List? {
      var u := LabelledKind(t, a).value;
      forall i | 0 <= i < |t.items| ensures LabelledItem(u.items[i], b) == LabelledItem(t.items[i], b) {
        ItemRelabelled(t.items[i], a, b);
      }
      assert |u.items| == |t.items|;
      if LabelledKind(t, b).Ok? {
        assert LabelledKind(u, b).value.items == LabelledKind(t, b).value.items;
      } else {
        var i :| 0 <= i < |t.items| && LabelledItem(t.items[i], b).Err?;
        assert LabelledItem(u.items[i], b).Err?;
      }
    }
  }

  /** Of two gateways that label the same objects the last one wins, and labelling twice is labelling once. */
  lemma LastGatewayWins(doc: map<string, Tree>, rules: map<string, Rule>, a: string, b: string)
    requires Labelled(doc, rules, a).Ok?
    ensures Labelled(Labelled(doc, rules, a).value.m, rules, b) == Labelled(doc, rules, b)
  {
    var u := Labelled(doc, rules, a).value.m;
    forall k | k in doc ensures LabelledEntry(rules, k, u[k], b) == LabelledEntry(rules, k, doc[k], b) {
      assert LabelledEntry(rules, k, doc[k], a).Ok?;
      if k in rules && rules[k].supportsLabels {
        KindRelabelled(doc[k], a, b);
      }
    }
    if Labelled(doc, rules, b).Ok? {
      assert Labelled(u, rules, b).value.m == Labelled(doc, rules, b).value.m;
    } else {
      var k :| k in doc && LabelledEntry(rules, k, doc[k], b).Err?;
      assert LabelledEntry(rules, k, u[k], b).Err?;
    }
  }

  /**
   A gateway's config is copied, then labelled. Whatever objects the merged value shares
   with itself or with the fragments, the result is the labelled tree, in new objects, and
   every tree held before, such as a fragment, is held as it was.
   */
  method CopyAndLabel(value: MapNode, rules: map<string, Rule>, gw: string, ghost c: Cell, ghost nodes: set<object>,
                      ghost fragments: seq<Cell>)
      returns (result: Option<Value>, ghost d: Cell, ghost made: set<object>)
    requires c.CMap? && value == c.node && Holds(c, nodes)
    requires forall f | f in fragments :: Holds(f, nodes)
    ensures forall f | f in fragments :: Holds(f, nodes)
    ensures fresh(made) && Holds(c, nodes)
    ensures result.Some? == Updated(TreeOf(c), rules, gw).Ok?
    ensures result.Some? ==> result.value == ValueOf(d) && Holds(d, made) && Nodes(d) <= made
    ensures result.Some? ==> TreeOf(d) == Updated(TreeOf(c), rules, gw).value
  {
    hide Updated, Separated;
    var copied;
    ghost var e;
    copied, e, made := DeepCopy(VMap(value), c, nodes);
    var ok;
    ghost var more;
    ok, d, more := LabelCopy(copied, rules, gw, e, made);
    result := if ok then Some(copied) else None;
    made := made + more;
  }

  /** Labels the copy, which nothing else shares. */
  method LabelCopy(copied: Value, rules: map<string, Rule>, gw: string, ghost e: Cell, ghost made: set<object>)
      returns (ok: bool, ghost d: Cell, ghost more: set<object>)
    requires copied == ValueOf(e) && copied.VMap? && Holds(e, made) && Nodes(e) <= made && Separated(e)
    modifies Nodes(e)
    ensures fresh(more) && ok == Updated(TreeOf(e), rules, gw).Ok?
    ensures ok ==> ValueOf(d) == copied && Holds(d, made + more) && Nodes(d) <= made + more
    ensures ok ==> TreeOf(d) == Updated(TreeOf(e), rules, gw).value
  {
    hide Updated, Separated;
    ghost var own := Nodes(e);
    HoldsWithin(e, made, own);
    ok, d, more := Update(Some(copied.node), rules, gw, e, own);
    if ok {
      HoldsWithin(d, own + more, made + more);
    }
  }

  /** Every gateway gets its own labels, although their merged values may share objects. */
  method LabelGateways(values: seq<MapNode>, rules: map<string, Rule>, gws: seq<string>,
                       ghost cs: seq<Cell>, ghost nodes: set<object>)
      returns (results: seq<Option<Value>>, ghost ds: seq<Cell>, ghost made: set<object>)
    requires |values| == |gws| == |cs|
    requires forall i | 0 <= i < |cs| :: cs[i].CMap? && values[i] == cs[i].node && Holds(cs[i], nodes)
    ensures forall i | 0 <= i < |cs| :: Holds(cs[i], nodes)
    ensures fresh(made) && |results| == |ds| == |cs|
    ensures forall i | 0 <= i < |cs| :: LabelledAs(cs[i], rules, gws[i], results[i], ds[i], made)
  {
    hide Updated, Nodes, Holds;
    results, ds, made := [], [], {};
    for i := 0 to |values|
      invariant |results| == |ds| == i && fresh(made)
      invariant forall j | 0 <= j < |cs| :: Holds(cs[j], nodes)
      invariant forall j | 0 <= j < i :: LabelledAs(cs[j], rules, gws[j], results[j], ds[j], made)
    {
      var result;
      ghost var d, more;
      result, d, more := CopyAndLabel(values[i], rules, gws[i], cs[i], nodes, cs);
      LabelledWithin(cs[i], rules, gws[i], result, d, more, made + more);
      forall j | 0 <= j < i ensures LabelledAs(cs[j], rules, gws[j], results[j], ds[j], made + more) {
        LabelledWithin(cs[j], rules, gws[j], results[j], ds[j], made, made + more);
      }
      results, ds, made := results + [result], ds + [d], made + more;
    }
  }

  ghost predicate LabelledAs(c: Cell, rules: map<string, Rule>, gw: string, result: Option<Value>, d: Cell, made: set<object>)
    requires c.CMap?
    reads made
  {
    && result.Some? == Updated(TreeOf(c), rules, gw).Ok?
    && (result.Some? ==>
          && result.value == ValueOf(d) && Holds(d, made) && Nodes(d) <= made
          && TreeOf(d) == Updated(TreeOf(c), rules, gw).value)
  }

  lemma LabelledWithin(c: Cell, rules: map<string, Rule>, gw: string, result: Option<Value>, d: Cell,
                       made: set<object>, more: set<object>)
    requires c.CMap? && LabelledAs(c, rules, gw, result, d, made) && made <= more
    ensures LabelledAs(c, rules, gw, result, d, more)
  {
    if result.Some? {
      HoldsWithin(d, made, more);
    }
  }

  const BARE: Tree := Map(map[])

  function OnlyLabels(gw: string): Tree {
    Map(map["labels" := Map(WithLabels(map[], gw))])
  }

  lemma BareLabelled(gw: string)
    ensures LabelledItem(BARE, gw) == Ok(OnlyLabels(gw))
    ensures LabelledKind(List([BARE]), gw) == Ok(List([OnlyLabels(gw)]))
  {
    assert [OnlyLabels(gw)] == LabelledKind(List([BARE]), gw).value.items;
  }

  lemma OnlyLabelsDiffer(a: string, b: string)
    requires a != b
    ensures OnlyLabels(a) != OnlyLabels(b)
  {
    assert OnlyLabels(a).m["labels"].m["sixpack-label"] != OnlyLabels(b).m["labels"].m["sixpack-label"];
  }

  lemma LeavesOnly(c: Cell)
    requires c.CMap? && forall k | k in c.m :: c.m[k].CLeaf?
    ensures Nodes(c) == {c.node} && Separated(c)
  {
    assert Below(c) == {};
  }

  lemma FirstLabelsSeparated(c: Cell, nodes: set<object>, gw: string)
    requires c.CMap? && Holds(c, nodes) && TreeOf(c) == OnlyLabels(gw)
    ensures Separated(c)
  {
    assert TreeOf(c).m.Keys == c.m.Keys == {"labels"};
    var l := c.m["labels"];
    assert TreeOf(l) == TreeOf(c).m["labels"] == Map(WithLabels(map[], gw));
    assert TreeOf(l).m.Keys == l.m.Keys;
    forall k | k in l.m ensures l.m[k].CLeaf? {
      assert TreeOf(l.m[k]) == TreeOf(l).m[k];
    }
    LeavesOnly(l);
    assert "managed-by" in l.node.m && "managed-by" !in c.node.m;
  }

  lemma LabelledTwice(a: string, b: string)
    ensures LabelledItem(BARE, a) == Ok(OnlyLabels(a)) && LabelledItem(OnlyLabels(a), b) == Ok(OnlyLabels(b))
  {
    BareLabelled(a);
    BareLabelled(b);
    ItemRelabelled(BARE, a, b);
  }

  /** An object without labels is labelled for one gateway and then, not copied, for another. */
  method LabelTwice(item: MapNode, a: string, b: string) returns (ghost d: Cell, ghost nodes: set<object>)
    requires item.m == map[]
    modifies item
    ensures ValueOf(d) == VMap(item) && Holds(d, nodes) && Nodes(d) <= nodes && TreeOf(d) == OnlyLabels(b) && fresh(nodes - {item})
  {
    hide LabelledItem, OnlyLabels;
    ghost var c := CMap(item, map[]);
    LeavesOnly(c);
    assert TreeOf(c) == BARE;
    LabelledTwice(a, b);
    var ok;
    ghost var made;
    ok, c, made := EnsureManagedLabels(item, a, c, {item});
    nodes := {item} + made;
    FirstLabelsSeparated(c, nodes, a);
    ok, d, made := EnsureManagedLabels(item, b, c, nodes);
    nodes := nodes + made;
  }

  /** Without the copy, an object that two gateways share ends with the labels of the last one in both. */
  method SharedWithoutCopy(a: string, b: string) returns (first: ListNode, second: ListNode, ghost d: Cell, ghost nodes: set<object>)
    requires a != b
    ensures first.items == second.items && ValueOf(d) == VList(first) && Holds(d, nodes)
    ensures Ok(TreeOf(d)) == LabelledKind(List([BARE]), b) != LabelledKind(List([BARE]), a)
  {
    var item := new MapNode(map[]);
    first := new ListNode([VMap(item)]);
    second := new ListNode([VMap(item)]);
    ghost var c, own;
    c, own := LabelTwice(item, a, b);
    nodes := own + {first};
    HoldsWithin(c, own, nodes);
    d := CList(first, [c]);
    assert TreeOf(d).items == [TreeOf(c)];
    BareLabelled(a);
    BareLabelled(b);
    OnlyLabelsDiffer(a, b);
  }
}
