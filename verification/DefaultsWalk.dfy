/**
 The walk that fills a decoded instance with defaults, in place. It is proved to leave
 in the instance's own objects, and in new ones for the defaults, exactly the filled
 tree; `seen` holds the references being followed and is restored on return.
 */
module DefaultsWalk {
  import opened Trees
  import opened SchemaRefs
  import opened SchemaDefaults
  import opened DefaultPasses
  import opened DefaultChains
  import opened Cells

  class Walk {
    const root: Tree
    var seen: set<string>

    constructor (root: Tree)
      ensures this.root == root && seen == {}
    {
      this.root := root;
      seen := {};
    }

    method GetDefault(sch: Tree) returns (def: Tree)
      requires sch in Subtrees(root)
      modifies this
      ensures def == Default(sch, root, seen) && seen == old(seen)
      ensures !def.Null? ==> LeadsTo(sch, root, seen, def)
      ensures def.Null? ==> !HasDefault(sch, root, seen)
      decreases |Refs(root) - seen|
    {
      HasDefaultIff(sch, root, seen);
      if !Default(sch, root, seen).Null? {
        DefaultHasChain(sch, root, seen);
      }
      if !sch.Map? {
        return Null;
      }
      if "default" in sch.m {
        return sch.m["default"];
      }
      var ref := RefOf(sch);
      if ref.Some? && ref.value !in seen {
        var resolved := ResolveRef(root, ref.value);
        if !resolved.Null? {
          RefShrinks(root, sch, seen);
          seen := seen + {ref.value};
          def := GetDefault(resolved);
          seen := seen - {ref.value};
          assert seen == old(seen);
          return;
        }
      }
      return Null;
    }

    method ApplyDefaults(sch: Tree, inst: Value, ghost c: Cell, ghost nodes: set<object>)
        returns (ghost d: Cell, ghost made: set<object>)
      requires sch in Subtrees(root)
      requires inst == ValueOf(c) && Proper(c) && Nodes(c) == nodes && this !in nodes
      modifies this, nodes
      ensures seen == old(seen) && fresh(made)
      ensures ValueOf(d) == ValueOf(c) && Nodes(d) <= nodes + made
      ensures Proper(d)
      ensures TreeOf(d) == Filled(sch, TreeOf(c), root, seen)
      decreases |Refs(root) - seen|, Height(sch), 3
    {
      hide Proper, Nodes, TreeOf, Subtrees, Height, Filled;
      FilledCases(sch, TreeOf(c), root, seen);
      d, made := c, {};
      if !sch.Map? {
        return;
      }
      var ref := RefOf(sch);
      if ref.Some? {
        if ref.value !in seen {
          var resolved := ResolveRef(root, ref.value);
          if !resolved.Null? {
            RefShrinks(root, sch, seen);
            seen := seen + {ref.value};
            d, made := ApplyDefaults(resolved, inst, c, nodes);
            seen := seen - {ref.value};
            assert seen == old(seen);
          }
        }
        return;
      }
      d, made := ApplyKeywords(sch, inst, c, nodes);
    }

    /** The allOf, properties and items of a schema without a reference. */
    method ApplyKeywords(sch: Tree, inst: Value, ghost c: Cell, ghost nodes: set<object>)
        returns (ghost d: Cell, ghost made: set<object>)
      requires sch in Subtrees(root) && sch.Map? && RefOf(sch).None?
      requires inst == ValueOf(c) && Proper(c) && Nodes(c) == nodes && this !in nodes
      modifies this, nodes
      ensures seen == old(seen) && fresh(made)
      ensures ValueOf(d) == ValueOf(c) && Nodes(d) <= nodes + made
      ensures Proper(d)
      ensures TreeOf(d) == Filled(sch, TreeOf(c), root, seen)
      decreases |Refs(root) - seen|, Height(sch), 2
    {
      hide Proper, Nodes, TreeOf, Subtrees, Height, Filled, FilledAll, AfterAll, FilledProps, FilledItems;
      ghost var t := TreeOf(c);
      AllCases(sch, t, root, seen);
      KeywordCases(sch, t, root, seen);
      d, made := c, {};
      if Keyword(sch, "allOf").List? {
        d, made := ApplyAll(sch.m["allOf"], inst, c, nodes);
      }
      assert TreeOf(d) == AfterAll(sch, t, root, seen);
      Shape(d);
      ghost var more: set<object> := {};
      match inst {
        case VMap(obj) =>
          if Keyword(sch, "properties").Map? {
            d, more := ApplyProps(sch.m["properties"], obj, d, Nodes(d));
          }
        case VList(arr) =>
          if "items" in sch.m {
            d, more := ApplyItems(sch.m["items"], arr, d, Nodes(d));
          }
        case _ =>
      }
      made := made + more;
    }

    /** The loop over the entries of an allOf. */
    method ApplyAll(allOf: Tree, inst: Value, ghost c: Cell, ghost nodes: set<object>)
        returns (ghost d: Cell, ghost made: set<object>)
      requires allOf in Subtrees(root) && allOf.List?
      requires inst == ValueOf(c) && Proper(c) && Nodes(c) == nodes && this !in nodes
      modifies this, nodes
      ensures seen == old(seen) && fresh(made)
      ensures ValueOf(d) == ValueOf(c) && Nodes(d) <= nodes + made
      ensures Proper(d)
      ensures TreeOf(d) == FilledAll(allOf, |allOf.items|, TreeOf(c), root, seen)
      decreases |Refs(root) - seen|, Height(allOf), 2
    {
      hide Proper, Nodes, TreeOf, Subtrees, Height, FilledAll, Filled;
      ghost var t := TreeOf(c);
      AllStart(allOf, t, root, seen);
      d, made := c, {};
      for i := 0 to |allOf.items|
        invariant seen == old(seen) && fresh(made)
        invariant ValueOf(d) == ValueOf(c) && Nodes(d) <= nodes + made
        invariant Proper(d)
        invariant TreeOf(d) == FilledAll(allOf, i, t, root, seen)
      {
        AllStep(allOf, i, t, root, seen);
        ghost var more;
        d, more := ApplyDefaults(allOf.items[i], inst, d, Nodes(d));
        made := made + more;
      }
    }

    /** The loop over the properties, in any order. */
    method ApplyProps(props: Tree, obj: MapNode, ghost c: Cell, ghost nodes: set<object>)
        returns (ghost d: Cell, ghost made: set<object>)
      requires props in Subtrees(root) && props.Map?
      requires VMap(obj) == ValueOf(c) && Proper(c) && Nodes(c) == nodes && this !in nodes
      modifies this, nodes
      ensures seen == old(seen) && fresh(made)
      ensures ValueOf(d) == ValueOf(c) && Nodes(d) <= nodes + made
      ensures Proper(d)
      ensures TreeOf(d) == Map(FilledProps(props, TreeOf(c).m, root, seen))
      decreases |Refs(root) - seen|, Height(props), 2
    {
      hide Proper, Nodes, TreeOf, Subtrees, Height, Filled, FilledProps, PropsSoFar;
      Shape(c);
      ghost var before := TreeOf(c).m;
      ghost var goal := FilledProps(props, before, root, seen);
      Unlisted(props, before, root, seen);
      PropsStart(before, props.m, goal);
      d, made := c, {};
      var names := props.m.Keys;
      while names != {}
        invariant names <= props.m.Keys && seen == old(seen) && fresh(made)
        invariant ValueOf(d) == ValueOf(c) && Nodes(d) <= nodes + made
        invariant Proper(d)
        invariant PropsSoFar(TreeOf(d), names, before, goal)
        decreases names
      {
        var prop :| prop in names;
        ghost var rest := names;
        names := names - {prop};
        assert rest == names + {prop};
        KeywordSubtree(root, props, prop);
        ghost var more;
        Shape(d);
        ghost var start := TreeOf(d).m;
        d, more := ApplyProp(prop, props.m[prop], obj, d, Nodes(d));
        made := made + more;
        PropStep(start, names, prop, props, before, root, seen);
        assert TreeOf(d) == Map(FilledProperty(prop, props.m[prop], start, root, seen));
      }
      PropsEnd(TreeOf(d), before, goal);
    }

    /** The body of the loop above. */
    method ApplyProp(prop: string, sch: Tree, obj: MapNode, ghost c: Cell, ghost nodes: set<object>)
        returns (ghost d: Cell, ghost made: set<object>)
      requires sch in Subtrees(root)
      requires VMap(obj) == ValueOf(c) && Proper(c) && Nodes(c) == nodes && this !in nodes
      modifies this, nodes
      ensures seen == old(seen) && fresh(made)
      ensures ValueOf(d) == ValueOf(c) && Nodes(d) <= nodes + made
      ensures Proper(d)
      ensures TreeOf(d) == Map(FilledProperty(prop, sch, TreeOf(c).m, root, seen))
      decreases |Refs(root) - seen|, Height(sch), 5
    {
      hide Proper, Nodes, TreeOf, Subtrees, Height, Filled, Default;
      Shape(c);
      ValueShape(c);
      d, made := c, {};
      ghost var start := TreeOf(c).m;
      if prop !in obj.m {
        var def := GetDefault(sch);
        if def.Null? {
          return;
        }
        d, made := InsertDefault(prop, def, obj, c, nodes);
        start := start[prop := def];
      }
      ghost var more;
      d, more := FillEntry(prop, sch, obj, d, Nodes(d));
      made := made + more;
    }

    method InsertDefault(prop: string, def: Tree, obj: MapNode, ghost c: Cell, ghost nodes: set<object>)
        returns (ghost d: Cell, ghost made: set<object>)
      requires VMap(obj) == ValueOf(c) && Proper(c) && Nodes(c) == nodes && this !in nodes && prop !in c.m
      modifies nodes
      ensures fresh(made)
      ensures ValueOf(d) == ValueOf(c) && Nodes(d) <= nodes + made
      ensures Proper(d)
      ensures TreeOf(d) == Map(TreeOf(c).m[prop := def])
    {
      EntryApart(c, prop);
      var value;
      ghost var e;
      value, e, made := Decode(def);
      HoldsWithin(e, made, Nodes(e));
      obj.m := obj.m[prop := value];
      EntryRebuilt(c, prop, e, made);
      d := CMap(obj, c.m[prop := e]);
    }

    method FillEntry(prop: string, sch: Tree, obj: MapNode, ghost c: Cell, ghost nodes: set<object>)
        returns (ghost d: Cell, ghost made: set<object>)
      requires sch in Subtrees(root)
      requires VMap(obj) == ValueOf(c) && Proper(c) && Nodes(c) == nodes && this !in nodes && prop in TreeOf(c).m
      modifies this, nodes
      ensures seen == old(seen) && fresh(made)
      ensures ValueOf(d) == ValueOf(c) && Nodes(d) <= nodes + made
      ensures Proper(d)
      ensures TreeOf(d) == Map(TreeOf(c).m[prop := Filled(sch, TreeOf(c).m[prop], root, seen)])
      decreases |Refs(root) - seen|, Height(sch), 4
    {
      EntryApart(c, prop);
      ghost var e;
      e, made := ApplyDefaults(sch, obj.m[prop], c.m[prop], Nodes(c.m[prop]));
      EntryRebuilt(c, prop, e, made);
      d := CMap(obj, c.m[prop := e]);
    }

    /** The loops over the items of an array. */
    method ApplyItems(schemas: Tree, arr: ListNode, ghost c: Cell, ghost nodes: set<object>)
        returns (ghost d: Cell, ghost made: set<object>)
      requires schemas in Subtrees(root)
      requires VList(arr) == ValueOf(c) && Proper(c) && Nodes(c) == nodes && this !in nodes
      modifies this, nodes
      ensures seen == old(seen) && fresh(made)
      ensures ValueOf(d) == ValueOf(c) && Nodes(d) <= nodes + made
      ensures Proper(d)
      ensures TreeOf(d) == List(FilledItems(schemas, TreeOf(c).items, root, seen))
      decreases |Refs(root) - seen|, Height(schemas), 5
    {
      hide Proper, Nodes, TreeOf, Subtrees, Height, Filled, FilledItems, ItemsSoFar;
      Shape(c);
      ghost var before := TreeOf(c).items;
      ItemsStart(before, FilledItems(schemas, before, root, seen));
      d, made := c, {};
      if schemas.List? {
        for i := 0 to |schemas.items|
          invariant seen == old(seen) && fresh(made)
          invariant ValueOf(d) == ValueOf(c) && Nodes(d) <= nodes + made
          invariant Proper(d)
          invariant ItemsSoFar(TreeOf(d), i, before, FilledItems(schemas, before, root, seen))
        {
          ItemSubtree(root, schemas, i);
          ghost var more := {};
          ItemStep(TreeOf(d), i, before, schemas, root, seen);
          Shape(d);
          ValueShape(d);
          if i < |arr.items| {
            d, more := FillItem(i, schemas.items[i], arr, d, Nodes(d));
          }
          made := made + more;
        }
        ItemsEnd(TreeOf(d), |schemas.items|, before, schemas, root, seen);
      } else {
        ValueShape(c);
        for i := 0 to |arr.items|
          invariant seen == old(seen) && fresh(made)
          invariant ValueOf(d) == ValueOf(c) && Nodes(d) <= nodes + made
          invariant Proper(d)
          invariant ItemsSoFar(TreeOf(d), i, before, FilledItems(schemas, before, root, seen))
        {
          ghost var more;
          ItemStep(TreeOf(d), i, before, schemas, root, seen);
          Shape(d);
          ValueShape(d);
          d, more := FillItem(i, schemas, arr, d, Nodes(d));
          made := made + more;
        }
        ItemsEnd(TreeOf(d), |before|, before, schemas, root, seen);
      }
    }

    method FillItem(i: nat, sch: Tree, arr: ListNode, ghost c: Cell, ghost nodes: set<object>)
        returns (ghost d: Cell, ghost made: set<object>)
      requires sch in Subtrees(root)
      requires VList(arr) == ValueOf(c) && Proper(c) && Nodes(c) == nodes && this !in nodes && i < |TreeOf(c).items|
      modifies this, nodes
      ensures seen == old(seen) && fresh(made)
      ensures ValueOf(d) == ValueOf(c) && Nodes(d) <= nodes + made
      ensures Proper(d)
      ensures TreeOf(d) == List(TreeOf(c).items[i := Filled(sch, TreeOf(c).items[i], root, seen)])
      decreases |Refs(root) - seen|, Height(sch), 4
    {
      ItemApart(c, i);
      ghost var e;
      e, made := ApplyDefaults(sch, arr.items[i], c.items[i], Nodes(c.items[i]));
      ItemRebuilt(c, i, e, made);
      d := CList(arr, c.items[i := e]);
    }
  }

  /** The properties visited so far have their final values; `names` are still to come. */
  ghost predicate PropsSoFar(t: Tree, names: set<string>, before: map<string, Tree>, goal: map<string, Tree>) {
    && t.Map?
    && (forall k :: k in t.m <==> if k in names then k in before else k in goal)
    && (forall k | k in t.m :: t.m[k] == if k in names then before[k] else goal[k])
  }

  lemma PropStep(obj: map<string, Tree>, names: set<string>, prop: string, props: Tree, before: map<string, Tree>,
                 root: Tree, seen: set<string>)
    requires props in Subtrees(root) && props.Map? && prop in props.m && props.m[prop] in Subtrees(root) && prop !in names
    requires PropsSoFar(Map(obj), names + {prop}, before, FilledProps(props, before, root, seen))
    ensures PropsSoFar(Map(FilledProperty(prop, props.m[prop], obj, root, seen)), names, before,
                       FilledProps(props, before, root, seen))
  {
    assert Start(props, before, prop, root, seen)
        == if prop in before then Some(before[prop])
           else if Default(props.m[prop], root, seen).Null? then None else Some(Default(props.m[prop], root, seen));
  }

  ghost predicate ItemsSoFar(t: Tree, n: nat, before: seq<Tree>, goal: seq<Tree>) {
    && t.List? && |t.items| == |before| == |goal|
    && forall i | 0 <= i < |before| :: t.items[i] == if i < n then goal[i] else before[i]
  }

  lemma PropsStart(before: map<string, Tree>, props: map<string, Tree>, goal: map<string, Tree>)
    requires forall k | k in before || k in goal :: k in props || (k in before && k in goal && before[k] == goal[k])
    ensures PropsSoFar(Map(before), props.Keys, before, goal)
  {}

  lemma PropsEnd(t: Tree, before: map<string, Tree>, goal: map<string, Tree>)
    requires PropsSoFar(t, {}, before, goal)
    ensures t == Map(goal)
  {
    assert t.m == goal;
  }

  lemma Unlisted(props: Tree, before: map<string, Tree>, root: Tree, seen: set<string>)
    requires props in Subtrees(root) && props.Map?
    ensures var goal := FilledProps(props, before, root, seen);
            forall k | k in before || k in goal :: k in props.m || (k in before && k in goal && before[k] == goal[k])
  {}

  lemma ItemsStart(before: seq<Tree>, goal: seq<Tree>)
    requires |goal| == |before|
    ensures ItemsSoFar(List(before), 0, before, goal)
  {}

  lemma ItemStep(t: Tree, i: nat, before: seq<Tree>, schemas: Tree, root: Tree, seen: set<string>)
    requires schemas in Subtrees(root) && (schemas.List? ==> i < |schemas.items|)
    requires ItemsSoFar(t, i, before, FilledItems(schemas, before, root, seen))
    ensures t.List? && |t.items| == |before|
    ensures var sch := if schemas.List? then schemas.items[i] else schemas;
            && sch in Subtrees(root)
            && ItemsSoFar(if i < |before| then List(t.items[i := Filled(sch, t.items[i], root, seen)]) else t,
                          i + 1, before, FilledItems(schemas, before, root, seen))
  {
    if schemas.List? {
      ItemSubtree(root, schemas, i);
    }
  }

  lemma ItemsEnd(t: Tree, n: nat, before: seq<Tree>, schemas: Tree, root: Tree, seen: set<string>)
    requires schemas in Subtrees(root) && n == if schemas.List? then |schemas.items| else |before|
    requires ItemsSoFar(t, n, before, FilledItems(schemas, before, root, seen))
    ensures t == List(FilledItems(schemas, before, root, seen))
  {
    assert t.items == FilledItems(schemas, before, root, seen);
  }

  lemma Shape(c: Cell)
    ensures c.CMap? ==> TreeOf(c).Map? && TreeOf(c).m.Keys == c.m.Keys
    ensures c.CList? ==> TreeOf(c).List? && |TreeOf(c).items| == |c.items|
    ensures TreeOf(c).Map? ==> c.CMap?
    ensures TreeOf(c).List? ==> c.CList?
  {}

  lemma ValueShape(c: Cell)
    requires Proper(c)
    ensures c.CMap? ==> c.node.m.Keys == c.m.Keys
    ensures c.CList? ==> |c.list.items| == |c.items|
  {}

  /** What one property adds to an object. */
  function FilledProperty(prop: string, sch: Tree, obj: map<string, Tree>, root: Tree, seen: set<string>): map<string, Tree>
    requires sch in Subtrees(root)
  {
    if prop in obj then obj[prop := Filled(sch, obj[prop], root, seen)]
    else if Default(sch, root, seen).Null? then obj
    else obj[prop := Filled(sch, Default(sch, root, seen), root, seen)]
  }

  /** What filling an instance from a whole document means, said of the document. */
  lemma FillingMeans(root: Tree, t: Tree)
    requires root in Subtrees(root)
    ensures t.Map? ==>
              && Filled(root, t, root, {}).Map?
              && forall prop :: prop in Filled(root, t, root, {}).m <==> prop in t.m || Demands(root, prop, root, {})
    ensures OnePass(root) ==> Sated(root, Filled(root, t, root, {}), root, {})
    ensures Filled(root, t, root, {}) == t <==> Sated(root, t, root, {})
  {
    hide Filled, Demands, Sated;
    if t.Map? {
      forall prop
        ensures Filled(root, t, root, {}).Map?
        ensures prop in Filled(root, t, root, {}).m <==> prop in t.m || Demands(root, prop, root, {})
      {
        PresentIff(root, t.m, prop, root, {});
      }
      PresentIff(root, t.m, "", root, {});
    }
    if OnePass(root) {
      FilledIsSated(root, t, root, {});
    }
    UnchangedIffSated(root, t, root, {});
  }

  /** The defaults of a whole document, in place. */
  method ApplyDefaults(root: Tree, instance: Value, ghost c: Cell, ghost nodes: set<object>)
      returns (ghost d: Cell, ghost made: set<object>)
    requires instance == ValueOf(c) && Proper(c) && Nodes(c) == nodes
    modifies nodes
    ensures root in Subtrees(root) && fresh(made)
    ensures ValueOf(d) == ValueOf(c) && Nodes(d) <= nodes + made
    ensures Proper(d)
    ensures TreeOf(d) == Filled(root, TreeOf(c), root, {})
    ensures TreeOf(c).Map? ==>
              && TreeOf(d).Map?
              && forall prop :: prop in TreeOf(d).m <==> prop in TreeOf(c).m || Demands(root, prop, root, {})
    ensures OnePass(root) ==> Sated(root, TreeOf(d), root, {})
    ensures TreeOf(d) == TreeOf(c) <==> Sated(root, TreeOf(c), root, {})
  {
    var walk := new Walk(root);
    d, made := walk.ApplyDefaults(root, instance, c, nodes);
    FillingMeans(root, TreeOf(c));
  }
}
