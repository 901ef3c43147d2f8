/**
 Filling an instance with the defaults of a JSON schema, following local references
 with a guard against cycles: the filled instance as a function of the schema, the
 instance and the references being followed.
 */
module SchemaDefaults {
  import opened Trees
  import opened SchemaRefs

  // ---------- Subtrees of the schema document ----------

  ghost function Subtrees(t: Tree): set<Tree>
    decreases t
  {
    {t} + match t
          case Map(m) => (set k, s | k in m && s in Subtrees(m[k]) :: s)
          case List(items) => (set i, s | 0 <= i < |items| && s in Subtrees(items[i]) :: s)
          case _ => {}
  }

  predicate IsChild(t: Tree, child: Tree) {
    (t.Map? && exists k :: k in t.m && t.m[k] == child) || (t.List? && exists i :: 0 <= i < |t.items| && t.items[i] == child)
  }

  lemma {:induction false} ChildSubtree(root: Tree, t: Tree, child: Tree)
    requires t in Subtrees(root) && IsChild(t, child)
    ensures child in Subtrees(root)
    decreases root
  {
    assert child in Subtrees(child);
    if t == root {
    } else {
      match root {
        case Map(m) =>
          var k :| k in m && t in Subtrees(m[k]);
          ChildSubtree(m[k], t, child);
        case List(items) =>
          var i :| 0 <= i < |items| && t in Subtrees(items[i]);
          ChildSubtree(items[i], t, child);
        case _ =>
      }
    }
  }

  lemma ChildIsLower(t: Tree, child: Tree)
    requires IsChild(t, child)
    ensures Height(child) < Height(t)
  {
    match t {
      case Map(m) =>
        var k :| k in m && m[k] == child;
        assert Heights(m) < Height(t);
      case List(items) =>
        var i :| 0 <= i < |items| && items[i] == child;
        HeightOfItem(items, i);
      case _ =>
    }
  }

  /** A reference that resolves to something leads into the document. */
  lemma {:induction false} FollowIsSubtree(root: Tree, parts: seq<string>)
    ensures Follow(root, parts).Null? || Follow(root, parts) in Subtrees(root)
    decreases |parts|
  {
    if parts != [] {
      var node, part := Follow(root, parts[..|parts| - 1]), UnescapeToken(parts[|parts| - 1]);
      FollowIsSubtree(root, parts[..|parts| - 1]);
      if !Descend(node, part).Null? {
        assert IsChild(node, Descend(node, part));
        ChildSubtree(root, node, Descend(node, part));
      }
    }
  }

  /** The value of a string keyword of a schema. */
  function RefOf(sch: Tree): Option<string> {
    if sch.Map? && "$ref" in sch.m && sch.m["$ref"].Leaf? && sch.m["$ref"].v.Str? then Some(sch.m["$ref"].v.s) else None
  }

  /** The references a document can follow. */
  ghost function Refs(root: Tree): set<string> {
    set t | t in Subtrees(root) && RefOf(t).Some? :: RefOf(t).value
  }

  lemma RefShrinks(root: Tree, sch: Tree, seen: set<string>)
    requires sch in Subtrees(root) && RefOf(sch).Some? && RefOf(sch).value !in seen
    ensures |Refs(root) - (seen + {RefOf(sch).value})| < |Refs(root) - seen|
    ensures !Resolved(root, RefOf(sch).value).Null? ==> Resolved(root, RefOf(sch).value) in Subtrees(root)
  {
    var ref := RefOf(sch).value;
    assert ref in Refs(root) - seen;
    assert Refs(root) - (seen + {ref}) == (Refs(root) - seen) - {ref};
    if |ref| >= 2 && ref[..2] == "#/" {
      FollowIsSubtree(root, Strings.Split(ref[2..], '/'));
    }
  }

  // ---------- Defaults ----------

  /** The default of a property schema, through references; nil when there is none. */
  function Default(sch: Tree, root: Tree, seen: set<string>): Tree
    requires sch in Subtrees(root)
    decreases |Refs(root) - seen|
  {
    if !sch.Map? then Null
    else if "default" in sch.m then sch.m["default"]
    else if RefOf(sch).Some? && RefOf(sch).value !in seen && !Resolved(root, RefOf(sch).value).Null? then
      RefShrinks(root, sch, seen);
      Default(Resolved(root, RefOf(sch).value), root, seen + {RefOf(sch).value})
    else Null
  }

  function Keyword(sch: Tree, key: string): Tree
    requires sch.Map?
  {
    if key in sch.m then sch.m[key] else Null
  }

  lemma KeywordSubtree(root: Tree, sch: Tree, key: string)
    requires sch in Subtrees(root) && sch.Map? && key in sch.m
    ensures sch.m[key] in Subtrees(root) && Height(sch.m[key]) < Height(sch)
  {
    assert IsChild(sch, sch.m[key]);
    ChildSubtree(root, sch, sch.m[key]);
    ChildIsLower(sch, sch.m[key]);
  }

  lemma ItemSubtree(root: Tree, list: Tree, i: nat)
    requires list in Subtrees(root) && list.List? && i < |list.items|
    ensures list.items[i] in Subtrees(root) && Height(list.items[i]) < Height(list)
  {
    assert IsChild(list, list.items[i]);
    ChildSubtree(root, list, list.items[i]);
    ChildIsLower(list, list.items[i]);
  }

  /** The instance after `applyDefaults`. */
  function Filled(sch: Tree, inst: Tree, root: Tree, seen: set<string>): Tree
    requires sch in Subtrees(root)
    decreases |Refs(root) - seen|, Height(sch), 3
  {
    if !sch.Map? then inst
    else if RefOf(sch).Some? then
      var ref := RefOf(sch).value;
      if ref !in seen && !Resolved(root, ref).Null? then
        RefShrinks(root, sch, seen);
        Filled(Resolved(root, ref), inst, root, seen + {ref})
      else inst
    else
      var afterAll := AfterAll(sch, inst, root, seen);
      if afterAll.Map? && Keyword(sch, "properties").Map? then
        KeywordSubtree(root, sch, "properties");
        Map(FilledProps(sch.m["properties"], afterAll.m, root, seen))
      else if afterAll.List? && "items" in sch.m then
        KeywordSubtree(root, sch, "items");
        List(FilledItems(sch.m["items"], afterAll.items, root, seen))
      else afterAll
  }

  /** The instance after the allOf of a schema. */
  function AfterAll(sch: Tree, inst: Tree, root: Tree, seen: set<string>): Tree
    requires sch in Subtrees(root) && sch.Map?
    decreases |Refs(root) - seen|, Height(sch), 2
  {
    if Keyword(sch, "allOf").List? then
      KeywordSubtree(root, sch, "allOf");
      FilledAll(sch.m["allOf"], |sch.m["allOf"].items|, inst, root, seen)
    else inst
  }

  /** The first `n` entries of an allOf, one after the other. */
  function FilledAll(allOf: Tree, n: nat, inst: Tree, root: Tree, seen: set<string>): Tree
    requires allOf in Subtrees(root) && allOf.List? && n <= |allOf.items|
    decreases |Refs(root) - seen|, Height(allOf), 1, n
  {
    if n == 0 then inst
    else
      ItemSubtree(root, allOf, n - 1);
      Filled(allOf.items[n - 1], FilledAll(allOf, n - 1, inst, root, seen), root, seen)
  }

  /** The value a property starts from: its own, or a non-nil default. */
  function Start(props: Tree, obj: map<string, Tree>, prop: string, root: Tree, seen: set<string>): Option<Tree>
    requires props in Subtrees(root) && props.Map? && prop in props.m
  {
    KeywordSubtree(root, props, prop);
    if prop in obj then Some(obj[prop])
    else if !Default(props.m[prop], root, seen).Null? then Some(Default(props.m[prop], root, seen))
    else None
  }

  function FilledProps(props: Tree, obj: map<string, Tree>, root: Tree, seen: set<string>): map<string, Tree>
    requires props in Subtrees(root) && props.Map?
    decreases |Refs(root) - seen|, Height(props), 2
  {
    map prop | prop in obj.Keys + props.m.Keys && (prop in props.m ==> Start(props, obj, prop, root, seen).Some?) ::
      if prop in props.m then
        KeywordSubtree(root, props, prop);
        Filled(props.m[prop], Start(props, obj, prop, root, seen).value, root, seen)
      else obj[prop]
  }

  /** A list of schemas applies position by position; any other value applies to every item. */
  function FilledItems(schemas: Tree, arr: seq<Tree>, root: Tree, seen: set<string>): (r: seq<Tree>)
    requires schemas in Subtrees(root)
    ensures |r| == |arr|
    decreases |Refs(root) - seen|, Height(schemas), 4
  {
    seq(|arr|, i requires 0 <= i < |arr| =>
      if schemas.List? then
        if i < |schemas.items| then
          ItemSubtree(root, schemas, i);
          Filled(schemas.items[i], arr[i], root, seen)
        else arr[i]
      else Filled(schemas, arr[i], root, seen))
  }

  // ---------- The definition, case by case ----------

  /** The first cases of the definition. */
  lemma FilledCases(sch: Tree, inst: Tree, root: Tree, seen: set<string>)
    requires sch in Subtrees(root)
    ensures !sch.Map? ==> Filled(sch, inst, root, seen) == inst
    ensures sch.Map? && RefOf(sch).Some? ==>
              var ref := RefOf(sch).value;
              if ref in seen || Resolved(root, ref).Null? then Filled(sch, inst, root, seen) == inst
              else Resolved(root, ref) in Subtrees(root)
                   && Filled(sch, inst, root, seen) == Filled(Resolved(root, ref), inst, root, seen + {ref})
  {
    if sch.Map? && RefOf(sch).Some? && RefOf(sch).value !in seen {
      RefShrinks(root, sch, seen);
    }
  }

  lemma AllCases(sch: Tree, inst: Tree, root: Tree, seen: set<string>)
    requires sch in Subtrees(root) && sch.Map? && RefOf(sch).None?
    ensures if Keyword(sch, "allOf").List? then
              && "allOf" in sch.m && sch.m["allOf"].List? && sch.m["allOf"] in Subtrees(root)
              && Height(sch.m["allOf"]) < Height(sch)
              && AfterAll(sch, inst, root, seen) == FilledAll(sch.m["allOf"], |sch.m["allOf"].items|, inst, root, seen)
            else AfterAll(sch, inst, root, seen) == inst
  {
    if Keyword(sch, "allOf").List? {
      KeywordSubtree(root, sch, "allOf");
    }
  }

  lemma KeywordCases(sch: Tree, inst: Tree, root: Tree, seen: set<string>)
    requires sch in Subtrees(root) && sch.Map? && RefOf(sch).None?
    ensures var after := AfterAll(sch, inst, root, seen);
            if after.Map? && Keyword(sch, "properties").Map? then
              && "properties" in sch.m && sch.m["properties"].Map? && sch.m["properties"] in Subtrees(root)
              && Height(sch.m["properties"]) < Height(sch)
              && Filled(sch, inst, root, seen) == Map(FilledProps(sch.m["properties"], after.m, root, seen))
            else if after.List? && "items" in sch.m then
              && sch.m["items"] in Subtrees(root) && Height(sch.m["items"]) < Height(sch)
              && Filled(sch, inst, root, seen) == List(FilledItems(sch.m["items"], after.items, root, seen))
            else Filled(sch, inst, root, seen) == after
  {
    if Keyword(sch, "properties").Map? {
      KeywordSubtree(root, sch, "properties");
    }
    if "items" in sch.m {
      KeywordSubtree(root, sch, "items");
    }
  }

  lemma AllStart(allOf: Tree, inst: Tree, root: Tree, seen: set<string>)
    requires allOf in Subtrees(root) && allOf.List?
    ensures FilledAll(allOf, 0, inst, root, seen) == inst
  {}

  lemma AllStep(allOf: Tree, i: nat, inst: Tree, root: Tree, seen: set<string>)
    requires allOf in Subtrees(root) && allOf.List? && i < |allOf.items|
    ensures allOf.items[i] in Subtrees(root) && Height(allOf.items[i]) < Height(allOf)
    ensures FilledAll(allOf, i + 1, inst, root, seen) == Filled(allOf.items[i], FilledAll(allOf, i, inst, root, seen), root, seen)
  {
    ItemSubtree(root, allOf, i);
  }

  // ---------- A conservative extension ----------

  /** The default values a document holds. */
  ghost function DefaultsOf(root: Tree): set<Tree> {
    set t | t in Subtrees(root) && t.Map? && "default" in t.m :: t.m["default"]
  }

  /**
   `y` is `x` with keys added to its maps, at any depth. Every added value is a non-nil
   default, itself possibly with keys added. Scalars and list lengths stay.
   */
  ghost predicate Grows(x: Tree, y: Tree, defs: set<Tree>)
    decreases y
  {
    || x == y
    || (x.Map? && y.Map? && x.m.Keys <= y.m.Keys &&
        forall k | k in y.m ::
          if k in x.m then Grows(x.m[k], y.m[k], defs) else exists d | d in defs && !d.Null? :: Grows(d, y.m[k], defs))
    || (x.List? && y.List? && |x.items| == |y.items| && forall i | 0 <= i < |y.items| :: Grows(x.items[i], y.items[i], defs))
  }

  lemma {:induction false} GrowsTransitive(x: Tree, y: Tree, z: Tree, defs: set<Tree>)
    requires Grows(x, y, defs) && Grows(y, z, defs)
    ensures Grows(x, z, defs)
    decreases z
  {
    if x == y || y == z {
    } else if z.Map? {
      forall k | k in z.m
        ensures if k in x.m then Grows(x.m[k], z.m[k], defs) else exists d | d in defs && !d.Null? :: Grows(d, z.m[k], defs)
      {
        if k in x.m {
          GrowsTransitive(x.m[k], y.m[k], z.m[k], defs);
        } else if k in y.m {
          var d :| d in defs && !d.Null? && Grows(d, y.m[k], defs);
          GrowsTransitive(d, y.m[k], z.m[k], defs);
        }
      }
    } else {
      forall i | 0 <= i < |z.items| ensures Grows(x.items[i], z.items[i], defs) {
        GrowsTransitive(x.items[i], y.items[i], z.items[i], defs);
      }
    }
  }

  lemma {:induction false} DefaultIsOfDocument(sch: Tree, root: Tree, seen: set<string>)
    requires sch in Subtrees(root)
    ensures Default(sch, root, seen).Null? || Default(sch, root, seen) in DefaultsOf(root)
    decreases |Refs(root) - seen|
  {
    if sch.Map? && "default" !in sch.m && RefOf(sch).Some? && RefOf(sch).value !in seen
       && !Resolved(root, RefOf(sch).value).Null? {
      RefShrinks(root, sch, seen);
      DefaultIsOfDocument(Resolved(root, RefOf(sch).value), root, seen + {RefOf(sch).value});
    }
  }

  /** No existing key, scalar or list length changes, and everything added comes from a default of the schema. */
  lemma {:induction false} FilledGrows(sch: Tree, inst: Tree, root: Tree, seen: set<string>)
    requires sch in Subtrees(root)
    ensures Grows(inst, Filled(sch, inst, root, seen), DefaultsOf(root))
    decreases |Refs(root) - seen|, Height(sch), 3
  {
    if !sch.Map? {
    } else if RefOf(sch).Some? {
      var ref := RefOf(sch).value;
      if ref !in seen && !Resolved(root, ref).Null? {
        RefShrinks(root, sch, seen);
        FilledGrows(Resolved(root, ref), inst, root, seen + {ref});
      }
    } else {
      var afterAll := AfterAll(sch, inst, root, seen);
      if Keyword(sch, "allOf").List? {
        KeywordSubtree(root, sch, "allOf");
        FilledAllGrows(sch.m["allOf"], |sch.m["allOf"].items|, inst, root, seen);
      }
      if afterAll.Map? && Keyword(sch, "properties").Map? {
        KeywordSubtree(root, sch, "properties");
        FilledPropsGrow(sch.m["properties"], afterAll.m, root, seen);
      } else if afterAll.List? && "items" in sch.m {
        KeywordSubtree(root, sch, "items");
        FilledItemsGrow(sch.m["items"], afterAll.items, root, seen);
      }
      GrowsTransitive(inst, afterAll, Filled(sch, inst, root, seen), DefaultsOf(root));
    }
  }

  lemma {:induction false} FilledAllGrows(allOf: Tree, n: nat, inst: Tree, root: Tree, seen: set<string>)
    requires allOf in Subtrees(root) && allOf.List? && n <= |allOf.items|
    ensures Grows(inst, FilledAll(allOf, n, inst, root, seen), DefaultsOf(root))
    decreases |Refs(root) - seen|, Height(allOf), 1, n
  {
    if n > 0 {
      ItemSubtree(root, allOf, n - 1);
      var before := FilledAll(allOf, n - 1, inst, root, seen);
      FilledAllGrows(allOf, n - 1, inst, root, seen);
      FilledGrows(allOf.items[n - 1], before, root, seen);
      GrowsTransitive(inst, before, FilledAll(allOf, n, inst, root, seen), DefaultsOf(root));
    }
  }

  lemma {:induction false} FilledPropsGrow(props: Tree, obj: map<string, Tree>, root: Tree, seen: set<string>)
    requires props in Subtrees(root) && props.Map?
    ensures Grows(Map(obj), Map(FilledProps(props, obj, root, seen)), DefaultsOf(root))
    decreases |Refs(root) - seen|, Height(props), 2
  {
    var after, defs := FilledProps(props, obj, root, seen), DefaultsOf(root);
    forall k | k in after
      ensures if k in obj then Grows(obj[k], after[k], defs) else exists d | d in defs && !d.Null? :: Grows(d, after[k], defs)
    {
      if k in props.m {
        KeywordSubtree(root, props, k);
        var start := Start(props, obj, k, root, seen).value;
        FilledGrows(props.m[k], start, root, seen);
        DefaultIsOfDocument(props.m[k], root, seen);
        assert Grows(start, after[k], defs);
      }
    }
  }

  lemma {:induction false} FilledItemsGrow(schemas: Tree, arr: seq<Tree>, root: Tree, seen: set<string>)
    requires schemas in Subtrees(root)
    ensures Grows(List(arr), List(FilledItems(schemas, arr, root, seen)), DefaultsOf(root))
    decreases |Refs(root) - seen|, Height(schemas), 4
  {
    forall i | 0 <= i < |arr| ensures Grows(arr[i], FilledItems(schemas, arr, root, seen)[i], DefaultsOf(root)) {
      if schemas.List? {
        if i < |schemas.items| {
          ItemSubtree(root, schemas, i);
          FilledGrows(schemas.items[i], arr[i], root, seen);
        }
      } else {
        FilledGrows(schemas, arr[i], root, seen);
      }
    }
  }
}
