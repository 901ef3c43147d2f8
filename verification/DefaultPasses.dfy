/**
 When one pass over an instance is enough. A later entry of an allOf may add what an
 earlier entry would have filled; that can happen only when what it adds holds an
 object, since nothing is ever added to anything else.
 */
module DefaultPasses {
  import opened Trees
  import opened SchemaRefs
  import opened SchemaDefaults

  ghost predicate NoAllOf(root: Tree) {
    forall t | t in Subtrees(root) && t.Map? :: !Keyword(t, "allOf").List?
  }

  /** A value that holds no object, so that filling it adds nothing. */
  predicate Inert(t: Tree)
    decreases t
  {
    match t
    case Map(_) => false
    case List(items) => forall i | 0 <= i < |items| :: Inert(items[i])
    case _ => true
  }

  ghost predicate InertDefaults(root: Tree) {
    forall def | def in DefaultsOf(root) :: Inert(def)
  }

  /** A document that can be read off before the call: it has no allOf, or no default holds an object. */
  ghost predicate OnePass(root: Tree) {
    NoAllOf(root) || InertDefaults(root)
  }

  // ---------- Growth by inert defaults ----------

  lemma {:induction false} InertFrozen(x: Tree, y: Tree, defs: set<Tree>)
    requires Inert(x) && Grows(x, y, defs)
    ensures x == y
    decreases y
  {
    if x != y {
      forall i | 0 <= i < |y.items| ensures x.items[i] == y.items[i] {
        InertFrozen(x.items[i], y.items[i], defs);
      }
    }
  }

  lemma GrowsReflexive(x: Tree, defs: set<Tree>)
    ensures Grows(x, x, defs)
  {}

  lemma {:induction false} GrowsAntisymmetric(x: Tree, y: Tree, defs: set<Tree>)
    requires Grows(x, y, defs) && Grows(y, x, defs)
    ensures x == y
    decreases y
  {
    match x {
      case Map(m) =>
        forall k | k in m ensures m[k] == y.m[k] {
          if x != y {
            GrowsAntisymmetric(m[k], y.m[k], defs);
          }
        }
      case List(items) =>
        forall i | 0 <= i < |items| ensures items[i] == y.items[i] {
          if x != y {
            GrowsAntisymmetric(items[i], y.items[i], defs);
          }
        }
      case _ =>
    }
  }

  // ---------- A schema with nothing to add stays so ----------

  /** A schema that adds nothing to an instance adds nothing to what the instance grows into. */
  lemma {:induction false} StableOnGrowth(sch: Tree, z: Tree, w: Tree, root: Tree, seen: set<string>)
    requires sch in Subtrees(root) && InertDefaults(root)
    requires Filled(sch, z, root, seen) == z && Grows(z, w, DefaultsOf(root))
    ensures Filled(sch, w, root, seen) == w
    decreases |Refs(root) - seen|, Height(sch), 3
  {
    hide Filled, FilledAll, AfterAll, FilledProps, FilledItems;
    FilledCases(sch, z, root, seen);
    FilledCases(sch, w, root, seen);
    if !sch.Map? {
    } else if RefOf(sch).Some? {
      var ref := RefOf(sch).value;
      if ref !in seen && !Resolved(root, ref).Null? {
        RefShrinks(root, sch, seen);
        StableOnGrowth(Resolved(root, ref), z, w, root, seen + {ref});
      }
    } else {
      var after := AfterAll(sch, z, root, seen);
      AllCases(sch, z, root, seen);
      AllCases(sch, w, root, seen);
      KeywordCases(sch, z, root, seen);
      KeywordCases(sch, w, root, seen);
      KeywordsGrow(sch, z, root, seen);
      if Keyword(sch, "allOf").List? {
        FilledAllGrows(sch.m["allOf"], |sch.m["allOf"].items|, z, root, seen);
        GrowsAntisymmetric(z, after, DefaultsOf(root));
        AllStableOnGrowth(sch.m["allOf"], z, w, root, seen);
      }
      assert after == z && AfterAll(sch, w, root, seen) == w;
      if z.Map? && Keyword(sch, "properties").Map? {
        PropsStableOnGrowth(sch.m["properties"], z.m, w.m, root, seen);
      } else if z.List? && "items" in sch.m {
        ItemsStableOnGrowth(sch.m["items"], z.items, w.items, root, seen);
      }
    }
  }

  lemma {:induction false} AllStableOnGrowth(allOf: Tree, z: Tree, w: Tree, root: Tree, seen: set<string>)
    requires allOf in Subtrees(root) && allOf.List? && InertDefaults(root)
    requires FilledAll(allOf, |allOf.items|, z, root, seen) == z && Grows(z, w, DefaultsOf(root))
    ensures FilledAll(allOf, |allOf.items|, w, root, seen) == w
    decreases |Refs(root) - seen|, Height(allOf), 3
  {
    hide FilledAll, Filled, Grows;
    var n, defs := |allOf.items|, DefaultsOf(root);
    forall i: nat | i < n
      ensures LeftAlone(allOf.items[i], w, root, seen)
    {
      ItemSubtree(root, allOf, i);
      StepIsStable(allOf, i, z, root, seen);
      StepIsStable(allOf, i + 1, z, root, seen);
      AllStep(allOf, i, z, root, seen);
      StableOnGrowth(allOf.items[i], z, w, root, seen);
    }
    AllStable(allOf, n, w, root, seen);
  }

  /** When the whole allOf adds nothing, nor does any part of it. */
  lemma StepIsStable(allOf: Tree, i: nat, z: Tree, root: Tree, seen: set<string>)
    requires allOf in Subtrees(root) && allOf.List? && i <= |allOf.items|
    requires FilledAll(allOf, |allOf.items|, z, root, seen) == z
    ensures FilledAll(allOf, i, z, root, seen) == z
  {
    hide FilledAll, Filled, Grows;
    FilledAllGrows(allOf, i, z, root, seen);
    AllGrowsFrom(allOf, i, |allOf.items|, z, root, seen);
    GrowsAntisymmetric(z, FilledAll(allOf, i, z, root, seen), DefaultsOf(root));
  }

  lemma {:induction false} PropsStableOnGrowth(props: Tree, z: map<string, Tree>, w: map<string, Tree>, root: Tree, seen: set<string>)
    requires props in Subtrees(root) && props.Map? && InertDefaults(root)
    requires FilledProps(props, z, root, seen) == z && Grows(Map(z), Map(w), DefaultsOf(root))
    ensures FilledProps(props, w, root, seen) == w
    decreases |Refs(root) - seen|, Height(props), 2
  {
    var after := FilledProps(props, w, root, seen);
    forall k | k in props.m
      ensures props.m[k] in Subtrees(root)
      ensures k in w ==> Filled(props.m[k], w[k], root, seen) == w[k]
      ensures k !in w ==> Default(props.m[k], root, seen).Null?
    {
      KeywordSubtree(root, props, k);
      PropStableOnGrowth(props, k, z, w, root, seen);
    }
    PropsStable(props, w, root, seen);
  }

  lemma PropsStable(props: Tree, w: map<string, Tree>, root: Tree, seen: set<string>)
    requires props in Subtrees(root) && props.Map?
    requires forall k | k in props.m :: props.m[k] in Subtrees(root)
    requires forall k | k in props.m :: if k in w then Filled(props.m[k], w[k], root, seen) == w[k]
                                        else Default(props.m[k], root, seen).Null?
    ensures FilledProps(props, w, root, seen) == w
  {
    var after := FilledProps(props, w, root, seen);
    forall k ensures k in after <==> k in w {
      assert k in props.m ==> (Start(props, w, k, root, seen).Some? <==> k in w);
    }
  }

  lemma {:induction false} PropStableOnGrowth(props: Tree, k: string, z: map<string, Tree>, w: map<string, Tree>, root: Tree, seen: set<string>)
    requires props in Subtrees(root) && props.Map? && k in props.m && InertDefaults(root) && props.m[k] in Subtrees(root)
    requires FilledProps(props, z, root, seen) == z && Grows(Map(z), Map(w), DefaultsOf(root))
    ensures k in w ==> Filled(props.m[k], w[k], root, seen) == w[k]
    ensures k !in w ==> Default(props.m[k], root, seen).Null?
    decreases |Refs(root) - seen|, Height(props), 1
  {
    var sch, defs := props.m[k], DefaultsOf(root);
    KeywordSubtree(root, props, k);
    if k in z {
      assert FilledProps(props, z, root, seen)[k] == z[k];
      assert Filled(sch, z[k], root, seen) == z[k];
      StableOnGrowth(sch, z[k], w[k], root, seen);
    } else {
      assert k !in FilledProps(props, z, root, seen);
      assert Start(props, z, k, root, seen).None?;
      if k in w {
        var d :| d in defs && !d.Null? && Grows(d, w[k], defs);
        InertFrozen(d, w[k], defs);
        FilledGrows(sch, w[k], root, seen);
        InertFrozen(w[k], Filled(sch, w[k], root, seen), defs);
      }
    }
  }

  lemma {:induction false} ItemsStableOnGrowth(schemas: Tree, z: seq<Tree>, w: seq<Tree>, root: Tree, seen: set<string>)
    requires schemas in Subtrees(root) && InertDefaults(root)
    requires FilledItems(schemas, z, root, seen) == z && Grows(List(z), List(w), DefaultsOf(root))
    ensures FilledItems(schemas, w, root, seen) == w
    decreases |Refs(root) - seen|, Height(schemas), 4
  {
    forall i | 0 <= i < |w| ensures FilledItems(schemas, w, root, seen)[i] == w[i] {
      assert FilledItems(schemas, z, root, seen)[i] == z[i] && Grows(z[i], w[i], DefaultsOf(root));
      if schemas.List? {
        if i < |schemas.items| {
          ItemSubtree(root, schemas, i);
          StableOnGrowth(schemas.items[i], z[i], w[i], root, seen);
        }
      } else {
        StableOnGrowth(schemas, z[i], w[i], root, seen);
      }
    }
  }

  // ---------- Once is enough ----------

  /** Filling a filled instance changes nothing. */
  lemma {:induction false} FilledIsIdempotent(sch: Tree, inst: Tree, root: Tree, seen: set<string>)
    requires sch in Subtrees(root) && OnePass(root)
    ensures Filled(sch, Filled(sch, inst, root, seen), root, seen) == Filled(sch, inst, root, seen)
    decreases |Refs(root) - seen|, Height(sch), 3
  {
    hide Filled, FilledAll, AfterAll, FilledProps, FilledItems, Grows;
    var once := Filled(sch, inst, root, seen);
    FilledCases(sch, inst, root, seen);
    FilledCases(sch, once, root, seen);
    if !sch.Map? {
    } else if RefOf(sch).Some? {
      var ref := RefOf(sch).value;
      if ref !in seen && !Resolved(root, ref).Null? {
        RefShrinks(root, sch, seen);
        FilledIsIdempotent(Resolved(root, ref), inst, root, seen + {ref});
      }
    } else {
      var after := AfterAll(sch, inst, root, seen);
      AllCases(sch, inst, root, seen);
      AllCases(sch, once, root, seen);
      KeywordCases(sch, inst, root, seen);
      KeywordCases(sch, once, root, seen);
      KeywordsGrow(sch, inst, root, seen);
      if Keyword(sch, "allOf").List? {
        AllIdempotent(sch.m["allOf"], inst, once, root, seen);
      }
      if after.Map? && Keyword(sch, "properties").Map? {
        PropsIdempotent(sch.m["properties"], after.m, root, seen);
      } else if after.List? && "items" in sch.m {
        ItemsIdempotent(sch.m["items"], after.items, root, seen);
      }
    }
  }

  /** What comes after the allOf only adds. */
  lemma KeywordsGrow(sch: Tree, inst: Tree, root: Tree, seen: set<string>)
    requires sch in Subtrees(root) && sch.Map? && RefOf(sch).None?
    ensures Grows(AfterAll(sch, inst, root, seen), Filled(sch, inst, root, seen), DefaultsOf(root))
  {
    var after := AfterAll(sch, inst, root, seen);
    if after.Map? && Keyword(sch, "properties").Map? {
      KeywordSubtree(root, sch, "properties");
      FilledPropsGrow(sch.m["properties"], after.m, root, seen);
    } else if after.List? && "items" in sch.m {
      KeywordSubtree(root, sch, "items");
      FilledItemsGrow(sch.m["items"], after.items, root, seen);
    }
  }

  /** Each entry of an allOf leaves what it has filled alone, however much was added since. */
  lemma {:induction false} AllIdempotent(allOf: Tree, inst: Tree, once: Tree, root: Tree, seen: set<string>)
    requires allOf in Subtrees(root) && allOf.List? && InertDefaults(root)
    requires Grows(FilledAll(allOf, |allOf.items|, inst, root, seen), once, DefaultsOf(root))
    ensures FilledAll(allOf, |allOf.items|, once, root, seen) == once
    decreases |Refs(root) - seen|, Height(allOf), 3
  {
    hide FilledAll, Filled, Grows;
    var n := |allOf.items|;
    forall i: nat | i < n
      ensures LeftAlone(allOf.items[i], once, root, seen)
    {
      ItemSubtree(root, allOf, i);
      var before := FilledAll(allOf, i, inst, root, seen);
      var z := FilledAll(allOf, i + 1, inst, root, seen);
      AllStep(allOf, i, inst, root, seen);
      FilledIsIdempotent(allOf.items[i], before, root, seen);
      AllGrowsFrom(allOf, i + 1, n, inst, root, seen);
      GrowsTransitive(z, FilledAll(allOf, n, inst, root, seen), once, DefaultsOf(root));
      StableOnGrowth(allOf.items[i], z, once, root, seen);
    }
    AllStable(allOf, n, once, root, seen);
  }

  ghost predicate LeftAlone(sch: Tree, z: Tree, root: Tree, seen: set<string>) {
    sch in Subtrees(root) && Filled(sch, z, root, seen) == z
  }

  lemma AllStableStep(allOf: Tree, i: nat, z: Tree, root: Tree, seen: set<string>)
    requires allOf in Subtrees(root) && allOf.List? && i < |allOf.items|
    requires FilledAll(allOf, i, z, root, seen) == z && LeftAlone(allOf.items[i], z, root, seen)
    ensures FilledAll(allOf, i + 1, z, root, seen) == z
  {
    hide FilledAll, Filled;
    AllStep(allOf, i, z, root, seen);
  }

  lemma {:induction false} AllStable(allOf: Tree, n: nat, z: Tree, root: Tree, seen: set<string>)
    requires allOf in Subtrees(root) && allOf.List? && n <= |allOf.items|
    requires forall i | 0 <= i < n :: LeftAlone(allOf.items[i], z, root, seen)
    ensures FilledAll(allOf, n, z, root, seen) == z
    decreases n
  {
    hide FilledAll, Filled;
    AllStart(allOf, z, root, seen);
    if n > 0 {
      AllStable(allOf, n - 1, z, root, seen);
      AllStableStep(allOf, n - 1, z, root, seen);
    }
  }

  lemma {:induction false} AllGrowsFrom(allOf: Tree, m: nat, n: nat, inst: Tree, root: Tree, seen: set<string>)
    requires allOf in Subtrees(root) && allOf.List? && m <= n <= |allOf.items|
    ensures Grows(FilledAll(allOf, m, inst, root, seen), FilledAll(allOf, n, inst, root, seen), DefaultsOf(root))
    decreases n
  {
    hide FilledAll, Filled, Grows;
    GrowsReflexive(FilledAll(allOf, m, inst, root, seen), DefaultsOf(root));
    if m < n {
      AllStep(allOf, n - 1, inst, root, seen);
      var before := FilledAll(allOf, n - 1, inst, root, seen);
      AllGrowsFrom(allOf, m, n - 1, inst, root, seen);
      FilledGrows(allOf.items[n - 1], before, root, seen);
      GrowsTransitive(FilledAll(allOf, m, inst, root, seen), before, FilledAll(allOf, n, inst, root, seen), DefaultsOf(root));
    }
  }

  lemma {:induction false} PropsIdempotent(props: Tree, obj: map<string, Tree>, root: Tree, seen: set<string>)
    requires props in Subtrees(root) && props.Map? && OnePass(root)
    ensures FilledProps(props, FilledProps(props, obj, root, seen), root, seen) == FilledProps(props, obj, root, seen)
    decreases |Refs(root) - seen|, Height(props), 2
  {
    var once := FilledProps(props, obj, root, seen);
    var twice := FilledProps(props, once, root, seen);
    forall k ensures k in twice <==> k in once {
      if k in props.m { KeywordSubtree(root, props, k); }
    }
    forall k | k in once ensures twice[k] == once[k] {
      if k in props.m {
        KeywordSubtree(root, props, k);
        FilledIsIdempotent(props.m[k], Start(props, obj, k, root, seen).value, root, seen);
      }
    }
  }

  lemma {:induction false} ItemsIdempotent(schemas: Tree, arr: seq<Tree>, root: Tree, seen: set<string>)
    requires schemas in Subtrees(root) && OnePass(root)
    ensures FilledItems(schemas, FilledItems(schemas, arr, root, seen), root, seen) == FilledItems(schemas, arr, root, seen)
    decreases |Refs(root) - seen|, Height(schemas), 4
  {
    var once := FilledItems(schemas, arr, root, seen);
    forall i | 0 <= i < |arr| ensures FilledItems(schemas, once, root, seen)[i] == once[i] {
      if schemas.List? {
        if i < |schemas.items| {
          ItemSubtree(root, schemas, i);
          FilledIsIdempotent(schemas.items[i], arr[i], root, seen);
        }
      } else {
        FilledIsIdempotent(schemas, arr[i], root, seen);
      }
    }
  }

  // ---------- Twice is needed ----------

  /** A property with a default of its own. */
  function WithDefault(def: Tree): Tree {
    Map(map["default" := def])
  }

  function WithProperty(prop: string, sch: Tree): Tree {
    Map(map["properties" := Map(map[prop := sch])])
  }

  lemma WithDefaultIs(def: Tree, inst: Tree, root: Tree)
    requires WithDefault(def) in Subtrees(root)
    ensures Default(WithDefault(def), root, {}) == def
    ensures Filled(WithDefault(def), inst, root, {}) == inst
  {
    var sch := WithDefault(def);
    assert RefOf(sch).None? && Keyword(sch, "allOf").Null? && Keyword(sch, "properties").Null?;
    assert AfterAll(sch, inst, root, {}) == inst;
  }

  lemma WithPropertyIs(prop: string, child: Tree, root: Tree)
    requires WithProperty(prop, child) in Subtrees(root)
    ensures var sch := WithProperty(prop, child);
            && RefOf(sch).None? && Keyword(sch, "allOf").Null? && Keyword(sch, "properties") == Map(map[prop := child])
            && Default(sch, root, {}).Null?
            && child in Subtrees(root) && Map(map[prop := child]) in Subtrees(root)
  {
    var sch := WithProperty(prop, child);
    KeywordSubtree(root, sch, "properties");
    KeywordSubtree(root, sch.m["properties"], prop);
  }

  /** A schema with properties and no reference or allOf. */
  lemma FilledByProps(sch: Tree, inst: Tree, root: Tree)
    requires sch in Subtrees(root) && sch.Map? && RefOf(sch).None? && !Keyword(sch, "allOf").List?
    requires Keyword(sch, "properties").Map? && Keyword(sch, "properties") in Subtrees(root) && inst.Map?
    ensures Filled(sch, inst, root, {}) == Map(FilledProps(Keyword(sch, "properties"), inst.m, root, {}))
  {
    assert AfterAll(sch, inst, root, {}) == inst;
  }

  lemma FilledProp(prop: string, child: Tree, obj: map<string, Tree>, root: Tree, start: Option<Tree>)
    requires Map(map[prop := child]) in Subtrees(root) && child in Subtrees(root)
    requires start == Start(Map(map[prop := child]), obj, prop, root, {})
    ensures FilledProps(Map(map[prop := child]), obj, root, {})
         == if start.Some? then obj[prop := Filled(child, start.value, root, {})] else obj
  {
    var after := FilledProps(Map(map[prop := child]), obj, root, {});
    if start.Some? {
      assert after == obj[prop := Filled(child, start.value, root, {})];
    } else {
      assert after == obj;
    }
  }

  /** What a schema with a single property does to an object. */
  lemma FillProperty(prop: string, child: Tree, obj: map<string, Tree>, root: Tree, start: Option<Tree>)
    requires WithProperty(prop, child) in Subtrees(root) && child in Subtrees(root)
    requires start == if prop in obj then Some(obj[prop])
                      else if Default(child, root, {}).Null? then None else Some(Default(child, root, {}))
    ensures Filled(WithProperty(prop, child), Map(obj), root, {})
         == Map(if start.Some? then obj[prop := Filled(child, start.value, root, {})] else obj)
  {
    WithPropertyIs(prop, child, root);
    FilledByProps(WithProperty(prop, child), Map(obj), root);
    FilledProp(prop, child, obj, root, start);
  }

  /** A schema that is an allOf of two entries. */
  function AllOfTwo(first: Tree, second: Tree): Tree {
    Map(map["allOf" := List([first, second])])
  }

  lemma AllOfTwoParts(first: Tree, second: Tree)
    ensures var root := AllOfTwo(first, second);
            && root in Subtrees(root) && root.m["allOf"] in Subtrees(root)
            && first in Subtrees(root) && second in Subtrees(root)
  {
    var root := AllOfTwo(first, second);
    KeywordSubtree(root, root, "allOf");
    ItemSubtree(root, root.m["allOf"], 0);
    ItemSubtree(root, root.m["allOf"], 1);
  }

  lemma PassOverTwo(first: Tree, second: Tree, inst: Tree)
    requires first in Subtrees(AllOfTwo(first, second)) && second in Subtrees(AllOfTwo(first, second))
    requires AllOfTwo(first, second) in Subtrees(AllOfTwo(first, second))
    requires Filled(second, Filled(first, inst, AllOfTwo(first, second), {}), AllOfTwo(first, second), {}).Map?
    ensures var root := AllOfTwo(first, second);
            Filled(root, inst, root, {}) == Filled(second, Filled(first, inst, root, {}), root, {})
  {
    var root := AllOfTwo(first, second);
    var allOf := root.m["allOf"];
    AllOfTwoParts(first, second);
    assert RefOf(root).None? && Keyword(root, "properties").Null?;
    assert FilledAll(allOf, 0, inst, root, {}) == inst;
    assert FilledAll(allOf, 1, inst, root, {}) == Filled(first, inst, root, {});
    assert FilledAll(allOf, 2, inst, root, {}) == Filled(second, Filled(first, inst, root, {}), root, {});
    assert AfterAll(root, inst, root, {}) == FilledAll(allOf, 2, inst, root, {});
  }

  const ONE := Leaf(Int(1))
  const EMPTY := Map(map[])
  /** Fills "b" inside "a", if there is an "a". */
  const FILLS_B := WithProperty("a", WithProperty("b", WithDefault(ONE)))
  /** Creates an empty "a". */
  const CREATES_A := WithProperty("a", WithDefault(EMPTY))

  /** An object property that a later entry of an allOf creates is filled by an earlier one the second time only. */
  lemma AllOfNeedsTwoPasses()
    ensures var root := AllOfTwo(FILLS_B, CREATES_A);
            && root in Subtrees(root)
            && Filled(root, EMPTY, root, {}) == Map(map["a" := EMPTY])
            && Filled(root, Map(map["a" := EMPTY]), root, {}) == Map(map["a" := Map(map["b" := ONE])])
  {
    hide Filled, Default, Subtrees;
    var root, inner := AllOfTwo(FILLS_B, CREATES_A), WithProperty("b", WithDefault(ONE));
    AllOfTwoParts(FILLS_B, CREATES_A);
    WithPropertyIs("a", inner, root);
    WithPropertyIs("b", WithDefault(ONE), root);
    InsertPass(inner, EMPTY, root);
    CreateProperty("b", ONE, root);
    FillPass(inner, EMPTY, root);
    PassOverTwo(FILLS_B, CREATES_A, EMPTY);
    PassOverTwo(FILLS_B, CREATES_A, Map(map["a" := EMPTY]));
  }

  lemma CreateProperty(p: string, def: Tree, root: Tree)
    requires WithProperty(p, WithDefault(def)) in Subtrees(root) && !def.Null?
    ensures Filled(WithProperty(p, WithDefault(def)), EMPTY, root, {}) == Map(map[p := def])
  {
    hide Filled, Default, Subtrees;
    WithPropertyIs(p, WithDefault(def), root);
    WithDefaultIs(def, def, root);
    FillProperty(p, WithDefault(def), map[], root, Some(def));
  }

  lemma KeepProperty(p: string, def: Tree, value: Tree, root: Tree)
    requires WithProperty(p, WithDefault(def)) in Subtrees(root)
    ensures Filled(WithProperty(p, WithDefault(def)), Map(map[p := value]), root, {}) == Map(map[p := value])
  {
    hide Filled, Default, Subtrees;
    WithPropertyIs(p, WithDefault(def), root);
    WithDefaultIs(def, value, root);
    FillProperty(p, WithDefault(def), map[p := value], root, Some(value));
  }

  /** The first entry finds nothing to fill, and the second inserts the default. */
  lemma InsertPass(inner: Tree, def: Tree, root: Tree)
    requires WithProperty("a", inner) in Subtrees(root) && inner in Subtrees(root) && Default(inner, root, {}).Null?
    requires WithProperty("a", WithDefault(def)) in Subtrees(root) && !def.Null?
    ensures Filled(WithProperty("a", inner), EMPTY, root, {}) == EMPTY
    ensures Filled(WithProperty("a", WithDefault(def)), EMPTY, root, {}) == Map(map["a" := def])
  {
    hide Filled, Default, Subtrees;
    FillProperty("a", inner, map[], root, None);
    CreateProperty("a", def, root);
  }

  /** The first entry fills the inserted default, and the second leaves it alone. */
  lemma FillPass(inner: Tree, def: Tree, root: Tree)
    requires WithProperty("a", inner) in Subtrees(root) && inner in Subtrees(root)
    requires WithProperty("a", WithDefault(def)) in Subtrees(root)
    ensures var more := Map(map["a" := Filled(inner, def, root, {})]);
            && Filled(WithProperty("a", inner), Map(map["a" := def]), root, {}) == more
            && Filled(WithProperty("a", WithDefault(def)), more, root, {}) == more
  {
    hide Filled, Default, Subtrees;
    var more := Filled(inner, def, root, {});
    FillProperty("a", inner, map["a" := def], root, Some(def));
    assert map["a" := def]["a" := more] == map["a" := more];
    KeepProperty("a", def, more, root);
  }

  // ---------- Exactly the inert defaults are safe ----------

  ghost predicate OnePassEnough(root: Tree) {
    && root in Subtrees(root)
    && forall inst :: Filled(root, Filled(root, inst, root, {}), root, {}) == Filled(root, inst, root, {})
  }

  /** `def`, with what is inside it, is the only default that may hold an object. */
  ghost predicate OnlyDefault(root: Tree, def: Tree) {
    forall d | d in DefaultsOf(root) :: Inert(d) || d in Subtrees(def)
  }

  /**
   A value may be used as a default in every document, whatever its allOf, if and only
   if it holds no object.
   */
  lemma InertExactly(def: Tree)
    ensures Inert(def) <==> forall root | OnlyDefault(root, def) :: OnePassEnough(root)
  {
    if Inert(def) {
      forall root | OnlyDefault(root, def) ensures OnePassEnough(root) {
        forall d | d in DefaultsOf(root) ensures Inert(d) {
          if d in Subtrees(def) {
            InertSubtrees(def, d);
          }
        }
        assert root in Subtrees(root);
        forall inst ensures Filled(root, Filled(root, inst, root, {}), root, {}) == Filled(root, inst, root, {}) {
          FilledIsIdempotent(root, inst, root, {});
        }
      }
    } else {
      var root := AllOfTwo(WithProperty("a", Reach(def)), WithProperty("a", WithDefault(def)));
      ReachesTwice(def);
      ReachingDefaults(def);
      assert OnlyDefault(root, def) && !OnePassEnough(root);
    }
  }

  lemma {:induction false} InertSubtrees(t: Tree, sub: Tree)
    requires Inert(t) && sub in Subtrees(t)
    ensures Inert(sub)
    decreases t
  {
    if sub != t {
      var i :| 0 <= i < |t.items| && sub in Subtrees(t.items[i]);
      InertSubtrees(t.items[i], sub);
    }
  }

  function Letters(n: nat): string {
    seq(n, i requires 0 <= i < n => 'b')
  }

  /** A key that the map does not have. */
  ghost function NewKey(m: map<string, Tree>): (key: string)
    ensures key !in m && key != "default"
  {
    var lengths: set<nat> := set k | k in m :: |k|;
    var key := Letters(Max(lengths) + 1);
    assert key[0] != "default"[0];
    assert key in m ==> |key| in lengths;
    key
  }

  /** A schema that adds to some object inside the value. */
  ghost function Reach(t: Tree): Tree
    requires !Inert(t)
    decreases t
  {
    match t
    case Map(m) => WithProperty(NewKey(m), WithDefault(ONE))
    case List(items) =>
      var i :| 0 <= i < |items| && !Inert(items[i]);
      Map(map["items" := Reach(items[i])])
  }

  lemma {:induction false} ReachAdds(t: Tree, root: Tree)
    requires !Inert(t) && Reach(t) in Subtrees(root)
    ensures Reach(t).Map? && Default(Reach(t), root, {}).Null?
    ensures Filled(Reach(t), t, root, {}) != t
    decreases t
  {
    match t {
      case Map(m) =>
        var key := NewKey(m);
        WithPropertyIs(key, WithDefault(ONE), root);
        WithDefaultIs(ONE, ONE, root);
        FillProperty(key, WithDefault(ONE), m, root, Some(ONE));
        assert key in m[key := ONE];
      case List(items) =>
        var i :| 0 <= i < |items| && !Inert(items[i]) && Reach(t) == Map(map["items" := Reach(items[i])]);
        FilledByItems(Reach(items[i]), items, root);
        ReachAdds(items[i], root);
        assert FilledItems(Reach(items[i]), items, root, {})[i] != items[i];
    }
  }

  lemma FilledByItems(child: Tree, items: seq<Tree>, root: Tree)
    requires Map(map["items" := child]) in Subtrees(root)
    ensures child in Subtrees(root) && Default(Map(map["items" := child]), root, {}).Null?
    ensures Filled(Map(map["items" := child]), List(items), root, {}) == List(FilledItems(child, items, root, {}))
  {
    var sch := Map(map["items" := child]);
    KeywordSubtree(root, sch, "items");
    assert RefOf(sch).None? && Keyword(sch, "allOf").Null?;
    assert AfterAll(sch, List(items), root, {}) == List(items);
  }

  lemma ReachesTwice(def: Tree)
    requires !Inert(def)
    ensures !OnePassEnough(AllOfTwo(WithProperty("a", Reach(def)), WithProperty("a", WithDefault(def))))
  {
    hide Filled, Default, Subtrees;
    var first, second := WithProperty("a", Reach(def)), WithProperty("a", WithDefault(def));
    var root := AllOfTwo(first, second);
    AllOfTwoParts(first, second);
    WithPropertyIs("a", Reach(def), root);
    ReachAdds(def, root);
    InsertPass(Reach(def), def, root);
    FillPass(Reach(def), def, root);
    PassOverTwo(first, second, EMPTY);
    PassOverTwo(first, second, Map(map["a" := def]));
    assert Map(map["a" := def]).m["a"] != Map(map["a" := Filled(Reach(def), def, root, {})]).m["a"];
  }

  // ---------- The defaults of the documents above ----------

  lemma DefaultsOfEntry(k: string, t: Tree)
    requires k != "default"
    ensures DefaultsOf(Map(map[k := t])) <= DefaultsOf(t)
  {}

  lemma DefaultsOfDefault(def: Tree)
    ensures DefaultsOf(WithDefault(def)) <= Subtrees(def)
  {
    forall t | t in Subtrees(def) && t.Map? && "default" in t.m ensures t.m["default"] in Subtrees(def) {
      KeywordSubtree(def, t, "default");
    }
  }

  lemma DefaultsOfProperty(k: string, t: Tree)
    requires k != "default"
    ensures DefaultsOf(WithProperty(k, t)) <= DefaultsOf(t)
  {
    DefaultsOfEntry(k, t);
    DefaultsOfEntry("properties", Map(map[k := t]));
  }

  lemma DefaultsOfAllOf(first: Tree, second: Tree)
    ensures DefaultsOf(AllOfTwo(first, second)) <= DefaultsOf(first) + DefaultsOf(second)
  {
    DefaultsOfEntry("allOf", List([first, second]));
  }

  lemma {:induction false} DefaultsOfReach(t: Tree)
    requires !Inert(t)
    ensures DefaultsOf(Reach(t)) <= {ONE}
    decreases t
  {
    match t {
      case Map(m) =>
        DefaultsOfProperty(NewKey(m), WithDefault(ONE));
        DefaultsOfDefault(ONE);
      case List(items) =>
        var i :| 0 <= i < |items| && !Inert(items[i]) && Reach(t) == Map(map["items" := Reach(items[i])]);
        DefaultsOfReach(items[i]);
        DefaultsOfEntry("items", Reach(items[i]));
    }
  }

  lemma ReachingDefaults(def: Tree)
    requires !Inert(def)
    ensures OnlyDefault(AllOfTwo(WithProperty("a", Reach(def)), WithProperty("a", WithDefault(def))), def)
  {
    DefaultsOfReach(def);
    DefaultsOfDefault(def);
    DefaultsOfProperty("a", Reach(def));
    DefaultsOfProperty("a", WithDefault(def));
    DefaultsOfAllOf(WithProperty("a", Reach(def)), WithProperty("a", WithDefault(def)));
  }
}
