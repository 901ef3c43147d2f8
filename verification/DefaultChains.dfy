/**
 What filling promises, said of the schema document itself. A default is found through a
 chain of references; every property that a schema demands is there afterwards; and an
 instance is left alone if and only if it lacks nothing.
 */
module DefaultChains {
  import opened Trees
  import opened SchemaRefs
  import opened SchemaDefaults
  import opened DefaultPasses

  // ---------- Chains of references to a default ----------

  /**
   Schemas without a default, each with an unseen reference of its own that resolves to
   the next one, and a last schema with the default `d`.
   */
  ghost predicate Chain(root: Tree, schs: seq<Tree>, refs: seq<string>, seen: set<string>, d: Tree) {
    && |schs| == |refs| + 1
    && (forall i | 0 <= i < |refs| :: Link(root, schs[i], refs[i], schs[i + 1], seen))
    && (forall i, j | 0 <= i < j < |refs| :: refs[i] != refs[j])
    && schs[|refs|].Map? && "default" in schs[|refs|].m && schs[|refs|].m["default"] == d
  }

  predicate Link(root: Tree, sch: Tree, ref: string, next: Tree, seen: set<string>) {
    && sch.Map? && "default" !in sch.m && RefOf(sch) == Some(ref) && ref !in seen
    && next == Resolved(root, ref) && !next.Null?
  }

  ghost predicate LeadsTo(sch: Tree, root: Tree, seen: set<string>, d: Tree) {
    exists schs, refs :: Chain(root, schs, refs, seen, d) && schs[0] == sch
  }

  lemma ChainPrepended(sch: Tree, root: Tree, seen: set<string>, d: Tree)
    requires sch.Map? && "default" !in sch.m && RefOf(sch).Some? && RefOf(sch).value !in seen
    requires !Resolved(root, RefOf(sch).value).Null?
    requires LeadsTo(Resolved(root, RefOf(sch).value), root, seen + {RefOf(sch).value}, d)
    ensures LeadsTo(sch, root, seen, d)
  {
    var ref := RefOf(sch).value;
    var schs, refs :| Chain(root, schs, refs, seen + {ref}, d) && schs[0] == Resolved(root, ref);
    var schs', refs' := [sch] + schs, [ref] + refs;
    forall i | 0 <= i < |refs'|
      ensures Link(root, schs'[i], refs'[i], schs'[i + 1], seen)
    {
      if i > 0 {
        assert Link(root, schs[i - 1], refs[i - 1], schs[i - 1 + 1], seen + {ref});
      }
    }
    forall i, j | 0 <= i < j < |refs'| ensures refs'[i] != refs'[j] {
      assert refs'[j] == refs[j - 1] && Link(root, schs[j - 1], refs[j - 1], schs[j - 1 + 1], seen + {ref});
    }
    assert schs'[|refs'|] == schs[|refs|];
    assert Chain(root, schs', refs', seen, d);
  }

  lemma ChainShortened(root: Tree, schs: seq<Tree>, refs: seq<string>, seen: set<string>, d: Tree)
    requires Chain(root, schs, refs, seen, d) && refs != []
    ensures Chain(root, schs[1..], refs[1..], seen + {refs[0]}, d)
    ensures schs[1] == Resolved(root, refs[0])
  {
    assert Link(root, schs[0], refs[0], schs[0 + 1], seen);
    forall i | 0 <= i < |refs[1..]|
      ensures Link(root, schs[1..][i], refs[1..][i], schs[1..][i + 1], seen + {refs[0]})
    {
      assert Link(root, schs[i + 1], refs[i + 1], schs[i + 1 + 1], seen) && refs[0] != refs[i + 1];
    }
  }

  lemma {:induction false} ChainGives(root: Tree, schs: seq<Tree>, refs: seq<string>, seen: set<string>, d: Tree)
    requires Chain(root, schs, refs, seen, d) && schs[0] in Subtrees(root)
    ensures Default(schs[0], root, seen) == d
    decreases |refs|
  {
    if refs != [] {
      ChainShortened(root, schs, refs, seen, d);
      assert Link(root, schs[0], refs[0], schs[0 + 1], seen);
      RefShrinks(root, schs[0], seen);
      ChainGives(root, schs[1..], refs[1..], seen + {refs[0]}, d);
    }
  }

  lemma {:induction false} DefaultHasChain(sch: Tree, root: Tree, seen: set<string>)
    requires sch in Subtrees(root) && !Default(sch, root, seen).Null?
    ensures LeadsTo(sch, root, seen, Default(sch, root, seen))
    decreases |Refs(root) - seen|
  {
    var d := Default(sch, root, seen);
    if "default" in sch.m {
      assert Chain(root, [sch], [], seen, d) && [sch][0] == sch;
    } else {
      var ref := RefOf(sch).value;
      RefShrinks(root, sch, seen);
      DefaultHasChain(Resolved(root, ref), root, seen + {ref});
      ChainPrepended(sch, root, seen, d);
    }
  }

  /** The default of a schema is `d` if and only if a chain of references leads to it. */
  lemma DefaultByChain(sch: Tree, root: Tree, seen: set<string>, d: Tree)
    requires sch in Subtrees(root) && !d.Null?
    ensures Default(sch, root, seen) == d <==> LeadsTo(sch, root, seen, d)
  {
    if Default(sch, root, seen) == d {
      DefaultHasChain(sch, root, seen);
    }
    if LeadsTo(sch, root, seen, d) {
      var schs, refs :| Chain(root, schs, refs, seen, d) && schs[0] == sch;
      ChainGives(root, schs, refs, seen, d);
    }
  }

  ghost predicate HasDefault(sch: Tree, root: Tree, seen: set<string>) {
    exists d: Tree :: !d.Null? && LeadsTo(sch, root, seen, d)
  }

  lemma HasDefaultIff(sch: Tree, root: Tree, seen: set<string>)
    requires sch in Subtrees(root)
    ensures HasDefault(sch, root, seen) <==> !Default(sch, root, seen).Null?
  {
    if d: Tree :| !d.Null? && LeadsTo(sch, root, seen, d) {
      DefaultByChain(sch, root, seen, d);
    }
    if !Default(sch, root, seen).Null? {
      DefaultHasChain(sch, root, seen);
    }
  }

  // ---------- Which properties are there afterwards ----------

  /** Some part of the schema that applies to the object itself has a default for the property. */
  ghost predicate Demands(sch: Tree, prop: string, root: Tree, seen: set<string>)
    requires sch in Subtrees(root)
    decreases |Refs(root) - seen|, Height(sch), 3
  {
    sch.Map? &&
    if RefOf(sch).Some? then
      var ref := RefOf(sch).value;
      ref !in seen && !Resolved(root, ref).Null? && (RefShrinks(root, sch, seen); Demands(Resolved(root, ref), prop, root, seen + {ref}))
    else
      || (Keyword(sch, "allOf").List? && (KeywordSubtree(root, sch, "allOf"); SomeDemands(sch.m["allOf"], prop, root, seen)))
      || (Keyword(sch, "properties").Map? && prop in sch.m["properties"].m && HasDefault(sch.m["properties"].m[prop], root, seen))
  }

  ghost predicate SomeDemands(allOf: Tree, prop: string, root: Tree, seen: set<string>)
    requires allOf in Subtrees(root) && allOf.List?
    decreases |Refs(root) - seen|, Height(allOf), 3
  {
    exists i :: 0 <= i < |allOf.items| && (ItemSubtree(root, allOf, i); Demands(allOf.items[i], prop, root, seen))
  }

  /** After filling an object, a property is there if and only if it was, or the schema demands it. */
  lemma {:induction false} PresentIff(sch: Tree, obj: map<string, Tree>, prop: string, root: Tree, seen: set<string>)
    requires sch in Subtrees(root)
    ensures Filled(sch, Map(obj), root, seen).Map?
    ensures prop in Filled(sch, Map(obj), root, seen).m <==> prop in obj || Demands(sch, prop, root, seen)
    decreases |Refs(root) - seen|, Height(sch), 3
  {
    hide Filled, FilledAll, AfterAll, FilledProps;
    var inst := Map(obj);
    FilledCases(sch, inst, root, seen);
    if !sch.Map? {
    } else if RefOf(sch).Some? {
      var ref := RefOf(sch).value;
      if ref !in seen && !Resolved(root, ref).Null? {
        RefShrinks(root, sch, seen);
        PresentIff(Resolved(root, ref), obj, prop, root, seen + {ref});
      }
    } else {
      AllCases(sch, inst, root, seen);
      KeywordCases(sch, inst, root, seen);
      var after := AfterAll(sch, inst, root, seen);
      if Keyword(sch, "allOf").List? {
        AllPresentIff(sch.m["allOf"], |sch.m["allOf"].items|, obj, prop, root, seen);
        SomeDemandsIs(sch.m["allOf"], prop, root, seen);
      }
      if Keyword(sch, "properties").Map? {
        PropPresentIff(sch.m["properties"], after.m, prop, root, seen);
      }
    }
  }

  lemma PropPresentIff(props: Tree, obj: map<string, Tree>, prop: string, root: Tree, seen: set<string>)
    requires props in Subtrees(root) && props.Map?
    ensures prop in FilledProps(props, obj, root, seen) <==>
              prop in obj || (prop in props.m && HasDefault(props.m[prop], root, seen))
  {
    if prop in props.m {
      KeywordSubtree(root, props, prop);
      HasDefaultIff(props.m[prop], root, seen);
    }
  }

  lemma SomeDemandsIs(allOf: Tree, prop: string, root: Tree, seen: set<string>)
    requires allOf in Subtrees(root) && allOf.List?
    ensures SomeDemands(allOf, prop, root, seen) <==>
              exists i :: 0 <= i < |allOf.items| && allOf.items[i] in Subtrees(root) && Demands(allOf.items[i], prop, root, seen)
  {
    forall i | 0 <= i < |allOf.items| ensures allOf.items[i] in Subtrees(root) {
      ItemSubtree(root, allOf, i);
    }
  }

  /** The first `n` entries of an allOf. */
  lemma {:induction false} AllPresentIff(allOf: Tree, n: nat, obj: map<string, Tree>, prop: string, root: Tree, seen: set<string>)
    requires allOf in Subtrees(root) && allOf.List? && n <= |allOf.items|
    ensures FilledAll(allOf, n, Map(obj), root, seen).Map?
    ensures prop in FilledAll(allOf, n, Map(obj), root, seen).m <==>
              prop in obj || exists i :: 0 <= i < n && allOf.items[i] in Subtrees(root) && Demands(allOf.items[i], prop, root, seen)
    decreases |Refs(root) - seen|, Height(allOf), 4, n
  {
    hide Filled, FilledAll, Demands, Subtrees, Height, Refs;
    if n == 0 {
      AllStart(allOf, Map(obj), root, seen);
    } else {
      AllStep(allOf, n - 1, Map(obj), root, seen);
      AllPresentIff(allOf, n - 1, obj, prop, root, seen);
      PresentIff(allOf.items[n - 1], FilledAll(allOf, n - 1, Map(obj), root, seen).m, prop, root, seen);
    }
  }

  /** The value that a property starts from is grown, whether it was there or is the default that a chain leads to. */
  lemma ValueGrows(props: Tree, obj: map<string, Tree>, prop: string, root: Tree, seen: set<string>, d: Tree)
    requires props in Subtrees(root) && props.Map? && prop in props.m
    requires if prop in obj then d == obj[prop] else !d.Null? && LeadsTo(props.m[prop], root, seen, d)
    ensures prop in FilledProps(props, obj, root, seen)
    ensures Grows(d, FilledProps(props, obj, root, seen)[prop], DefaultsOf(root))
    ensures props.m[prop] in Subtrees(root)
    ensures FilledProps(props, obj, root, seen)[prop] == Filled(props.m[prop], d, root, seen)
  {
    KeywordSubtree(root, props, prop);
    if prop !in obj {
      DefaultByChain(props.m[prop], root, seen, d);
    }
    FilledGrows(props.m[prop], d, root, seen);
  }

  // ---------- Filling adds nothing to what lacks nothing ----------

  /** No object of the instance, at any depth that the schema describes, lacks a property with a default. */
  ghost predicate Sated(sch: Tree, y: Tree, root: Tree, seen: set<string>)
    requires sch in Subtrees(root)
    decreases |Refs(root) - seen|, Height(sch), 3
  {
    sch.Map? ==>
    if RefOf(sch).Some? then
      var ref := RefOf(sch).value;
      ref !in seen && !Resolved(root, ref).Null? ==> (RefShrinks(root, sch, seen); Sated(Resolved(root, ref), y, root, seen + {ref}))
    else
      && (Keyword(sch, "allOf").List? ==> (KeywordSubtree(root, sch, "allOf"); AllSated(sch.m["allOf"], y, root, seen)))
      && (Keyword(sch, "properties").Map? && y.Map? ==>
            (KeywordSubtree(root, sch, "properties"); PropsSated(sch.m["properties"], y.m, root, seen)))
      && ("items" in sch.m && y.List? ==> (KeywordSubtree(root, sch, "items"); ItemsSated(sch.m["items"], y.items, root, seen)))
  }

  ghost predicate AllSated(allOf: Tree, y: Tree, root: Tree, seen: set<string>)
    requires allOf in Subtrees(root) && allOf.List?
    decreases |Refs(root) - seen|, Height(allOf), 3
  {
    forall i | 0 <= i < |allOf.items| :: ItemSubtree(root, allOf, i); Sated(allOf.items[i], y, root, seen)
  }

  ghost predicate PropsSated(props: Tree, obj: map<string, Tree>, root: Tree, seen: set<string>)
    requires props in Subtrees(root) && props.Map?
    decreases |Refs(root) - seen|, Height(props), 3
  {
    forall prop | prop in props.m ::
      KeywordSubtree(root, props, prop);
      if prop in obj then Sated(props.m[prop], obj[prop], root, seen) else !HasDefault(props.m[prop], root, seen)
  }

  ghost predicate ItemsSated(schemas: Tree, arr: seq<Tree>, root: Tree, seen: set<string>)
    requires schemas in Subtrees(root)
    decreases |Refs(root) - seen|, Height(schemas), 4
  {
    if schemas.List? then
      forall i | 0 <= i < |arr| && i < |schemas.items| :: ItemSubtree(root, schemas, i); Sated(schemas.items[i], arr[i], root, seen)
    else forall i | 0 <= i < |arr| :: Sated(schemas, arr[i], root, seen)
  }

  /** Filling leaves an instance as it is if and only if it lacks nothing, whatever the document. */
  lemma {:induction false} UnchangedIffSated(sch: Tree, y: Tree, root: Tree, seen: set<string>)
    requires sch in Subtrees(root)
    ensures Filled(sch, y, root, seen) == y <==> Sated(sch, y, root, seen)
    decreases |Refs(root) - seen|, Height(sch), 3
  {
    hide Filled, FilledAll, AfterAll, FilledProps, FilledItems, Grows, AllSated, PropsSated, ItemsSated;
    FilledCases(sch, y, root, seen);
    if !sch.Map? {
    } else if RefOf(sch).Some? {
      var ref := RefOf(sch).value;
      if ref !in seen && !Resolved(root, ref).Null? {
        RefShrinks(root, sch, seen);
        UnchangedIffSated(Resolved(root, ref), y, root, seen + {ref});
      }
    } else {
      AllCases(sch, y, root, seen);
      KeywordCases(sch, y, root, seen);
      KeywordsGrow(sch, y, root, seen);
      var after, defs := AfterAll(sch, y, root, seen), DefaultsOf(root);
      if Keyword(sch, "allOf").List? {
        var allOf := sch.m["allOf"];
        AllUnchangedIffSated(allOf, y, root, seen);
        FilledAllGrows(allOf, |allOf.items|, y, root, seen);
      } else {
        GrowsReflexive(y, defs);
      }
      if Filled(sch, y, root, seen) == y {
        GrowsAntisymmetric(y, after, defs);
      }
      if after == y {
        if y.Map? && Keyword(sch, "properties").Map? {
          PropsUnchangedIffSated(sch.m["properties"], y.m, root, seen);
        } else if y.List? && "items" in sch.m {
          ItemsUnchangedIffSated(sch.m["items"], y.items, root, seen);
        }
      }
    }
  }

  ghost predicate SatedAt(allOf: Tree, i: nat, y: Tree, root: Tree, seen: set<string>)
    requires allOf.List? && i < |allOf.items|
  {
    allOf.items[i] in Subtrees(root) && Sated(allOf.items[i], y, root, seen)
  }

  lemma AllSatedIs(allOf: Tree, y: Tree, root: Tree, seen: set<string>)
    requires allOf in Subtrees(root) && allOf.List?
    ensures AllSated(allOf, y, root, seen) <==> forall i | 0 <= i < |allOf.items| :: SatedAt(allOf, i, y, root, seen)
  {
    hide Sated;
    forall i | 0 <= i < |allOf.items| ensures allOf.items[i] in Subtrees(root) {
      ItemSubtree(root, allOf, i);
    }
    if AllSated(allOf, y, root, seen) {
      forall i | 0 <= i < |allOf.items| ensures SatedAt(allOf, i, y, root, seen) {}
    }
    if forall i | 0 <= i < |allOf.items| :: SatedAt(allOf, i, y, root, seen) {
      forall i | 0 <= i < |allOf.items| ensures Sated(allOf.items[i], y, root, seen) {
        assert SatedAt(allOf, i, y, root, seen);
      }
    }
  }

  /** When the whole allOf adds nothing, nor does any entry. */
  lemma EntryLeftAlone(allOf: Tree, i: nat, y: Tree, root: Tree, seen: set<string>)
    requires allOf in Subtrees(root) && allOf.List? && i < |allOf.items|
    requires FilledAll(allOf, |allOf.items|, y, root, seen) == y
    ensures LeftAlone(allOf.items[i], y, root, seen)
  {
    hide Filled, FilledAll;
    StepIsStable(allOf, i, y, root, seen);
    StepIsStable(allOf, i + 1, y, root, seen);
    AllStep(allOf, i, y, root, seen);
  }

  lemma {:induction false} AllUnchangedIffSated(allOf: Tree, y: Tree, root: Tree, seen: set<string>)
    requires allOf in Subtrees(root) && allOf.List?
    ensures FilledAll(allOf, |allOf.items|, y, root, seen) == y <==> AllSated(allOf, y, root, seen)
    decreases |Refs(root) - seen|, Height(allOf), 3
  {
    AllSatedIs(allOf, y, root, seen);
    forall i | 0 <= i < |allOf.items|
      ensures LeftAlone(allOf.items[i], y, root, seen) <==> SatedAt(allOf, i, y, root, seen)
    {
      ItemSubtree(root, allOf, i);
      UnchangedIffSated(allOf.items[i], y, root, seen);
    }
    hide Filled, FilledAll, LeftAlone, SatedAt, AllSated;
    if FilledAll(allOf, |allOf.items|, y, root, seen) == y {
      forall i: nat | i < |allOf.items| ensures SatedAt(allOf, i, y, root, seen) {
        EntryLeftAlone(allOf, i, y, root, seen);
      }
    }
    if AllSated(allOf, y, root, seen) {
      AllStable(allOf, |allOf.items|, y, root, seen);
    }
  }

  lemma {:induction false} PropsUnchangedIffSated(props: Tree, obj: map<string, Tree>, root: Tree, seen: set<string>)
    requires props in Subtrees(root) && props.Map?
    ensures FilledProps(props, obj, root, seen) == obj <==> PropsSated(props, obj, root, seen)
    decreases |Refs(root) - seen|, Height(props), 2
  {
    hide Filled, Sated;
    var after := FilledProps(props, obj, root, seen);
    forall prop | prop in props.m
      ensures props.m[prop] in Subtrees(root)
      ensures HasDefault(props.m[prop], root, seen) <==> !Default(props.m[prop], root, seen).Null?
      ensures prop in obj ==> (Filled(props.m[prop], obj[prop], root, seen) == obj[prop] <==> Sated(props.m[prop], obj[prop], root, seen))
    {
      KeywordSubtree(root, props, prop);
      HasDefaultIff(props.m[prop], root, seen);
      if prop in obj {
        UnchangedIffSated(props.m[prop], obj[prop], root, seen);
      }
    }
    if after == obj {
      forall prop | prop in props.m
        ensures if prop in obj then Sated(props.m[prop], obj[prop], root, seen) else !HasDefault(props.m[prop], root, seen)
      {
        if prop in obj {
          assert after[prop] == obj[prop];
        } else {
          assert prop !in after;
          assert Start(props, obj, prop, root, seen).None?;
        }
      }
    }
    if PropsSated(props, obj, root, seen) {
      PropsStable(props, obj, root, seen);
    }
  }

  lemma {:induction false} ItemsUnchangedIffSated(schemas: Tree, arr: seq<Tree>, root: Tree, seen: set<string>)
    requires schemas in Subtrees(root)
    ensures FilledItems(schemas, arr, root, seen) == arr <==> ItemsSated(schemas, arr, root, seen)
    decreases |Refs(root) - seen|, Height(schemas), 4
  {
    hide Filled, Sated;
    var after := FilledItems(schemas, arr, root, seen);
    if schemas.List? {
      forall i | 0 <= i < |arr| && i < |schemas.items|
        ensures schemas.items[i] in Subtrees(root)
        ensures after[i] == arr[i] <==> Sated(schemas.items[i], arr[i], root, seen)
      {
        ItemSubtree(root, schemas, i);
        UnchangedIffSated(schemas.items[i], arr[i], root, seen);
      }
    } else {
      forall i | 0 <= i < |arr| ensures after[i] == arr[i] <==> Sated(schemas, arr[i], root, seen) {
        UnchangedIffSated(schemas, arr[i], root, seen);
      }
    }
    if after == arr {
      assert ItemsSated(schemas, arr, root, seen);
    }
    if ItemsSated(schemas, arr, root, seen) {
      assert forall i | 0 <= i < |arr| :: after[i] == arr[i];
    }
  }

  /** Where one pass is enough, nothing is lacking after it. */
  lemma FilledIsSated(sch: Tree, inst: Tree, root: Tree, seen: set<string>)
    requires sch in Subtrees(root) && OnePass(root)
    ensures Sated(sch, Filled(sch, inst, root, seen), root, seen)
  {
    FilledIsIdempotent(sch, inst, root, seen);
    UnchangedIffSated(sch, Filled(sch, inst, root, seen), root, seen);
  }
}
