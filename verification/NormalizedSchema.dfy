/**
 The normalised schema document: one list of each kind of resource under "properties",
 and the definitions of the plugins under "$defs". A reference that a resource holds for
 a plugin resolves, in that same document, to the plugin's definition.
 */
module NormalizedSchema {
  import opened Trees
  import opened SchemaRefs

  const TYPE_STRING: Tree := Leaf(Str("string"))

  /** Where a kind of resource is in the normalised document and in the main section. */
  datatype ResourceSpec = ResourceSpec(key: string, mainKey: string, idField: string)

  const RESOURCE_SPECS: seq<ResourceSpec> := [
    ResourceSpec("routes", "route", "id"),
    ResourceSpec("services", "service", "id"),
    ResourceSpec("upstreams", "upstream", "id"),
    ResourceSpec("consumers", "consumer", "username"),
    ResourceSpec("consumer_groups", "consumer_group", "id"),
    ResourceSpec("plugin_configs", "plugin_config", "id"),
    ResourceSpec("global_rules", "global_rule", "id"),
    ResourceSpec("plugin_metadata", "plugin_metadata", "id"),
    ResourceSpec("ssls", "ssl", "id"),
    ResourceSpec("stream_routes", "stream_route", "id")
  ]

  // ---------- The id of a resource ----------

  /** The alternatives of a schema that are strings. */
  function StringTypes(entries: seq<Tree>): seq<Tree>
    decreases |entries|
  {
    if entries == [] then []
    else
      var last := entries[|entries| - 1];
      StringTypes(entries[..|entries| - 1])
        + if last.Map? && "type" in last.m && last.m["type"] == TYPE_STRING then [last] else []
  }

  function StripAnyOfTypes(schema: map<string, Tree>): map<string, Tree> {
    if "anyOf" !in schema || !schema["anyOf"].List? then schema
    else
      var filtered := StringTypes(schema["anyOf"].items);
      if filtered != [] then schema["anyOf" := List(filtered)] else schema - {"anyOf"}
  }

  function EnsureRequired(raw: Tree, field: string): seq<Tree> {
    var required := if raw.List? then raw.items else [];
    if Leaf(Str(field)) in required then required else required + [Leaf(Str(field))]
  }

  /** A strict id is a non-empty string. */
  function IDSchema(current: Tree, strict: bool): map<string, Tree> {
    var copied: map<string, Tree> := if current.Map? then current.m else map[];
    if !strict then copied
    else
      var typed := copied["type" := TYPE_STRING];
      StripAnyOfTypes(if "minLength" in typed then typed else typed["minLength" := Leaf(Int(1))])
  }

  function EnforceIDSchema(resource: map<string, Tree>, idField: string, strict: bool): map<string, Tree> {
    if idField == "" || "properties" !in resource || !resource["properties"].Map? then resource
    else
      var props := resource["properties"].m;
      var id := Map(IDSchema(if idField in props then props[idField] else Null, strict));
      var enforced := resource["properties" := Map(props[idField := id])];
      if !strict then enforced
      else
        var required := if "required" in resource then resource["required"] else Null;
        enforced["required" := List(EnsureRequired(required, idField))]
  }

  lemma {:induction false} StringTypesAre(entries: seq<Tree>)
    ensures forall t :: t in StringTypes(entries) <==> t in entries && t.Map? && "type" in t.m && t.m["type"] == TYPE_STRING
    decreases |entries|
  {
    if entries != [] {
      var init, last := entries[..|entries| - 1], entries[|entries| - 1];
      assert entries == init + [last];
      StringTypesAre(init);
    }
  }

  /**
   What enforcing an id promises. The id is described, as it was, or, strictly, as a
   string that is not empty by default, whose alternatives are strings; then it is
   required, with all that was. No other property and no other keyword changes.
   */
  lemma EnforcedIs(resource: map<string, Tree>, idField: string, strict: bool)
    requires idField != "" && "properties" in resource && resource["properties"].Map?
    ensures var before := resource["properties"].m;
            var enforced := EnforceIDSchema(resource, idField, strict);
            && "properties" in enforced && enforced["properties"].Map?
            && var after := enforced["properties"].m;
            && after.Keys == before.Keys + {idField} && (forall p | p in before && p != idField :: after[p] == before[p])
            && (forall k | k in resource && k != "properties" && k != "required" :: k in enforced && enforced[k] == resource[k])
            && (forall k | k in enforced && k !in resource :: strict && k == "required")
            && after[idField].Map? && var old' := if idField in before && before[idField].Map? then before[idField].m else map[];
            && (!strict ==> after[idField].m == old' && (forall k | k in enforced :: k in resource)
                            && ("required" in resource ==> enforced["required"] == resource["required"]))
            && (strict ==>
                  && StrictID(old', after[idField].m)
                  && "required" in enforced && enforced["required"].List? && Leaf(Str(idField)) in enforced["required"].items
                  && ("required" in resource && resource["required"].List? ==>
                        resource["required"].items <= enforced["required"].items))
  {
    StrictIDIs(if idField in resource["properties"].m then resource["properties"].m[idField] else Null);
  }

  ghost predicate StrictID(before: map<string, Tree>, id: map<string, Tree>) {
    && "type" in id && id["type"] == TYPE_STRING
    && "minLength" in id && id["minLength"] == (if "minLength" in before then before["minLength"] else Leaf(Int(1)))
    && (forall k | k in before && k != "type" && k != "anyOf" :: k in id && id[k] == before[k])
    && (forall k | k in id :: k in before || k == "type" || k == "minLength")
    && ("anyOf" in id && id["anyOf"].List? ==>
          id["anyOf"].items != []
          && forall t :: t in id["anyOf"].items <==>
               "anyOf" in before && before["anyOf"].List? && t in before["anyOf"].items
               && t.Map? && "type" in t.m && t.m["type"] == TYPE_STRING)
  }

  lemma StrictIDIs(current: Tree)
    ensures StrictID(if current.Map? then current.m else map[], IDSchema(current, true))
  {
    var before: map<string, Tree> := if current.Map? then current.m else map[];
    if "anyOf" in before && before["anyOf"].List? {
      StringTypesAre(before["anyOf"].items);
    }
  }

  // ---------- The top level ----------

  /** Every kind of resource of a declarative file is a list. */
  function WrapResourceSchema(resource: Tree): Tree {
    Map(map["type" := Leaf(Str("array")), "items" := resource])
  }

  function ResourceSchemas(main: map<string, Tree>, specs: seq<ResourceSpec>, strict: bool): map<string, Tree>
    decreases |specs|
  {
    if specs == [] then map[]
    else
      var before, spec := ResourceSchemas(main, specs[..|specs| - 1], strict), specs[|specs| - 1];
      if spec.mainKey in main && main[spec.mainKey].Map? then
        before[spec.key := WrapResourceSchema(Map(EnforceIDSchema(main[spec.mainKey].m, spec.idField, strict)))]
      else before
  }

  /** The loop over the kinds of resources. */
  method BuildTopLevelSchema(main: map<string, Tree>, specs: seq<ResourceSpec>, strict: bool) returns (schema: Tree)
    ensures schema == ObjectSchema(ResourceSchemas(main, specs, strict))
  {
    var properties: map<string, Tree> := map[];
    for i := 0 to |specs|
      invariant properties == ResourceSchemas(main, specs[..i], strict)
    {
      assert specs[..i + 1][..i] == specs[..i];
      var spec := specs[i];
      if spec.mainKey in main && main[spec.mainKey].Map? {
        var resource := EnforceIDSchema(main[spec.mainKey].m, spec.idField, strict);
        properties := properties[spec.key := WrapResourceSchema(Map(resource))];
      }
    }
    assert specs[..|specs|] == specs;
    return ObjectSchema(properties);
  }

  /** The main section as it is after the references were put in. */
  function UpdatedMain(doc: map<string, Tree>): map<string, Tree>
    requires "main" in doc && doc["main"].Map?
  {
    WithAllPlugins(doc["main"].m, PluginsOf(doc, "plugins"), PluginsOf(doc, "stream_plugins"))
  }

  /** The definitions of the plugins of both sections. */
  function Defs(doc: map<string, Tree>): Tree {
    Map(map["plugins" := DefsSchema(PluginsOf(doc, "plugins")), "stream_plugins" := DefsSchema(PluginsOf(doc, "stream_plugins"))])
  }

  function Properties(main: map<string, Tree>, metadata: Option<Tree>, strict: bool): map<string, Tree> {
    var resources := ResourceSchemas(main, RESOURCE_SPECS, strict);
    if metadata.Some? then resources["plugin_metadata" := WrapResourceSchema(metadata.value)] else resources
  }

  /** The normalised document. `metadata` is the schema of the plugins' metadata, when some plugin has any. */
  function Normalized(doc: map<string, Tree>, metadata: Option<Tree>, strict: bool): Result<map<string, Tree>> {
    if "main" !in doc || !doc["main"].Map? then Err
    else
      Ok(ObjectSchema(Properties(UpdatedMain(doc), metadata, strict)).m
           ["$schema" := Leaf(Str("https://json-schema.org/draft/2020-12/schema"))]["$defs" := Defs(doc)])
  }

  method NormalizeSchema(doc: map<string, Tree>, metadata: Option<Tree>, strict: bool) returns (r: Result<map<string, Tree>>)
    ensures r == Normalized(doc, metadata, strict)
  {
    if "main" !in doc || !doc["main"].Map? {
      return Err;
    }
    var main := UpdatedMain(doc);
    var schema := BuildTopLevelSchema(main, RESOURCE_SPECS, strict);
    var properties := schema.m["properties"].m;
    if metadata.Some? {
      properties := properties["plugin_metadata" := WrapResourceSchema(metadata.value)];
    }
    var root := ObjectSchema(properties).m;
    root := root["$schema" := Leaf(Str("https://json-schema.org/draft/2020-12/schema"))];
    root := root["$defs" := Defs(doc)];
    return Ok(root);
  }

  // ---------- Where the references are ----------

  lemma FollowThree(root: Tree, a: string, b: string, c: string)
    ensures Follow(root, [a, b, c]) == Descend(Descend(Descend(root, UnescapeToken(a)), UnescapeToken(b)), UnescapeToken(c))
  {
    assert [a, b, c][..2] == [a, b] && [a, b][..1] == [a] && [a][..0] == [];
    assert Follow(root, [a]) == Descend(root, UnescapeToken(a));
    assert Follow(root, [a, b]) == Descend(Follow(root, [a]), UnescapeToken(b));
  }

  /** The reference that a resource schema holds for a plugin. */
  function ResourceRef(resource: Tree, name: string): Option<string> {
    match Follow(resource, ["properties", "plugins", "properties"])
    case Map(refs) =>
      if name in refs && refs[name].Map? && "$ref" in refs[name].m && refs[name].m["$ref"].Leaf? && refs[name].m["$ref"].v.Str?
      then Some(refs[name].m["$ref"].v.s) else None
    case _ => None
  }

  /** The reference that the normalised document holds for a plugin, in the items of a kind of resource. */
  function RefAt(root: map<string, Tree>, key: string, name: string): Option<string> {
    ResourceRef(Follow(Map(root), ["properties", key, "items"]), name)
  }

  lemma ResourceRefIs(main: map<string, Tree>, mainKey: string, name: string)
    requires mainKey in main && '~' !in mainKey
    ensures PluginRef(main, mainKey, name) == ResourceRef(main[mainKey], name)
  {
    FollowFour(Map(main), mainKey, "properties", "plugins", "properties");
    FollowThree(main[mainKey], "properties", "plugins", "properties");
    UnescapePlain(mainKey);
  }

  lemma EnforcedKeepsPlugins(resource: map<string, Tree>, idField: string, strict: bool)
    requires idField != "plugins"
    ensures Descend(Descend(Map(EnforceIDSchema(resource, idField, strict)), "properties"), "plugins")
         == Descend(Descend(Map(resource), "properties"), "plugins")
  {
    hide IDSchema, EnsureRequired;
  }

  /** Enforcing the id of a resource leaves its plugins alone. */
  lemma EnforcedKeepsRefs(resource: map<string, Tree>, idField: string, strict: bool, name: string)
    requires idField != "plugins"
    ensures ResourceRef(Map(EnforceIDSchema(resource, idField, strict)), name) == ResourceRef(Map(resource), name)
  {
    hide EnforceIDSchema, Follow, Descend;
    FollowThree(Map(resource), "properties", "plugins", "properties");
    FollowThree(Map(EnforceIDSchema(resource, idField, strict)), "properties", "plugins", "properties");
    UnescapePlain("properties");
    UnescapePlain("plugins");
    EnforcedKeepsPlugins(resource, idField, strict);
  }

  /** Each kind of resource that the main section has is under its key. */
  lemma {:induction false} ResourceAt(main: map<string, Tree>, specs: seq<ResourceSpec>, strict: bool, i: nat)
    requires i < |specs| && specs[i].mainKey in main && main[specs[i].mainKey].Map?
    requires forall j | i < j < |specs| :: specs[j].key != specs[i].key
    ensures specs[i].key in ResourceSchemas(main, specs, strict)
    ensures ResourceSchemas(main, specs, strict)[specs[i].key]
         == WrapResourceSchema(Map(EnforceIDSchema(main[specs[i].mainKey].m, specs[i].idField, strict)))
    decreases |specs|
  {
    if i < |specs| - 1 {
      ResourceAt(main, specs[..|specs| - 1], strict, i);
    }
  }

  /** The position of a kind of resource that takes plugins. */
  function SpecOf(mainKey: string): nat
    requires mainKey in {"route", "plugin_config", "global_rule", "stream_route"}
  {
    match mainKey
    case "route" => 0
    case "plugin_config" => 5
    case "global_rule" => 6
    case _ => 9
  }

  lemma SpecsAreApart(mainKey: string)
    requires mainKey in {"route", "plugin_config", "global_rule", "stream_route"}
    ensures var spec := RESOURCE_SPECS[SpecOf(mainKey)];
            && spec.mainKey == mainKey && spec.idField == "id" && spec.key == KeyOf(mainKey)
            && '~' !in spec.mainKey && '~' !in spec.key && spec.key != "plugin_metadata"
            && forall j | SpecOf(mainKey) < j < |RESOURCE_SPECS| :: RESOURCE_SPECS[j].key != spec.key
  {}

  /** The key of a kind of resource in the normalised document. */
  function KeyOf(mainKey: string): string {
    mainKey + "s"
  }

  /** The path to the resources of a kind. */
  lemma ResourceOfRoot(root: map<string, Tree>, key: string, resource: Tree)
    requires '~' !in key && "properties" in root && root["properties"].Map?
    requires key in root["properties"].m && root["properties"].m[key] == WrapResourceSchema(resource)
    ensures Follow(Map(root), ["properties", key, "items"]) == resource
  {
    FollowThree(Map(root), "properties", key, "items");
    UnescapePlain("properties");
    UnescapePlain(key);
    UnescapePlain("items");
  }

  lemma RootRef(doc: map<string, Tree>, metadata: Option<Tree>, strict: bool, mainKey: string, name: string)
    requires Normalized(doc, metadata, strict).Ok?
    requires mainKey in {"route", "plugin_config", "global_rule", "stream_route"} && TakesPlugins(UpdatedMain(doc), mainKey)
    ensures RefAt(Normalized(doc, metadata, strict).value, KeyOf(mainKey), name) == PluginRef(UpdatedMain(doc), mainKey, name)
  {
    hide EnforceIDSchema, ResourceSchemas, ResourceRef, PluginRef, UpdatedMain, Defs, WrapResourceSchema, Follow;
    RootProperties(doc, metadata, strict);
    var root, main, spec := Normalized(doc, metadata, strict).value, UpdatedMain(doc), RESOURCE_SPECS[SpecOf(mainKey)];
    hide Normalized;
    SpecsAreApart(mainKey);
    ResourceAt(main, RESOURCE_SPECS, strict, SpecOf(mainKey));
    var resource := Map(EnforceIDSchema(main[mainKey].m, "id", strict));
    assert Properties(main, metadata, strict)[spec.key] == WrapResourceSchema(resource);
    ResourceOfRoot(root, spec.key, resource);
    EnforcedKeepsRefs(main[mainKey].m, "id", strict, name);
    ResourceRefIs(main, mainKey, name);
  }

  lemma RootProperties(doc: map<string, Tree>, metadata: Option<Tree>, strict: bool)
    requires Normalized(doc, metadata, strict).Ok?
    ensures var root := Normalized(doc, metadata, strict).value;
            && "properties" in root && root["properties"] == Map(Properties(UpdatedMain(doc), metadata, strict))
            && "$defs" in root && root["$defs"] == Defs(doc)
  {}

  /** What the document says of itself, and where the schema of the plugins' metadata is. */
  lemma RootKeywords(doc: map<string, Tree>, metadata: Option<Tree>, strict: bool)
    requires Normalized(doc, metadata, strict).Ok?
    ensures var root := Normalized(doc, metadata, strict).value;
            && root.Keys == {"type", "properties", "additionalProperties", "$schema", "$defs"}
            && root["type"] == Leaf(Str("object")) && root["additionalProperties"] == Leaf(Bool(false))
            && root["$schema"] == Leaf(Str("https://json-schema.org/draft/2020-12/schema"))
            && (metadata.Some? ==>
                  && root["properties"].Map? && "plugin_metadata" in root["properties"].m
                  && root["properties"].m["plugin_metadata"] == Map(map["type" := Leaf(Str("array")), "items" := metadata.value]))
  {
    hide ResourceSchemas, UpdatedMain, Defs;
  }

  // ---------- They resolve ----------

  lemma PlainSection(section: string)
    requires section in {"plugins", "stream_plugins"}
    ensures '/' !in section && '~' !in section
  {}

  lemma DefinitionResolves(doc: map<string, Tree>, metadata: Option<Tree>, strict: bool, section: string, name: string)
    requires Normalized(doc, metadata, strict).Ok? && section in {"plugins", "stream_plugins"}
    requires name in PluginsOf(doc, section)
    ensures Resolved(Map(Normalized(doc, metadata, strict).value), RefTo(RefPrefix(section), name)) == PluginsOf(doc, section)[name]
  {
    PlainSection(section);
    RootProperties(doc, metadata, strict);
    RefResolves(Normalized(doc, metadata, strict).value, section, PluginsOf(doc, section), name);
  }

  /** Every reference that the normalised document holds for a plugin resolves in it to that plugin's schema. */
  lemma PluginRefsResolve(doc: map<string, Tree>, metadata: Option<Tree>, strict: bool, mainKey: string, name: string)
    requires Normalized(doc, metadata, strict).Ok? && TakesPlugins(doc["main"].m, mainKey)
    requires mainKey in {"route", "plugin_config", "global_rule"} && name in PluginsOf(doc, "plugins")
    ensures var root := Normalized(doc, metadata, strict).value;
            && RefAt(root, KeyOf(mainKey), name).Some?
            && Resolved(Map(root), RefAt(root, KeyOf(mainKey), name).value) == PluginsOf(doc, "plugins")[name]
  {
    PluginRefKept(doc["main"].m, PluginsOf(doc, "plugins"), PluginsOf(doc, "stream_plugins"), mainKey, name);
    TakesStill(doc["main"].m, PluginsOf(doc, "plugins"), PluginsOf(doc, "stream_plugins"), mainKey);
    RootRef(doc, metadata, strict, mainKey, name);
    DefinitionResolves(doc, metadata, strict, "plugins", name);
  }

  /** The same for stream routes and stream plugins. */
  lemma StreamRefsResolve(doc: map<string, Tree>, metadata: Option<Tree>, strict: bool, name: string)
    requires Normalized(doc, metadata, strict).Ok? && TakesPlugins(doc["main"].m, "stream_route")
    requires name in PluginsOf(doc, "stream_plugins")
    ensures var root := Normalized(doc, metadata, strict).value;
            && RefAt(root, KeyOf("stream_route"), name).Some?
            && Resolved(Map(root), RefAt(root, KeyOf("stream_route"), name).value) == PluginsOf(doc, "stream_plugins")[name]
  {
    StreamRefKept(doc["main"].m, PluginsOf(doc, "plugins"), PluginsOf(doc, "stream_plugins"), name);
    TakesStill(doc["main"].m, PluginsOf(doc, "plugins"), PluginsOf(doc, "stream_plugins"), "stream_route");
    RootRef(doc, metadata, strict, "stream_route", name);
    DefinitionResolves(doc, metadata, strict, "stream_plugins", name);
  }

  lemma StillTakes(main: map<string, Tree>, mainKey: string, refPrefix: string, defs: map<string, Tree>, other: string)
    requires TakesPlugins(main, other)
    ensures TakesPlugins(WithPlugins(main, mainKey, refPrefix, defs), other)
  {}

  /** A section that takes plugins still does when they were put in. */
  lemma TakesStill(main: map<string, Tree>, plugins: map<string, Tree>, streamPlugins: map<string, Tree>, mainKey: string)
    requires TakesPlugins(main, mainKey)
    ensures TakesPlugins(WithAllPlugins(main, plugins, streamPlugins), mainKey)
  {
    var route := WithPlugins(main, "route", RefPrefix("plugins"), plugins);
    var config := WithPlugins(route, "plugin_config", RefPrefix("plugins"), plugins);
    var global := WithPlugins(config, "global_rule", RefPrefix("plugins"), plugins);
    StillTakes(main, "route", RefPrefix("plugins"), plugins, mainKey);
    StillTakes(route, "plugin_config", RefPrefix("plugins"), plugins, mainKey);
    StillTakes(config, "global_rule", RefPrefix("plugins"), plugins, mainKey);
    StillTakes(global, "stream_route", RefPrefix("stream_plugins"), streamPlugins, mainKey);
  }
}
