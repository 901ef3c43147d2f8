/**
 References inside a JSON schema document. A reference is "#" followed by a JSON
 pointer, whose reference tokens are escaped as in sections 3 and 4 of RFC 6901.
 */
module SchemaRefs {
  import opened Strings
  import opened Trees

  // ---------- Escaping reference tokens ----------

  function EscapeJSONPointer(input: string): string {
    ReplaceAll(ReplaceAll(input, "~", "~0"), "/", "~1")
  }

  function UnescapeToken(part: string): string {
    ReplaceAll(ReplaceAll(part, "~1", "/"), "~0", "~")
  }

  function EscapedChar(c: char): string {
    if c == '~' then "~0" else if c == '/' then "~1" else [c]
  }

  /** Escaping character by character. */
  function Escaped(s: string): string {
    if s == "" then "" else EscapedChar(s[0]) + Escaped(s[1..])
  }

  /** Escaping tildes only. */
  function TildesEscaped(s: string): string {
    if s == "" then "" else (if s[0] == '~' then "~0" else [s[0]]) + TildesEscaped(s[1..])
  }

  lemma ReplaceTildes(s: string)
    ensures ReplaceAll(s, "~", "~0") == TildesEscaped(s)
  {
    if s != "" {
      assert s[..1] == [s[0]];
      ReplaceTildes(s[1..]);
    }
  }

  lemma ReplaceSlashes(s: string)
    ensures ReplaceAll(TildesEscaped(s), "/", "~1") == Escaped(s)
  {
    if s != "" {
      var t := TildesEscaped(s);
      ReplaceSlashes(s[1..]);
      if s[0] == '~' {
        assert t[..1] == "~" && t[1..][..1] == "0";
        assert t[1..][1..] == TildesEscaped(s[1..]);
        assert t[1..] == "0" + TildesEscaped(s[1..]);
      } else {
        assert t[..1] == [s[0]] && t[1..] == TildesEscaped(s[1..]);
      }
    }
  }

  lemma EscapeIsEscaped(s: string)
    ensures EscapeJSONPointer(s) == Escaped(s)
  {
    ReplaceTildes(s);
    ReplaceSlashes(s);
  }

  lemma {:induction false} RestoreSlashes(s: string)
    ensures ReplaceAll(Escaped(s), "~1", "/") == TildesEscaped(s)
  {
    if s != "" {
      var rest := Escaped(s[1..]);
      RestoreSlashes(s[1..]);
      if s[0] == '~' {
        AfterOther('0', rest, "~1", "/");
        TildeIsKept(rest);
      } else if s[0] == '/' {
        assert ("~1" + rest)[..2] == "~1" && ("~1" + rest)[2..] == rest;
      } else {
        AfterOther(s[0], rest, "~1", "/");
      }
    }
  }

  lemma TildeIsKept(rest: string)
    ensures ReplaceAll("~0" + rest, "~1", "/") == "~" + ReplaceAll("0" + rest, "~1", "/")
  {
    var t := "~0" + rest;
    assert t[..2] == "~0" && t[1..] == "0" + rest;
  }

  lemma RestoreTildes(s: string)
    ensures ReplaceAll(TildesEscaped(s), "~0", "~") == s
  {
    if s != "" {
      var t := TildesEscaped(s);
      RestoreTildes(s[1..]);
      if s[0] == '~' {
        assert t[..2] == "~0" && t[2..] == TildesEscaped(s[1..]);
      } else {
        assert t == [s[0]] + TildesEscaped(s[1..]);
        AfterOther(s[0], TildesEscaped(s[1..]), "~0", "~");
      }
    }
  }

  /** A character that does not start the pattern is kept. */
  lemma AfterOther(c: char, rest: string, old': string, new': string)
    requires |old'| == 2 && c != old'[0]
    ensures ReplaceAll([c] + rest, old', new') == [c] + ReplaceAll(rest, old', new')
  {
    var s := [c] + rest;
    assert s[1..] == rest;
    if |s| >= 2 {
      assert s[..2][0] == c;
    }
  }

  /** Unescaping inverts escaping, for every string. */
  lemma UnescapeInvertsEscape(s: string)
    ensures UnescapeToken(EscapeJSONPointer(s)) == s
  {
    EscapeIsEscaped(s);
    RestoreSlashes(s);
    RestoreTildes(s);
  }

  /** An escaped name is a single reference token. */
  lemma EscapedHasNoSlash(s: string)
    ensures '/' !in EscapeJSONPointer(s)
  {
    EscapeIsEscaped(s);
    EscapedChars(s);
  }

  lemma EscapedChars(s: string)
    ensures '/' !in Escaped(s)
  {
    if s != "" {
      EscapedChars(s[1..]);
    }
  }

  // ---------- Resolving references ----------

  predicate IsDigit(c: char) {
    '0' <= c <= '9'
  }

  function DigitsValue(s: string): nat
    requires forall c | c in s :: IsDigit(c)
    decreases |s|
  {
    if s == "" then 0
    else
      var last := s[|s| - 1];
      assert last in s && IsDigit(last) && forall c | c in s[..|s| - 1] :: c in s;
      10 * DigitsValue(s[..|s| - 1]) + (last as int - '0' as int)
  }

  /** A decimal integer with an optional sign. */
  function Atoi(s: string): Option<int> {
    var digits := if s != "" && (s[0] == '+' || s[0] == '-') then s[1..] else s;
    if digits == "" || exists c :: c in digits && !IsDigit(c) then None
    else
      var value: int := DigitsValue(digits);
      Some(if s[0] == '-' then -value else value)
  }

  /** One reference token; nil is read from an absent key. */
  function Descend(node: Tree, part: string): Tree {
    match node
    case Map(m) => if part in m then m[part] else Null
    case List(items) =>
      (match Atoi(part)
       case Some(i) => if 0 <= i < |items| then items[i] else Null
       case None => Null)
    case _ => Null
  }

  function Follow(node: Tree, parts: seq<string>): Tree
    decreases |parts|
  {
    if parts == [] then node
    else Descend(Follow(node, parts[..|parts| - 1]), UnescapeToken(parts[|parts| - 1]))
  }

  /** Nil when the reference is not local or leads nowhere. */
  function Resolved(root: Tree, ref: string): Tree {
    if |ref| < 2 || ref[..2] != "#/" then Null else Follow(root, Split(ref[2..], '/'))
  }

  method ResolveRef(root: Tree, ref: string) returns (t: Tree)
    ensures t == Resolved(root, ref)
  {
    if |ref| < 2 || ref[..2] != "#/" {
      return Null;
    }
    var cur, parts := root, Split(ref[2..], '/');
    for i := 0 to |parts|
      invariant cur == Follow(root, parts[..i])
    {
      FollowStep(root, parts, i);
      cur := ResolveToken(cur, UnescapeToken(parts[i]));
      if cur.Null? {
        FollowNull(root, parts, i + 1);
        return Null;
      }
    }
    assert parts[..|parts|] == parts;
    return cur;
  }

  /** The body of the loop for one token. */
  method ResolveToken(node: Tree, part: string) returns (t: Tree)
    ensures t == Descend(node, part)
  {
    match node {
      case Map(m) =>
        return if part in m then m[part] else Null;
      case List(items) =>
        var idx := Atoi(part);
        if idx.Some? && 0 <= idx.value < |items| {
          return items[idx.value];
        }
        return Null;
      case _ =>
        return Null;
    }
  }

  lemma FollowStep(root: Tree, parts: seq<string>, i: nat)
    requires i < |parts|
    ensures Follow(root, parts[..i + 1]) == Descend(Follow(root, parts[..i]), UnescapeToken(parts[i]))
  {
    assert parts[..i + 1][..i] == parts[..i];
  }

  /** Once a step has led nowhere, so does the whole path. */
  lemma FollowNull(root: Tree, parts: seq<string>, n: nat)
    requires n <= |parts| && Follow(root, parts[..n]).Null?
    ensures Follow(root, parts).Null?
    decreases |parts|
  {
    if n == |parts| {
      assert parts[..n] == parts;
    } else {
      assert parts[..|parts| - 1][..n] == parts[..n];
      FollowNull(root, parts[..|parts| - 1], n);
    }
  }

  // ---------- The references built for plugins ----------

  /** The plugins of a section that carry a schema, by name. */
  function ExtractPluginDefs(section: Tree): map<string, Tree> {
    if !section.Map? then map[]
    else map name | name in section.m && section.m[name].Map? && "schema" in section.m[name].m :: section.m[name].m["schema"]
  }

  const TYPE_OBJECT: Tree := Leaf(Str("object"))

  function ObjectSchema(properties: map<string, Tree>): Tree {
    Map(map["type" := TYPE_OBJECT, "properties" := Map(properties), "additionalProperties" := Leaf(Bool(false))])
  }

  function RefTo(refPrefix: string, name: string): string {
    refPrefix + "/" + EscapeJSONPointer(name)
  }

  /** One reference for each plugin. */
  function PluginsSchema(defs: map<string, Tree>, refPrefix: string): Tree {
    ObjectSchema(map name | name in defs :: Map(map["$ref" := Leaf(Str(RefTo(refPrefix, name)))]))
  }

  method BuildPluginsSchema(defs: map<string, Tree>, refPrefix: string) returns (schema: Tree)
    ensures schema == PluginsSchema(defs, refPrefix)
  {
    var properties: map<string, Tree> := map[];
    var names := defs.Keys;
    while names != {}
      invariant names <= defs.Keys && properties.Keys == defs.Keys - names
      invariant forall name | name in properties :: properties[name] == Map(map["$ref" := Leaf(Str(RefTo(refPrefix, name)))])
      decreases names
    {
      var name :| name in names;
      names := names - {name};
      properties := properties[name := Map(map["$ref" := Leaf(Str(refPrefix + "/" + EscapeJSONPointer(name)))])];
    }
    assert properties == map name | name in defs :: Map(map["$ref" := Leaf(Str(RefTo(refPrefix, name)))]);
    return ObjectSchema(properties);
  }

  function DefsSchema(defs: map<string, Tree>): Tree {
    if defs == map[] then Map(map["type" := TYPE_OBJECT]) else ObjectSchema(defs)
  }

  /** Replaces one property of a section by the references, when both exist. */
  function WithPlugins(main: map<string, Tree>, mainKey: string, refPrefix: string, defs: map<string, Tree>): map<string, Tree> {
    if defs == map[] || mainKey !in main || !main[mainKey].Map?
       || "properties" !in main[mainKey].m || !main[mainKey].m["properties"].Map? then main
    else
      var section := main[mainKey].m;
      var props := section["properties"].m;
      main[mainKey := Map(section["properties" := Map(props["plugins" := PluginsSchema(defs, refPrefix)])])]
  }

  /** Where the definitions of a section are: "#/$defs/plugins/properties" for plugins. */
  function RefPrefix(section: string): string {
    "#/$defs/" + section + "/properties"
  }

  function WithAllPlugins(main: map<string, Tree>, plugins: map<string, Tree>, streamPlugins: map<string, Tree>): map<string, Tree> {
    var route := WithPlugins(main, "route", RefPrefix("plugins"), plugins);
    var config := WithPlugins(route, "plugin_config", RefPrefix("plugins"), plugins);
    var global := WithPlugins(config, "global_rule", RefPrefix("plugins"), plugins);
    WithPlugins(global, "stream_route", RefPrefix("stream_plugins"), streamPlugins)
  }

  lemma RefTail(section: string, esc: string)
    ensures var ref := "#/$defs/" + section + "/properties" + "/" + esc;
            |ref| >= 2 && ref[..2] == "#/"
            && ref[2..] == "$defs" + ['/'] + (section + ['/'] + ("properties" + ['/'] + esc))
  {}

  /** Four tokens after the prefix: the section of the definitions and the escaped name. */
  lemma SplitRef(section: string, name: string)
    requires '/' !in section
    ensures var ref := RefTo(RefPrefix(section), name);
            |ref| >= 2 && ref[..2] == "#/"
            && Split(ref[2..], '/') == ["$defs", section, "properties", EscapeJSONPointer(name)]
  {
    var esc := EscapeJSONPointer(name);
    RefTail(section, esc);
    EscapedHasNoSlash(name);
    SplitOfPart(esc, '/');
    SplitOfPrefixed("properties", '/', esc);
    SplitOfPrefixed(section, '/', "properties" + ['/'] + esc);
    SplitOfPrefixed("$defs", '/', section + ['/'] + ("properties" + ['/'] + esc));
  }

  lemma UnescapePlain(part: string)
    requires '~' !in part
    ensures UnescapeToken(part) == part
  {
    ReplaceNothing(part, "~1", "/");
    ReplaceNothing(part, "~0", "~");
  }

  lemma ReplaceNothing(s: string, old': string, new': string)
    requires old' != "" && old'[0] !in s
    ensures ReplaceAll(s, old', new') == s
    decreases |s|
  {
    if |s| >= |old'| {
      assert s[..|old'|][0] == s[0] && s[0] in s;
      ReplaceNothing(s[1..], old', new');
    }
  }

  lemma FollowFour(root: Tree, a: string, b: string, c: string, d: string)
    ensures Follow(root, [a, b, c, d])
         == Descend(Descend(Descend(Descend(root, UnescapeToken(a)), UnescapeToken(b)), UnescapeToken(c)), UnescapeToken(d))
  {
    assert [a, b, c, d][..3] == [a, b, c] && [a, b, c][..2] == [a, b] && [a, b][..1] == [a] && [a][..0] == [];
    assert Follow(root, [a]) == Descend(root, UnescapeToken(a));
    assert Follow(root, [a, b]) == Descend(Follow(root, [a]), UnescapeToken(b));
    assert Follow(root, [a, b, c]) == Descend(Follow(root, [a, b]), UnescapeToken(c));
  }

  lemma DescendToDefinition(root: map<string, Tree>, section: string, defs: map<string, Tree>, name: string)
    requires name in defs
    requires "$defs" in root && root["$defs"].Map? && section in root["$defs"].m
    requires root["$defs"].m[section] == DefsSchema(defs)
    ensures Descend(Descend(Descend(Descend(Map(root), "$defs"), section), "properties"), name) == defs[name]
  {
    assert Descend(Map(root), "$defs") == root["$defs"];
    assert Descend(root["$defs"], section) == DefsSchema(defs);
  }

  /** A reference to a definition resolves to it in any document with that section of definitions. */
  lemma RefResolves(root: map<string, Tree>, section: string, defs: map<string, Tree>, name: string)
    requires '/' !in section && '~' !in section && name in defs
    requires "$defs" in root && root["$defs"].Map? && section in root["$defs"].m
    requires root["$defs"].m[section] == DefsSchema(defs)
    ensures Resolved(Map(root), RefTo(RefPrefix(section), name)) == defs[name]
  {
    hide EscapeJSONPointer, UnescapeToken, Follow, Descend, DefsSchema;
    SplitRef(section, name);
    FollowFour(Map(root), "$defs", section, "properties", EscapeJSONPointer(name));
    UnescapePlain("$defs");
    UnescapePlain(section);
    UnescapePlain("properties");
    UnescapeInvertsEscape(name);
    DescendToDefinition(root, section, defs, name);
  }

  /** The reference that the updated main section holds for a plugin, if the section takes plugins. */
  function PluginRef(main: map<string, Tree>, mainKey: string, name: string): Option<string> {
    match Follow(Map(main), [mainKey, "properties", "plugins", "properties"])
    case Map(refs) =>
      if name in refs && refs[name].Map? && "$ref" in refs[name].m && refs[name].m["$ref"].Leaf? && refs[name].m["$ref"].v.Str?
      then Some(refs[name].m["$ref"].v.s) else None
    case _ => None
  }

  predicate TakesPlugins(main: map<string, Tree>, mainKey: string) {
    mainKey in main && main[mainKey].Map? && "properties" in main[mainKey].m && main[mainKey].m["properties"].Map?
  }

  /** The properties that hold the references of a section, once they were put in. */
  lemma RefsOfSection(main: map<string, Tree>, mainKey: string, refPrefix: string, defs: map<string, Tree>)
    requires TakesPlugins(main, mainKey) && defs != map[] && '~' !in mainKey
    ensures Follow(Map(WithPlugins(main, mainKey, refPrefix, defs)), [mainKey, "properties", "plugins", "properties"])
         == Map(map name | name in defs :: Map(map["$ref" := Leaf(Str(RefTo(refPrefix, name)))]))
  {
    FollowFour(Map(WithPlugins(main, mainKey, refPrefix, defs)), mainKey, "properties", "plugins", "properties");
    UnescapePlain(mainKey);
    UnescapePlain("properties");
    UnescapePlain("plugins");
  }

  lemma RefIsBuilt(main: map<string, Tree>, mainKey: string, refPrefix: string, defs: map<string, Tree>, name: string)
    requires TakesPlugins(main, mainKey) && name in defs && '~' !in mainKey
    ensures PluginRef(WithPlugins(main, mainKey, refPrefix, defs), mainKey, name) == Some(RefTo(refPrefix, name))
  {
    RefsOfSection(main, mainKey, refPrefix, defs);
  }

  lemma OtherSectionsKept(main: map<string, Tree>, mainKey: string, refPrefix: string, defs: map<string, Tree>, other: string)
    requires other != mainKey && '~' !in other
    ensures var after := WithPlugins(main, mainKey, refPrefix, defs);
            && (TakesPlugins(main, other) ==> TakesPlugins(after, other))
            && (forall name :: PluginRef(after, other, name) == PluginRef(main, other, name))
  {
    var after := WithPlugins(main, mainKey, refPrefix, defs);
    FollowFour(Map(after), other, "properties", "plugins", "properties");
    FollowFour(Map(main), other, "properties", "plugins", "properties");
    UnescapePlain(other);
  }

  function PluginsOf(doc: map<string, Tree>, section: string): map<string, Tree> {
    ExtractPluginDefs(if section in doc then doc[section] else Null)
  }

  /** A plugin is defined if and only if its section describes it with a schema, which is its definition. */
  lemma PluginsOfAre(doc: map<string, Tree>, section: string, name: string, schema: Tree)
    ensures name in PluginsOf(doc, section) && PluginsOf(doc, section)[name] == schema <==>
              && section in doc && doc[section].Map? && name in doc[section].m
              && doc[section].m[name].Map? && "schema" in doc[section].m[name].m
              && doc[section].m[name].m["schema"] == schema
  {}

  lemma PluginRefKept(main: map<string, Tree>, plugins: map<string, Tree>, streamPlugins: map<string, Tree>, mainKey: string, name: string)
    requires TakesPlugins(main, mainKey) && name in plugins
    requires mainKey in {"route", "plugin_config", "global_rule"}
    ensures PluginRef(WithAllPlugins(main, plugins, streamPlugins), mainKey, name) == Some(RefTo(RefPrefix("plugins"), name))
  {
    var route := WithPlugins(main, "route", RefPrefix("plugins"), plugins);
    var config := WithPlugins(route, "plugin_config", RefPrefix("plugins"), plugins);
    var global := WithPlugins(config, "global_rule", RefPrefix("plugins"), plugins);
    OtherSectionsKept(global, "stream_route", RefPrefix("stream_plugins"), streamPlugins, mainKey);
    if mainKey == "route" {
      RefIsBuilt(main, "route", RefPrefix("plugins"), plugins, name);
      OtherSectionsKept(route, "plugin_config", RefPrefix("plugins"), plugins, mainKey);
      OtherSectionsKept(config, "global_rule", RefPrefix("plugins"), plugins, mainKey);
    } else if mainKey == "plugin_config" {
      OtherSectionsKept(main, "route", RefPrefix("plugins"), plugins, mainKey);
      RefIsBuilt(route, "plugin_config", RefPrefix("plugins"), plugins, name);
      OtherSectionsKept(config, "global_rule", RefPrefix("plugins"), plugins, mainKey);
    } else {
      OtherSectionsKept(main, "route", RefPrefix("plugins"), plugins, mainKey);
      OtherSectionsKept(route, "plugin_config", RefPrefix("plugins"), plugins, mainKey);
      RefIsBuilt(config, "global_rule", RefPrefix("plugins"), plugins, name);
    }
  }

  lemma StreamRefKept(main: map<string, Tree>, plugins: map<string, Tree>, streamPlugins: map<string, Tree>, name: string)
    requires TakesPlugins(main, "stream_route") && name in streamPlugins
    ensures PluginRef(WithAllPlugins(main, plugins, streamPlugins), "stream_route", name)
         == Some(RefTo(RefPrefix("stream_plugins"), name))
  {
    var route := WithPlugins(main, "route", RefPrefix("plugins"), plugins);
    var config := WithPlugins(route, "plugin_config", RefPrefix("plugins"), plugins);
    OtherSectionsKept(main, "route", RefPrefix("plugins"), plugins, "stream_route");
    OtherSectionsKept(route, "plugin_config", RefPrefix("plugins"), plugins, "stream_route");
    OtherSectionsKept(config, "global_rule", RefPrefix("plugins"), plugins, "stream_route");
    var global := WithPlugins(config, "global_rule", RefPrefix("plugins"), plugins);
    RefIsBuilt(global, "stream_route", RefPrefix("stream_plugins"), streamPlugins, name);
  }
}
