/** Where in a document the closure builder reads and writes, position by position. */
module ClosureReads {
  import opened Wrappers
  import opened DocTree
  import opened GoStrings
  import opened ClosureRefs
  import opened ClosureReach
  import opened ClosureBuild
  import opened ClosureTheorems

  // --- positions ----------------------------------------------------------------------------------

  lemma {:induction false} Descend1(m: Dict, a: string)
    ensures Descend(Map(m), [Key(a)]) == if a in m then Some(m[a]) else None
  {
    assert [Key(a)][1..] == [];
  }

  lemma {:induction false} DescendKey(m: Dict, a: string, rest: seq<Step>)
    ensures Descend(Map(m), [Key(a)] + rest) == if a in m then Descend(m[a], rest) else None
  {
    assert ([Key(a)] + rest)[1..] == rest;
  }

  lemma {:induction false} DescendMap(m: Dict, a: string, rest: seq<Step>)
    requires rest != [] && rest[0].Key?
    ensures Descend(Map(m), [Key(a)] + rest) ==
      match GetMap(m, a) case None => None case Some(inner) => Descend(Map(inner), rest)
  {
    DescendKey(m, a, rest);
  }

  lemma {:induction false} DescendSection(m: Dict, a: string, b: string, rest: seq<Step>)
    requires rest != [] && rest[0].Key?
    ensures Descend(Map(m), [Key(a), Key(b)] + rest) ==
      match Section(m, a, b) case None => None case Some(inner) => Descend(Map(inner), rest)
  {
    assert [Key(a), Key(b)] + rest == [Key(a)] + ([Key(b)] + rest);
    DescendMap(m, a, [Key(b)] + rest);
    if GetMap(m, a).Some? {
      DescendMap(GetMap(m, a).value, b, rest);
    }
  }

  /** A component is what stands at components / section / key. */
  lemma {:induction false} ComponentPosition(doc: Dict, section: string, key: string)
    ensures Component(doc, section, key) == Descend(Map(doc), [Key("components"), Key(section), Key(key)])
  {
    assert [Key("components"), Key(section), Key(key)] == [Key("components"), Key(section)] + [Key(key)];
    DescendSection(doc, "components", section, [Key(key)]);
    if Section(doc, "components", section).Some? {
      Descend1(Section(doc, "components", section).value, key);
    }
  }

  /** A resource is the mapping at components / x-stackQL-resources / name; what is missing first is the error. */
  lemma {:induction false} ResourcePosition(doc: Dict, name: string)
    ensures var at := Descend(Map(doc), [Key("components"), Key("x-stackQL-resources"), Key(name)]);
      && (forall resource :: GetResource(doc, name) == Ok(resource) <==> at == Some(Map(resource)))
      && (GetResource(doc, name) == Err(NoComponents) <==> GetMap(doc, "components") == None)
      && (GetResource(doc, name) == Err(NoResources) <==>
            GetMap(doc, "components").Some? && Section(doc, "components", "x-stackQL-resources") == None)
  {
    var c, x := "components", "x-stackQL-resources";
    assert [Key(c), Key(x), Key(name)] == [Key(c), Key(x)] + [Key(name)];
    DescendSection(doc, c, x, [Key(name)]);
    if Section(doc, c, x).Some? {
      Descend1(Section(doc, c, x).value, name);
    }
  }

  /** An operation is the mapping at paths / path / verb. */
  lemma {:induction false} OperationPosition(doc: Dict, path: string, verb: string, operation: Dict)
    ensures Operation(doc, path, verb) == Some(operation) <==>
      Descend(Map(doc), [Key("paths"), Key(path), Key(verb)]) == Some(Map(operation))
  {
    assert [Key("paths"), Key(path), Key(verb)] == [Key("paths"), Key(path)] + [Key(verb)];
    DescendSection(doc, "paths", path, [Key(verb)]);
    if PathItem(doc, path).Some? {
      Descend1(PathItem(doc, path).value, verb);
    }
  }

  // --- methods ------------------------------------------------------------------------------------

  lemma {:induction false} MethodPosition(resource: Dict, m: string, rest: seq<Step>)
    requires rest != [] && rest[0].Key?
    ensures Descend(Map(resource), [Key("methods"), Key(m)] + rest) ==
      if m in Methods(resource) && Methods(resource)[m].Map? then Descend(Methods(resource)[m], rest) else None
  {
    DescendSection(resource, "methods", m, rest);
  }

  /** The string at a side's schema_override / $ref. */
  lemma {:induction false} OverridePosition(methodDef: Yaml, side: string, key: string)
    requires methodDef.Map?
    ensures OverrideKey(methodDef, side) == Some(key) <==>
      Descend(methodDef, [Key(side), Key("schema_override"), Key("$ref")]) == Some(Str("#/components/schemas/" + key))
  {
    var path := [Key(side), Key("schema_override")] + [Key("$ref")];
    assert path == [Key(side), Key("schema_override"), Key("$ref")];
    DescendSection(methodDef.entries, side, "schema_override", [Key("$ref")]);
    var so := Section(methodDef.entries, side, "schema_override");
    if so.Some? {
      Descend1(so.value, "$ref");
      if GetStr(so.value, "$ref").Some? {
        SchemaRef(GetStr(so.value, "$ref").value, key);
      }
    }
  }

  lemma {:induction false} SchemaRef(ref: string, key: string)
    ensures ParseComponentRef(ref, "schemas") == Some(key) <==> ref == "#/components/schemas/" + key
  {
    var prefix := "#/components/" + "schemas" + "/";
    assert prefix == "#/components/schemas/";
    if HasPrefix(ref, prefix) {
      assert ref == prefix + ref[|prefix|..];
    }
    if ref == prefix + key {
      assert ref[|prefix|..] == key;
    }
  }

  function OverridePath(m: string, side: string): seq<Step> {
    [Key("methods"), Key(m), Key(side), Key("schema_override"), Key("$ref")]
  }

  /** Override keys are the schema names under methods / m / request or response / schema_override / $ref. */
  lemma {:induction false} OverridesExactly(resource: Dict, key: string)
    ensures Overrides(resource, key) <==> exists m, side ::
      side in {"request", "response"} &&
          Descend(Map(resource), OverridePath(m, side)) == Some(Str("#/components/schemas/" + key))
  {
    forall m, side: string
      ensures Descend(Map(resource), OverridePath(m, side)) == Some(Str("#/components/schemas/" + key)) <==>
        m in Methods(resource) && OverrideKey(Methods(resource)[m], side) == Some(key) {
      OverrideAt(resource, m, side, key);
    }
    hide Descend, Methods, OverrideKey, OverridePath;
    if Overrides(resource, key) {
      var m :| m in Methods(resource) && OverridesWith(Methods(resource)[m], key);
      var side := if OverrideKey(Methods(resource)[m], "response") == Some(key) then "response" else "request";
      assert Descend(Map(resource), OverridePath(m, side)) == Some(Str("#/components/schemas/" + key));
    }
  }

  lemma {:induction false} OverrideAt(resource: Dict, m: string, side: string, key: string)
    ensures Descend(Map(resource), OverridePath(m, side)) == Some(Str("#/components/schemas/" + key)) <==>
      m in Methods(resource) && OverrideKey(Methods(resource)[m], side) == Some(key)
  {
    var rest := [Key(side), Key("schema_override"), Key("$ref")];
    assert OverridePath(m, side) == [Key("methods"), Key(m)] + rest;
    MethodPosition(resource, m, rest);
    if m in Methods(resource) && Methods(resource)[m].Map? {
      OverridePosition(Methods(resource)[m], side, key);
    }
  }

  /** `rest` is an encoded path, a slash and a slash-free last part. */
  ghost predicate SplitsTo(rest: string, encoded: string, last: string) {
    rest == encoded + "/" + last && '/' !in last
  }

  lemma {:induction false} SplitsAt(rest: string, encoded: string, last: string)
    requires SplitsTo(rest, encoded, last)
    ensures var cut := LastIndex(rest, '/'); cut >= 0 && rest[..cut] == encoded && rest[cut + 1..] == last
  {
    LastIndexUnique(encoded, '/', last);
    assert rest == encoded + ['/'] + last;
  }

  lemma {:induction false} LastSlashSplits(rest: string)
    requires LastIndex(rest, '/') >= 0
    ensures var cut := LastIndex(rest, '/'); SplitsTo(rest, rest[..cut], rest[cut + 1..])
  {
    var cut := LastIndex(rest, '/');
    assert rest == rest[..cut] + "/" + rest[cut + 1..];
  }

  /** After an optional prefix `ref` is the escaped path, a slash and the verb in any case. */
  ghost predicate Spells(ref: string, path: string, verb: string, encoded: string, last: string) {
    && SplitsTo(TrimPrefix(ref, "#/paths/"), encoded, last)
    && UnescapeJsonPointer(encoded) == path && ToLower(last) == verb
  }

  /** A reference names a verb of a path exactly when it spells them. */
  lemma {:induction false} OperationRefExactly(ref: string, path: string, verb: string)
    ensures ParseOperationRef(ref) == Some(OperationRef(path, verb)) <==>
      exists encoded, last :: Spells(ref, path, verb, encoded, last)
  {
    hide TrimPrefix, UnescapeJsonPointer, ToLower, SplitsTo, Spells;
    var rest := TrimPrefix(ref, "#/paths/");
    if ParseOperationRef(ref) == Some(OperationRef(path, verb)) {
      RefSpells(ref);
    }
    forall encoded, last | Spells(ref, path, verb, encoded, last)
      ensures ParseOperationRef(ref) == Some(OperationRef(path, verb)) {
      SpelledRef(ref, path, verb, encoded, last);
    }
  }

  lemma {:induction false} RefSpells(ref: string)
    requires ParseOperationRef(ref).Some?
    ensures var op, rest := ParseOperationRef(ref).value, TrimPrefix(ref, "#/paths/");
      var cut := LastIndex(rest, '/');
      cut >= 0 && Spells(ref, op.path, op.verb, rest[..cut], rest[cut + 1..])
  {
    hide TrimPrefix, UnescapeJsonPointer, ToLower;
    LastSlashSplits(TrimPrefix(ref, "#/paths/"));
  }

  lemma {:induction false} SpelledRef(ref: string, path: string, verb: string, encoded: string, last: string)
    requires Spells(ref, path, verb, encoded, last)
    ensures ParseOperationRef(ref) == Some(OperationRef(path, verb))
  {
    hide TrimPrefix, UnescapeJsonPointer, ToLower;
    SplitsAt(TrimPrefix(ref, "#/paths/"), encoded, last);
  }

  function OperationPath(m: string): seq<Step> {
    [Key("methods"), Key(m), Key("operation"), Key("$ref")]
  }

  ghost predicate RefIs(resource: Dict, m: string, ref: string) {
    && m in Methods(resource) && Methods(resource)[m].Map?
    && GetMap(Methods(resource)[m].entries, "operation").Some?
    && GetStr(GetMap(Methods(resource)[m].entries, "operation").value, "$ref") == Some(ref)
  }

  lemma {:induction false} OperationAt(resource: Dict, m: string, ref: string)
    ensures Descend(Map(resource), OperationPath(m)) == Some(Str(ref)) <==> RefIs(resource, m, ref)
  {
    var rest := [Key("operation"), Key("$ref")];
    assert OperationPath(m) == [Key("methods"), Key(m)] + rest && rest == [Key("operation")] + [Key("$ref")];
    MethodPosition(resource, m, rest);
    if m in Methods(resource) && Methods(resource)[m].Map? {
      var entries := Methods(resource)[m].entries;
      DescendMap(entries, "operation", [Key("$ref")]);
      if GetMap(entries, "operation").Some? {
        Descend1(GetMap(entries, "operation").value, "$ref");
      }
    }
  }

  lemma {:induction false} NamedBy(resource: Dict, m: string, path: string, verb: string)
    ensures (m in Methods(resource) && OperationRefOf(Methods(resource)[m]) == Some(OperationRef(path, verb))) <==>
      exists ref :: RefIs(resource, m, ref) && ParseOperationRef(ref) == Some(OperationRef(path, verb))
  {
    hide ParseOperationRef, Methods;
    if m in Methods(resource) && OperationRefOf(Methods(resource)[m]) == Some(OperationRef(path, verb)) {
      var op := GetMap(Methods(resource)[m].entries, "operation").value;
      assert RefIs(resource, m, GetStr(op, "$ref").value);
    }
  }

  /** Operations are named by the references under methods / m / operation / $ref. */
  lemma {:induction false} NamesExactly(resource: Dict, path: string, verb: string)
    ensures Names(resource, path, verb) <==> exists m, ref ::
      Descend(Map(resource), OperationPath(m)) == Some(Str(ref)) &&
      ParseOperationRef(ref) == Some(OperationRef(path, verb))
  {
    hide Descend, OperationPath, ParseOperationRef, RefIs, OperationRefOf, Methods;
    if Names(resource, path, verb) {
      var m :| m in Methods(resource) && OperationRefOf(Methods(resource)[m]) == Some(OperationRef(path, verb));
      NamedBy(resource, m, path, verb);
      var ref :| RefIs(resource, m, ref) && ParseOperationRef(ref) == Some(OperationRef(path, verb));
      OperationAt(resource, m, ref);
    }
    if m, ref :| (Descend(Map(resource), OperationPath(m)) == Some(Str(ref)) &&
                   ParseOperationRef(ref) == Some(OperationRef(path, verb))) {
      OperationAt(resource, m, ref);
      NamedBy(resource, m, path, verb);
    }
  }

  // --- what is mentioned ----------------------------------------------------------------------------

  /** The schemas a node leads to are those it refers to as components. */
  lemma {:induction false} SchemaKeysExactly(y: Yaml, key: string)
    ensures key in SchemaKeys(y) <==> Mentions(y, "#/components/schemas/" + key)
  {
    ComponentKeysAreMentioned(y, "schemas", key);
    assert ComponentRef("schemas", key) == "#/components/schemas/" + key;
  }

  lemma {:induction false} ParameterKeysExactly(y: Yaml, key: string)
    ensures key in ComponentKeys(y, "parameters") <==> Mentions(y, "#/components/parameters/" + key)
  {
    ComponentKeysAreMentioned(y, "parameters", key);
    assert ComponentRef("parameters", key) == "#/components/parameters/" + key;
  }

  function ItemPath(path: string): seq<Step> {
    [Key("paths"), Key(path)]
  }

  lemma {:induction false} ItemPosition(doc: Dict, path: string, item: Dict)
    ensures PathItem(doc, path) == Some(item) <==> Descend(Map(doc), ItemPath(path)) == Some(Map(item))
  {
    assert ItemPath(path) == [Key("paths")] + [Key(path)];
    DescendMap(doc, "paths", [Key(path)]);
    if GetMap(doc, "paths").Some? {
      Descend1(GetMap(doc, "paths").value, path);
    }
  }

  /** Operation `verb` of `path` is a mapping. */
  ghost predicate HasOperation(doc: Dict, path: string, verb: string) {
    exists op :: Descend(Map(doc), [Key("paths"), Key(path), Key(verb)]) == Some(Map(op))
  }

  lemma {:induction false} HasOperationExactly(doc: Dict, path: string, verb: string)
    ensures Operation(doc, path, verb).Some? <==> HasOperation(doc, path, verb)
  {
    forall op ensures Operation(doc, path, verb) == Some(op) <==>
      Descend(Map(doc), [Key("paths"), Key(path), Key(verb)]) == Some(Map(op)) {
      OperationPosition(doc, path, verb, op);
    }
    hide Operation, Descend;
    if Operation(doc, path, verb).Some? {
      assert Operation(doc, path, verb) == Some(Operation(doc, path, verb).value);
    }
  }

  ghost predicate ItemRefersTo(doc: Dict, path: string, item: Dict, key: string) {
    Descend(Map(doc), ItemPath(path)) == Some(Map(item)) && Mentions(Map(item), "#/components/parameters/" + key)
  }

  /** Parameters are those that the path items refer to whose chosen operation exists. */
  lemma {:induction false} ParametersExactly(doc: Dict, verbs: map<string, string>, key: string)
    ensures ParameterCollected(doc, verbs, key) <==>
      exists p, item :: p in verbs && HasOperation(doc, p, verbs[p]) && ItemRefersTo(doc, p, item, key)
  {
    hide HasOperation, ItemRefersTo, Operation, ItemMentions;
    if ParameterCollected(doc, verbs, key) {
      var p :| p in verbs && ItemSearchedFor(doc, p, verbs[p], key);
      HasOperationExactly(doc, p, verbs[p]);
      var item := ItemThatRefers(doc, p, key);
    }
    forall p, item | p in verbs && HasOperation(doc, p, verbs[p]) && ItemRefersTo(doc, p, item, key)
      ensures ItemSearchedFor(doc, p, verbs[p], key) {
      HasOperationExactly(doc, p, verbs[p]);
      ItemRefers(doc, p, item, key);
    }
  }

  lemma {:induction false} ItemThatRefers(doc: Dict, path: string, key: string) returns (item: Dict)
    requires ItemMentions(doc, path, key)
    ensures ItemRefersTo(doc, path, item, key)
  {
    hide Descend, Mentions, ComponentKeys;
    item := PathItem(doc, path).value;
    ItemPosition(doc, path, item);
    ParameterKeysExactly(Map(item), key);
  }

  lemma {:induction false} ItemRefers(doc: Dict, path: string, item: Dict, key: string)
    requires ItemRefersTo(doc, path, item, key)
    ensures ItemMentions(doc, path, key)
  {
    hide Descend, Mentions, ComponentKeys;
    ItemPosition(doc, path, item);
    ParameterKeysExactly(Map(item), key);
  }

  ghost predicate OperationRefersTo(doc: Dict, path: string, verb: string, op: Dict, key: string) {
    && Descend(Map(doc), [Key("paths"), Key(path), Key(verb)]) == Some(Map(op))
    && Mentions(Map(op), "#/components/schemas/" + key)
  }

  /** Besides overrides, the schemas to start from are those that the chosen operations refer to. */
  lemma {:induction false} SeedExactly(doc: Dict, resource: Dict, verbs: map<string, string>, key: string)
    ensures Seed(doc, resource, verbs, key) <==>
      Overrides(resource, key) || exists p, op :: p in verbs && OperationRefersTo(doc, p, verbs[p], op, key)
  {
    hide OperationRefersTo, Overrides, OperationHas;
    if OperationMentions(doc, verbs, key) {
      var p :| p in verbs && OperationHas(doc, p, verbs[p], key);
      var op := OperationThatRefers(doc, p, verbs[p], key);
    }
    forall p, op | p in verbs && OperationRefersTo(doc, p, verbs[p], op, key)
        ensures OperationHas(doc, p, verbs[p], key) {
      OperationRefers(doc, p, verbs[p], op, key);
    }
  }

  lemma {:induction false} OperationThatRefers(doc: Dict, path: string, verb: string, key: string) returns (op: Dict)
    requires OperationHas(doc, path, verb, key)
    ensures OperationRefersTo(doc, path, verb, op, key)
  {
    hide Descend, Mentions, SchemaKeys;
    op := Operation(doc, path, verb).value;
    OperationPosition(doc, path, verb, op);
    SchemaKeysExactly(Map(op), key);
  }

  lemma {:induction false} OperationRefers(doc: Dict, path: string, verb: string, op: Dict, key: string)
    requires OperationRefersTo(doc, path, verb, op, key)
    ensures OperationHas(doc, path, verb, key)
  {
    hide Descend, Mentions, SchemaKeys;
    OperationPosition(doc, path, verb, op);
    SchemaKeysExactly(Map(op), key);
  }

  // --- what the output holds besides ----------------------------------------------------------------

  /** The names of the top-level fields that are copied. */
  predicate Copied(key: string) {
    key in {"openapi", "info", "security", "externalDocs", "x-hasEquivalentPaths"} || "x-" <= key
  }

  lemma {:induction false} CopiedVerbatim(doc: Dict, key: string)
    ensures key in Verbatim(doc) <==> key in doc && Copied(key)
    ensures key in Verbatim(doc) ==> Verbatim(doc)[key] == doc[key]
  {
  }

  /** Of the other top-level fields the five named ones and the extensions are copied as they are, and no more. */
  lemma {:induction false} CopiedExactly(doc: Dict, cfg: Config, run: Run, key: string)
    requires RunOn(doc, cfg, run) && key !in {"servers", "paths", "components"}
    ensures var out := Output(doc, cfg, run);
      && (key in out <==> key in doc && Copied(key))
      && (key in out ==> out[key] == doc[key])
  {
    OutputSections(doc, cfg, run);
    DocEntries(doc, cfg, run.resource, run.verbs.Keys, FinalSchemaKeys(doc, run.seed), run.paramKeys);
    CopiedVerbatim(doc, key);
    hide ClosureDoc, Verbatim, Copied, GetMap, RewriteServers, FinalSchemaKeys, ClosureComponents, RunOn;
  }

  /** The output's resources are the one asked for, whole. */
  lemma {:induction false} OnlyResource(doc: Dict, cfg: Config, run: Run)
    requires RunOn(doc, cfg, run)
    ensures Section(Output(doc, cfg, run), "components", "x-stackQL-resources") ==
      Some(map[cfg.resourceName := Map(run.resource)])
    ensures Descend(Map(doc), [Key("components"), Key("x-stackQL-resources"), Key(cfg.resourceName)]) ==
        Some(Map(run.resource))
  {
    OutputSections(doc, cfg, run);
    ResourcePosition(doc, cfg.resourceName);
    hide Output, ClosureComponents;
  }

  // --- servers ----------------------------------------------------------------------------------------

  /** net/url reads back the URLs it writes. */
  ghost predicate ReadsBack(cfg: Config) {
    forall u :: cfg.parse(cfg.text(u)) == Some(u)
  }

  /** The URL a server is given. */
  ghost predicate Retargeted(cfg: Config, target: Url, before: string, after: string) {
    match cfg.parse(before)
    case None => after == cfg.rewriteUrl
    case Some(orig) =>
      && cfg.parse(after).Some? && cfg.parse(after).value.rest == target.rest
      && cfg.parse(after).value.path == if |target.path| == 0 || target.path == "/" then orig.path else target.path
  }

  /** One field before and after: a URL that is a string is retargeted, and nothing else changes. */
  ghost predicate FieldRewritten(cfg: Config, target: Url, field: string, before: Option<Yaml>, after: Option<Yaml>) {
    if field == "url" && before.Some? && before.value.Str?
    then after.Some? && after.value.Str? && Retargeted(cfg, target, before.value.s, after.value.s)
    else after == before
  }

  /**
   Servers are left alone if they are no list, or if there is no target or one that cannot be parsed. Otherwise they
   keep all their fields but the URL: that becomes the target's, but for its path where the target has none; a
   server URL that cannot be parsed becomes the target as written.
   */
  lemma {:induction false} ServersRewritten(servers: Yaml, cfg: Config, field: string)
    requires ReadsBack(cfg)
    ensures var out := RewriteServers(servers, cfg);
      if !servers.Lst? || cfg.rewriteUrl == "" || cfg.parse(cfg.rewriteUrl) == None then out == servers
      else
        && out.Lst? && |out.items| == |servers.items|
        && forall i: nat :: i < |servers.items| ==>
            FieldRewritten(cfg, cfg.parse(cfg.rewriteUrl).value, field,
              Descend(servers, [Index(i), Key(field)]), Descend(out, [Index(i), Key(field)]))
  {
    if servers.Lst? && cfg.rewriteUrl != "" && cfg.parse(cfg.rewriteUrl).Some? {
      var out, target := RewriteServers(servers, cfg), cfg.parse(cfg.rewriteUrl).value;
      forall i: nat | i < |servers.items|
        ensures FieldRewritten(cfg, target, field,
            Descend(servers, [Index(i), Key(field)]), Descend(out, [Index(i), Key(field)])) {
        assert [Index(i), Key(field)][1..] == [Key(field)];
        assert Descend(servers, [Index(i), Key(field)]) == Descend(servers.items[i], [Key(field)]);
        assert Descend(out, [Index(i), Key(field)]) == Descend(out.items[i], [Key(field)]);
        ServerRewritten(servers.items[i], cfg, target, field);
      }
    }
  }

  lemma {:induction false} ServerRewritten(server: Yaml, cfg: Config, target: Url, field: string)
    requires ReadsBack(cfg)
    ensures FieldRewritten(cfg, target, field,
        Descend(server, [Key(field)]), Descend(RewriteServer(server, cfg, target), [Key(field)]))
  {
    if server.Map? {
      Descend1(server.entries, field);
      var after := RewriteServer(server, cfg, target);
      Descend1(after.entries, field);
    }
  }
}
