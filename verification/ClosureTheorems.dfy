/** What a built closure keeps, and that building it again changes nothing. */
module ClosureTheorems {
  import opened Wrappers
  import opened DocTree
  import opened GoStrings
  import opened ClosureReach
  import opened ClosureBuild

  /** Key `key` of section `section` under "components". */
  function Component(doc: Dict, section: string, key: string): Option<Yaml> {
    match Section(doc, "components", section)
    case None => None
    case Some(m) => if key in m then Some(m[key]) else None
  }

  lemma {:induction false} PlainNames()
    ensures forall n :: n in {"components", "paths", "servers", "schemas", "parameters", "securitySchemes"} ==>
        !HasPrefix(n, "x-")
  {
    assert "components"[0] != "x-"[0] && "paths"[0] != "x-"[0] && "servers"[0] != "x-"[0];
    assert "schemas"[0] != "x-"[0] && "parameters"[0] != "x-"[0] && "securitySchemes"[0] != "x-"[0];
  }

  function CutSection(m: Dict, name: string, keys: set<string>): Option<Dict> {
    match GetMap(m, name)
    case None => None
    case Some(s) => if Restrict(s, keys) == map[] then None else Some(Restrict(s, keys))
  }

  /** The entries of the output's components, name by name. */
  lemma {:induction false} ComponentEntries(c: Dict, cfg: Config, resource: Dict, schemaKeys: set<string>,
          paramKeys: set<string>)
    ensures var out := ClosureComponents(c, cfg, resource, schemaKeys, paramKeys);
      && "x-stackQL-resources" in out && out["x-stackQL-resources"] == Map(map[cfg.resourceName := Map(resource)])
      && ("schemas" in out <==> KeptSection(c, "schemas", schemaKeys).Some?)
      && ("parameters" in out <==> KeptSection(c, "parameters", paramKeys).Some?)
      && GetMap(out, "schemas") == CutSection(c, "schemas", schemaKeys)
      && GetMap(out, "parameters") == CutSection(c, "parameters", paramKeys)
      && ("securitySchemes" in out <==> "securitySchemes" in c)
      && ("securitySchemes" in c ==> out["securitySchemes"] == c["securitySchemes"])
      && (forall k :: HasPrefix(k, "x-") && k != "x-stackQL-resources" ==>
          (k in out <==> k in c) && (k in c ==> out[k] == c[k]))
      && (forall k :: k in out ==> HasPrefix(k, "x-") || k in {"schemas", "parameters", "securitySchemes"})
  {
    PlainNames();
    assert HasPrefix("x-stackQL-resources", "x-");
    ComponentChain("x-stackQL-resources", Map(map[cfg.resourceName := Map(resource)]),
      KeptSection(c, "schemas", schemaKeys), KeptSection(c, "parameters", paramKeys),
      if "securitySchemes" in c then Some(c["securitySchemes"]) else None, Extensions(c, {"x-stackQL-resources"}));
  }

  lemma {:induction false} ComponentChain(own: string, resources: Yaml, schemas: Option<Yaml>,
          parameters: Option<Yaml>, security: Option<Yaml>, extensions: Dict)
    requires HasPrefix(own, "x-") && own !in extensions && forall k :: k in extensions ==> HasPrefix(k, "x-")
    ensures var out := With(With(With(map[own := resources], "schemas", schemas), "parameters", parameters),
        "securitySchemes", security) + extensions;
      && own in out && out[own] == resources
      && (if "schemas" in out then schemas == Some(out["schemas"]) else schemas == None)
      && (if "parameters" in out then parameters == Some(out["parameters"]) else parameters == None)
      && (if "securitySchemes" in out then security == Some(out["securitySchemes"]) else security == None)
      && (forall k :: k in out ==> k == own || k in {"schemas", "parameters", "securitySchemes"} || k in extensions)
      && (forall k :: k in extensions ==> out[k] == extensions[k])
  {
    PlainNames();
    assert "schemas"[1] != "parameters"[1] && "securitySchemes"[1] != "schemas"[1] &&
        "securitySchemes"[1] != "parameters"[1];
  }

  lemma {:induction false} VerbatimEntries(doc: Dict)
    ensures var base := Verbatim(doc);
      && "servers" !in base && "paths" !in base && "components" !in base
      && (forall k :: k in base <==> k in doc && (k in VERBATIM || HasPrefix(k, "x-")))
      && (forall k :: k in base ==> base[k] == doc[k])
  {
    PlainNames();
    assert "servers"[0] == 's' && "paths"[0] == 'p' && "components"[0] == 'c';
    assert forall k :: k in VERBATIM ==> k[0] in {'o', 'i', 'e', 'x'} || k == "security";
    assert "servers"[2] != "security"[2];
  }

  lemma {:induction false} ChainEntries(base: Dict, servers: Option<Yaml>, paths: Option<Yaml>,
          components: Option<Yaml>)
    requires "servers" !in base && "paths" !in base && "components" !in base
    ensures var out := With(With(With(base, "servers", servers), "paths", paths), "components", components);
      && (if "components" in out then components == Some(out["components"]) else components == None)
      && (if "paths" in out then paths == Some(out["paths"]) else paths == None)
      && (if "servers" in out then servers == Some(out["servers"]) else servers == None)
      && (forall k :: k !in {"servers", "paths", "components"} ==>
          (k in out <==> k in base) && (k in base ==> out[k] == base[k]))
  {
  }

  /** The entries of the output document, name by name. */
  lemma {:induction false} DocEntries(doc: Dict, cfg: Config, resource: Dict, pathKeys: set<string>,
          schemaKeys: set<string>, paramKeys: set<string>)
    requires GetMap(doc, "components").Some?
    ensures var out := ClosureDoc(doc, cfg, resource, pathKeys, schemaKeys, paramKeys);
      && GetMap(out, "components") ==
          Some(ClosureComponents(GetMap(doc, "components").value, cfg, resource, schemaKeys, paramKeys))
      && ("paths" in out <==> GetMap(doc, "paths").Some?)
      && GetMap(out, "paths") ==
          (match GetMap(doc, "paths") case None => None case Some(m) => Some(Restrict(m, pathKeys)))
      && ("servers" in out <==> "servers" in doc)
      && ("servers" in doc ==> out["servers"] == RewriteServers(doc["servers"], cfg))
      && (forall k :: k !in {"servers", "paths", "components"} ==>
            (k in out <==> k in Verbatim(doc)) && (k in Verbatim(doc) ==> out[k] == Verbatim(doc)[k]))
  {
    VerbatimEntries(doc);
    ChainEntries(Verbatim(doc),
      if "servers" in doc then Some(RewriteServers(doc["servers"], cfg)) else None,
      match GetMap(doc, "paths") case None => None case Some(m) => Some(Map(Restrict(m, pathKeys))),
      Some(Map(ClosureComponents(GetMap(doc, "components").value, cfg, resource, schemaKeys, paramKeys))));
  }

  /** How the output's sections come from the source's. */
  lemma {:induction false} OutputSections(doc: Dict, cfg: Config, run: Run)
    requires RunOn(doc, cfg, run)
    ensures var out := Output(doc, cfg, run);
      && GetMap(doc, "components").Some?
      && GetMap(out, "components") == Some(ClosureComponents(GetMap(doc, "components").value, cfg, run.resource,
                                             FinalSchemaKeys(doc, run.seed), run.paramKeys))
      && GetMap(out, "paths") ==
          (match GetMap(doc, "paths") case None => None case Some(m) => Some(Restrict(m, run.verbs.Keys)))
      && Section(out, "components", "x-stackQL-resources") == Some(map[cfg.resourceName := Map(run.resource)])
      && Section(out, "components", "schemas") ==
          CutSection(GetMap(doc, "components").value, "schemas", FinalSchemaKeys(doc, run.seed))
      && Section(out, "components", "parameters") ==
          CutSection(GetMap(doc, "components").value, "parameters", run.paramKeys)
  {
    var keys := FinalSchemaKeys(doc, run.seed);
    DocEntries(doc, cfg, run.resource, run.verbs.Keys, keys, run.paramKeys);
    ComponentEntries(GetMap(doc, "components").value, cfg, run.resource, keys, run.paramKeys);
  }

  ghost predicate NeededSchema(doc: Dict, run: Run, schemas: Dict, key: string) {
    exists s :: Seed(doc, run.resource, run.verbs, s) && Reachable(schemas, {s}, key)
  }

  /** A schema is kept, unchanged, exactly when it is reachable from one of the seeds. */
  lemma {:induction false} KeepsExactlyReachableSchemas(doc: Dict, cfg: Config, run: Run, key: string)
    requires RunOn(doc, cfg, run)
    ensures Component(Output(doc, cfg, run), "schemas", key) ==
      match Section(doc, "components", "schemas")
      case None => None
      case Some(m) => if key in m && NeededSchema(doc, run, m, key) then Some(m[key]) else None
  {
    OutputSections(doc, cfg, run);
    var schemas := Section(doc, "components", "schemas");
    if schemas.Some? {
      InReachSet(doc, cfg, run, schemas.value, key);
      CutComponent(GetMap(doc, "components").value, "schemas", ReachSet(schemas.value, run.seed), key);
    }
  }

  lemma {:induction false} CutComponent(c: Dict, name: string, keys: set<string>, key: string)
    requires GetMap(c, name).Some?
    ensures var m := GetMap(c, name).value; var cut := CutSection(c, name, keys);
      (match cut case None => None case Some(s) => if key in s then Some(s[key]) else None)
        == (if key in m && key in keys then Some(m[key]) else None)
  {
    var m := GetMap(c, name).value;
    assert key in m && key in keys ==> key in Restrict(m, keys);
  }

  lemma {:induction false} InReachSet(doc: Dict, cfg: Config, run: Run, schemas: Dict, key: string)
    requires RunOn(doc, cfg, run)
    ensures key in ReachSet(schemas, run.seed) <==> NeededSchema(doc, run, schemas, key)
  {
    ReachSetIsLeastClosed(schemas, run.seed);
    ReachableFromOne(schemas, run.seed, key);
  }

  lemma {:induction false} ReachableFromOne(schemas: Dict, seed: set<string>, key: string)
    ensures Reachable(schemas, seed, key) <==> exists s :: s in seed && Reachable(schemas, {s}, key)
  {
    if Reachable(schemas, seed, key) {
      var path :| Chain(schemas, seed, path) && path[|path| - 1] == key;
      assert Chain(schemas, {path[0]}, path);
    }
    if s :| s in seed && Reachable(schemas, {s}, key) {
      var path :| Chain(schemas, {s}, path) && path[|path| - 1] == key;
      assert Chain(schemas, seed, path);
    }
  }

  /** A parameter component is kept, unchanged, exactly when a searched path item mentions it. */
  lemma {:induction false} KeepsExactlyCollectedParameters(doc: Dict, cfg: Config, run: Run, key: string)
    requires RunOn(doc, cfg, run)
    ensures Component(Output(doc, cfg, run), "parameters", key) ==
      if ParameterCollected(doc, run.verbs, key) then Component(doc, "parameters", key) else None
  {
    OutputSections(doc, cfg, run);
    var parameters := Section(doc, "components", "parameters");
    if parameters.Some? && key in parameters.value && key in run.paramKeys {
      assert key in Restrict(parameters.value, run.paramKeys);
    }
  }

  /** A path is kept, unchanged, exactly when some method of the resource names it. */
  lemma {:induction false} KeepsExactlyNamedPaths(doc: Dict, cfg: Config, run: Run, path: string)
    requires RunOn(doc, cfg, run) && GetMap(doc, "paths").Some?
    ensures var kept := GetMap(Output(doc, cfg, run), "paths"); var paths := GetMap(doc, "paths").value;
      && kept.Some?
      && (path in kept.value <==> path in paths && exists verb :: Names(run.resource, path, verb))
      && (path in kept.value ==> kept.value[path] == paths[path])
  {
    OutputSections(doc, cfg, run);
    if path in run.verbs {
      assert Names(run.resource, path, run.verbs[path]);
    }
  }
}
