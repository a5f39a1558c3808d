/** The minimal service document: BuildClosure in public/closure/closure.go. */
module ClosureBuild {
  import opened Wrappers
  import opened DocTree
  import opened GoStrings
  import opened ClosureRefs
  import opened ClosureReach

  datatype BuildError = NoComponents | NoResources | ResourceNotFound

  datatype Result<+T> = Ok(value: T) | Err(error: BuildError)

  /** A parsed URL: its path, and all the rest of it. */
  datatype Url = Url(rest: string, path: string)

  /** `parse` and `text` stand for net/url. */
  datatype Config = Config(resourceName: string, rewriteUrl: string, parse: string -> Option<Url>, text: Url -> string)

  // --- the parts of a document ---------------------------------------------------

  function Section(doc: Dict, outer: string, inner: string): Option<Dict> {
    match GetMap(doc, outer)
    case None => None
    case Some(m) => GetMap(m, inner)
  }

  function GetResource(doc: Dict, name: string): Result<Dict> {
    match GetMap(doc, "components")
    case None => Err(NoComponents)
    case Some(components) =>
      match GetMap(components, "x-stackQL-resources")
      case None => Err(NoResources)
      case Some(resources) =>
        match GetMap(resources, name)
        case None => Err(ResourceNotFound)
        case Some(resource) => Ok(resource)
  }

  function Methods(resource: Dict): Dict {
    match GetMap(resource, "methods") case None => map[] case Some(m) => m
  }

  function OperationRefOf(methodDef: Yaml): Option<OperationRef> {
    if !methodDef.Map? then None
    else match GetMap(methodDef.entries, "operation")
      case None => None
      case Some(op) => match GetStr(op, "$ref")
        case None => None
        case Some(ref) => ParseOperationRef(ref)
  }

  function OverrideKey(methodDef: Yaml, side: string): Option<string> {
    if !methodDef.Map? then None
    else match Section(methodDef.entries, side, "schema_override")
      case None => None
      case Some(so) => match GetStr(so, "$ref")
        case None => None
        case Some(ref) => ParseComponentRef(ref, "schemas")
  }

  /** Some method of the resource overrides its request or response schema with `key`. */
  ghost predicate Overrides(resource: Dict, key: string) {
    exists m :: m in Methods(resource) && OverridesWith(Methods(resource)[m], key)
  }

  predicate OverridesWith(methodDef: Yaml, key: string) {
    OverrideKey(methodDef, "response") == Some(key) || OverrideKey(methodDef, "request") == Some(key)
  }

  /** Some method of the resource names operation `verb` of `path`. */
  ghost predicate Names(resource: Dict, path: string, verb: string) {
    exists m :: m in Methods(resource) && OperationRefOf(Methods(resource)[m]) == Some(OperationRef(path, verb))
  }

  function PathItem(doc: Dict, path: string): Option<Dict> {
    Section(doc, "paths", path)
  }

  function Operation(doc: Dict, path: string, verb: string): Option<Dict> {
    match PathItem(doc, path)
    case None => None
    case Some(item) => GetMap(item, verb)
  }

  // --- phase 1: path keys ----------------------------------------------------------

  /** One verb per named path; which one, when methods disagree, depends on map order. */
  ghost predicate VerbChoice(resource: Dict, verbs: map<string, string>) {
    && (forall p :: p in verbs ==> Names(resource, p, verbs[p]))
    && (forall p, v :: Names(resource, p, v) ==> p in verbs)
  }

  /** Methods that share a path also share its verb. */
  ghost predicate VerbsAgree(resource: Dict) {
    forall p, v, w :: Names(resource, p, v) && Names(resource, p, w) ==> v == w
  }

  method CollectPathKeys(resource: Dict) returns (pathKeys: set<string>, verbs: map<string, string>)
    ensures pathKeys == verbs.Keys && VerbChoice(resource, verbs)
  {
    hide OperationRefOf;
    pathKeys, verbs := {}, map[];
    var methods := Methods(resource);
    var pending := methods.Keys;
    while pending != {}
      invariant pending <= methods.Keys && pathKeys == verbs.Keys
      invariant forall p :: p in verbs ==> Names(resource, p, verbs[p])
      invariant forall m :: m in methods.Keys - pending && OperationRefOf(methods[m]).Some? ==>
        OperationRefOf(methods[m]).value.path in verbs
    {
      var m :| m in pending;
      pending := pending - {m};
      var op := OperationRefOf(methods[m]);
      if op.Some? {
        pathKeys := pathKeys + {op.value.path};
        verbs := verbs[op.value.path := op.value.verb];
        assert Names(resource, op.value.path, op.value.verb);
      }
    }
  }

  // --- phase 2: schema overrides -----------------------------------------------------

  method CollectOverrideKeys(resource: Dict) returns (keys: set<string>)
    ensures forall k :: k in keys <==> Overrides(resource, k)
  {
    keys := {};
    var methods := Methods(resource);
    var pending := methods.Keys;
    while pending != {}
      invariant pending <= methods.Keys
      invariant forall k :: k in keys <==> exists m :: m in methods.Keys - pending && OverridesWith(methods[m], k)
    {
      var m :| m in pending;
      pending := pending - {m};
      var response, request := OverrideKey(methods[m], "response"), OverrideKey(methods[m], "request");
      keys := keys + (if response.Some? then {response.value} else {}) +
          (if request.Some? then {request.value} else {});
    }
  }

  // --- phase 3: references of the named operations -------------------------------------

  ghost predicate OperationHas(doc: Dict, path: string, verb: string, key: string) {
    Operation(doc, path, verb).Some? && key in SchemaKeys(Map(Operation(doc, path, verb).value))
  }

  ghost predicate OperationMentions(doc: Dict, verbs: map<string, string>, key: string) {
    exists p :: p in verbs && OperationHas(doc, p, verbs[p], key)
  }

  ghost predicate ItemMentions(doc: Dict, path: string, key: string) {
    PathItem(doc, path).Some? && key in ComponentKeys(Map(PathItem(doc, path).value), "parameters")
  }

  ghost predicate ItemSearchedFor(doc: Dict, path: string, verb: string, key: string) {
    Operation(doc, path, verb).Some? && ItemMentions(doc, path, key)
  }

  /** A path item is searched for parameters only when its named operation exists. */
  ghost predicate ParameterCollected(doc: Dict, verbs: map<string, string>, key: string) {
    exists p :: p in verbs && ItemSearchedFor(doc, p, verbs[p], key)
  }

  /** What an operation mentions, its path item mentions. */
  lemma {:induction false} OperationRefsInItem(doc: Dict, path: string, verb: string)
    requires Operation(doc, path, verb).Some?
    ensures ComponentKeys(Map(Operation(doc, path, verb).value), "parameters")
         <= ComponentKeys(Map(PathItem(doc, path).value), "parameters")
  {
    var item := PathItem(doc, path).value;
    assert verb in item && item[verb] == Map(Operation(doc, path, verb).value);
    assert Refs(item[verb]) <= Refs(Map(item));
  }

  method CollectOperationKeys(doc: Dict, verbs: map<string, string>, overrideKeys: set<string>)
    returns (schemaKeys: set<string>, paramKeys: set<string>)
    ensures forall k :: k in schemaKeys <==> k in overrideKeys || OperationMentions(doc, verbs, k)
    ensures forall k :: k in paramKeys <==> ParameterCollected(doc, verbs, k)
  {
    schemaKeys, paramKeys := overrideKeys, {};
    var pending := verbs.Keys;
    while pending != {}
      invariant pending <= verbs.Keys
      invariant forall k :: k in schemaKeys <==>
          k in overrideKeys || exists p :: p in verbs.Keys - pending && OperationHas(doc, p, verbs[p], k)
      invariant forall k :: k in paramKeys <==>
          exists p :: p in verbs.Keys - pending && ItemSearchedFor(doc, p, verbs[p], k)
    {
      var path :| path in pending;
      pending := pending - {path};
      var item := PathItem(doc, path);
      if item.Some? {
        var operation := GetMap(item.value, verbs[path]);
        if operation.Some? {
          var nested := CollectComponentKeys(Map(operation.value), "schemas");
          schemaKeys := schemaKeys + nested;
          var ofItem := CollectComponentKeys(Map(item.value), "parameters");
          var ofOperation := CollectComponentKeys(Map(operation.value), "parameters");
          OperationRefsInItem(doc, path, verbs[path]);
          paramKeys := paramKeys + ofItem + ofOperation;
        }
      }
    }
  }

  // --- phase 5: the output document -------------------------------------------------------

  function Restrict(m: Dict, keys: set<string>): Dict {
    map k | k in m && k in keys :: m[k]
  }

  method Filter(m: Dict, keys: set<string>) returns (filtered: Dict)
    ensures filtered == Restrict(m, keys)
  {
    filtered := map[];
    var pending := keys;
    while pending != {}
      invariant pending <= keys && filtered == Restrict(m, keys - pending)
    {
      var key :| key in pending;
      pending := pending - {key};
      if key in m {
        filtered := filtered[key := m[key]];
      }
    }
  }

  /** The target URL, with the path of the server's own URL if the target has none. */
  function Rehosted(cfg: Config, target: Url, url: string): string {
    match cfg.parse(url)
    case None => cfg.rewriteUrl
    case Some(orig) => cfg.text(if target.path in {"", "/"} then target.(path := orig.path) else target)
  }

  function RewriteServer(server: Yaml, cfg: Config, target: Url): Yaml {
    if server.Map? && GetStr(server.entries, "url").Some? then
      Map(server.entries["url" := Str(Rehosted(cfg, target, server.entries["url"].s))])
    else server
  }

  function RewriteServers(servers: Yaml, cfg: Config): Yaml {
    if !servers.Lst? || cfg.rewriteUrl == "" then servers
    else match cfg.parse(cfg.rewriteUrl)
      case None => servers
      case Some(target) =>
        Lst(seq(|servers.items|, i requires 0 <= i < |servers.items| => RewriteServer(servers.items[i], cfg, target)))
  }

  const VERBATIM: set<string> := {"openapi", "info", "security", "externalDocs", "x-hasEquivalentPaths"}

  function Extensions(src: Dict, except: set<string>): Dict {
    map k | k in src && HasPrefix(k, "x-") && k !in except :: src[k]
  }

  function With(m: Dict, key: string, value: Option<Yaml>): Dict {
    match value case None => m case Some(v) => m[key := v]
  }

  /** The top-level fields copied as they are. */
  function Verbatim(doc: Dict): Dict {
    Restrict(doc, VERBATIM) + Extensions(doc, {})
  }

  /** A filtered section is emitted only when something is left in it. */
  function KeptSection(components: Dict, name: string, keys: set<string>): Option<Yaml> {
    match GetMap(components, name)
    case None => None
    case Some(m) => if Restrict(m, keys) == map[] then None else Some(Map(Restrict(m, keys)))
  }

  function ClosureComponents(components: Dict, cfg: Config, resource: Dict, schemaKeys: set<string>,
          paramKeys: set<string>): Dict {
    var own := map["x-stackQL-resources" := Map(map[cfg.resourceName := Map(resource)])];
    var schemas := With(own, "schemas", KeptSection(components, "schemas", schemaKeys));
    var parameters := With(schemas, "parameters", KeptSection(components, "parameters", paramKeys));
    var security := With(parameters, "securitySchemes", if "securitySchemes" in components
        then Some(components["securitySchemes"]) else None);
    security + Extensions(components, {"x-stackQL-resources"})
  }

  function ClosureDoc(doc: Dict, cfg: Config, resource: Dict, pathKeys: set<string>, schemaKeys: set<string>,
          paramKeys: set<string>): Dict {
    var servers := With(Verbatim(doc), "servers", if "servers" in doc then Some(RewriteServers(doc["servers"], cfg))
        else None);
    var paths := With(servers, "paths", match GetMap(doc, "paths") case None => None
        case Some(m) => Some(Map(Restrict(m, pathKeys))));
    With(paths, "components", match GetMap(doc, "components") case None => None
      case Some(m) => Some(Map(ClosureComponents(m, cfg, resource, schemaKeys, paramKeys))))
  }

  method CopyExtensions(src: Dict, except: set<string>, out: Dict) returns (extended: Dict)
    ensures extended == out + Extensions(src, except)
  {
    extended := out;
    ghost var done: Dict := map[];
    var pending := src.Keys;
    while pending != {}
      invariant pending <= src.Keys
      invariant done == map k | k in src && k !in pending && HasPrefix(k, "x-") && k !in except :: src[k]
      invariant extended == out + done
    {
      var k :| k in pending;
      pending := pending - {k};
      if HasPrefix(k, "x-") && k !in except {
        extended, done := extended[k := src[k]], done[k := src[k]];
      }
    }
    assert done == Extensions(src, except);
  }

  method AddSection(components: Dict, name: string, keys: set<string>, out: Dict) returns (extended: Dict)
    ensures extended == With(out, name, KeptSection(components, name, keys))
  {
    extended := out;
    var m := GetMap(components, name);
    if m.Some? {
      var filtered := Filter(m.value, keys);
      if |filtered| > 0 {
        extended := out[name := Map(filtered)];
      }
    }
  }

  method BuildClosureComponents(components: Dict, cfg: Config, resource: Dict, schemaKeys: set<string>,
          paramKeys: set<string>)
    returns (out: Dict)
    ensures out == ClosureComponents(components, cfg, resource, schemaKeys, paramKeys)
  {
    out := map["x-stackQL-resources" := Map(map[cfg.resourceName := Map(resource)])];
    out := AddSection(components, "schemas", schemaKeys, out);
    out := AddSection(components, "parameters", paramKeys, out);
    if "securitySchemes" in components {
      out := out["securitySchemes" := components["securitySchemes"]];
    }
    out := CopyExtensions(components, {"x-stackQL-resources"}, out);
  }

  method BuildClosureDoc(doc: Dict, cfg: Config, resource: Dict, pathKeys: set<string>, schemaKeys: set<string>,
          paramKeys: set<string>)
    returns (out: Dict)
    ensures out == ClosureDoc(doc, cfg, resource, pathKeys, schemaKeys, paramKeys)
  {
    out := Filter(doc, VERBATIM);
    out := CopyExtensions(doc, {}, out);
    if "servers" in doc {
      out := out["servers" := RewriteServers(doc["servers"], cfg)];
    }
    var paths := GetMap(doc, "paths");
    if paths.Some? {
      var filtered := Filter(paths.value, pathKeys);
      out := out["paths" := Map(filtered)];
    }
    var components := GetMap(doc, "components");
    if components.Some? {
      var built := BuildClosureComponents(components.value, cfg, resource, schemaKeys, paramKeys);
      out := out["components" := Map(built)];
    }
  }

  // --- the builder --------------------------------------------------------------------

  /** The schema keys the transitive phase starts from. */
  ghost predicate Seed(doc: Dict, resource: Dict, verbs: map<string, string>, key: string) {
    Overrides(resource, key) || OperationMentions(doc, verbs, key)
  }

  /**
   The choices a run of the builder leaves behind: the resource found, one verb per path, the
   schema keys the transitive phase starts from and the parameter keys.
   */
  datatype Run = Run(resource: Dict, verbs: map<string, string>, seed: set<string>, paramKeys: set<string>)

  ghost predicate RunOn(doc: Dict, cfg: Config, run: Run) {
    && GetResource(doc, cfg.resourceName) == Ok(run.resource)
    && VerbChoice(run.resource, run.verbs)
    && (forall k :: k in run.seed <==> Seed(doc, run.resource, run.verbs, k))
    && (forall k :: k in run.paramKeys <==> ParameterCollected(doc, run.verbs, k))
  }

  ghost function FinalSchemaKeys(doc: Dict, seed: set<string>): set<string> {
    match Section(doc, "components", "schemas") case None => seed case Some(m) => ReachSet(m, seed)
  }

  ghost function Output(doc: Dict, cfg: Config, run: Run): Dict {
    ClosureDoc(doc, cfg, run.resource, run.verbs.Keys, FinalSchemaKeys(doc, run.seed), run.paramKeys)
  }

  method BuildClosure(doc: Dict, cfg: Config) returns (r: Result<Dict>, ghost run: Run)
    ensures cfg.resourceName == "" ==>
      r == Ok(With(doc, "servers", if "servers" in doc then Some(RewriteServers(doc["servers"], cfg)) else None))
    ensures cfg.resourceName != "" && GetResource(doc, cfg.resourceName).Err? ==>
      r == Err(GetResource(doc, cfg.resourceName).error)
    ensures cfg.resourceName != "" && GetResource(doc, cfg.resourceName).Ok? ==>
      RunOn(doc, cfg, run) && r == Ok(Output(doc, cfg, run))
  {
    run := Run(map[], map[], {}, {});
    if cfg.resourceName == "" {
      if cfg.rewriteUrl != "" && "servers" in doc && doc["servers"].Lst? {
        return Ok(doc["servers" := RewriteServers(doc["servers"], cfg)]), run;
      }
      assert "servers" in doc ==> doc["servers" := doc["servers"]] == doc;
      return Ok(doc), run;
    }
    var found := GetResource(doc, cfg.resourceName);
    if found.Err? {
      return Err(found.error), run;
    }
    hide GetResource, GetMap, Overrides, OperationMentions, ParameterCollected, VerbChoice, ClosureDoc, ReachSet, With,
        RewriteServers;
    var resource := found.value;
    var pathKeys, verbs := CollectPathKeys(resource);
    var overrideKeys := CollectOverrideKeys(resource);
    var seed, params := CollectOperationKeys(doc, verbs, overrideKeys);
    run := Run(resource, verbs, seed, params);
    var keys := new KeySet(seed);
    var schemas := Section(doc, "components", "schemas");
    if schemas.Some? {
      ResolveTransitiveSchemas(schemas.value, keys);
    }
    var out := BuildClosureDoc(doc, cfg, resource, pathKeys, keys.keys, params);
    return Ok(out), run;
  }
}
