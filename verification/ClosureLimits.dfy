/** Where a built closure falls short of being self-contained, and exactly when it does not. */
module ClosureLimits {
  import opened Wrappers
  import opened DocTree
  import opened GoStrings
  import opened ClosureRefs
  import opened ClosureReach
  import opened ClosureBuild
  import opened ClosureTheorems
  import opened ClosureChoices

  /** Every schema that a kept schema mentions and the source has is kept. */
  lemma {:induction false} KeptSchemasAreClosed(doc: Dict, cfg: Config, run: Run, key: string, nested: string)
    requires RunOn(doc, cfg, run)
    requires Component(Output(doc, cfg, run), "schemas", key).Some?
    requires nested in SchemaKeys(Component(Output(doc, cfg, run), "schemas", key).value)
    requires Component(doc, "schemas", nested).Some?
    ensures Component(Output(doc, cfg, run), "schemas", nested) == Component(doc, "schemas", nested)
  {
    KeepsExactlyReachableSchemas(doc, cfg, run, key);
    KeepsExactlyReachableSchemas(doc, cfg, run, nested);
    var schemas := Section(doc, "components", "schemas").value;
    var s :| Seed(doc, run.resource, run.verbs, s) && Reachable(schemas, {s}, key);
    StepReachable(schemas, {s}, key, nested);
  }

  // --- parameters ----------------------------------------------------------------------

  /** The parameters that kept path items mention and the source has are all kept. */
  ghost predicate ParametersComplete(doc: Dict, cfg: Config, run: Run) {
    forall path, key :: path in run.verbs && ItemMentions(doc, path, key) && Component(doc, "parameters", key).Some? ==>
      Component(Output(doc, cfg, run), "parameters", key).Some?
  }

  /** A named path item whose named operation is missing mentions a parameter that no other item brings in. */
  ghost predicate OrphanParameter(doc: Dict, run: Run, path: string, key: string) {
    && path in run.verbs && ItemMentions(doc, path, key) && Component(doc, "parameters", key).Some?
    && Operation(doc, path, run.verbs[path]).None?
    && forall other :: other in run.verbs && Operation(doc, other, run.verbs[other]).Some? ==>
        !ItemMentions(doc, other, key)
  }

  lemma {:induction false} ParametersCompleteExactly(doc: Dict, cfg: Config, run: Run)
    requires RunOn(doc, cfg, run)
    ensures ParametersComplete(doc, cfg, run) <==> forall path, key :: !OrphanParameter(doc, run, path, key)
  {
    if path, key :| OrphanParameter(doc, run, path, key) {
      KeepsExactlyCollectedParameters(doc, cfg, run, key);
      assert !ParameterCollected(doc, run.verbs, key);
    }
    if forall path, key :: !OrphanParameter(doc, run, path, key) {
      forall path, key | path in run.verbs && ItemMentions(doc, path, key) && Component(doc, "parameters", key).Some?
        ensures Component(Output(doc, cfg, run), "parameters", key).Some?
      {
        KeepsExactlyCollectedParameters(doc, cfg, run, key);
        assert !OrphanParameter(doc, run, path, key);
        if Operation(doc, path, run.verbs[path]).Some? {
          assert ItemSearchedFor(doc, path, run.verbs[path], key);
        } else {
          var other :| other in run.verbs && Operation(doc, other, run.verbs[other]).Some? &&
              ItemMentions(doc, other, key);
          assert ItemSearchedFor(doc, other, run.verbs[other], key);
        }
      }
    }
  }

  /** In particular nothing is lost when every named operation exists. */
  lemma {:induction false} ExistingOperationsKeepParameters(doc: Dict, cfg: Config, run: Run)
    requires RunOn(doc, cfg, run)
    requires forall path :: path in run.verbs && PathItem(doc, path).Some? ==>
        Operation(doc, path, run.verbs[path]).Some?
    ensures ParametersComplete(doc, cfg, run)
  {
    ParametersCompleteExactly(doc, cfg, run);
  }

  // --- what a run's choices decide ----------------------------------------------------------

  lemma {:induction false} SeedDecides(doc: Dict, cfg: Config, run: Run, key: string)
    requires RunOn(doc, cfg, run)
    ensures run.seed == {} ==> Component(Output(doc, cfg, run), "schemas", key) == None
    ensures key in run.seed ==> Component(Output(doc, cfg, run), "schemas", key) == Component(doc, "schemas", key)
  {
    KeepsExactlyReachableSchemas(doc, cfg, run, key);
    if key in run.seed && Component(doc, "schemas", key).Some? {
      SeedReachable(Section(doc, "components", "schemas").value, {key}, key);
    }
  }

  // --- concrete documents ----------------------------------------------------------------

  function RefTo(ref: string): Yaml {
    Map(map["$ref" := Str(ref)])
  }

  function MethodOn(ref: string): Yaml {
    Map(map["operation" := RefTo(ref)])
  }

  /** A document with resource "r", the one path "p" and further component sections. */
  lemma {:induction false} MakeDocument(methods: Dict, item: Dict, sections: Dict) returns (doc: Dict, resource: Dict)
    ensures GetResource(doc, "r") == Ok(resource) && Methods(resource) == methods && PathItem(doc, "p") == Some(item)
    ensures Section(doc, "components", "schemas") == GetMap(sections, "schemas")
    ensures Section(doc, "components", "parameters") == GetMap(sections, "parameters")
  {
    resource := map["methods" := Map(methods)];
    var components := sections["x-stackQL-resources" := Map(map["r" := Map(resource)])];
    doc := map["paths" := Map(map["p" := Map(item)])]["components" := Map(components)];
    assert "paths"[0] != "components"[0];
    assert "schemas"[0] != "x-stackQL-resources"[0] && "parameters"[0] != "x-stackQL-resources"[0];
  }

  /** A resource with one method, naming operation `verb` of "p". */
  lemma {:induction false} MakeMethod(verb: string) returns (methods: Dict)
    requires '/' !in verb && ToLower(verb) == verb
    ensures methods.Keys == {"m"} && OperationRefOf(methods["m"]) == Some(OperationRef("p", verb))
    ensures forall k :: !OverridesWith(methods["m"], k)
  {
    ParsesTo(verb);
    methods := map["m" := MethodOn("#/paths/" + "p" + "/" + verb)];
  }

  lemma {:induction false} ParsesTo(verb: string)
    requires '/' !in verb && ToLower(verb) == verb
    ensures ParseOperationRef("#/paths/" + "p" + "/" + verb) == Some(OperationRef("p", verb))
  {
    assert EscapeJsonPointer("p") == "p";
    OperationRefRoundTrip("p", verb);
  }

  /** A node whose only reference names component `key` collects just that key. */
  lemma {:induction false} OnlyRef(y: Yaml, component: string, key: string)
    requires Refs(y) == {ComponentRef(component, key)}
    ensures ComponentKeys(y, component) == {key}
    ensures component == "schemas" ==> ComponentKeys(y, "parameters") == {}
    ensures component == "parameters" ==> ComponentKeys(y, "schemas") == {}
  {
    var ref, prefix := ComponentRef(component, key), "#/components/" + component + "/";
    assert ref[|prefix|..] == key;
    assert ParseComponentRef(ref, component) == Some(key);
    if component in {"schemas", "parameters"} {
      assert ref[13] == component[0];
      assert ("#/components/" + "schemas" + "/")[13] == 's' && ("#/components/" + "parameters" + "/")[13] == 'p';
    }
  }

  lemma {:induction false} RefsOfItem(item: Dict, ref: string)
    requires item.Keys == {"get"} && item["get"] == RefTo(ref)
    ensures Refs(RefTo(ref)) == {ref} && Refs(Map(item)) == {ref}
    ensures GetMap(item, "get").Some? && Map(GetMap(item, "get").value) == RefTo(ref)
  {
    assert OwnRef(RefTo(ref)) == {ref} && Refs(Str(ref)) == {};
    assert "get"[0] != "$ref"[0];
  }

  /** Seeds and parameters of a run over the single path "p". */
  lemma {:induction false} SinglePath(doc: Dict, resource: Dict, verb: string)
    ensures forall k :: Seed(doc, resource, map["p" := verb], k) <==>
        Overrides(resource, k) || OperationHas(doc, "p", verb, k)
    ensures forall k :: ParameterCollected(doc, map["p" := verb], k) <==> ItemSearchedFor(doc, "p", verb, k)
  {
    forall k | OperationHas(doc, "p", verb, k) ensures OperationMentions(doc, map["p" := verb], k) {
      assert "p" in map["p" := verb];
    }
  }

  /** The single method of a resource names `verb` of "p" and overrides nothing. */
  ghost predicate OneMethod(resource: Dict, verb: string) {
    && Methods(resource).Keys == {"m"} && OperationRefOf(Methods(resource)["m"]) == Some(OperationRef("p", verb))
    && forall k :: !OverridesWith(Methods(resource)["m"], k)
  }

  lemma {:induction false} OneMethodRun(doc: Dict, cfg: Config, resource: Dict, verb: string, seed: set<string>,
          params: set<string>) returns (run: Run)
    requires cfg.resourceName == "r" && GetResource(doc, "r") == Ok(resource) && OneMethod(resource, verb)
    requires forall k :: k in seed <==> OperationHas(doc, "p", verb, k)
    requires forall k :: k in params <==> ItemSearchedFor(doc, "p", verb, k)
    ensures run == Run(resource, map["p" := verb], seed, params) && RunOn(doc, cfg, run)
  {
    run := Run(resource, map["p" := verb], seed, params);
    OneMethodNames(resource, verb);
    SinglePath(doc, resource, verb);
    hide GetResource, Overrides, OneMethod, VerbChoice, Seed, ParameterCollected, OperationHas, ItemSearchedFor;
  }

  lemma {:induction false} OneMethodNames(resource: Dict, verb: string)
    requires OneMethod(resource, verb)
    ensures VerbChoice(resource, map["p" := verb]) && forall k :: !Overrides(resource, k)
  {
    hide OperationRefOf, OverridesWith, Methods;
    assert "m" in Methods(resource).Keys;
    assert Names(resource, "p", verb);
  }

  /** A concrete loss: path item "p" mentions parameter "c" but lacks the named operation. */
  lemma {:induction false} ParameterCanBeLost(cfg: Config) returns (doc: Dict, run: Run)
    requires cfg.resourceName == "r"
    ensures RunOn(doc, cfg, run) && OrphanParameter(doc, run, "p", "c")
    ensures Component(Output(doc, cfg, run), "parameters", "c").None?
  {
    var resource;
    doc, resource := MissingOperationDocument();
    run := OneMethodRun(doc, cfg, resource, "put", {}, {});
    KeepsExactlyCollectedParameters(doc, cfg, run, "c");
  }

  lemma {:induction false} MissingOperationDocument() returns (doc: Dict, resource: Dict)
    ensures GetResource(doc, "r") == Ok(resource) && OneMethod(resource, "put")
    ensures Operation(doc, "p", "put").None? && ItemMentions(doc, "p", "c")
    ensures Component(doc, "parameters", "c").Some?
  {
    hide OperationRefOf, OverridesWith, Refs, ComponentKeys, ComponentRef, GetResource, PathItem;
    var methods := MakeMethod("put");
    var item := ItemWith("parameters", "c");
    doc, resource := MakeDocument(methods, item, map["parameters" := Map(map["c" := Null])]);
  }

  /** A path item with the one operation "get", whose only reference names a component. */
  ghost predicate OnlyGet(item: Dict, component: string, key: string) {
    && GetMap(item, "get").Some? && GetMap(item, "put") == None
    && SchemaKeys(Map(GetMap(item, "get").value)) == (if component == "schemas" then {key} else {})
    && ComponentKeys(Map(item), "parameters") == (if component == "schemas" then {} else {key})
    && SchemaKeys(Map(item)) == (if component == "schemas" then {key} else {})
  }

  lemma {:induction false} ItemWith(component: string, key: string) returns (item: Dict)
    requires component in {"schemas", "parameters"}
    ensures OnlyGet(item, component, key)
  {
    var ref := ComponentRef(component, key);
    item := map["get" := RefTo(ref)];
    RefsOfItem(item, ref);
    OnlyRef(Map(item), component, key);
    OnlyRef(item["get"], component, key);
    assert "get"[0] != "put"[0] && component[0] in {'s', 'p'};
  }

  // --- schemas of parameters --------------------------------------------------------------------

  /** Parameter `p` is kept and mentions schema `key`, which the source has and the output lacks. */
  ghost predicate Dangling(doc: Dict, out: Dict, p: string, key: string) {
    && Component(out, "parameters", p).Some?
    && key in SchemaKeys(Component(out, "parameters", p).value)
    && Component(doc, "schemas", key).Some?
    && Component(out, "schemas", key).None?
  }

  /** A searched path item brings in parameter `p`, which mentions a source schema that no seed leads to. */
  ghost predicate Unseeded(doc: Dict, run: Run, p: string, key: string) {
    && ParameterCollected(doc, run.verbs, p)
    && Component(doc, "parameters", p).Some?
    && key in SchemaKeys(Component(doc, "parameters", p).value)
    && key in SourceSchemas(doc) && !NeededSchema(doc, run, SourceSchemas(doc), key)
  }

  lemma {:induction false} DanglesExactly(doc: Dict, cfg: Config, run: Run, p: string, key: string)
    requires RunOn(doc, cfg, run)
    ensures Dangling(doc, Output(doc, cfg, run), p, key) <==> Unseeded(doc, run, p, key)
  {
    KeepsExactlyCollectedParameters(doc, cfg, run, p);
    KeepsExactlyReachableSchemas(doc, cfg, run, key);
    hide Output, RunOn, ParameterCollected, NeededSchema, SchemaKeys, Section;
  }

  /** No kept parameter dangles exactly when the seeds lead to every source schema the collected parameters mention. */
  lemma {:induction false} NothingDanglesExactly(doc: Dict, cfg: Config, run: Run)
    requires RunOn(doc, cfg, run)
    ensures (forall p, key :: !Dangling(doc, Output(doc, cfg, run), p, key)) <==>
        (forall p, key :: !Unseeded(doc, run, p, key))
  {
    hide Output, RunOn, Dangling, Unseeded;
    forall p, key ensures Dangling(doc, Output(doc, cfg, run), p, key) <==> Unseeded(doc, run, p, key) {
      DanglesExactly(doc, cfg, run, p, key);
    }
  }

  /** A kept parameter component may refer to a schema that is not kept: only operations seed schemas. */
  lemma {:induction false} ParameterSchemaCanDangle(cfg: Config) returns (doc: Dict, run: Run)
    requires cfg.resourceName == "r"
    ensures RunOn(doc, cfg, run)
    ensures Dangling(doc, Output(doc, cfg, run), "c", "d")
  {
    var resource;
    doc, resource := DanglingDocument();
    run := OneMethodRun(doc, cfg, resource, "get", {}, {"c"});
    KeepsExactlyCollectedParameters(doc, cfg, run, "c");
    SeedDecides(doc, cfg, run, "d");
  }

  lemma {:induction false} DanglingDocument() returns (doc: Dict, resource: Dict)
    ensures GetResource(doc, "r") == Ok(resource) && OneMethod(resource, "get")
    ensures forall k :: !OperationHas(doc, "p", "get", k) && (ItemSearchedFor(doc, "p", "get", k) <==> k == "c")
    ensures Component(doc, "parameters", "c").Some? && SchemaKeys(Component(doc, "parameters", "c").value) == {"d"}
    ensures Component(doc, "schemas", "d").Some?
  {
    hide OperationRefOf, OverridesWith, Refs, ComponentKeys, ComponentRef, GetResource, PathItem;
    var methods := MakeMethod("get");
    var item := ItemWith("parameters", "c");
    var sections := DanglingSections("c", "d");
    doc, resource := MakeDocument(methods, item, sections);
  }

  lemma {:induction false} DanglingSections(p: string, key: string) returns (sections: Dict)
    ensures GetMap(sections, "parameters").Some? && GetMap(sections, "schemas") == Some(map[key := Null])
    ensures p in GetMap(sections, "parameters").value && SchemaKeys(GetMap(sections, "parameters").value[p]) == {key}
  {
    var inner := ItemWith("schemas", key);
    sections := map["parameters" := Map(map[p := Map(inner)])]["schemas" := Map(map[key := Null])];
    assert "parameters"[0] != "schemas"[0];
  }

  // --- schema names that a reference has to escape -----------------------------------------------

  lemma {:induction false} MakeSchemas(key: string) returns (sections: Dict)
    ensures GetMap(sections, "schemas") == Some(map[key := Null])
  {
    sections := map["schemas" := Map(map[key := Null])];
  }

  lemma {:induction false} LoneSchema(schemas: Dict, seed: string, key: string)
    requires schemas.Keys == {key}
    ensures Reachable(schemas, {seed}, key) ==> seed == key
  {
    if Reachable(schemas, {seed}, key) {
      var path :| Chain(schemas, {seed}, path) && path[|path| - 1] == key;
      assert |path| > 1 ==> path[0] in schemas;
    }
  }

  lemma {:induction false} LoneSeed(doc: Dict, cfg: Config, run: Run, seed: string, key: string)
    requires RunOn(doc, cfg, run) && run.seed == {seed}
    ensures NeededSchema(doc, run, map[key := Null], key) ==> seed == key
  {
    hide Reachable, GetResource, VerbChoice, Overrides, OperationMentions, ParameterCollected;
    if NeededSchema(doc, run, map[key := Null], key) {
      var s :| Seed(doc, run.resource, run.verbs, s) && Reachable(map[key := Null], {s}, key);
      assert s in run.seed;
      LoneSchema(map[key := Null], s, key);
    }
  }

  lemma {:induction false} EscapedDocument(key: string) returns (doc: Dict, resource: Dict)
    ensures GetResource(doc, "r") == Ok(resource) && OneMethod(resource, "get")
    ensures forall k :: OperationHas(doc, "p", "get", k) <==> k == EscapeJsonPointer(key)
    ensures forall k :: !ItemSearchedFor(doc, "p", "get", k)
    ensures Section(doc, "components", "schemas") == Some(map[key := Null])
    ensures Operation(doc, "p", "get").Some?
    ensures Refs(Map(Operation(doc, "p", "get").value)) == {ComponentRef("schemas", EscapeJsonPointer(key))}
  {
    hide OperationRefOf, OverridesWith, Refs, ComponentKeys, GetResource, PathItem, EscapeJsonPointer, ComponentRef;
    var methods := MakeMethod("get");
    var item := RefItem(ComponentRef("schemas", EscapeJsonPointer(key)));
    OnlyRef(Map(item), "schemas", EscapeJsonPointer(key));
    OnlyRef(item["get"], "schemas", EscapeJsonPointer(key));
    var sections := MakeSchemas(key);
    doc, resource := MakeDocument(methods, item, sections);
  }

  lemma {:induction false} RefItem(ref: string) returns (item: Dict)
    ensures item.Keys == {"get"} && Refs(item["get"]) == {ref} && Refs(Map(item)) == {ref}
    ensures GetMap(item, "get").Some? && Map(GetMap(item, "get").value) == item["get"]
  {
    item := map["get" := RefTo(ref)];
    RefsOfItem(item, ref);
  }

  /**
   A document whose one operation refers to its one schema, as RFC 6901 writes the name: the
   schema is kept exactly when its name needs no escaping.
   */
  lemma {:induction false} EscapedSchemaKeptExactly(cfg: Config, key: string) returns (doc: Dict, run: Run)
    requires cfg.resourceName == "r"
    ensures RunOn(doc, cfg, run) && Component(doc, "schemas", key) == Some(Null)
    ensures Operation(doc, "p", "get").Some? && "p" in run.verbs && run.verbs["p"] == "get"
    ensures Refs(Map(Operation(doc, "p", "get").value)) == {ComponentRef("schemas", EscapeJsonPointer(key))}
    ensures Component(Output(doc, cfg, run), "schemas", key).Some? <==> '~' !in key && '/' !in key
  {
    var resource;
    doc, resource := EscapedDocument(key);
    run := OneMethodRun(doc, cfg, resource, "get", {EscapeJsonPointer(key)}, {});
    SeedDecides(doc, cfg, run, key);
    KeepsExactlyReachableSchemas(doc, cfg, run, key);
    EscapeLength(key);
    hide Output, Refs, Reachable, Operation, GetResource, VerbChoice, EscapeJsonPointer, NeededSchema, RunOn;
    LoneSeed(doc, cfg, run, EscapeJsonPointer(key), key);
  }

  // --- verbs ---------------------------------------------------------------------------------

  /** Methods `m` and `n` of a resource name different verbs of "p"; no method overrides a schema. */
  ghost predicate TwoVerbs(methods: Dict, m: string, n: string, verb: string, other: string) {
    && m in methods && n in methods && verb != other
    && OperationRefOf(methods[m]) == Some(OperationRef("p", verb)) &&
        OperationRefOf(methods[n]) == Some(OperationRef("p", other))
    && forall k :: k in methods ==> k in {m, n} && forall key :: !OverridesWith(methods[k], key)
  }

  lemma {:induction false} MakeTwoMethods(m: string, n: string, verb: string, other: string) returns (methods: Dict)
    requires m != n && verb != other && '/' !in verb && ToLower(verb) == verb && '/' !in other &&
        ToLower(other) == other
    ensures TwoVerbs(methods, m, n, verb, other)
  {
    var first := MakeMethod(verb);
    var second := MakeMethod(other);
    methods := map[m := first["m"], n := second["m"]];
  }

  lemma {:induction false} TwoVerbChoices(resource: Dict, m: string, n: string, verb: string, other: string)
    requires TwoVerbs(Methods(resource), m, n, verb, other)
    ensures VerbChoice(resource, map["p" := verb]) && VerbChoice(resource, map["p" := other])
    ensures !VerbsAgree(resource) && forall k :: !Overrides(resource, k)
  {
    hide OperationRefOf, OverridesWith, Methods;
    assert Names(resource, "p", verb) && Names(resource, "p", other);
  }

  lemma {:induction false} TwoVerbDocument(m: string, n: string, get: string, put: string)
          returns (doc: Dict, resource: Dict, item: Dict)
    requires m != n && get != put && '/' !in get && ToLower(get) == get && '/' !in put && ToLower(put) == put
    ensures GetResource(doc, "r") == Ok(resource) && TwoVerbs(Methods(resource), m, n, get, put)
    ensures PathItem(doc, "p") == Some(item) && OnlyGet(item, "schemas", "c")
    ensures Component(doc, "schemas", "c") == Some(Null)
  {
    var methods := MakeTwoMethods(m, n, get, put);
    var sections := MakeSchemas("c");
    item := ItemWith("schemas", "c");
    doc, resource := MakeDocument(methods, item, sections);
  }

  /** A run that records `verb` for "p" and no parameters. */
  lemma {:induction false} MakeRun(doc: Dict, cfg: Config, resource: Dict, verb: string, item: Dict) returns (run: Run)
    requires cfg.resourceName == "r" && GetResource(doc, "r") == Ok(resource) && VerbChoice(resource, map["p" := verb])
    requires forall k :: !Overrides(resource, k)
    requires PathItem(doc, "p") == Some(item) && ComponentKeys(Map(item), "parameters") == {}
    ensures run.resource == resource && RunOn(doc, cfg, run)
    ensures run.seed == match GetMap(item, verb) case None => {} case Some(op) => SchemaKeys(Map(op))
  {
    var seed := match GetMap(item, verb) case None => {} case Some(op) => SchemaKeys(Map(op));
    SinglePath(doc, resource, verb);
    run := Run(resource, map["p" := verb], seed, {});
  }

  lemma {:induction false} DisagreeingRuns(cfg: Config) returns (doc: Dict, a: Run, b: Run)
    requires cfg.resourceName == "r"
    ensures RunOn(doc, cfg, a) && RunOn(doc, cfg, b) && a.resource == b.resource && !VerbsAgree(a.resource)
    ensures a.seed == {"c"} && b.seed == {} && Component(doc, "schemas", "c") == Some(Null)
  {
    var resource, item;
    assert "get"[0] != "put"[0] && "m"[0] != "n"[0];
    doc, resource, item := TwoVerbDocument("m", "n", "get", "put");
    TwoVerbChoices(resource, "m", "n", "get", "put");
    a := MakeRun(doc, cfg, resource, "get", item);
    b := MakeRun(doc, cfg, resource, "put", item);
  }

  /**
   Two methods naming different verbs of one path: only one verb is recorded, and which one
   is up to map iteration, so one run keeps schema "c" and another drops it.
   */
  lemma {:induction false} DisagreeingVerbsShow(cfg: Config) returns (doc: Dict, a: Run, b: Run)
    requires cfg.resourceName == "r"
    ensures RunOn(doc, cfg, a) && RunOn(doc, cfg, b) && a.resource == b.resource && !VerbsAgree(a.resource)
    ensures Component(Output(doc, cfg, a), "schemas", "c") == Some(Null)
    ensures Component(Output(doc, cfg, b), "schemas", "c") == None
    ensures !ChoiceFree(doc, a.resource)
  {
    doc, a, b := DisagreeingRuns(cfg);
    SeedDecides(doc, cfg, a, "c");
    SeedDecides(doc, cfg, b, "c");
    hide Output, Component;
    OutputsAgreeExactly(doc, cfg, a.resource);
  }
}
