/** Which of a builder's verb choices show in its output, and exactly when none does. */
module ClosureChoices {
  import opened DocTree
  import opened ClosureRefs
  import opened ClosureReach
  import opened ClosureBuild
  import opened ClosureTheorems

  // --- runs exist for any choice ------------------------------------------------------

  ghost predicate NamedPath(resource: Dict, path: string) {
    exists verb :: Names(resource, path, verb)
  }

  ghost function NamedPaths(resource: Dict): set<string> {
    set m | m in Methods(resource) && OperationRefOf(Methods(resource)[m]).Some? ::
        OperationRefOf(Methods(resource)[m]).value.path
  }

  lemma {:induction false} InNamedPaths(resource: Dict, path: string)
    ensures path in NamedPaths(resource) <==> NamedPath(resource, path)
  {
    if path in NamedPaths(resource) {
      var m :| m in Methods(resource) && OperationRefOf(Methods(resource)[m]).Some? &&
               OperationRefOf(Methods(resource)[m]).value.path == path;
      assert Names(resource, path, OperationRefOf(Methods(resource)[m]).value.verb);
    }
  }

  /** A verb named for the path, one that `want` asks for if there is one. */
  ghost function VerbFor(resource: Dict, path: string, want: (string, string) -> bool): (verb: string)
    requires NamedPath(resource, path)
    ensures Names(resource, path, verb)
    ensures (exists v :: Names(resource, path, v) && want(path, v)) ==> want(path, verb)
  {
    if exists v :: Names(resource, path, v) && want(path, v) then
      var v :| Names(resource, path, v) && want(path, v); v
    else
      var v :| Names(resource, path, v); v
  }

  lemma {:induction false} ChooseVerbs(resource: Dict, want: (string, string) -> bool)
          returns (verbs: map<string, string>)
    ensures VerbChoice(resource, verbs)
    ensures forall p, v :: p in verbs && Names(resource, p, v) && want(p, v) ==> want(p, verbs[p])
  {
    hide Names;
    forall p ensures p in NamedPaths(resource) <==> NamedPath(resource, p) {
      InNamedPaths(resource, p);
    }
    hide NamedPaths;
    verbs := map p | p in NamedPaths(resource) :: VerbFor(resource, p, want);
  }

  ghost function OperationKeys(doc: Dict, path: string, verb: string): set<string> {
    match Operation(doc, path, verb) case None => {} case Some(op) => SchemaKeys(Map(op))
  }

  ghost function ItemKeys(doc: Dict, path: string, verb: string): set<string> {
    if Operation(doc, path, verb).Some? then ComponentKeys(Map(PathItem(doc, path).value), "parameters") else {}
  }

  lemma {:induction false} InItemKeys(doc: Dict, path: string, verb: string, key: string)
    ensures key in ItemKeys(doc, path, verb) <==> ItemSearchedFor(doc, path, verb, key)
  {
    hide ComponentKeys;
  }

  ghost function OverrideKeys(methodDef: Yaml): set<string> {
    (match OverrideKey(methodDef, "response") case None => {} case Some(k) => {k})
      + (match OverrideKey(methodDef, "request") case None => {} case Some(k) => {k})
  }

  ghost function AllOverrides(resource: Dict): set<string> {
    set m, k | m in Methods(resource) && k in OverrideKeys(Methods(resource)[m]) :: k
  }

  lemma {:induction false} AllOverridesAre(resource: Dict)
    ensures forall k :: k in AllOverrides(resource) <==> Overrides(resource, k)
  {
    hide OverrideKey;
    forall k | Overrides(resource, k) ensures k in AllOverrides(resource) {
      var m :| m in Methods(resource) && OverridesWith(Methods(resource)[m], k);
      assert k in OverrideKeys(Methods(resource)[m]);
    }
  }

  ghost function AllMentioned(doc: Dict, verbs: map<string, string>): set<string> {
    set p, k | p in verbs && k in OperationKeys(doc, p, verbs[p]) :: k
  }

  lemma {:induction false} AllMentionedAre(doc: Dict, verbs: map<string, string>)
    ensures forall k :: k in AllMentioned(doc, verbs) <==> OperationMentions(doc, verbs, k)
  {
    hide Operation, ComponentKeys;
    forall k | OperationMentions(doc, verbs, k) ensures k in AllMentioned(doc, verbs) {
      var p :| p in verbs && OperationHas(doc, p, verbs[p], k);
      assert k in OperationKeys(doc, p, verbs[p]);
    }
    forall k | k in AllMentioned(doc, verbs) ensures OperationMentions(doc, verbs, k) {
      var p :| p in verbs && k in OperationKeys(doc, p, verbs[p]);
      assert OperationHas(doc, p, verbs[p], k);
    }
  }

  ghost function AllSearched(doc: Dict, verbs: map<string, string>): set<string> {
    set p, k | p in verbs && k in ItemKeys(doc, p, verbs[p]) :: k
  }

  lemma {:induction false} AllSearchedAre(doc: Dict, verbs: map<string, string>)
    ensures forall k :: k in AllSearched(doc, verbs) <==> ParameterCollected(doc, verbs, k)
  {
    hide ItemKeys, ItemSearchedFor;
    forall k | ParameterCollected(doc, verbs, k) ensures k in AllSearched(doc, verbs) {
      var p :| p in verbs && ItemSearchedFor(doc, p, verbs[p], k);
      InItemKeys(doc, p, verbs[p], k);
    }
    forall k | k in AllSearched(doc, verbs) ensures ParameterCollected(doc, verbs, k) {
      var p :| p in verbs && k in ItemKeys(doc, p, verbs[p]);
      InItemKeys(doc, p, verbs[p], k);
    }
  }

  /** Every choice of verbs is some run's. */
  lemma {:induction false} RunWith(doc: Dict, cfg: Config, resource: Dict, verbs: map<string, string>)
          returns (run: Run)
    requires GetResource(doc, cfg.resourceName) == Ok(resource) && VerbChoice(resource, verbs)
    ensures RunOn(doc, cfg, run) && run.resource == resource && run.verbs == verbs
  {
    hide AllOverrides, AllMentioned, AllSearched, Overrides, OperationMentions, ParameterCollected, VerbChoice,
        GetResource;
    run := Run(resource, verbs, AllOverrides(resource) + AllMentioned(doc, verbs), AllSearched(doc, verbs));
    AllOverridesAre(resource);
    AllMentionedAre(doc, verbs);
    AllSearchedAre(doc, verbs);
  }

  lemma {:induction false} RunChoosing(doc: Dict, cfg: Config, resource: Dict, want: (string, string) -> bool)
          returns (run: Run)
    requires GetResource(doc, cfg.resourceName) == Ok(resource)
    ensures RunOn(doc, cfg, run) && run.resource == resource
    ensures forall p, v :: p in run.verbs && Names(resource, p, v) && want(p, v) ==> want(p, run.verbs[p])
  {
    hide *;
    var verbs := ChooseVerbs(resource, want);
    run := RunWith(doc, cfg, resource, verbs);
  }

  // --- what some run keeps and what every run keeps ---------------------------------------

  function SourceSchemas(doc: Dict): Dict {
    match Section(doc, "components", "schemas") case None => map[] case Some(m) => m
  }

  ghost predicate SchemaKept(doc: Dict, cfg: Config, run: Run, key: string) {
    Component(Output(doc, cfg, run), "schemas", key).Some?
  }

  ghost predicate ParameterKept(doc: Dict, cfg: Config, run: Run, key: string) {
    Component(Output(doc, cfg, run), "parameters", key).Some?
  }

  /** The operation's own schemas lead to `key`. */
  ghost predicate Leads(doc: Dict, path: string, verb: string, key: string) {
    exists s :: OperationHas(doc, path, verb, s) && Reachable(SourceSchemas(doc), {s}, key)
  }

  ghost predicate OverrideLeads(doc: Dict, resource: Dict, key: string) {
    exists s :: Overrides(resource, s) && Reachable(SourceSchemas(doc), {s}, key)
  }

  /** An override leads to the schema, or a path does so by every verb named for it. */
  ghost predicate SchemaAlways(doc: Dict, resource: Dict, key: string) {
    || OverrideLeads(doc, resource, key)
    || exists p :: NamedPath(resource, p) && forall v :: Names(resource, p, v) ==> Leads(doc, p, v, key)
  }

  ghost predicate SchemaSometimes(doc: Dict, resource: Dict, key: string) {
    OverrideLeads(doc, resource, key) || exists p, v :: Names(resource, p, v) && Leads(doc, p, v, key)
  }

  /** A named path item mentions the parameter and has every operation named for it. */
  ghost predicate ParameterAlways(doc: Dict, resource: Dict, key: string) {
    exists p :: NamedPath(resource, p) && ItemMentions(doc, p, key) && forall v :: Names(resource, p, v) ==>
        Operation(doc, p, v).Some?
  }

  ghost predicate ParameterSometimes(doc: Dict, resource: Dict, key: string) {
    exists p, v :: Names(resource, p, v) && ItemMentions(doc, p, key) && Operation(doc, p, v).Some?
  }

  lemma {:induction false} SchemaKeptBy(doc: Dict, cfg: Config, run: Run, key: string)
    requires RunOn(doc, cfg, run) && key in SourceSchemas(doc)
    ensures SchemaKept(doc, cfg, run, key) <==>
      OverrideLeads(doc, run.resource, key) || exists p :: p in run.verbs && Leads(doc, p, run.verbs[p], key)
  {
    hide RunOn, Output, Component, Reachable, Overrides, OperationHas;
    KeepsExactlyReachableSchemas(doc, cfg, run, key);
    NeededBy(doc, run, key);
  }

  lemma {:induction false} NeededBy(doc: Dict, run: Run, key: string)
    ensures NeededSchema(doc, run, SourceSchemas(doc), key) <==>
      OverrideLeads(doc, run.resource, key) || exists p :: p in run.verbs && Leads(doc, p, run.verbs[p], key)
  {
    hide SourceSchemas, Reachable, Overrides, OperationHas;
    var schemas := SourceSchemas(doc);
    if NeededSchema(doc, run, schemas, key) {
      var s :| Seed(doc, run.resource, run.verbs, s) && Reachable(schemas, {s}, key);
      if !Overrides(run.resource, s) {
        var p :| p in run.verbs && OperationHas(doc, p, run.verbs[p], s);
        assert Leads(doc, p, run.verbs[p], key);
      }
    }
    if p :| p in run.verbs && Leads(doc, p, run.verbs[p], key) {
      var s :| OperationHas(doc, p, run.verbs[p], s) && Reachable(schemas, {s}, key);
      assert Seed(doc, run.resource, run.verbs, s);
    }
    if OverrideLeads(doc, run.resource, key) {
      var s :| Overrides(run.resource, s) && Reachable(schemas, {s}, key);
      assert Seed(doc, run.resource, run.verbs, s);
    }
  }

  lemma {:induction false} ParameterKeptBy(doc: Dict, cfg: Config, run: Run, key: string)
    requires RunOn(doc, cfg, run) && Component(doc, "parameters", key).Some?
    ensures ParameterKept(doc, cfg, run, key) <==>
      exists p :: p in run.verbs && ItemMentions(doc, p, key) && Operation(doc, p, run.verbs[p]).Some?
  {
    hide RunOn, Output, Component, ItemMentions, Operation;
    KeepsExactlyCollectedParameters(doc, cfg, run, key);
    if ParameterCollected(doc, run.verbs, key) {
      var p :| p in run.verbs && ItemSearchedFor(doc, p, run.verbs[p], key);
    }
    if p :| p in run.verbs && ItemMentions(doc, p, key) && Operation(doc, p, run.verbs[p]).Some? {
      assert ItemSearchedFor(doc, p, run.verbs[p], key);
    }
  }

  /** A source schema is in every run's output exactly when an override or some path always leads to it. */
  lemma {:induction false} SchemaInEveryRun(doc: Dict, cfg: Config, resource: Dict, key: string)
    requires GetResource(doc, cfg.resourceName) == Ok(resource) && key in SourceSchemas(doc)
    ensures (forall run :: RunOn(doc, cfg, run) ==> SchemaKept(doc, cfg, run, key)) <==>
        SchemaAlways(doc, resource, key)
  {
    hide SourceSchemas, Leads, OverrideLeads, SchemaKept, GetResource, Names, Seed, ParameterCollected;
    if SchemaAlways(doc, resource, key) {
      forall run | RunOn(doc, cfg, run) ensures SchemaKept(doc, cfg, run, key) {
        SchemaKeptBy(doc, cfg, run, key);
      }
    }
    if forall run :: RunOn(doc, cfg, run) ==> SchemaKept(doc, cfg, run, key) {
      var want := (p: string, v: string) => !Leads(doc, p, v, key);
      var run := RunChoosing(doc, cfg, resource, want);
      SchemaKeptBy(doc, cfg, run, key);
      if p :| p in run.verbs && Leads(doc, p, run.verbs[p], key) {
        assert Names(resource, p, run.verbs[p]) && NamedPath(resource, p) && !want(p, run.verbs[p]);
        assert forall v :: Names(resource, p, v) ==> !want(p, v);
      }
    }
  }

  lemma {:induction false} SchemaInSomeRun(doc: Dict, cfg: Config, resource: Dict, key: string)
    requires GetResource(doc, cfg.resourceName) == Ok(resource) && key in SourceSchemas(doc)
    ensures (exists run :: RunOn(doc, cfg, run) && SchemaKept(doc, cfg, run, key)) <==>
        SchemaSometimes(doc, resource, key)
  {
    hide SourceSchemas, Leads, OverrideLeads, SchemaKept, GetResource, Names, Seed, ParameterCollected;
    if run :| RunOn(doc, cfg, run) && SchemaKept(doc, cfg, run, key) {
      SchemaKeptBy(doc, cfg, run, key);
    }
    if SchemaSometimes(doc, resource, key) {
      var run := RunChoosing(doc, cfg, resource, (p, v) => Leads(doc, p, v, key));
      SchemaKeptBy(doc, cfg, run, key);
    }
  }

  /**
   A source parameter is in every run's output exactly when some named path item mentions it and
   has all its named operations.
   */
  lemma {:induction false} ParameterInEveryRun(doc: Dict, cfg: Config, resource: Dict, key: string)
    requires GetResource(doc, cfg.resourceName) == Ok(resource) && Component(doc, "parameters", key).Some?
    ensures (forall run :: RunOn(doc, cfg, run) ==> ParameterKept(doc, cfg, run, key)) <==>
        ParameterAlways(doc, resource, key)
  {
    hide Component, ItemMentions, Operation, ParameterKept, GetResource, Names, Seed, ParameterCollected;
    if ParameterAlways(doc, resource, key) {
      forall run | RunOn(doc, cfg, run) ensures ParameterKept(doc, cfg, run, key) {
        ParameterKeptBy(doc, cfg, run, key);
      }
    }
    if forall run :: RunOn(doc, cfg, run) ==> ParameterKept(doc, cfg, run, key) {
      var run := RunChoosing(doc, cfg, resource, (p, v) => Operation(doc, p, v).None?);
      ParameterKeptBy(doc, cfg, run, key);
      var p :| p in run.verbs && ItemMentions(doc, p, key) && Operation(doc, p, run.verbs[p]).Some?;
      assert Names(resource, p, run.verbs[p]);
    }
  }

  lemma {:induction false} ParameterInSomeRun(doc: Dict, cfg: Config, resource: Dict, key: string)
    requires GetResource(doc, cfg.resourceName) == Ok(resource) && Component(doc, "parameters", key).Some?
    ensures (exists run :: RunOn(doc, cfg, run) && ParameterKept(doc, cfg, run, key)) <==>
        ParameterSometimes(doc, resource, key)
  {
    hide Component, ItemMentions, Operation, ParameterKept, GetResource, Names, Seed, ParameterCollected;
    if run :| RunOn(doc, cfg, run) && ParameterKept(doc, cfg, run, key) {
      ParameterKeptBy(doc, cfg, run, key);
    }
    if ParameterSometimes(doc, resource, key) {
      var run := RunChoosing(doc, cfg, resource, (p, v) => Operation(doc, p, v).Some?);
      ParameterKeptBy(doc, cfg, run, key);
    }
  }

  // --- when the choices do not show ---------------------------------------------------------

  ghost predicate OutputsAgree(doc: Dict, cfg: Config) {
    forall a, b :: RunOn(doc, cfg, a) && RunOn(doc, cfg, b) ==> Output(doc, cfg, a) == Output(doc, cfg, b)
  }

  /** Whatever source schema or parameter some choice of verbs brings in, every choice brings in. */
  ghost predicate ChoiceFree(doc: Dict, resource: Dict) {
    && (forall key :: key in SourceSchemas(doc) && SchemaSometimes(doc, resource, key) ==>
        SchemaAlways(doc, resource, key))
    && (forall key :: Component(doc, "parameters", key).Some? && ParameterSometimes(doc, resource, key) ==>
        ParameterAlways(doc, resource, key))
  }

  /** Output `a` keeps nothing that output `b` drops. */
  ghost predicate KeepsNoMore(doc: Dict, cfg: Config, a: Run, b: Run) {
    && (forall key :: SchemaKept(doc, cfg, a, key) ==> SchemaKept(doc, cfg, b, key))
    && (forall key :: ParameterKept(doc, cfg, a, key) ==> ParameterKept(doc, cfg, b, key))
  }

  lemma {:induction false} SamePaths(resource: Dict, v: map<string, string>, w: map<string, string>)
    requires VerbChoice(resource, v) && VerbChoice(resource, w)
    ensures v.Keys == w.Keys
  {
    hide Names;
    forall p | p in v ensures p in w {
      assert Names(resource, p, v[p]);
    }
    forall p | p in w ensures p in v {
      assert Names(resource, p, w[p]);
    }
  }

  lemma {:induction false} SameSections(doc: Dict, cfg: Config, resource: Dict, paths: set<string>, s: set<string>,
          t: set<string>, p: set<string>, q: set<string>)
    requires GetMap(doc, "components").Some?
    requires KeptSection(GetMap(doc, "components").value, "schemas", s) ==
        KeptSection(GetMap(doc, "components").value, "schemas", t)
    requires KeptSection(GetMap(doc, "components").value, "parameters", p) ==
        KeptSection(GetMap(doc, "components").value, "parameters", q)
    ensures ClosureDoc(doc, cfg, resource, paths, s, p) == ClosureDoc(doc, cfg, resource, paths, t, q)
  {
    hide GetMap, KeptSection, With, Extensions, Verbatim, RewriteServers;
  }

  lemma {:induction false} SameCut(c: Dict, name: string, keys: set<string>, others: set<string>)
    requires GetMap(c, name).Some? ==> forall k :: k in GetMap(c, name).value ==> (k in keys <==> k in others)
    ensures KeptSection(c, name, keys) == KeptSection(c, name, others)
  {
    if GetMap(c, name).Some? {
      assert Restrict(GetMap(c, name).value, keys) == Restrict(GetMap(c, name).value, others);
    }
  }

  lemma {:induction false} KeptInCut(doc: Dict, cfg: Config, run: Run, key: string)
    requires RunOn(doc, cfg, run)
    ensures GetMap(doc, "components").Some?
    ensures var c := GetMap(doc, "components").value;
      && (GetMap(c, "schemas").Some? && key in GetMap(c, "schemas").value ==>
            (SchemaKept(doc, cfg, run, key) <==> key in FinalSchemaKeys(doc, run.seed)))
      && (GetMap(c, "parameters").Some? && key in GetMap(c, "parameters").value ==>
            (ParameterKept(doc, cfg, run, key) <==> key in run.paramKeys))
  {
    hide RunOn, Output, FinalSchemaKeys, CutSection, GetMap, ClosureComponents;
    OutputSections(doc, cfg, run);
    var c := GetMap(doc, "components").value;
    if GetMap(c, "schemas").Some? {
      CutComponent(c, "schemas", FinalSchemaKeys(doc, run.seed), key);
    }
    if GetMap(c, "parameters").Some? {
      CutComponent(c, "parameters", run.paramKeys, key);
    }
  }

  /** Outputs that keep the same schemas and parameters are the same. */
  lemma {:induction false} SameKept(doc: Dict, cfg: Config, a: Run, b: Run)
    requires RunOn(doc, cfg, a) && RunOn(doc, cfg, b)
    requires KeepsNoMore(doc, cfg, a, b) && KeepsNoMore(doc, cfg, b, a)
    ensures Output(doc, cfg, a) == Output(doc, cfg, b)
  {
    hide Seed, ParameterCollected, FinalSchemaKeys, GetMap, ClosureDoc, KeptSection, SchemaKept, ParameterKept,
        VerbChoice;
    KeptInCut(doc, cfg, a, "");
    var c := GetMap(doc, "components").value;
    forall k | GetMap(c, "schemas").Some? && k in GetMap(c, "schemas").value
      ensures k in FinalSchemaKeys(doc, a.seed) <==> k in FinalSchemaKeys(doc, b.seed) {
      KeptInCut(doc, cfg, a, k);
      KeptInCut(doc, cfg, b, k);
    }
    forall k | GetMap(c, "parameters").Some? && k in GetMap(c, "parameters").value
        ensures k in a.paramKeys <==> k in b.paramKeys {
      KeptInCut(doc, cfg, a, k);
      KeptInCut(doc, cfg, b, k);
    }
    SameCut(c, "schemas", FinalSchemaKeys(doc, a.seed), FinalSchemaKeys(doc, b.seed));
    SameCut(c, "parameters", a.paramKeys, b.paramKeys);
    SamePaths(a.resource, a.verbs, b.verbs);
    SameSections(doc, cfg, a.resource, a.verbs.Keys, FinalSchemaKeys(doc, a.seed), FinalSchemaKeys(doc, b.seed),
        a.paramKeys, b.paramKeys);
  }

  /** All runs give one output exactly when every schema and parameter kept in some run is kept in all. */
  lemma {:induction false} OutputsAgreeExactly(doc: Dict, cfg: Config, resource: Dict)
    requires GetResource(doc, cfg.resourceName) == Ok(resource)
    ensures OutputsAgree(doc, cfg) <==> ChoiceFree(doc, resource)
  {
    hide GetResource, ChoiceFree, Output, RunOn;
    if OutputsAgree(doc, cfg) {
      AgreeingIsChoiceFree(doc, cfg, resource);
    }
    if ChoiceFree(doc, resource) {
      forall a, b | RunOn(doc, cfg, a) && RunOn(doc, cfg, b) ensures Output(doc, cfg, a) == Output(doc, cfg, b) {
        ChoiceFreeKeeps(doc, cfg, resource, a, b);
        ChoiceFreeKeeps(doc, cfg, resource, b, a);
        SameKept(doc, cfg, a, b);
      }
    }
  }

  lemma {:induction false} ChoiceFreeKeeps(doc: Dict, cfg: Config, resource: Dict, a: Run, b: Run)
    requires GetResource(doc, cfg.resourceName) == Ok(resource) && ChoiceFree(doc, resource)
    requires RunOn(doc, cfg, a) && RunOn(doc, cfg, b)
    ensures KeepsNoMore(doc, cfg, a, b)
  {
    hide GetResource, Output, RunOn, SchemaSometimes, SchemaAlways, ParameterSometimes, ParameterAlways, SourceSchemas,
        SchemaKept, ParameterKept;
    forall key | SchemaKept(doc, cfg, a, key) ensures SchemaKept(doc, cfg, b, key) {
      KeptFromSource(doc, cfg, a, key);
      SchemaInSomeRun(doc, cfg, resource, key);
      SchemaInEveryRun(doc, cfg, resource, key);
    }
    forall key | ParameterKept(doc, cfg, a, key) ensures ParameterKept(doc, cfg, b, key) {
      KeptFromSource(doc, cfg, a, key);
      ParameterInSomeRun(doc, cfg, resource, key);
      ParameterInEveryRun(doc, cfg, resource, key);
    }
  }

  lemma {:induction false} KeptFromSource(doc: Dict, cfg: Config, run: Run, key: string)
    requires RunOn(doc, cfg, run)
    ensures SchemaKept(doc, cfg, run, key) ==> key in SourceSchemas(doc)
    ensures ParameterKept(doc, cfg, run, key) ==> Component(doc, "parameters", key).Some?
  {
    hide RunOn, Output, Component, NeededSchema, ParameterCollected;
    KeepsExactlyReachableSchemas(doc, cfg, run, key);
    KeepsExactlyCollectedParameters(doc, cfg, run, key);
  }

  lemma {:induction false} AgreeingIsChoiceFree(doc: Dict, cfg: Config, resource: Dict)
    requires GetResource(doc, cfg.resourceName) == Ok(resource) && OutputsAgree(doc, cfg)
    ensures ChoiceFree(doc, resource)
  {
    hide GetResource, Output, RunOn, SchemaSometimes, SchemaAlways, ParameterSometimes, ParameterAlways, SourceSchemas,
        Component;
    forall key | key in SourceSchemas(doc) && SchemaSometimes(doc, resource, key)
        ensures SchemaAlways(doc, resource, key) {
      SchemaInSomeRun(doc, cfg, resource, key);
      var a :| RunOn(doc, cfg, a) && SchemaKept(doc, cfg, a, key);
      SchemaInEveryRun(doc, cfg, resource, key);
    }
    forall key | Component(doc, "parameters", key).Some? && ParameterSometimes(doc, resource, key)
        ensures ParameterAlways(doc, resource, key) {
      ParameterInSomeRun(doc, cfg, resource, key);
      var a :| RunOn(doc, cfg, a) && ParameterKept(doc, cfg, a, key);
      ParameterInEveryRun(doc, cfg, resource, key);
    }
  }

  /** In particular, when methods that share a path share its verb, map iteration order does not show in the output. */
  lemma {:induction false} OutputIsDeterministic(doc: Dict, cfg: Config, resource: Dict)
    requires GetResource(doc, cfg.resourceName) == Ok(resource) && VerbsAgree(resource)
    ensures OutputsAgree(doc, cfg)
  {
    hide GetResource, OutputsAgree, Names, Leads, OverrideLeads, Operation, ItemMentions, Component, SourceSchemas;
    forall key | SchemaSometimes(doc, resource, key) ensures SchemaAlways(doc, resource, key) {
      if !OverrideLeads(doc, resource, key) {
        var p, v :| Names(resource, p, v) && Leads(doc, p, v, key);
        assert NamedPath(resource, p);
      }
    }
    forall key | ParameterSometimes(doc, resource, key) ensures ParameterAlways(doc, resource, key) {
      var p, v :| Names(resource, p, v) && ItemMentions(doc, p, key) && Operation(doc, p, v).Some?;
      assert NamedPath(resource, p);
    }
    OutputsAgreeExactly(doc, cfg, resource);
  }
}
