/** Building the closure of a closure, and exactly when that changes nothing. */
module ClosureRebuild {
  import opened DocTree
  import opened ClosureReach
  import opened ClosureBuild
  import opened ClosureTheorems
  import opened ClosureChoices

  // --- the runs of a rebuild ------------------------------------------------------------

  lemma {:induction false} SameItemsSameKeys(doc: Dict, out: Dict, resource: Dict, verbs: map<string, string>)
    requires forall p :: p in verbs ==> PathItem(out, p) == PathItem(doc, p)
    ensures forall k :: Seed(out, resource, verbs, k) <==> Seed(doc, resource, verbs, k)
    ensures forall k :: ParameterCollected(out, verbs, k) <==> ParameterCollected(doc, verbs, k)
  {
    forall p, k | p in verbs
      ensures OperationHas(out, p, verbs[p], k) <==> OperationHas(doc, p, verbs[p], k)
      ensures ItemSearchedFor(out, p, verbs[p], k) <==> ItemSearchedFor(doc, p, verbs[p], k)
    {
    }
  }

  /** What a run on the output can find and choose is what a run on the source can. */
  lemma {:induction false} RebuildRuns(doc: Dict, cfg: Config, run: Run, cfg2: Config, run2: Run)
    requires RunOn(doc, cfg, run) && cfg2.resourceName == cfg.resourceName
    ensures RunOn(Output(doc, cfg, run), cfg2, run2) <==> RunOn(doc, cfg, run2)
  {
    hide Output, GetResource, PathItem;
    var out := Output(doc, cfg, run);
    SameResource(doc, cfg, run, cfg2);
    if VerbChoice(run.resource, run2.verbs) {
      SamePaths(run.resource, run.verbs, run2.verbs);
      forall p | p in run2.verbs ensures PathItem(out, p) == PathItem(doc, p) {
        SamePathItem(doc, cfg, run, p);
      }
      SameItemsSameKeys(doc, out, run.resource, run2.verbs);
    }
    hide VerbChoice, Seed, ParameterCollected;
  }

  lemma {:induction false} SameResource(doc: Dict, cfg: Config, run: Run, cfg2: Config)
    requires RunOn(doc, cfg, run) && cfg2.resourceName == cfg.resourceName
    ensures GetResource(Output(doc, cfg, run), cfg2.resourceName) == Ok(run.resource)
  {
    OutputSections(doc, cfg, run);
    hide Output, ClosureComponents, RunOn, CutSection, FinalSchemaKeys;
  }

  lemma {:induction false} SamePathItem(doc: Dict, cfg: Config, run: Run, path: string)
    requires RunOn(doc, cfg, run) && path in run.verbs
    ensures PathItem(Output(doc, cfg, run), path) == PathItem(doc, path)
  {
    OutputSections(doc, cfg, run);
    hide Output, ClosureComponents, RunOn, CutSection, FinalSchemaKeys;
  }

  // --- one run, made twice --------------------------------------------------------------

  lemma {:induction false} RestrictTwice(m: Dict, keys: set<string>)
    ensures Restrict(Restrict(m, keys), keys) == Restrict(m, keys)
  {
  }

  /** The second cut of a section already cut to the same keys removes nothing. */
  lemma {:induction false} RecutSection(c: Dict, name: string, keys: set<string>, cut: Dict)
    requires GetMap(cut, name) == CutSection(c, name, keys)
    ensures CutSection(cut, name, keys) == GetMap(cut, name)
  {
    if GetMap(c, name).Some? {
      RestrictTwice(GetMap(c, name).value, keys);
    }
  }

  lemma {:induction false} RebuildKeepsSchemaKeys(doc: Dict, cfg: Config, run: Run)
    requires RunOn(doc, cfg, run)
    ensures Section(Output(doc, cfg, run), "components", "schemas").Some? ==>
      FinalSchemaKeys(Output(doc, cfg, run), run.seed) == FinalSchemaKeys(doc, run.seed)
  {
    OutputSections(doc, cfg, run);
    var cut := Section(Output(doc, cfg, run), "components", "schemas");
    if cut.Some? {
      RestrictionKeepsReach(Section(doc, "components", "schemas").value, run.seed, FinalSchemaKeys(doc, run.seed),
          cut.value);
    }
  }

  lemma {:induction false} RebuildKeepsComponents(doc: Dict, cfg: Config, run: Run, cfg2: Config)
    requires RunOn(doc, cfg, run) && cfg2.resourceName == cfg.resourceName
    ensures GetMap(Output(doc, cfg, run), "components").Some?
    ensures var c := GetMap(Output(doc, cfg, run), "components").value;
      ClosureComponents(c, cfg2, run.resource, FinalSchemaKeys(Output(doc, cfg, run), run.seed), run.paramKeys) == c
  {
    OutputSections(doc, cfg, run);
    RebuildKeepsSchemaKeys(doc, cfg, run);
    var src := GetMap(doc, "components").value;
    var c := GetMap(Output(doc, cfg, run), "components").value;
    var keys, keys2 := FinalSchemaKeys(doc, run.seed), FinalSchemaKeys(Output(doc, cfg, run), run.seed);
    if GetMap(c, "schemas").Some? {
      RecutSection(src, "schemas", keys, c);
    }
    RecutSection(src, "parameters", run.paramKeys, c);
    SameComponents(src, cfg, cfg2, run.resource, keys, keys2, run.paramKeys);
  }

  lemma {:induction false} SameComponents(src: Dict, cfg: Config, cfg2: Config, resource: Dict, keys: set<string>,
          keys2: set<string>, paramKeys: set<string>)
    requires cfg2.resourceName == cfg.resourceName
    requires var c := ClosureComponents(src, cfg, resource, keys, paramKeys);
      && CutSection(c, "schemas", keys2) == GetMap(c, "schemas")
      && CutSection(c, "parameters", paramKeys) == GetMap(c, "parameters")
    ensures var c := ClosureComponents(src, cfg, resource, keys, paramKeys);
      ClosureComponents(c, cfg2, resource, keys2, paramKeys) == c
  {
    var c := ClosureComponents(src, cfg, resource, keys, paramKeys);
    var again := ClosureComponents(c, cfg2, resource, keys2, paramKeys);
    ComponentEntries(src, cfg, resource, keys, paramKeys);
    ComponentEntries(c, cfg2, resource, keys2, paramKeys);
    forall k ensures (k in c <==> k in again) && (k in c ==> c[k] == again[k]) {
    }
  }

  /** The same run on its own output, with no URL rewrite, returns that output. */
  lemma {:induction false} RerunIsIdentity(doc: Dict, cfg: Config, run: Run, cfg2: Config)
    requires RunOn(doc, cfg, run) && cfg2.resourceName == cfg.resourceName && cfg2.rewriteUrl == ""
    ensures Output(Output(doc, cfg, run), cfg2, run) == Output(doc, cfg, run)
  {
    RebuildKeepsComponents(doc, cfg, run, cfg2);
    OutputSections(doc, cfg, run);
    hide Output, ClosureComponents, RunOn, CutSection, FinalSchemaKeys;
    if GetMap(doc, "paths").Some? {
      RestrictTwice(GetMap(doc, "paths").value, run.verbs.Keys);
    }
    SameDoc(doc, cfg, run, cfg2);
  }

  /** What RerunIsIdentity knows of the second build: it keeps paths and components. */
  ghost predicate KeepsParts(doc: Dict, cfg: Config, run: Run, cfg2: Config) {
    && GetMap(doc, "components").Some? && cfg2.rewriteUrl == ""
    && GetMap(Output(doc, cfg, run), "components").Some?
    && var out := Output(doc, cfg, run); var c := GetMap(out, "components").value;
    && ClosureComponents(c, cfg2, run.resource, FinalSchemaKeys(out, run.seed), run.paramKeys) == c
    && (GetMap(out, "paths").Some? ==>
        Restrict(GetMap(out, "paths").value, run.verbs.Keys) == GetMap(out, "paths").value)
  }

  /** The second build copies every entry of the first, given that it keeps paths and components. */
  lemma {:induction false} SameDoc(doc: Dict, cfg: Config, run: Run, cfg2: Config)
    requires KeepsParts(doc, cfg, run, cfg2)
    ensures Output(Output(doc, cfg, run), cfg2, run) == Output(doc, cfg, run)
  {
    hide Output, KeepsParts;
    var out := Output(doc, cfg, run);
    var again := Output(out, cfg2, run);
    SamePartEntries(doc, cfg, run, cfg2);
    forall k ensures (k in out <==> k in again) && (k in out ==> out[k] == again[k]) {
      if k !in {"servers", "paths", "components"} {
        SameVerbatimEntry(doc, cfg, run, cfg2, k);
      }
    }
  }

  lemma {:induction false} SamePartEntries(doc: Dict, cfg: Config, run: Run, cfg2: Config)
    requires KeepsParts(doc, cfg, run, cfg2)
    ensures var out := Output(doc, cfg, run); var again := Output(out, cfg2, run);
      forall k :: k in {"servers", "paths", "components"} ==>
          (k in out <==> k in again) && (k in out ==> out[k] == again[k])
  {
    var out := Output(doc, cfg, run);
    DocEntries(doc, cfg, run.resource, run.verbs.Keys, FinalSchemaKeys(doc, run.seed), run.paramKeys);
    DocEntries(out, cfg2, run.resource, run.verbs.Keys, FinalSchemaKeys(out, run.seed), run.paramKeys);
    hide Verbatim, ClosureComponents, FinalSchemaKeys, Restrict, ClosureDoc;
  }

  lemma {:induction false} SameVerbatimEntry(doc: Dict, cfg: Config, run: Run, cfg2: Config, k: string)
    requires KeepsParts(doc, cfg, run, cfg2) && k !in {"servers", "paths", "components"}
    ensures var out := Output(doc, cfg, run); var again := Output(out, cfg2, run);
      (k in out <==> k in again) && (k in out ==> out[k] == again[k])
  {
    var out := Output(doc, cfg, run);
    DocEntries(doc, cfg, run.resource, run.verbs.Keys, FinalSchemaKeys(doc, run.seed), run.paramKeys);
    DocEntries(out, cfg2, run.resource, run.verbs.Keys, FinalSchemaKeys(out, run.seed), run.paramKeys);
    VerbatimEntries(doc);
    VerbatimEntries(out);
    hide Verbatim, ClosureComponents, FinalSchemaKeys, Restrict, ClosureDoc, GetMap;
  }

  // --- every run ---------------------------------------------------------------------------

  /**
   When all runs on the source agree, building the closure of a closure, with no URL rewrite,
   returns the same document. The first build may have rewritten the server URLs.
   */
  lemma {:induction false} RebuildIsIdentity(doc: Dict, cfg: Config, run: Run, cfg2: Config, run2: Run)
    requires RunOn(doc, cfg, run) && OutputsAgree(doc, cfg)
    requires cfg2.resourceName == cfg.resourceName && cfg2.rewriteUrl == ""
    requires RunOn(Output(doc, cfg, run), cfg2, run2)
    ensures Output(Output(doc, cfg, run), cfg2, run2) == Output(doc, cfg, run)
  {
    hide RunOn, Output;
    RebuildRuns(doc, cfg, run, cfg2, run2);
    RerunIsIdentity(doc, cfg, run2, cfg2);
  }

  ghost predicate RebuildIdle(doc: Dict, cfg: Config, cfg2: Config) {
    forall a, b :: RunOn(doc, cfg, a) && RunOn(Output(doc, cfg, a), cfg2, b) ==>
        Output(Output(doc, cfg, a), cfg2, b) == Output(doc, cfg, a)
  }

  /** A rebuild returns the same document in every pair of runs exactly when no choice of verbs shows. */
  lemma {:induction false} RebuildIsIdentityExactly(doc: Dict, cfg: Config, resource: Dict, cfg2: Config)
    requires GetResource(doc, cfg.resourceName) == Ok(resource)
    requires cfg2.resourceName == cfg.resourceName && cfg2.rewriteUrl == ""
    ensures RebuildIdle(doc, cfg, cfg2) <==> ChoiceFree(doc, resource)
  {
    hide RunOn, Output, GetResource, ChoiceFree, KeepsNoMore;
    OutputsAgreeExactly(doc, cfg, resource);
    if OutputsAgree(doc, cfg) {
      forall a, b | RunOn(doc, cfg, a) && RunOn(Output(doc, cfg, a), cfg2, b)
        ensures Output(Output(doc, cfg, a), cfg2, b) == Output(doc, cfg, a) {
        RebuildIsIdentity(doc, cfg, a, cfg2, b);
      }
    }
    if RebuildIdle(doc, cfg, cfg2) {
      forall a, b | RunOn(doc, cfg, a) && RunOn(doc, cfg, b) ensures Output(doc, cfg, a) == Output(doc, cfg, b) {
        RebuildRuns(doc, cfg, a, cfg2, b);
        RebuildRuns(doc, cfg, b, cfg2, a);
        UncutKeepsNoMore(doc, cfg, a, cfg2, b);
        UncutKeepsNoMore(doc, cfg, b, cfg2, a);
        SameKept(doc, cfg, a, b);
      }
    }
  }

  lemma {:induction false} MoreReachable(cut: Dict, schemas: Dict, seed: set<string>, key: string)
    requires forall k :: k in cut ==> k in schemas && cut[k] == schemas[k]
    requires Reachable(cut, seed, key)
    ensures Reachable(schemas, seed, key)
  {
    var path :| Chain(cut, seed, path) && path[|path| - 1] == key;
    assert Chain(schemas, seed, path);
  }

  /** If run `b` on the output of run `a` cuts nothing, then `a` keeps nothing that `b` drops. */
  lemma {:induction false} UncutKeepsNoMore(doc: Dict, cfg: Config, a: Run, cfg2: Config, b: Run)
    requires RunOn(doc, cfg, a) && RunOn(doc, cfg, b) && RunOn(Output(doc, cfg, a), cfg2, b)
    requires Output(Output(doc, cfg, a), cfg2, b) == Output(doc, cfg, a)
    ensures KeepsNoMore(doc, cfg, a, b)
  {
    hide Output, Component, RunOn;
    forall key | SchemaKept(doc, cfg, a, key) ensures SchemaKept(doc, cfg, b, key) {
      UncutSchema(doc, cfg, a, cfg2, b, key);
    }
    forall key | ParameterKept(doc, cfg, a, key) ensures ParameterKept(doc, cfg, b, key) {
      UncutParameter(doc, cfg, a, cfg2, b, key);
    }
  }

  lemma {:induction false} UncutSchema(doc: Dict, cfg: Config, a: Run, cfg2: Config, b: Run, key: string)
    requires RunOn(doc, cfg, a) && RunOn(doc, cfg, b) && RunOn(Output(doc, cfg, a), cfg2, b)
    requires Output(Output(doc, cfg, a), cfg2, b) == Output(doc, cfg, a) && SchemaKept(doc, cfg, a, key)
    ensures SchemaKept(doc, cfg, b, key)
  {
    var out := Output(doc, cfg, a);
    KeepsExactlyReachableSchemas(doc, cfg, a, key);
    KeepsExactlyReachableSchemas(out, cfg2, b, key);
    KeepsExactlyReachableSchemas(doc, cfg, b, key);
    OutputSections(doc, cfg, a);
    var schemas, cut := Section(doc, "components", "schemas").value, Section(out, "components", "schemas").value;
    assert forall k :: k in cut ==> k in schemas && cut[k] == schemas[k];
    hide Output, Component, Section, Seed, ParameterCollected, VerbChoice, GetResource, ClosureComponents, CutSection,
        Reachable, FinalSchemaKeys;
    var s :| Seed(out, b.resource, b.verbs, s) && Reachable(cut, {s}, key);
    MoreReachable(cut, schemas, {s}, key);
    assert s in b.seed && Seed(doc, b.resource, b.verbs, s);
    assert NeededSchema(doc, b, schemas, key);
  }

  lemma {:induction false} UncutParameter(doc: Dict, cfg: Config, a: Run, cfg2: Config, b: Run, key: string)
    requires RunOn(doc, cfg, a) && RunOn(doc, cfg, b) && RunOn(Output(doc, cfg, a), cfg2, b)
    requires Output(Output(doc, cfg, a), cfg2, b) == Output(doc, cfg, a) && ParameterKept(doc, cfg, a, key)
    ensures ParameterKept(doc, cfg, b, key)
  {
    hide Output, Component, Seed, ParameterCollected, VerbChoice, GetResource;
    KeepsExactlyCollectedParameters(doc, cfg, a, key);
    KeepsExactlyCollectedParameters(Output(doc, cfg, a), cfg2, b, key);
    KeepsExactlyCollectedParameters(doc, cfg, b, key);
  }
}
