# A Dafny model of any-sdk's self-contained algorithms

any-sdk turns SQL-like intents into provider API calls that are described by augmented OpenAPI
documents. Most of it moves data around; this project models the algorithms in it that carry hard
properties, and proves those properties for all inputs, all runs and all iteration orders of Go maps.

Code that changes state keeps that form here: classes with `modifies` clauses, loops with
invariants, a visit map filled and emptied around a recursion, nested maps on the heap. Each method is
proved against a function or predicate over plain values, and the properties are lemmas about those.
Iteration over a Go map is a loop that takes any remaining key.

| files | what they model |
|---|---|
| `ClosureRefs`, `ClosureReach`, `ClosureBuild`, `ClosureTheorems`, `ClosureReads`, `ClosureChoices`, `ClosureRebuild`, `ClosureLimits` | the minimal service document for one resource (`public/closure`) |
| `TemplateAst`, `TemplateFix`, `TemplateAssign`, `TemplateRepair`, `TemplateCount`, `TemplateTokens`, `TemplatePrint`, `TemplateNesting`, `TemplateLexer` | the repair of chained `index` templates, at the level of meaning, of tokens and of text (`pkg/stream_transform`) |
| `ODataFilter`, `ODataOptions`, `SqlOperators`, `StableSort`, `Pushdown`, `PushdownServer`, `PushdownEmits`, `PushdownTheorems`, `PushdownExact` | query push-down, the texts it emits, and a server that reads them (`internal/anysdk`) |
| `GraphQLReader`, `GraphQLPaging` | the paging reader and whole runs of it against a server (`pkg/graphql`) |
| `BrickSpec`, `BrickMap`, `BrickMerge`, `BrickOrder`, `LineageMerge` | the nested mutable map, and merging request-body fields into it (`pkg/brickmap`, `internal/anysdk`) |
| `Introspection`, `IntrospectionTheorems` | schema unfolding with a cycle guard (`internal/anysdk`) |
| `RetryPolicy`, `RetryClient` | back-off and the retry loop (`internal/anysdk`) |
| `PathTemplate` | path templates whose placeholders may match slashes (`pkg/queryrouter`, `public/discovery`) |
| `UrlTemplate` | parameterised URLs (`pkg/urltranslate`) |
| `Casing`, `CasingMarks`, `CasingTheorems` | casing transforms (`pkg/casing`) |
| `CanonicalQuery` | canonical query flattening (`pkg/querytranspose`) |
| `Maths`, `CartesianProducts` | divisors, multiples, products of row lists, and the stream collection (`pkg/maths`, `pkg/streaming`) |
| `GoStrings`, `Decimal`, `Wrappers` | the string functions, decimal texts and the option type the others share |

## What stands out

Where a property one would expect fails, there is a lemma with an input that shows it, and a lemma that
says exactly when it holds.

- Only one verb per path is recorded while a closure is built, and map order decides which
  (`DisagreeingVerbsShow`). All runs give one output exactly when whatever some choice of verbs brings in
  every choice does (`OutputsAgreeExactly`), and exactly then building it again changes nothing
  (`RebuildIsIdentityExactly`).
- A named path item whose named operation is missing loses its parameters (`ParameterCanBeLost`,
  `ParametersCompleteExactly`), and a kept parameter may mention a schema that is not kept
  (`ParameterSchemaCanDangle`, `NothingDanglesExactly`).
- Operation references are unescaped and component references are not: a schema whose name has a `~` or a `/`
  is dropped although it is properly referenced, and no other (`ComponentRefReadExactly`, `EscapedSchemaKeptExactly`).
- The comment above `fixInlineChainedIndex` shows `{{ toJson . }}` as its value, but the pattern allows no
  tag there (`pkg/stream_transform/template_fixer.go:62-66`): the step leaves that very block as it is
  (`DocumentedIsLeft`), and changes a template exactly when a block has at most plain text in both branches
  (`FixInlineIdleExactly`).
- Repairing a `with` block that has an else branch can change which branch runs (`ElseCanBeLost`,
  `ElseKeepsMeaningExactly`, `InlineElseKeepsMeaningExactly`); the guard put around a bare `toJson .`
  changes the output on values that are false but not null (`ToJsonGuardExactly`); how many passes any
  template needs is known exactly, and ten may be too few (`TenCanBeTooFew`, `TenPassesSufficeExactly`,
  `PassesSufficeExactly`); some chained assignments are never repaired (`PassesKeepAssigns`). A template that
  reads a variable named like the repair's own reads the repair's (`TmpNamesClash`, `ReadingsKeptExactly`).
- LIMIT, or a projection, pushed past a predicate the server does not know loses rows
  (`LimitPastResidualLosesRows`, `SelectPastResidualLosesRows`); `PushdownKeepsAnswerExactly` and
  `PushdownKeepsCountExactly` say which intents keep their answer and their count.
- The `cursor_after` strategy does not end on an empty cursor, as its documentation has it: against a server
  that takes the empty cursor for the start it returns all rows again and again (`EmptyCursorNeverEnds`,
  `AfterReadsExactly`). Keyset paging loses rows exactly when a page ends between two rows of one key
  (`RepeatedKeysLoseRows`, `KeysetReadsExactly`). A page limit L lets only L - 1 responses through (`LimitBoundsResponses`), and a
  configured page size above the server's ends after one page (`OffsetCompleteExactly`).
- A brick map stores a value under the single empty key, and never finds it there again (`GetAfterSet`);
  fields on comparable paths can make merging depend on map order (`OrderCanMatter`, `OrdersAgreeExactly`).
- A wait that is cut short returns the last response, already closed, together with an error (`DoWithRetry`).
- Snake names with one-letter words are not always recovered from Pascal or camel case (`SnakeRoundTripExactly`).
- Keys with dots can give two leaves one name in a flattened query, and map order picks the survivor
  (`DottedKeysCollide`, `RunsAgreeExactly`).
- A stream that fails makes a collection drop what the streams before it handed over (`Read`).
- The least common multiple fails, by a division by zero, exactly when two arguments are zero (`LcmMultiple`).

## Model

| member | source | states |
|---|---|---|
| `ClosureRefs.RefsAreMentioned` | public/closure/refs.go:46-70 | The collected references are exactly the strings under some `$ref` key at some path of the document. |
| `ClosureRefs.WalkRefs` | public/closure/refs.go:46-70 | The walk appends exactly the references of the node, in whatever order mappings are ranged over. |
| `ClosureRefs.CollectComponentKeys` | public/closure/refs.go:74-93 | The keys collected are exactly the component names referenced from the node. |
| `ClosureRefs.ComponentKeysAreMentioned` | public/closure/refs.go:37-43 | A component key is collected if and only if the node mentions its full reference at some depth. |
| `ClosureRefs.UnescapeUndoesEscape` | public/closure/refs.go:8-12 | Decoding `~1` and then `~0` undoes the escaping of RFC 6901 section 3 on every string. |
| `ClosureRefs.OppositeOrderIsWrong` | public/closure/refs.go:8-12 | The opposite decoding order maps the escape of `~1` to `/`. |
| `ClosureRefs.OperationRefRoundTrip` | public/closure/refs.go:19-33 | An operation reference written from any path and slash-free verb is read back as that path and the verb in lower case. |
| `ClosureRefs.ComponentRefReadExactly` | public/closure/refs.go:35-43 | A component reference with its key escaped is read back as that key if and only if the key has no `~` and no `/`. |
| `ClosureReach.AddNested` | public/closure/closure.go:175-182 | What one schema mentions joins the shared key set, and `added` says whether the set grew. |
| `ClosureReach.Pass` | public/closure/closure.go:171-186 | A pass over the map it grows, whatever it sees of its own insertions, absorbs the keys present at its start and stays within the reachable ones. |
| `ClosureReach.ResolveTransitiveSchemas` | public/closure/closure.go:169-188 | The loop ends, and leaves exactly the keys reachable from those it started with. |
| `ClosureReach.ReachSetIsLeastClosed` | public/closure/closure.go:169-188 | Reachability by reference chains is the least closed superset of the seed. |
| `ClosureReach.RestrictionKeepsReach` | public/closure/closure.go:246-257 | Cutting the schemas down to the reachable keys changes no reachability. |
| `ClosureBuild.CollectPathKeys` | public/closure/closure.go:102-130 | The paths found are those the methods name, with one of the verbs named for each. |
| `ClosureBuild.CollectOverrideKeys` | public/closure/closure.go:132-165 | The keys are exactly the schema overrides of requests and responses. |
| `ClosureBuild.CollectOperationKeys` | public/closure/closure.go:49-72 | Seeds are overrides and what the named operations mention; parameters come from path items whose named operation exists. |
| `ClosureBuild.BuildClosureDoc` | public/closure/closure.go:190-286 | The loops that fill the output yield the closure document section by section. |
| `ClosureBuild.BuildClosure` | public/closure/closure.go:19-84 | With a resource, the output is the document of some run on the source; without one, or with an unknown one, the rewritten source or the error. |
| `ClosureTheorems.KeepsExactlyReachableSchemas` | public/closure/closure.go:19-84 | A schema is kept, unchanged, if and only if it is reachable from one seed, and nothing else is. |
| `ClosureTheorems.KeepsExactlyCollectedParameters` | public/closure/closure.go:259-270 | A parameter component is kept, unchanged, if and only if a searched path item mentions it. |
| `ClosureTheorems.KeepsExactlyNamedPaths` | public/closure/closure.go:222-233 | A path item is kept, unchanged, if and only if some method names its path. |
| `ClosureReads.ResourcePosition` | public/closure/closure.go:86-100 | The resource is the mapping at components / x-stackQL-resources / name; the error tells which of the mappings above it is missing first. |
| `ClosureReads.ComponentPosition` | public/closure/closure.go:246-270 | A schema or parameter component is what stands at components / section / name. |
| `ClosureReads.OverridesExactly` | public/closure/closure.go:132-165 | A schema is an override if and only if its reference stands at methods / some method / request or response / schema_override / $ref. |
| `ClosureReads.NamesExactly` | public/closure/closure.go:102-130 | A verb of a path is named if and only if a reference at methods / some method / operation / $ref reads as it. |
| `ClosureReads.OperationRefExactly` | public/closure/refs.go:19-33 | A reference reads as a verb of a path if and only if, past an optional `#/paths/`, it is the escaped path, a slash and the verb in any case, without a slash. |
| `ClosureReads.SeedExactly` | public/closure/closure.go:38-72 | Besides overrides, the schemas to start from are those that the mappings at paths / path / chosen verb refer to as `#/components/schemas/` and a name, at some depth. |
| `ClosureReads.ParametersExactly` | public/closure/closure.go:49-72 | The parameters are those that the mappings at paths / path refer to as `#/components/parameters/` and a name, if the chosen operation is there. |
| `ClosureReads.CopiedExactly` | public/closure/closure.go:200-214 | Of the other top-level fields `openapi`, `info`, `security`, `externalDocs`, `x-hasEquivalentPaths` and the `x-` extensions are copied as they are, and no more. |
| `ClosureReads.OnlyResource` | public/closure/closure.go:236-244 | The output's resources are the one asked for, whole. |
| `ClosureReads.ServersRewritten` | public/closure/rewrite.go:9-40 | Servers stay as they are if they are no list or the target is missing or cannot be parsed; otherwise a rewrite keeps every server and all its fields but the URL, which becomes the target's with the server's own path if the target has none, or the target as written if the server's URL cannot be parsed. |
| `ClosureChoices.RunWith` | public/closure/closure.go:102-130 | Every choice of one named verb per named path is the choice of some run. |
| `ClosureChoices.SchemaInEveryRun` | public/closure/closure.go:102-130 | A source schema is in every run's output if and only if an override leads to it, or some path by every verb named for it. |
| `ClosureChoices.SchemaInSomeRun` | public/closure/closure.go:102-130 | It is in some run's output if and only if an override or some named operation leads to it. |
| `ClosureChoices.ParameterInEveryRun` | public/closure/closure.go:49-72 | A source parameter is in every run's output if and only if some named path item mentions it and has all its named operations. |
| `ClosureChoices.OutputsAgreeExactly` | public/closure/closure.go:102-130 | All runs on a document give one output if and only if every schema and parameter kept in some run is kept in all. |
| `ClosureChoices.OutputIsDeterministic` | public/closure/closure.go:102-130 | In particular, when methods sharing a path share its verb, map order does not show. |
| `ClosureRebuild.RebuildRuns` | public/closure/closure.go:19-84 | The runs possible on an output are exactly the runs possible on its source. |
| `ClosureRebuild.RerunIsIdentity` | public/closure/closure.go:19-84 | The same choices on a run's own output, with no URL rewrite, return that output. |
| `ClosureRebuild.RebuildIsIdentity` | public/closure/closure.go:19-84 | When all runs on the source agree, building the closure of a closure returns the same document. |
| `ClosureRebuild.RebuildIsIdentityExactly` | public/closure/closure.go:19-84 | A rebuild returns the same document in every pair of runs if and only if no choice of verbs shows in the output. |
| `ClosureLimits.KeptSchemasAreClosed` | public/closure/closure.go:169-188 | Every schema that a kept schema mentions and the source has is kept. |
| `ClosureLimits.ParametersCompleteExactly` | public/closure/closure.go:49-72 | All mentioned parameters are kept if and only if no named path item without its named operation is alone in mentioning one. |
| `ClosureLimits.ExistingOperationsKeepParameters` | public/closure/closure.go:49-72 | If every named operation exists, no mentioned parameter is lost. |
| `ClosureLimits.ParameterCanBeLost` | public/closure/closure.go:49-72 | A concrete document whose closure loses a parameter. |
| `ClosureLimits.ParameterSchemaCanDangle` | public/closure/closure.go:49-84 | A concrete document whose closure keeps a parameter and drops the schema it mentions. |
| `ClosureLimits.NothingDanglesExactly` | public/closure/closure.go:49-84 | No kept parameter mentions a dropped source schema if and only if the seeds lead to every source schema that a collected parameter mentions. |
| `ClosureLimits.EscapedSchemaKeptExactly` | public/closure/refs.go:35-43 | For every name, a document whose one operation properly refers to its one schema of that name keeps the schema if and only if the name has no `~` and no `/`. |
| `ClosureLimits.DisagreeingVerbsShow` | public/closure/closure.go:104-126 | A concrete document, not free of choice, of which one run keeps a schema and another run drops it. |
| `TemplateFix.FixedWithKeepsMeaning` | pkg/stream_transform/template_fixer.go:183-298 | A repaired `with` block without else branch evaluates as before wherever it had a value. |
| `TemplateFix.FixedWithOnAnyValue` | pkg/stream_transform/template_fixer.go:183-298 | What a repaired block does with whatever the first key leads to: nothing if that is false, the block of the remaining keys on a mapping, and on anything else, so on a list, that block on each element. |
| `TemplateFix.InnerWithRuns` | pkg/stream_transform/template_fixer.go:243-289 | The block of the remaining keys evaluates the old body with what those keys lead to from its `.`, and the else branch if that is false. |
| `TemplateFix.FixWithKeepsMeaning` | pkg/stream_transform/template_fixer.go:183-298 | A pass over any template, nested blocks included, keeps output and variables wherever the template runs without error. |
| `TemplateFix.ElseKeepsMeaningExactly` | pkg/stream_transform/template_fixer.go:243-289 | With an else branch the repair is right if and only if the value found is true or the branch acts alike on what the first key leads to. |
| `TemplateFix.ElseCanBeLost` | pkg/stream_transform/template_fixer.go:243-289 | A concrete template and value where the else branch printed and its repair prints nothing. |
| `TemplateAssign.FixedDeclRuns` | pkg/stream_transform/template_fixer.go:118-174 | The repaired declaration binds the variable to the value the chained index had. |
| `TemplateAssign.FixedDeclOnAnyValue` | pkg/stream_transform/template_fixer.go:118-174 | What a repaired declaration does with whatever the first key leads to: it binds the variable to what the remaining keys lead to in a mapping, and to the intermediate value itself, so to a whole list, if that is no mapping. |
| `TemplateAssign.FixAssignKeepsMeaning` | pkg/stream_transform/template_fixer.go:118-174 | On a template that uses none of the names its repair declares, a declaration pass keeps output and variables wherever the template runs without error. |
| `TemplateAssign.ReadingsKeptExactly` | pkg/stream_transform/template_fixer.go:118-174 | After a repaired declaration a variable reads as before if and only if it has not the repair's name, or held just what the first key leads to. |
| `TemplateAssign.TmpNamesClash` | pkg/stream_transform/template_fixer.go:118-174 | A concrete template that reads its own `__tmp_` variable, and after the repair the repair's. |
| `TemplateRepair.FixTemplate` | pkg/stream_transform/template_fixer.go:34-61 | A bare `toJson .`, blanks around it or not, is guarded; otherwise stopping early gives the template of all ten passes, and nothing when nothing changed. |
| `TemplateRepair.PassesKeepOutput` | pkg/stream_transform/template_fixer.go:34-61 | Started as templates are, with `$` bound to the data, any number of repair passes keeps the output of a template without chained else branches and name clashes. |
| `TemplateCount.PassesSufficeExactly` | pkg/stream_transform/template_fixer.go:45-55 | For every template n passes leave no chained `with` if and only if it needs no more, one for each surplus key on a path and one for two of a single-line block; one pass leaves no chained declaration. |
| `TemplateCount.TenPassesSufficeExactly` | pkg/stream_transform/template_fixer.go:34-61 | So for the ten passes made; without single-line blocks they suffice if and only if no path meets more than ten surplus keys. |
| `TemplateCount.TenCanBeTooFew` | pkg/stream_transform/template_fixer.go:45-55 | A block with twelve keys is still chained after ten passes. |
| `TemplateCount.PassesKeepAssigns` | pkg/stream_transform/template_fixer.go:118-174 | In every template chained plain assignments and declarations by three or more keys outlive every pass. |
| `TemplateRepair.ToJsonGuardExactly` | pkg/stream_transform/template_fixer.go:39-42 | The guard for a bare `toJson .` keeps the output, but for white space around it, if and only if the value is true or its JSON is null. |
| `TemplateRepair.FixInlineIdleExactly` | pkg/stream_transform/template_fixer.go:68-110 | The inline step leaves a template as it is if and only if no block has at most plain text in both its branches. |
| `TemplateRepair.DocumentedIsLeft` | pkg/stream_transform/template_fixer.go:62-66 | The block the step is documented with is left as it is. |
| `TemplateRepair.InlineElseKeepsMeaningExactly` | pkg/stream_transform/template_fixer.go:68-110 | The inline repair is right if and only if the value found is true, or the first key led to a non-empty map, or the fallback is empty. |
| `TemplateRepair.FixedInlineOnAnyValue` | pkg/stream_transform/template_fixer.go:68-110 | What a repaired single-line block does with whatever the first key leads to: nothing if that is false, the block of the remaining keys on a mapping, and the fallback on anything else, so on a list. |
| `TemplateTokens.FindMatchingEnd` | pkg/stream_transform/template_fixer.go:335-359 | The loop finds the end tag and else tag of the depth-counting search. |
| `TemplateTokens.SearchIsFirstReturn` | pkg/stream_transform/template_fixer.go:335-359 | The end found is the first place where the depth returns to zero, and the else the last one at depth one. |
| `TemplateTokens.FixWithChainedIndex` | pkg/stream_transform/template_fixer.go:183-298 | The index-driven scan replaces exactly the blocks found and copies the rest. |
| `TemplatePrint.TokenRepairIsTemplateRepair` | pkg/stream_transform/template_fixer.go:183-298 | Repairing the tokens of any printed template prints the repaired template, so the token scan has its meaning theorem. |
| `TemplateNesting.FixKeepsNesting` | pkg/stream_transform/template_fixer.go:183-298 | Every well-nested token list is mapped to a well-nested one. |
| `TemplateLexer.TokenizeTemplate` | pkg/stream_transform/template_fixer.go:307-331 | The loop yields the tokens of the left-to-right scan. |
| `TemplateLexer.TokensToString` | pkg/stream_transform/template_fixer.go:361-367 | The builder loop yields the concatenation of the tokens. |
| `TemplateLexer.LexThenConcat` | pkg/stream_transform/template_fixer.go:307-367 | Writing back the tokens of any string gives the string. |
| `TemplateLexer.RoundTripExactly` | pkg/stream_transform/template_fixer.go:307-367 | The token lists that survive writing and tokenizing are exactly the canonical ones. |
| `SqlOperators.NormalizedExactly` | internal/anysdk/query_param_pushdown_apply.go:354-377 | A predicate is pushed under the OData name of a comparison if and only if its operator spells that comparison, in any case and with any white space around it. |
| `SqlOperators.NotNormalizedExactly` | internal/anysdk/query_param_pushdown_apply.go:354-377 | An operator is not translated if and only if it spells no comparison. |
| `SqlOperators.AskedIsNamed` | internal/anysdk/query_param_pushdown_apply.go:354-377 | The comparison an OData server reads in the name pushed is the one the query asks for. |
| `ODataFilter.ReadFilterUndoes` | internal/anysdk/query_param_pushdown_apply.go:239-243 | A quote-aware reader recovers the printed terms, whatever quotes, commas, parentheses or " and " the values hold. |
| `ODataFilter.FilterTextIsInjective` | internal/anysdk/query_param_pushdown_apply.go:342-395 | Different term lists never print alike. |
| `ODataOptions.ReadOrderByUndoes` | internal/anysdk/query_param_pushdown_apply.go:247-279 | A printed ordering is read back as it was. |
| `ODataOptions.ReadSelectUndoes` | internal/anysdk/query_param_pushdown_apply.go:179-200 | A printed projection is read back as it was, for every delimiter that no column can run into. |
| `Pushdown.PushdownResult.ApplySelect` | internal/anysdk/query_param_pushdown_apply.go:179-200 | The select step adds its parameter to the shared result, and touches nothing else. |
| `Pushdown.PushdownResult.ApplyFilter` | internal/anysdk/query_param_pushdown_apply.go:202-245 | The filter step adds its parameter, and divides the predicates between pushed and residual. |
| `Pushdown.PushdownResult.ApplyOrderBy` | internal/anysdk/query_param_pushdown_apply.go:247-279 | The ordering step adds its parameter only if every column is supported. |
| `Pushdown.PushdownResult.ApplyTop` | internal/anysdk/query_param_pushdown_apply.go:281-301 | The limit step adds its clamped bound. |
| `Pushdown.PushdownResult.ApplySkip` | internal/anysdk/query_param_pushdown_apply.go:303-323 | The offset step adds its clamped bound. |
| `Pushdown.PushdownResult.ApplyCount` | internal/anysdk/query_param_pushdown_apply.go:325-339 | The count step adds its parameter and the key to read the count from. |
| `Pushdown.ApplyPushdown` | internal/anysdk/query_param_pushdown_apply.go:154-177 | The six steps together yield the parameters, the pushed and the residual predicates; without a config all predicates are residual. |
| `PushdownEmits.PushedExactly` | internal/anysdk/query_param_pushdown_apply.go:202-245 | All predicates with an operator and a column the config allows are pushed in order, only the first if it does not allow `and`, and none without OData syntax or a name; the rest is residual, in the order of the steps. |
| `PushdownEmits.ListsEmittedExactly` | internal/anysdk/query_param_pushdown_apply.go:179-279 | A projection or an ordering is emitted if and only if its section is named, it is not empty and all its columns are allowed, an ordering under OData syntax only. |
| `PushdownEmits.BoundEmittedExactly` | internal/anysdk/query_param_pushdown_apply.go:281-323 | A bound is emitted if and only if it is given, not negative and named, never above a positive maximum. |
| `PushdownEmits.CountEmittedExactly` | internal/anysdk/query_param_pushdown_apply.go:325-339 | A count is asked for if and only if it is wanted and named, with the text and the response key in force. |
| `PushdownEmits.NamesExactly` | internal/anysdk/query_param_pushdown.go:185-370 | Every option goes by its configured name, or else by OData's own in the OData dialect and by none in another. |
| `StableSort.SortSorts` | internal/anysdk/query_param_pushdown_apply.go:247-279 | The ordering a server applies: sorted, and the same rows. |
| `StableSort.FilterSort` | internal/anysdk/query_param_pushdown_apply.go:154-177 | Filtering before a stable sort and after it gives the same rows in the same order. |
| `PushdownServer.EmittedParamsRead` | internal/anysdk/query_param_pushdown_apply.go:154-339 | A server that reads the emitted parameter texts finds exactly the options meant, sections switched off or not. |
| `PushdownTheorems.PushedAndResidualPartition` | internal/anysdk/query_param_pushdown_apply.go:202-245 | Pushed and residual predicates partition the WHERE list as multisets. |
| `PushdownTheorems.PushedAreSupported` | internal/anysdk/query_param_pushdown_apply.go:202-245 | A pushed predicate has a supported column and an operator the server understands. |
| `PushdownTheorems.FiltersCompose` | internal/anysdk/query_param_pushdown_apply.go:202-245 | The server's filter and then the residual filter keep the rows of the full WHERE, in order. |
| `PushdownExact.PushdownKeepsAnswerExactly` | internal/anysdk/query_param_pushdown_apply.go:154-323 | Over all rows and all meanings of comparisons and other predicates, the emitted texts and the residual work give the answer to the intent if and only if, by config and intent, the bounds are within their maxima and the ordering is supported, a pushed projection holds the columns still filtered by, and nothing is cut before a filter the server did not check; for LIMIT 0 the limit alone is enough. |
| `PushdownExact.PushdownKeepsCountExactly` | internal/anysdk/query_param_pushdown_apply.go:325-339 | A pushed count is the number of matching rows, whatever is cut, ordered or projected, if and only if each residual predicate repeats a pushed one. |
| `PushdownExact.LimitPastResidualLosesRows` | internal/anysdk/query_param_pushdown_apply.go:281-301 | LIMIT pushed past a residual predicate loses the only match. |
| `PushdownExact.SelectPastResidualLosesRows` | internal/anysdk/query_param_pushdown_apply.go:179-200 | A projection pushed past a predicate on another column, false of a missing value, loses a matching row. |
| `GraphQLReader.Reader.Read` | pkg/graphql/graphql.go:320-402 | One Read moves the reader's fields and answers as the step function says, errors, transform and limits included. |
| `GraphQLReader.ReadExactly` | pkg/graphql/graphql.go:320-402 | Beyond the limit nothing is asked; a body without errors whose transform has a list of objects at the response path is handed back and counted, and the reader moves on unless the body is empty; anything else is a fault without rows. |
| `GraphQLReader.AdvanceExactly` | pkg/graphql/graphql.go:407-597 | Under each strategy the reader goes on if and only if the page leads to a cursor, with the text written for it; it faults if and only if the template fails on that cursor, so whatever is missing or ill-shaped ends the paging instead. |
| `GraphQLReader.IsContinueExactly` | pkg/graphql/graphql.go:556-570 | The flag says to go on if and only if the first elements of nested lists lead to something that is neither false nor null. |
| `GraphQLReader.PlainTextReads` | pkg/graphql/graphql.go:421-570 | Without a template the server finds the cursor under `after`, a string in quotes, and an offset under `offset`. |
| `GraphQLReader.KeysetContextExactly` | pkg/graphql/graphql.go:472-496 | A cursor has a context unless first elements lead to nothing or to an object without fields; which names a scalar, a lone field and other fields get. |
| `GraphQLReader.CountsRows` | pkg/graphql/graphql.go:320-402 | In every run the reader's row count is the number of rows it handed back. |
| `GraphQLReader.LimitBoundsResponses` | pkg/graphql/graphql.go:320-402 | With a page limit L > 0 at most L - 1 responses are consumed in any run, and exactly min(n, L - 1) in n reads that are all answered. |
| `GraphQLPaging.OffsetReadsAll` | pkg/graphql/graphql.go:498-516 | With a page size of at most the server's, offset paging returns all N rows once and in order, in at most ceil(N/p) + 1 reads. |
| `GraphQLPaging.OversizedPageStopsEarly` | pkg/graphql/graphql.go:498-516 | A page size above the server's stops after the first page. |
| `GraphQLPaging.OffsetCompleteExactly` | pkg/graphql/graphql.go:498-516 | Offset paging is complete if and only if the page size is at most the server's or one page holds everything. |
| `GraphQLPaging.KeysetReadsExactly` | pkg/graphql/graphql.go:447-496 | With keys that never go down in the server's order, keyset paging ends in at most ceil(N/p) + 1 reads, and returns all rows if and only if no page ends between two rows of one key. |
| `GraphQLPaging.RepeatedKeysLoseRows` | pkg/graphql/graphql.go:447-496 | A concrete server of two rows with one key, of which the reader returns one and ends. |
| `GraphQLPaging.KeysetReadsAll` | pkg/graphql/graphql.go:447-496 | In particular strictly increasing keys give all rows once and in order. |
| `GraphQLPaging.LinkedReadsExactly` | pkg/graphql/graphql.go:320-402 | Under every strategy, pages that lead from one to the next are returned, one read each, and then the end if and only if the last leads to no cursor. |
| `GraphQLPaging.RelayReadsExactly` | pkg/graphql/graphql.go:518-570 | With or without a cursor template, a Relay connection is read to its end if and only if its last page does not both say that there is a next one and name a cursor. |
| `GraphQLPaging.RelayReadsAll` | pkg/graphql/graphql.go:518-570 | In particular a connection whose flag is true before the last page and false on it is read to its end. |
| `GraphQLPaging.AfterReadsExactly` | pkg/graphql/graphql.go:421-445 | Against a server that names the next page on every page before the last, cursor_after, with or without a template, returns all rows, one read a page, and then the end if and only if the last page has no one-element cursor list. |
| `GraphQLPaging.RepeatedStartNeverEnds` | pkg/graphql/graphql.go:421-445 | If the last page names a cursor that the server answers like the first request, no number of reads reaches the end, and all rows are returned again. |
| `GraphQLPaging.EmptyCursorNeverEnds` | pkg/graphql/graphql.go:421-445 | So for the empty cursor, asked for as `, after: ""` without a template. |
| `BrickSpec.SetForm` | pkg/brickmap/brick_map.go:118-138 | A Set of several keys in closed form: the maps made on the way, and what stopped it or was stored. |
| `BrickSpec.SetSucceedsExactly` | pkg/brickmap/brick_map.go:110-139 | A Set succeeds if and only if the path is not empty, its inner nodes are maps or missing and, beyond one key, no key is empty. |
| `BrickSpec.GetAfterSet` | pkg/brickmap/brick_map.go:110-169 | After a successful Set, Get returns the value and everything inside it, except for the single empty key. |
| `BrickSpec.SetKeepsIncomparable` | pkg/brickmap/brick_map.go:110-139 | A Set, successful or not, leaves every path incomparable with its own unchanged. |
| `BrickSpec.RejectedSet` | pkg/brickmap/brick_map.go:110-139 | A Set stopped by a value that is no map changes nothing; one stopped by an empty key adds at most empty maps above its path. |
| `BrickSpec.DeleteLaws` | pkg/brickmap/brick_map.go:171-199 | Delete answers true if and only if Get would find the path, and removes that subtree and nothing else. |
| `BrickMap.PutKeepsShape` | pkg/brickmap/brick_map.go:113-126 | Storing a plain value or an unaliased tree under one key keeps the heap a tree of unshared maps with the stated contents. |
| `BrickMap.DropKeepsShape` | pkg/brickmap/brick_map.go:183-187 | So does deleting one key. |
| `BrickMap.Brick.Set` | pkg/brickmap/brick_map.go:110-139 | The cursor loop on the heap makes the contents and the error of Set, and links in no map but new ones and the value's. |
| `BrickMap.Brick.Get` | pkg/brickmap/brick_map.go:141-169 | The cursor loop finds the slot at the path if and only if Get of the contents does. |
| `BrickMap.Brick.Delete` | pkg/brickmap/brick_map.go:171-199 | The cursor loop on the heap makes the contents and the answer of Delete. |
| `BrickMerge.ConsistentItemsMerge` | internal/anysdk/shims.go:101-117 | Items of which every one inside another finds its own value there are all set, if and only if every path can be, and the tree holds exactly what the items put. |
| `BrickMerge.OrderDoesNotMatter` | internal/anysdk/shims.go:235-257 | Setting consistent items, so also pairwise incomparable ones, in any order gives the same outcome and the same map. |
| `BrickMerge.OrderCanMatter` | internal/anysdk/shims.go:101-117 | A path that runs through another is accepted in one order and refused in the other. |
| `BrickOrder.OrdersAgreeExactly` | internal/anysdk/shims.go:101-117 | All orders of the items give one outcome if and only if some path cannot be set, or every item that goes inside another finds its own value there. |
| `LineageMerge.Collection.PushBack` | internal/anysdk/shims.go:124-126 | A field is appended. |
| `LineageMerge.Collection.Merge` | internal/anysdk/shims.go:94-117 | Every field is set at its dotted path in a fresh brick map, up to the first error. |
| `LineageMerge.SplitPathExactly` | internal/anysdk/shims.go:94-99 | A field goes to the segments that the dots of its name make, its parent's before its own, and to no other path. |
| `LineageMerge.MergedFieldStands` | internal/anysdk/shims.go:101-117 | Once consistent fields are merged without error, what stands at the segments of a field's name is the field's value, whole and with nothing added. |
| `LineageMerge.MergeOrdersExactly` | internal/anysdk/shims.go:94-117 | Unaliased fields merge to one outcome in every order if and only if some path cannot be set, or every field that goes inside another finds its own value there. |
| `Introspection.VisitMap.Enter` | internal/anysdk/introspection.go:503-521 | Answers the marker for a schema on the ancestor path, and otherwise records the schema in both maps. |
| `Introspection.VisitMap.Exit` | internal/anysdk/introspection.go:523-531 | Takes exactly that schema and its reference out again. |
| `Introspection.VisitMap.BuildShape` | internal/anysdk/introspection.go:362-470 | Ends on every finite graph, yields the unfolding below the ancestors, and restores both maps. |
| `Introspection.VisitMap.BuildProperties` | internal/anysdk/introspection.go:422-438 | The properties are unfolded alike in every order. |
| `Introspection.VisitMap.RenderSchemaRefs` | internal/anysdk/introspection.go:472-482 | A list of references is unfolded in order, unresolved ones left out. |
| `IntrospectionTheorems.MarkerExactly` | internal/anysdk/introspection.go:503-521 | A cycle marker appears if and only if the schema or its `$ref` is among the current ancestors, and it names one of them. |
| `IntrospectionTheorems.ChildrenUnfold` | internal/anysdk/introspection.go:422-467 | What is shown below a node is the unfolding of exactly the schemas below it, folded allOf included. |
| `IntrospectionTheorems.NodeShownExactly` | internal/anysdk/introspection.go:382-467 | A node shows the kind, attributes, properties, items and allOf of the schema itself, unless that has an allOf and neither properties nor items and folding yields something: then those of the folded body and no allOf; oneOf and anyOf always, references that do not resolve never. |
| `IntrospectionTheorems.DepthIsCapped` | internal/anysdk/introspection.go:29-29 | No more than 64 levels are shown, however deep or cyclic the graph. |
| `IntrospectionTheorems.CycleShownExactly` | internal/anysdk/introspection.go:373-378 | A cycle marker is shown if and only if some walk of at most 64 schemas comes back to an identity or `$ref` on it. |
| `IntrospectionTheorems.TruncationShownExactly` | internal/anysdk/introspection.go:367-371 | Truncation is shown if and only if some walk passes 64 schemas without coming back and goes on. |
| `IntrospectionTheorems.AcyclicShownInFull` | internal/anysdk/introspection.go:362-470 | On an acyclic graph less than 64 deep with unique references the result is the full unfolding, shared sub-schemas included, with no marker and no truncation. |
| `RetryPolicy.IsStatusRetryable` | internal/anysdk/retry.go:93-100 | The search loop finds the status if and only if it is configured, or a default when none is. |
| `RetryPolicy.IsMethodRetryable` | internal/anysdk/retry.go:204-214 | The search loop finds the method if and only if it or the wildcard is configured, or it is a default. |
| `RetryPolicy.SettingsInForce` | internal/anysdk/retry.go:84-200 | Every setting that is configured sensibly is in force, and the documented default otherwise. |
| `RetryPolicy.BaseDelayNeverShrinks` | internal/anysdk/retry.go:218-241 | Without jitter waits are nondecreasing. |
| `RetryPolicy.BaseDelayGrows` | internal/anysdk/retry.go:226-234 | An exponential wait is the multiplier times the one before, up to the ceiling. |
| `RetryPolicy.BaseDelayStarts` | internal/anysdk/retry.go:218-241 | The first wait, and every wait of a policy that is not exponential, is the initial delay or the ceiling. |
| `RetryPolicy.JitterInRange` | internal/anysdk/retry.go:242-251 | Jitter moves a delay by at most its fraction, and never below zero. |
| `RetryPolicy.JitterReaches` | internal/anysdk/retry.go:242-251 | Some noise moves the delay to any place in that range. |
| `RetryPolicy.BackoffFor` | internal/anysdk/retry.go:218-254 | The delay lies between zero and the ceiling, and is min(initial * m^(k-1), ceiling) without jitter. |
| `RetryClient.Wire.DoWithRetry` | internal/anysdk/client.go:161-229 | At most the policy's attempts, one for other methods, each with the original body, all but the last called for a retry; without a cut wait the caller gets the last outcome, and with one the last response and its error or the cancellation; all other responses are closed, and the waits total at most their number times the ceiling. |
| `RetryClient.AttemptsExactly` | internal/anysdk/client.go:161-169 | A failed request is always worth another attempt, a response for its status only; a method that is neither configured nor a default has one attempt. |
| `RetryClient.Wire.Prepare` | internal/anysdk/client.go:171-186 | The body is read once and put back, or the read error ends the call. |
| `RetryClient.Wire.TryOnce` | internal/anysdk/client.go:208-226 | Another attempt follows if and only if this is not the last and the outcome is retryable, and its response is then closed. |
| `RetryClient.TotalWaitBounded` | internal/anysdk/client.go:190-206 | Waits total at most their number times the ceiling. |
| `PathTemplate.FindSpans` | pkg/queryrouter/queryrouter.go:207-222 | The scan cuts the path into its placeholders and the text between. |
| `PathTemplate.MarkAmbiguous` | pkg/queryrouter/queryrouter.go:226-233 | A placeholder is marked if and only if nothing but slashes parts it from a neighbour. |
| `PathTemplate.PermitSlashes` | pkg/queryrouter/queryrouter.go:206-252 | The builder loop prints the rewritten template of the path. |
| `PathTemplate.RewriteOnlyInserts` | pkg/queryrouter/queryrouter.go:236-250 | The wildcard is inserted in exactly the simple, unambiguous placeholders, and nothing else changes. |
| `PathTemplate.ValuesAdmittedExactly` | pkg/queryrouter/queryrouter.go:188-252 | After the rewriting a named placeholder takes every non-empty value without `?` and `#`, slashes included, unless it touches another: then one segment, as before. A placeholder with its own pattern keeps it. |
| `PathTemplate.ParsePrints` | pkg/queryrouter/queryrouter.go:207-222 | Printing the scanned template gives the path back. |
| `PathTemplate.PrintParses` | pkg/queryrouter/queryrouter.go:207-222 | Scanning a printed well-formed template gives the template back. |
| `PathTemplate.PermitSlashesIsIdempotent` | pkg/queryrouter/queryrouter.go:206-252 | Rewriting a rewritten path changes nothing. |
| `PathTemplate.HasAdjacent` | public/discovery/method_analysis_checks.go:258-285 | The analyser answers true if and only if the rewriter marks some placeholder ambiguous. |
| `PathTemplate.AdjacencySurvivesRewriting` | public/discovery/method_analysis_checks.go:258-285 | That is so if and only if two neighbours have only slashes between them, before and after rewriting. |
| `UrlTemplate.Extract` | pkg/urltranslate/urltranslate.go:175-219 | The byte loop yields the scan of the string. |
| `UrlTemplate.ScanSucceedsExactly` | pkg/urltranslate/urltranslate.go:175-219 | Extraction succeeds if and only if `{` and `}` alternate, starting with `{` and ending closed. |
| `UrlTemplate.FullStringRoundTrip` | pkg/urltranslate/urltranslate.go:61-63 | The parts concatenate to the input with every `{}` dropped, so to the input itself if and only if it has none. |
| `UrlTemplate.Sanitise` | pkg/urltranslate/urltranslate.go:97-103 | The builder loop shows every part without its regular expression. |
| `UrlTemplate.ShownAgain` | pkg/urltranslate/urltranslate.go:221-227 | Sanitising a sanitised URL succeeds, and drops exactly the placeholders without a name. |
| `UrlTemplate.SanitiseTwice` | pkg/urltranslate/urltranslate.go:221-227 | Sanitising is idempotent on an input if and only if every placeholder has a name. |
| `Casing.SnakeCache.ToSnake` | pkg/casing/casing.go:39-46 | In every run of calls the memo agrees with the transform. |
| `Casing.JoinCaps` | pkg/casing/casing.go:98-112 | The builder loop concatenates the segments, capitalised but perhaps for the first. |
| `CasingMarks.XformExactly` | pkg/casing/casing.go:48-61 | On every name without an underscore, digits and other characters included, the transform is the lower-case form with an underscore before every word but the first: at a capital after a lower-case letter or digit, at a capital before a lower-case letter unless a line begins there, at a digit after a lower-case letter, and at a plural acronym in the end. |
| `CasingMarks.SpecialExactly` | pkg/casing/casing.go:53-56 | The acronym taken is the longest run of two capitals or more and an `s` that ends the name. |
| `CasingMarks.KebabExactly` | pkg/casing/casing.go:92-94 | Snake case stays as it is, and kebab case has dashes for underscores and changes nothing else. |
| `CasingTheorems.FirstCapMarks` | pkg/casing/casing.go:57-57 | Which word boundaries the first pattern finds under leftmost non-overlapping replacement. |
| `CasingTheorems.EndCapMarks` | pkg/casing/casing.go:59-59 | The last pattern finds every other boundary with a lower-case letter before the capital. |
| `CasingTheorems.XformJoins` | pkg/casing/casing.go:48-61 | Without a plural acronym at the end, the transform separates exactly the visible boundaries. |
| `CasingTheorems.PluralTaken` | pkg/casing/casing.go:53-56 | Two capitals and an `s` at the end become one word. |
| `CasingTheorems.SnakeRoundTripExactly` | pkg/casing/casing.go:48-89 | Snake to Pascal or camel case and back is the identity if and only if no two one-letter words meet and none meets a final two-letter word in `s`. |
| `CasingTheorems.LongWordsRoundTrip` | pkg/casing/casing.go:48-89 | With words of two letters or more, both directions are inverse. |
| `CanonicalQuery.UnmarshalMap` | pkg/querytranspose/aws_canonical_querytranspose.go:40-66 | The result is that of ranging over every object in an order of its own, later entries overwriting earlier ones. |
| `CanonicalQuery.UnmarshalSlice` | pkg/querytranspose/aws_canonical_querytranspose.go:68-94 | The same for a list, elements in order and positions counted from one. |
| `CanonicalQuery.Transpose` | pkg/querytranspose/aws_canonical_querytranspose.go:20-38 | Everything but a top-level boolean or null is flattened, to the result of some such run. |
| `CanonicalQuery.RunFlattens` | pkg/querytranspose/aws_canonical_querytranspose.go:40-94 | In every run the names present are those of the leaves, each with the text of such a leaf. |
| `CanonicalQuery.DottedExactly` | pkg/querytranspose/aws_canonical_querytranspose.go:40-94 | A leaf's name is the base, the keys and the list positions counted from one, joined by dots. |
| `CanonicalQuery.LeafSurvives` | pkg/querytranspose/aws_canonical_querytranspose.go:40-94 | For every leaf there is a run that keeps it under its name. |
| `CanonicalQuery.RunsAgreeExactly` | pkg/querytranspose/aws_canonical_querytranspose.go:40-94 | All runs give one result if and only if any two leaves of one name have one text. |
| `CanonicalQuery.NamesDistinct` | pkg/querytranspose/aws_canonical_querytranspose.go:40-94 | With no dot in any key, different leaves have different names. |
| `CanonicalQuery.FlattenIsExact` | pkg/querytranspose/aws_canonical_querytranspose.go:40-94 | With no dot in any key, the result is unique and holds each leaf under its own name. |
| `CanonicalQuery.DottedKeysCollide` | pkg/querytranspose/aws_canonical_querytranspose.go:40-66 | An object two of whose runs keep different leaves under one name. |
| `Maths.Gcd` | pkg/maths/common_maths.go:6-12 | The result divides both arguments and is a combination of them, for all integers with Go's remainder. |
| `Maths.GcdIsGreatest` | pkg/maths/common_maths.go:6-12 | Every common divisor divides it. |
| `Maths.Lcm` | pkg/maths/common_maths.go:14-17 | A multiple of both arguments that divides every common multiple; there is none if and only if both are zero. |
| `Maths.LcmMultiple` | pkg/maths/common_maths.go:19-29 | A multiple of every argument that divides every common multiple; there is none if and only if two arguments are zero. |
| `CartesianProducts.CartesianProduct` | pkg/maths/common_maths.go:31-55 | The nested append loops yield the product of the arguments. |
| `CartesianProducts.RowOfTuple` | pkg/maths/common_maths.go:31-55 | For every choice of one row per argument the product holds their merge, later arguments winning, at a fixed index. |
| `CartesianProducts.ProductSize` | pkg/maths/common_maths.go:31-55 | The product has as many rows as the lengths multiply to. |
| `CartesianProducts.IndexOfTuple` | pkg/maths/common_maths.go:31-55 | Every index of the product belongs to a choice of rows. |
| `CartesianProducts.TupleOfIndex` | pkg/maths/common_maths.go:31-55 | Different choices stand at different indices. |
| `CartesianProducts.StreamCollection.Gather` | pkg/streaming/map_stream_collection.go:59-84 | What the non-empty streams held, or the first stream that does not end with EOF alone: the streams up to it are drained, later ones unread. |
| `CartesianProducts.StreamCollection.Read` | pkg/streaming/map_stream_collection.go:59-89 | The product of what the non-empty streams held, or the failing stream's own rows, what the streams before it held being gone. |

## Left out

- `ClosureBuild.BuildClosure`: works on parsed trees; a URL is its path and all the rest of it, read and written by parameters that stand for `net/url`. YAML is neither read nor written, and ListResources is not modelled.
- `ClosureRefs.WalkRefs`: a mapping with a key that is no string is a leaf (`Mixed`), since the walk enters only mappings with string keys; the references inside it are not followed.
- `TemplateFix.FixWithKeepsMeaning`: `range`, function calls and printing are parameters of the evaluator; `define`, `block`, `else if`, `with $x :=` and the trimming of text by `-` markers are not evaluated, and tags are classified by a predicate on their syntax instead of the regular expressions, so the lexer's texts and the classified tokens are two models.
- `TemplateAssign.FixAssignKeepsMeaning`: for templates that use none of the names the pass declares. A use need not show in the output, so for whole templates this is not necessary; `ReadingsKeptExactly` says which variables read differently.
- `TemplateRepair.PassesKeepOutput`: for templates without chained else branches; `ElseKeepsMeaningExactly` and `InlineElseKeepsMeaningExactly` decide about those block by block.
- `TemplateRepair.FixTemplate`: validating a proposed template is not modelled.
- `PushdownExact.PushdownKeepsAnswerExactly`: values printed with `%v` that are none of null, boolean, integer or string are not read back; a predicate's meaning depends on the cell of its column only; identifiers are ASCII; sections in use have different names; the configured count value asks for a count. A negative bound means none. Copying the parameters into requests is not modelled.
- `GraphQLReader.Reader.Read`: transport, query rendering, jsonpath evaluation and the response transform are parameters of the reader's environment; error texts are not modelled.
- `BrickMap.Brick.Set`: values are texts or maps, and a map stored as a value shares no map with the tree or with another value; a nil map as a value, on which a deeper Set panics, is not modelled.
- `LineageMerge.Collection.Merge`: stops before ToFlatMap, which renders the top level as text.
- `Introspection.VisitMap.BuildShape`: what folding allOf yields is a given part of each schema. The JSON text made of a shape, and the choice of rows to describe, are not modelled.
- `RetryPolicy.BackoffFor`: delays are reals and the noise is any value in [-1, 1]; rounding to nanoseconds and floating-point overflow are not modelled.
- `RetryClient.Wire.DoWithRetry`: `GetBody`, timers and the draining of a closed body are not modelled; whether a wait is cut short is a parameter.
- `PathTemplate.PermitSlashes`: the router itself and the order of its routes are not modelled, but for what patterns of the form `[^...]+` take; nor are the analyser's warning texts.
- `UrlTemplate.Extract`: strings of single-byte characters only, since the byte loop steps by runes. GetElementByString, GetVarByName and host parsing are not modelled.
- `CasingTheorems.SnakeRoundTripExactly`: words of lower-case letters, not digits; kebab case has no round trip theorem.
- `Maths.Lcm`: over unbounded integers.
- `CartesianProducts.StreamCollection.Read`: the collection's own store is never filled, so it is not modelled; nor are Write and Len.
- HTTP transport, authentication, registry download, XML row extraction, configuration inheritance, mock generation and SQL engines: library work, or easy members only.
