/** What schema unfolding shows: where it stops, how deep it goes, and when it is complete. */
module IntrospectionTheorems {
  import opened Wrappers
  import opened Introspection
  import opened StableSort

  /** A marker is shown exactly when the schema or its `$ref` is among the ancestors, and it names one of the two. */
  lemma {:induction false} MarkerExactly(ancestors: seq<Step>, s: Step)
    ensures MarkerFor(ancestors, s).Some? <==> OnPath(ancestors, s)
    ensures MarkerFor(ancestors, s).Some? ==> match MarkerFor(ancestors, s).value
      case Named(name) => name != "" && exists a :: a in ancestors && a.name == name && (a.id == s.id || name == s.name)
      case Inline(id) => id == s.id && exists a :: a in ancestors && a == Step(id, "")
  {
    AncestorFound(ancestors, s.id);
  }

  lemma {:induction false} AncestorFound(ancestors: seq<Step>, id: Id)
    ensures AncestorName(ancestors, id).Some? <==> exists a :: a in ancestors && a.id == id
    ensures AncestorName(ancestors, id).Some? ==> Step(id, AncestorName(ancestors, id).value) in ancestors
  {
    if ancestors != [] {
      var last, front := ancestors[|ancestors| - 1], ancestors[..|ancestors| - 1];
      assert ancestors == front + [last];
      AncestorFound(front, id);
      assert forall a :: a in ancestors <==> a == last || a in front;
    }
  }

  // --- the unfolding as a tree of walks ----------------------------------------------------------------

  ghost function OptionSet<T(!new)>(x: Option<T>): set<T> {
    if x.Some? then {x.value} else {}
  }

  ghost function ListSet<T(!new)>(x: Option<seq<T>>): set<T> {
    if x.Some? then set i | 0 <= i < |x.value| :: x.value[i] else {}
  }

  ghost function PropertySet(x: Option<map<string, Shape>>): set<Shape> {
    if x.Some? then set k | k in x.value :: x.value[k] else {}
  }

  /** What is shown directly below a node. */
  ghost function Children(shape: Shape): set<Shape> {
    if !shape.Node? then {}
    else
      PropertySet(shape.properties) + OptionSet(shape.items) + OptionSet(shape.additional)
      + ListSet(shape.oneOf) + ListSet(shape.anyOf) + ListSet(shape.allOf)
  }

  ghost function RefSteps(g: Graph, refs: seq<SchemaRef>): set<Step> {
    set i | 0 <= i < |refs| && Resolved(g, refs[i]) :: StepOf(refs[i])
  }

  ghost function OptionSteps(g: Graph, r: Option<SchemaRef>): set<Step> {
    if r.Some? && Resolved(g, r.value) then {StepOf(r.value)} else {}
  }

  ghost function PropertySteps(g: Graph, properties: map<string, SchemaRef>): set<Step> {
    set k | k in properties && Resolved(g, properties[k]) :: StepOf(properties[k])
  }

  /** The schemas shown directly below a schema. */
  ghost function Below(g: Graph, id: Id): set<Step>
    requires id in g
  {
    var schema, body := g[id], Working(g[id]);
    PropertySteps(g, body.properties) + OptionSteps(g, body.items) + OptionSteps(g, body.additional)
    + RefSteps(g, schema.oneOf) + RefSteps(g, schema.anyOf) + RefSteps(g, ShownAllOf(schema))
  }

  lemma {:induction false} BelowResolved(g: Graph, id: Id, e: Step)
    requires id in g && e in Below(g, id)
    ensures e.id in g
  {
  }

  ghost function UnfoldAll(g: Graph, steps: set<Step>, ancestors: seq<Step>): set<Shape>
    requires |ancestors| <= MAX_DEPTH
  {
    set e | e in steps && e.id in g :: Unfold(g, e, ancestors)
  }

  /** The children of an unfolded node are the unfoldings of the schemas below it. */
  lemma {:induction false} ChildrenUnfold(g: Graph, s: Step, ancestors: seq<Step>)
    requires s.id in g && |ancestors| < MAX_DEPTH && MarkerFor(ancestors, s).None?
    ensures Unfold(g, s, ancestors).Node?
    ensures Children(Unfold(g, s, ancestors)) == UnfoldAll(g, Below(g, s.id), ancestors + [s])
  {
    hide *;
    var schema, body, down := g[s.id], Working(g[s.id]), ancestors + [s];
    UnfoldNode(g, s, ancestors);
    PropertiesUnfold(g, body.properties, down);
    OptionUnfold(g, body.items, down);
    OptionUnfold(g, body.additional, down);
    ListUnfold(g, schema.oneOf, down);
    ListUnfold(g, schema.anyOf, down);
    ListUnfold(g, ShownAllOf(schema), down);
    var a, b, c := PropertySteps(g, body.properties), OptionSteps(g, body.items), OptionSteps(g, body.additional);
    var d, e, f := RefSteps(g, schema.oneOf), RefSteps(g, schema.anyOf), RefSteps(g, ShownAllOf(schema));
    UnfoldUnion(g, a, b, down);
    UnfoldUnion(g, a + b, c, down);
    UnfoldUnion(g, a + b + c, d, down);
    UnfoldUnion(g, a + b + c + d, e, down);
    UnfoldUnion(g, a + b + c + d + e, f, down);
    ChildrenParts(Unfold(g, s, ancestors));
    BelowParts(g, s.id);
  }

  // --- which part of a schema is shown where

  /** allOf is folded into a schema only if that has neither properties nor items, and folding yields something. */
  predicate FoldsIn(s: Schema) {
    |s.allOf| > 0 && |s.own.properties| == 0 && s.own.items == None && s.fattened != None
  }

  /** The reference is unfolded if it resolves, and left out if it does not. */
  ghost predicate ShowsRef(g: Graph, shown: Option<Shape>, r: Option<SchemaRef>, down: seq<Step>)
    requires |down| <= MAX_DEPTH
  {
    if r.Some? && r.value.target.Some? && r.value.target.value in g
    then shown == Some(Unfold(g, Step(r.value.target.value, r.value.name), down)) else shown == None
  }

  function InGraph(g: Graph): SchemaRef -> bool {
    (r: SchemaRef) => r.target.Some? && r.target.value in g
  }

  /** One by one, the shapes shown are those of the references. */
  ghost predicate ShowsEach(g: Graph, shown: seq<Shape>, resolved: seq<SchemaRef>, down: seq<Step>)
    requires |down| <= MAX_DEPTH
  {
    |shown| == |resolved| && forall i :: 0 <= i < |resolved| ==> ShowsRef(g, Some(shown[i]), Some(resolved[i]), down)
  }

  /** References that do not resolve are left out; an empty list is not shown. */
  ghost predicate ShowsList(g: Graph, shown: Option<seq<Shape>>, refs: seq<SchemaRef>, down: seq<Step>)
    requires |down| <= MAX_DEPTH
  {
    if refs == [] then shown == None else shown.Some? && ShowsEach(g, shown.value, Filter(InGraph(g), refs), down)
  }

  ghost predicate ShowsBody(g: Graph, n: Shape, body: Body, down: seq<Step>)
    requires |down| <= MAX_DEPTH && n.Node?
  {
    && n.kind == body.kind && n.attributes == body.attributes
    && (n.properties == None <==> body.properties == map[])
    && (n.properties.Some? ==> forall k ::
          ShowsRef(g, if k in n.properties.value then Some(n.properties.value[k]) else None,
                   if k in body.properties then Some(body.properties[k]) else None, down))
    && ShowsRef(g, n.items, body.items, down) && ShowsRef(g, n.additional, body.additional, down)
  }

  lemma {:induction false} FilterLast<T>(keep: T -> bool, s: seq<T>, x: T)
    ensures Filter(keep, s + [x]) == Filter(keep, s) + if keep(x) then [x] else []
  {
    if s == [] {
      assert s + [x] == [x] && [x][1..] == [];
    } else {
      assert (s + [x])[1..] == s[1..] + [x];
      FilterLast(keep, s[1..], x);
    }
  }

  lemma {:induction false} RefShown(g: Graph, r: SchemaRef, down: seq<Step>)
    requires |down| <= MAX_DEPTH && Resolved(g, r)
    ensures ShowsRef(g, Some(Unfold(g, StepOf(r), down)), Some(r), down)
  {
    hide Unfold;
  }

  lemma {:induction false} RefsSnoc(g: Graph, front: seq<SchemaRef>, last: SchemaRef, down: seq<Step>)
    requires |down| <= MAX_DEPTH
    ensures UnfoldRefs(g, front + [last], down) == UnfoldRefs(g, front, down) +
      if Resolved(g, last) then [Unfold(g, StepOf(last), down)] else []
    ensures UnfoldRefs(g, [], down) == []
  {
    hide Unfold;
    assert (front + [last])[..|front|] == front;
  }

  lemma {:induction false} RefsShown(g: Graph, refs: seq<SchemaRef>, down: seq<Step>)
    requires |down| <= MAX_DEPTH
    ensures ShowsEach(g, UnfoldRefs(g, refs, down), Filter(InGraph(g), refs), down)
  {
    hide Unfold, UnfoldRefs, ShowsRef, Filter;
    if refs == [] {
      RefsSnoc(g, [], SchemaRef(None, ""), down);
      FilterNothing(InGraph(g));
    } else {
      var front, last := refs[..|refs| - 1], refs[|refs| - 1];
      assert refs == front + [last];
      RefsShown(g, front, down);
      FilterLast(InGraph(g), front, last);
      RefsSnoc(g, front, last, down);
      if Resolved(g, last) {
        RefShown(g, last, down);
      }
    }
  }

  lemma {:induction false} FilterNothing<T>(keep: T -> bool)
    ensures Filter(keep, []) == []
  {
  }

  lemma {:induction false} ListShown(g: Graph, refs: seq<SchemaRef>, down: seq<Step>)
    requires |down| <= MAX_DEPTH
    ensures ShowsList(g, UnfoldList(g, refs, down), refs, down)
  {
    hide ShowsEach, UnfoldRefs, Filter;
    RefsShown(g, refs, down);
  }

  lemma {:induction false} BodyShown(g: Graph, n: Shape, body: Body, down: seq<Step>)
    requires |down| <= MAX_DEPTH && n.Node? && n.kind == body.kind && n.attributes == body.attributes
    requires n.properties == UnfoldProperties(g, body.properties, down)
    requires n.items == UnfoldRef(g, body.items, down) && n.additional == UnfoldRef(g, body.additional, down)
    ensures ShowsBody(g, n, body, down)
  {
    hide Unfold;
  }

  /**
   A node shows the properties, items and attributes of the schema itself, and its allOf, unless allOf folds in:
   then it shows those of the folded body, and no allOf. It shows oneOf and anyOf in either case.
   */
  lemma {:induction false} NodeShownExactly(g: Graph, s: Step, ancestors: seq<Step>)
    requires s.id in g && |ancestors| < MAX_DEPTH && MarkerFor(ancestors, s).None?
    ensures var n, schema, down := Unfold(g, s, ancestors), g[s.id], ancestors + [s];
      && n.Node?
      && ShowsBody(g, n, if FoldsIn(schema) then schema.fattened.value else schema.own, down)
      && ShowsList(g, n.oneOf, schema.oneOf, down) && ShowsList(g, n.anyOf, schema.anyOf, down)
      && ShowsList(g, n.allOf, if FoldsIn(schema) then [] else schema.allOf, down)
  {
    var schema, down := g[s.id], ancestors + [s];
    assert Working(schema) == if FoldsIn(schema) then schema.fattened.value else schema.own;
    assert ShownAllOf(schema) == if FoldsIn(schema) then [] else schema.allOf;
    hide *;
    UnfoldNode(g, s, ancestors);
    BodyShown(g, Unfold(g, s, ancestors), Working(schema), down);
    ListShown(g, schema.oneOf, down);
    ListShown(g, schema.anyOf, down);
    ListShown(g, ShownAllOf(schema), down);
  }

  lemma {:induction false} ChildrenParts(shape: Shape)
    requires shape.Node?
    ensures Children(shape) == PropertySet(shape.properties) + OptionSet(shape.items) + OptionSet(shape.additional)
       + ListSet(shape.oneOf) + ListSet(shape.anyOf) + ListSet(shape.allOf)
  {
    hide PropertySet, OptionSet, ListSet;
  }

  lemma {:induction false} BelowParts(g: Graph, id: Id)
    requires id in g
    ensures Below(g, id) == PropertySteps(g, Working(g[id]).properties) + OptionSteps(g, Working(g[id]).items) +
        OptionSteps(g, Working(g[id]).additional)
      + RefSteps(g, g[id].oneOf) + RefSteps(g, g[id].anyOf) + RefSteps(g, ShownAllOf(g[id]))
  {
    hide PropertySteps, OptionSteps, RefSteps, Working, ShownAllOf;
  }

  lemma {:induction false} UnfoldUnion(g: Graph, a: set<Step>, b: set<Step>, ancestors: seq<Step>)
    requires |ancestors| <= MAX_DEPTH
    ensures UnfoldAll(g, a + b, ancestors) == UnfoldAll(g, a, ancestors) + UnfoldAll(g, b, ancestors)
  {
    hide Unfold;
  }

  lemma {:induction false} PropertiesUnfold(g: Graph, properties: map<string, SchemaRef>, ancestors: seq<Step>)
    requires |ancestors| <= MAX_DEPTH
    ensures PropertySet(UnfoldProperties(g, properties, ancestors)) ==
        UnfoldAll(g, PropertySteps(g, properties), ancestors)
  {
    hide Unfold;
    forall k | k in properties && Resolved(g, properties[k])
      ensures Unfold(g, StepOf(properties[k]), ancestors) in PropertySet(UnfoldProperties(g, properties, ancestors)) {
      assert k in UnfoldProperties(g, properties, ancestors).value;
    }
  }

  lemma {:induction false} OptionUnfold(g: Graph, r: Option<SchemaRef>, ancestors: seq<Step>)
    requires |ancestors| <= MAX_DEPTH
    ensures OptionSet(UnfoldRef(g, r, ancestors)) == UnfoldAll(g, OptionSteps(g, r), ancestors)
  {
    hide Unfold;
  }

  lemma {:induction false} ListUnfold(g: Graph, refs: seq<SchemaRef>, ancestors: seq<Step>)
    requires |ancestors| <= MAX_DEPTH
    ensures ListSet(UnfoldList(g, refs, ancestors)) == UnfoldAll(g, RefSteps(g, refs), ancestors)
  {
    hide Unfold;
    RefsUnfold(g, refs, ancestors);
  }

  ghost function Elements<T(!new)>(x: seq<T>): set<T> {
    set i | 0 <= i < |x| :: x[i]
  }

  lemma {:induction false} RefsUnfold(g: Graph, refs: seq<SchemaRef>, ancestors: seq<Step>)
    requires |ancestors| <= MAX_DEPTH
    ensures Elements(UnfoldRefs(g, refs, ancestors)) == UnfoldAll(g, RefSteps(g, refs), ancestors)
  {
    hide Unfold, Elements, UnfoldAll, RefSteps;
    if refs != [] {
      var front, last := refs[..|refs| - 1], refs[|refs| - 1];
      assert refs == front + [last];
      RefsUnfold(g, front, ancestors);
      RefStepsSnoc(g, front, last);
      UnfoldUnion(g, RefSteps(g, front), OptionSteps(g, Some(last)), ancestors);
      if Resolved(g, last) {
        ElementsSnoc(UnfoldRefs(g, front, ancestors), Unfold(g, StepOf(last), ancestors));
      }
      OptionUnfold(g, Some(last), ancestors);
    } else {
      NothingUnfolds(g, ancestors);
    }
  }

  lemma {:induction false} NothingUnfolds(g: Graph, ancestors: seq<Step>)
    requires |ancestors| <= MAX_DEPTH
    ensures Elements<Shape>([]) == UnfoldAll(g, RefSteps(g, []), ancestors)
  {
  }

  lemma {:induction false} ElementsSnoc<T(!new)>(x: seq<T>, last: T)
    ensures Elements(x + [last]) == Elements(x) + {last}
  {
    assert (x + [last])[|x|] == last;
    forall y ensures y in Elements(x + [last]) <==> y in Elements(x) + {last} {
      if y in Elements(x) {
        var i :| 0 <= i < |x| && x[i] == y;
        assert (x + [last])[i] == y;
      }
    }
  }

  lemma {:induction false} RefStepsSnoc(g: Graph, refs: seq<SchemaRef>, last: SchemaRef)
    ensures RefSteps(g, refs + [last]) == RefSteps(g, refs) + OptionSteps(g, Some(last))
  {
    var all := refs + [last];
    assert all[|refs|] == last;
    forall e | e in RefSteps(g, refs) ensures e in RefSteps(g, all) {
      var i :| 0 <= i < |refs| && Resolved(g, refs[i]) && StepOf(refs[i]) == e;
      assert all[i] == refs[i];
    }
  }

  // --- depth ----------------------------------------------------------------------------------------

  /** No more than `n` levels of nodes, with leaves below them. */
  ghost predicate DepthWithin(shape: Shape, n: nat)
    decreases n
  {
    shape.Node? ==> n > 0 && forall c :: c in Children(shape) ==> DepthWithin(c, n - 1)
  }

  /** However deep or cyclic the schemas are, no more than 64 levels are shown. */
  lemma {:induction false} DepthIsCapped(g: Graph, s: Step, ancestors: seq<Step>)
    requires s.id in g && |ancestors| <= 64
    ensures DepthWithin(Unfold(g, s, ancestors), 64 - |ancestors|)
    decreases MAX_DEPTH - |ancestors|
  {
    hide Children, UnfoldAll, Below, Unfold;
    if |ancestors| == MAX_DEPTH {
      UnfoldAtCeiling(g, s, ancestors);
    } else if MarkerFor(ancestors, s).Some? {
      UnfoldMarked(g, s, ancestors);
    } else {
      ChildrenUnfold(g, s, ancestors);
      forall c | c in Children(Unfold(g, s, ancestors)) ensures DepthWithin(c, MAX_DEPTH - |ancestors| - 1) {
        var e := UnfoldedFrom(g, s.id, ancestors + [s], c);
        DepthIsCapped(g, e, ancestors + [s]);
      }
    }
  }

  lemma {:induction false} UnfoldAtCeiling(g: Graph, s: Step, ancestors: seq<Step>)
    requires s.id in g && |ancestors| == MAX_DEPTH
    ensures Unfold(g, s, ancestors) == Truncated(g[s.id].own.kind)
  {
  }

  lemma {:induction false} UnfoldedFrom(g: Graph, id: Id, down: seq<Step>, c: Shape) returns (e: Step)
    requires id in g && |down| <= MAX_DEPTH && c in UnfoldAll(g, Below(g, id), down)
    ensures e in Below(g, id) && e.id in g && c == Unfold(g, e, down)
  {
    hide Unfold, Below;
    e :| e in Below(g, id) && e.id in g && c == Unfold(g, e, down);
  }

  lemma {:induction false} UnfoldsTo(g: Graph, id: Id, down: seq<Step>, e: Step)
    requires id in g && |down| <= MAX_DEPTH && e in Below(g, id)
    ensures e.id in g && Unfold(g, e, down) in UnfoldAll(g, Below(g, id), down)
  {
    BelowResolved(g, id, e);
    hide Unfold, Below;
  }

  // --- markers, exactly ----------------------------------------------------------------------------------

  /** Each step is shown directly below the one before. */
  ghost predicate IsWalk(g: Graph, w: seq<Step>) {
    w != [] && w[0].id in g && (|w| > 1 ==> w[1] in Below(g, w[0].id) && IsWalk(g, w[1..]))
  }

  /** Going down the walk from the ancestors, some step meets itself or its `$ref` again. */
  ghost predicate Returns(ancestors: seq<Step>, w: seq<Step>)
    decreases |w|
  {
    w != [] && (OnPath(ancestors, w[0]) || Returns(ancestors + [w[0]], w[1..]))
  }

  /** A cycle marker within `n` levels. */
  ghost predicate ShowsCycle(shape: Shape, n: nat)
    decreases n
  {
    shape.CycleRef? || (n > 0 && exists c :: c in Children(shape) && ShowsCycle(c, n - 1))
  }

  ghost predicate ReturningWalk(g: Graph, s: Step, ancestors: seq<Step>, w: seq<Step>) {
    IsWalk(g, w) && w[0] == s && |ancestors| + |w| <= MAX_DEPTH && Returns(ancestors, w)
  }

  /** A cycle marker is shown exactly when some walk of at most 64 schemas returns to itself. */
  lemma {:induction false} CycleShownExactly(g: Graph, s: Step, ancestors: seq<Step>)
    requires s.id in g && |ancestors| <= MAX_DEPTH
    ensures ShowsCycle(Unfold(g, s, ancestors), MAX_DEPTH - |ancestors|) <==>
        exists w :: ReturningWalk(g, s, ancestors, w)
  {
    if ShowsCycle(Unfold(g, s, ancestors), MAX_DEPTH - |ancestors|) {
      var w := CycleHasWalk(g, s, ancestors);
    }
    forall w | ReturningWalk(g, s, ancestors, w) ensures ShowsCycle(Unfold(g, s, ancestors), MAX_DEPTH - |ancestors|) {
      WalkShowsCycle(g, s, ancestors, w);
    }
  }

  lemma {:induction false} CycleHasWalk(g: Graph, s: Step, ancestors: seq<Step>) returns (w: seq<Step>)
    requires s.id in g && |ancestors| <= MAX_DEPTH && ShowsCycle(Unfold(g, s, ancestors), MAX_DEPTH - |ancestors|)
    ensures ReturningWalk(g, s, ancestors, w)
    decreases MAX_DEPTH - |ancestors|
  {
    hide Children, UnfoldAll, Below, Unfold, MarkerFor, OnPath, ReturningWalk;
    MarkerExactly(ancestors, s);
    if |ancestors| == MAX_DEPTH {
      UnfoldAtCeiling(g, s, ancestors);
    } else if MarkerFor(ancestors, s).Some? {
      w := [s];
      OneStepReturns(g, s, ancestors);
    } else {
      ChildrenUnfold(g, s, ancestors);
      var c :| c in Children(Unfold(g, s, ancestors)) && ShowsCycle(c, MAX_DEPTH - |ancestors| - 1);
      var e := UnfoldedFrom(g, s.id, ancestors + [s], c);
      var rest := CycleHasWalk(g, e, ancestors + [s]);
      w := [s] + rest;
      LongerReturns(g, s, e, ancestors, rest);
    }
  }

  lemma {:induction false} OneStepReturns(g: Graph, s: Step, ancestors: seq<Step>)
    requires s.id in g && |ancestors| < MAX_DEPTH && OnPath(ancestors, s)
    ensures ReturningWalk(g, s, ancestors, [s])
  {
    hide OnPath;
  }

  lemma {:induction false} LongerReturns(g: Graph, s: Step, e: Step, ancestors: seq<Step>, rest: seq<Step>)
    requires s.id in g && e in Below(g, s.id) && |ancestors| < MAX_DEPTH && ReturningWalk(g, e, ancestors + [s], rest)
    ensures ReturningWalk(g, s, ancestors, [s] + rest)
  {
    hide OnPath, Below;
    assert ([s] + rest)[1..] == rest;
  }

  lemma {:induction false} OneStepOnPath(ancestors: seq<Step>, w: seq<Step>)
    ensures |w| == 1 && Returns(ancestors, w) ==> OnPath(ancestors, w[0])
  {
    hide OnPath;
    if |w| == 1 {
      assert w[1..] == [] && !Returns(ancestors + [w[0]], w[1..]);
    }
  }

  lemma {:induction false} WalkShowsCycle(g: Graph, s: Step, ancestors: seq<Step>, w: seq<Step>)
    requires s.id in g && |ancestors| <= MAX_DEPTH && ReturningWalk(g, s, ancestors, w)
    ensures ShowsCycle(Unfold(g, s, ancestors), MAX_DEPTH - |ancestors|)
    decreases |w|
  {
    hide Children, UnfoldAll, Below, Unfold, MarkerFor, OnPath;
    MarkerExactly(ancestors, s);
    if MarkerFor(ancestors, s).Some? {
      UnfoldMarked(g, s, ancestors);
    } else {
      ChildrenUnfold(g, s, ancestors);
      OneStepOnPath(ancestors, w);
      UnfoldsTo(g, s.id, ancestors + [s], w[1]);
      WalkShowsCycle(g, w[1], ancestors + [s], w[1..]);
    }
  }

  // --- truncation, exactly -----------------------------------------------------------------------------

  /** A truncated schema within `n` levels. */
  ghost predicate ShowsTruncation(shape: Shape, n: nat)
    decreases n
  {
    shape.Truncated? || (n > 0 && exists c :: c in Children(shape) && ShowsTruncation(c, n - 1))
  }

  /** A walk that reaches the ceiling without having returned to itself. */
  ghost predicate DeepWalk(g: Graph, s: Step, ancestors: seq<Step>, w: seq<Step>) {
    IsWalk(g, w) && w[0] == s && |ancestors| + |w| == MAX_DEPTH + 1 && !Returns(ancestors, w[..|w| - 1])
  }

  /**
   A truncated schema is shown exactly when 64 schemas follow one another without a return and
   another is below the last.
   */
  lemma {:induction false} TruncationShownExactly(g: Graph, s: Step, ancestors: seq<Step>)
    requires s.id in g && |ancestors| <= MAX_DEPTH
    ensures ShowsTruncation(Unfold(g, s, ancestors), MAX_DEPTH - |ancestors|) <==>
        exists w :: DeepWalk(g, s, ancestors, w)
  {
    if ShowsTruncation(Unfold(g, s, ancestors), MAX_DEPTH - |ancestors|) {
      var w := TruncationHasWalk(g, s, ancestors);
    }
    forall w | DeepWalk(g, s, ancestors, w) ensures ShowsTruncation(Unfold(g, s, ancestors), MAX_DEPTH - |ancestors|) {
      WalkShowsTruncation(g, s, ancestors, w);
    }
  }

  lemma {:induction false} TruncationHasWalk(g: Graph, s: Step, ancestors: seq<Step>) returns (w: seq<Step>)
    requires s.id in g && |ancestors| <= MAX_DEPTH && ShowsTruncation(Unfold(g, s, ancestors), MAX_DEPTH - |ancestors|)
    ensures DeepWalk(g, s, ancestors, w)
    decreases MAX_DEPTH - |ancestors|
  {
    hide Children, UnfoldAll, Below, Unfold, MarkerFor, OnPath, DeepWalk;
    MarkerExactly(ancestors, s);
    if |ancestors| == MAX_DEPTH {
      w := [s];
      OneStepDeep(g, s, ancestors);
    } else {
      NotMarked(g, s, ancestors);
      ChildrenUnfold(g, s, ancestors);
      var c :| c in Children(Unfold(g, s, ancestors)) && ShowsTruncation(c, MAX_DEPTH - |ancestors| - 1);
      var e := UnfoldedFrom(g, s.id, ancestors + [s], c);
      var rest := TruncationHasWalk(g, e, ancestors + [s]);
      w := [s] + rest;
      LongerDeep(g, s, e, ancestors, rest);
    }
  }

  lemma {:induction false} NotMarked(g: Graph, s: Step, ancestors: seq<Step>)
    requires s.id in g && |ancestors| < MAX_DEPTH && ShowsTruncation(Unfold(g, s, ancestors), MAX_DEPTH - |ancestors|)
    ensures MarkerFor(ancestors, s).None?
  {
    hide Unfold;
    if MarkerFor(ancestors, s).Some? {
      UnfoldMarked(g, s, ancestors);
    }
  }

  lemma {:induction false} OneStepDeep(g: Graph, s: Step, ancestors: seq<Step>)
    requires s.id in g && |ancestors| == MAX_DEPTH
    ensures DeepWalk(g, s, ancestors, [s])
  {
  }

  lemma {:induction false} LongerDeep(g: Graph, s: Step, e: Step, ancestors: seq<Step>, rest: seq<Step>)
    requires s.id in g && e in Below(g, s.id) && |ancestors| < MAX_DEPTH && !OnPath(ancestors, s) &&
        DeepWalk(g, e, ancestors + [s], rest)
    ensures DeepWalk(g, s, ancestors, [s] + rest)
  {
    hide OnPath, Below;
    var w := [s] + rest;
    assert w[1..] == rest && w[..|w| - 1][1..] == rest[..|rest| - 1] && w[..|w| - 1][0] == s;
  }

  lemma {:induction false} WalkShowsTruncation(g: Graph, s: Step, ancestors: seq<Step>, w: seq<Step>)
    requires s.id in g && |ancestors| <= MAX_DEPTH && DeepWalk(g, s, ancestors, w)
    ensures ShowsTruncation(Unfold(g, s, ancestors), MAX_DEPTH - |ancestors|)
    decreases |w|
  {
    hide Children, UnfoldAll, Below, Unfold, MarkerFor, OnPath;
    MarkerExactly(ancestors, s);
    if |ancestors| == MAX_DEPTH {
      UnfoldAtCeiling(g, s, ancestors);
    } else {
      assert w[..|w| - 1][0] == s && w[..|w| - 1][1..] == w[1..][..|w| - 2];
      ChildrenUnfold(g, s, ancestors);
      UnfoldsTo(g, s.id, ancestors + [s], w[1]);
      WalkShowsTruncation(g, w[1], ancestors + [s], w[1..]);
    }
  }

  // --- the full unfolding -----------------------------------------------------------------------------------

  /** A schema with everything below it, with no guard: `n` only bounds the recursion. */
  ghost function Full(g: Graph, id: Id, n: nat): Shape
    requires id in g
    decreases n, 1, 0
  {
    var schema, body := g[id], Working(g[id]);
    if n == 0 then Truncated(schema.own.kind)
    else
      Node(body.kind, body.attributes,
           FullProperties(g, body.properties, n - 1), FullOption(g, body.items, n - 1),
               FullOption(g, body.additional, n - 1),
           FullList(g, schema.oneOf, n - 1), FullList(g, schema.anyOf, n - 1), FullList(g, ShownAllOf(schema), n - 1))
  }

  ghost function FullProperties(g: Graph, properties: map<string, SchemaRef>, n: nat): Option<map<string, Shape>>
    decreases n, 2, 0
  {
    if properties == map[] then None
    else Some(map k | k in properties && Resolved(g, properties[k]) :: Full(g, properties[k].target.value, n))
  }

  ghost function FullOption(g: Graph, r: Option<SchemaRef>, n: nat): Option<Shape>
    decreases n, 2, 0
  {
    if r.Some? && Resolved(g, r.value) then Some(Full(g, r.value.target.value, n)) else None
  }

  ghost function FullList(g: Graph, refs: seq<SchemaRef>, n: nat): Option<seq<Shape>>
    decreases n, 3, 0
  {
    if refs == [] then None else Some(FullRefs(g, refs, n))
  }

  ghost function FullRefs(g: Graph, refs: seq<SchemaRef>, n: nat): seq<Shape>
    decreases n, 2, |refs|
  {
    if refs == [] then []
    else
      var rest, last := FullRefs(g, refs[..|refs| - 1], n), refs[|refs| - 1];
      if Resolved(g, last) then rest + [Full(g, last.target.value, n)] else rest
  }

  /** Going down lowers the rank, so no schema is below itself. */
  ghost predicate Acyclic(g: Graph, rank: map<Id, nat>) {
    g.Keys <= rank.Keys && forall id, e :: id in g && e in Below(g, id) ==> Lower(rank, id, e.id)
  }

  ghost predicate Lower(rank: map<Id, nat>, id: Id, below: Id) {
    id in rank && below in rank && rank[below] < rank[id]
  }

  /** No two schemas are referred to by the same `$ref`. */
  ghost predicate OneSchemaPerName(g: Graph, owner: map<string, Id>) {
    forall id, e :: id in g && e in Below(g, id) ==> Owns(owner, e)
  }

  ghost predicate Owns(owner: map<string, Id>, s: Step) {
    s.name != "" ==> s.name in owner && owner[s.name] == s.id
  }

  /** The ancestors all rank above `id`. */
  ghost predicate AllAbove(rank: map<Id, nat>, owner: map<string, Id>, ancestors: seq<Step>, id: Id) {
    forall a :: a in ancestors ==> Lower(rank, a.id, id) && Owns(owner, a)
  }

  /**
   On an acyclic graph less than 64 deep whose references are unique, everything is shown, shared
   schemas wherever they occur.
   */
  lemma {:induction false} AcyclicShownInFull(g: Graph, rank: map<Id, nat>, owner: map<string, Id>, s: Step, n: nat)
    requires s.id in g && Acyclic(g, rank) && OneSchemaPerName(g, owner) && Owns(owner, s)
    requires rank[s.id] < n <= MAX_DEPTH
    ensures Unfold(g, s, []) == Full(g, s.id, n)
    ensures !ShowsCycle(Unfold(g, s, []), MAX_DEPTH) && !ShowsTruncation(Unfold(g, s, []), MAX_DEPTH)
  {
    hide Unfold, Full, ShowsCycle, ShowsTruncation, Below;
    FullBelow(g, rank, owner, s, [], n);
    NothingElided(g, rank, owner, s, []);
  }

  lemma {:induction false} NoMarkerAbove(g: Graph, rank: map<Id, nat>, owner: map<string, Id>, s: Step,
          ancestors: seq<Step>)
    requires AllAbove(rank, owner, ancestors, s.id) && Owns(owner, s)
    ensures MarkerFor(ancestors, s).None?
  {
    MarkerExactly(ancestors, s);
  }

  lemma {:induction false} GoDown(g: Graph, rank: map<Id, nat>, owner: map<string, Id>, s: Step, ancestors: seq<Step>,
          e: Step)
    requires s.id in g && Acyclic(g, rank) && OneSchemaPerName(g, owner) && Owns(owner, s)
    requires AllAbove(rank, owner, ancestors, s.id) && e in Below(g, s.id)
    ensures e.id in g && Owns(owner, e) && Lower(rank, s.id, e.id) && AllAbove(rank, owner, ancestors + [s], e.id)
  {
    BelowResolved(g, s.id, e);
    hide Below;
  }

  /** The guarded unfolding of these schemas is the full one. */
  ghost predicate SameBelow(g: Graph, steps: set<Step>, down: seq<Step>, n: nat)
    requires |down| <= MAX_DEPTH
  {
    forall e :: e in steps && e.id in g ==> Unfold(g, e, down) == Full(g, e.id, n)
  }

  lemma {:induction false} FullBelow(g: Graph, rank: map<Id, nat>, owner: map<string, Id>, s: Step,
          ancestors: seq<Step>, n: nat)
    requires s.id in g && Acyclic(g, rank) && OneSchemaPerName(g, owner) && Owns(owner, s)
    requires AllAbove(rank, owner, ancestors, s.id) && rank[s.id] < n && |ancestors| + n <= MAX_DEPTH
    ensures Unfold(g, s, ancestors) == Full(g, s.id, n)
    decreases n
  {
    hide Unfold, Full, Below, OneSchemaPerName, AllAbove, Owns, SameBelow, MarkerFor, Lower;
    var down := ancestors + [s];
    NoMarkerAbove(g, rank, owner, s, ancestors);
    forall e | e in Below(g, s.id) ensures e.id in g && Unfold(g, e, down) == Full(g, e.id, n - 1) {
      GoDown(g, rank, owner, s, ancestors, e);
      RankDrops(rank, s.id, e.id);
      FullBelow(g, rank, owner, e, down, n - 1);
    }
    AllSame(g, Below(g, s.id), down, n - 1);
    hide *;
    FullIfSame(g, s, ancestors, n);
  }

  lemma {:induction false} AllSame(g: Graph, steps: set<Step>, down: seq<Step>, n: nat)
    requires |down| <= MAX_DEPTH && forall e :: e in steps && e.id in g ==> Unfold(g, e, down) == Full(g, e.id, n)
    ensures SameBelow(g, steps, down, n)
  {
    hide Unfold, Full;
  }

  lemma {:induction false} RankDrops(rank: map<Id, nat>, id: Id, below: Id)
    requires Lower(rank, id, below)
    ensures id in rank && below in rank && rank[below] < rank[id]
  {
  }

  lemma {:induction false} SamePart(g: Graph, steps: set<Step>, part: set<Step>, down: seq<Step>, n: nat)
    requires |down| <= MAX_DEPTH && SameBelow(g, steps, down, n) && part <= steps
    ensures SameBelow(g, part, down, n)
  {
    hide Unfold, Full;
  }

  lemma {:induction false} FullIfSame(g: Graph, s: Step, ancestors: seq<Step>, n: nat)
    requires s.id in g && 0 < n && |ancestors| + n <= MAX_DEPTH && MarkerFor(ancestors, s).None?
    requires SameBelow(g, Below(g, s.id), ancestors + [s], n - 1)
    ensures Unfold(g, s, ancestors) == Full(g, s.id, n)
  {
    hide *;
    var schema, body, down, all := g[s.id], Working(g[s.id]), ancestors + [s], Below(g, s.id);
    UnfoldNode(g, s, ancestors);
    FullNode(g, s.id, n);
    BelowParts(g, s.id);
    SamePart(g, all, PropertySteps(g, body.properties), down, n - 1);
    SameProperties(g, body.properties, down, n - 1);
    SamePart(g, all, OptionSteps(g, body.items), down, n - 1);
    SameOption(g, body.items, down, n - 1);
    SamePart(g, all, OptionSteps(g, body.additional), down, n - 1);
    SameOption(g, body.additional, down, n - 1);
    SamePart(g, all, RefSteps(g, schema.oneOf), down, n - 1);
    SameList(g, schema.oneOf, down, n - 1);
    SamePart(g, all, RefSteps(g, schema.anyOf), down, n - 1);
    SameList(g, schema.anyOf, down, n - 1);
    SamePart(g, all, RefSteps(g, ShownAllOf(schema)), down, n - 1);
    SameList(g, ShownAllOf(schema), down, n - 1);
  }

  lemma {:induction false} FullNode(g: Graph, id: Id, n: nat)
    requires id in g && n > 0
    ensures var schema, body := g[id], Working(g[id]);
      Full(g, id, n) == Node(body.kind, body.attributes, FullProperties(g, body.properties, n - 1),
        FullOption(g, body.items, n - 1), FullOption(g, body.additional, n - 1),
        FullList(g, schema.oneOf, n - 1), FullList(g, schema.anyOf, n - 1), FullList(g, ShownAllOf(schema), n - 1))
  {
  }

  lemma {:induction false} SameProperties(g: Graph, properties: map<string, SchemaRef>, down: seq<Step>, n: nat)
    requires |down| <= MAX_DEPTH && SameBelow(g, PropertySteps(g, properties), down, n)
    ensures UnfoldProperties(g, properties, down) == FullProperties(g, properties, n)
  {
    hide Unfold, Full;
    forall k | k in properties && Resolved(g, properties[k])
      ensures Unfold(g, StepOf(properties[k]), down) == Full(g, properties[k].target.value, n) {
      assert StepOf(properties[k]) in PropertySteps(g, properties);
    }
    if properties != map[] {
      assert UnfoldProperties(g, properties, down).value == FullProperties(g, properties, n).value;
    }
  }

  lemma {:induction false} SameOption(g: Graph, r: Option<SchemaRef>, down: seq<Step>, n: nat)
    requires |down| <= MAX_DEPTH && SameBelow(g, OptionSteps(g, r), down, n)
    ensures UnfoldRef(g, r, down) == FullOption(g, r, n)
  {
    hide Unfold, Full;
  }

  lemma {:induction false} SameList(g: Graph, refs: seq<SchemaRef>, down: seq<Step>, n: nat)
    requires |down| <= MAX_DEPTH && SameBelow(g, RefSteps(g, refs), down, n)
    ensures UnfoldList(g, refs, down) == FullList(g, refs, n)
  {
    hide *;
    SameRefs(g, refs, down, n);
    ListParts(g, refs, down, n);
  }

  lemma {:induction false} ListParts(g: Graph, refs: seq<SchemaRef>, down: seq<Step>, n: nat)
    requires |down| <= MAX_DEPTH
    ensures UnfoldList(g, refs, down) == if refs == [] then None else Some(UnfoldRefs(g, refs, down))
    ensures FullList(g, refs, n) == if refs == [] then None else Some(FullRefs(g, refs, n))
  {
  }

  lemma {:induction false} SameRefs(g: Graph, refs: seq<SchemaRef>, down: seq<Step>, n: nat)
    requires |down| <= MAX_DEPTH && SameBelow(g, RefSteps(g, refs), down, n)
    ensures UnfoldRefs(g, refs, down) == FullRefs(g, refs, n)
  {
    hide Unfold, Full, RefSteps;
    if refs != [] {
      var front, last := refs[..|refs| - 1], refs[|refs| - 1];
      assert refs == front + [last];
      RefStepsSnoc(g, front, last);
      SamePart(g, RefSteps(g, refs), RefSteps(g, front), down, n);
      SameRefs(g, front, down, n);
      if Resolved(g, last) {
        assert StepOf(last) in RefSteps(g, refs);
      }
    }
  }

  /** Below ancestors that all rank above it, an acyclic schema shows no marker and no truncation. */
  lemma {:induction false} NothingElided(g: Graph, rank: map<Id, nat>, owner: map<string, Id>, s: Step,
          ancestors: seq<Step>)
    requires s.id in g && Acyclic(g, rank) && OneSchemaPerName(g, owner) && Owns(owner, s)
    requires AllAbove(rank, owner, ancestors, s.id) && |ancestors| + rank[s.id] < MAX_DEPTH
    ensures !ShowsCycle(Unfold(g, s, ancestors), MAX_DEPTH - |ancestors|)
    ensures !ShowsTruncation(Unfold(g, s, ancestors), MAX_DEPTH - |ancestors|)
    decreases MAX_DEPTH - |ancestors|
  {
    hide Unfold, Below, Children, UnfoldAll, OneSchemaPerName, AllAbove, Owns, MarkerFor, Lower;
    var down := ancestors + [s];
    NoMarkerAbove(g, rank, owner, s, ancestors);
    ChildrenUnfold(g, s, ancestors);
    forall c | c in Children(Unfold(g, s, ancestors))
      ensures !ShowsCycle(c, MAX_DEPTH - |down|) && !ShowsTruncation(c, MAX_DEPTH - |down|) {
      var e := UnfoldedFrom(g, s.id, down, c);
      GoDown(g, rank, owner, s, ancestors, e);
      RankDrops(rank, s.id, e.id);
      NothingElided(g, rank, owner, e, down);
    }
  }
}
