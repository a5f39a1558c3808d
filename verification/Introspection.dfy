/**
 Schema unfolding with a cycle guard: buildShape, renderSchemaRefs and visitMap of
 internal/anysdk/introspection.go.
 */
module Introspection {
  import opened Wrappers

  const MAX_DEPTH: nat := 64

  /** The identity of a schema object. */
  type Id = nat

  /** A schema reference: the object it resolved to, if any, and its `$ref` text, empty for an inline schema. */
  datatype SchemaRef = SchemaRef(target: Option<Id>, name: string)

  /** What is copied as it stands: format, description, default, enum, required and the flags. */
  datatype Attributes = Attributes(texts: map<string, string>)

  datatype Body = Body(kind: string, attributes: Attributes, properties: map<string, SchemaRef>,
          items: Option<SchemaRef>, additional: Option<SchemaRef>)

  /** A schema; `fattened` is what folding its allOf yields, if it yields anything. */
  datatype Schema = Schema(own: Body, fattened: Option<Body>, allOf: seq<SchemaRef>, oneOf: seq<SchemaRef>,
          anyOf: seq<SchemaRef>)

  /** The loaded schemas. A reference to an object that is not among them counts as unresolved. */
  type Graph = map<Id, Schema>

  datatype Marker = Named(ref: string) | Inline(id: Id)

  datatype Shape =
    | Truncated(kind: string)
    | CycleRef(kind: string, marker: Marker)
    | Node(kind: string, attributes: Attributes, properties: Option<map<string, Shape>>, items: Option<Shape>,
        additional: Option<Shape>,
           oneOf: Option<seq<Shape>>, anyOf: Option<seq<Shape>>, allOf: Option<seq<Shape>>)

  predicate Resolved(g: Graph, r: SchemaRef) {
    r.target.Some? && r.target.value in g
  }

  predicate Folds(s: Schema) {
    s.allOf != [] && s.own.properties == map[] && s.own.items.None? && s.fattened.Some?
  }

  /** The body whose properties, items and attributes are shown. */
  function Working(s: Schema): Body {
    if Folds(s) then s.fattened.value else s.own
  }

  /** An allOf that was folded is not shown again. */
  function ShownAllOf(s: Schema): seq<SchemaRef> {
    if Folds(s) then [] else s.allOf
  }

  // --- the reference unfolding --------------------------------------------------------------------

  /** A schema on the way down, with the `$ref` it was reached by. */
  datatype Step = Step(id: Id, name: string)

  /** The schema itself, or one reached by the same `$ref`, is among the ancestors. */
  ghost predicate OnPath(ancestors: seq<Step>, s: Step) {
    exists a :: a in ancestors && (a.id == s.id || (s.name != "" && a.name == s.name))
  }

  /** The marker names the `$ref` under which the schema, or else one of its name, is an ancestor. */
  function MarkerFor(ancestors: seq<Step>, s: Step): Option<Marker> {
    match AncestorName(ancestors, s.id)
    case Some(name) => Some(if name != "" then Named(name) else Inline(s.id))
    case None => if s.name != "" && NameUsed(ancestors, s.name) then Some(Named(s.name)) else None
  }

  function AncestorName(ancestors: seq<Step>, id: Id): Option<string> {
    if ancestors == [] then None
    else
      var last := ancestors[|ancestors| - 1];
      if last.id == id then Some(last.name) else AncestorName(ancestors[..|ancestors| - 1], id)
  }

  predicate NameUsed(ancestors: seq<Step>, name: string) {
    exists a :: a in ancestors && a.name == name
  }

  function StepOf(r: SchemaRef): Step
    requires r.target.Some?
  {
    Step(r.target.value, r.name)
  }

  /** What a schema looks like below its ancestors, as many of them as it is deep. */
  function Unfold(g: Graph, s: Step, ancestors: seq<Step>): Shape
    requires s.id in g && |ancestors| <= MAX_DEPTH
    decreases MAX_DEPTH - |ancestors|, 1, 0
  {
    var schema := g[s.id];
    if |ancestors| == MAX_DEPTH then Truncated(schema.own.kind)
    else
      match MarkerFor(ancestors, s)
      case Some(marker) => CycleRef(schema.own.kind, marker)
      case None =>
        var body, down := Working(schema), ancestors + [s];
        Node(body.kind, body.attributes, UnfoldProperties(g, body.properties, down),
             UnfoldRef(g, body.items, down), UnfoldRef(g, body.additional, down),
             UnfoldList(g, schema.oneOf, down), UnfoldList(g, schema.anyOf, down),
                 UnfoldList(g, ShownAllOf(schema), down))
  }

  function UnfoldProperties(g: Graph, properties: map<string, SchemaRef>,
          ancestors: seq<Step>): Option<map<string, Shape>>
    requires |ancestors| <= MAX_DEPTH
    decreases MAX_DEPTH - |ancestors|, 2, 0
  {
    if properties == map[] then None
    else Some(map k | k in properties && Resolved(g, properties[k]) :: Unfold(g, StepOf(properties[k]), ancestors))
  }

  function UnfoldRef(g: Graph, r: Option<SchemaRef>, ancestors: seq<Step>): Option<Shape>
    requires |ancestors| <= MAX_DEPTH
    decreases MAX_DEPTH - |ancestors|, 2, 0
  {
    if r.Some? && Resolved(g, r.value) then Some(Unfold(g, StepOf(r.value), ancestors)) else None
  }

  function UnfoldList(g: Graph, refs: seq<SchemaRef>, ancestors: seq<Step>): Option<seq<Shape>>
    requires |ancestors| <= MAX_DEPTH
    decreases MAX_DEPTH - |ancestors|, 3, 0
  {
    if refs == [] then None else Some(UnfoldRefs(g, refs, ancestors))
  }

  function UnfoldRefs(g: Graph, refs: seq<SchemaRef>, ancestors: seq<Step>): seq<Shape>
    requires |ancestors| <= MAX_DEPTH
    decreases MAX_DEPTH - |ancestors|, 2, |refs|
  {
    if refs == [] then []
    else
      var rest, last := UnfoldRefs(g, refs[..|refs| - 1], ancestors), refs[|refs| - 1];
      if Resolved(g, last) then rest + [Unfold(g, StepOf(last), ancestors)] else rest
  }

  lemma {:induction false} UnfoldMarked(g: Graph, s: Step, ancestors: seq<Step>)
    requires s.id in g && |ancestors| < MAX_DEPTH && MarkerFor(ancestors, s).Some?
    ensures Unfold(g, s, ancestors) == CycleRef(g[s.id].own.kind, MarkerFor(ancestors, s).value)
  {
  }

  lemma {:induction false} UnfoldNode(g: Graph, s: Step, ancestors: seq<Step>)
    requires s.id in g && |ancestors| < MAX_DEPTH && MarkerFor(ancestors, s).None?
    ensures var schema, down := g[s.id], ancestors + [s];
      var body := Working(schema);
      Unfold(g, s, ancestors) ==
        Node(body.kind, body.attributes, UnfoldProperties(g, body.properties, down),
             UnfoldRef(g, body.items, down), UnfoldRef(g, body.additional, down),
             UnfoldList(g, schema.oneOf, down), UnfoldList(g, schema.anyOf, down),
                 UnfoldList(g, ShownAllOf(schema), down))
  {
  }

  /** Taking out what was put in restores both maps. */
  lemma {:induction false} Restored(bySchema: map<Id, string>, byRef: set<string>, s: Step)
    requires s.id !in bySchema && (s.name != "" ==> s.name !in byRef)
    ensures bySchema[s.id := s.name] - {s.id} == bySchema
    ensures var names := if s.name != "" then {s.name} else {}; byRef + names - names == byRef
  {
  }

  // --- the visit map ---------------------------------------------------------------------------------

  /** Two maps, filled on the way down and emptied on the way up. */
  class VisitMap {
    var bySchema: map<Id, string>
    var byRef: set<string>

    constructor ()
      ensures Tracks([])
    {
      bySchema, byRef := map[], {};
    }

    /** The maps hold exactly the ancestors. */
    ghost predicate Tracks(ancestors: seq<Step>)
      reads this
    {
      && (forall id :: id in bySchema <==> AncestorName(ancestors, id).Some?)
      && (forall id :: id in bySchema ==> AncestorName(ancestors, id) == Some(bySchema[id]))
      && (forall name :: name in byRef <==> name != "" && NameUsed(ancestors, name))
    }

    /** Records the schema, unless it or its `$ref` is there already. */
    method Enter(s: Step, ghost ancestors: seq<Step>) returns (marker: Option<Marker>)
      requires Tracks(ancestors)
      modifies this
      ensures marker == MarkerFor(ancestors, s)
      ensures marker.Some? ==> bySchema == old(bySchema) && byRef == old(byRef)
      ensures marker.None? ==> Tracks(ancestors + [s]) && s.id !in old(bySchema)
      ensures marker.None? && s.name != "" ==> s.name !in old(byRef)
      ensures marker.None? ==> bySchema == old(bySchema)[s.id := s.name] && byRef == old(byRef) + if s.name != ""
          then {s.name} else {}
    {
      if s.id in bySchema {
        var existing := bySchema[s.id];
        return Some(if existing != "" then Named(existing) else Inline(s.id));
      }
      if s.name != "" {
        if s.name in byRef {
          return Some(Named(s.name));
        }
        byRef := byRef + {s.name};
      }
      bySchema := bySchema[s.id := s.name];
      assert (ancestors + [s])[..|ancestors|] == ancestors;
      return None;
    }

    method Exit(s: Step)
      modifies this
      ensures bySchema == old(bySchema) - {s.id}
      ensures byRef == old(byRef) - if s.name != "" then {s.name} else {}
    {
      bySchema := bySchema - {s.id};
      if s.name != "" {
        byRef := byRef - {s.name};
      }
    }

    // --- the walk -----------------------------------------------------------------------------------

    /** Unfolds a schema and leaves both maps as they were. */
    method BuildShape(g: Graph, s: Step, depth: nat, ghost ancestors: seq<Step>) returns (shape: Shape)
      requires s.id in g && depth == |ancestors| <= MAX_DEPTH && Tracks(ancestors)
      modifies this
      ensures shape == Unfold(g, s, ancestors)
      ensures bySchema == old(bySchema) && byRef == old(byRef)
      decreases MAX_DEPTH - depth, 1, 0
    {
      var schema := g[s.id];
      if depth >= MAX_DEPTH {
        return Truncated(schema.own.kind);
      }
      hide *;
      var marker := Enter(s, ancestors);
      if marker.Some? {
        UnfoldMarked(g, s, ancestors);
        return CycleRef(schema.own.kind, marker.value);
      }
      var body := Working(schema);
      ghost var down := ancestors + [s];
      var properties := BuildProperties(g, body.properties, depth + 1, down);
      var items := BuildRef(g, body.items, depth + 1, down);
      var additional := BuildRef(g, body.additional, depth + 1, down);
      var oneOf := BuildList(g, schema.oneOf, depth + 1, down);
      var anyOf := BuildList(g, schema.anyOf, depth + 1, down);
      var allOf := BuildList(g, ShownAllOf(schema), depth + 1, down);
      shape := Node(body.kind, body.attributes, properties, items, additional, oneOf, anyOf, allOf);
      Exit(s);
      UnfoldNode(g, s, ancestors);
      Restored(old(bySchema), old(byRef), s);
    }

    /** Unfolds the properties, in any order. */
    method BuildProperties(g: Graph, properties: map<string, SchemaRef>, depth: nat, ghost ancestors: seq<Step>)
            returns (shown: Option<map<string, Shape>>)
      requires depth == |ancestors| <= MAX_DEPTH && Tracks(ancestors)
      modifies this
      ensures shown == UnfoldProperties(g, properties, ancestors)
      ensures bySchema == old(bySchema) && byRef == old(byRef)
      decreases MAX_DEPTH - depth, 2, 0
    {
      if |properties| == 0 {
        return None;
      }
      var props: map<string, Shape> := map[];
      var keys := properties.Keys;
      while keys != {}
        invariant keys <= properties.Keys && bySchema == old(bySchema) && byRef == old(byRef)
        invariant forall k :: k in props <==> k in properties && k !in keys && Resolved(g, properties[k])
        invariant forall k :: k in props ==> props[k] == Unfold(g, StepOf(properties[k]), ancestors)
        decreases |keys|
      {
        var k :| k in keys;
        keys := keys - {k};
        if Resolved(g, properties[k]) {
          var shape := BuildShape(g, StepOf(properties[k]), depth, ancestors);
          props := props[k := shape];
        }
      }
      assert props == UnfoldProperties(g, properties, ancestors).value;
      return Some(props);
    }

    method BuildRef(g: Graph, r: Option<SchemaRef>, depth: nat, ghost ancestors: seq<Step>)
            returns (shape: Option<Shape>)
      requires depth == |ancestors| <= MAX_DEPTH && Tracks(ancestors)
      modifies this
      ensures shape == UnfoldRef(g, r, ancestors)
      ensures bySchema == old(bySchema) && byRef == old(byRef)
      decreases MAX_DEPTH - depth, 2, 0
    {
      if r.Some? && Resolved(g, r.value) {
        var child := BuildShape(g, StepOf(r.value), depth, ancestors);
        return Some(child);
      }
      return None;
    }

    method BuildList(g: Graph, refs: seq<SchemaRef>, depth: nat, ghost ancestors: seq<Step>)
            returns (out: Option<seq<Shape>>)
      requires depth == |ancestors| <= MAX_DEPTH && Tracks(ancestors)
      modifies this
      ensures out == UnfoldList(g, refs, ancestors)
      ensures bySchema == old(bySchema) && byRef == old(byRef)
      decreases MAX_DEPTH - depth, 3, 0
    {
      if |refs| == 0 {
        return None;
      }
      var shapes := RenderSchemaRefs(g, refs, depth, ancestors);
      return Some(shapes);
    }

    method RenderSchemaRefs(g: Graph, refs: seq<SchemaRef>, depth: nat, ghost ancestors: seq<Step>)
            returns (out: seq<Shape>)
      requires depth == |ancestors| <= MAX_DEPTH && Tracks(ancestors)
      modifies this
      ensures out == UnfoldRefs(g, refs, ancestors)
      ensures bySchema == old(bySchema) && byRef == old(byRef)
      decreases MAX_DEPTH - depth, 2, 0
    {
      out := [];
      var i := 0;
      while i < |refs|
        invariant 0 <= i <= |refs| && bySchema == old(bySchema) && byRef == old(byRef)
        invariant out == UnfoldRefs(g, refs[..i], ancestors)
      {
        assert refs[..i + 1][..i] == refs[..i];
        if Resolved(g, refs[i]) {
          var shape := BuildShape(g, StepOf(refs[i]), depth, ancestors);
          out := out + [shape];
        }
        i := i + 1;
      }
      assert refs[..i] == refs;
    }
  }
}
