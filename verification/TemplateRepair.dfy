/** FixTemplate: repeated passes, what they preserve, and when ten of them are enough. */
module TemplateRepair {
  import opened Wrappers
  import opened TemplateAst
  import opened TemplateFix
  import opened TemplateAssign
  import opened GoStrings

  // --- the single-line pass -----------------------------------------------------------------

  /** At most one text, and no brace in it: what the pattern allows for value and fallback. */
  predicate PlainText(nodes: seq<Node>) {
    nodes == [] || (|nodes| == 1 && nodes[0].Text? && '{' !in nodes[0].text)
  }

  function PlainTextOf(nodes: seq<Node>): string
    requires PlainText(nodes)
  {
    if nodes == [] then "" else nodes[0].text
  }

  predicate InlineChained(node: Node) {
    ChainedWith(node) && node.els.Some? && PlainText(node.body) && PlainText(node.els.value.body)
  }

  function FixedInline(node: Node): Node
    requires InlineChained(node)
  {
    var guard := Block(If, node.trim, IsMap(Dot), [InnerWith(node)], node.els, node.end);
    Block(With, node.trim, Index(node.e.base, [node.e.keys[0]]), [guard], None, node.end)
  }

  function FixInlineNode(node: Node): Node {
    if InlineChained(node) then FixedInline(node)
    else if node.Block? then
      node.(body := FixInline(node.body),
            els := match node.els case None => None case Some(l) => Some(l.(body := FixInline(l.body))))
    else node
  }

  function FixInline(nodes: seq<Node>): seq<Node> {
    if nodes == [] then [] else [FixInlineNode(nodes[0])] + FixInline(nodes[1..])
  }

  /** No block anywhere is what the single-line pattern looks for. */
  predicate InlineFree(nodes: seq<Node>) {
    forall i :: 0 <= i < |nodes| ==> InlineFreeNode(nodes[i])
  }

  predicate InlineFreeNode(node: Node) {
    && !InlineChained(node)
    && (node.Block? ==>
      && (forall i :: 0 <= i < |node.body| ==> InlineFreeNode(node.body[i]))
      && (node.els.Some? ==> forall i :: 0 <= i < |node.els.value.body| ==> InlineFreeNode(node.els.value.body[i])))
  }

  lemma {:induction false} FixInlineNodeIdleExactly(node: Node)
    ensures FixInlineNode(node) == node <==> InlineFreeNode(node)
  {
    if InlineChained(node) {
      assert FixedInline(node).body[0].Block?;
    } else if node.Block? {
      FixInlineIdleExactly(node.body);
      if node.els.Some? { FixInlineIdleExactly(node.els.value.body); }
    }
  }

  /**
   The single-line step leaves a template as it is exactly when no block has plain text alone in
   both its branches.
   */
  lemma {:induction false} FixInlineIdleExactly(nodes: seq<Node>)
    ensures FixInline(nodes) == nodes <==> InlineFree(nodes)
  {
    if nodes != [] {
      FixInlineNodeIdleExactly(nodes[0]);
      FixInlineIdleExactly(nodes[1..]);
      assert [nodes[0]] + nodes[1..] == nodes;
      assert FixInline(nodes)[0] == FixInlineNode(nodes[0]) && FixInline(nodes)[1..] == FixInline(nodes[1..]);
    }
  }

  const BARE_TO_JSON: Node := Action(Trim(" ", " "), Call("toJson", [Dot]))

  /** The block that the step is documented with: {{ with index . k ... }}{{ toJson . }}{{ else }}null{{ end }} */
  function Documented(t: Trim, keys: seq<string>): Node {
    Block(With, t, Index(Dot, keys), [BARE_TO_JSON], Some(Else(t, [Text("null")])), t)
  }

  lemma {:induction false} DocumentedIsLeft(t: Trim, keys: seq<string>)
    ensures FixInline([Documented(t, keys)]) == [Documented(t, keys)]
  {
    var node := Documented(t, keys);
    assert !PlainText(node.body) && !InlineChained(node);
    assert InlineFreeNode(BARE_TO_JSON) && InlineFreeNode(Text("null"));
    assert InlineFree(node.body) && InlineFree(node.els.value.body);
    assert InlineFreeNode(node);
    FixInlineIdleExactly([node]);
  }

  lemma {:induction false} NoElseIsInlineFree(nodes: seq<Node>)
    requires NoChainedElse(nodes)
    ensures InlineFree(nodes)
  {
    forall i | 0 <= i < |nodes| ensures InlineFreeNode(nodes[i]) {
      var node := nodes[i];
      if node.Block? {
        NoElseIsInlineFree(node.body);
        if node.els.Some? { NoElseIsInlineFree(node.els.value.body); }
      }
    }
  }

  lemma {:induction false} PlainTextRuns(b: Builtins, nodes: seq<Node>, dot: Value, env: Env)
    requires PlainText(nodes)
    ensures Eval(b, nodes, dot, env) == Ok(PlainTextOf(nodes), env)
  {
    if nodes != [] {
      assert nodes == [nodes[0]];
      EvalSingle(b, nodes[0], dot, env);
    }
  }

  /** How an inline repair runs when the original index expression is no error. */
  lemma {:induction false} FixedInlineRuns(b: Builtins, node: Node, dot: Value, env: Env)
    requires InlineChained(node) && EvalExpr(b, node.e, dot, env).Some?
    ensures FirstValue(b, node, dot, env).Some?
    ensures var m := FirstValue(b, node, dot, env).value;
      EvalNode(b, FixedInline(node), dot, env) == if Truth(m) then Popped(EvalNode(b, InnerWith(node), m, env), |env|)
          else Ok("", env)
    ensures EvalExpr(b, InnerWith(node).e, FirstValue(b, node, dot, env).value, env) == EvalExpr(b, node.e, dot, env)
  {
    IndexMore(EvalExpr(b, node.e.base, dot, env).value, node.e.keys);
    var m := FirstValue(b, node, dot, env).value;
    var inner, fixed := InnerWith(node), FixedInline(node);
    var guard := fixed.body[0];
    EvalSingle(b, inner, m, env);
    EvalSingle(b, guard, m, env);
    assert EvalExpr(b, guard.e, m, env) == Some(Leaf("true", true));
    assert EvalExpr(b, fixed.e, dot, env) == Some(m);
    assert fixed.body == [guard];
  }

  /**
   The inline repair carries the fallback along, and is right exactly when the value found is
   true, or the first key led to a non-empty map, or the fallback is empty.
   */
  lemma {:induction false} InlineElseKeepsMeaningExactly(b: Builtins, node: Node, dot: Value, env: Env)
    requires InlineChained(node) && EvalNode(b, node, dot, env).Ok?
    ensures FirstValue(b, node, dot, env).Some? && EvalExpr(b, node.e, dot, env).Some?
    ensures EvalNode(b, FixedInline(node), dot, env) == EvalNode(b, node, dot, env) <==>
      || Truth(EvalExpr(b, node.e, dot, env).value)
      || Truth(FirstValue(b, node, dot, env).value)
      || PlainTextOf(node.els.value.body) == ""
  {
    FixedInlineRuns(b, node, dot, env);
    var m, v := FirstValue(b, node, dot, env).value, EvalExpr(b, node.e, dot, env).value;
    var fallback := node.els.value.body;
    hide FixedInline;
    if Truth(v) {
      PlainTextRuns(b, node.body, v, env);
      if !Truth(m) {
        IndexEmpty(node.e.keys[1..]);
      }
    } else {
      PlainTextRuns(b, fallback, m, env);
      PlainTextRuns(b, fallback, dot, env);
      assert env[..|env|] == env;
    }
  }

  /** On a value that is no map, so on a list, the inline repair prints the fallback. */
  lemma {:induction false} FixedInlineOnAnyValue(b: Builtins, node: Node, dot: Value, env: Env)
    requires InlineChained(node)
    ensures EvalNode(b, FixedInline(node), dot, env) ==
      match FirstValue(b, node, dot, env)
      case None => Fail
      case Some(m) =>
        if !Truth(m) then Ok("", env)
        else if m.Dict? then Popped(EvalNode(b, InnerWith(node), m, env), |env|)
        else Ok(PlainTextOf(node.els.value.body), env)
  {
    var first := FirstValue(b, node, dot, env);
    var inner, fixed := InnerWith(node), FixedInline(node);
    assert EvalExpr(b, fixed.e, dot, env) == first;
    if first.Some? {
      var m, guard := first.value, fixed.body[0];
      assert fixed.body == [guard] && env[..|env|] == env;
      EvalSingle(b, guard, m, env);
      if m.Dict? {
        assert EvalExpr(b, guard.e, m, env) == Some(Leaf("true", true));
        EvalSingle(b, inner, m, env);
      } else {
        assert EvalExpr(b, guard.e, m, env) == Some(Leaf("false", false));
        PlainTextRuns(b, node.els.value.body, m, env);
      }
    }
  }

  // --- passes ------------------------------------------------------------------------------------

  function Pass(nodes: seq<Node>): seq<Node> {
    FixAssign(FixWith(FixInline(nodes)))
  }

  function Passes(nodes: seq<Node>, n: nat): seq<Node> {
    if n == 0 then nodes else Pass(Passes(nodes, n - 1))
  }

  lemma {:induction false} StableAfter(nodes: seq<Node>, n: nat, later: nat)
    requires n <= later && Pass(Passes(nodes, n)) == Passes(nodes, n)
    ensures Passes(nodes, later) == Passes(nodes, n)
  {
    if later > n {
      StableAfter(nodes, n, later - 1);
    }
  }

  const GUARDED_TO_JSON: Node :=
    Block(If, Trim("- ", " -"), Dot, [BARE_TO_JSON], Some(Else(Trim("- ", " -"), [Text("null")])), Trim("- ", " -"))

  predicate AllSpace(s: string) {
    forall i :: 0 <= i < |s| ==> IsSpace(s[i])
  }

  predicate Blank(node: Node) {
    node.Text? && AllSpace(node.text)
  }

  function StripFront(nodes: seq<Node>): seq<Node> {
    if nodes != [] && Blank(nodes[0]) then StripFront(nodes[1..]) else nodes
  }

  function StripBack(nodes: seq<Node>): seq<Node> {
    if nodes != [] && Blank(nodes[|nodes| - 1]) then StripBack(nodes[..|nodes| - 1]) else nodes
  }

  /** The template is a bare `toJson .`, with white space around it at most. */
  predicate IsBareToJson(body: seq<Node>) {
    StripBack(StripFront(body)) == [BARE_TO_JSON]
  }

  /** Stops early once a pass changes nothing; the result is that of all ten passes. */
  method FixTemplate(body: seq<Node>, isXml: bool) returns (r: Option<seq<Node>>)
    ensures IsBareToJson(body) ==> r == Some([GUARDED_TO_JSON])
    ensures !IsBareToJson(body) ==>
      var fixed := if isXml then Passes(body, 10) else body;
      r == if fixed == body then None else Some(fixed)
  {
    if IsBareToJson(body) {
      return Some([GUARDED_TO_JSON]);
    }
    var fixed := body;
    if isXml {
      for i := 0 to 10
        invariant fixed == Passes(body, i)
      {
        var prev := fixed;
        fixed := FixInline(fixed);
        fixed := FixWith(fixed);
        fixed := FixAssign(fixed);
        if fixed == prev {
          StableAfter(body, i, 10);
          break;
        }
      }
    }
    if fixed == body {
      return None;
    }
    return Some(fixed);
  }

  // --- meaning ------------------------------------------------------------------------------------

  /** Wherever the template runs without error, its repair runs without error and prints the same. */
  ghost predicate KeepsOutput(nodes: seq<Node>, fixed: seq<Node>) {
    forall b: Builtins, dot: Value :: Eval(b, nodes, dot, Start(dot)).Ok? ==>
      Eval(b, fixed, dot, Start(dot)).Ok? && Eval(b, fixed, dot, Start(dot)).out == Eval(b, nodes, dot, Start(dot)).out
  }

  predicate NoChainedDecl(nodes: seq<Node>) {
    forall i :: 0 <= i < |nodes| ==> NoChainedDeclNode(nodes[i])
  }

  predicate NoChainedDeclNode(node: Node) {
    && !ChainedDecl(node)
    && (node.Block? ==>
      && (forall i :: 0 <= i < |node.body| ==> NoChainedDeclNode(node.body[i]))
      && (node.els.Some? ==> forall i :: 0 <= i < |node.els.value.body| ==> NoChainedDeclNode(node.els.value.body[i])))
  }

  lemma {:induction false} FixAssignIdle(nodes: seq<Node>)
    requires NoChainedDecl(nodes)
    ensures FixAssign(nodes) == nodes
  {
    if nodes != [] {
      var node := nodes[0];
      if node.Block? {
        FixAssignIdle(node.body);
        if node.els.Some? { FixAssignIdle(node.els.value.body); }
      }
      FixAssignIdle(nodes[1..]);
      assert [node] + nodes[1..] == nodes;
    }
  }

  lemma {:induction false} FixAssignClears(nodes: seq<Node>)
    ensures NoChainedDecl(FixAssign(nodes))
  {
    if nodes != [] {
      FixAssignNodeClears(nodes[0]);
      FixAssignClears(nodes[1..]);
    }
  }

  lemma {:induction false} FixAssignNodeClears(node: Node)
    ensures NoChainedDecl(FixAssignNode(node))
  {
    if node.Block? {
      FixAssignClears(node.body);
      if node.els.Some? { FixAssignClears(node.els.value.body); }
    }
  }

  lemma {:induction false} FixWithKeepsNoDecl(nodes: seq<Node>)
    requires NoChainedDecl(nodes)
    ensures NoChainedDecl(FixWith(nodes))
  {
    if nodes != [] {
      FixWithNodeKeepsNoDecl(nodes[0]);
      FixWithKeepsNoDecl(nodes[1..]);
    }
  }

  lemma {:induction false} FixWithNodeKeepsNoDecl(node: Node)
    requires NoChainedDeclNode(node)
    ensures NoChainedDeclNode(FixWithNode(node))
  {
    if ChainedWith(node) {
      var inner, fixed := InnerWith(node), FixedWith(node);
      assert NoChainedDeclNode(inner);
      var guard := fixed.body[0];
      assert NoChainedDeclNode(guard.els.value.body[0]);
      assert NoChainedDeclNode(guard);
    } else if node.Block? {
      FixWithKeepsNoDecl(node.body);
      if node.els.Some? { FixWithKeepsNoDecl(node.els.value.body); }
    }
  }

  lemma {:induction false} FixWithKeepsNoElse(nodes: seq<Node>)
    requires NoChainedElse(nodes)
    ensures NoChainedElse(FixWith(nodes))
  {
    if nodes != [] {
      FixWithNodeKeepsNoElse(nodes[0]);
      FixWithKeepsNoElse(nodes[1..]);
    }
  }

  lemma {:induction false} FixWithNodeKeepsNoElse(node: Node)
    requires NoChainedElseNode(node)
    ensures NoChainedElseNode(FixWithNode(node))
  {
    if ChainedWith(node) {
      var inner, fixed := InnerWith(node), FixedWith(node);
      assert NoChainedElseNode(inner);
      var guard := fixed.body[0];
      assert NoChainedElseNode(guard.els.value.body[0]);
      assert NoChainedElseNode(guard);
    } else if node.Block? {
      FixWithKeepsNoElse(node.body);
      if node.els.Some? { FixWithKeepsNoElse(node.els.value.body); }
    }
  }

  lemma {:induction false} FixAssignKeepsNoElse(nodes: seq<Node>)
    requires NoChainedElse(nodes)
    ensures NoChainedElse(FixAssign(nodes))
  {
    if nodes != [] {
      FixAssignNodeKeepsNoElse(nodes[0]);
      FixAssignKeepsNoElse(nodes[1..]);
    }
  }

  lemma {:induction false} FixAssignNodeKeepsNoElse(node: Node)
    requires NoChainedElseNode(node)
    ensures NoChainedElse(FixAssignNode(node))
  {
    if node.Block? {
      FixAssignKeepsNoElse(node.body);
      if node.els.Some? { FixAssignKeepsNoElse(node.els.value.body); }
    }
  }

  lemma {:induction false} FixWithAvoids(tmps: set<string>, nodes: seq<Node>)
    requires Avoids(tmps, nodes)
    ensures Avoids(tmps, FixWith(nodes))
  {
    if nodes != [] {
      FixWithNodeAvoids(tmps, nodes[0]);
      FixWithAvoids(tmps, nodes[1..]);
    }
  }

  lemma {:induction false} FixWithNodeAvoids(tmps: set<string>, node: Node)
    requires AvoidsNode(tmps, node)
    ensures AvoidsNode(tmps, FixWithNode(node))
  {
    if ChainedWith(node) {
      var inner, fixed := InnerWith(node), FixedWith(node);
      assert AvoidsNode(tmps, inner);
      var guard := fixed.body[0];
      assert AvoidsNode(tmps, guard.els.value.body[0]);
      assert AvoidsNode(tmps, guard);
    } else if node.Block? {
      FixWithAvoids(tmps, node.body);
      if node.els.Some? { FixWithAvoids(tmps, node.els.value.body); }
    }
  }

  lemma {:induction false} RepairNamesSingle(node: Node)
    ensures RepairNames([node]) == RepairNamesNode(node)
  {
    assert [node][1..] == [];
  }

  lemma {:induction false} FixWithRepairNames(nodes: seq<Node>)
    ensures RepairNames(FixWith(nodes)) == RepairNames(nodes)
  {
    if nodes != [] {
      FixWithNodeRepairNames(nodes[0]);
      FixWithRepairNames(nodes[1..]);
    }
  }

  lemma {:induction false} FixWithNodeRepairNames(node: Node)
    ensures RepairNamesNode(FixWithNode(node)) == RepairNamesNode(node)
  {
    if ChainedWith(node) {
      var inner, fixed := InnerWith(node), FixedWith(node);
      var guard := fixed.body[0];
      RepairNamesSingle(inner);
      RepairNamesSingle(guard);
      RepairNamesSingle(guard.els.value.body[0]);
    } else if node.Block? {
      FixWithRepairNames(node.body);
      if node.els.Some? { FixWithRepairNames(node.els.value.body); }
    }
  }

  lemma {:induction false} PassKeepsOutput(nodes: seq<Node>)
    requires NoChainedElse(nodes) && (TmpFree(nodes) || NoChainedDecl(nodes))
    ensures KeepsOutput(nodes, Pass(nodes)) && NoChainedElse(Pass(nodes)) && NoChainedDecl(Pass(nodes))
  {
    NoElseIsInlineFree(nodes);
    FixInlineIdleExactly(nodes);
    var fixed := FixWith(nodes);
    FixWithKeepsNoElse(nodes);
    FixAssignKeepsNoElse(fixed);
    FixAssignClears(fixed);
    if NoChainedDecl(nodes) {
      FixWithKeepsNoDecl(nodes);
      FixAssignIdle(fixed);
    } else {
      FixWithAvoids(RepairNames(nodes), nodes);
      FixWithRepairNames(nodes);
    }
    forall b: Builtins, dot: Value | Eval(b, nodes, dot, Start(dot)).Ok?
      ensures Eval(b, Pass(nodes), dot, Start(dot)).Ok?
      ensures Eval(b, Pass(nodes), dot, Start(dot)).out == Eval(b, nodes, dot, Start(dot)).out
    {
      FixWithKeepsMeaning(b, nodes, dot, Start(dot));
      if !NoChainedDecl(nodes) {
        StartKept(nodes, dot);
        FixAssignKeepsMeaning(RepairNames(nodes), b, fixed, dot, Start(dot));
      }
    }
  }

  lemma {:induction false} PassesKeepOutput(nodes: seq<Node>, n: nat)
    requires NoChainedElse(nodes) && TmpFree(nodes)
    ensures KeepsOutput(nodes, Passes(nodes, n)) && NoChainedElse(Passes(nodes, n))
    ensures n > 0 ==> NoChainedDecl(Passes(nodes, n))
  {
    if n > 0 {
      PassesKeepOutput(nodes, n - 1);
      PassKeepsOutput(Passes(nodes, n - 1));
    }
  }

  lemma {:induction false} BareToJsonRuns(b: Builtins, dot: Value, env: Env)
    ensures EvalExpr(b, BARE_TO_JSON.e, dot, env) == b.call("toJson", [dot])
  {
    assert [Dot][1..] == [] && EvalArgs(b, [], dot, env) == Some([]);
    var args: seq<Expr> := [Dot];
    assert EvalExpr(b, args[0], dot, env) == Some(dot) && [dot] + [] == [dot];
    assert EvalArgs(b, args, dot, env) == Some([dot]);
  }

  lemma {:induction false} FrontPrints(b: Builtins, nodes: seq<Node>, dot: Value, env: Env) returns (lead: string)
    ensures AllSpace(lead) && Eval(b, nodes, dot, env) == Prepend(lead, Eval(b, StripFront(nodes), dot, env))
  {
    lead := "";
    var r := Eval(b, nodes, dot, env);
    if nodes != [] && Blank(nodes[0]) {
      var rest := FrontPrints(b, nodes[1..], dot, env);
      lead := nodes[0].text + rest;
      var e := Eval(b, StripFront(nodes), dot, env);
      assert e.Ok? ==> nodes[0].text + (rest + e.out) == lead + e.out;
    } else {
      assert r.Ok? ==> "" + r.out == r.out;
    }
  }

  lemma {:induction false} LastPrints(b: Builtins, front: seq<Node>, last: Node, dot: Value, env: Env)
    requires Eval(b, front, dot, env).Ok? && last.Text?
    ensures Eval(b, front + [last], dot, env) ==
        Ok(Eval(b, front, dot, env).out + last.text, Eval(b, front, dot, env).env)
  {
    EvalConcat(b, front, [last], dot, env);
    EvalSingle(b, last, dot, Eval(b, front, dot, env).env);
  }

  lemma {:induction false} BarePrints(b: Builtins, dot: Value, env: Env, json: Value)
    requires b.call("toJson", [dot]) == Some(json)
    ensures Eval(b, [BARE_TO_JSON], dot, env) == Ok(b.show(json), env)
  {
    BareToJsonRuns(b, dot, env);
    EvalSingle(b, BARE_TO_JSON, dot, env);
  }

  lemma {:induction false} BackPrints(b: Builtins, nodes: seq<Node>, dot: Value, env: Env) returns (trail: string)
    requires Eval(b, StripBack(nodes), dot, env).Ok?
    ensures AllSpace(trail)
    ensures Eval(b, nodes, dot, env) ==
        Ok(Eval(b, StripBack(nodes), dot, env).out + trail, Eval(b, StripBack(nodes), dot, env).env)
  {
    hide EvalNode, EvalRange, IsSpace, StripFront;
    trail := "";
    var e := Eval(b, StripBack(nodes), dot, env);
    if nodes != [] && Blank(nodes[|nodes| - 1]) {
      var front, last := nodes[..|nodes| - 1], nodes[|nodes| - 1];
      var before := BackPrints(b, front, dot, env);
      LastPrints(b, front, last, dot, env);
      assert front + [last] == nodes;
      trail := before + last.text;
      assert (e.out + before) + last.text == e.out + trail;
    } else {
      assert e.out + "" == e.out;
    }
  }

  /** A bare `toJson .` prints its JSON and the white space around it. */
  lemma {:induction false} BareToJsonPrints(b: Builtins, body: seq<Node>, dot: Value, env: Env, json: Value)
          returns (lead: string, trail: string)
    requires IsBareToJson(body) && b.call("toJson", [dot]) == Some(json)
    ensures AllSpace(lead) && AllSpace(trail) && Eval(b, body, dot, env) == Ok(lead + (b.show(json) + trail), env)
    ensures body == [BARE_TO_JSON] ==> lead == trail == ""
  {
    BarePrints(b, dot, env, json);
    hide EvalNode, EvalRange, IsSpace;
    if body == [BARE_TO_JSON] {
      lead, trail := "", "";
      assert "" + (b.show(json) + "") == b.show(json);
    } else {
      lead := FrontPrints(b, body, dot, env);
      trail := BackPrints(b, StripFront(body), dot, env);
    }
  }

  lemma {:induction false} GuardPrints(b: Builtins, dot: Value, env: Env, json: Value)
    requires b.call("toJson", [dot]) == Some(json)
    ensures Eval(b, [GUARDED_TO_JSON], dot, env) == Ok(if Truth(dot) then b.show(json) else "null", env)
  {
    BarePrints(b, dot, env, json);
    EvalSingle(b, GUARDED_TO_JSON, dot, env);
    EvalSingle(b, Text("null"), dot, env);
  }

  /**
   The guard put for a bare `toJson .` prints the same, but for the white space around it, exactly
   where `.` is true or its JSON is null.
   */
  lemma {:induction false} ToJsonGuardExactly(b: Builtins, body: seq<Node>, dot: Value, env: Env, json: Value)
          returns (lead: string, trail: string)
    requires IsBareToJson(body) && b.call("toJson", [dot]) == Some(json)
    ensures AllSpace(lead) && AllSpace(trail) && (body == [BARE_TO_JSON] ==> lead == trail == "")
    ensures Eval(b, [GUARDED_TO_JSON], dot, env).Ok?
    ensures Eval(b, body, dot, env) == Ok(lead + (Eval(b, [GUARDED_TO_JSON], dot, env).out + trail), env) <==>
        Truth(dot) || b.show(json) == "null"
  {
    hide Eval, IsBareToJson, AllSpace;
    lead, trail := BareToJsonPrints(b, body, dot, env, json);
    GuardPrints(b, dot, env, json);
    Between(lead, b.show(json), "null", trail);
  }

  lemma {:induction false} Between(lead: string, x: string, y: string, trail: string)
    ensures lead + (x + trail) == lead + (y + trail) <==> x == y
  {
    if lead + (x + trail) == lead + (y + trail) {
      assert (lead + (x + trail))[|lead|..] == x + trail && (lead + (y + trail))[|lead|..] == y + trail;
      assert |x| == |y| && (x + trail)[..|x|] == x && (y + trail)[..|y|] == y;
    }
  }
}
