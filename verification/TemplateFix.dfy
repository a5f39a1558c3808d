/** The chained-index repairs of pkg/stream_transform/template_fixer.go, on template syntax. */
module TemplateFix {
  import opened Wrappers
  import opened TemplateAst

  /** An operand written without white space; `Call` with no arguments is a field. */
  predicate OneWord(e: Expr) {
    e.Dot? || e.Var? || (e.Call? && e.args == [])
  }

  /** What the patterns look for: one word, indexed by several keys. */
  predicate ChainedIndex(e: Expr) {
    e.Index? && |e.keys| >= 2 && OneWord(e.base)
  }

  // --- {{ with index e "k1" "k2" ... }} ---------------------------------------------------

  predicate ChainedWith(node: Node) {
    node.Block? && node.kind == With && ChainedIndex(node.e)
  }

  /** The inner block both branches of the repair share: the rest of the keys, then the old body. */
  function InnerWith(node: Node): Node
    requires ChainedWith(node)
  {
    Block(With, node.trim, Index(Dot, node.e.keys[1..]), node.body, node.els, node.end)
  }

  function FixedWith(node: Node): Node
    requires ChainedWith(node)
  {
    var t, inner := node.trim, InnerWith(node);
    var overList := Block(Range, t, Dot, [inner], None, t);
    var guard := Block(If, t, IsMap(Dot), [inner], Some(Else(t, [overList])), t);
    Block(With, t, Index(node.e.base, [node.e.keys[0]]), [guard], None, node.end)
  }

  /** One pass: the outermost chained `with` blocks are repaired, their bodies copied as they are. */
  function FixWithNode(node: Node): Node {
    if !node.Block? then node
    else if ChainedWith(node) then FixedWith(node)
    else node.(body := FixWith(node.body), els := FixWithElse(node.els))
  }

  function FixWithElse(els: Option<Else>): Option<Else> {
    match els case None => None case Some(l) => Some(l.(body := FixWith(l.body)))
  }

  function FixWith(nodes: seq<Node>): (fixed: seq<Node>)
    ensures |fixed| == |nodes|
  {
    if nodes == [] then [] else [FixWithNode(nodes[0])] + FixWith(nodes[1..])
  }

  /** No chained `with` block anywhere has an else branch. */
  predicate NoChainedElse(nodes: seq<Node>) {
    forall i :: 0 <= i < |nodes| ==> NoChainedElseNode(nodes[i])
  }

  predicate NoChainedElseNode(node: Node) {
    node.Block? ==>
      && (ChainedWith(node) ==> node.els.None?)
      && (forall i :: 0 <= i < |node.body| ==> NoChainedElseNode(node.body[i]))
      && (node.els.Some? ==> forall i :: 0 <= i < |node.els.value.body| ==> NoChainedElseNode(node.els.value.body[i]))
  }

  lemma {:induction false} IndexMore(v: Value, keys: seq<string>)
    requires |keys| >= 2 && IndexKeys(v, keys).Some?
    ensures IndexKeys(v, [keys[0]]).Some? && IndexKeys(v, [keys[0]]).value.Dict?
    ensures IndexKeys(v, keys) == IndexKeys(IndexKeys(v, [keys[0]]).value, keys[1..])
  {
    var w := if keys[0] in v.entries then v.entries[keys[0]] else Nil;
    assert [keys[0]][1..] == [];
    assert IndexKeys(v, [keys[0]]) == Some(w);
  }

  /** Indexing an empty map by one key yields nil, and by more keys is an error. */
  lemma {:induction false} IndexEmpty(keys: seq<string>)
    requires keys != []
    ensures IndexKeys(Dict(map[]), keys) == if |keys| == 1 then Some(Nil) else None
  {
    assert IndexKeys(Dict(map[]), keys) == IndexKeys(Nil, keys[1..]);
  }

  /** A value the first key leads to; it is what the repaired block makes its `.`. */
  function FirstValue(b: Builtins, node: Node, dot: Value, env: Env): Option<Value>
    requires ChainedWith(node)
  {
    match EvalExpr(b, node.e.base, dot, env) case None => None case Some(v) => IndexKeys(v, [node.e.keys[0]])
  }

  /** How a repaired block runs when the original index expression is no error. */
  lemma {:induction false} FixedWithRuns(b: Builtins, node: Node, dot: Value, env: Env)
    requires ChainedWith(node) && EvalExpr(b, node.e, dot, env).Some?
    ensures FirstValue(b, node, dot, env).Some? && FirstValue(b, node, dot, env).value.Dict?
    ensures var m := FirstValue(b, node, dot, env).value;
      EvalNode(b, FixedWith(node), dot, env) == if Truth(m) then Popped(EvalNode(b, InnerWith(node), m, env), |env|)
          else Ok("", env)
    ensures EvalExpr(b, InnerWith(node).e, FirstValue(b, node, dot, env).value, env) == EvalExpr(b, node.e, dot, env)
  {
    var v := EvalExpr(b, node.e.base, dot, env).value;
    IndexMore(v, node.e.keys);
    var m := FirstValue(b, node, dot, env).value;
    var inner, fixed := InnerWith(node), FixedWith(node);
    var guard := fixed.body[0];
    EvalSingle(b, inner, m, env);
    EvalSingle(b, guard, m, env);
    assert EvalExpr(b, guard.e, m, env) == Some(Leaf("true", true));
    assert EvalNode(b, guard, m, env) == Popped(Eval(b, [inner], m, env), |env|);
    assert EvalExpr(b, fixed.e, dot, env) == Some(m);
    assert fixed.body == [guard];
  }

  /** The inner block evaluates the old body with what the remaining keys lead to from its `.`. */
  lemma {:induction false} InnerWithRuns(b: Builtins, node: Node, m: Value, env: Env)
    requires ChainedWith(node)
    ensures EvalNode(b, InnerWith(node), m, env) ==
      match IndexKeys(m, node.e.keys[1..])
      case None => Fail
      case Some(v) =>
        if Truth(v) then Popped(Eval(b, node.body, v, env), |env|)
        else match node.els case None => Ok("", env) case Some(l) => Popped(Eval(b, l.body, m, env), |env|)
  {
    assert EvalExpr(b, Index(Dot, node.e.keys[1..]), m, env) == IndexKeys(m, node.e.keys[1..]);
  }

  /**
   What a repaired block does with any value its first key leads to: nothing if that is false,
   the inner block on a map, and on anything else, so on a list, the inner block on each element.
   */
  lemma {:induction false} FixedWithOnAnyValue(b: Builtins, node: Node, dot: Value, env: Env)
    requires ChainedWith(node)
    ensures EvalNode(b, FixedWith(node), dot, env) ==
      match FirstValue(b, node, dot, env)
      case None => Fail
      case Some(m) =>
        if !Truth(m) then Ok("", env)
        else if m.Dict? then Popped(EvalNode(b, InnerWith(node), m, env), |env|)
        else match b.elements(m)
          case None => Fail
          case Some(items) => Popped(EvalRange(b, [InnerWith(node)], items, env), |env|)
  {
    var first := FirstValue(b, node, dot, env);
    var inner, fixed := InnerWith(node), FixedWith(node);
    assert EvalExpr(b, fixed.e, dot, env) == first;
    if first.Some? {
      var m, guard := first.value, fixed.body[0];
      assert fixed.body == [guard];
      EvalSingle(b, guard, m, env);
      if m.Dict? {
        EvalSingle(b, inner, m, env);
        assert EvalExpr(b, guard.e, m, env) == Some(Leaf("true", true));
      } else {
        var overList := guard.els.value.body[0];
        assert guard.els.value.body == [overList];
        EvalSingle(b, overList, m, env);
        assert EvalExpr(b, guard.e, m, env) == Some(Leaf("false", false));
        OverListRuns(b, node, m, env);
      }
    }
  }

  lemma {:induction false} OverListRuns(b: Builtins, node: Node, m: Value, env: Env)
    requires ChainedWith(node)
    ensures EvalNode(b, Block(Range, node.trim, Dot, [InnerWith(node)], None, node.trim), m, env) ==
      match b.elements(m)
      case None => Fail
      case Some(items) => EvalRange(b, [InnerWith(node)], items, env)
  {
    assert EvalExpr(b, Dot, m, env) == Some(m);
  }

  /** The repair of one block without an else branch keeps its meaning wherever it had one. */
  lemma {:induction false} FixedWithKeepsMeaning(b: Builtins, node: Node, dot: Value, env: Env)
    requires ChainedWith(node) && node.els.None? && EvalNode(b, node, dot, env).Ok?
    ensures EvalNode(b, FixedWith(node), dot, env) == EvalNode(b, node, dot, env)
  {
    FixedWithRuns(b, node, dot, env);
    var m := FirstValue(b, node, dot, env).value;
    if Truth(m) {
      var v := EvalExpr(b, node.e, dot, env).value;
      if !Truth(v) {
        assert env[..|env|] == env;
      }
    } else {
      IndexEmpty(node.e.keys[1..]);
    }
  }

  lemma {:induction false} FixWithNodeKeepsMeaning(b: Builtins, node: Node, dot: Value, env: Env)
    requires NoChainedElseNode(node) && EvalNode(b, node, dot, env).Ok?
    ensures EvalNode(b, FixWithNode(node), dot, env) == EvalNode(b, node, dot, env)
    decreases node, 1, 0
  {
    if ChainedWith(node) {
      FixedWithKeepsMeaning(b, node, dot, env);
    } else if node.Block? {
      var v := EvalExpr(b, node.e, dot, env).value;
      if node.kind == Range {
        var items := b.elements(v).value;
        if items != [] {
          FixWithRangeKeepsMeaning(b, node.body, items, env);
        } else if node.els.Some? {
          FixWithKeepsMeaning(b, node.els.value.body, dot, env);
        }
      } else if Truth(v) {
        FixWithKeepsMeaning(b, node.body, if node.kind == With then v else dot, env);
      } else if node.els.Some? {
        FixWithKeepsMeaning(b, node.els.value.body, dot, env);
      }
    }
  }

  /** One `with` pass keeps output and variables, wherever the template ran without error. */
  lemma {:induction false} FixWithKeepsMeaning(b: Builtins, nodes: seq<Node>, dot: Value, env: Env)
    requires NoChainedElse(nodes) && Eval(b, nodes, dot, env).Ok?
    ensures Eval(b, FixWith(nodes), dot, env) == Eval(b, nodes, dot, env)
    decreases nodes, 0, 0
  {
    if nodes != [] {
      FixWithNodeKeepsMeaning(b, nodes[0], dot, env);
      FixWithKeepsMeaning(b, nodes[1..], dot, EvalNode(b, nodes[0], dot, env).env);
    }
  }

  lemma {:induction false} FixWithRangeKeepsMeaning(b: Builtins, body: seq<Node>, items: seq<Value>, env: Env)
    requires NoChainedElse(body) && EvalRange(b, body, items, env).Ok?
    ensures EvalRange(b, FixWith(body), items, env) == EvalRange(b, body, items, env)
    decreases body, 2, |items|
  {
    if items != [] {
      FixWithKeepsMeaning(b, body, items[0], env);
      FixWithRangeKeepsMeaning(b, body, items[1..], Popped(Eval(b, body, items[0], env), |env|).env);
    }
  }

  // --- where the else branch breaks it --------------------------------------------------------

  /**
   With an else branch the repair is right exactly when the value found is true, or the first
   key led to a non-empty map and the branch runs alike with that map as its `.`, or the first
   key led to an empty map and the branch does nothing.
   */
  lemma {:induction false} ElseKeepsMeaningExactly(b: Builtins, node: Node, dot: Value, env: Env)
    requires ChainedWith(node) && node.els.Some? && EvalNode(b, node, dot, env).Ok?
    ensures FirstValue(b, node, dot, env).Some? && EvalExpr(b, node.e, dot, env).Some?
    ensures EvalNode(b, FixedWith(node), dot, env) == EvalNode(b, node, dot, env) <==>
      var m := FirstValue(b, node, dot, env).value;
      || Truth(EvalExpr(b, node.e, dot, env).value)
      || (Truth(m) && Popped(Eval(b, node.els.value.body, m, env), |env|) ==
          Popped(Eval(b, node.els.value.body, dot, env), |env|))
      || (!Truth(m) && Popped(Eval(b, node.els.value.body, dot, env), |env|) == Ok("", env))
  {
    FixedWithRuns(b, node, dot, env);
    var m, v := FirstValue(b, node, dot, env).value, EvalExpr(b, node.e, dot, env).value;
    if !Truth(m) {
      IndexEmpty(node.e.keys[1..]);
    }
  }

  /** A concrete loss: `{{with index . "a" "b"}}{{else}}F{{end}}` over {"a": {}} prints F, its repair nothing. */
  lemma {:induction false} ElseCanBeLost(b: Builtins, t: Trim, env: Env)
    ensures var node := Block(With, t, Index(Dot, ["a", "b"]), [], Some(Else(t, [Text("F")])), t);
            var dot := Dict(map["a" := Dict(map[])]);
      EvalNode(b, node, dot, env) == Ok("F", env) && EvalNode(b, FixedWith(node), dot, env) == Ok("", env)
  {
    var node := Block(With, t, Index(Dot, ["a", "b"]), [], Some(Else(t, [Text("F")])), t);
    var dot := Dict(map["a" := Dict(map[])]);
    assert ["a", "b"][1..] == ["b"] && ["b"][1..] == [];
    assert IndexKeys(Dict(map[]), ["b"]) == Some(Nil);
    assert IndexKeys(dot, ["a", "b"]) == Some(Nil);
    EvalSingle(b, Text("F"), dot, env);
    FixedWithRuns(b, node, dot, env);
    assert IndexKeys(dot, ["a"]) == Some(Dict(map[])) by { assert ["a"][1..] == []; }
    assert FirstValue(b, node, dot, env) == Some(Dict(map[]));
  }
}
