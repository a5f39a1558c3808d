/** The chained-index repair of variable declarations, and why it keeps meaning. */
module TemplateAssign {
  import opened Wrappers
  import opened TemplateAst
  import opened TemplateFix

  const TMP: string := "__tmp_"

  function Tmp(x: string): string { TMP + x }

  predicate ChainedDecl(node: Node) {
    node.Decl? && ChainedIndex(node.e)
  }

  /** {{ $x := index e "k1" "k2" ... }} becomes four tags around a type test. */
  function FixedDecl(node: Node): seq<Node>
    requires ChainedDecl(node)
  {
    var t, tmp := node.trim, Tmp(node.x);
    [ Decl(t, tmp, Index(node.e.base, [node.e.keys[0]])),
      Decl(t, node.x, Var(tmp)),
      Block(If, t, IsMap(Var(tmp)), [Assign(t, node.x, Index(Var(tmp), node.e.keys[1..]))], None, t) ]
  }

  function FixAssignNode(node: Node): seq<Node> {
    if ChainedDecl(node) then FixedDecl(node)
    else if node.Block? then
      [node.(body := FixAssign(node.body),
             els := match node.els case None => None case Some(l) => Some(l.(body := FixAssign(l.body))))]
    else [node]
  }

  /** One pass over the whole text: every chained declaration, at any depth, is repaired. */
  function FixAssign(nodes: seq<Node>): seq<Node> {
    if nodes == [] then [] else FixAssignNode(nodes[0]) + FixAssign(nodes[1..])
  }

  // --- templates that do not touch the repair's variables ------------------------------------

  /** The names a pass declares on its own account. */
  function RepairNames(nodes: seq<Node>): set<string> {
    if nodes == [] then {} else RepairNamesNode(nodes[0]) + RepairNames(nodes[1..])
  }

  function RepairNamesNode(node: Node): set<string> {
    if ChainedDecl(node) then {Tmp(node.x)}
    else if node.Block? then RepairNames(node.body) + match node.els case None => {} case Some(l) => RepairNames(l.body)
    else {}
  }

  /** The template uses none of the names that its repair declares. */
  predicate TmpFree(nodes: seq<Node>) {
    Avoids(RepairNames(nodes), nodes)
  }


  predicate AvoidsExpr(tmps: set<string>, e: Expr) {
    match e
    case Dot => true
    case Var(x) => x !in tmps
    case Index(base, _) => AvoidsExpr(tmps, base)
    case IsMap(arg) => AvoidsExpr(tmps, arg)
    case Call(_, args) => forall i :: 0 <= i < |args| ==> AvoidsExpr(tmps, args[i])
  }

  predicate Avoids(tmps: set<string>, nodes: seq<Node>) {
    forall i :: 0 <= i < |nodes| ==> AvoidsNode(tmps, nodes[i])
  }

  predicate AvoidsNode(tmps: set<string>, node: Node) {
    match node
    case Text(_) => true
    case Action(_, e) => AvoidsExpr(tmps, e)
    case Decl(_, x, e) => x !in tmps && AvoidsExpr(tmps, e)
    case Assign(_, x, e) => x !in tmps && AvoidsExpr(tmps, e)
    case Block(_, _, e, body, els, _) =>
      && AvoidsExpr(tmps, e)
      && (forall i :: 0 <= i < |body| ==> AvoidsNode(tmps, body[i]))
      && (els.Some? ==> forall i :: 0 <= i < |els.value.body| ==> AvoidsNode(tmps, els.value.body[i]))
  }

  /** The variables the original template can see. */
  ghost function Erase(tmps: set<string>, env: Env): Env {
    if env == [] then []
    else Erase(tmps, env[..|env| - 1]) + (if env[|env| - 1].0 in tmps then [] else [env[|env| - 1]])
  }

  lemma {:induction false} ErasePush(tmps: set<string>, env: Env, x: string, v: Value)
    ensures Erase(tmps, env + [(x, v)]) == if x in tmps then Erase(tmps, env) else Erase(tmps, env) + [(x, v)]
  {
    assert (env + [(x, v)])[..|env|] == env;
  }

  lemma {:induction false} LookupErase(tmps: set<string>, env: Env, x: string)
    requires x !in tmps
    ensures Lookup(Erase(tmps, env), x) == Lookup(env, x)
  {
    if env != [] {
      var front, top := env[..|env| - 1], env[|env| - 1];
      LookupErase(tmps, front, x);
      assert env == front + [(top.0, top.1)];
      ErasePush(tmps, front, top.0, top.1);
      LookupPush(front, top.0, top.1, x);
      LookupPush(Erase(tmps, front), top.0, top.1, x);
    }
  }

  lemma {:induction false} StoreErase(tmps: set<string>, env: Env, x: string, v: Value)
    requires x !in tmps && Store(Erase(tmps, env), x, v).Some?
    ensures Store(env, x, v).Some? && Erase(tmps, Store(env, x, v).value) == Store(Erase(tmps, env), x, v).value
  {
    if env != [] {
      var front, top := env[..|env| - 1], env[|env| - 1];
      assert env == front + [(top.0, top.1)];
      ErasePush(tmps, front, top.0, top.1);
      if top.0 == x {
        ErasePush(tmps, front, x, v);
      } else {
        StoreErase(tmps, front, x, v);
        ErasePush(tmps, Store(front, x, v).value, top.0, top.1);
      }
    }
  }

  /** Cutting a stack back to an earlier depth commutes with erasing. */
  lemma {:induction false} EraseCut(tmps: set<string>, env: Env, later: Env)
    requires Extends(env, later)
    ensures |Erase(tmps, env)| <= |Erase(tmps, later)| &&
        Erase(tmps, later[..|env|]) == Erase(tmps, later)[..|Erase(tmps, env)|]
    decreases |later|
  {
    if |later| > |env| {
      var front := later[..|later| - 1];
      EraseCut(tmps, env, front);
      assert front[..|env|] == later[..|env|];
      assert Erase(tmps, later)[..|Erase(tmps, env)|] == Erase(tmps, front)[..|Erase(tmps, env)|];
    } else {
      EraseSameLength(tmps, env, later);
      assert later[..|env|] == later;
    }
  }

  lemma {:induction false} EraseSameLength(tmps: set<string>, env: Env, later: Env)
    requires Extends(env, later) && |env| == |later|
    ensures |Erase(tmps, env)| == |Erase(tmps, later)|
  {
    if env != [] {
      EraseSameLength(tmps, env[..|env| - 1], later[..|env| - 1]);
    }
  }

  lemma {:induction false} ExprErase(tmps: set<string>, b: Builtins, e: Expr, dot: Value, env: Env)
    requires AvoidsExpr(tmps, e)
    ensures EvalExpr(b, e, dot, Erase(tmps, env)) == EvalExpr(b, e, dot, env)
  {
    match e
    case Dot =>
    case Var(x) => LookupErase(tmps, env, x);
    case Index(base, _) => ExprErase(tmps, b, base, dot, env);
    case IsMap(arg) => ExprErase(tmps, b, arg, dot, env);
    case Call(_, args) => ArgsErase(tmps, b, args, dot, env);
  }

  lemma {:induction false} ArgsErase(tmps: set<string>, b: Builtins, args: seq<Expr>, dot: Value, env: Env)
    requires forall i :: 0 <= i < |args| ==> AvoidsExpr(tmps, args[i])
    ensures EvalArgs(b, args, dot, Erase(tmps, env)) == EvalArgs(b, args, dot, env)
  {
    if args != [] {
      ExprErase(tmps, b, args[0], dot, env);
      ArgsErase(tmps, b, args[1..], dot, env);
    }
  }

  // --- meaning ----------------------------------------------------------------------------------

  /** `r2` is what `r1` is, up to the repair's own variables. */
  ghost predicate Matches(tmps: set<string>, r1: Result, r2: Result) {
    r1.Ok? && r2.Ok? && r2.out == r1.out && Erase(tmps, r2.env) == r1.env
  }

  lemma {:induction false} DeclRuns(b: Builtins, t: Trim, x: string, e: Expr, rest: seq<Node>, dot: Value, env: Env)
    requires EvalExpr(b, e, dot, env).Some?
    ensures var later := env + [(x, EvalExpr(b, e, dot, env).value)];
      Eval(b, [Decl(t, x, e)] + rest, dot, env) == Eval(b, rest, dot, later)
  {
    var nodes := [Decl(t, x, e)] + rest;
    assert nodes[0] == Decl(t, x, e) && nodes[1..] == rest;
    var r := Eval(b, rest, dot, env + [(x, EvalExpr(b, e, dot, env).value)]);
    assert r.Ok? ==> "" + r.out == r.out;
  }

  /** The type-tested reassignment, when the test succeeds. */
  lemma {:induction false} GuardedAssignRuns(b: Builtins, t: Trim, x: string, tmp: string, keys: seq<string>, w: Value,
          dot: Value, env: Env)
    requires w.Dict? && tmp != x && IndexKeys(w, keys).Some?
    ensures EvalNode(b, Block(If, t, IsMap(Var(tmp)), [Assign(t, x, Index(Var(tmp), keys))], None, t), dot,
        env + [(tmp, w)] + [(x, w)])
         == Ok("", env + [(tmp, w)] + [(x, IndexKeys(w, keys).value)])
  {
    var before := env + [(tmp, w)] + [(x, w)];
    var v := IndexKeys(w, keys).value;
    LookupPush(env + [(tmp, w)], x, w, tmp);
    LookupPush(env, tmp, w, tmp);
    var store := Assign(t, x, Index(Var(tmp), keys));
    assert EvalExpr(b, Var(tmp), dot, before) == Some(w);
    assert EvalExpr(b, store.e, dot, before) == Some(v);
    assert EvalNode(b, store, dot, before) == Ok("", env + [(tmp, w)] + [(x, v)]);
    EvalSingle(b, store, dot, before);
    var after := env + [(tmp, w)] + [(x, v)];
    assert after[..|before|] == after;
  }

  /** The repaired declaration leaves `x` bound as before, below it one variable of its own. */
  lemma {:induction false} FixedDeclRuns(b: Builtins, node: Node, dot: Value, env: Env) returns (w: Value)
    requires ChainedDecl(node) && EvalExpr(b, node.e, dot, env).Some?
    ensures EvalExpr(b, node.e.base, dot, env).Some?
    ensures IndexKeys(EvalExpr(b, node.e.base, dot, env).value, [node.e.keys[0]]) == Some(w)
    ensures Eval(b, FixedDecl(node), dot, env) ==
        Ok("", env + [(Tmp(node.x), w)] + [(node.x, EvalExpr(b, node.e, dot, env).value)])
  {
    var t, x, tmp, keys := node.trim, node.x, Tmp(node.x), node.e.keys;
    var base := EvalExpr(b, node.e.base, dot, env).value;
    IndexMore(base, keys);
    w := IndexKeys(base, [keys[0]]).value;
    var fixed := FixedDecl(node);
    assert |tmp| == |x| + |TMP|;
    LookupPush(env, tmp, w, tmp);
    assert fixed == [fixed[0]] + ([fixed[1]] + [fixed[2]]);
    DeclRuns(b, t, tmp, Index(node.e.base, [keys[0]]), [fixed[1]] + [fixed[2]], dot, env);
    DeclRuns(b, t, x, Var(tmp), [fixed[2]], dot, env + [(tmp, w)]);
    GuardedAssignRuns(b, t, x, tmp, keys[1..], w, dot, env);
    EvalSingle(b, fixed[2], dot, env + [(tmp, w)] + [(x, w)]);
  }

  /** The type-tested reassignment on any value: only a map is indexed further. */
  lemma {:induction false} GuardedAssignOnAnyValue(b: Builtins, t: Trim, x: string, tmp: string, keys: seq<string>,
          w: Value, dot: Value, env: Env)
    requires tmp != x
    ensures EvalNode(b, Block(If, t, IsMap(Var(tmp)), [Assign(t, x, Index(Var(tmp), keys))], None, t), dot,
        env + [(tmp, w)] + [(x, w)]) ==
      if !w.Dict? then Ok("", env + [(tmp, w)] + [(x, w)])
      else match IndexKeys(w, keys)
        case None => Fail
        case Some(v) => Ok("", env + [(tmp, w)] + [(x, v)])
  {
    var before := env + [(tmp, w)] + [(x, w)];
    LookupPush(env + [(tmp, w)], x, w, tmp);
    LookupPush(env, tmp, w, tmp);
    assert EvalExpr(b, Var(tmp), dot, before) == Some(w);
    if w.Dict? {
      if IndexKeys(w, keys).Some? {
        GuardedAssignRuns(b, t, x, tmp, keys, w, dot, env);
      } else {
        var store := Assign(t, x, Index(Var(tmp), keys));
        assert EvalNode(b, store, dot, before) == Fail;
        EvalSingle(b, store, dot, before);
      }
    }
  }

  /**
   What a repaired declaration does with any value `w` its first key leads to: `x` is what the
   remaining keys lead to if `w` is a map, and `w` itself, so a whole list, if it is not.
   */
  lemma {:induction false} FixedDeclOnAnyValue(b: Builtins, node: Node, dot: Value, env: Env)
    requires ChainedDecl(node)
    ensures Eval(b, FixAssign([node]), dot, env) ==
      match EvalExpr(b, Index(node.e.base, [node.e.keys[0]]), dot, env)
      case None => Fail
      case Some(w) =>
        if !w.Dict? then Ok("", env + [(Tmp(node.x), w)] + [(node.x, w)])
        else match IndexKeys(w, node.e.keys[1..])
          case None => Fail
          case Some(v) => Ok("", env + [(Tmp(node.x), w)] + [(node.x, v)])
  {
    var t, x, tmp, keys := node.trim, node.x, Tmp(node.x), node.e.keys;
    var fixed := FixedDecl(node);
    assert [node][1..] == [] && FixAssign([node]) == fixed + [] == fixed;
    assert |tmp| == |x| + |TMP|;
    assert fixed == [fixed[0]] + ([fixed[1]] + [fixed[2]]);
    var first := EvalExpr(b, Index(node.e.base, [keys[0]]), dot, env);
    if first.Some? {
      var w := first.value;
      LookupPush(env, tmp, w, tmp);
      DeclRuns(b, t, tmp, Index(node.e.base, [keys[0]]), [fixed[1]] + [fixed[2]], dot, env);
      DeclRuns(b, t, x, Var(tmp), [fixed[2]], dot, env + [(tmp, w)]);
      EvalSingle(b, fixed[2], dot, env + [(tmp, w)] + [(x, w)]);
      GuardedAssignOnAnyValue(b, t, x, tmp, keys[1..], w, dot, env);
    } else {
      assert EvalNode(b, fixed[0], dot, env) == Fail;
    }
  }

  lemma {:induction false} FixAssignNodeKeepsMeaning(tmps: set<string>, b: Builtins, node: Node, dot: Value, env: Env)
    requires AvoidsNode(tmps, node) && RepairNamesNode(node) <= tmps && EvalNode(b, node, dot, Erase(tmps, env)).Ok?
    ensures Matches(tmps, EvalNode(b, node, dot, Erase(tmps, env)), Eval(b, FixAssignNode(node), dot, env))
    decreases node, 1, 0
  {
    if ChainedDecl(node) {
      ChainedDeclKeepsMeaning(tmps, b, node, dot, env);
    } else if node.Block? {
      FixAssignBlockKeepsMeaning(tmps, b, node, dot, env);
      EvalSingle(b, FixAssignNode(node)[0], dot, env);
    } else {
      EvalSingle(b, node, dot, env);
      SimpleNodeErase(tmps, b, node, dot, env);
    }
  }

  lemma {:induction false} ChainedDeclKeepsMeaning(tmps: set<string>, b: Builtins, node: Node, dot: Value, env: Env)
    requires ChainedDecl(node) && AvoidsNode(tmps, node) && Tmp(node.x) in tmps &&
        EvalNode(b, node, dot, Erase(tmps, env)).Ok?
    ensures Matches(tmps, EvalNode(b, node, dot, Erase(tmps, env)), Eval(b, FixedDecl(node), dot, env))
  {
    ExprErase(tmps, b, node.e, dot, env);
    var w := FixedDeclRuns(b, node, dot, env);
    ErasePush(tmps, env, Tmp(node.x), w);
    ErasePush(tmps, env + [(Tmp(node.x), w)], node.x, EvalExpr(b, node.e, dot, env).value);
  }

  lemma {:induction false} SimpleNodeErase(tmps: set<string>, b: Builtins, node: Node, dot: Value, env: Env)
    requires !node.Block? && AvoidsNode(tmps, node) && EvalNode(b, node, dot, Erase(tmps, env)).Ok?
    ensures Matches(tmps, EvalNode(b, node, dot, Erase(tmps, env)), EvalNode(b, node, dot, env))
  {
    if !node.Text? {
      ExprErase(tmps, b, node.e, dot, env);
      var v := EvalExpr(b, node.e, dot, env).value;
      if node.Decl? {
        ErasePush(tmps, env, node.x, v);
      } else if node.Assign? {
        StoreErase(tmps, env, node.x, v);
      }
    }
  }

  lemma {:induction false} FixAssignBlockKeepsMeaning(tmps: set<string>, b: Builtins, node: Node, dot: Value, env: Env)
    requires node.Block? && AvoidsNode(tmps, node) && RepairNamesNode(node) <= tmps &&
        EvalNode(b, node, dot, Erase(tmps, env)).Ok?
    ensures Matches(tmps, EvalNode(b, node, dot, Erase(tmps, env)), EvalNode(b, FixAssignNode(node)[0], dot, env))
    decreases node, 0, 0
  {
    ExprErase(tmps, b, node.e, dot, env);
    var v := EvalExpr(b, node.e, dot, env).value;
    if node.kind == Range {
      var items := b.elements(v).value;
      if items != [] {
        FixAssignRangeKeepsMeaning(tmps, b, node.body, items, env);
      } else if node.els.Some? {
        FixAssignScopeKeepsMeaning(tmps, b, node.els.value.body, dot, env);
      }
    } else if Truth(v) {
      FixAssignScopeKeepsMeaning(tmps, b, node.body, if node.kind == With then v else dot, env);
    } else if node.els.Some? {
      FixAssignScopeKeepsMeaning(tmps, b, node.els.value.body, dot, env);
    }
  }

  /** A block's body run between push and pop. */
  lemma {:induction false} FixAssignScopeKeepsMeaning(tmps: set<string>, b: Builtins, nodes: seq<Node>, dot: Value,
          env: Env)
    requires Avoids(tmps, nodes) && RepairNames(nodes) <= tmps && Eval(b, nodes, dot, Erase(tmps, env)).Ok?
    ensures Matches(tmps, Popped(Eval(b, nodes, dot, Erase(tmps, env)), |Erase(tmps, env)|),
        Popped(Eval(b, FixAssign(nodes), dot, env), |env|))
    decreases nodes, 1, 0
  {
    FixAssignKeepsMeaning(tmps, b, nodes, dot, env);
    EvalExtends(b, FixAssign(nodes), dot, env);
    EraseCut(tmps, env, Eval(b, FixAssign(nodes), dot, env).env);
  }

  /** One declaration pass keeps output and variables, wherever the template ran without error. */
  lemma {:induction false} FixAssignKeepsMeaning(tmps: set<string>, b: Builtins, nodes: seq<Node>, dot: Value, env: Env)
    requires Avoids(tmps, nodes) && RepairNames(nodes) <= tmps && Eval(b, nodes, dot, Erase(tmps, env)).Ok?
    ensures Matches(tmps, Eval(b, nodes, dot, Erase(tmps, env)), Eval(b, FixAssign(nodes), dot, env))
    decreases nodes, 0, 0
  {
    if nodes != [] {
      FixAssignNodeKeepsMeaning(tmps, b, nodes[0], dot, env);
      var r := Eval(b, FixAssignNode(nodes[0]), dot, env);
      FixAssignKeepsMeaning(tmps, b, nodes[1..], dot, r.env);
      EvalConcat(b, FixAssignNode(nodes[0]), FixAssign(nodes[1..]), dot, env);
    }
  }

  lemma {:induction false} FixAssignRangeKeepsMeaning(tmps: set<string>, b: Builtins, body: seq<Node>,
          items: seq<Value>, env: Env)
    requires Avoids(tmps, body) && RepairNames(body) <= tmps && EvalRange(b, body, items, Erase(tmps, env)).Ok?
    ensures Matches(tmps, EvalRange(b, body, items, Erase(tmps, env)), EvalRange(b, FixAssign(body), items, env))
    decreases body, 2, |items|
  {
    if items != [] {
      FixAssignScopeKeepsMeaning(tmps, b, body, items[0], env);
      FixAssignRangeKeepsMeaning(tmps, b, body, items[1..], Popped(Eval(b, FixAssign(body), items[0], env), |env|).env);
    }
  }

  lemma {:induction false} RepairNamesStart(nodes: seq<Node>)
    ensures forall x :: x in RepairNames(nodes) ==> |x| >= |TMP|
  {
    if nodes != [] {
      RepairNamesNodeStart(nodes[0]);
      RepairNamesStart(nodes[1..]);
    }
  }

  lemma {:induction false} RepairNamesNodeStart(node: Node)
    ensures forall x :: x in RepairNamesNode(node) ==> |x| >= |TMP|
  {
    if node.Block? {
      RepairNamesStart(node.body);
      if node.els.Some? { RepairNamesStart(node.els.value.body); }
    }
  }

  /** No repair declares `$`. */
  lemma {:induction false} StartKept(nodes: seq<Node>, data: Value)
    ensures Erase(RepairNames(nodes), Start(data)) == Start(data)
  {
    RepairNamesStart(nodes);
    assert Start(data) == [] + [("$", data)];
    ErasePush(RepairNames(nodes), [], "$", data);
  }

  // --- templates that do -----------------------------------------------------------------------

  /**
   After a repaired declaration every variable reads as after the original one, except the one of
   the repair's name, unless that held just what the first key leads to.
   */
  lemma {:induction false} ReadingsKeptExactly(b: Builtins, node: Node, dot: Value, env: Env, y: string)
      returns (w: Value)
    requires ChainedDecl(node) && EvalNode(b, node, dot, env).Ok?
    ensures EvalExpr(b, node.e.base, dot, env).Some?
    ensures IndexKeys(EvalExpr(b, node.e.base, dot, env).value, [node.e.keys[0]]) == Some(w)
    ensures Eval(b, FixedDecl(node), dot, env).Ok? &&
        Eval(b, FixedDecl(node), dot, env).out == EvalNode(b, node, dot, env).out
    ensures Lookup(Eval(b, FixedDecl(node), dot, env).env, y) == Lookup(EvalNode(b, node, dot, env).env, y) <==>
      y != Tmp(node.x) || Lookup(env, y) == Some(w)
  {
    w := FixedDeclRuns(b, node, dot, env);
    var v := EvalExpr(b, node.e, dot, env).value;
    hide FixedDecl;
    assert |Tmp(node.x)| == |TMP| + |node.x|;
    LookupPush(env + [(Tmp(node.x), w)], node.x, v, y);
    LookupPush(env, Tmp(node.x), w, y);
    LookupPush(env, node.x, v, y);
  }

  /** {{ $__tmp_x := . }}{{ $x := index . k l }}{{ $__tmp_x }} */
  function Clashing(t: Trim, x: string, k: string, l: string): seq<Node> {
    [Decl(t, Tmp(x), Dot)] + ([Decl(t, x, Index(Dot, [k, l]))] + [Action(t, Var(Tmp(x)))])
  }

  lemma {:induction false} TwoKeys(inner: Value, k: string, l: string)
    requires inner.Dict?
    ensures IndexKeys(Dict(map[k := inner]), [k]) == Some(inner) && IndexKeys(Dict(map[k := inner]), [k, l]).Some?
  {
    var d := Dict(map[k := inner]);
    assert [k][1..] == [] && [k, l][1..] == [l] && [l][1..] == [];
    assert IndexKeys(d, [k]) == IndexKeys(inner, []);
    assert IndexKeys(d, [k, l]) == IndexKeys(inner, [l]);
    assert IndexKeys(inner, [l]) == IndexKeys(if l in inner.entries then inner.entries[l] else Nil, []);
  }

  /** Reading the first variable back, below any value of `$x`. */
  lemma {:induction false} ReadsTmp(b: Builtins, t: Trim, x: string, env: Env, w: Value, v: Value, dot: Value)
    ensures var later := env + [(Tmp(x), w)] + [(x, v)];
      Eval(b, [Action(t, Var(Tmp(x)))], dot, later) == Ok(b.show(w), later)
  {
    assert |Tmp(x)| == |TMP| + |x|;
    LookupPush(env + [(Tmp(x), w)], x, v, Tmp(x));
    LookupPush(env, Tmp(x), w, Tmp(x));
    EvalSingle(b, Action(t, Var(Tmp(x))), dot, env + [(Tmp(x), w)] + [(x, v)]);
  }

  lemma {:induction false} ClashingRuns(b: Builtins, t: Trim, x: string, k: string, l: string, inner: Value, env: Env)
    requires inner.Dict?
    ensures var dot := Dict(map[k := inner]);
      Eval(b, Clashing(t, x, k, l), dot, env).Ok? && Eval(b, Clashing(t, x, k, l), dot, env).out == b.show(dot)
  {
    var dot := Dict(map[k := inner]);
    TwoKeys(inner, k, l);
    var v := IndexKeys(dot, [k, l]).value;
    DeclRuns(b, t, Tmp(x), Dot, [Decl(t, x, Index(Dot, [k, l]))] + [Action(t, Var(Tmp(x)))], dot, env);
    assert EvalExpr(b, Index(Dot, [k, l]), dot, env + [(Tmp(x), dot)]) == Some(v);
    DeclRuns(b, t, x, Index(Dot, [k, l]), [Action(t, Var(Tmp(x)))], dot, env + [(Tmp(x), dot)]);
    ReadsTmp(b, t, x, env, dot, v, dot);
  }

  lemma {:induction false} ClashingFixed(t: Trim, x: string, k: string, l: string)
    ensures FixAssign(Clashing(t, x, k, l)) ==
      [Decl(t, Tmp(x), Dot)] + (FixedDecl(Decl(t, x, Index(Dot, [k, l]))) + [Action(t, Var(Tmp(x)))])
  {
    var first, second, third := Decl(t, Tmp(x), Dot), Decl(t, x, Index(Dot, [k, l])), Action(t, Var(Tmp(x)));
    var nodes := Clashing(t, x, k, l);
    assert nodes[0] == first && nodes[1..] == [second] + [third];
    assert ([second] + [third])[1..] == [third] && [third][1..] == [];
    assert FixAssign([third]) == [third] + [];
    hide FixedDecl;
    assert FixAssign([second] + [third]) == FixedDecl(second) + [third];
  }

  lemma {:induction false} ClashingFixedRuns(b: Builtins, t: Trim, x: string, k: string, l: string, inner: Value,
          env: Env)
    requires inner.Dict?
    ensures var dot := Dict(map[k := inner]); var fixed := FixAssign(Clashing(t, x, k, l));
      Eval(b, fixed, dot, env).Ok? && Eval(b, fixed, dot, env).out == b.show(inner)
  {
    var dot, second, third := Dict(map[k := inner]), Decl(t, x, Index(Dot, [k, l])), Action(t, Var(Tmp(x)));
    TwoKeys(inner, k, l);
    ClashingFixed(t, x, k, l);
    var later := env + [(Tmp(x), dot)];
    assert EvalExpr(b, Index(Dot, [k, l]), dot, later).Some?;
    var w := FixedDeclRuns(b, second, dot, later);
    var v := EvalExpr(b, second.e, dot, later).value;
    ReadsTmp(b, t, x, later, w, v, dot);
    EvalConcat(b, FixedDecl(second), [third], dot, later);
    hide FixedDecl, FixAssign, Clashing;
    DeclRuns(b, t, Tmp(x), Dot, FixedDecl(second) + [third], dot, env);
  }

  /** A concrete clash: the template reads its own variable, and after the repair the repair's. */
  lemma {:induction false} TmpNamesClash(b: Builtins, t: Trim, x: string, k: string, l: string, inner: Value, env: Env)
    requires inner.Dict?
    ensures var nodes := Clashing(t, x, k, l); var dot := Dict(map[k := inner]);
      && !TmpFree(nodes) && Eval(b, nodes, dot, env).Ok? && Eval(b, FixAssign(nodes), dot, env).Ok?
      && Eval(b, nodes, dot, env).out == b.show(dot) && Eval(b, FixAssign(nodes), dot, env).out == b.show(inner)
  {
    var nodes := Clashing(t, x, k, l);
    assert nodes[1..][0] == Decl(t, x, Index(Dot, [k, l]));
    assert Tmp(x) in RepairNames(nodes[1..]) && Tmp(x) in RepairNames(nodes);
    assert !AvoidsNode(RepairNames(nodes), nodes[0]);
    ClashingRuns(b, t, x, k, l, inner, env);
    ClashingFixedRuns(b, t, x, k, l, inner, env);
  }
}
