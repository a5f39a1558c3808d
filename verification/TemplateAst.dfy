/**
 The part of Go's text/template that the template fixer touches: an abstract syntax, the
 values a template runs over, and an evaluator.
 */
module TemplateAst {
  import opened Wrappers

  /** What `.` and variables hold: decoded XML or JSON. `truth` is the truth of a scalar. */
  datatype Value = Nil | Leaf(text: string, truth: bool) | List(items: seq<Value>) | Dict(entries: map<string, Value>)

  predicate Truth(v: Value) {
    match v
    case Nil => false
    case Leaf(_, truth) => truth
    case List(items) => items != []
    case Dict(m) => m != map[]
  }

  /** `Call` covers field access and every function other than `index` and the map type test. */
  datatype Expr =
    | Dot
    | Var(name: string)
    | Index(base: Expr, keys: seq<string>)
    | IsMap(arg: Expr)
    | Call(fn: string, args: seq<Expr>)

  /** What is written between "{{" and the action, and between the action and "}}". */
  datatype Trim = Trim(left: string, right: string)

  datatype Kind = With | If | Range

  datatype Node =
    | Text(text: string)
    | Action(trim: Trim, e: Expr)
    | Decl(trim: Trim, x: string, e: Expr)     // {{ $x := e }}
    | Assign(trim: Trim, x: string, e: Expr)   // {{ $x = e }}
    | Block(kind: Kind, trim: Trim, e: Expr, body: seq<Node>, els: Option<Else>, end: Trim)

  datatype Else = Else(trim: Trim, body: seq<Node>)

  // --- evaluation -----------------------------------------------------------------------

  /** Everything a run depends on besides the template, `.` and the variables. */
  datatype Builtins = Builtins(
    call: (string, seq<Value>) -> Option<Value>,   // None is an error
    show: Value -> string,
    elements: Value -> Option<seq<Value>>)         // what `range` walks; None is an error

  /** The variable stack; a declaration pushes, and the end of a block pops its declarations. */
  type Env = seq<(string, Value)>

  /** A template starts with `$` bound to its data. */
  function Start(data: Value): Env {
    [("$", data)]
  }

  datatype Result = Ok(out: string, env: Env) | Fail

  function Lookup(env: Env, x: string): Option<Value> {
    if env == [] then None
    else if env[|env| - 1].0 == x then Some(env[|env| - 1].1)
    else Lookup(env[..|env| - 1], x)
  }

  /** Assigns to the innermost variable called `x`. */
  function Store(env: Env, x: string, v: Value): (r: Option<Env>)
    ensures r.Some? ==> |r.value| == |env| && forall i :: 0 <= i < |env| ==> r.value[i].0 == env[i].0
  {
    if env == [] then None
    else if env[|env| - 1].0 == x then Some(env[..|env| - 1] + [(x, v)])
    else match Store(env[..|env| - 1], x, v)
      case None => None
      case Some(front) => Some(front + [env[|env| - 1]])
  }

  /** `index v k1 k2 …`: a missing key yields nil; anything but a map is an error. */
  function IndexKeys(v: Value, keys: seq<string>): Option<Value>
    decreases |keys|
  {
    if keys == [] then Some(v)
    else if !v.Dict? then None
    else IndexKeys(if keys[0] in v.entries then v.entries[keys[0]] else Nil, keys[1..])
  }

  function EvalExpr(b: Builtins, e: Expr, dot: Value, env: Env): Option<Value> {
    match e
    case Dot => Some(dot)
    case Var(x) => Lookup(env, x)
    case Index(base, keys) =>
      (match EvalExpr(b, base, dot, env) case None => None case Some(v) => IndexKeys(v, keys))
    case IsMap(arg) =>
      (match EvalExpr(b, arg, dot, env) case None => None
       case Some(v) => Some(if v.Dict? then Leaf("true", true) else Leaf("false", false)))
    case Call(fn, args) =>
      (match EvalArgs(b, args, dot, env) case None => None case Some(vs) => b.call(fn, vs))
  }

  function EvalArgs(b: Builtins, args: seq<Expr>, dot: Value, env: Env): Option<seq<Value>> {
    if args == [] then Some([])
    else match EvalExpr(b, args[0], dot, env)
      case None => None
      case Some(v) => match EvalArgs(b, args[1..], dot, env)
        case None => None
        case Some(vs) => Some([v] + vs)
  }

  /** Leaving a block pops what it declared. */
  function Popped(r: Result, depth: nat): Result {
    if r.Ok? && depth <= |r.env| then Ok(r.out, r.env[..depth]) else r
  }

  function Prepend(out: string, r: Result): Result {
    if r.Ok? then Ok(out + r.out, r.env) else Fail
  }

  function Eval(b: Builtins, nodes: seq<Node>, dot: Value, env: Env): Result
    decreases nodes, 0, 0
  {
    if nodes == [] then Ok("", env)
    else match EvalNode(b, nodes[0], dot, env)
      case Fail => Fail
      case Ok(out, env1) => Prepend(out, Eval(b, nodes[1..], dot, env1))
  }

  function EvalNode(b: Builtins, node: Node, dot: Value, env: Env): Result
    decreases node, 1, 0
  {
    match node
    case Text(s) => Ok(s, env)
    case Action(_, e) => (match EvalExpr(b, e, dot, env) case None => Fail case Some(v) => Ok(b.show(v), env))
    case Decl(_, x, e) => (match EvalExpr(b, e, dot, env) case None => Fail case Some(v) => Ok("", env + [(x, v)]))
    case Assign(_, x, e) =>
      (match EvalExpr(b, e, dot, env) case None => Fail
       case Some(v) => match Store(env, x, v) case None => Fail case Some(env1) => Ok("", env1))
    case Block(kind, _, e, body, els, _) =>
      match EvalExpr(b, e, dot, env) case None => Fail
      case Some(v) =>
        if kind == Range then
          match b.elements(v)
          case None => Fail
          case Some(items) =>
            if items == [] then (if els.None? then Ok("", env) else Popped(Eval(b, els.value.body, dot, env), |env|))
            else EvalRange(b, body, items, env)
        else if Truth(v) then Popped(Eval(b, body, if kind == With then v else dot, env), |env|)
        else if els.None? then Ok("", env)
        else Popped(Eval(b, els.value.body, dot, env), |env|)
  }

  function EvalRange(b: Builtins, body: seq<Node>, items: seq<Value>, env: Env): Result
    decreases body, 2, |items|
  {
    if items == [] then Ok("", env)
    else match Popped(Eval(b, body, items[0], env), |env|)
      case Fail => Fail
      case Ok(out, env1) => Prepend(out, EvalRange(b, body, items[1..], env1))
  }

  lemma {:induction false} LookupPush(env: Env, y: string, w: Value, x: string)
    ensures Lookup(env + [(y, w)], x) == if x == y then Some(w) else Lookup(env, x)
  {
    assert (env + [(y, w)])[..|env|] == env;
  }

  lemma {:induction false} EvalSingle(b: Builtins, node: Node, dot: Value, env: Env)
    ensures Eval(b, [node], dot, env) == EvalNode(b, node, dot, env)
  {
    assert [node][1..] == [];
    var r := EvalNode(b, node, dot, env);
    if r.Ok? {
      assert Eval(b, [], dot, r.env) == Ok("", r.env);
      assert r.out + "" == r.out;
    }
  }

  lemma {:induction false} EvalConcat(b: Builtins, left: seq<Node>, right: seq<Node>, dot: Value, env: Env)
    requires Eval(b, left, dot, env).Ok?
    ensures Eval(b, left + right, dot, env) ==
        Prepend(Eval(b, left, dot, env).out, Eval(b, right, dot, Eval(b, left, dot, env).env))
  {
    if left == [] {
      assert left + right == right;
      var r := Eval(b, right, dot, env);
      assert r.Ok? ==> "" + r.out == r.out;
    } else {
      assert (left + right)[0] == left[0] && (left + right)[1..] == left[1..] + right;
      var head := EvalNode(b, left[0], dot, env);
      EvalConcat(b, left[1..], right, dot, head.env);
      var mid := Eval(b, left[1..], dot, head.env);
      var r := Eval(b, right, dot, mid.env);
      assert r.Ok? ==> head.out + (mid.out + r.out) == (head.out + mid.out) + r.out;
    }
  }

  // --- evaluation keeps the variables it found, though not their values -----------------------

  ghost predicate Extends(env: Env, later: Env) {
    |env| <= |later| && forall i :: 0 <= i < |env| ==> later[i].0 == env[i].0
  }

  lemma {:induction false} EvalNodeExtends(b: Builtins, node: Node, dot: Value, env: Env)
    requires EvalNode(b, node, dot, env).Ok?
    ensures Extends(env, EvalNode(b, node, dot, env).env)
    decreases node, 1, 0
  {
    if node.Block? {
      var v := EvalExpr(b, node.e, dot, env).value;
      if node.kind == Range {
        var items := b.elements(v).value;
        if items != [] {
          EvalRangeExtends(b, node.body, items, env);
        } else if node.els.Some? {
          EvalExtends(b, node.els.value.body, dot, env);
        }
      } else if Truth(v) {
        EvalExtends(b, node.body, if node.kind == With then v else dot, env);
      } else if node.els.Some? {
        EvalExtends(b, node.els.value.body, dot, env);
      }
    }
  }

  lemma {:induction false} EvalExtends(b: Builtins, nodes: seq<Node>, dot: Value, env: Env)
    requires Eval(b, nodes, dot, env).Ok?
    ensures Extends(env, Eval(b, nodes, dot, env).env)
    decreases nodes, 0, 0
  {
    if nodes != [] {
      EvalNodeExtends(b, nodes[0], dot, env);
      EvalExtends(b, nodes[1..], dot, EvalNode(b, nodes[0], dot, env).env);
    }
  }

  lemma {:induction false} EvalRangeExtends(b: Builtins, body: seq<Node>, items: seq<Value>, env: Env)
    requires EvalRange(b, body, items, env).Ok?
    ensures Extends(env, EvalRange(b, body, items, env).env)
    decreases body, 2, |items|
  {
    if items != [] {
      EvalExtends(b, body, items[0], env);
      EvalRangeExtends(b, body, items[1..], Popped(Eval(b, body, items[0], env), |env|).env);
    }
  }
}
