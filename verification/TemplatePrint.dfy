/**
 The token-level repair does on the printed form of a template what the syntax-level repair
 does on the template, and it maps well-nested token lists to well-nested ones.
 */
module TemplatePrint {
  import opened Wrappers
  import opened TemplateAst
  import opened TemplateFix
  import opened TemplateTokens

  function PrintNode(node: Node): seq<Token> {
    if !node.Block? then [Plain(node)]
    else [Open(node.kind, node.trim, node.e)] + (Print(node.body) + (PrintElse(node.els) + [EndTag(node.end)]))
  }

  function PrintElse(els: Option<Else>): seq<Token> {
    match els case None => [] case Some(l) => [ElseTag(l.trim)] + Print(l.body)
  }

  function Print(nodes: seq<Node>): seq<Token> {
    if nodes == [] then [] else PrintNode(nodes[0]) + Print(nodes[1..])
  }

  /** `part` stands in `tokens` at position `i`. */
  ghost predicate At(tokens: seq<Token>, i: nat, part: seq<Token>) {
    i + |part| <= |tokens| && tokens[i..i + |part|] == part
  }

  lemma {:induction false} AtConcat(tokens: seq<Token>, i: nat, left: seq<Token>, right: seq<Token>)
    ensures At(tokens, i, left + right) <==> At(tokens, i, left) && At(tokens, i + |left|, right)
  {
    if i + |left| + |right| <= |tokens| {
      var whole := tokens[i..i + |left| + |right|];
      assert whole == tokens[i..i + |left|] + tokens[i + |left|..i + |left| + |right|];
      assert whole[..|left|] == tokens[i..i + |left|] && whole[|left|..] == tokens[i + |left|..i + |left| + |right|];
      assert (left + right)[..|left|] == left && (left + right)[|left|..] == right;
    }
  }

  lemma {:induction false} AtOne(tokens: seq<Token>, i: nat, t: Token)
    ensures At(tokens, i, [t]) <==> i < |tokens| && tokens[i] == t
  {
    if i < |tokens| {
      assert tokens[i..i + 1] == [tokens[i]];
    }
  }

  /** The parts of a printed block stand between its tags: `elseAt` and `endAt` are where they end. */
  ghost predicate BlockAtPositions(tokens: seq<Token>, i: nat, node: Node, elseAt: nat, endAt: nat)
    requires node.Block?
  {
    && i < elseAt <= endAt < |tokens|
    && tokens[i] == Open(node.kind, node.trim, node.e) && tokens[endAt] == EndTag(node.end)
    && At(tokens, i + 1, Print(node.body)) && i + 1 + |Print(node.body)| == elseAt
    && match node.els
      case None => elseAt == endAt
      case Some(l) => ElseAtPositions(tokens, l, elseAt, endAt)
  }

  ghost predicate ElseAtPositions(tokens: seq<Token>, l: Else, elseAt: nat, endAt: nat) {
    && elseAt < endAt < |tokens| && tokens[elseAt] == ElseTag(l.trim)
    && At(tokens, elseAt + 1, Print(l.body)) && elseAt + 1 + |Print(l.body)| == endAt
  }

  lemma {:induction false} BlockLayout(tokens: seq<Token>, i: nat, node: Node) returns (elseAt: nat, endAt: nat)
    requires node.Block? && At(tokens, i, PrintNode(node))
    ensures BlockAtPositions(tokens, i, node, elseAt, endAt) && i + |PrintNode(node)| == endAt + 1
  {
    var open, body, els, end := Open(node.kind, node.trim, node.e), Print(node.body), PrintElse(node.els),
        EndTag(node.end);
    elseAt, endAt := LayoutOf(tokens, i, open, body, els, end);
    if node.els.Some? {
      ElseLayout(tokens, elseAt, node.els.value, endAt);
    }
  }

  lemma {:induction false} LayoutOf(tokens: seq<Token>, i: nat, open: Token, body: seq<Token>, els: seq<Token>,
          end: Token)
    returns (elseAt: nat, endAt: nat)
    requires At(tokens, i, [open] + (body + (els + [end])))
    ensures i < elseAt <= endAt < |tokens| && tokens[i] == open && tokens[endAt] == end
    ensures At(tokens, i + 1, body) && i + 1 + |body| == elseAt
    ensures At(tokens, elseAt, els) && elseAt + |els| == endAt
  {
    AtConcat(tokens, i, [open], body + (els + [end]));
    AtOne(tokens, i, open);
    AtConcat(tokens, i + 1, body, els + [end]);
    elseAt := i + 1 + |body|;
    AtConcat(tokens, elseAt, els, [end]);
    endAt := elseAt + |els|;
    AtOne(tokens, endAt, end);
  }

  lemma {:induction false} ElseLayout(tokens: seq<Token>, elseAt: nat, l: Else, endAt: nat)
    requires At(tokens, elseAt, PrintElse(Some(l))) && elseAt + |PrintElse(Some(l))| == endAt < |tokens|
    ensures ElseAtPositions(tokens, l, elseAt, endAt)
  {
    AtConcat(tokens, elseAt, [ElseTag(l.trim)], Print(l.body));
    AtOne(tokens, elseAt, ElseTag(l.trim));
  }

  /** The search for an end tag passes over complete templates without noticing them. */
  lemma {:induction false} SearchPast(tokens: seq<Token>, i: nat, nodes: seq<Node>, depth: nat, els: int)
    requires At(tokens, i, Print(nodes)) && depth >= 1
    ensures Search(tokens, i, depth, els) == Search(tokens, i + |Print(nodes)|, depth, els)
    decreases nodes, 0
  {
    if nodes != [] {
      AtConcat(tokens, i, PrintNode(nodes[0]), Print(nodes[1..]));
      SearchPastNode(tokens, i, nodes[0], depth, els);
      SearchPast(tokens, i + |PrintNode(nodes[0])|, nodes[1..], depth, els);
    }
  }

  lemma {:induction false} SearchPastNode(tokens: seq<Token>, i: nat, node: Node, depth: nat, els: int)
    requires At(tokens, i, PrintNode(node)) && depth >= 1
    ensures Search(tokens, i, depth, els) == Search(tokens, i + |PrintNode(node)|, depth, els)
    decreases node, 1
  {
    if !node.Block? {
      AtOne(tokens, i, Plain(node));
    } else {
      var elseAt, endAt := BlockLayout(tokens, i, node);
      SearchPast(tokens, i + 1, node.body, depth + 1, els);
      assert Search(tokens, i, depth, els) == Search(tokens, elseAt, depth + 1, els);
      SearchPastElse(tokens, node.els, elseAt, endAt, depth + 1, els);
      assert Search(tokens, elseAt, depth + 1, els) == Search(tokens, endAt + 1, depth, els);
    }
  }

  lemma {:induction false} SearchPastElse(tokens: seq<Token>, els: Option<Else>, elseAt: nat, endAt: nat, depth: nat,
          seen: int)
    requires depth >= 1 && endAt < |tokens|
    requires match els case None => elseAt == endAt case Some(l) => ElseAtPositions(tokens, l, elseAt, endAt)
    ensures Search(tokens, elseAt, depth, seen) ==
        Search(tokens, endAt, depth, if els.Some? && depth == 1 then elseAt else seen)
    decreases els, 1
  {
    if els.Some? {
      SearchPast(tokens, elseAt + 1, els.value.body, depth, if depth == 1 then elseAt else seen);
    }
  }

  lemma {:induction false} SearchFindsBlockEnd(tokens: seq<Token>, i: nat, node: Node, elseAt: nat, endAt: nat)
    requires node.Block? && BlockAtPositions(tokens, i, node, elseAt, endAt)
    ensures Search(tokens, i + 1, 1, -1) == Found(endAt, if node.els.Some? then elseAt else -1)
  {
    SearchPast(tokens, i + 1, node.body, 1, -1);
    SearchPastElse(tokens, node.els, elseAt, endAt, 1, -1);
  }

  // --- the repair ------------------------------------------------------------------------------------

  lemma {:induction false} PrintSingle(node: Node)
    ensures Print([node]) == PrintNode(node)
  {
    assert [node][1..] == [];
  }

  /** The printed form of a block whose body is a single block. */
  lemma {:induction false} PrintNested(kind: Kind, t: Trim, e: Expr, inner: Node, els: Option<Else>, end: Trim)
    ensures PrintNode(Block(kind, t, e, [inner], els, end)) ==
        [Open(kind, t, e)] + PrintNode(inner) + PrintElse(els) + [EndTag(end)]
  {
    PrintSingle(inner);
  }

  /** The replacement of a printed block is the printed repair of the block. */
  lemma {:induction false} ReplacementPrints(node: Node)
    requires ChainedWith(node)
    ensures Replacement(Open(With, node.trim, node.e), Print(node.body), PrintElse(node.els), EndTag(node.end)) ==
        PrintNode(FixedWith(node))
  {
    var t, inner, fixed := node.trim, InnerWith(node), FixedWith(node);
    var guard := fixed.body[0];
    var overList := guard.els.value.body[0];
    PrintNested(Range, t, Dot, inner, None, t);
    PrintSingle(overList);
    PrintNested(If, t, IsMap(Dot), inner, guard.els, t);
    PrintNested(With, t, fixed.e, guard, None, node.end);
    var innerTokens := [Open(With, t, inner.e)] + Print(node.body) + PrintElse(node.els) + [EndTag(node.end)];
    assert PrintNode(inner) == innerTokens;
    Assemble(Open(With, t, fixed.e), Open(If, t, IsMap(Dot)), innerTokens, ElseTag(t), Open(Range, t, Dot), EndTag(t),
        EndTag(node.end));
  }

  lemma {:induction false} Assemble(a: Token, b: Token, inner: seq<Token>, c: Token, d: Token, e: Token, f: Token)
    ensures [a, b] + inner + [c, d] + inner + [e, e, f]
         == [a] + ([b] + inner + ([c] + ([d] + inner + [] + [e])) + [e]) + [] + [f]
  {
  }

  lemma {:induction false} FixTokensNode(tokens: seq<Token>, i: nat, node: Node)
    requires At(tokens, i, PrintNode(node))
    ensures FixTokens(tokens, i) == PrintNode(FixWithNode(node)) + FixTokens(tokens, i + |PrintNode(node)|)
    decreases node, 2
  {
    hide Replacement;
    if !node.Block? {
      AtOne(tokens, i, Plain(node));
    } else {
      var elseAt, endAt := BlockLayout(tokens, i, node);
      FixTokensBlock(tokens, i, node, elseAt, endAt);
    }
  }

  lemma {:induction false} FixTokensBlock(tokens: seq<Token>, i: nat, node: Node, elseAt: nat, endAt: nat)
    requires node.Block? && BlockAtPositions(tokens, i, node, elseAt, endAt)
    ensures FixTokens(tokens, i) == PrintNode(FixWithNode(node)) + FixTokens(tokens, endAt + 1)
    decreases node, 1
  {
    hide FixTokens, Replacement, PrintNode;
    if ChainedWith(node) {
      ChainedBlockFixed(tokens, i, node, elseAt, endAt);
      ReplacementPrints(node);
    } else {
      FixTokensRefines(tokens, i + 1, node.body);
      FixTokensElse(tokens, node.els, elseAt, endAt);
      PlainBlockFixed(tokens, i, node, elseAt, endAt);
    }
  }

  lemma {:induction false} CopiedElse(tokens: seq<Token>, i: nat)
    requires i < |tokens| && tokens[i].ElseTag?
    ensures FixTokens(tokens, i) == [tokens[i]] + FixTokens(tokens, i + 1)
  {
  }

  lemma {:induction false} FixTokensElse(tokens: seq<Token>, els: Option<Else>, elseAt: nat, endAt: nat)
    requires endAt < |tokens|
    requires match els case None => elseAt == endAt case Some(l) => ElseAtPositions(tokens, l, elseAt, endAt)
    ensures FixTokens(tokens, elseAt) == PrintElse(FixWithElse(els)) + FixTokens(tokens, endAt)
    decreases els, 1
  {
    hide FixTokens;
    if els.Some? {
      CopiedElse(tokens, elseAt);
      FixTokensRefines(tokens, elseAt + 1, els.value.body);
      Moved([tokens[elseAt]], Print(FixWith(els.value.body)), FixTokens(tokens, endAt));
    }
  }

  lemma {:induction false} ChainedBlockFixed(tokens: seq<Token>, i: nat, node: Node, elseAt: nat, endAt: nat)
    requires ChainedWith(node) && BlockAtPositions(tokens, i, node, elseAt, endAt)
    ensures FixTokens(tokens, i)
         == Replacement(Open(With, node.trim, node.e), Print(node.body), PrintElse(node.els), EndTag(node.end)) +
             FixTokens(tokens, endAt + 1)
  {
    hide Replacement;
    SearchFindsBlockEnd(tokens, i, node, elseAt, endAt);
    var m := BlockAt(tokens, i);
    assert m == Found(endAt, if node.els.Some? then elseAt else -1);
    assert BodyPart(tokens, i, m) == Print(node.body);
    assert ElsePart(tokens, i, m) == PrintElse(node.els) by {
      if node.els.Some? {
        ElsePrinted(tokens, node.els.value, elseAt, endAt);
      }
    }
  }

  lemma {:induction false} ElsePrinted(tokens: seq<Token>, l: Else, elseAt: nat, endAt: nat)
    requires ElseAtPositions(tokens, l, elseAt, endAt)
    ensures tokens[elseAt..endAt] == PrintElse(Some(l))
  {
    assert tokens[elseAt..endAt] == [tokens[elseAt]] + tokens[elseAt + 1..endAt];
  }

  lemma {:induction false} PlainBlockFixed(tokens: seq<Token>, i: nat, node: Node, elseAt: nat, endAt: nat)
    requires node.Block? && !ChainedWith(node) && i < elseAt <= endAt < |tokens|
    requires tokens[i] == Open(node.kind, node.trim, node.e) && tokens[endAt] == EndTag(node.end)
    requires FixTokens(tokens, i + 1) == Print(FixWith(node.body)) + FixTokens(tokens, elseAt)
    requires FixTokens(tokens, elseAt) == PrintElse(FixWithElse(node.els)) + FixTokens(tokens, endAt)
    ensures FixTokens(tokens, i) == PrintNode(FixWithNode(node)) + FixTokens(tokens, endAt + 1)
  {
    hide Replacement;
    var end, after := [EndTag(node.end)], FixTokens(tokens, endAt + 1);
    assert FixTokens(tokens, endAt) == end + after;
    assert FixTokens(tokens, i) == [tokens[i]] + FixTokens(tokens, i + 1);
    Regroup([tokens[i]], Print(FixWith(node.body)), PrintElse(FixWithElse(node.els)), end, after);
  }

  lemma {:induction false} Regroup(open: seq<Token>, body: seq<Token>, els: seq<Token>, end: seq<Token>,
          after: seq<Token>)
    ensures open + (body + (els + (end + after))) == (open + (body + (els + end))) + after
  {
  }

  lemma {:induction false} PrintCons(nodes: seq<Node>)
    requires nodes != []
    ensures Print(nodes) == PrintNode(nodes[0]) + Print(nodes[1..])
    ensures Print(FixWith(nodes)) == PrintNode(FixWithNode(nodes[0])) + Print(FixWith(nodes[1..]))
  {
    assert FixWith(nodes)[1..] == FixWith(nodes[1..]);
  }

  lemma {:induction false} PrintEmpty()
    ensures Print([]) == [] && Print(FixWith([])) == []
  {
  }

  lemma {:induction false} FixTokensRefines(tokens: seq<Token>, i: nat, nodes: seq<Node>)
    requires At(tokens, i, Print(nodes))
    ensures FixTokens(tokens, i) == Print(FixWith(nodes)) + FixTokens(tokens, i + |Print(nodes)|)
    decreases nodes, 0
  {
    hide *;
    if nodes == [] {
      PrintEmpty();
    } else {
      PrintCons(nodes);
      AtConcat(tokens, i, PrintNode(nodes[0]), Print(nodes[1..]));
      var next := i + |PrintNode(nodes[0])|;
      FixTokensNode(tokens, i, nodes[0]);
      FixTokensRefines(tokens, next, nodes[1..]);
      Moved(PrintNode(FixWithNode(nodes[0])), Print(FixWith(nodes[1..])), FixTokens(tokens, i + |Print(nodes)|));
    }
  }

  /** Repairing the printed tokens prints the repaired template. */
  lemma {:induction false} TokenRepairIsTemplateRepair(nodes: seq<Node>)
    ensures FixTokens(Print(nodes), 0) == Print(FixWith(nodes))
  {
    hide FixTokens;
    var tokens := Print(nodes);
    assert tokens[0..0 + |tokens|] == tokens;
    FixTokensRefines(tokens, 0, nodes);
    PastTheEnd(tokens);
  }

  lemma {:induction false} PastTheEnd(tokens: seq<Token>)
    ensures FixTokens(tokens, 0 + |tokens|) == []
  {
  }
}
