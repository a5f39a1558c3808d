/** How many passes a template needs, and what no number of passes repairs. */
module TemplateCount {
  import opened Wrappers
  import opened TemplateAst
  import opened TemplateFix
  import opened TemplateAssign
  import opened TemplateRepair

  // --- the measure ------------------------------------------------------------------------------

  function Max(a: nat, b: nat): nat { if a < b then b else a }

  function Less(n: nat): nat { if n == 0 then 0 else n - 1 }

  /** The keys of a chained `with` block beyond the first. */
  function Own(node: Node): nat {
    if ChainedWith(node) then |node.e.keys| - 1 else 0
  }

  /**
   The further passes that `k` surplus keys of a single-line block take, after `above` of them:
   each pass takes one key off by the single-line step, and one more once no other block is left
   above.
   */
  function Rest(k: nat, above: nat): nat {
    if k > above then (k - above + 1) / 2 else 0
  }

  /**
   The passes needed on the way down to any node: one for each surplus key, those above first, and
   one for two of a single-line block.
   */
  function Need(nodes: seq<Node>, above: nat): (n: nat)
    ensures n >= above
  {
    if nodes == [] then above else Max(NeedNode(nodes[0], above), Need(nodes[1..], above))
  }

  function NeedNode(node: Node, above: nat): (n: nat)
    ensures n >= above
  {
    if !node.Block? then above
    else if InlineChained(node) then above + Rest(Own(node), above)
    else Max(Need(node.body, above + Own(node)), NeedElse(node.els, above + Own(node)))
  }

  function NeedElse(els: Option<Else>, above: nat): (n: nat)
    ensures n >= above
  {
    match els case None => above case Some(l) => Need(l.body, above)
  }

  /** The same after the single-line step of a pass: the passes needed when that pass is over. */
  function Mid(nodes: seq<Node>, above: nat): nat {
    if nodes == [] then Less(above) else Max(MidNode(nodes[0], above), Mid(nodes[1..], above))
  }

  function MidNode(node: Node, above: nat): nat {
    if !node.Block? then Less(above)
    else if InlineChained(node) then Less(above) + Rest(Own(node), if above > 0 then above - 1 else 1)
    else Max(Mid(node.body, above + Own(node)), MidElse(node.els, above + Own(node)))
  }

  function MidElse(els: Option<Else>, above: nat): nat {
    match els case None => Less(above) case Some(l) => Mid(l.body, above)
  }

  lemma {:induction false} Single(node: Node, above: nat)
    ensures Need([node], above) == NeedNode(node, above)
    ensures MidNode(node, above) >= Less(above) ==> Mid([node], above) == MidNode(node, above)
  {
    assert [node][1..] == [];
  }

  lemma {:induction false} MidAtLeast(nodes: seq<Node>, above: nat)
    ensures Mid(nodes, above) >= Less(above)
  {
    if nodes != [] {
      MidAtLeast(nodes[1..], above);
    }
  }

  lemma {:induction false} MidNodeAtLeast(node: Node, above: nat)
    ensures MidNode(node, above) >= Less(above)
  {
    if node.Block? && !InlineChained(node) {
      MidAtLeast(node.body, above + Own(node));
    }
  }

  lemma {:induction false} PlainNeed(nodes: seq<Node>, above: nat)
    requires PlainText(nodes)
    ensures Need(nodes, above) == above && Mid(nodes, above) == Less(above)
  {
    if nodes != [] {
      Single(nodes[0], above);
      assert nodes == [nodes[0]];
    }
  }

  // --- the single-line step -----------------------------------------------------------------------

  lemma {:induction false} InlineKeepsPlain(nodes: seq<Node>)
    ensures |FixInline(nodes)| == |nodes| && (PlainText(FixInline(nodes)) <==> PlainText(nodes))
  {
    if nodes != [] {
      InlineKeepsPlain(nodes[1..]);
    }
  }

  /** A block that is none for the single-line step is none after it either. */
  lemma {:induction false} InlineKeepsKind(node: Node)
    requires node.Block? && !InlineChained(node)
    ensures var fixed := FixInlineNode(node);
      fixed.Block? && !InlineChained(fixed) && Own(fixed) == Own(node)
  {
    InlineKeepsPlain(node.body);
    if node.els.Some? { InlineKeepsPlain(node.els.value.body); }
  }

  lemma {:induction false} InlineHalf(k: nat, above: nat)
    requires k >= 1
    ensures Less(above) + Rest(k - 1, if above > 0 then above - 1 else 1) == Less(above + Rest(k, above))
  {
  }

  /** The repaired block has as many passes before it as the block inside it. */
  lemma {:induction false} InlineMid(node: Node, above: nat)
    requires InlineChained(node)
    ensures MidNode(FixedInline(node), above) == MidNode(InnerWith(node), above)
  {
    var inner, fixed := InnerWith(node), FixedInline(node);
    var guard := fixed.body[0];
    PlainNeed(node.els.value.body, above);
    MidNodeAtLeast(inner, above);
    MidNodeAtLeast(guard, above);
    Single(inner, above);
    Single(guard, above);
    assert !InlineChained(guard) && !InlineChained(fixed) && Own(guard) == 0 && Own(fixed) == 0;
    hide InlineChained, PlainText, Own;
  }

  lemma {:induction false} InlineInner(node: Node, above: nat)
    requires InlineChained(node)
    ensures MidNode(InnerWith(node), above) == Less(above) + Rest(Own(node) - 1, if above > 0 then above - 1 else 1)
  {
    PlainNeed(node.body, above);
    PlainNeed(node.els.value.body, above);
  }

  lemma {:induction false} InlineBlockStep(node: Node, above: nat)
    requires InlineChained(node)
    ensures MidNode(FixedInline(node), above) == Less(NeedNode(node, above))
  {
    assert NeedNode(node, above) == above + Rest(Own(node), above) && Own(node) >= 1;
    InlineMid(node, above);
    InlineInner(node, above);
    InlineHalf(Own(node), above);
  }

  lemma {:induction false} InlineStep(nodes: seq<Node>, above: nat)
    ensures Mid(FixInline(nodes), above) == Less(Need(nodes, above))
  {
    if nodes != [] {
      InlineNodeStep(nodes[0], above);
      InlineStep(nodes[1..], above);
    }
  }

  lemma {:induction false} InlineNodeStep(node: Node, above: nat)
    ensures MidNode(FixInlineNode(node), above) == Less(NeedNode(node, above))
  {
    if InlineChained(node) {
      InlineBlockStep(node, above);
    } else if node.Block? {
      InlineStep(node.body, above + Own(node));
      if node.els.Some? { InlineStep(node.els.value.body, above + Own(node)); }
      InlineOtherStep(node, above);
    }
  }

  lemma {:induction false} InlineOtherStep(node: Node, above: nat)
    requires node.Block? && !InlineChained(node)
    requires Mid(FixInline(node.body), above + Own(node)) == Less(Need(node.body, above + Own(node)))
    requires node.els.Some? ==>
        Mid(FixInline(node.els.value.body), above + Own(node)) == Less(Need(node.els.value.body, above + Own(node)))
    ensures MidNode(FixInlineNode(node), above) == Less(NeedNode(node, above))
  {
    InlineKeepsKind(node);
    hide InlineChained, Own, FixInline, Mid, Need;
  }

  // --- the `with` step ----------------------------------------------------------------------------

  /** What stands below a surplus key waits for it. */
  lemma {:induction false} MidBelow(nodes: seq<Node>, above: nat)
    requires above > 0
    ensures Mid(nodes, above) == Need(nodes, above - 1)
  {
    if nodes != [] {
      MidNodeBelow(nodes[0], above);
      MidBelow(nodes[1..], above);
    }
  }

  lemma {:induction false} MidNodeBelow(node: Node, above: nat)
    requires above > 0
    ensures MidNode(node, above) == NeedNode(node, above - 1)
  {
    if node.Block? && !InlineChained(node) {
      MidBelow(node.body, above + Own(node));
      if node.els.Some? { MidBelow(node.els.value.body, above + Own(node)); }
    }
  }

  lemma {:induction false} InnerNeed(node: Node)
    requires ChainedWith(node)
    ensures NeedNode(InnerWith(node), 0) == MidNode(node, 0)
  {
    var inner := InnerWith(node);
    if InlineChained(node) {
      PlainNeed(node.body, 0);
      PlainNeed(node.els.value.body, 0);
    } else {
      assert !InlineChained(inner) && Own(inner) == Own(node) - 1;
      MidBelow(node.body, Own(node));
      if node.els.Some? { MidBelow(node.els.value.body, Own(node)); }
    }
  }

  lemma {:induction false} WithBlockStep(node: Node)
    requires ChainedWith(node)
    ensures NeedNode(FixedWith(node), 0) == MidNode(node, 0)
  {
    var inner, fixed := InnerWith(node), FixedWith(node);
    var guard := fixed.body[0];
    var overList := guard.els.value.body[0];
    Single(inner, 0);
    Single(guard, 0);
    Single(overList, 0);
    assert Own(guard) == 0 && Own(fixed) == 0 && Own(overList) == 0;
    assert NeedNode(overList, 0) == NeedNode(inner, 0) && NeedNode(guard, 0) == NeedNode(inner, 0);
    InnerNeed(node);
  }

  lemma {:induction false} WithStep(nodes: seq<Node>)
    ensures Need(FixWith(nodes), 0) == Mid(nodes, 0)
  {
    if nodes != [] {
      WithNodeStep(nodes[0]);
      WithStep(nodes[1..]);
      assert FixWith(nodes)[1..] == FixWith(nodes[1..]);
    }
  }

  lemma {:induction false} WithNodeStep(node: Node)
    ensures NeedNode(FixWithNode(node), 0) == MidNode(node, 0)
  {
    if ChainedWith(node) {
      WithBlockStep(node);
    } else if node.Block? {
      WithStep(node.body);
      if node.els.Some? { WithStep(node.els.value.body); }
    }
  }

  // --- the declaration step -----------------------------------------------------------------------

  lemma {:induction false} NeedConcat(left: seq<Node>, right: seq<Node>, above: nat)
    ensures Need(left + right, above) == Max(Need(left, above), Need(right, above))
  {
    if left == [] {
      assert left + right == right;
    } else {
      assert (left + right)[0] == left[0] && (left + right)[1..] == left[1..] + right;
      NeedConcat(left[1..], right, above);
    }
  }

  lemma {:induction false} AssignKeepsPlain(nodes: seq<Node>)
    ensures |FixAssign(nodes)| >= |nodes| && (PlainText(FixAssign(nodes)) <==> PlainText(nodes))
  {
    if nodes != [] {
      AssignKeepsPlain(nodes[1..]);
      var first := FixAssignNode(nodes[0]);
      assert |first| >= 1 && (|first| == 1 ==> (first[0].Text? <==> nodes[0].Text?));
      assert nodes[0].Text? ==> first == [nodes[0]];
      assert FixAssign(nodes) == first + FixAssign(nodes[1..]);
    }
  }

  lemma {:induction false} AssignStep(nodes: seq<Node>, above: nat)
    ensures Need(FixAssign(nodes), above) == Need(nodes, above)
  {
    if nodes != [] {
      AssignNodeStep(nodes[0], above);
      AssignStep(nodes[1..], above);
      NeedConcat(FixAssignNode(nodes[0]), FixAssign(nodes[1..]), above);
    }
  }

  lemma {:induction false} AssignBlockStep(node: Node, above: nat)
    requires node.Block?
    requires Need(FixAssign(node.body), above + Own(node)) == Need(node.body, above + Own(node))
    requires node.els.Some? ==>
        Need(FixAssign(node.els.value.body), above + Own(node)) == Need(node.els.value.body, above + Own(node))
    ensures NeedNode(FixAssignNode(node)[0], above) == NeedNode(node, above)
  {
    AssignKeepsPlain(node.body);
    if node.els.Some? { AssignKeepsPlain(node.els.value.body); }
    var fixed := FixAssignNode(node)[0];
    assert InlineChained(fixed) <==> InlineChained(node);
    assert Own(fixed) == Own(node);
  }

  lemma {:induction false} DeclStep(node: Node, above: nat)
    requires ChainedDecl(node)
    ensures Need(FixedDecl(node), above) == above
  {
    var fixed := FixedDecl(node);
    assert fixed == [fixed[0]] + ([fixed[1]] + [fixed[2]]);
    NeedConcat([fixed[0]], [fixed[1]] + [fixed[2]], above);
    NeedConcat([fixed[1]], [fixed[2]], above);
    Single(fixed[0], above);
    Single(fixed[1], above);
    Single(fixed[2], above);
    Single(fixed[2].body[0], above);
    assert Own(fixed[2]) == 0 && !InlineChained(fixed[2]);
  }

  lemma {:induction false} AssignNodeStep(node: Node, above: nat)
    ensures Need(FixAssignNode(node), above) == NeedNode(node, above)
  {
    if ChainedDecl(node) {
      DeclStep(node, above);
    } else {
      if node.Block? {
        AssignStep(node.body, above + Own(node));
        if node.els.Some? { AssignStep(node.els.value.body, above + Own(node)); }
        AssignBlockStep(node, above);
      }
      Single(FixAssignNode(node)[0], above);
    }
  }

  // --- when the passes are enough -------------------------------------------------------------------

  lemma {:induction false} PassesRemove(nodes: seq<Node>, n: nat)
    ensures Need(Passes(nodes, n), 0) == if Need(nodes, 0) <= n then 0 else Need(nodes, 0) - n
  {
    if n > 0 {
      PassesRemove(nodes, n - 1);
      var before := Passes(nodes, n - 1);
      InlineStep(before, 0);
      WithStep(FixInline(before));
      AssignStep(FixWith(FixInline(before)), 0);
    }
  }

  predicate NoChainedWith(nodes: seq<Node>) {
    forall i :: 0 <= i < |nodes| ==> NoChainedWithNode(nodes[i])
  }

  predicate NoChainedWithNode(node: Node) {
    && !ChainedWith(node)
    && (node.Block? ==>
      && (forall i :: 0 <= i < |node.body| ==> NoChainedWithNode(node.body[i]))
      && (node.els.Some? ==> forall i :: 0 <= i < |node.els.value.body| ==> NoChainedWithNode(node.els.value.body[i])))
  }

  lemma {:induction false} NoneNeeded(nodes: seq<Node>)
    ensures Need(nodes, 0) == 0 <==> NoChainedWith(nodes)
  {
    if nodes != [] {
      NoneNeededNode(nodes[0]);
      NoneNeeded(nodes[1..]);
      assert nodes == [nodes[0]] + nodes[1..];
    }
  }

  lemma {:induction false} NoneNeededNode(node: Node)
    ensures NeedNode(node, 0) == 0 <==> NoChainedWithNode(node)
  {
    if node.Block? && !ChainedWith(node) {
      NoneNeeded(node.body);
      if node.els.Some? { NoneNeeded(node.els.value.body); }
    }
  }

  /**
   Passes rid a template of chained `with` blocks exactly when there are as many as it needs; one
   clears the declarations.
   */
  lemma {:induction false} PassesSufficeExactly(nodes: seq<Node>, n: nat)
    ensures NoChainedWith(Passes(nodes, n)) <==> Need(nodes, 0) <= n
    ensures n > 0 ==> NoChainedDecl(Passes(nodes, n))
  {
    PassesRemove(nodes, n);
    NoneNeeded(Passes(nodes, n));
    if n > 0 {
      FixAssignClears(FixWith(FixInline(Passes(nodes, n - 1))));
    }
  }

  /** The most surplus keys met on the way down to any node. */
  function Surplus(nodes: seq<Node>): nat {
    if nodes == [] then 0 else Max(SurplusNode(nodes[0]), Surplus(nodes[1..]))
  }

  function SurplusNode(node: Node): nat {
    if !node.Block? then 0
    else Own(node) + Max(Surplus(node.body), match node.els case None => 0 case Some(l) => Surplus(l.body))
  }

  lemma {:induction false} NeedIsSurplus(nodes: seq<Node>, above: nat)
    requires InlineFree(nodes)
    ensures Need(nodes, above) == above + Surplus(nodes)
  {
    if nodes != [] {
      NeedNodeIsSurplus(nodes[0], above);
      NeedIsSurplus(nodes[1..], above);
    }
  }

  lemma {:induction false} NeedNodeIsSurplus(node: Node, above: nat)
    requires InlineFreeNode(node)
    ensures NeedNode(node, above) == above + SurplusNode(node)
  {
    if node.Block? {
      NeedIsSurplus(node.body, above + Own(node));
      if node.els.Some? { NeedIsSurplus(node.els.value.body, above + Own(node)); }
    }
  }

  /** Without single-line blocks ten passes are enough exactly up to ten surplus keys on a path. */
  lemma {:induction false} TenPassesSufficeExactly(nodes: seq<Node>)
    ensures NoChainedWith(Passes(nodes, 10)) <==> Need(nodes, 0) <= 10
    ensures InlineFree(nodes) ==> (NoChainedWith(Passes(nodes, 10)) <==> Surplus(nodes) <= 10)
    ensures NoChainedDecl(Passes(nodes, 10))
  {
    PassesSufficeExactly(nodes, 10);
    if InlineFree(nodes) {
      NeedIsSurplus(nodes, 0);
    }
  }

  /** Ten are too few for one block with twelve keys. */
  lemma {:induction false} TenCanBeTooFew(t: Trim, keys: seq<string>)
    requires |keys| >= 12
    ensures !NoChainedWith(Passes([Block(With, t, Index(Dot, keys), [], None, t)], 10))
  {
    var node := Block(With, t, Index(Dot, keys), [], None, t);
    Single(node, 0);
    assert NeedNode(node, 0) == |keys| - 1;
    PassesSufficeExactly([node], 10);
  }

  // --- what no number of passes repairs ----------------------------------------------------------

  /** No plain assignment indexes by several keys, and no declaration by more than two. */
  predicate ShortAssigns(nodes: seq<Node>) {
    forall i :: 0 <= i < |nodes| ==> ShortAssignsNode(nodes[i])
  }

  predicate ShortAssignsNode(node: Node) {
    && (node.Assign? ==> !ChainedIndex(node.e))
    && (ChainedDecl(node) ==> |node.e.keys| == 2)
    && (node.Block? ==>
      && (forall i :: 0 <= i < |node.body| ==> ShortAssignsNode(node.body[i]))
      && (node.els.Some? ==> forall i :: 0 <= i < |node.els.value.body| ==> ShortAssignsNode(node.els.value.body[i])))
  }

  lemma {:induction false} ShortAssignsConcat(left: seq<Node>, right: seq<Node>)
    ensures ShortAssigns(left + right) <==> ShortAssigns(left) && ShortAssigns(right)
  {
    if ShortAssigns(left + right) {
      forall i | 0 <= i < |right| ensures ShortAssignsNode(right[i]) {
        assert (left + right)[|left| + i] == right[i];
      }
      forall i | 0 <= i < |left| ensures ShortAssignsNode(left[i]) {
        assert (left + right)[i] == left[i];
      }
    }
  }

  lemma {:induction false} PlainIsShort(nodes: seq<Node>)
    requires PlainText(nodes)
    ensures ShortAssigns(nodes)
  {
  }

  lemma {:induction false} FixInlineKeepsAssigns(nodes: seq<Node>)
    ensures ShortAssigns(FixInline(nodes)) <==> ShortAssigns(nodes)
  {
    if nodes != [] {
      FixInlineNodeKeepsAssigns(nodes[0]);
      FixInlineKeepsAssigns(nodes[1..]);
      var first, rest := FixInlineNode(nodes[0]), FixInline(nodes[1..]);
      assert FixInline(nodes) == [first] + rest && [nodes[0]] + nodes[1..] == nodes;
      hide FixInlineNode, FixInline, ShortAssignsNode;
      ShortAssignsConcat([first], rest);
      ShortAssignsConcat([nodes[0]], nodes[1..]);
      assert ShortAssigns([first]) <==> ShortAssignsNode([first][0]);
      assert ShortAssigns([nodes[0]]) <==> ShortAssignsNode([nodes[0]][0]);
    }
  }

  lemma {:induction false} FixInlineNodeKeepsAssigns(node: Node)
    ensures ShortAssignsNode(FixInlineNode(node)) <==> ShortAssignsNode(node)
  {
    if InlineChained(node) {
      var inner, fixed := InnerWith(node), FixedInline(node);
      var guard := fixed.body[0];
      PlainIsShort(node.body);
      PlainIsShort(node.els.value.body);
      assert ShortAssignsNode(inner) && ShortAssignsNode(node);
      assert ShortAssignsNode(guard);
      assert ShortAssignsNode(fixed);
    } else if node.Block? {
      FixInlineKeepsAssigns(node.body);
      if node.els.Some? { FixInlineKeepsAssigns(node.els.value.body); }
    }
  }

  lemma {:induction false} FixWithKeepsAssigns(nodes: seq<Node>)
    ensures ShortAssigns(FixWith(nodes)) <==> ShortAssigns(nodes)
  {
    if nodes != [] {
      FixWithNodeKeepsAssigns(nodes[0]);
      FixWithKeepsAssigns(nodes[1..]);
      var first, rest := FixWithNode(nodes[0]), FixWith(nodes[1..]);
      assert FixWith(nodes) == [first] + rest && nodes == [nodes[0]] + nodes[1..];
      hide FixWithNode, FixWith, ShortAssignsNode;
      ShortAssignsConcat([first], rest);
      ShortAssignsConcat([nodes[0]], nodes[1..]);
      assert ShortAssigns([first]) <==> ShortAssignsNode([first][0]);
      assert ShortAssigns([nodes[0]]) <==> ShortAssignsNode([nodes[0]][0]);
    }
  }

  lemma {:induction false} FixWithNodeKeepsAssigns(node: Node)
    ensures ShortAssignsNode(FixWithNode(node)) <==> ShortAssignsNode(node)
  {
    if ChainedWith(node) {
      var inner, fixed := InnerWith(node), FixedWith(node);
      var guard := fixed.body[0];
      assert ShortAssignsNode(inner) <==> ShortAssignsNode(node);
      var overList := guard.els.value.body[0];
      assert overList.body[0] == inner && guard.body[0] == inner;
      assert ShortAssignsNode(overList) <==> ShortAssignsNode(inner);
      assert ShortAssignsNode(guard) <==> ShortAssignsNode(inner);
      assert ShortAssignsNode(fixed) <==> ShortAssignsNode(guard);
    } else if node.Block? {
      FixWithKeepsAssigns(node.body);
      if node.els.Some? { FixWithKeepsAssigns(node.els.value.body); }
    }
  }

  lemma {:induction false} FixAssignKeepsAssigns(nodes: seq<Node>)
    ensures ShortAssigns(FixAssign(nodes)) <==> ShortAssigns(nodes)
  {
    if nodes != [] {
      FixAssignNodeKeepsAssigns(nodes[0]);
      FixAssignKeepsAssigns(nodes[1..]);
      ShortAssignsConcat(FixAssignNode(nodes[0]), FixAssign(nodes[1..]));
    }
  }

  lemma {:induction false} FixAssignNodeKeepsAssigns(node: Node)
    ensures ShortAssigns(FixAssignNode(node)) <==> ShortAssignsNode(node)
  {
    var fixed := FixAssignNode(node);
    if ChainedDecl(node) {
      assert ShortAssignsNode(fixed[0]) && ShortAssignsNode(fixed[1]);
      assert ShortAssignsNode(fixed[2]) <==> ShortAssignsNode(fixed[2].body[0]);
    } else if node.Block? {
      FixAssignKeepsAssigns(node.body);
      if node.els.Some? { FixAssignKeepsAssigns(node.els.value.body); }
      assert ShortAssigns(fixed) <==> ShortAssignsNode(fixed[0]);
    } else {
      assert ShortAssigns(fixed) <==> ShortAssignsNode(fixed[0]);
    }
  }

  /** A chained assignment, or a declaration by three or more keys, outlives every pass; nothing else does. */
  lemma {:induction false} PassesKeepAssigns(nodes: seq<Node>, n: nat)
    ensures ShortAssigns(Passes(nodes, n)) <==> ShortAssigns(nodes)
  {
    if n > 0 {
      PassesKeepAssigns(nodes, n - 1);
      var before := Passes(nodes, n - 1);
      FixInlineKeepsAssigns(before);
      FixWithKeepsAssigns(FixInline(before));
      FixAssignKeepsAssigns(FixWith(FixInline(before)));
    }
  }
}
