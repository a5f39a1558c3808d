/** The token-level repair keeps every token list well nested. */
module TemplateNesting {
  import opened Wrappers
  import opened TemplateAst
  import opened TemplateTokens

  function Step(t: Token, depth: nat): Option<nat> {
    if Opens(t) then Some(depth + 1)
    else if t.EndTag? then (if depth == 0 then None else Some(depth - 1))
    else if t.ElseTag? && depth == 0 then None
    else Some(depth)
  }

  /** The nesting depth after a token list; none if an end or else tag stood outside every block. */
  function Scan(ts: seq<Token>, depth: nat): Option<nat> {
    if ts == [] then Some(depth)
    else match Step(ts[0], depth) case None => None case Some(d) => Scan(ts[1..], d)
  }

  predicate WellNested(ts: seq<Token>) {
    Scan(ts, 0) == Some(0)
  }

  function Then(d: Option<nat>, ts: seq<Token>): Option<nat> {
    match d case None => None case Some(depth) => Scan(ts, depth)
  }

  lemma {:induction false} ScanConcat(left: seq<Token>, right: seq<Token>, depth: nat)
    ensures Scan(left + right, depth) == Then(Scan(left, depth), right)
  {
    if left == [] {
      assert left + right == right;
    } else {
      assert (left + right)[0] == left[0] && (left + right)[1..] == left[1..] + right;
      var d := Step(left[0], depth);
      if d.Some? { ScanConcat(left[1..], right, d.value); }
    }
  }

  lemma {:induction false} ScanOne(t: Token, depth: nat)
    ensures Scan([t], depth) == Step(t, depth)
  {
    assert [t][1..] == [];
  }

  lemma {:induction false} SearchScanEnd(tokens: seq<Token>, i: nat, depth: nat, els: int, c: nat)
    requires depth >= 1 && els < i && Search(tokens, i, depth, els).Found?
    ensures Scan(tokens[i..Search(tokens, i, depth, els).end], depth + c) == Some(1 + c)
    decreases |tokens| - i
  {
    var m := Search(tokens, i, depth, els);
    if m.end > i {
      var d := depth + Delta(tokens[i]);
      SearchScanEnd(tokens, i + 1, d, if tokens[i].ElseTag? && depth == 1 then i else els, c);
      ScanFrom(tokens, i, m.end, depth + c);
    }
  }

  lemma {:induction false} SearchScanElse(tokens: seq<Token>, i: nat, depth: nat, els: int, c: nat)
    requires depth >= 1 && els < i && Search(tokens, i, depth, els).Found?
    ensures var m := Search(tokens, i, depth, els);
      && (m.els >= i ==> Scan(tokens[i..m.els], depth + c) == Some(1 + c))
      && (m.els >= i ==> Scan(tokens[m.els..m.end], 1 + c) == Some(1 + c))
    decreases |tokens| - i
  {
    var m := Search(tokens, i, depth, els);
    if m.els == i {
      SearchScanEnd(tokens, i, depth, els, c);
      assert tokens[i..i] == [];
    } else if m.els > i {
      var d := depth + Delta(tokens[i]);
      SearchScanElse(tokens, i + 1, d, if tokens[i].ElseTag? && depth == 1 then i else els, c);
      ScanFrom(tokens, i, m.els, depth + c);
    }
  }

  /** Up to the end tag that Search finds the depth comes back to 1, at whatever depth `c` the block lies. */
  lemma {:induction false} SearchScan(tokens: seq<Token>, i: nat, depth: nat, els: int, c: nat)
    requires depth >= 1 && els < i && Search(tokens, i, depth, els).Found?
    ensures var m := Search(tokens, i, depth, els);
      && Scan(tokens[i..m.end], depth + c) == Some(1 + c)
      && (m.els >= i ==> Scan(tokens[i..m.els], depth + c) == Some(1 + c))
      && (m.els >= i ==> Scan(tokens[m.els..m.end], 1 + c) == Some(1 + c))
  {
    hide *;
    SearchScanEnd(tokens, i, depth, els, c);
    SearchScanElse(tokens, i, depth, els, c);
  }

  lemma {:induction false} ScanFrom(tokens: seq<Token>, i: nat, end: nat, depth: nat)
    requires i < end <= |tokens|
    ensures Scan(tokens[i..end], depth) == Then(Step(tokens[i], depth), tokens[i + 1..end])
  {
    assert tokens[i..end][1..] == tokens[i + 1..end];
  }

  /** A piece that leaves the depth as it was. */
  ghost predicate Neutral(ts: seq<Token>, depth: nat) {
    Scan(ts, depth) == Some(depth)
  }

  lemma {:induction false} NeutralConcat(left: seq<Token>, right: seq<Token>, depth: nat)
    requires Neutral(left, depth) && Neutral(right, depth)
    ensures Neutral(left + right, depth)
  {
    ScanConcat(left, right, depth);
  }

  lemma {:induction false} Enclosed(open: Token, mid: seq<Token>, end: Token, depth: nat)
    requires Opens(open) && end.EndTag? && Neutral(mid, depth + 1)
    ensures Neutral([open] + mid + [end], depth)
  {
    ScanConcat([open] + mid, [end], depth);
    ScanConcat([open], mid, depth);
    ScanOne(open, depth);
    ScanOne(end, depth + 1);
  }

  lemma {:induction false} ReplacementIsNeutral(open: Token, body: seq<Token>, els: seq<Token>, end: Token, depth: nat)
    requires ChainedOpen(open) && end.EndTag?
    requires forall d :: d > depth ==> Neutral(body, d) && Neutral(els, d)
    ensures Neutral(Replacement(open, body, els, end), depth)
  {
    var t := open.trim;
    var first, test, again, list := Open(With, t, Index(open.e.base, [open.e.keys[0]])), Open(If, t, IsMap(Dot)),
        ElseTag(t), Open(Range, t, Dot);
    var rest := Open(With, t, Index(Dot, open.e.keys[1..]));
    var mid := body + els;
    NeutralConcat(body, els, depth + 3);
    NeutralConcat(body, els, depth + 4);
    var inner := [rest] + mid + [end];
    Enclosed(rest, mid, end, depth + 2);
    Enclosed(rest, mid, end, depth + 3);
    var loop := [list] + inner + [EndTag(t)];
    Enclosed(list, inner, EndTag(t), depth + 2);
    ScanOne(again, depth + 2);
    NeutralConcat([again], loop, depth + 2);
    NeutralConcat(inner, [again] + loop, depth + 2);
    Enclosed(test, inner + ([again] + loop), EndTag(t), depth + 1);
    Enclosed(first, [test] + (inner + ([again] + loop)) + [EndTag(t)], end, depth);
    Reassemble(open, body, els, end);
  }

  lemma {:induction false} Reassemble(open: Token, body: seq<Token>, els: seq<Token>, end: Token)
    requires ChainedOpen(open)
    ensures var t := open.trim;
      var inner := [Open(With, t, Index(Dot, open.e.keys[1..]))] + (body + els) + [end];
      var loop := [Open(Range, t, Dot)] + inner + [EndTag(t)];
      Replacement(open, body, els, end)
        == [Open(With, t, Index(open.e.base, [open.e.keys[0]]))]
           + ([Open(If, t, IsMap(Dot))] + (inner + ([ElseTag(t)] + loop)) + [EndTag(t)]) + [end]
  {
  }

  /** Found block: its parts are neutral inside it, and the block as a whole is neutral. */
  lemma {:induction false} BlockIsNeutral(tokens: seq<Token>, i: nat, depth: nat)
    requires i < |tokens| && BlockAt(tokens, i).Found?
    ensures var m := BlockAt(tokens, i);
      && tokens[m.end].EndTag?
      && Neutral(tokens[i..m.end + 1], depth)
      && (forall d :: d > depth ==> Neutral(BodyPart(tokens, i, m), d) && Neutral(ElsePart(tokens, i, m), d))
  {
    var m := BlockAt(tokens, i);
    SearchIsFirstReturn(tokens, i + 1, 1, -1);
    forall d | d > depth ensures Neutral(BodyPart(tokens, i, m), d) && Neutral(ElsePart(tokens, i, m), d) {
      SearchScan(tokens, i + 1, 1, -1, d - 1);
    }
    SearchScan(tokens, i + 1, 1, -1, depth);
    Enclosed(tokens[i], tokens[i + 1..m.end], tokens[m.end], depth);
    assert tokens[i..m.end + 1] == [tokens[i]] + tokens[i + 1..m.end] + [tokens[m.end]];
  }

  lemma {:induction false} FixTokensKeepsDepth(tokens: seq<Token>, i: nat, depth: nat)
    requires i <= |tokens| && Scan(tokens[i..], depth).Some?
    ensures Scan(FixTokens(tokens, i), depth) == Scan(tokens[i..], depth)
    decreases |tokens| - i
  {
    if i < |tokens| {
      var m := BlockAt(tokens, i);
      if m.NotFound? {
        FixTokensKeepsDepth(tokens, i + 1, Step(tokens[i], depth).value);
      } else {
        BlockIsNeutral(tokens, i, depth);
        var piece := Replacement(tokens[i], BodyPart(tokens, i, m), ElsePart(tokens, i, m), tokens[m.end]);
        ReplacementIsNeutral(tokens[i], BodyPart(tokens, i, m), ElsePart(tokens, i, m), tokens[m.end], depth);
        Skipped(tokens, i, m.end + 1, depth);
        FixTokensKeepsDepth(tokens, m.end + 1, depth);
        ScanConcat(piece, FixTokens(tokens, m.end + 1), depth);
        ReplacedIsPiece(tokens, i);
      }
    }
  }

  lemma {:induction false} ReplacedIsPiece(tokens: seq<Token>, i: nat)
    requires i < |tokens| && BlockAt(tokens, i).Found?
    ensures var m := BlockAt(tokens, i);
      FixTokens(tokens, i) == Replacement(tokens[i], BodyPart(tokens, i, m), ElsePart(tokens, i, m), tokens[m.end]) +
          FixTokens(tokens, m.end + 1)
  {
  }

  lemma {:induction false} Skipped(tokens: seq<Token>, i: nat, next: nat, depth: nat)
    requires i <= next <= |tokens| && Neutral(tokens[i..next], depth)
    ensures Scan(tokens[i..], depth) == Scan(tokens[next..], depth)
  {
    assert tokens[i..] == tokens[i..next] + tokens[next..];
    ScanConcat(tokens[i..next], tokens[next..], depth);
  }

  /** Every well-nested token list is mapped to a well-nested one. */
  lemma {:induction false} FixKeepsNesting(tokens: seq<Token>)
    requires WellNested(tokens)
    ensures WellNested(FixTokens(tokens, 0))
  {
    assert tokens[0..] == tokens;
    FixTokensKeepsDepth(tokens, 0, 0);
  }
}
