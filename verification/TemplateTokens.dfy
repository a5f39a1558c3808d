/**
 The token layer of pkg/stream_transform/template_fixer.go: block matching and the rewriting of
 chained `with` tags, over tags that have been classified.
 */
module TemplateTokens {
  import opened TemplateAst
  import opened TemplateFix

  /** `OpenOther` stands for block and define tags; `Plain` for text and every other action. */
  datatype Token =
    | Open(kind: Kind, trim: Trim, e: Expr)
    | OpenOther(text: string)
    | ElseTag(trim: Trim)
    | EndTag(trim: Trim)
    | Plain(node: Node)

  predicate Opens(t: Token) { t.Open? || t.OpenOther? }

  predicate ChainedOpen(t: Token) { t.Open? && t.kind == With && ChainedIndex(t.e) }

  // --- finding the matching end -------------------------------------------------------------------

  datatype Match = NotFound | Found(end: nat, els: int)

  /** Scans from position `i`, inside `depth` open blocks; `els` is the else tag seen last at depth 1. */
  function Search(tokens: seq<Token>, i: nat, depth: nat, els: int): (m: Match)
    ensures m.Found? ==> i <= m.end < |tokens| && (m.els == els || i <= m.els < m.end)
    decreases |tokens| - i
  {
    if i >= |tokens| then NotFound
    else if Opens(tokens[i]) then Search(tokens, i + 1, depth + 1, els)
    else if tokens[i].EndTag? then
      if depth <= 1 then Found(i, els) else Search(tokens, i + 1, depth - 1, els)
    else Search(tokens, i + 1, depth, if tokens[i].ElseTag? && depth == 1 then i else els)
  }

  function Delta(t: Token): int {
    if Opens(t) then 1 else if t.EndTag? then -1 else 0
  }

  /** The nesting depth on reaching position `to`, having been `depth` at position `from`. */
  function Depth(tokens: seq<Token>, from: nat, depth: int, to: nat): int
    requires from <= to <= |tokens|
  {
    if to == from then depth else Depth(tokens, from, depth, to - 1) + Delta(tokens[to - 1])
  }

  lemma {:induction false} DepthTail(tokens: seq<Token>, from: nat, depth: int, to: nat)
    requires from < to <= |tokens|
    ensures Depth(tokens, from, depth, to) == Depth(tokens, from + 1, depth + Delta(tokens[from]), to)
  {
    if to > from + 1 {
      DepthTail(tokens, from, depth, to - 1);
    }
  }

  /** Depth 1 is kept up to, and lost at, the end tag found; the else found is the last one at depth 1. */
  lemma {:induction false} SearchIsFirstReturn(tokens: seq<Token>, i: nat, depth: nat, els: int)
    requires i <= |tokens| && depth >= 1
    ensures match Search(tokens, i, depth, els)
      case NotFound => forall j :: i <= j <= |tokens| ==> Depth(tokens, i, depth, j) >= 1
      case Found(end, last) =>
        && tokens[end].EndTag? && Depth(tokens, i, depth, end + 1) == 0
        && (forall j :: i <= j <= end ==> Depth(tokens, i, depth, j) >= 1)
        && (last == els || (tokens[last].ElseTag? && Depth(tokens, i, depth, last) == 1))
        && (forall j :: i <= j < end && tokens[j].ElseTag? && Depth(tokens, i, depth, j) == 1 ==> j <= last)
    decreases |tokens| - i
  {
    if i < |tokens| {
      var d := depth + Delta(tokens[i]);
      forall j | i < j <= |tokens| ensures Depth(tokens, i, depth, j) == Depth(tokens, i + 1, d, j) {
        DepthTail(tokens, i, depth, j);
      }
      if d >= 1 {
        SearchIsFirstReturn(tokens, i + 1, d, if tokens[i].ElseTag? && depth == 1 then i else els);
      }
    }
  }

  method FindMatchingEnd(tokens: seq<Token>, startIdx: nat) returns (endIdx: int, elseIdx: int)
    requires startIdx <= |tokens|
    ensures match Search(tokens, startIdx, 1, -1)
      case NotFound => endIdx == -1 && elseIdx == -1
      case Found(end, els) => endIdx == end && elseIdx == els
  {
    var depth := 1;
    elseIdx := -1;
    for i := startIdx to |tokens|
      invariant depth >= 1
      invariant Search(tokens, startIdx, 1, -1) == Search(tokens, i, depth, elseIdx)
    {
      if Opens(tokens[i]) {
        depth := depth + 1;
      } else if tokens[i].EndTag? {
        depth := depth - 1;
        if depth == 0 {
          return i, elseIdx;
        }
      } else if tokens[i].ElseTag? && depth == 1 {
        elseIdx := i;
      }
    }
    return -1, -1;
  }

  // --- the rewriting -----------------------------------------------------------------------------

  /** What replaces an opening tag, its body (with an optional else part) and its end tag. */
  function Replacement(open: Token, body: seq<Token>, els: seq<Token>, end: Token): seq<Token>
    requires ChainedOpen(open)
  {
    var t := open.trim;
    var inner := [Open(With, t, Index(Dot, open.e.keys[1..]))] + body + els + [end];
    [Open(With, t, Index(open.e.base, [open.e.keys[0]])), Open(If, t, IsMap(Dot))] + inner
    + [ElseTag(t), Open(Range, t, Dot)] + inner
    + [EndTag(t), EndTag(t), end]
  }

  /** The tokens from the opening tag to the else tag, or to the end tag if there is none. */
  function BodyPart(tokens: seq<Token>, i: nat, m: Match): seq<Token>
    requires m.Found? && i < m.end < |tokens| && (m.els == -1 || i < m.els < m.end)
  {
    tokens[i + 1..if m.els != -1 then m.els else m.end]
  }

  /** The else tag with what follows it, or nothing. */
  function ElsePart(tokens: seq<Token>, i: nat, m: Match): seq<Token>
    requires m.Found? && i < m.end < |tokens| && (m.els == -1 || i < m.els < m.end)
  {
    if m.els != -1 then tokens[m.els..m.end] else []
  }

  /** The block to repair at position `i`, if there is one. */
  function BlockAt(tokens: seq<Token>, i: nat): (m: Match)
    requires i < |tokens|
    ensures m.Found? ==> ChainedOpen(tokens[i]) && i < m.end < |tokens| && (m.els == -1 || i < m.els < m.end)
  {
    if ChainedOpen(tokens[i]) then Search(tokens, i + 1, 1, -1) else NotFound
  }

  function FixTokens(tokens: seq<Token>, i: nat): seq<Token>
    decreases |tokens| - i
  {
    if i >= |tokens| then []
    else
      var m := BlockAt(tokens, i);
      if m.NotFound? then [tokens[i]] + FixTokens(tokens, i + 1)
      else
        var piece := Replacement(tokens[i], BodyPart(tokens, i, m), ElsePart(tokens, i, m), tokens[m.end]);
        piece + FixTokens(tokens, m.end + 1)
  }

  /** The same rewriting, appending to what has been written already. */
  function FixOnto(tokens: seq<Token>, i: nat, written: seq<Token>): seq<Token>
    decreases |tokens| - i
  {
    if i >= |tokens| then written
    else
      var m := BlockAt(tokens, i);
      if m.NotFound? then FixOnto(tokens, i + 1, written + [tokens[i]])
      else FixOnto(tokens, m.end + 1,
          written + Replacement(tokens[i], BodyPart(tokens, i, m), ElsePart(tokens, i, m), tokens[m.end]))
  }

  lemma {:induction false} FixOntoAppends(tokens: seq<Token>, i: nat, written: seq<Token>)
    ensures FixOnto(tokens, i, written) == written + FixTokens(tokens, i)
    decreases |tokens| - i
  {
    hide Replacement, Search;
    if i < |tokens| {
      var m := BlockAt(tokens, i);
      if m.NotFound? {
        FixOntoAppends(tokens, i + 1, written + [tokens[i]]);
      } else {
        var piece := Replacement(tokens[i], BodyPart(tokens, i, m), ElsePart(tokens, i, m), tokens[m.end]);
        FixOntoAppends(tokens, m.end + 1, written + piece);
        Moved(written, piece, FixTokens(tokens, m.end + 1));
      }
    }
  }

  lemma {:induction false} Moved(done: seq<Token>, piece: seq<Token>, todo: seq<Token>)
    ensures (done + piece) + todo == done + (piece + todo)
  {
  }

  /** One left-to-right scan; a repaired block is skipped over, everything else is copied. */
  method FixWithChainedIndex(tokens: seq<Token>) returns (result: seq<Token>)
    ensures result == FixTokens(tokens, 0)
  {
    result := [];
    var i := 0;
    var changed := false;
    hide Replacement;
    while i < |tokens|
      invariant i <= |tokens| && FixOnto(tokens, 0, []) == FixOnto(tokens, i, result)
      invariant !changed ==> result == tokens[..i]
    {
      var tok := tokens[i];
      var endIdx, elseIdx := -1, -1;
      if ChainedOpen(tok) {
        endIdx, elseIdx := FindMatchingEnd(tokens, i + 1);
      }
      if endIdx == -1 {
        result := result + [tok];
        i := i + 1;
      } else {
        changed := true;
        var m := Found(endIdx, elseIdx);
        result := result + Replacement(tok, BodyPart(tokens, i, m), ElsePart(tokens, i, m), tokens[endIdx]);
        i := endIdx + 1;
      }
    }
    FixOntoAppends(tokens, 0, []);
    if !changed {
      return tokens;
    }
  }
}
