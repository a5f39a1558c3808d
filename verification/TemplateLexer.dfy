/** tokenizeTemplate and tokensToString in pkg/stream_transform/template_fixer.go, on characters. */
module TemplateLexer {

  datatype Lexeme = Lexeme(text: string, isTag: bool)

  predicate DoubledAt(s: string, i: nat, c: char) {
    i + 1 < |s| && s[i] == c && s[i + 1] == c
  }

  /** Where the first doubled `c` starts, or -1. */
  function Find(s: string, c: char): (i: int)
    ensures -1 <= i < |s|
    ensures i == -1 ==> forall j :: 0 <= j < |s| ==> !DoubledAt(s, j, c)
    ensures i >= 0 ==> DoubledAt(s, i, c) && forall j :: 0 <= j < i ==> !DoubledAt(s, j, c)
  {
    if |s| < 2 then -1
    else if DoubledAt(s, 0, c) then 0
    else
      var i := Find(s[1..], c);
      assert forall j :: 0 < j < |s| ==> (DoubledAt(s, j, c) <==> DoubledAt(s[1..], j - 1, c));
      if i == -1 then -1 else i + 1
  }

  function TextBefore(s: string, open: nat): seq<Lexeme>
    requires open <= |s|
  {
    if open > 0 then [Lexeme(s[..open], false)] else []
  }

  /** Text up to "{{", then a tag. */
  function Lex(s: string): seq<Lexeme>
    decreases |s|, 1
  {
    var open := Find(s, '{');
    if open == -1 then TextBefore(s, |s|) else TextBefore(s, open) + LexTag(s[open..])
  }

  /** A tag runs up to the nearest "}}"; one that never closes is text. */
  function LexTag(s: string): seq<Lexeme>
    requires StartsTag(s)
    decreases |s|, 0
  {
    var close := Find(s, '}');
    if close == -1 then [Lexeme(s, false)] else [Lexeme(s[..close + 2], true)] + Lex(s[close + 2..])
  }

  predicate StartsTag(s: string) { DoubledAt(s, 0, '{') }

  function Concat(ts: seq<Lexeme>): string {
    if ts == [] then "" else ts[0].text + Concat(ts[1..])
  }

  method TokensToString(tokens: seq<Lexeme>) returns (s: string)
    ensures s == Concat(tokens)
  {
    s := "";
    for i := 0 to |tokens|
      invariant Concat(tokens) == s + Concat(tokens[i..])
    {
      assert tokens[i..][1..] == tokens[i + 1..];
      s := s + tokens[i].text;
    }
  }

  /** One left-to-right scan over what is left of the body. */
  method TokenizeTemplate(body: string) returns (tokens: seq<Lexeme>)
    ensures tokens == Lex(body)
  {
    tokens := [];
    var rest := body;
    while true
      invariant Lex(body) == tokens + Lex(rest)
      decreases |rest|
    {
      var openIdx := Find(rest, '{');
      if openIdx == -1 {
        LastText(rest, tokens);
        if rest != "" {
          tokens := tokens + [Lexeme(rest, false)];
        }
        break;
      }
      var tail := rest[openIdx..];
      Associates(tokens, TextBefore(rest, openIdx), LexTag(tail));
      tokens := tokens + TextBefore(rest, openIdx);
      var closeIdx := Find(tail, '}');
      if closeIdx == -1 {
        tokens := tokens + [Lexeme(tail, false)];
        break;
      }
      Associates(tokens, [Lexeme(tail[..closeIdx + 2], true)], Lex(tail[closeIdx + 2..]));
      tokens := tokens + [Lexeme(tail[..closeIdx + 2], true)];
      rest := tail[closeIdx + 2..];
    }
  }

  lemma {:induction false} LastText(rest: string, tokens: seq<Lexeme>)
    requires Find(rest, '{') == -1
    ensures tokens + Lex(rest) == if rest == "" then tokens else tokens + [Lexeme(rest, false)]
  {
    assert rest[..|rest|] == rest;
  }

  lemma {:induction false} Associates(a: seq<Lexeme>, b: seq<Lexeme>, c: seq<Lexeme>)
    ensures (a + b) + c == a + (b + c)
  {
  }

  /** Writing the tokens of any string back gives the string. */
  lemma {:induction false} LexThenConcat(s: string)
    ensures Concat(Lex(s)) == s
    decreases |s|, 1
  {
    var open := Find(s, '{');
    if open == -1 {
      ConcatText(s, |s|, []);
      assert TextBefore(s, |s|) + [] == TextBefore(s, |s|);
    } else {
      LexTagThenConcat(s[open..]);
      ConcatText(s, open, LexTag(s[open..]));
      assert s == s[..open] + s[open..];
    }
  }

  lemma {:induction false} LexTagThenConcat(s: string)
    requires StartsTag(s)
    ensures Concat(LexTag(s)) == s
    decreases |s|, 0
  {
    var close := Find(s, '}');
    if close == -1 {
      ConcatOne(Lexeme(s, false), []);
      assert [Lexeme(s, false)] + [] == [Lexeme(s, false)];
    } else {
      LexThenConcat(s[close + 2..]);
      ConcatOne(Lexeme(s[..close + 2], true), Lex(s[close + 2..]));
      assert s == s[..close + 2] + s[close + 2..];
    }
  }

  lemma {:induction false} ConcatOne(t: Lexeme, rest: seq<Lexeme>)
    ensures Concat([t] + rest) == t.text + Concat(rest)
  {
    assert ([t] + rest)[1..] == rest;
  }

  lemma {:induction false} ConcatText(s: string, open: nat, rest: seq<Lexeme>)
    requires open <= |s|
    ensures Concat(TextBefore(s, open) + rest) == s[..open] + Concat(rest)
  {
    if open > 0 {
      ConcatOne(Lexeme(s[..open], false), rest);
    } else {
      assert [] + rest == rest && s[..open] + Concat(rest) == Concat(rest);
    }
  }

  // --- which token lists come out of the tokenizer ------------------------------------------------

  /** A complete tag: it starts with "{{" and its first "}}" ends it. */
  predicate TagShape(s: string) {
    StartsTag(s) && Find(s, '}') == |s| - 2
  }

  /**
   Tags are complete; text is not empty and opens no tag, even together with what follows it;
   only the last text may be a tag that never closes.
   */
  predicate Canonical(ts: seq<Lexeme>) {
    ts != [] ==>
      var t, rest := ts[0], ts[1..];
      if t.isTag then TagShape(t.text) && Canonical(rest)
      else if StartsTag(t.text) then Find(t.text, '}') == -1 && rest == []
      else
        && t.text != "" && Find(t.text, '{') == -1
        && (rest != [] ==> t.text[|t.text| - 1] != '{' && (rest[0].isTag || StartsTag(rest[0].text)))
        && Canonical(rest)
  }

  lemma {:induction false} FindPrefix(s: string, c: char, n: nat)
    requires n <= |s| && (Find(s, c) == -1 || Find(s, c) + 1 >= n)
    ensures Find(s[..n], c) == -1
  {
    var i := Find(s[..n], c);
    assert i >= 0 ==> DoubledAt(s, i, c);
  }

  lemma {:induction false} LexIsCanonical(s: string)
    ensures Canonical(Lex(s))
    decreases |s|, 1
  {
    var open := Find(s, '{');
    if open == -1 {
      TextIsCanonical(s, |s|, []);
      assert TextBefore(s, |s|) + [] == TextBefore(s, |s|);
    } else {
      LexTagIsCanonical(s[open..]);
      TextIsCanonical(s, open, LexTag(s[open..]));
    }
  }

  lemma {:induction false} LexTagIsCanonical(s: string)
    requires StartsTag(s)
    ensures Canonical(LexTag(s)) && LexTag(s) != [] && (LexTag(s)[0].isTag || StartsTag(LexTag(s)[0].text))
    decreases |s|, 0
  {
    hide Lex, Find;
    var close := Find(s, '}');
    if close == -1 {
      assert LexTag(s) == [Lexeme(s, false)] && LexTag(s)[1..] == [];
    } else {
      TagIsCanonical(s, close);
      LexIsCanonical(s[close + 2..]);
      var tag := Lexeme(s[..close + 2], true);
      assert LexTag(s) == [tag] + Lex(s[close + 2..]) && LexTag(s)[1..] == Lex(s[close + 2..]);
    }
  }

  lemma {:induction false} TagIsCanonical(tail: string, close: nat)
    requires StartsTag(tail) && Find(tail, '}') == close
    ensures TagShape(tail[..close + 2])
  {
    var tag := tail[..close + 2];
    assert !DoubledAt(tail, 0, '}') && !DoubledAt(tail, 1, '}');
    assert DoubledAt(tag, close, '}');
    var i := Find(tag, '}');
    assert DoubledAt(tail, i, '}');
    assert DoubledAt(tag, 0, '{');
  }

  lemma {:induction false} TextIsCanonical(s: string, open: nat, rest: seq<Lexeme>)
    requires open == if Find(s, '{') == -1 then |s| else Find(s, '{')
    requires Canonical(rest) && (open == |s| ==> rest == [])
    requires rest != [] ==> rest[0].isTag || StartsTag(rest[0].text)
    ensures Canonical(TextBefore(s, open) + rest)
  {
    if open == 0 {
      assert TextBefore(s, open) + rest == rest;
    } else {
      var text := s[..open];
      FindPrefix(s, '{', open);
      assert Find(s, '{') == -1 || !DoubledAt(s, open - 1, '{');
      var ts := [Lexeme(text, false)] + rest;
      assert ts[1..] == rest;
      assert !DoubledAt(text, 0, '{');
    }
  }

  lemma {:induction false} FindSkips(a: string, b: string, c: char)
    requires Find(a, c) == -1 && (a != "" && b != "" ==> a[|a| - 1] != c)
    ensures Find(a + b, c) == if Find(b, c) == -1 then -1 else |a| + Find(b, c)
  {
    var s := a + b;
    assert forall j :: 0 <= j < |b| ==> (DoubledAt(s, |a| + j, c) <==> DoubledAt(b, j, c));
    forall j | 0 <= j < |a| ensures !DoubledAt(s, j, c) {
      assert !DoubledAt(a, j, c);
    }
    var i := Find(s, c);
    assert i >= |a| ==> DoubledAt(b, i - |a|, c);
  }

  lemma {:induction false} FindStays(a: string, b: string, c: char)
    requires Find(a, c) >= 0
    ensures Find(a + b, c) == Find(a, c)
  {
    var s, k := a + b, Find(a, c);
    assert DoubledAt(s, k, c);
    forall j | 0 <= j < k ensures !DoubledAt(s, j, c) {
      assert !DoubledAt(a, j, c);
    }
  }

  lemma {:induction false} LexCompleteTag(tag: string, rest: string)
    requires TagShape(tag)
    ensures Lex(tag + rest) == [Lexeme(tag, true)] + Lex(rest)
  {
    var s := tag + rest;
    assert DoubledAt(s, 0, '{');
    FindStays(tag, rest, '}');
    assert s[0..] == s && s[..|tag|] == tag && s[|tag|..] == rest;
    assert TextBefore(s, 0) + LexTag(s) == LexTag(s);
  }

  lemma {:induction false} LexText(text: string, rest: string)
    requires text != "" && Find(text, '{') == -1 && text[|text| - 1] != '{' && StartsTag(rest)
    ensures Lex(text + rest) == [Lexeme(text, false)] + Lex(rest)
  {
    var s := text + rest;
    FindSkips(text, rest, '{');
    assert s[|text|..] == rest && s[..|text|] == text;
    LexStartingTag(rest);
  }

  lemma {:induction false} LexStartingTag(s: string)
    requires StartsTag(s)
    ensures Lex(s) == LexTag(s)
  {
    assert s[0..] == s;
    assert TextBefore(s, 0) + LexTag(s) == LexTag(s);
  }

  /** Tokenizing what a canonical token list spells gives the list back. */
  lemma {:induction false} ConcatThenLex(ts: seq<Lexeme>)
    requires Canonical(ts)
    ensures Lex(Concat(ts)) == ts
  {
    if ts != [] {
      var t, rest := ts[0], ts[1..];
      assert ts == [t] + rest;
      if t.isTag {
        ConcatThenLex(rest);
        LexCompleteTag(t.text, Concat(rest));
      } else if StartsTag(t.text) {
        assert t.text + "" == t.text;
        LexStartingTag(t.text);
      } else {
        ConcatThenLex(rest);
        if rest == [] {
          assert t.text + "" == t.text && t.text[..|t.text|] == t.text;
        } else {
          StartsWithTag(rest);
          LexText(t.text, Concat(rest));
        }
      }
    }
  }

  lemma {:induction false} StartsWithTag(ts: seq<Lexeme>)
    requires ts != [] && StartsTag(ts[0].text)
    ensures StartsTag(Concat(ts))
  {
  }

  /** The token lists the tokenizer can give back are exactly the canonical ones. */
  lemma {:induction false} RoundTripExactly(ts: seq<Lexeme>)
    ensures Lex(Concat(ts)) == ts <==> Canonical(ts)
  {
    LexIsCanonical(Concat(ts));
    if Canonical(ts) {
      ConcatThenLex(ts);
    }
  }
}
