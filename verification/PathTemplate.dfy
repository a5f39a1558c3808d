/**
 Path templates with `{name}` placeholders: permitSlashesInPathParams of pkg/queryrouter/queryrouter.go
 and hasAdjacentPathParams of public/discovery/method_analysis_checks.go.
 */
module PathTemplate {

  const ANY_VALUE: string := ":[^?#]+"

  /** A placeholder and the text before it. */
  datatype Part = Part(lit: string, body: string)

  datatype Template = Template(parts: seq<Part>, tail: string)

  function IndexByte(s: string, c: char): (i: int)
    ensures -1 <= i < |s| && (i >= 0 ==> s[i] == c)
  {
    if s == [] then -1
    else if s[0] == c then 0
    else
      var i := IndexByte(s[1..], c);
      if i < 0 then -1 else i + 1
  }

  lemma {:induction false} IndexByteMeans(s: string, c: char)
    ensures var i := IndexByte(s, c); if i < 0 then c !in s else c !in s[..i]
  {
    if s != [] && s[0] != c {
      IndexByteMeans(s[1..], c);
      var i := IndexByte(s[1..], c);
      assert i >= 0 ==> s[..i + 1] == [s[0]] + s[1..][..i];
    }
  }

  /** The placeholders from left to right: each from a `{` to the next `}`. */
  function Parse(path: string): Template
    decreases |path|
  {
    var open := IndexByte(path, '{');
    if open < 0 then Template([], path)
    else
      var close := IndexByte(path[open..], '}');
      if close < 0 then Template([], path)
      else
        var rest := Parse(path[open + close + 1..]);
        Template([Part(path[..open], path[open + 1..open + close])] + rest.parts, rest.tail)
  }

  function PrintPart(p: Part): string {
    p.lit + "{" + p.body + "}"
  }

  function PrintParts(parts: seq<Part>): string {
    if parts == [] then "" else PrintParts(parts[..|parts| - 1]) + PrintPart(parts[|parts| - 1])
  }

  function Print(t: Template): string {
    PrintParts(t.parts) + t.tail
  }

  predicate AllSlashes(s: string) {
    forall i :: 0 <= i < |s| ==> s[i] == '/'
  }

  /** Nothing but slashes parts this placeholder from a neighbour. */
  predicate Ambiguous(parts: seq<Part>, k: nat)
    requires k < |parts|
  {
    (k > 0 && AllSlashes(parts[k].lit)) || (k + 1 < |parts| && AllSlashes(parts[k + 1].lit))
  }

  predicate SimpleName(body: string) {
    body != "" && ':' !in body && '{' !in body
  }

  function RewritePart(parts: seq<Part>, k: nat): Part
    requires k < |parts|
  {
    if SimpleName(parts[k].body) && !Ambiguous(parts, k) then Part(parts[k].lit, parts[k].body + ANY_VALUE)
        else parts[k]
  }

  function Rewrite(t: Template): Template {
    Template(seq(|t.parts|, k requires 0 <= k < |t.parts| => RewritePart(t.parts, k)), t.tail)
  }

  // --- the scan -------------------------------------------------------------------------------------

  /** Indices of a placeholder's braces. */
  datatype Span = Span(start: nat, end: nat)

  function End(spans: seq<Span>, k: nat): nat
    requires k <= |spans|
  {
    if k == 0 then 0 else spans[k - 1].end + 1
  }

  ghost predicate CutsAt(path: string, spans: seq<Span>, parts: seq<Part>, k: nat)
    requires k < |spans| && k < |parts|
  {
    var s := spans[k];
    && End(spans, k) <= s.start < s.end < |path| && path[s.start] == '{' && path[s.end] == '}'
    && parts[k].lit == path[End(spans, k)..s.start] && parts[k].body == path[s.start + 1..s.end]
  }

  /** The spans cut the path into these parts. */
  ghost predicate Cuts(path: string, spans: seq<Span>, parts: seq<Part>) {
    |spans| == |parts| && forall k :: 0 <= k < |spans| ==> CutsAt(path, spans, parts, k)
  }

  lemma {:induction false} CutsSnoc(path: string, spans: seq<Span>, parts: seq<Part>, s: Span, p: Part)
    requires Cuts(path, spans, parts) && CutsAt(path, spans + [s], parts + [p], |spans|)
    ensures Cuts(path, spans + [s], parts + [p])
  {
    forall k | 0 <= k < |spans| ensures CutsAt(path, spans + [s], parts + [p], k) {
      assert CutsAt(path, spans, parts, k);
    }
  }

  lemma {:induction false} EndSnoc(spans: seq<Span>, s: Span)
    ensures End(spans + [s], |spans|) == End(spans, |spans|) && End(spans + [s], |spans| + 1) == s.end + 1
  {
  }

  lemma {:induction false} CutAdded(path: string, spans: seq<Span>, parts: seq<Part>, open: nat, close: nat)
    requires |spans| == |parts| && End(spans, |spans|) <= open < close < |path| && path[open] == '{' &&
        path[close] == '}'
    ensures CutsAt(path, spans + [Span(open, close)],
        parts + [Part(path[End(spans, |spans|)..open], path[open + 1..close])], |spans|)
  {
    EndSnoc(spans, Span(open, close));
  }

  lemma {:induction false} ParseOnce(s: string, o: nat, c: nat)
    requires IndexByte(s, '{') == o && IndexByte(s[o..], '}') == c
    ensures Parse(s) == Template([Part(s[..o], s[o + 1..o + c])] + Parse(s[o + c + 1..]).parts,
        Parse(s[o + c + 1..]).tail)
  {
    hide IndexByte;
  }

  /** One step of the scan from position `i`. */
  lemma {:induction false} ParseStep(path: string, i: nat, open: nat, close: nat)
    requires i <= open < close < |path| && open == i + IndexByte(path[i..], '{') &&
        close == open + IndexByte(path[open..], '}')
    ensures var rest := Parse(path[close + 1..]);
      Parse(path[i..]) == Template([Part(path[i..open], path[open + 1..close])] + rest.parts, rest.tail)
  {
    hide *;
    var s, o, c := path[i..], open - i, close - open;
    assert s[o..] == path[open..];
    ParseOnce(s, o, c);
    assert s[o + c + 1..] == path[close + 1..];
    assert s[..o] == path[i..open];
    assert s[o + 1..o + c] == path[open + 1..close];
  }

  /** The scan of the path is the parts cut so far and the scan of the rest. */
  ghost predicate Scanned(path: string, spans: seq<Span>, parts: seq<Part>) {
    && Cuts(path, spans, parts) && End(spans, |spans|) <= |path|
    && Parse(path) == Template(parts + Parse(path[End(spans, |spans|)..]).parts,
        Parse(path[End(spans, |spans|)..]).tail)
  }

  lemma {:induction false} ScanStep(path: string, spans: seq<Span>, parts: seq<Part>, open: nat, close: nat)
    requires Scanned(path, spans, parts)
    requires End(spans, |spans|) <= open < close < |path|
    requires open == End(spans, |spans|) + IndexByte(path[End(spans, |spans|)..], '{')
    requires close == open + IndexByte(path[open..], '}')
    ensures Scanned(path, spans + [Span(open, close)],
        parts + [Part(path[End(spans, |spans|)..open], path[open + 1..close])])
  {
    hide Parse, Cuts, CutsAt, End;
    var i := End(spans, |spans|);
    ParseStep(path, i, open, close);
    EndSnoc(spans, Span(open, close));
    CutsCount(path, spans, parts);
    assert path[i..][open - i] == path[open] && path[open..][close - open] == path[close];
    CutAdded(path, spans, parts, open, close);
    CutsSnoc(path, spans, parts, Span(open, close), Part(path[i..open], path[open + 1..close]));
    assert parts + ([Part(path[i..open], path[open + 1..close])] + Parse(path[close + 1..]).parts) ==
           parts + [Part(path[i..open], path[open + 1..close])] + Parse(path[close + 1..]).parts;
  }

  lemma {:induction false} ScanBegins(path: string)
    ensures Scanned(path, [], [])
  {
    assert path[0..] == path;
  }

  lemma {:induction false} ScanEnds(path: string, spans: seq<Span>, parts: seq<Part>)
    requires Scanned(path, spans, parts)
    requires var rest := path[End(spans, |spans|)..];
      IndexByte(rest, '{') < 0 || IndexByte(rest[IndexByte(rest, '{')..], '}') < 0
    ensures Parse(path) == Template(parts, path[End(spans, |spans|)..])
  {
  }

  /** Where the placeholders of a path are. */
  method FindSpans(path: string) returns (spans: seq<Span>, ghost parts: seq<Part>)
    ensures Cuts(path, spans, parts) && End(spans, |spans|) <= |path| &&
        Parse(path) == Template(parts, path[End(spans, |spans|)..])
  {
    hide Parse, Cuts;
    spans, parts := [], [];
    ScanBegins(path);
    var i := 0;
    while i < |path|
      invariant i == End(spans, |spans|) <= |path| && Scanned(path, spans, parts)
      decreases |path| - i
    {
      var open := IndexByte(path[i..], '{');
      if open < 0 {
        break;
      }
      open := open + i;
      assert path[i..][open - i..] == path[open..];
      var close := IndexByte(path[open..], '}');
      if close < 0 {
        break;
      }
      close := close + open;
      assert path[open..][0] == '{';
      ScanStep(path, spans, parts, open, close);
      parts := parts + [Part(path[i..open], path[open + 1..close])];
      spans := spans + [Span(open, close)];
      i := close + 1;
    }
    ScanEnds(path, spans, parts);
  }

  /** Marks the placeholders with nothing but slashes between them and a neighbour. */
  method MarkAmbiguous(path: string, spans: seq<Span>, ghost parts: seq<Part>) returns (ambiguous: array<bool>)
    requires Cuts(path, spans, parts) && spans != []
    ensures fresh(ambiguous) && ambiguous.Length == |spans|
    ensures forall j :: 0 <= j < |spans| ==> ambiguous[j] == Ambiguous(parts, j)
  {
    hide Cuts, AllSlashes;
    CutsCount(path, spans, parts);
    ambiguous := new bool[|spans|](_ => false);
    var k := 0;
    while k < |spans| - 1
      invariant 0 <= k <= |spans| - 1
      invariant forall j :: 0 <= j < k ==> ambiguous[j] == Ambiguous(parts, j)
      invariant ambiguous[k] == (k > 0 && AllSlashes(parts[k].lit))
      invariant forall j :: k < j < |spans| ==> !ambiguous[j]
    {
      CutHere(path, spans, parts, k);
      CutHere(path, spans, parts, k + 1);
      var between := path[spans[k].end + 1..spans[k + 1].start];
      if AllSlashes(between) {
        ambiguous[k] := true;
        ambiguous[k + 1] := true;
      }
      k := k + 1;
    }
  }

  /** Lets unambiguous placeholders match slashes. */
  method PermitSlashes(path: string) returns (r: string)
    ensures r == Print(Rewrite(Parse(path)))
  {
    hide Parse, Cuts, Ambiguous, SimpleName, PrintParts, Rewrite, PrintPart;
    var spans, parts := FindSpans(path);
    CutsCount(path, spans, parts);
    ghost var t := Template(parts, path[End(spans, |spans|)..]);
    if |spans| == 0 {
      RewriteNothing(t);
      return path;
    }
    var ambiguous := MarkAmbiguous(path, spans, parts);
    ghost var after := Rewrite(t).parts;
    RewrittenPart(t);
    PrintNothing();
    var b, cursor, k := "", 0, 0;
    while k < |spans|
      invariant 0 <= k <= |spans| && cursor == End(spans, k) && cursor <= |path|
      invariant b == PrintParts(after[..k])
      invariant forall j :: 0 <= j < |spans| ==> ambiguous[j] == Ambiguous(parts, j)
    {
      var sp := spans[k];
      CutHere(path, spans, parts, k);
      b := b + path[cursor..sp.start];
      var body := path[sp.start + 1..sp.end];
      if SimpleName(body) && !ambiguous[k] {
        b := b + ("{" + body + ":[^?#]+}");
        PartPrinted(PrintParts(after[..k]), Part(parts[k].lit, body + ANY_VALUE), "{" + body + ":[^?#]+}");
      } else {
        b := b + path[sp.start..sp.end + 1];
        PartPrinted(PrintParts(after[..k]), parts[k], path[sp.start..sp.end + 1]);
      }
      PrintNext(after, k);
      cursor := sp.end + 1;
      k := k + 1;
    }
    assert after[..k] == after;
    return b + path[cursor..];
  }

  lemma {:induction false} CutsCount(path: string, spans: seq<Span>, parts: seq<Part>)
    requires Cuts(path, spans, parts)
    ensures |spans| == |parts|
  {
  }

  lemma {:induction false} RewriteNothing(t: Template)
    requires t.parts == []
    ensures Print(Rewrite(t)) == t.tail
  {
  }

  lemma {:induction false} PrintNothing()
    ensures PrintParts([]) == ""
  {
  }

  lemma {:induction false} RewrittenPart(t: Template)
    ensures |Rewrite(t).parts| == |t.parts| && Rewrite(t).tail == t.tail
    ensures forall k :: 0 <= k < |t.parts| ==> Rewrite(t).parts[k] == RewritePart(t.parts, k)
  {
  }

  lemma {:induction false} PartPrinted(before: string, p: Part, braced: string)
    requires braced == "{" + p.body + "}"
    ensures before + p.lit + braced == before + PrintPart(p)
  {
  }

  lemma {:induction false} CutHere(path: string, spans: seq<Span>, parts: seq<Part>, k: nat)
    requires Cuts(path, spans, parts) && k < |spans|
    ensures CutsAt(path, spans, parts, k) && path[spans[k].start..spans[k].end + 1] == "{" + parts[k].body + "}"
  {
    assert CutsAt(path, spans, parts, k);
  }

  lemma {:induction false} PrintNext(parts: seq<Part>, k: nat)
    requires k < |parts|
    ensures PrintParts(parts[..k + 1]) == PrintParts(parts[..k]) + PrintPart(parts[k])
  {
    assert parts[..k + 1][..k] == parts[..k];
  }

  /** Whether two placeholders have nothing but slashes between them. */
  method HasAdjacent(path: string) returns (found: bool)
    ensures found <==> SomeAmbiguous(Parse(path).parts)
  {
    hide *;
    ghost var spans, parts: seq<Part> := [], [];
    ScanBegins(path);
    var prevEnd, i := -1, 0;
    EndNothing();
    while i < |path|
      invariant i == End(spans, |spans|) <= |path| && Scanned(path, spans, parts)
      invariant prevEnd == i - 1 && (prevEnd >= 0 <==> parts != [])
      invariant forall k :: 0 < k < |parts| ==> !AllSlashes(parts[k].lit)
      decreases |path| - i
    {
      var open := IndexByte(path[i..], '{');
      if open < 0 {
        break;
      }
      open := open + i;
      assert path[i..][open - i..] == path[open..];
      var close := IndexByte(path[open..], '}');
      if close < 0 {
        break;
      }
      close := close + open;
      assert path[open..][0] == '{';
      ScanStep(path, spans, parts, open, close);
      EndSnoc(spans, Span(open, close));
      parts := parts + [Part(path[i..open], path[open + 1..close])];
      spans := spans + [Span(open, close)];
      ScanCount(path, spans, parts);
      if prevEnd >= 0 && AllSlashes(path[prevEnd + 1..open]) {
        AdjacentFound(path, spans, parts);
        return true;
      }
      prevEnd := close;
      i := close + 1;
    }
    ScanEnds(path, spans, parts);
    NoneAdjacent(parts);
    return false;
  }

  predicate SomeAmbiguous(parts: seq<Part>) {
    exists k :: 0 <= k < |parts| && Ambiguous(parts, k)
  }

  lemma {:induction false} EndNothing()
    ensures End([], 0) == 0
  {
  }

  lemma {:induction false} ScanCount(path: string, spans: seq<Span>, parts: seq<Part>)
    requires Scanned(path, spans, parts)
    ensures |spans| == |parts| && End(spans, |spans|) <= |path|
  {
  }

  lemma {:induction false} AdjacentFound(path: string, spans: seq<Span>, parts: seq<Part>)
    requires Scanned(path, spans, parts) && |parts| > 1 && AllSlashes(parts[|parts| - 1].lit)
    ensures SomeAmbiguous(Parse(path).parts)
  {
    hide AllSlashes, Parse;
    assert Parse(path).parts[|parts| - 1] == parts[|parts| - 1];
    assert Ambiguous(Parse(path).parts, |parts| - 1);
  }

  lemma {:induction false} NoneAdjacent(parts: seq<Part>)
    requires forall k :: 0 < k < |parts| ==> !AllSlashes(parts[k].lit)
    ensures !SomeAmbiguous(parts)
  {
    hide AllSlashes;
  }

  // --- laws ------------------------------------------------------------------------------------------

  /** What a scan yields: no `{` before a placeholder, no `}` inside one, and no placeholder in the tail. */
  ghost predicate WellFormed(t: Template) {
    && (forall k :: 0 <= k < |t.parts| ==> '{' !in t.parts[k].lit && '}' !in t.parts[k].body)
    && NoPlaceholder(t.tail)
  }

  predicate NoPlaceholder(s: string) {
    IndexByte(s, '{') < 0 || IndexByte(s[IndexByte(s, '{')..], '}') < 0
  }

  lemma {:induction false} PrintCons(p: Part, parts: seq<Part>)
    ensures PrintParts([p] + parts) == PrintPart(p) + PrintParts(parts)
  {
    hide PrintPart;
    if parts == [] {
      assert [p] + parts == [] + [p];
      PrintNext([p], 0);
    } else {
      var front := parts[..|parts| - 1];
      assert ([p] + parts)[..|parts|] == [p] + front;
      PrintCons(p, front);
    }
  }

  /** Printing a scan gives the path back, and the scan is well formed. */
  lemma {:induction false} ParsePrints(path: string)
    ensures Print(Parse(path)) == path && WellFormed(Parse(path))
    decreases |path|
  {
    hide PrintParts, PrintPart, IndexByte, Parse, NoPlaceholder, WellFormed;
    PrintNothing();
    if NoPlaceholder(path) {
      ParseNone(path);
    } else {
      var o := IndexByte(path, '{');
      Placeholder(path);
      var c := IndexByte(path[o..], '}');
      var after := path[o + c + 1..];
      var first, rest := Part(path[..o], path[o + 1..o + c]), Parse(after);
      ParseOnce(path, o, c);
      ParsePrints(after);
      PrintCons(first, rest.parts);
      Pieces(path, o, c);
      assert PrintPart(first) + PrintParts(rest.parts) + rest.tail == PrintPart(first) + Print(rest);
      FirstWellFormed(first, rest);
    }
  }

  lemma {:induction false} Placeholder(path: string)
    requires !NoPlaceholder(path)
    ensures var o := IndexByte(path, '{'); o >= 0 && IndexByte(path[o..], '}') >= 1
  {
    hide IndexByte;
    var o := IndexByte(path, '{');
    assert path[o..][0] == '{';
  }

  lemma {:induction false} ParseNone(path: string)
    requires NoPlaceholder(path)
    ensures Parse(path) == Template([], path) && WellFormed(Template([], path))
  {
    hide IndexByte;
  }

  lemma {:induction false} FirstWellFormed(first: Part, rest: Template)
    requires WellFormed(rest) && '{' !in first.lit && '}' !in first.body
    ensures WellFormed(Template([first] + rest.parts, rest.tail))
  {
    hide NoPlaceholder;
    forall k | 0 <= k < |rest.parts| + 1
      ensures '{' !in ([first] + rest.parts)[k].lit && '}' !in ([first] + rest.parts)[k].body {
      if k > 0 {
        assert ([first] + rest.parts)[k] == rest.parts[k - 1];
      }
    }
  }

  lemma {:induction false} Pieces(path: string, o: nat, c: nat)
    requires IndexByte(path, '{') == o && IndexByte(path[o..], '}') == c
    ensures PrintPart(Part(path[..o], path[o + 1..o + c])) + path[o + c + 1..] == path
    ensures '{' !in path[..o] && '}' !in path[o + 1..o + c]
  {
    hide IndexByte;
    IndexByteMeans(path, '{');
    IndexByteMeans(path[o..], '}');
    assert path[o] == '{' && path[o..][c] == path[o + c] == '}';
    assert path[o + 1..o + c] == path[o..][..c][1..];
    assert path == path[..o] + [path[o]] + path[o + 1..o + c] + [path[o + c]] + path[o + c + 1..];
  }

  lemma {:induction false} FirstIndex(s: string, c: char, rest: string)
    requires c !in s
    ensures IndexByte(s + [c] + rest, c) == |s|
  {
    if s != [] {
      assert (s + [c] + rest)[1..] == s[1..] + [c] + rest;
      FirstIndex(s[1..], c, rest);
    }
  }

  /** A template with one more placeholder in front. */
  lemma {:induction false} PrintFirst(p: Part, rest: Template)
    ensures Print(Template([p] + rest.parts, rest.tail)) == p.lit + ['{'] + (p.body + ['}'] + Print(rest))
  {
    PrintCons(p, rest.parts);
    hide PrintParts;
  }

  lemma {:induction false} FirstRemoved(t: Template)
    requires WellFormed(t) && t.parts != []
    ensures '{' !in t.parts[0].lit && '}' !in t.parts[0].body && WellFormed(Template(t.parts[1..], t.tail))
  {
    hide NoPlaceholder;
  }

  lemma {:induction false} TailAlone(t: Template)
    requires WellFormed(t) && t.parts == []
    ensures Parse(Print(t)) == t
  {
    assert Print(t) == t.tail;
  }

  /** Scanning what a well-formed template prints gives the template back. */
  lemma {:induction false} PrintParses(t: Template)
    requires WellFormed(t)
    ensures Parse(Print(t)) == t
    decreases |t.parts|
  {
    hide *;
    if t.parts == [] {
      TailAlone(t);
    } else {
      var p, rest, s := t.parts[0], Template(t.parts[1..], t.tail), Print(t);
      assert t.parts == [p] + rest.parts;
      FirstRemoved(t);
      PrintFirst(p, rest);
      PrintParses(rest);
      FirstIndex(p.lit, '{', p.body + ['}'] + Print(rest));
      NextBrace(p, Print(rest), s);
      ParseOnce(s, |p.lit|, |p.body| + 1);
    }
  }

  lemma {:induction false} NextBrace(p: Part, rest: string, s: string)
    requires '}' !in p.body && s == p.lit + ['{'] + (p.body + ['}'] + rest)
    ensures IndexByte(s[|p.lit|..], '}') == |p.body| + 1
    ensures s[..|p.lit|] == p.lit && s[|p.lit| + 1..|p.lit| + |p.body| + 1] == p.body &&
        s[|p.lit| + |p.body| + 2..] == rest
  {
    hide IndexByte;
    var open := ['{'] + p.body;
    assert s[|p.lit|..] == open + ['}'] + rest;
    FirstIndex(open, '}', rest);
  }

  /**
   The text around placeholders stays; a body gains the wildcard exactly when it is a simple name
   and not ambiguous, and ambiguity stays.
   */
  lemma {:induction false} RewriteOnlyInserts(t: Template, k: nat)
    requires k < |t.parts|
    ensures var r := Rewrite(t);
      && |r.parts| == |t.parts| && r.tail == t.tail && r.parts[k].lit == t.parts[k].lit
      && (r.parts[k].body == t.parts[k].body + ANY_VALUE <==> SimpleName(t.parts[k].body) && !Ambiguous(t.parts, k))
      && (r.parts[k].body == t.parts[k].body <==> !SimpleName(t.parts[k].body) || Ambiguous(t.parts, k))
      && Ambiguous(r.parts, k) == Ambiguous(t.parts, k)
  {
    hide SimpleName, AllSlashes;
    assert |t.parts[k].body + ANY_VALUE| > |t.parts[k].body|;
  }

  lemma {:induction false} RewriteWellFormed(t: Template)
    requires WellFormed(t)
    ensures WellFormed(Rewrite(t))
  {
    hide Ambiguous, SimpleName, NoPlaceholder;
    forall k | 0 <= k < |t.parts| ensures '}' !in Rewrite(t).parts[k].body {
      assert '}' !in ANY_VALUE;
    }
  }

  /** A body with the wildcard is not a simple name. */
  lemma {:induction false} WildcardNotSimple(body: string)
    ensures !SimpleName(body + ANY_VALUE)
  {
    assert ANY_VALUE[0] == ':' && (body + ANY_VALUE)[|body|] == ':';
  }

  lemma {:induction false} RewriteTwice(t: Template)
    ensures Rewrite(Rewrite(t)) == Rewrite(t)
  {
    hide SimpleName, Ambiguous;
    var r := Rewrite(t);
    forall k | 0 <= k < |t.parts| ensures RewritePart(r.parts, k) == r.parts[k] {
      RewriteOnlyInserts(t, k);
      WildcardNotSimple(t.parts[k].body);
    }
  }

  /** Rewriting a rewritten path changes nothing. */
  lemma {:induction false} PermitSlashesIsIdempotent(path: string)
    ensures var once := Print(Rewrite(Parse(path)));
      Parse(once) == Rewrite(Parse(path)) && Print(Rewrite(Parse(once))) == once
  {
    hide *;
    ParsePrints(path);
    RewriteWellFormed(Parse(path));
    PrintParses(Rewrite(Parse(path)));
    RewriteTwice(Parse(path));
  }

  /**
   The analyser and the rewriter agree: there is an adjacent pair exactly when some placeholder is
   ambiguous, before and after rewriting.
   */
  lemma {:induction false} AdjacencySurvivesRewriting(path: string)
    ensures SomeAmbiguous(Parse(path).parts) <==>
        exists k :: 0 < k < |Parse(path).parts| && AllSlashes(Parse(path).parts[k].lit)
    ensures SomeAmbiguous(Parse(Print(Rewrite(Parse(path)))).parts) <==> SomeAmbiguous(Parse(path).parts)
  {
    hide Parse, Print, Rewrite, AllSlashes;
    PermitSlashesIsIdempotent(path);
    var t := Parse(path);
    var r := Rewrite(t);
    assert |r.parts| == |t.parts| by { RewrittenPart(t); }
    forall k | 0 <= k < |t.parts| ensures Ambiguous(r.parts, k) == Ambiguous(t.parts, k) {
      RewriteOnlyInserts(t, k);
    }
    if SomeAmbiguous(t.parts) {
      var k :| 0 <= k < |t.parts| && Ambiguous(t.parts, k);
      assert Ambiguous(r.parts, k);
    }
    if SomeAmbiguous(r.parts) {
      var k :| 0 <= k < |r.parts| && Ambiguous(r.parts, k);
      assert Ambiguous(t.parts, k);
    }
    if k :| 0 < k < |t.parts| && AllSlashes(t.parts[k].lit) {
      assert Ambiguous(t.parts, k);
    }
  }

  // --- what a router accepts -------------------------------------------------------------------------

  /** The pattern for a placeholder's value: what follows the colon, or one segment by default. */
  function Pattern(body: string): string {
    var colon := IndexByte(body, ':');
    if colon < 0 then "[^/]+" else body[colon + 1..]
  }

  /** A pattern that excludes some characters takes every other non-empty text. */
  ghost predicate Takes(pattern: string, excluded: string, value: string) {
    pattern == "[^" + excluded + "]+" && value != "" && forall c :: c in value ==> c !in excluded
  }

  ghost predicate Admits(body: string, value: string) {
    exists excluded :: Takes(Pattern(body), excluded, value)
  }

  ghost predicate OnlySlashes(s: string) {
    forall c :: c in s ==> c == '/'
  }

  /** This placeholder has a neighbour with nothing but slashes, or nothing at all, between them. */
  ghost predicate Touches(t: Template, k: nat) {
    exists j :: k <= j <= k + 1 && 0 < j < |t.parts| && OnlySlashes(t.parts[j].lit)
  }

  lemma {:induction false} OnlySlashesExactly(s: string)
    ensures AllSlashes(s) <==> OnlySlashes(s)
  {
    forall i | 0 <= i < |s| ensures s[i] in s {
    }
  }

  lemma {:induction false} TouchesExactly(t: Template, k: nat)
    requires k < |t.parts|
    ensures Ambiguous(t.parts, k) <==> Touches(t, k)
  {
    forall j | 0 <= j < |t.parts| ensures AllSlashes(t.parts[j].lit) <==> OnlySlashes(t.parts[j].lit) {
      OnlySlashesExactly(t.parts[j].lit);
    }
    hide AllSlashes, OnlySlashes;
    assert k + 1 < |t.parts| && OnlySlashes(t.parts[k + 1].lit) ==> Touches(t, k);
  }

  lemma {:induction false} PatternTakes(pattern: string, excluded: string, value: string)
    requires pattern == "[^" + excluded + "]+"
    ensures (exists e :: Takes(pattern, e, value)) <==> value != "" && forall c :: c in value ==> c !in excluded
  {
    forall e | Takes(pattern, e, value) ensures e == excluded {
      assert pattern[2..|pattern| - 2] == e && pattern[2..|pattern| - 2] == excluded;
    }
    if value != "" && forall c :: c in value ==> c !in excluded {
      assert Takes(pattern, excluded, value);
    }
  }

  lemma {:induction false} NamePattern(name: string)
    requires ':' !in name
    ensures Pattern(name) == "[^" + "/" + "]+"
    ensures Pattern(name + ANY_VALUE) == "[^" + "?#" + "]+"
  {
    assert ANY_VALUE == [':'] + "[^?#]+";
    var body := name + [':'] + "[^?#]+";
    assert name + ANY_VALUE == body;
    FirstIndex(name, ':', "[^?#]+");
    assert body[|name| + 1..] == "[^?#]+";
  }

  /**
   After the rewriting the value of a named placeholder may hold slashes, unless the placeholder touches another:
   then it takes one segment, as before. A placeholder with a pattern of its own keeps it.
   */
  lemma {:induction false} ValuesAdmittedExactly(t: Template, k: nat, value: string)
    requires k < |t.parts|
    ensures var name, body := t.parts[k].body, Rewrite(t).parts[k].body;
      if name == "" || ':' in name || '{' in name then body == name
      else
        Admits(body, value) <==> value != "" && forall c :: c in value ==> c !in (if Touches(t, k) then "/" else "?#")
  {
    var name := t.parts[k].body;
    RewrittenPart(t);
    TouchesExactly(t, k);
    if ':' !in name {
      assert SimpleName(name) <==> name != "" && '{' !in name;
      hide Pattern, Touches, Ambiguous, Rewrite;
      NamePattern(name);
      PatternTakes("[^" + "/" + "]+", "/", value);
      PatternTakes("[^" + "?#" + "]+", "?#", value);
    }
  }
}
