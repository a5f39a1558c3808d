/** Parameterised URLs of pkg/urltranslate/urltranslate.go, over strings whose characters are single bytes. */
module UrlTemplate {
  import opened Wrappers

  /** Literal text, or a placeholder: a name, and after a colon perhaps a regular expression. */
  datatype Element = Text(raw: string) | Var(raw: string)

  /** What is before the first colon. */
  function NameOf(v: string): string {
    if v == "" || v[0] == ':' then "" else [v[0]] + NameOf(v[1..])
  }

  /** Without the regular expression. */
  function Show(e: Element): string {
    match e case Text(raw) => raw case Var(raw) => "{" + NameOf(raw) + "}"
  }

  function FullString(e: Element): string {
    match e case Text(raw) => raw case Var(raw) => "{" + raw + "}"
  }

  function ShowAll(es: seq<Element>): string {
    if es == [] then "" else Show(es[0]) + ShowAll(es[1..])
  }

  function FullAll(es: seq<Element>): string {
    if es == [] then "" else FullString(es[0]) + FullAll(es[1..])
  }

  function Pending(e: Element): seq<Element> {
    if e.raw == "" then [] else [e]
  }

  function After(es: seq<Element>, rest: Option<seq<Element>>): Option<seq<Element>> {
    match rest case None => None case Some(more) => Some(es + more)
  }

  /** The scan from inside or outside a placeholder, with the text gathered so far. */
  function Scan(s: string, inVar: bool, sb: string): Option<seq<Element>>
    decreases |s|
  {
    if s == "" then if inVar then None else Some(Pending(Text(sb)))
    else if s[0] == '{' then if inVar then None else After(Pending(Text(sb)), Scan(s[1..], true, ""))
    else if s[0] == '}' then if inVar then After(Pending(Var(sb)), Scan(s[1..], false, "")) else None
    else Scan(s[1..], inVar, sb + [s[0]])
  }

  method Extract(s: string) returns (parsed: Option<seq<Element>>)
    ensures parsed == Scan(s, false, "")
  {
    var done: seq<Element>, inVar, sb := [], false, "";
    assert s[0..] == s;
    AfterNothing(Scan(s, false, ""));
    for i := 0 to |s|
      invariant Scan(s, false, "") == After(done, Scan(s[i..], inVar, sb))
    {
      var c := s[i];
      assert done + [] == done;
      assert s[i..][0] == c && s[i..][1..] == s[i + 1..];
      if c == '{' {
        if inVar {
          return None;
        }
        inVar := true;
        AfterTwice(done, Pending(Text(sb)), Scan(s[i + 1..], true, ""));
        if |sb| > 0 {
          done := done + [Text(sb)];
        }
        sb := "";
      } else if c == '}' {
        if !inVar {
          return None;
        }
        inVar := false;
        AfterTwice(done, Pending(Var(sb)), Scan(s[i + 1..], false, ""));
        if |sb| > 0 {
          done := done + [Var(sb)];
        }
        sb := "";
      } else {
        sb := sb + [c];
      }
    }
    assert s[|s|..] == "" && done + [] == done;
    if inVar {
      return None;
    }
    if |sb| > 0 {
      done := done + [Text(sb)];
    }
    return Some(done);
  }

  lemma {:induction false} AfterNothing(rest: Option<seq<Element>>)
    ensures After([], rest) == rest
  {
    assert rest.Some? ==> [] + rest.value == rest.value;
  }

  lemma {:induction false} AfterTwice(a: seq<Element>, b: seq<Element>, rest: Option<seq<Element>>)
    ensures After(a, After(b, rest)) == After(a + b, rest)
  {
    if rest.Some? {
      assert a + (b + rest.value) == a + b + rest.value;
    }
  }

  /** The text with every regular expression dropped. */
  method Sanitise(s: string) returns (r: Option<string>)
    ensures r == Sanitised(s)
  {
    var parsed := Extract(s);
    if parsed.None? {
      return None;
    }
    var sb, es := "", parsed.value;
    for i := 0 to |es|
      invariant sb + ShowAll(es[i..]) == ShowAll(es)
    {
      assert es[i..][0] == es[i] && es[i..][1..] == es[i + 1..];
      sb := sb + Show(es[i]);
    }
    assert es[|es|..] == [] && sb + "" == sb;
    return Some(sb);
  }

  function Sanitised(s: string): Option<string> {
    match Scan(s, false, "") case None => None case Some(es) => Some(ShowAll(es))
  }

  // --- when the scan succeeds ---------------------------------------------------------------------

  /** How many of the first `k` characters are `c`. */
  function Count(s: string, c: char, k: nat): nat
    requires k <= |s|
  {
    if k == 0 then 0 else Count(s, c, k - 1) + if s[k - 1] == c then 1 else 0
  }

  /** Braces alternate, an opening one first, and none is left open. */
  ghost predicate Alternates(s: string) {
    && (forall k :: 0 <= k <= |s| ==> Count(s, '}', k) <= Count(s, '{', k) <= Count(s, '}', k) + 1)
    && Count(s, '{', |s|) == Count(s, '}', |s|)
  }

  ghost predicate AlternatesFrom(s: string, i: nat)
    requires i <= |s|
  {
    && (forall k :: i <= k <= |s| ==> Count(s, '}', k) <= Count(s, '{', k) <= Count(s, '}', k) + 1)
    && Count(s, '{', |s|) == Count(s, '}', |s|)
  }

  /** The scan succeeds exactly when the braces alternate. */
  lemma {:induction false} ScanSucceedsExactly(s: string)
    ensures Scan(s, false, "").Some? <==> Alternates(s)
  {
    assert s[0..] == s;
    ScanFrom(s, 0, false, "");
  }

  lemma {:induction false} ScanFrom(s: string, i: nat, inVar: bool, sb: string)
    requires i <= |s| && Count(s, '{', i) == Count(s, '}', i) + if inVar then 1 else 0
    ensures Scan(s[i..], inVar, sb).Some? <==> AlternatesFrom(s, i)
    decreases |s| - i
  {
    hide Pending;
    if i == |s| {
      assert s[i..] == "";
    } else {
      assert s[i..][0] == s[i] && s[i..][1..] == s[i + 1..];
      var opens, closes := Count(s, '{', i + 1), Count(s, '}', i + 1);
      assert AlternatesFrom(s, i) <==> AlternatesFrom(s, i + 1) && closes <= opens <= closes + 1 by { hide Count; }
      if s[i] == '{' {
        if !inVar { ScanFrom(s, i + 1, true, ""); }
      } else if s[i] == '}' {
        if inVar { ScanFrom(s, i + 1, false, ""); }
      } else {
        ScanFrom(s, i + 1, inVar, sb + [s[i]]);
      }
    }
  }

  // --- what is kept ---------------------------------------------------------------------------------

  /** Every `{}` dropped. */
  function Clean(s: string): string
    decreases |s|
  {
    if s == "" then "" else if "{}" <= s then Clean(s[2..]) else [s[0]] + Clean(s[1..])
  }

  ghost predicate HasEmpty(s: string) {
    exists k :: 0 <= k < |s| - 1 && s[k] == '{' && s[k + 1] == '}'
  }

  lemma {:induction false} CleanShorter(s: string)
    ensures |Clean(s)| <= |s|
    decreases |s|
  {
    if s != "" {
      CleanShorter(s[1..]);
      if "{}" <= s { CleanShorter(s[2..]); }
    }
  }

  /** Dropping changes a string exactly when it has a `{}`. */
  lemma {:induction false} CleanExactly(s: string)
    ensures Clean(s) == s <==> !HasEmpty(s)
    decreases |s|
  {
    if s != "" {
      CleanExactly(s[1..]);
      EmptyAtStart(s);
      if "{}" <= s {
        CleanShorter(s[2..]);
      } else {
        assert s == [s[0]] + s[1..];
        assert Clean(s)[1..] == Clean(s[1..]);
      }
    }
  }

  lemma {:induction false} EmptyAtStart(s: string)
    requires s != ""
    ensures HasEmpty(s) <==> "{}" <= s || HasEmpty(s[1..])
  {
    if "{}" <= s {
      assert s[0] == '{' && s[1] == '}';
    }
    if k :| 0 <= k < |s| - 1 && s[k] == '{' && s[k + 1] == '}' {
      if k == 0 {
        assert s[..2] == "{}";
      } else {
        assert s[1..][k - 1] == '{' && s[1..][k] == '}';
      }
    }
    if k :| 0 <= k < |s[1..]| - 1 && s[1..][k] == '{' && s[1..][k + 1] == '}' {
      assert s[k + 1] == '{' && s[k + 2] == '}';
    }
  }

  lemma {:induction false} FullAllAfter(es: seq<Element>, more: seq<Element>)
    requires |es| <= 1
    ensures FullAll(es + more) == FullAll(es) + FullAll(more)
    ensures ShowAll(es + more) == ShowAll(es) + ShowAll(more)
  {
    if es == [] {
      assert es + more == more;
    } else {
      assert (es + more)[1..] == more && es[1..] == [];
    }
  }

  /** What a successful scan holds: the input with every `{}` dropped. */
  lemma {:induction false} FullFrom(s: string, inVar: bool, sb: string)
    requires Scan(s, inVar, sb).Some?
    ensures FullAll(Scan(s, inVar, sb).value) == if !inVar then sb + Clean(s) else if sb == "" then Clean("{" + s)
        else "{" + sb + Clean(s)
    decreases |s|
  {
    hide Clean;
    if s == "" {
      CleanNothing();
    } else if s[0] == '{' {
      FullFrom(s[1..], true, "");
      FullAllAfter(Pending(Text(sb)), Scan(s[1..], true, "").value);
      assert "{" + s[1..] == s;
    } else if s[0] == '}' {
      FullFrom(s[1..], false, "");
      FullAllAfter(Pending(Var(sb)), Scan(s[1..], false, "").value);
      CleanBrace(s, sb);
    } else {
      FullFrom(s[1..], inVar, sb + [s[0]]);
      CleanPlain(s);
    }
  }

  lemma {:induction false} CleanNothing()
    ensures Clean("") == ""
  {
  }

  lemma {:induction false} CleanBrace(s: string, sb: string)
    requires s != "" && s[0] == '}'
    ensures Clean("{" + s) == Clean(s[1..]) && Clean(s) == "}" + Clean(s[1..])
    ensures "{" + sb + "}" + Clean(s[1..]) == "{" + sb + Clean(s)
  {
    var t := "{" + s;
    assert t[..2] == "{}" && t[2..] == s[1..];
    assert s[0] != "{}"[0];
  }

  lemma {:induction false} CleanPlain(s: string)
    requires s != "" && s[0] != '{' && s[0] != '}'
    ensures Clean(s) == [s[0]] + Clean(s[1..]) && Clean("{" + s) == "{" + Clean(s)
  {
    assert s[0] != "{}"[0];
    assert ("{" + s)[1] != "{}"[1] && ("{" + s)[1..] == s;
  }

  /** Putting the parts together gives the input back exactly when it has no empty placeholder. */
  lemma {:induction false} FullStringRoundTrip(s: string)
    requires Scan(s, false, "").Some?
    ensures FullAll(Scan(s, false, "").value) == Clean(s)
    ensures FullAll(Scan(s, false, "").value) == s <==> !HasEmpty(s)
  {
    FullFrom(s, false, "");
    CleanExactly(s);
  }

  // --- sanitising twice -----------------------------------------------------------------------------------

  predicate NoBraces(s: string) {
    '{' !in s && '}' !in s
  }

  ghost predicate NoBracesIn(es: seq<Element>) {
    forall e :: e in es ==> NoBraces(e.raw)
  }

  lemma {:induction false} ScanHasNoBraces(s: string, inVar: bool, sb: string)
    requires Scan(s, inVar, sb).Some? && NoBraces(sb)
    ensures NoBracesIn(Scan(s, inVar, sb).value)
    decreases |s|
  {
    if s != "" {
      if s[0] == '{' {
        ScanHasNoBraces(s[1..], true, "");
      } else if s[0] == '}' {
        ScanHasNoBraces(s[1..], false, "");
      } else {
        ScanHasNoBraces(s[1..], inVar, sb + [s[0]]);
      }
    }
  }

  lemma {:induction false} ScanPlain(x: string, rest: string, inVar: bool, sb: string)
    requires NoBraces(x)
    ensures Scan(x + rest, inVar, sb) == Scan(rest, inVar, sb + x)
    decreases |x|
  {
    if x == "" {
      assert x + rest == rest && sb + x == sb;
    } else {
      assert (x + rest)[1..] == x[1..] + rest && x == [x[0]] + x[1..];
      assert sb + [x[0]] + x[1..] == sb + x;
      ScanPlain(x[1..], rest, inVar, sb + [x[0]]);
    }
  }

  lemma {:induction false} ScanPlaceholder(n: string, rest: string, sb: string)
    requires NoBraces(n)
    ensures Scan("{" + n + "}" + rest, false, sb) ==
        After(Pending(Text(sb)), After(Pending(Var(n)), Scan(rest, false, "")))
  {
    hide Pending, After;
    var s := "{" + n + "}" + rest;
    assert s[0] == '{' && s[1..] == n + ("}" + rest);
    ScanPlain(n, "}" + rest, true, "");
    assert ("}" + rest)[1..] == rest && "" + n == n;
  }

  lemma {:induction false} NameHasNoBraces(v: string)
    requires NoBraces(v)
    ensures NoBraces(NameOf(v)) && ':' !in NameOf(v)
  {
    if v != "" && v[0] != ':' {
      NameHasNoBraces(v[1..]);
    }
  }

  lemma {:induction false} NameOfName(n: string)
    requires ':' !in n
    ensures NameOf(n) == n
  {
    if n != "" {
      NameOfName(n[1..]);
    }
  }

  /** The parts shown, less the placeholders without a name. */
  function ShowNamed(es: seq<Element>): string {
    if es == [] then "" else ShowIfNamed(es[0]) + ShowNamed(es[1..])
  }

  /** What is shown of one part the second time. */
  function ShowIfNamed(e: Element): string {
    if e.Var? && NameOf(e.raw) == "" then "" else Show(e)
  }

  /** Sanitising what was shown drops the placeholders without a name, and nothing else. */
  lemma {:induction false} ShownAgain(es: seq<Element>, sb: string)
    requires NoBracesIn(es)
    ensures Scan(ShowAll(es), false, sb).Some? && ShowAll(Scan(ShowAll(es), false, sb).value) == sb + ShowNamed(es)
    decreases |es|
  {
    hide *;
    if es == [] {
      NothingShown(sb);
      ShowNothing();
      assert sb + "" == sb;
    } else {
      var rest, named := ShowAll(es[1..]), ShowNamed(es[1..]);
      ShowFirst(es);
      RestHasNoBraces(es);
      assert sb + (ShowIfNamed(es[0]) + named) == sb + ShowIfNamed(es[0]) + named;
      match es[0]
      case Text(raw) =>
        ScanPlain(raw, rest, false, sb);
        ShownAgain(es[1..], sb + raw);
        ShowText(raw);
      case Var(raw) =>
        ShownAgain(es[1..], "");
        assert "" + named == named;
        ShownVar(raw, rest, sb);
        ShowVar(raw);
    }
  }

  lemma {:induction false} ShowNothing()
    ensures ShowAll([]) == "" && ShowNamed([]) == ""
  {
  }

  lemma {:induction false} ShowFirst(es: seq<Element>)
    requires es != []
    ensures ShowAll(es) == Show(es[0]) + ShowAll(es[1..]) && ShowNamed(es) == ShowIfNamed(es[0]) + ShowNamed(es[1..])
  {
    hide Show, NameOf;
  }

  lemma {:induction false} RestHasNoBraces(es: seq<Element>)
    requires NoBracesIn(es) && es != []
    ensures NoBraces(es[0].raw) && NoBracesIn(es[1..])
  {
    hide NoBraces;
  }

  lemma {:induction false} ShowText(raw: string)
    ensures Show(Text(raw)) == raw == ShowIfNamed(Text(raw))
  {
  }

  lemma {:induction false} ShowVar(raw: string)
    ensures Show(Var(raw)) == "{" + NameOf(raw) + "}" && ShowIfNamed(Var(raw)) == if NameOf(raw) == "" then ""
        else "{" + NameOf(raw) + "}"
  {
    hide NameOf;
  }

  lemma {:induction false} ShownVar(raw: string, rest: string, sb: string)
    requires NoBraces(raw) && Scan(rest, false, "").Some?
    ensures var s := "{" + NameOf(raw) + "}" + rest;
      && Scan(s, false, sb).Some?
      && ShowAll(Scan(s, false, sb).value) ==
         sb + (if NameOf(raw) == "" then "" else "{" + NameOf(raw) + "}") + ShowAll(Scan(rest, false, "").value)
  {
    hide Scan, NameOf, ShowAll, FullAll, NoBraces;
    var n, more := NameOf(raw), Scan(rest, false, "").value;
    NameHasNoBraces(raw);
    ScanPlaceholder(n, rest, sb);
    NameOfName(n);
    FullAllAfter(Pending(Var(n)), more);
    FullAllAfter(Pending(Text(sb)), Pending(Var(n)) + more);
    ShowPending(Text(sb));
    ShowPending(Var(n));
  }

  lemma {:induction false} ShowPending(e: Element)
    ensures ShowAll(Pending(e)) == if e.raw == "" then "" else Show(e)
  {
  }

  lemma {:induction false} NothingShown(sb: string)
    ensures Scan("", false, sb).Some? && ShowAll(Scan("", false, sb).value) == sb
  {
  }

  ghost predicate AllNamed(es: seq<Element>) {
    forall e :: e in es && e.Var? ==> NameOf(e.raw) != ""
  }

  lemma {:induction false} NamedExactly(es: seq<Element>)
    ensures |ShowNamed(es)| <= |ShowAll(es)|
    ensures ShowNamed(es) == ShowAll(es) <==> AllNamed(es)
  {
    if es != [] {
      NamedExactly(es[1..]);
      assert es == [es[0]] + es[1..];
      assert AllNamed(es) <==> AllNamed(es[1..]) && (es[0].Var? ==> NameOf(es[0].raw) != "");
      assert (Show(es[0]) + ShowNamed(es[1..]))[|Show(es[0])|..] == ShowNamed(es[1..]);
      assert (Show(es[0]) + ShowAll(es[1..]))[|Show(es[0])|..] == ShowAll(es[1..]);
    }
  }

  /** Sanitising twice is sanitising once exactly when every placeholder has a name. */
  lemma {:induction false} SanitiseTwice(s: string)
    requires Sanitised(s).Some?
    ensures Sanitised(Sanitised(s).value).Some?
    ensures Sanitised(Sanitised(s).value) == Sanitised(s) <==> AllNamed(Scan(s, false, "").value)
  {
    hide Scan, ShowAll, ShowNamed, AllNamed, NoBracesIn;
    var es := Scan(s, false, "").value;
    ScanHasNoBraces(s, false, "");
    ShownAgain(es, "");
    NamedExactly(es);
    assert "" + ShowNamed(es) == ShowNamed(es);
  }
}
