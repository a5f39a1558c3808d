/**
 The `$filter` text that internal/anysdk/query_param_pushdown_apply.go prints, and a reader for
 it that follows the quoting rules of section 5.1.1.6.1 of OData 4.0 Part 2 (URL Conventions).
 */
module ODataFilter {
  import opened Wrappers
  import opened GoStrings
  import opened Decimal

  /** `Other` stands for the values printed with `%v` that are none of the named kinds. */
  datatype Value = NullValue | BoolValue(b: bool) | IntValue(i: int) | StrValue(s: string) | Other(text: string)

  datatype Pred = Pred(column: string, operator: string, value: Value)

  /** A predicate with its operator in canonical OData form. */
  datatype Term = Term(column: string, op: string, value: Value)

  function TrimLeft(s: string): string {
    if s != "" && IsSpace(s[0]) then TrimLeft(s[1..]) else s
  }

  function TrimRight(s: string): string {
    if s != "" && IsSpace(s[|s| - 1]) then TrimRight(s[..|s| - 1]) else s
  }

  /** `strings.TrimSpace`. */
  function TrimSpace(s: string): string {
    TrimRight(TrimLeft(s))
  }

  /** normalizePushdownFilterOperator: the canonical OData name, or "" if there is none. */
  function NormalizeOperator(op: string): string {
    CanonicalOperator(ToLower(TrimSpace(op)))
  }

  function CanonicalOperator(o: string): string {
    if o in {"eq", "=", "=="} then "eq"
    else if o in {"ne", "!=", "<>"} then "ne"
    else if o in {"gt", ">"} then "gt"
    else if o in {"ge", ">="} then "ge"
    else if o in {"lt", "<"} then "lt"
    else if o in {"le", "<="} then "le"
    else if o in {"startswith", "endswith", "contains"} then o
    else ""
  }

  const COMPARISONS: seq<string> := ["eq", "ne", "gt", "ge", "lt", "le"]
  const FUNCTIONS: seq<string> := ["startswith", "endswith", "contains"]

  lemma {:induction false} NormalizedIsCanonical(op: string)
    ensures var o := NormalizeOperator(op); o != "" ==> o in COMPARISONS || o in FUNCTIONS
  {
    var o := NormalizeOperator(op);
    assert COMPARISONS[0] == "eq" && COMPARISONS[1] == "ne" && COMPARISONS[2] == "gt";
    assert COMPARISONS[3] == "ge" && COMPARISONS[4] == "lt" && COMPARISONS[5] == "le";
    assert FUNCTIONS[0] == "startswith" && FUNCTIONS[1] == "endswith" && FUNCTIONS[2] == "contains";
  }

  function TermOf(p: Pred): Term {
    Term(p.column, NormalizeOperator(p.operator), p.value)
  }

  /** formatODataValue: strings are single-quoted with embedded quotes doubled. */
  function FormatValue(v: Value): string {
    match v
    case NullValue => "null"
    case StrValue(s) => "'" + ReplaceAll(s, "'", "''") + "'"
    case BoolValue(b) => if b then "true" else "false"
    case IntValue(i) => Itoa(i)
    case Other(text) => text
  }

  /** buildODataFilterTerm. */
  function FormatTerm(t: Term): string {
    if t.op in FUNCTIONS then t.op + "(" + t.column + "," + FormatValue(t.value) + ")"
    else t.column + " " + t.op + " " + FormatValue(t.value)
  }

  function FormatTerms(ts: seq<Term>): seq<string> {
    if ts == [] then [] else [FormatTerm(ts[0])] + FormatTerms(ts[1..])
  }

  function FormatFilter(ts: seq<Term>): string {
    Join(FormatTerms(ts), " and ")
  }

  // --- reading -------------------------------------------------------------------------------

  predicate WordChar(c: char) { IsLower(c) || IsUpper(c) || IsDigit(c) || c in {'_', '-', '.', '/'} }

  /** The leading run of word characters. */
  function Word(s: string): (w: string)
    ensures |w| <= |s| && s[..|w|] == w && (forall i :: 0 <= i < |w| ==> WordChar(w[i]))
    ensures |w| < |s| ==> !WordChar(s[|w|])
  {
    if s == "" || !WordChar(s[0]) then "" else [s[0]] + Word(s[1..])
  }

  /** Reads a quoted string after its opening quote; the text after the closing quote is left over. */
  function ReadQuoted(s: string): Option<(string, string)> {
    if s == "" then None
    else if s[0] != '\'' then
      match ReadQuoted(s[1..]) case None => None case Some(r) => Some(([s[0]] + r.0, r.1))
    else if |s| >= 2 && s[1] == '\'' then
      match ReadQuoted(s[2..]) case None => None case Some(r) => Some((['\''] + r.0, r.1))
    else Some(("", s[1..]))
  }

  function ReadValue(s: string): Option<(Value, string)> {
    if s != "" && s[0] == '\'' then
      match ReadQuoted(s[1..]) case None => None case Some(r) => Some((StrValue(r.0), r.1))
    else
      var w := Word(s);
      var rest := s[|w|..];
      if w == "null" then Some((NullValue, rest))
      else if w == "true" then Some((BoolValue(true), rest))
      else if w == "false" then Some((BoolValue(false), rest))
      else if IsIntText(w) then Some((IntValue(Atoi(w)), rest))
      else None
  }

  /** `prefix` must come next. */
  function Skip(s: string, prefix: string): Option<string> {
    if prefix <= s then Some(s[|prefix|..]) else None
  }

  function ReadTerm(s: string): Option<(Term, string)> {
    var w := Word(s);
    var rest := s[|w|..];
    if rest != "" && rest[0] == '(' then ReadFunction(w, rest[1..]) else ReadComparison(w, rest)
  }

  function ReadFunction(fn: string, s: string): Option<(Term, string)> {
    var column := Word(s);
    if fn !in FUNCTIONS then None
    else match Skip(s[|column|..], ",") case None => None
      case Some(r) => match ReadValue(r) case None => None
        case Some(v) => match Skip(v.1, ")") case None => None
          case Some(rest) => Some((Term(column, fn, v.0), rest))
  }

  function ReadComparison(column: string, s: string): Option<(Term, string)> {
    match Skip(s, " ") case None => None
    case Some(r) =>
      var op := Word(r);
      if op !in COMPARISONS then None
      else match Skip(r[|op|..], " ") case None => None
        case Some(r2) => match ReadValue(r2) case None => None
          case Some(v) => Some((Term(column, op, v.0), v.1))
  }

  function ReadFilter(s: string): Option<seq<Term>>
    decreases |s|
  {
    match ReadTerm(s) case None => None
    case Some(t) =>
      if t.1 == "" then Some([t.0])
      else match Skip(t.1, " and ") case None => None
        case Some(rest) =>
          if |rest| >= |s| then None
          else match ReadFilter(rest) case None => None case Some(ts) => Some([t.0] + ts)
  }

  // --- reading undoes printing --------------------------------------------------------------------

  /** Identifier columns and values of the four named kinds. */
  predicate Readable(t: Term) {
    && t.column != "" && (forall i :: 0 <= i < |t.column| ==> WordChar(t.column[i]))
    && !t.value.Other?
    && (t.op in COMPARISONS || t.op in FUNCTIONS)
  }

  predicate AllReadable(ts: seq<Term>) {
    forall i :: 0 <= i < |ts| ==> Readable(ts[i])
  }

  /** What may follow a value: the end, a closing parenthesis or a space. */
  predicate Stops(rest: string) {
    rest == "" || rest[0] == ')' || rest[0] == ' '
  }

  lemma {:induction false} WordStops(w: string, rest: string)
    requires forall i :: 0 <= i < |w| ==> WordChar(w[i])
    requires rest == "" || !WordChar(rest[0])
    ensures Word(w + rest) == w && (w + rest)[|w|..] == rest
  {
    if w == "" {
      assert w + rest == rest;
    } else {
      assert (w + rest)[1..] == w[1..] + rest && [w[0]] + w[1..] == w;
      WordStops(w[1..], rest);
    }
  }

  lemma {:induction false} ReadQuotedUndoes(s: string, rest: string)
    requires rest == "" || rest[0] != '\''
    ensures ReadQuoted(ReplaceAll(s, "'", "''") + "'" + rest) == Some((s, rest))
  {
    if s == "" {
      assert ("'" + rest)[1..] == rest;
      assert ReplaceAll(s, "'", "''") + "'" + rest == "'" + rest;
    } else {
      ReadQuotedUndoes(s[1..], rest);
      var tail := ReplaceAll(s[1..], "'", "''") + "'" + rest;
      assert s == [s[0]] + s[1..];
      if s[0] == '\'' {
        ReplaceHits("'", s[1..], "''");
        assert ReplaceAll(s, "'", "''") + "'" + rest == "''" + tail;
        assert ("''" + tail)[2..] == tail;
      } else {
        ReplaceCopies(s[0], s[1..], "'", "''");
        assert ReplaceAll(s, "'", "''") + "'" + rest == [s[0]] + tail;
        assert ([s[0]] + tail)[1..] == tail;
      }
    }
  }

  lemma {:induction false} ReadWordValue(w: string, v: Value, rest: string)
    requires Stops(rest) && w != "" && (forall i :: 0 <= i < |w| ==> WordChar(w[i]))
    requires v == if w == "null" then NullValue else if w == "true" then BoolValue(true)
        else if w == "false" then BoolValue(false)
                  else if IsIntText(w) then IntValue(Atoi(w)) else Other("")
    requires !v.Other?
    ensures ReadValue(w + rest) == Some((v, rest))
  {
    WordStops(w, rest);
    assert (w + rest)[0] == w[0];
  }

  lemma {:induction false} ReadValueUndoes(v: Value, rest: string)
    requires !v.Other? && Stops(rest)
    ensures ReadValue(FormatValue(v) + rest) == Some((v, rest))
  {
    match v
    case StrValue(s) =>
      ReadQuotedUndoes(s, rest);
      var text := ReplaceAll(s, "'", "''") + "'" + rest;
      assert FormatValue(v) + rest == "'" + text;
      assert ("'" + text)[1..] == text;
    case IntValue(i) =>
      AtoiItoa(i);
      var w := Itoa(i);
      IntTextIsNoKeyword(w);
      ReadWordValue(w, v, rest);
    case NullValue => ReadWordValue("null", v, rest);
    case BoolValue(b) =>
      if b { ReadWordValue("true", v, rest); } else {
        assert "false"[0] != "null"[0] && "false"[0] != "true"[0];
        ReadWordValue("false", v, rest);
      }
  }

  lemma {:induction false} IntTextIsNoKeyword(w: string)
    requires IsIntText(w)
    ensures w != "" && (forall i :: 0 <= i < |w| ==> WordChar(w[i])) && w !in {"null", "true", "false"}
  {
    if w[0] == '-' {
      assert w == [w[0]] + w[1..];
    }
    assert w[0] == '-' || IsDigit(w[0]);
    assert "null"[0] == 'n' && "true"[0] == 't' && "false"[0] == 'f';
  }

  lemma {:induction false} SkipUndoes(prefix: string, rest: string)
    ensures Skip(prefix + rest, prefix) == Some(rest)
  {
    assert (prefix + rest)[|prefix|..] == rest;
  }

  lemma {:induction false} OperatorIsWord(op: string)
    requires op in COMPARISONS || op in FUNCTIONS
    ensures op != "" && forall i :: 0 <= i < |op| ==> WordChar(op[i])
  {
  }

  lemma {:induction false} ReadFunctionUndoes(t: Term, rest: string)
    requires Readable(t) && t.op in FUNCTIONS
    ensures ReadFunction(t.op, t.column + "," + FormatValue(t.value) + ")" + rest) == Some((t, rest))
  {
    var value := FormatValue(t.value) + (")" + rest);
    var s := t.column + ("," + value);
    assert t.column + "," + FormatValue(t.value) + ")" + rest == s;
    WordStops(t.column, "," + value);
    SkipUndoes(",", value);
    ReadValueUndoes(t.value, ")" + rest);
    SkipUndoes(")", rest);
  }

  lemma {:induction false} ReadComparisonUndoes(t: Term, rest: string)
    requires Readable(t) && t.op in COMPARISONS && Stops(rest)
    ensures ReadComparison(t.column, " " + t.op + " " + FormatValue(t.value) + rest) == Some((t, rest))
  {
    var value := FormatValue(t.value) + rest;
    var afterSpace := t.op + (" " + value);
    assert " " + t.op + " " + FormatValue(t.value) + rest == " " + afterSpace;
    SkipUndoes(" ", afterSpace);
    OperatorIsWord(t.op);
    WordStops(t.op, " " + value);
    SkipUndoes(" ", value);
    ReadValueUndoes(t.value, rest);
  }

  lemma {:induction false} ReadTermSplits(w: string, rest: string)
    requires forall i :: 0 <= i < |w| ==> WordChar(w[i])
    requires rest != "" && !WordChar(rest[0])
    ensures ReadTerm(w + rest) == if rest[0] == '(' then ReadFunction(w, rest[1..]) else ReadComparison(w, rest)
  {
    WordStops(w, rest);
  }

  /** A printed function term splits after its name. */
  lemma {:induction false} FunctionTermText(t: Term, rest: string)
    requires t.op in FUNCTIONS
    ensures var args := t.column + "," + FormatValue(t.value) + ")" + rest;
      FormatTerm(t) + rest == t.op + ("(" + args) && ("(" + args)[1..] == args
  {
    var args := t.column + "," + FormatValue(t.value) + ")" + rest;
    assert ("(" + args)[1..] == args;
  }

  lemma {:induction false} ComparisonTermText(t: Term, rest: string)
    requires t.op !in FUNCTIONS
    ensures FormatTerm(t) + rest == t.column + (" " + t.op + " " + FormatValue(t.value) + rest)
  {
  }

  lemma {:induction false} ReadTermUndoes(t: Term, rest: string)
    requires Readable(t) && Stops(rest)
    ensures ReadTerm(FormatTerm(t) + rest) == Some((t, rest))
  {
    hide FormatTerm, ReadTerm, ReadFunction, ReadComparison, FormatValue, Word;
    if t.op in FUNCTIONS {
      FunctionTermText(t, rest);
      OperatorIsWord(t.op);
      ReadTermSplits(t.op, "(" + (t.column + "," + FormatValue(t.value) + ")" + rest));
      ReadFunctionUndoes(t, rest);
    } else {
      ComparisonTermText(t, rest);
      ReadTermSplits(t.column, " " + t.op + " " + FormatValue(t.value) + rest);
      ReadComparisonUndoes(t, rest);
    }
  }

  lemma {:induction false} FormatFilterCons(ts: seq<Term>)
    requires ts != []
    ensures FormatFilter(ts) == FormatTerm(ts[0]) + (if |ts| == 1 then "" else " and " + FormatFilter(ts[1..]))
  {
    var parts := FormatTerms(ts);
    assert parts[1..] == FormatTerms(ts[1..]);
    if |ts| == 1 {
      assert parts == [FormatTerm(ts[0])];
      assert FormatTerm(ts[0]) + "" == FormatTerm(ts[0]);
    } else {
      assert FormatTerms(ts[1..]) == [FormatTerm(ts[1])] + FormatTerms(ts[1..][1..]);
    }
  }

  /** Reading the printed filter gives back exactly the terms, whatever the string values contain. */
  lemma {:induction false} ReadFilterUndoes(ts: seq<Term>)
    requires ts != [] && AllReadable(ts)
    ensures ReadFilter(FormatFilter(ts)) == Some(ts)
  {
    hide FormatTerm, ReadTerm, FormatFilter;
    FormatFilterCons(ts);
    if |ts| == 1 {
      ReadTermUndoes(ts[0], "");
      assert FormatTerm(ts[0]) + "" == FormatFilter(ts);
      assert ts == [ts[0]];
    } else {
      var rest := FormatFilter(ts[1..]);
      ReadTermUndoes(ts[0], " and " + rest);
      SkipUndoes(" and ", rest);
      ReadFilterUndoes(ts[1..]);
      ReadFilterStep(FormatFilter(ts), ts[0], rest, ts[1..]);
      assert ts == [ts[0]] + ts[1..];
    }
  }

  lemma {:induction false} ReadFilterStep(s: string, t: Term, rest: string, ts: seq<Term>)
    requires ReadTerm(s) == Some((t, " and " + rest)) && |rest| < |s| && ReadFilter(rest) == Some(ts)
    ensures ReadFilter(s) == Some([t] + ts)
  {
    hide ReadTerm;
    SkipUndoes(" and ", rest);
  }

  /** Different term lists never print alike. */
  lemma {:induction false} FilterTextIsInjective(ts: seq<Term>, us: seq<Term>)
    requires ts != [] && us != [] && AllReadable(ts) && AllReadable(us) && FormatFilter(ts) == FormatFilter(us)
    ensures ts == us
  {
    ReadFilterUndoes(ts);
    ReadFilterUndoes(us);
  }
}
