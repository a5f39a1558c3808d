/** What the operators of a WHERE clause and of an OData filter mean, and that the names pushed mean the same. */
module SqlOperators {
  import opened Wrappers
  import opened GoStrings
  import opened ODataFilter

  datatype Comparison =
    | Equal | NotEqual | Greater | GreaterEqual | Less | LessEqual | StartsWith | EndsWith | Contains

  /** The symbols and names by which a query asks for a comparison. */
  function Symbols(c: Comparison): set<string> {
    match c
    case Equal => {"=", "==", "eq"}
    case NotEqual => {"<>", "!=", "ne"}
    case Greater => {">", "gt"}
    case GreaterEqual => {">=", "ge"}
    case Less => {"<", "lt"}
    case LessEqual => {"<=", "le"}
    case StartsWith => {"startswith"}
    case EndsWith => {"endswith"}
    case Contains => {"contains"}
  }

  /** The names of sections 5.1.1.1 and 5.1.1.4 of OData 4.0 Part 2. */
  function ODataName(c: Comparison): string {
    match c
    case Equal => "eq"
    case NotEqual => "ne"
    case Greater => "gt"
    case GreaterEqual => "ge"
    case Less => "lt"
    case LessEqual => "le"
    case StartsWith => "startswith"
    case EndsWith => "endswith"
    case Contains => "contains"
  }

  predicate Blank(s: string) {
    forall i :: 0 <= i < |s| ==> IsSpace(s[i])
  }

  /** An operator is a symbol in any case, with any white space around it. */
  ghost predicate Spells(op: string, c: Comparison) {
    exists left, word, right :: Surrounded(op, left, word, right) && ToLower(word) in Symbols(c)
  }

  ghost predicate Surrounded(s: string, left: string, word: string, right: string) {
    s == left + word + right && Blank(left) && Blank(right)
  }

  /** The comparison a query asks for, if the operator is one it knows. */
  ghost function Asked(op: string): Option<Comparison> {
    if exists c :: Spells(op, c) then var c :| Spells(op, c); Some(c) else None
  }

  /** The comparison an OData server makes. */
  ghost function Named(op: string): Option<Comparison> {
    if exists c :: ODataName(c) == op then var c :| ODataName(c) == op; Some(c) else None
  }

  // --- trimming -------------------------------------------------------------------------------

  lemma {:induction false} TrimLeftBlank(left: string, s: string)
    requires Blank(left) && s != "" && !IsSpace(s[0])
    ensures TrimLeft(left + s) == s
  {
    hide IsSpace;
    if left == "" {
      assert left + s == s;
    } else {
      assert (left + s)[1..] == left[1..] + s;
      TrimLeftBlank(left[1..], s);
    }
  }

  lemma {:induction false} TrimRightBlank(s: string, right: string)
    requires Blank(right) && s != "" && !IsSpace(s[|s| - 1])
    ensures TrimRight(s + right) == s
    decreases right
  {
    hide IsSpace;
    if right == "" {
      assert s + right == s;
    } else {
      assert (s + right)[..|s| + |right| - 1] == s + right[..|right| - 1];
      TrimRightBlank(s, right[..|right| - 1]);
    }
  }

  lemma {:induction false} TrimmedLeft(s: string) returns (left: string)
    ensures s == left + TrimLeft(s) && Blank(left)
  {
    hide IsSpace;
    if s != "" && IsSpace(s[0]) {
      left := TrimmedLeft(s[1..]);
      left := [s[0]] + left;
      assert s == [s[0]] + s[1..];
    } else {
      left := "";
    }
  }

  lemma {:induction false} TrimmedRight(s: string) returns (right: string)
    ensures s == TrimRight(s) + right && Blank(right)
  {
    hide IsSpace;
    if s != "" && IsSpace(s[|s| - 1]) {
      right := TrimmedRight(s[..|s| - 1]);
      right := right + [s[|s| - 1]];
      assert s == s[..|s| - 1] + [s[|s| - 1]];
    } else {
      right := "";
    }
  }

  lemma {:induction false} Trimmed(s: string) returns (left: string, right: string)
    ensures Surrounded(s, left, TrimSpace(s), right)
  {
    left := TrimmedLeft(s);
    right := TrimmedRight(TrimLeft(s));
  }

  /** A word without white space at its ends is what trimming leaves. */
  lemma {:induction false} TrimsTo(s: string, left: string, word: string, right: string)
    requires Surrounded(s, left, word, right) && word != "" && !IsSpace(word[0]) && !IsSpace(word[|word| - 1])
    ensures TrimSpace(s) == word
  {
    assert s == left + (word + right) && (word + right)[0] == word[0];
    TrimLeftBlank(left, word + right);
    TrimRightBlank(word, right);
  }

  // --- the names pushed -------------------------------------------------------------------------

  predicate Plain(c: char) { ' ' < c < '\U{7F}' }

  lemma {:induction false} PlainSymbols(c: Comparison, s: string)
    requires s in Symbols(c)
    ensures s != "" && Plain(s[0]) && Plain(s[|s| - 1])
  {
    hide IsSpace;
  }

  lemma {:induction false} PlainIsNoSpace(c: char)
    requires Plain(LowerChar(c))
    ensures !IsSpace(c)
  {
  }

  lemma {:induction false} SymbolsArePlain(c: Comparison, word: string)
    requires ToLower(word) in Symbols(c)
    ensures word != "" && !IsSpace(word[0]) && !IsSpace(word[|word| - 1])
  {
    hide *;
    PlainSymbols(c, ToLower(word));
    PlainIsNoSpace(word[0]);
    PlainIsNoSpace(word[|word| - 1]);
  }

  lemma {:induction false} CanonicalExactly(o: string, c: Comparison)
    ensures CanonicalOperator(o) == ODataName(c) <==> o in Symbols(c)
  {
  }

  lemma {:induction false} NamesDiffer(c: Comparison, d: Comparison)
    requires ODataName(c) == ODataName(d)
    ensures c == d && ODataName(c) != ""
  {
  }

  lemma {:induction false} CanonicalNames(o: string) returns (c: Comparison)
    ensures CanonicalOperator(o) in {"", ODataName(c)}
  {
    c := if o in Symbols(Equal) then Equal else if o in Symbols(NotEqual) then NotEqual
         else if o in Symbols(Greater) then Greater else if o in Symbols(GreaterEqual) then GreaterEqual
         else if o in Symbols(Less) then Less else if o in Symbols(LessEqual) then LessEqual
         else if o in Symbols(StartsWith) then StartsWith else if o in Symbols(EndsWith) then EndsWith else Contains;
  }

  lemma {:induction false} CanonicalNone(o: string)
    ensures CanonicalOperator(o) == "" <==> forall c :: o !in Symbols(c)
  {
    hide Symbols, ODataName, CanonicalOperator;
    forall c ensures ODataName(c) != "" && (CanonicalOperator(o) == ODataName(c) <==> o in Symbols(c)) {
      NamesDiffer(c, c);
      CanonicalExactly(o, c);
    }
    var c := CanonicalNames(o);
  }

  /** The name pushed is that of a comparison exactly when the operator spells the comparison. */
  lemma {:induction false} NormalizedExactly(op: string, c: Comparison)
    ensures NormalizeOperator(op) == ODataName(c) <==> Spells(op, c)
  {
    hide Symbols, ODataName, CanonicalOperator, TrimSpace, ToLower, Surrounded;
    CanonicalExactly(ToLower(TrimSpace(op)), c);
    var left, right := Trimmed(op);
    forall l, word, r | Surrounded(op, l, word, r) && ToLower(word) in Symbols(c) ensures word == TrimSpace(op) {
      SymbolsArePlain(c, word);
      TrimsTo(op, l, word, r);
    }
  }

  /** An operator is not pushed exactly when it spells no comparison. */
  lemma {:induction false} NotNormalizedExactly(op: string)
    ensures NormalizeOperator(op) == "" <==> forall c :: !Spells(op, c)
  {
    hide Symbols, ODataName, CanonicalOperator, TrimSpace, ToLower, Spells;
    var o := ToLower(TrimSpace(op));
    CanonicalNone(o);
    forall c ensures Spells(op, c) <==> o in Symbols(c) {
      NormalizedExactly(op, c);
      CanonicalExactly(o, c);
    }
  }

  lemma {:induction false} NamedIs(c: Comparison)
    ensures Named(ODataName(c)) == Some(c)
  {
    hide ODataName;
    forall d | ODataName(d) == ODataName(c) ensures d == c {
      NamesDiffer(c, d);
    }
  }

  /** What is pushed asks the server for what the query asked for. */
  lemma {:induction false} AskedIsNamed(op: string)
    ensures Asked(op) == Named(NormalizeOperator(op))
    ensures Asked(op) == None <==> NormalizeOperator(op) == ""
  {
    hide ODataName, NormalizeOperator, Spells;
    NotNormalizedExactly(op);
    forall c ensures NormalizeOperator(op) == ODataName(c) <==> Spells(op, c) {
      NormalizedExactly(op, c);
    }
    if Asked(op).Some? {
      NamedIs(Asked(op).value);
    }
    forall c ensures ODataName(c) != "" {
      NamesDiffer(c, c);
    }
  }

  lemma {:induction false} AskedName(op: string)
    ensures Asked(op).Some? ==> NormalizeOperator(op) == ODataName(Asked(op).value)
  {
    hide ODataName, NormalizeOperator, Spells;
    if Asked(op).Some? {
      NormalizedExactly(op, Asked(op).value);
    }
  }
}
