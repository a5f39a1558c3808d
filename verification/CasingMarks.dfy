/** Where ToSnake puts its separators, on every name, and what the other casings make of an underscore. */
module CasingMarks {
  import opened GoStrings
  import opened Casing

  /** An underscore between any two neighbours that `between` parts. */
  function Separated(between: (char, char) -> bool, s: string): string {
    if |s| < 2 then s
    else [s[0]] + (if between(s[0], s[1]) then "_" else "") + Separated(between, s[1..])
  }

  predicate LowerDigit(a: char, b: char) {
    IsLower(a) && IsDigit(b)
  }

  predicate WordUpper(a: char, b: char) {
    (IsLower(a) || IsDigit(a)) && IsUpper(b)
  }

  predicate Either(a: char, b: char) {
    LowerDigit(a, b) || WordUpper(a, b)
  }

  lemma {:induction false} SeparatedCons(between: (char, char) -> bool, c: char, s: string)
    requires s != ""
    ensures Separated(between, [c] + s) == [c] + (if between(c, s[0]) then "_" else "") + Separated(between, s)
  {
    assert ([c] + s)[1..] == s;
  }

  lemma {:induction false} SeparatedStarts(between: (char, char) -> bool, s: string)
    requires s != ""
    ensures Separated(between, s) != "" && Separated(between, s)[0] == s[0]
  {
  }

  /** Over a stretch that `between` does not part nothing changes. */
  lemma {:induction false} SeparatedPast(between: (char, char) -> bool, x: string, s: string)
    requires forall i :: 0 < i < |x| ==> !between(x[i - 1], x[i])
    requires x != "" && (s != "" ==> !between(x[|x| - 1], s[0]))
    ensures Separated(between, x + s) == x + Separated(between, s)
  {
    if |x| == 1 {
      if s != "" {
        SeparatedCons(between, x[0], s);
      }
      assert x == [x[0]];
    } else {
      assert x + s == [x[0]] + (x[1..] + s) && x == [x[0]] + x[1..];
      assert !between(x[0], x[1]);
      SeparatedPast(between, x[1..], s);
      SeparatedCons(between, x[0], x[1..] + s);
    }
  }

  // --- the three passes ---------------------------------------------------------------------------

  lemma {:induction false} DigitsRun(s: string)
    ensures forall i :: 0 <= i < DigitRun(s) ==> IsDigit(s[i])
    ensures DigitRun(s) < |s| ==> !IsDigit(s[DigitRun(s)])
  {
    if s != "" && IsDigit(s[0]) {
      DigitsRun(s[1..]);
    }
  }

  lemma {:induction false} NumberParted(c: char, digits: string, rest: string)
    requires IsLower(c) && digits != "" && forall i :: 0 <= i < |digits| ==> IsDigit(digits[i])
    ensures Separated(LowerDigit, [c] + (digits + rest)) == [c] + "_" + digits + Separated(LowerDigit, rest)
  {
    forall i, d | 0 <= i < |digits| ensures !LowerDigit(digits[i], d) {
      assert IsDigit(digits[i]);
    }
    assert LowerDigit(c, digits[0]);
    hide LowerDigit, Separated, IsLower, IsDigit;
    SeparatedPast(LowerDigit, digits, rest);
    SeparatedCons(LowerDigit, c, digits + rest);
  }

  /** The number pass parts a lower-case letter from a digit after it. */
  lemma {:induction false} NumberCapExactly(s: string)
    ensures NumberCap(s) == Separated(LowerDigit, s)
    decreases |s|
  {
    hide DigitRun;
    if |s| >= 2 && IsLower(s[0]) && IsDigit(s[1]) {
      var n := DigitRun(s[1..]);
      var digits, rest := s[1..1 + n], s[1 + n..];
      DigitsRun(s[1..]);
      NumberCapExactly(rest);
      assert s == [s[0]] + (digits + rest) && forall i :: 0 <= i < n ==> digits[i] == s[1..][i];
      NumberParted(s[0], digits, rest);
    } else if s != "" {
      NumberCapExactly(s[1..]);
    }
  }

  lemma {:induction false} EndParted(a: char, b: char, rest: string)
    requires WordUpper(a, b)
    ensures Separated(WordUpper, [a] + ([b] + rest)) == [a] + "_" + [b] + Separated(WordUpper, rest)
  {
    SeparatedPast(WordUpper, [b], rest);
    SeparatedCons(WordUpper, a, [b] + rest);
  }

  /** The last pass parts a lower-case letter or a digit from a capital after it. */
  lemma {:induction false} EndCapExactly(s: string)
    ensures EndCap(s) == Separated(WordUpper, s)
    decreases |s|
  {
    if |s| >= 2 && (IsLower(s[0]) || IsDigit(s[0])) && IsUpper(s[1]) {
      EndCapExactly(s[2..]);
      EndParted(s[0], s[1], s[2..]);
      assert s == [s[0]] + ([s[1]] + s[2..]);
    } else if s != "" {
      EndCapExactly(s[1..]);
    }
  }

  lemma {:induction false} UnderscoreIsNeutral(c: char)
    ensures !WordUpper(c, '_') && !WordUpper('_', c)
  {
  }

  lemma {:induction false} AcrossUnderscore(c: char, t: string)
    requires t != ""
    ensures Separated(WordUpper, [c] + "_" + t) == [c] + "_" + Separated(WordUpper, t)
  {
    hide WordUpper;
    UnderscoreIsNeutral(c);
    UnderscoreIsNeutral(t[0]);
    assert [c] + "_" + t == [c, '_'] + t;
    SeparatedPast(WordUpper, [c, '_'], t);
  }

  /** Both together part what either does: an underscore put in takes part in neither. */
  lemma {:induction false} PassesCombine(s: string)
    ensures Separated(WordUpper, Separated(LowerDigit, s)) == Separated(Either, s)
  {
    hide WordUpper, LowerDigit;
    if |s| >= 2 {
      var rest := Separated(LowerDigit, s[1..]);
      PassesCombine(s[1..]);
      SeparatedStarts(LowerDigit, s[1..]);
      assert s == [s[0]] + s[1..];
      SeparatedCons(LowerDigit, s[0], s[1..]);
      SeparatedCons(Either, s[0], s[1..]);
      hide Separated;
      if LowerDigit(s[0], s[1]) {
        AcrossUnderscore(s[0], rest);
      } else {
        assert [s[0]] + "" + rest == [s[0]] + rest;
        SeparatedCons(WordUpper, s[0], rest);
      }
    }
  }

  // --- the whole transform ----------------------------------------------------------------------------

  /**
   Where a word begins: at a capital after a lower-case letter or a digit, at a capital before a lower-case
   letter unless a line begins there, and at a digit after a lower-case letter.
   */
  predicate Begins(before: char, c: char, rest: string) {
    || (IsUpper(c) && (IsLower(before) || IsDigit(before)))
    || (IsUpper(c) && before != '\n' && rest != "" && IsLower(rest[0]))
    || (IsDigit(c) && IsLower(before))
  }

  function Words(s: string): string {
    if |s| < 2 then s
    else [s[0]] + (if Begins(s[0], s[1], s[2..]) then "_" else "") + Words(s[1..])
  }

  lemma {:induction false} WordsCons(c: char, s: string)
    requires s != ""
    ensures Words([c] + s) == [c] + (if Begins(c, s[0], s[1..]) then "_" else "") + Words(s)
  {
    assert ([c] + s)[1..] == s && ([c] + s)[2..] == s[1..];
  }

  lemma {:induction false} AfterLower(a: char, c: char, rest: string)
    ensures IsLower(a) ==> (Begins(a, c, rest) <==> Either(a, c))
    ensures IsLower(c) ==> !Begins(a, c, rest)
  {
  }

  lemma {:induction false} WordsPast(x: string, rest: string)
    requires x != "" && (forall i :: 0 < i < |x| ==> IsLower(x[i])) && IsLower(x[|x| - 1])
    ensures Words(x + rest) == x + (if rest != "" && Either(x[|x| - 1], rest[0]) then "_" else "") + Words(rest)
  {
    hide Begins, Either, IsLower;
    if |x| == 1 {
      assert x == [x[0]];
      if rest == "" {
        assert x + rest == x;
      } else {
        WordsCons(x[0], rest);
        AfterLower(x[0], rest[0], rest[1..]);
      }
    } else {
      var tail := x[1..];
      assert x + rest == [x[0]] + (tail + rest) && x == [x[0]] + tail;
      WordsPast(tail, rest);
      WordsCons(x[0], tail + rest);
      AfterLower(x[0], x[1], (tail + rest)[1..]);
    }
  }

  lemma {:induction false} LowersRun(s: string)
    ensures forall i :: 0 <= i < LowerRun(s) ==> IsLower(s[i])
    ensures LowerRun(s) < |s| ==> !IsLower(s[LowerRun(s)])
  {
    if s != "" && IsLower(s[0]) {
      LowersRun(s[1..]);
    }
  }

  lemma {:induction false} FirstCapStarts(s: string)
    ensures s != "" ==> FirstCap(s) != "" && FirstCap(s)[0] == s[0]
    ensures s == "" ==> FirstCap(s) == ""
  {
  }

  lemma {:induction false} NoneBeforeLower(a: char, b: char)
    requires IsLower(b)
    ensures !Either(a, b)
  {
  }

  lemma {:induction false} SeparatedShort(between: (char, char) -> bool, s: string)
    requires |s| < 2
    ensures Separated(between, s) == s
  {
  }

  /** A capital with its lower-case letters, and what follows once it has been separated. */
  lemma {:induction false} WordThenRest(w: string, t: string)
    requires |w| >= 2 && IsUpper(w[0]) && forall i :: 0 < i < |w| ==> IsLower(w[i])
    ensures Separated(Either, w + t) == w + (if t != "" && Either(w[|w| - 1], t[0]) then "_" else "") +
      Separated(Either, t)
  {
    forall i | 0 < i < |w| ensures !Either(w[i - 1], w[i]) {
      NoneBeforeLower(w[i - 1], w[i]);
    }
    hide Either, IsLower, IsUpper, Separated;
    var front, last := w[..|w| - 1], w[|w| - 1];
    assert w + t == front + ([last] + t) && w == front + [last];
    SeparatedPast(Either, front, [last] + t);
    if t != "" {
      SeparatedCons(Either, last, t);
    } else {
      assert [last] + t == [last];
      SeparatedShort(Either, [last]);
      SeparatedShort(Either, t);
    }
  }

  /** After all passes an underscore stands exactly before every word but the first. */
  lemma {:induction false} FirstCapExactly(s: string)
    ensures Separated(Either, FirstCap(s)) == Words(s)
    decreases |s|
  {
    if |s| >= 3 && s[0] != '\n' && IsUpper(s[1]) && IsLower(s[2]) {
      var n := LowerRun(s[2..]);
      LowersRun(s[2..]);
      var w, rest := s[1..2 + n], s[2 + n..];
      assert forall i :: 1 <= i < |w| ==> w[i] == s[2..][i - 1];
      FirstCapMatches(s, w, rest);
    } else if s != "" {
      FirstCapExactly(s[1..]);
      FirstCapStarts(s[1..]);
      if |s| >= 2 {
        SeparatedCons(Either, s[0], FirstCap(s[1..]));
      }
    }
  }

  lemma {:induction false} FirstCapMatches(s: string, w: string, rest: string)
    requires s != "" && s[0] != '\n' && s == [s[0]] + w + rest && |w| >= 2 &&
        FirstCap(s) == [s[0]] + "_" + w + FirstCap(rest)
    requires IsUpper(w[0]) && forall i :: 0 < i < |w| ==> IsLower(w[i])
    ensures Separated(Either, FirstCap(s)) == Words(s)
    decreases |s|, 0
  {
    hide FirstCap;
    var t := FirstCap(rest);
    FirstCapExactly(rest);
    FirstCapStarts(rest);
    assert FirstCap(s) == [s[0], '_'] + (w + t);
    SeparatedPast(Either, [s[0], '_'], w + t);
    WordThenRest(w, t);
    WordsPast(w, rest);
    assert s[1..] == w + rest && s[1] == w[0] && s[2..][0] == w[1];
  }

  /** What the passes are given: a plural acronym at the end is first put in lower case. */
  function Renamed(name: string): string {
    var n := SpecialMatch(name);
    if n == 0 then name else name[..|name| - n] + "_" + ToLower(name[|name| - n..])
  }

  /** `m` is two capitals or more and an `s`. */
  predicate PluralAcronym(m: string) {
    |m| >= 3 && m[|m| - 1] == 's' && forall i :: 0 <= i < |m| - 1 ==> IsUpper(m[i])
  }

  lemma {:induction false} CapitalsExactly(s: string)
    ensures var n := CapitalsAtEnd(s);
      && (forall i :: |s| - n <= i < |s| ==> IsUpper(s[i])) && (n < |s| ==> !IsUpper(s[|s| - n - 1]))
  {
    if s != "" && IsUpper(s[|s| - 1]) {
      CapitalsExactly(s[..|s| - 1]);
    }
  }

  lemma {:induction false} CapitalsReach(s: string, k: nat)
    requires k <= |s| && forall i :: k <= i < |s| ==> IsUpper(s[i])
    ensures |s| - k <= CapitalsAtEnd(s)
  {
    hide IsUpper;
    CapitalsExactly(s);
  }

  /** The acronym taken is the longest plural acronym that ends the name, if there is one. */
  lemma {:induction false} SpecialExactly(name: string)
    ensures var n := SpecialMatch(name);
      && (n > 0 ==> PluralAcronym(name[|name| - n..]))
      && forall k :: 0 <= k <= |name| && PluralAcronym(name[k..]) ==> 0 < |name| - k <= n
  {
    hide IsUpper;
    if name != "" {
      CapitalsExactly(name[..|name| - 1]);
    }
    forall k | 0 <= k <= |name| && PluralAcronym(name[k..]) ensures 0 < |name| - k <= SpecialMatch(name) {
      var m, front := name[k..], name[..|name| - 1];
      assert m[|m| - 1] == name[|name| - 1];
      forall j | k <= j < |front| ensures IsUpper(front[j]) {
        assert front[j] == m[j - k];
      }
      CapitalsReach(front, k);
    }
  }

  /**
   On every name without an underscore the transform is the lower-case form of the name with an underscore before
   every word but the first.
   */
  lemma {:induction false} XformExactly(name: string)
    ensures Xform(name) == if '_' in name then name else ToLower(Words(Renamed(name)))
  {
    hide FirstCap, NumberCap, EndCap, Words, SpecialMatch, ToLower;
    var s := Renamed(name);
    NumberCapExactly(FirstCap(s));
    EndCapExactly(Separated(LowerDigit, FirstCap(s)));
    PassesCombine(FirstCap(s));
    FirstCapExactly(s);
  }

  // --- from snake case ------------------------------------------------------------------------------

  /** Snake case stays, and kebab case has dashes for underscores. */
  lemma {:induction false} KebabExactly(snake: string)
    ensures FromSnake(snake, Snake) == FromSnake(snake, Unknown) == snake
    ensures var kebab := FromSnake(snake, Kebab);
      |kebab| == |snake| && forall i :: 0 <= i < |snake| ==> kebab[i] == if snake[i] == '_' then '-' else snake[i]
  {
    if snake != "" {
      KebabExactly(snake[1..]);
      assert ReplaceAll(snake, "_", "-") ==
          (if snake[0] == '_' then "-" else [snake[0]]) + ReplaceAll(snake[1..], "_", "-");
    }
  }
}
