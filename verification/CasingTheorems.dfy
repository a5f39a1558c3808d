/** When going to Pascal or camel case and back to snake case gives the name back. */
module CasingTheorems {
  import opened GoStrings
  import opened Casing

  /** Letters, all but perhaps the first in lower case. */
  ghost predicate IsPiece(p: string) {
    p != "" && (IsUpper(p[0]) || IsLower(p[0])) && LowerTail(p)
  }

  ghost predicate LowerTail(x: string) {
    forall i :: 0 < i < |x| ==> IsLower(x[i])
  }

  ghost predicate EndsLower(x: string) {
    x != "" && IsLower(x[|x| - 1])
  }

  /** A boundary the patterns can see: a lower-case letter before it, or one after the capital. */
  ghost predicate Visible(p: string, q: string) {
    EndsLower(p) || |q| >= 2
  }

  /** Pieces that start with a capital, except perhaps the first. */
  ghost predicate Regular(pieces: seq<string>) {
    && (forall i :: 0 <= i < |pieces| ==> IsPiece(pieces[i]))
    && (forall i :: 0 < i < |pieces| ==> IsUpper(pieces[i][0]))
  }

  ghost predicate AllVisible(pieces: seq<string>) {
    forall i :: 0 < i < |pieces| ==> Visible(pieces[i - 1], pieces[i])
  }

  /** The pieces with `_` at the visible boundaries only. */
  ghost function JoinVisible(pieces: seq<string>): string
    decreases |pieces|, 1
  {
    if pieces == [] then "" else pieces[0] + VisibleTail(pieces)
  }

  ghost function VisibleTail(pieces: seq<string>): string
    requires pieces != []
    decreases |pieces|, 0
  {
    if |pieces| == 1 then ""
    else if Visible(pieces[0], pieces[1]) then "_" + JoinVisible(pieces[1..])
    else JoinVisible(pieces[1..])
  }

  lemma {:induction false} RegularRest(pieces: seq<string>)
    requires Regular(pieces) && pieces != []
    ensures Regular(pieces[1..])
  {
  }

  /** What the first pattern makes of the pieces: it sees every boundary before two letters, but not two in a row. */
  ghost function Marked(pieces: seq<string>): string
    decreases |pieces|
  {
    if pieces == [] then ""
    else pieces[0] + MarkedTail(pieces)
  }

  ghost function MarkedTail(pieces: seq<string>): string
    requires pieces != []
    decreases |pieces|, 0
  {
    if |pieces| == 1 then ""
    else if |pieces[1]| >= 2 then "_" + pieces[1] + Marked(pieces[2..])
    else Marked(pieces[1..])
  }

  // --- the first pattern ------------------------------------------------------------------------------

  ghost predicate StartsUpper(x: string) {
    x == "" || IsUpper(x[0])
  }

  ghost predicate Letters(x: string) {
    forall i :: 0 <= i < |x| ==> IsUpper(x[i]) || IsLower(x[i])
  }

  /** Where the first pattern does not match, a character is copied. */
  lemma {:induction false} FirstCapSkip(s: string)
    requires s != "" && (|s| >= 3 ==> !IsUpper(s[1]) || !IsLower(s[2]))
    ensures FirstCap(s) == [s[0]] + FirstCap(s[1..])
  {
  }

  lemma {:induction false} FirstCapWord(x: string)
    requires LowerTail(x)
    ensures FirstCap(x) == x
  {
    if x != "" {
      FirstCapWord(x[1..]);
      assert x == [x[0]] + x[1..];
    }
  }

  lemma {:induction false} RunEnds(x: string, rest: string)
    requires (forall i :: 0 <= i < |x| ==> IsLower(x[i])) && StartsUpper(rest)
    ensures LowerRun(x + rest) == |x|
  {
    if x == "" {
      assert x + rest == rest;
    } else {
      assert (x + rest)[1..] == x[1..] + rest;
      RunEnds(x[1..], rest);
    }
  }

  lemma {:induction false} FirstCapMatch(c: char, q: string, rest: string)
    requires c != '\n' && |q| >= 2 && IsUpper(q[0]) && LowerTail(q) && StartsUpper(rest)
    ensures FirstCap([c] + q + rest) == [c] + "_" + q + FirstCap(rest)
  {
    var s := [c] + q + rest;
    assert s[2..] == q[1..] + rest;
    RunEnds(q[1..], rest);
    assert s[1..2 + |q| - 1] == q && s[2 + |q| - 1..] == rest;
  }

  /** Before two letters the boundary is found. */
  lemma {:induction false} FirstCapBefore(x: string, q: string, rest: string)
    requires x != "" && Letters(x) && LowerTail(x) && |q| >= 2 && IsUpper(q[0]) && LowerTail(q) && StartsUpper(rest)
    ensures FirstCap(x + q + rest) == x + "_" + q + FirstCap(rest)
    decreases |x|
  {
    hide FirstCap;
    if |x| == 1 {
      assert x == [x[0]];
      FirstCapMatch(x[0], q, rest);
    } else {
      var s := x + q + rest;
      assert s[1..] == x[1..] + q + rest && s[1] == x[1];
      FirstCapSkip(s);
      FirstCapBefore(x[1..], q, rest);
      assert x == [x[0]] + x[1..];
    }
  }

  /** Before a single capital it is not. */
  lemma {:induction false} FirstCapSingle(x: string, q: string, rest: string)
    requires LowerTail(x) && |q| == 1 && StartsUpper(rest)
    ensures FirstCap(x + (q + rest)) == x + FirstCap(q + rest)
    decreases |x|
  {
    hide FirstCap;
    var s := x + (q + rest);
    if x == "" {
      assert s == q + rest;
    } else {
      assert s[1..] == x[1..] + (q + rest);
      assert |x| == 1 && |s| >= 3 ==> s[2] == rest[0];
      assert |x| > 1 ==> s[1] == x[1];
      FirstCapSkip(s);
      FirstCapSingle(x[1..], q, rest);
      assert x == [x[0]] + x[1..];
    }
  }

  lemma {:induction false} ConcatStarts(pieces: seq<string>)
    requires Regular(pieces) && (pieces != [] ==> pieces[0] != "" && IsUpper(pieces[0][0]))
    ensures StartsUpper(Concat(pieces))
  {
  }

  lemma {:induction false} ConcatIs(pieces: seq<string>)
    requires pieces != []
    ensures Concat(pieces) == pieces[0] + Concat(pieces[1..])
  {
  }

  /** The first pattern marks the pieces. */
  lemma {:induction false} FirstCapMarks(pieces: seq<string>)
    requires Regular(pieces) && pieces != []
    ensures FirstCap(Concat(pieces)) == Marked(pieces)
    decreases |pieces|, 0
  {
    hide *;
    var p, tail := pieces[0], pieces[1..];
    PieceFacts(pieces);
    ConcatIs(pieces);
    MarkedIs(pieces);
    if tail == [] {
      EmptyTail(pieces);
      FirstCapWord(p);
    } else {
      var q, rest := pieces[1], Concat(pieces[2..]);
      RegularRest(pieces);
      RegularRest(tail);
      PieceFacts(tail);
      ConcatIs(tail);
      assert tail[1..] == pieces[2..];
      ConcatStarts(pieces[2..]);
      MarkedTailIs(pieces);
      if |q| >= 2 {
        FirstCapMarksRest(pieces[2..]);
        FirstCapBefore(p, q, rest);
        assert p + (q + rest) == p + q + rest;
        assert p + "_" + q + Marked(pieces[2..]) == p + ("_" + q + Marked(pieces[2..]));
      } else {
        FirstCapMarks(tail);
        FirstCapSingle(p, q, rest);
      }
    }
  }

  lemma {:induction false} FirstCapMarksRest(pieces: seq<string>)
    requires Regular(pieces)
    ensures FirstCap(Concat(pieces)) == Marked(pieces)
    decreases |pieces|, 1
  {
    if pieces != [] {
      hide *;
      FirstCapMarks(pieces);
    }
  }

  lemma {:induction false} EmptyTail(pieces: seq<string>)
    requires |pieces| == 1
    ensures pieces[0] + Concat(pieces[1..]) == pieces[0] == pieces[0] + MarkedTail(pieces)
  {
  }

  lemma {:induction false} MarkedTailIs(pieces: seq<string>)
    requires |pieces| > 1
    ensures MarkedTail(pieces) == if |pieces[1]| >= 2 then "_" + pieces[1] + Marked(pieces[2..])
        else Marked(pieces[1..])
  {
    hide Marked;
  }

  lemma {:induction false} PieceFacts(pieces: seq<string>)
    requires Regular(pieces) && pieces != []
    ensures pieces[0] != "" && Letters(pieces[0]) && LowerTail(pieces[0])
    ensures |pieces| > 1 ==> IsUpper(pieces[1][0])
    ensures |pieces| > 2 ==> pieces[2] != "" && IsUpper(pieces[2][0])
  {
    assert IsPiece(pieces[0]);
  }

  // --- the last pattern --------------------------------------------------------------------------------

  lemma {:induction false} EndCapSkip(s: string)
    requires s != "" && (|s| >= 2 ==> !IsUpper(s[1]))
    ensures EndCap(s) == [s[0]] + EndCap(s[1..])
  {
  }

  /** A character that can only be second in a match is copied. */
  lemma {:induction false} EndCapCopies(c: char, rest: string)
    requires !IsLower(c) && !IsDigit(c)
    ensures EndCap([c] + rest) == [c] + EndCap(rest)
  {
    assert ([c] + rest)[1..] == rest;
  }

  lemma {:induction false} EndCapWord(x: string)
    requires LowerTail(x)
    ensures EndCap(x) == x
  {
    if x != "" {
      EndCapWord(x[1..]);
      assert x == [x[0]] + x[1..];
    }
  }

  lemma {:induction false} EndCapPast(x: string, rest: string)
    requires LowerTail(x)
    ensures EndCap(x + ("_" + rest)) == x + ("_" + EndCap(rest))
    decreases |x|
  {
    hide EndCap;
    var s := x + ("_" + rest);
    if x == "" {
      assert s == "_" + rest;
      EndCapCopies('_', rest);
    } else {
      assert s[1..] == x[1..] + ("_" + rest);
      assert s[1] == if |x| > 1 then x[1] else '_';
      EndCapSkip(s);
      EndCapPast(x[1..], rest);
      assert x == [x[0]] + x[1..];
    }
  }

  lemma {:induction false} EndCapMatch(x: string, c: char, rest: string)
    requires EndsLower(x) && LowerTail(x) && IsUpper(c)
    ensures EndCap(x + ([c] + rest)) == x + ("_" + [c] + EndCap(rest))
    decreases |x|
  {
    var s := x + ([c] + rest);
    if |x| == 1 {
      assert s[2..] == rest && x == [x[0]];
    } else {
      hide EndCap;
      assert s[1..] == x[1..] + ([c] + rest) && s[1] == x[1];
      EndCapSkip(s);
      EndCapMatch(x[1..], c, rest);
      assert x == [x[0]] + x[1..];
    }
  }

  lemma {:induction false} VisibleIs(pieces: seq<string>)
    requires pieces != []
    ensures JoinVisible(pieces) == pieces[0] + VisibleTail(pieces)
    ensures |pieces| > 1 ==> VisibleTail(pieces) == if Visible(pieces[0], pieces[1])
        then "_" + JoinVisible(pieces[1..]) else JoinVisible(pieces[1..])
  {
  }

  /**
   The last pattern finds the visible boundaries that the first one left, also when it starts past
   the first capital.
   */
  lemma {:induction false} EndCapMarks(pieces: seq<string>, x: string)
    requires Regular(pieces) && pieces != []
    requires x == pieces[0] || (x == pieces[0][1..] && IsUpper(pieces[0][0]))
    ensures EndCap(x + MarkedTail(pieces)) == x + VisibleTail(pieces)
    decreases |pieces|, 1
  {
    hide EndCap, Marked, JoinVisible, Regular;
    RegularFacts(pieces);
    if |pieces| == 1 {
      assert x + "" == x;
      EndCapWord(x);
    } else {
      var p, q, rest1 := pieces[0], pieces[1], pieces[1..];
      RegularRest(pieces);
      VisibleIs(rest1);
      if |q| >= 2 {
        EndCapPast(x, q + Marked(pieces[2..]));
        assert "_" + q + Marked(pieces[2..]) == "_" + (q + Marked(pieces[2..]));
        EndCapJoins(pieces);
      } else if EndsLower(p) {
        EndCapMarks(rest1, q[1..]);
        MarkedIs(rest1);
        EndCapMatch(x, q[0], q[1..] + MarkedTail(rest1));
        assert [q[0]] + (q[1..] + MarkedTail(rest1)) == q + MarkedTail(rest1);
        assert "_" + [q[0]] + (q[1..] + VisibleTail(rest1)) == "_" + (q + VisibleTail(rest1));
      } else {
        EndCapMarks(rest1, q);
        MarkedIs(rest1);
        if x == p {
          EndCapCopies(p[0], q + MarkedTail(rest1));
          assert p == [p[0]];
        } else {
          assert x + Marked(rest1) == Marked(rest1) && x + JoinVisible(rest1) == JoinVisible(rest1);
        }
      }
    }
  }

  lemma {:induction false} MarkedIs(pieces: seq<string>)
    requires pieces != []
    ensures Marked(pieces) == pieces[0] + MarkedTail(pieces)
  {
  }

  lemma {:induction false} RegularFacts(pieces: seq<string>)
    requires Regular(pieces) && pieces != []
    ensures LowerTail(pieces[0]) && LowerTail(pieces[0][1..])
    ensures |pieces| > 1 ==> IsPiece(pieces[1]) && IsUpper(pieces[1][0]) && LowerTail(pieces[1])
    ensures |pieces| > 1 && EndsLower(pieces[0]) && IsUpper(pieces[0][0]) ==> EndsLower(pieces[0][1..])
    ensures |pieces| > 1 && !EndsLower(pieces[0]) ==> |pieces[0]| == 1 && IsUpper(pieces[0][0])
    ensures |pieces| > 1 && |pieces[1]| >= 2 ==> EndsLower(pieces[1])
  {
    assert IsPiece(pieces[0]);
    if |pieces| > 1 {
      assert IsPiece(pieces[1]);
    }
  }

  /** After a separated piece of two letters or more. */
  lemma {:induction false} EndCapJoins(pieces: seq<string>)
    requires Regular(pieces) && |pieces| > 1 && |pieces[1]| >= 2
    ensures EndCap(pieces[1] + Marked(pieces[2..])) == JoinVisible(pieces[1..])
    decreases |pieces|, 0
  {
    hide EndCap, Marked, MarkedTail, JoinVisible, VisibleTail, Regular, IsPiece, LowerTail;
    var q, rest1, rest2 := pieces[1], pieces[1..], pieces[2..];
    RegularFacts(pieces);
    RegularRest(pieces);
    RegularRest(rest1);
    assert rest1[1..] == rest2;
    VisibleIs(rest1);
    if rest2 == [] {
      MarkedNothing();
      NoTail(rest1);
      assert q + "" == q;
      EndCapWord(q);
    } else {
      var r := rest2[0];
      RegularFacts(rest1);
      EndCapMarks(rest2, r[1..]);
      MarkedIs(rest2);
      VisibleIs(rest2);
      EndCapMatch(q, r[0], r[1..] + MarkedTail(rest2));
      Regroup(r, MarkedTail(rest2));
      Regroup(r, VisibleTail(rest2));
    }
  }

  lemma {:induction false} Regroup(r: string, rest: string)
    requires r != ""
    ensures [r[0]] + (r[1..] + rest) == r + rest && "_" + [r[0]] + (r[1..] + rest) == "_" + (r + rest)
  {
  }

  lemma {:induction false} NoTail(pieces: seq<string>)
    requires |pieces| == 1
    ensures VisibleTail(pieces) == "" && MarkedTail(pieces) == ""
  {
  }

  lemma {:induction false} MarkedNothing()
    ensures Marked([]) == ""
  {
  }

  // --- the whole transform ----------------------------------------------------------------------------------

  /** The last piece does not look like the plural of an acronym: two capitals and an `s`. */
  ghost predicate NoPlural(pieces: seq<string>) {
    var n := |pieces|;
    n > 1 && |pieces[n - 1]| == 2 && pieces[n - 1][1] == 's' ==> EndsLower(pieces[n - 2])
  }

  lemma {:induction false} ConcatFront(pieces: seq<string>)
    requires pieces != []
    ensures Concat(pieces) == Concat(pieces[..|pieces| - 1]) + pieces[|pieces| - 1]
  {
    assert pieces == pieces[..|pieces| - 1] + [pieces[|pieces| - 1]];
    ConcatSnoc(pieces[..|pieces| - 1], pieces[|pieces| - 1]);
  }

  lemma {:induction false} FewCapitals(s: string)
    requires |s| >= 1 ==> !IsUpper(s[|s| - 1]) || |s| == 1 || !IsUpper(s[|s| - 2])
    ensures CapitalsAtEnd(s) < 2
  {
  }

  lemma {:induction false} NoSpecial(pieces: seq<string>)
    requires Regular(pieces) && NoPlural(pieces) && pieces != []
    ensures SpecialMatch(Concat(pieces)) == 0
  {
    hide Concat, CapitalsAtEnd;
    var n, s := |pieces|, Concat(pieces);
    var last, before := pieces[n - 1], Concat(pieces[..n - 1]);
    ConcatFront(pieces);
    assert IsPiece(last);
    if n > 1 {
      assert IsPiece(pieces[n - 2]) && IsUpper(pieces[n - 1][0]);
      ConcatFront(pieces[..n - 1]);
      assert before[|before| - 1] == pieces[n - 2][|pieces[n - 2]| - 1];
      if last[|last| - 1] == 's' {
        FewCapitals(s[..|s| - 1]);
      }
    } else {
      NothingBefore(pieces);
      FewCapitals(s[..|s| - 1]);
    }
  }

  lemma {:induction false} NothingBefore(pieces: seq<string>)
    requires |pieces| == 1
    ensures Concat(pieces[..0]) == ""
  {
  }

  lemma {:induction false} NumberCapIdle(s: string)
    requires forall i :: 0 <= i < |s| ==> !IsDigit(s[i])
    ensures NumberCap(s) == s
  {
    if s != "" {
      NumberCapIdle(s[1..]);
      assert s == [s[0]] + s[1..];
    }
  }

  lemma {:induction false} MarkedHasNoDigits(pieces: seq<string>)
    requires Regular(pieces)
    ensures forall i :: 0 <= i < |Marked(pieces)| ==> !IsDigit(Marked(pieces)[i])
    decreases |pieces|
  {
    if pieces != [] {
      PieceFacts(pieces);
      RegularRest(pieces);
      if |pieces| > 1 {
        RegularRest(pieces[1..]);
        assert pieces[1..][1..] == pieces[2..];
        PieceFacts(pieces[1..]);
        MarkedHasNoDigits(pieces[1..]);
        MarkedHasNoDigits(pieces[2..]);
      }
      hide Marked, Regular;
      MarkedIs(pieces);
    }
  }

  lemma {:induction false} NoSeparator(pieces: seq<string>)
    requires Regular(pieces)
    ensures '_' !in Concat(pieces)
  {
    if pieces != [] {
      PieceFacts(pieces);
      RegularRest(pieces);
      NoSeparator(pieces[1..]);
    }
  }

  /** A boundary that is not visible makes the name shorter than the joined one. */
  lemma {:induction false} VisibleOrShorter(pieces: seq<string>)
    requires pieces != []
    ensures |JoinVisible(pieces)| <= |Join(pieces, "_")|
    ensures |JoinVisible(pieces)| == |Join(pieces, "_")| <==> AllVisible(pieces)
    ensures AllVisible(pieces) ==> JoinVisible(pieces) == Join(pieces, "_")
  {
    hide Visible;
    if |pieces| > 1 {
      VisibleOrShorter(pieces[1..]);
      assert AllVisible(pieces) <==> Visible(pieces[0], pieces[1]) && AllVisible(pieces[1..]) by {
        assert forall i :: 0 < i < |pieces[1..]| ==> pieces[1..][i] == pieces[i + 1] && pieces[1..][i - 1] == pieces[i];
        assert Visible(pieces[1 - 1], pieces[1]) <==> Visible(pieces[0], pieces[1]);
        AllVisibleSplits(pieces);
      }
      assert pieces[0] + ("_" + Join(pieces[1..], "_")) == pieces[0] + "_" + Join(pieces[1..], "_");
    } else {
      assert pieces[0] + "" == pieces[0];
    }
  }

  lemma {:induction false} AllVisibleSplits(pieces: seq<string>)
    requires |pieces| > 1
    ensures AllVisible(pieces) <==> Visible(pieces[0], pieces[1]) && AllVisible(pieces[1..])
  {
    hide Visible;
    var rest := pieces[1..];
    if AllVisible(pieces) {
      forall i | 0 < i < |rest| ensures Visible(rest[i - 1], rest[i]) {
        assert Visible(pieces[i + 1 - 1], pieces[i + 1]);
      }
      assert Visible(pieces[1 - 1], pieces[1]);
    }
    if Visible(pieces[0], pieces[1]) && AllVisible(rest) {
      forall i | 0 < i < |pieces| ensures Visible(pieces[i - 1], pieces[i]) {
        if i > 1 {
          assert Visible(rest[i - 1 - 1], rest[i - 1]);
        }
      }
    }
  }

  lemma {:induction false} LowerJoin(pieces: seq<string>, segments: seq<string>)
    requires |pieces| == |segments| && forall i :: 0 <= i < |pieces| ==> ToLower(pieces[i]) == segments[i]
    ensures ToLower(Join(pieces, "_")) == Join(segments, "_")
  {
    hide ToLower;
    if |pieces| > 1 {
      LowerJoin(pieces[1..], segments[1..]);
      ToLowerConcat(pieces[0], "_" + Join(pieces[1..], "_"));
      ToLowerConcat("_", Join(pieces[1..], "_"));
      assert pieces[0] + ("_" + Join(pieces[1..], "_")) == pieces[0] + "_" + Join(pieces[1..], "_");
      assert segments[0] + ("_" + Join(segments[1..], "_")) == segments[0] + "_" + Join(segments[1..], "_");
    }
    assert ToLower("_") == "_" && ToLower("") == "";
  }

  /** Without a plural at the end, the transform puts `_` at the visible boundaries. */
  lemma {:induction false} XformJoins(pieces: seq<string>)
    requires pieces != [] && Regular(pieces) && NoPlural(pieces)
    ensures Xform(Concat(pieces)) == ToLower(JoinVisible(pieces))
  {
    hide Concat, SpecialMatch, EndCap, NumberCap, FirstCap, Regular, NoPlural, JoinVisible, Marked, ToLower;
    NoSeparator(pieces);
    NoSpecial(pieces);
    FirstCapMarks(pieces);
    MarkedHasNoDigits(pieces);
    NumberCapIdle(Marked(pieces));
    EndCapMarks(pieces, pieces[0]);
    MarkedIs(pieces);
    VisibleIs(pieces);
  }

  // --- a plural at the end --------------------------------------------------------------------------------------

  ghost predicate LowerWord(w: string) {
    forall i :: 0 <= i < |w| ==> IsLower(w[i])
  }

  ghost predicate EndsWith(s: string, w: string) {
    |s| > |w| && s[|s| - |w|..] == w
  }

  lemma {:induction false} EndsWithLonger(a: string, s: string, w: string)
    requires EndsWith(s, w)
    ensures EndsWith(a + s, w)
  {
    assert (a + s)[|a + s| - |w|..] == s[|s| - |w|..];
  }

  lemma {:induction false} RunStops(x: string, w: string)
    ensures LowerRun(x + ("_" + w)) <= |x|
  {
    if x == "" {
      assert (x + ("_" + w))[0] == '_';
    } else {
      assert (x + ("_" + w))[1..] == x[1..] + ("_" + w);
      RunStops(x[1..], w);
    }
  }

  /** The first pattern leaves a lower-case word at the end alone. */
  lemma {:induction false} FirstCapKeepsEnd(x: string, w: string)
    requires LowerWord(w)
    ensures EndsWith(FirstCap(x + ("_" + w)), w)
    decreases |x|
  {
    hide LowerRun;
    var s := x + ("_" + w);
    if x == "" {
      assert s[0] == '_' && s[1..] == w;
      FirstCapSkip(s);
      FirstCapWord(w);
    } else {
      assert s[1..] == x[1..] + ("_" + w);
      assert s[1] == if |x| >= 2 then x[1] else '_';
      assert |x| == 2 ==> s[2] == '_';
      FirstCapKeepsEnd(x[1..], w);
      if |s| >= 3 && s[0] != '\n' && IsUpper(s[1]) && IsLower(s[2]) {
        RunStops(x[2..], w);
        assert s[2..] == x[2..] + ("_" + w);
        var n := LowerRun(s[2..]);
        assert s[2 + n..] == x[2 + n..] + ("_" + w);
        FirstCapKeepsEnd(x[2 + n..], w);
        EndsWithLonger([s[0]] + "_" + s[1..2 + n], FirstCap(s[2 + n..]), w);
      } else {
        EndsWithLonger([s[0]], FirstCap(s[1..]), w);
      }
    }
  }

  /** So does the last one. */
  lemma {:induction false} EndCapKeepsEnd(s: string, w: string)
    requires EndsWith(s, w) && LowerWord(w)
    ensures EndsWith(EndCap(s), w)
    decreases |s|
  {
    if |s| == |w| + 1 {
      assert s[1..] == w;
      EndCapWord(w);
      EndCapSkip(s);
    } else {
      assert s[1..][|s[1..]| - |w|..] == w;
      EndCapKeepsEnd(s[1..], w);
      if (IsLower(s[0]) || IsDigit(s[0])) && IsUpper(s[1]) {
        if |s| == |w| + 2 {
          assert s[2..] == w;
          EndCapWord(w);
        } else {
          assert s[2..][|s[2..]| - |w|..] == w;
          EndCapKeepsEnd(s[2..], w);
          EndsWithLonger([s[0]] + "_" + [s[1]], EndCap(s[2..]), w);
        }
      } else {
        EndsWithLonger([s[0]], EndCap(s[1..]), w);
      }
    }
  }

  lemma {:induction false} FirstCapNoDigits(s: string)
    requires forall i :: 0 <= i < |s| ==> !IsDigit(s[i])
    ensures forall i :: 0 <= i < |FirstCap(s)| ==> !IsDigit(FirstCap(s)[i])
    decreases |s|
  {
    hide LowerRun;
    if s != "" {
      FirstCapNoDigits(s[1..]);
      if |s| >= 3 && s[0] != '\n' && IsUpper(s[1]) && IsLower(s[2]) {
        FirstCapNoDigits(s[2 + LowerRun(s[2..])..]);
      }
    }
  }

  lemma {:induction false} CapitalsMatched(s: string)
    ensures forall i :: |s| - CapitalsAtEnd(s) <= i < |s| ==> IsUpper(s[i])
    ensures |s| >= 2 && IsUpper(s[|s| - 1]) && IsUpper(s[|s| - 2]) ==> CapitalsAtEnd(s) >= 2
  {
    if s != "" && IsUpper(s[|s| - 1]) {
      CapitalsMatched(s[..|s| - 1]);
    }
  }

  lemma {:induction false} SpecialFound(s: string)
    requires |s| >= 3 && IsUpper(s[|s| - 3]) && IsUpper(s[|s| - 2]) && s[|s| - 1] == 's'
    ensures SpecialMatch(s) >= 3 && LowerWord(ToLower(s[|s| - SpecialMatch(s)..]))
  {
    hide CapitalsAtEnd, ToLower, LowerWord;
    var t := s[..|s| - 1];
    CapitalsMatched(t);
    var n := SpecialMatch(s);
    assert n == CapitalsAtEnd(t) + 1;
    var m := s[|s| - n..];
    forall i | 0 <= i < |m| - 1 ensures IsUpper(m[i]) {
      assert m[i] == t[|s| - n + i];
    }
    PluralLowers(m);
  }

  lemma {:induction false} PluralLowers(m: string)
    requires m != "" && m[|m| - 1] == 's' && forall i :: 0 <= i < |m| - 1 ==> IsUpper(m[i])
    ensures LowerWord(ToLower(m))
  {
  }

  lemma {:induction false} XformSpecial(s: string)
    requires '_' !in s && SpecialMatch(s) > 0
    ensures var n := SpecialMatch(s);
      Xform(s) == ToLower(EndCap(NumberCap(FirstCap(s[..|s| - n] + ("_" + ToLower(s[|s| - n..]))))))
  {
    hide FirstCap, EndCap, NumberCap, SpecialMatch, ToLower;
    var n := SpecialMatch(s);
    assert s[..|s| - n] + "_" + ToLower(s[|s| - n..]) == s[..|s| - n] + ("_" + ToLower(s[|s| - n..]));
  }

  ghost predicate NoDigits(s: string) {
    forall i :: 0 <= i < |s| ==> !IsDigit(s[i])
  }

  lemma {:induction false} RenamedNoDigits(x: string, w: string)
    requires NoDigits(x) && LowerWord(w)
    ensures NoDigits(FirstCap(x + ("_" + w))) && NumberCap(FirstCap(x + ("_" + w))) == FirstCap(x + ("_" + w))
  {
    hide FirstCap, NumberCap;
    var s := x + ("_" + w);
    assert NoDigits(s);
    FirstCapNoDigits(s);
    NumberCapIdle(FirstCap(s));
  }

  lemma {:induction false} LoweredEnd(e: string, w: string)
    requires EndsWith(e, w) && LowerWord(w) && |w| >= 3
    ensures |ToLower(e)| >= 3 && IsLower(ToLower(e)[|ToLower(e)| - 3])
  {
    assert e[|e| - 3] == e[|e| - |w|..][|w| - 3];
  }

  /** Two capitals and an `s` at the end are taken for one word. */
  lemma {:induction false} PluralTaken(s: string)
    requires |s| >= 3 && IsUpper(s[|s| - 3]) && IsUpper(s[|s| - 2]) && s[|s| - 1] == 's'
    requires NoDigits(s) && '_' !in s
    ensures |Xform(s)| >= 3 && IsLower(Xform(s)[|Xform(s)| - 3])
  {
    hide FirstCap, EndCap, NumberCap, SpecialMatch, ToLower, Xform, LowerWord, EndsWith;
    SpecialFound(s);
    var n := SpecialMatch(s);
    var x, w := s[..|s| - n], ToLower(s[|s| - n..]);
    assert NoDigits(x);
    XformSpecial(s);
    RenamedNoDigits(x, w);
    FirstCapKeepsEnd(x, w);
    EndCapKeepsEnd(FirstCap(x + ("_" + w)), w);
    LoweredEnd(EndCap(FirstCap(x + ("_" + w))), w);
  }

  lemma {:induction false} ConcatPlain(pieces: seq<string>)
    requires Regular(pieces)
    ensures NoDigits(Concat(pieces)) && '_' !in Concat(pieces)
  {
    if pieces != [] {
      PieceFacts(pieces);
      RegularRest(pieces);
      ConcatPlain(pieces[1..]);
    }
  }

  lemma {:induction false} PluralLost(pieces: seq<string>)
    requires Regular(pieces) && !NoPlural(pieces)
    ensures var r := Xform(Concat(pieces)); |r| >= 3 && IsLower(r[|r| - 3])
  {
    hide Concat, Xform;
    var n, s := |pieces|, Concat(pieces);
    var last, before := pieces[n - 1], Concat(pieces[..n - 1]);
    ConcatFront(pieces);
    ConcatFront(pieces[..n - 1]);
    assert IsPiece(pieces[n - 2]) && IsPiece(last) && IsUpper(pieces[n - 1][0]);
    assert before[|before| - 1] == pieces[n - 2][|pieces[n - 2]| - 1];
    ConcatPlain(pieces);
    PluralTaken(s);
  }

  // --- round trips ----------------------------------------------------------------------------------------------

  /** Lower-case words of at least one letter. */
  ghost predicate Words(segments: seq<string>) {
    segments != [] && forall i :: 0 <= i < |segments| ==> IsWord(segments[i])
  }

  ghost predicate IsWord(seg: string) {
    seg != "" && LowerWord(seg)
  }

  predicate PluralLike(seg: string) {
    |seg| == 2 && seg[1] == 's'
  }

  /**
   No two one-letter words meet, and no one-letter word meets a final two-letter word in `s`; in
   camel case the first word is exempt.
   */
  ghost predicate Recoverable(segments: seq<string>, capitaliseFirst: bool) {
    forall i :: 0 < i < |segments| ==> Separable(segments, i, capitaliseFirst)
  }

  ghost predicate Separable(segments: seq<string>, i: nat, capitaliseFirst: bool)
    requires 0 < i < |segments|
  {
    || |segments[i - 1]| >= 2 || (i == 1 && !capitaliseFirst)
    || (|segments[i]| >= 2 && !(i + 1 == |segments| && PluralLike(segments[i])))
  }

  lemma {:induction false} CapitalisedWord(seg: string)
    requires IsWord(seg)
    ensures IsPiece(Capitalised(seg)) && IsUpper(Capitalised(seg)[0]) && |Capitalised(seg)| == |seg|
    ensures ToLower(Capitalised(seg)) == seg && (EndsLower(Capitalised(seg)) <==> |seg| >= 2) &&
        (|seg| >= 2 ==> Capitalised(seg)[1] == seg[1])
    ensures ToLower(seg) == seg && IsPiece(seg) && EndsLower(seg)
  {
    assert LowerChar(UpperChar(seg[0])) == seg[0];
    assert ToLower(Capitalised(seg)) == seg;
    assert ToLower(seg) == seg;
  }

  lemma {:induction false} PieceOf(segments: seq<string>, capitaliseFirst: bool, i: nat)
    requires Words(segments) && i < |segments|
    ensures var p := Pieces(segments, capitaliseFirst)[i];
      && IsPiece(p) && |p| == |segments[i]| && ToLower(p) == segments[i] && (i > 0 || capitaliseFirst ==> IsUpper(p[0]))
      && (EndsLower(p) <==> |segments[i]| >= 2 || (i == 0 && !capitaliseFirst))
      && (i > 0 && |p| >= 2 ==> p[1] == segments[i][1])
  {
    assert IsWord(segments[i]);
    CapitalisedWord(segments[i]);
  }

  lemma {:induction false} PiecesAreRegular(segments: seq<string>, capitaliseFirst: bool)
    requires Words(segments)
    ensures var pieces := Pieces(segments, capitaliseFirst);
      && |pieces| == |segments| && Regular(pieces)
      && (AllVisible(pieces) && NoPlural(pieces) <==> Recoverable(segments, capitaliseFirst))
      && forall i :: 0 <= i < |pieces| ==> ToLower(pieces[i]) == segments[i]
  {
    hide ToLower, Pieces, IsPiece, Words, EndsLower, Regular;
    var pieces := Pieces(segments, capitaliseFirst);
    assert |pieces| == |segments| by { PiecesCount(segments, capitaliseFirst); }
    forall i | 0 <= i < |segments|
      ensures IsPiece(pieces[i]) && |pieces[i]| == |segments[i]| && ToLower(pieces[i]) == segments[i] && pieces[i] != ""
      ensures (i > 0 || capitaliseFirst ==> IsUpper(pieces[i][0])) &&
          (i > 0 && |pieces[i]| >= 2 ==> pieces[i][1] == segments[i][1])
      ensures EndsLower(pieces[i]) <==> |segments[i]| >= 2 || (i == 0 && !capitaliseFirst) {
      PieceOf(segments, capitaliseFirst, i);
      NotEmpty(pieces[i]);
    }
    RegularIf(pieces);
    forall i | 0 < i < |segments|
      ensures Separable(segments, i, capitaliseFirst) <==>
          Visible(pieces[i - 1], pieces[i]) && (i + 1 == |segments| ==> NoPlural(pieces)) {
    }
    if AllVisible(pieces) && NoPlural(pieces) {
      forall i | 0 < i < |segments| ensures Separable(segments, i, capitaliseFirst) {
        assert Visible(pieces[i - 1], pieces[i]);
      }
    }
    if Recoverable(segments, capitaliseFirst) && |segments| > 1 {
      assert Separable(segments, |segments| - 1, capitaliseFirst);
    }
  }

  lemma {:induction false} PiecesCount(segments: seq<string>, capitaliseFirst: bool)
    ensures |Pieces(segments, capitaliseFirst)| == |segments|
  {
  }

  lemma {:induction false} NotEmpty(p: string)
    requires IsPiece(p)
    ensures p != ""
  {
  }

  lemma {:induction false} RegularIf(pieces: seq<string>)
    requires forall i :: 0 <= i < |pieces| ==>
        IsPiece(pieces[i]) && pieces[i] != "" && (i > 0 ==> IsUpper(pieces[i][0]))
    ensures Regular(pieces)
  {
    hide IsPiece;
  }

  lemma {:induction false} WordsJoin(segments: seq<string>)
    requires Words(segments)
    ensures Split(Join(segments, "_"), '_') == segments
  {
    forall p | p in segments ensures '_' !in p {
      assert IsWord(p);
    }
    JoinSplit(segments, '_');
  }

  lemma {:induction false} JoinEnds(segments: seq<string>)
    requires |segments| > 1
    ensures var j, last := Join(segments, "_"), segments[|segments| - 1]; |j| > |last| && j[|j| - |last| - 1] == '_'
  {
    var rest := segments[1..];
    if |segments| > 2 {
      JoinEnds(rest);
    } else {
      assert Join(rest, "_") == rest[0];
    }
  }

  /** To Pascal or camel case and back gives the snake name back exactly when its words can be told apart. */
  lemma {:induction false} SnakeRoundTripExactly(segments: seq<string>, capitaliseFirst: bool)
    requires Words(segments)
    ensures var snake := Join(segments, "_");
      Xform(FromSnake(snake, if capitaliseFirst then Pascal else Camel)) == snake <==>
          Recoverable(segments, capitaliseFirst)
  {
    hide Xform, Pieces, Regular, Recoverable, Join, JoinVisible, ToLower, AllVisible, Words;
    var pieces := Pieces(segments, capitaliseFirst);
    WordsJoin(segments);
    PiecesAreRegular(segments, capitaliseFirst);
    LowerJoin(pieces, segments);
    if NoPlural(pieces) {
      XformJoins(pieces);
      VisibleOrShorter(pieces);
    } else {
      PluralLost(pieces);
      JoinEnds(segments);
      PluralLength(segments, pieces);
    }
  }

  lemma {:induction false} PluralLength(segments: seq<string>, pieces: seq<string>)
    requires |pieces| == |segments| && !NoPlural(pieces) && forall i :: 0 <= i < |pieces| ==>
        ToLower(pieces[i]) == segments[i]
    ensures |segments[|segments| - 1]| == 2
  {
    assert ToLower(pieces[|pieces| - 1]) == segments[|segments| - 1];
  }

  /** Words of two letters or more survive both ways, from the snake name and from the wire name. */
  lemma {:induction false} LongWordsRoundTrip(segments: seq<string>, capitaliseFirst: bool)
    requires Words(segments) && forall i :: 0 <= i < |segments| ==> |segments[i]| >= 2
    ensures var snake, native := Join(segments, "_"), if capitaliseFirst then Pascal else Camel;
      && Xform(FromSnake(snake, native)) == snake
      && FromSnake(Xform(FromSnake(snake, native)), native) == FromSnake(snake, native)
  {
    hide Xform, Words, Join;
    SnakeRoundTripExactly(segments, capitaliseFirst);
  }
}
