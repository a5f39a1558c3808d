/** Casing transforms of pkg/casing/casing.go, its four patterns written out as scanners. */
module Casing {
  import opened GoStrings

  /** How many characters at the start of `s` are lower-case letters. */
  function LowerRun(s: string): (n: nat)
    ensures n <= |s|
  {
    if s != "" && IsLower(s[0]) then 1 + LowerRun(s[1..]) else 0
  }

  function DigitRun(s: string): (n: nat)
    ensures n <= |s|
  {
    if s != "" && IsDigit(s[0]) then 1 + DigitRun(s[1..]) else 0
  }

  /** Replaces `(.)([A-Z][a-z]+)` by the two groups with `_` between, left to right. */
  function FirstCap(s: string): string
    decreases |s|
  {
    if s == "" then ""
    else if |s| >= 3 && s[0] != '\n' && IsUpper(s[1]) && IsLower(s[2]) then
      var n := LowerRun(s[2..]);
      assert n > 0;
      [s[0]] + "_" + s[1..2 + n] + FirstCap(s[2 + n..])
    else [s[0]] + FirstCap(s[1..])
  }

  /** Replaces `([a-z])([0-9]+)` likewise. */
  function NumberCap(s: string): string
    decreases |s|
  {
    if s == "" then ""
    else if |s| >= 2 && IsLower(s[0]) && IsDigit(s[1]) then
      var n := DigitRun(s[1..]);
      assert n > 0;
      [s[0]] + "_" + s[1..1 + n] + NumberCap(s[1 + n..])
    else [s[0]] + NumberCap(s[1..])
  }

  /** Replaces `([a-z0-9])([A-Z])` likewise. */
  function EndCap(s: string): string
    decreases |s|
  {
    if s == "" then ""
    else if |s| >= 2 && (IsLower(s[0]) || IsDigit(s[0])) && IsUpper(s[1]) then [s[0]] + "_" + [s[1]] + EndCap(s[2..])
    else [s[0]] + EndCap(s[1..])
  }

  /** The length of the capitals that end `s`. */
  function CapitalsAtEnd(s: string): (n: nat)
    ensures n <= |s|
  {
    if s != "" && IsUpper(s[|s| - 1]) then 1 + CapitalsAtEnd(s[..|s| - 1]) else 0
  }

  /** The length of the match of `[A-Z]{2,}s$`, or 0. */
  function SpecialMatch(s: string): (n: nat)
    ensures n <= |s|
  {
    if s != "" && s[|s| - 1] == 's' && CapitalsAtEnd(s[..|s| - 1]) >= 2 then CapitalsAtEnd(s[..|s| - 1]) + 1 else 0
  }

  function Xform(name: string): string {
    if '_' in name then name
    else
      var n := SpecialMatch(name);
      var renamed := if n > 0 then name[..|name| - n] + "_" + ToLower(name[|name| - n..]) else name;
      ToLower(EndCap(NumberCap(FirstCap(renamed))))
  }

  /** The memo of ToSnake. */
  class SnakeCache {
    var entries: map<string, string>

    /** Whatever is remembered is what the transform gives. */
    ghost predicate Valid()
      reads this
    {
      forall name :: name in entries ==> entries[name] == Xform(name)
    }

    constructor ()
      ensures Valid()
    {
      entries := map[];
    }

    method ToSnake(name: string) returns (out: string)
      requires Valid()
      modifies this
      ensures Valid() && out == Xform(name) && name in entries
      ensures forall other :: other in entries <==> other in old(entries) || other == name
    {
      if name in entries {
        return entries[name];
      }
      out := Xform(name);
      entries := entries[name := out];
    }
  }

  // --- from snake case --------------------------------------------------------------------------------

  function Capitalised(seg: string): string {
    if seg == "" then "" else [UpperChar(seg[0])] + seg[1..]
  }

  /** The segments as they are written, the first one perhaps left alone. */
  function Pieces(segments: seq<string>, capitaliseFirst: bool): seq<string> {
    seq(|segments|, i requires 0 <= i < |segments| => if i == 0 && !capitaliseFirst then segments[i]
        else Capitalised(segments[i]))
  }

  function Concat(parts: seq<string>): string {
    if parts == [] then "" else parts[0] + Concat(parts[1..])
  }

  method JoinCaps(segments: seq<string>, capitaliseFirst: bool) returns (b: string)
    ensures b == Concat(Pieces(segments, capitaliseFirst))
  {
    hide Concat;
    b := "";
    ghost var pieces := Pieces(segments, capitaliseFirst);
    ConcatNothing();
    assert pieces[..0] == [];
    for i := 0 to |segments|
      invariant b == Concat(pieces[..i])
    {
      var seg := segments[i];
      ConcatSnoc(pieces[..i], pieces[i]);
      assert pieces[..i + 1] == pieces[..i] + [pieces[i]];
      if seg == "" {
        continue;
      }
      if i == 0 && !capitaliseFirst {
        b := b + seg;
        continue;
      }
      b := b + [UpperChar(seg[0])];
      b := b + seg[1..];
    }
    assert pieces[..|segments|] == pieces;
  }

  lemma {:induction false} ConcatNothing()
    ensures Concat([]) == ""
  {
  }

  lemma {:induction false} ConcatSnoc(parts: seq<string>, last: string)
    ensures Concat(parts + [last]) == Concat(parts) + last
  {
    if parts == [] {
      assert [] + [last] == [last] && [last][1..] == [];
    } else {
      assert (parts + [last])[1..] == parts[1..] + [last];
      ConcatSnoc(parts[1..], last);
    }
  }

  datatype Native = Snake | Pascal | Kebab | Camel | Unknown

  function FromSnake(snake: string, native: Native): string {
    match native
    case Pascal => Concat(Pieces(Split(snake, '_'), true))
    case Camel => Concat(Pieces(Split(snake, '_'), false))
    case Kebab => ReplaceAll(snake, "_", "-")
    case Snake => snake
    case Unknown => snake
  }
}
