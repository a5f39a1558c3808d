/** Decimal rendering of integers, as `strconv.Itoa` and `%v` do it, and its reading. */
module Decimal {
  import opened GoStrings

  function DigitChar(d: nat): char
    requires d < 10
  {
    ('0' as int + d) as char
  }

  function DigitValue(c: char): nat
    requires IsDigit(c)
  {
    c as int - '0' as int
  }

  function FormatNat(n: nat): (s: string)
    ensures s != "" && AllDigits(s)
    decreases n
  {
    if n < 10 then [DigitChar(n)] else FormatNat(n / 10) + [DigitChar(n % 10)]
  }

  function ParseNat(s: string): nat
    requires AllDigits(s)
  {
    if s == "" then 0 else ParseNat(s[..|s| - 1]) * 10 + DigitValue(s[|s| - 1])
  }

  lemma {:induction false} ParseFormatNat(n: nat)
    ensures ParseNat(FormatNat(n)) == n
    decreases n
  {
    var s := FormatNat(n);
    if n < 10 {
      assert s[..0] == "";
    } else {
      ParseFormatNat(n / 10);
      assert s[..|s| - 1] == FormatNat(n / 10);
    }
  }

  function Itoa(i: int): string {
    if i < 0 then "-" + FormatNat(-i) else FormatNat(i)
  }

  predicate AllDigits(s: string) {
    forall i :: 0 <= i < |s| ==> IsDigit(s[i])
  }

  predicate IsIntText(s: string) {
    && s != ""
    && if s[0] == '-' then |s| > 1 && AllDigits(s[1..]) else AllDigits(s)
  }

  function Atoi(s: string): int
    requires IsIntText(s)
  {
    if s[0] == '-' then 0 - ParseNat(s[1..]) else ParseNat(s)
  }

  /** Reading a rendered integer gives the integer back. */
  lemma {:induction false} AtoiItoa(i: int)
    ensures IsIntText(Itoa(i)) && Atoi(Itoa(i)) == i
  {
    if i < 0 {
      ParseFormatNat(-i);
      assert Itoa(i)[1..] == FormatNat(-i);
    } else {
      ParseFormatNat(i);
      assert IsDigit(Itoa(i)[0]);
    }
  }
}
