/** Divisors, multiples and Cartesian products: pkg/maths/common_maths.go, over unbounded integers. */
module Maths {
  import opened Wrappers

  ghost predicate Divides(d: int, n: int) {
    exists k :: n == d * k
  }

  lemma {:induction false} DividesBy(d: int, k: int)
    ensures Divides(d, d * k)
  {
  }

  /** A greatest common divisor, with the coefficients that show it is the greatest. */
  ghost predicate IsGcd(g: int, a: int, b: int, s: int, t: int) {
    Divides(g, a) && Divides(g, b) && g == s * a + t * b
  }

  /** Go's remainder, which has the sign of the dividend. */
  function Rem(a: int, b: int): int
    requires b != 0
  {
    if a >= 0 then a % b else -((-a) % b)
  }

  function Quo(a: int, b: int): int
    requires b != 0
  {
    (a - Rem(a, b)) / b
  }

  lemma {:induction false} QuoRem(a: int, b: int)
    requires b != 0
    ensures a == b * Quo(a, b) + Rem(a, b)
    ensures -(if b < 0 then -b else b) < Rem(a, b) < (if b < 0 then -b else b)
    ensures a >= 0 ==> Rem(a, b) >= 0
  {
    var n := if a >= 0 then a else -a;
    assert n == b * (n / b) + n % b;
    var q := if a >= 0 then n / b else -(n / b);
    assert b * q == a - Rem(a, b);
    ExactQuotient(b, q);
  }

  lemma {:induction false} ExactQuotient(b: int, q: int)
    requires b != 0
    ensures (b * q) / b == q
  {
    var n := b * q;
    var r := n - b * (n / b);
    assert 0 <= r < (if b < 0 then -b else b);
    assert r == b * (q - n / b);
    MultipleInRange(b, q - n / b);
  }

  lemma {:induction false} MultipleInRange(b: int, k: int)
    requires b != 0 && 0 <= b * k < (if b < 0 then -b else b)
    ensures k == 0
  {
    if k >= 1 && b > 0 { ScaleInt(b, 1, k); }
    if k >= 1 && b < 0 { ScaleInt(-b, 1, k); }
    if k <= -1 && b > 0 { ScaleInt(b, 1, -k); }
    if k <= -1 && b < 0 { ScaleInt(-b, 1, -k); }
  }

  lemma {:induction false} ScaleInt(a: int, x: int, y: int)
    requires a >= 0
    ensures x <= y ==> a * x <= a * y
  {
  }

  lemma {:induction false} DividesSum(d: int, x: int, q: int, y: int)
    requires Divides(d, x) && Divides(d, y)
    ensures Divides(d, x * q + y)
  {
    var k :| x == d * k;
    var l :| y == d * l;
    assert x * q + y == d * (k * q + l);
  }

  /** One step of Euclid's algorithm keeps the divisors and the coefficients. */
  lemma {:induction false} EuclidStep(a: int, b: int, s: int, t: int, u: int, v: int, x: int, y: int)
    requires b != 0 && a == s * x + t * y && b == u * x + v * y
    ensures Rem(a, b) == (s - Quo(a, b) * u) * x + (t - Quo(a, b) * v) * y
  {
    QuoRem(a, b);
    var q := Quo(a, b);
    assert b * q == (u * q) * x + (v * q) * y;
    assert (s - q * u) * x + (t - q * v) * y == s * x + t * y - ((u * q) * x + (v * q) * y);
  }

  lemma {:induction false} DividesDividend(d: int, a: int, b: int)
    requires b != 0 && Divides(d, b) && Divides(d, Rem(a, b))
    ensures Divides(d, a)
  {
    QuoRem(a, b);
    DividesSum(d, b, Quo(a, b), Rem(a, b));
  }

  method Gcd(x: int, y: int) returns (g: int, ghost s: int, ghost t: int)
    ensures IsGcd(g, x, y, s, t)
    ensures (g == 0 <==> x == 0 && y == 0) && (x >= 0 && y >= 0 ==> g >= 0)
  {
    hide Rem, Quo, Divides;
    var a, b := x, y;
    s, t := 1, 0;
    ghost var u, v := 0, 1;
    while b != 0
      invariant a == s * x + t * y && b == u * x + v * y
      invariant forall d :: Divides(d, a) && Divides(d, b) ==> Divides(d, x) && Divides(d, y)
      invariant x >= 0 && y >= 0 ==> a >= 0 && b >= 0
      invariant a == 0 && b == 0 <==> x == 0 && y == 0
      decreases if b < 0 then -b else b
    {
      QuoRem(a, b);
      EuclidStep(a, b, s, t, u, v, x, y);
      forall d | Divides(d, b) && Divides(d, Rem(a, b)) ensures Divides(d, a) {
        DividesDividend(d, a, b);
      }
      ZeroRemainder(a, b, x, y, s, t, u, v);
      s, t, u, v := u, v, s - Quo(a, b) * u, t - Quo(a, b) * v;
      a, b := b, Rem(a, b);
    }
    DividesBy(a, 1);
    DividesBy(a, 0);
    return a, s, t;
  }

  lemma {:induction false} ZeroRemainder(a: int, b: int, x: int, y: int, s: int, t: int, u: int, v: int)
    requires b != 0 && b == u * x + v * y
    ensures !(x == 0 && y == 0)
  {
  }

  lemma {:induction false} Factor(d: int, k: int, l: int, s: int, t: int)
    ensures s * (d * k) + t * (d * l) == d * (s * k + t * l)
  {
    assert s * (d * k) == d * (s * k) && t * (d * l) == d * (t * l);
  }

  /** Every common divisor divides the greatest one. */
  lemma {:induction false} GcdIsGreatest(g: int, a: int, b: int, s: int, t: int, d: int)
    requires IsGcd(g, a, b, s, t) && Divides(d, a) && Divides(d, b)
    ensures Divides(d, g) && (g > 0 ==> d <= g)
  {
    var k :| a == d * k;
    var l :| b == d * l;
    var c := s * k + t * l;
    Factor(d, k, l, s, t);
    if g > 0 && d > 0 {
      DivisorBelow(d, c);
    }
  }

  lemma {:induction false} DivisorBelow(d: int, c: int)
    requires d > 0 && d * c > 0
    ensures d <= d * c
  {
    ScaleInt(d, c, 0);
    ScaleInt(d, 1, c);
  }

  /** A common multiple that divides every common multiple; it is 0 exactly when some number is. */
  ghost predicate IsLcm(l: int, a: int, b: int) {
    && Divides(a, l) && Divides(b, l) && (forall m :: Divides(a, m) && Divides(b, m) ==> Divides(l, m))
    && (l == 0 <==> a == 0 || b == 0) && (a > 0 && b > 0 ==> l > 0)
  }

  /** Two zeros have the divisor 0, by which nothing can be divided; all other numbers have a least common multiple. */
  method Lcm(a: int, b: int) returns (l: Option<int>)
    ensures l.None? <==> a == 0 && b == 0
    ensures l.Some? ==> IsLcm(l.value, a, b)
  {
    hide Quo, Rem, Divides, IsLcm;
    var g, s, t := Gcd(a, b);
    if g == 0 {
      return None;
    }
    LcmFromGcd(a, b, g, s, t);
    return Some(Quo(a * b, g));
  }

  lemma {:induction false} LcmFromGcd(a: int, b: int, g: int, s: int, t: int)
    requires g != 0 && IsGcd(g, a, b, s, t) && (a >= 0 && b >= 0 ==> g >= 0)
    ensures IsLcm(Quo(a * b, g), a, b)
  {
    hide Quo, Rem, IsLcm;
    var p :| a == g * p;
    var q :| b == g * q;
    var l := a * q;
    assert a * b == g * l;
    QuoExact(g, l);
    assert l == b * p;
    assert l == 0 <==> a == 0 || b == 0;
    if a > 0 && b > 0 {
      PositiveMultiple(g, q);
      ScaleInt(a, 1, q);
    }
    DividesBy(a, q);
    DividesBy(b, p);
    forall m | Divides(a, m) && Divides(b, m) ensures Divides(l, m) {
      CommonMultiple(a, b, g, s, t, l, m);
    }
    LcmIs(l, a, b);
  }

  lemma {:induction false} PositiveMultiple(g: int, q: int)
    requires g >= 0 && g * q > 0
    ensures q > 0
  {
    ScaleInt(g, q, 0);
  }

  lemma {:induction false} LcmIs(l: int, a: int, b: int)
    requires Divides(a, l) && Divides(b, l) && forall m :: Divides(a, m) && Divides(b, m) ==> Divides(l, m)
    requires (l == 0 <==> a == 0 || b == 0) && (a > 0 && b > 0 ==> l > 0)
    ensures IsLcm(l, a, b)
  {
    hide Divides;
  }

  lemma {:induction false} QuoExact(g: int, l: int)
    requires g != 0
    ensures Quo(g * l, g) == l
  {
    QuoRem(g * l, g);
    var r := Rem(g * l, g);
    assert r == g * (l - Quo(g * l, g));
    if r >= 0 {
      MultipleInRange(g, l - Quo(g * l, g));
    } else {
      assert -r == g * (Quo(g * l, g) - l);
      MultipleInRange(g, Quo(g * l, g) - l);
    }
  }

  lemma {:induction false} CommonMultiple(a: int, b: int, g: int, s: int, t: int, l: int, m: int)
    requires g != 0 && g == s * a + t * b && a * b == g * l && Divides(a, m) && Divides(b, m)
    ensures Divides(l, m)
  {
    var x :| m == a * x;
    var y :| m == b * y;
    var c := y * s + x * t;
    Regroup(b, y, s, a);
    Regroup(a, x, t, b);
    Collect(g, m, s * a, t * b, a * b, y * s, x * t, l);
    Cancel(g, m, l * c);
    DividesBy(l, c);
  }

  lemma {:induction false} Regroup(b: int, y: int, s: int, a: int)
    ensures (b * y) * (s * a) == (a * b) * (y * s)
  {
    assert (b * y) * (s * a) == b * (y * (s * a)) == b * ((y * s) * a) == (b * a) * (y * s);
  }

  lemma {:induction false} Collect(g: int, m: int, u: int, v: int, n: int, p: int, q: int, l: int)
    requires g == u + v && m * u == n * p && m * v == n * q && n == g * l
    ensures g * m == g * (l * (p + q))
  {
    assert g * m == m * u + m * v;
    assert n * p + n * q == n * (p + q);
    assert (g * l) * (p + q) == g * (l * (p + q));
  }

  lemma {:induction false} Cancel(g: int, x: int, y: int)
    requires g != 0 && g * x == g * y
    ensures x == y
  {
    var n := if g > 0 then g else -g;
    assert n * x == n * y;
    if x < y { ScaleInt(n, x + 1, y); }
    if y < x { ScaleInt(n, y + 1, x); }
  }

  lemma {:induction false} DividesThrough(d: int, n: int, m: int)
    requires Divides(d, n) && Divides(n, m)
    ensures Divides(d, m)
  {
    var k :| n == d * k;
    var l :| m == n * l;
    assert m == d * (k * l);
  }

  ghost predicate CommonlyDivided(args: seq<int>, m: int) {
    forall i :: 0 <= i < |args| ==> Divides(args[i], m)
  }

  ghost predicate TwoZeros(args: seq<int>) {
    exists i, j :: 0 <= i < j < |args| && args[i] == 0 && args[j] == 0
  }

  lemma {:induction false} NextIsZero(args: seq<int>, n: int)
    ensures TwoZeros(args + [n]) <==> TwoZeros(args) || (n == 0 && 0 in args)
  {
    var more := args + [n];
    if n == 0 && 0 in args {
      var i :| 0 <= i < |args| && args[i] == 0;
      assert more[i] == 0 && more[|args|] == 0;
    }
    if TwoZeros(args) {
      var i, j :| 0 <= i < j < |args| && args[i] == 0 && args[j] == 0;
      assert more[i] == 0 && more[j] == 0;
    }
  }

  /** A divisor of exactly the common multiples of `args`. */
  ghost predicate IsLcmOf(l: int, args: seq<int>) {
    && CommonlyDivided(args, l) && (forall m :: CommonlyDivided(args, m) ==> Divides(l, m))
    && (l == 0 <==> 0 in args) && ((forall i :: 0 <= i < |args| ==> args[i] > 0) ==> l > 0)
  }

  lemma {:induction false} OneMoreArgument(l: int, args: seq<int>, n: int, next: int)
    requires IsLcmOf(l, args) && IsLcm(next, l, n)
    ensures IsLcmOf(next, args + [n])
  {
    hide Divides;
    var more := args + [n];
    forall j | 0 <= j < |more| ensures Divides(more[j], next) {
      if j < |args| {
        DividesThrough(args[j], l, next);
      }
    }
    forall m | CommonlyDivided(more, m) ensures Divides(next, m) {
      assert forall j :: 0 <= j < |args| ==> args[j] == more[j];
      assert CommonlyDivided(args, m) && more[|args|] == n;
    }
    assert forall j :: 0 <= j < |args| ==> args[j] == more[j];
    assert more[|args|] == n;
  }

  /** The least common multiple of all arguments, 1 of none; it takes two zeros to have none. */
  method LcmMultiple(args: seq<int>) returns (l: Option<int>)
    ensures l.None? <==> TwoZeros(args)
    ensures l.Some? ==> IsLcmOf(l.value, args)
  {
    hide Divides, IsLcm;
    if |args| == 0 {
      OneDivides();
      return Some(1);
    }
    var rv := args[0];
    DividesBy(rv, 1);
    assert args[..1] == [rv] && IsLcmOf(rv, [rv]);
    hide IsLcmOf, TwoZeros, CommonlyDivided;
    NoTwoZeros(rv);
    for i := 1 to |args|
      invariant IsLcmOf(rv, args[..i]) && !TwoZeros(args[..i])
    {
      assert args[..i + 1] == args[..i] + [args[i]];
      NextIsZero(args[..i], args[i]);
      ZeroIn(rv, args[..i]);
      var next := Lcm(rv, args[i]);
      if next.None? {
        MoreZeros(args, i + 1);
        return None;
      }
      OneMoreArgument(rv, args[..i], args[i], next.value);
      rv := next.value;
    }
    assert args[..|args|] == args;
    return Some(rv);
  }

  lemma {:induction false} NoTwoZeros(n: int)
    ensures !TwoZeros([n])
  {
  }

  lemma {:induction false} ZeroIn(l: int, args: seq<int>)
    requires IsLcmOf(l, args)
    ensures l == 0 <==> 0 in args
  {
  }

  lemma {:induction false} MoreZeros(args: seq<int>, n: nat)
    requires n <= |args| && TwoZeros(args[..n])
    ensures TwoZeros(args)
  {
    var i, j :| 0 <= i < j < n && args[..n][i] == 0 && args[..n][j] == 0;
    assert args[i] == 0 && args[j] == 0;
  }

  lemma {:induction false} OneDivides()
    ensures forall m :: Divides(1, m)
  {
    forall m ensures Divides(1, m) {
      assert m == 1 * m;
    }
  }
}
