/** The retry policy of internal/anysdk/retry.go, with delays as real milliseconds. */
module RetryPolicy {

  const EXPONENTIAL: string := "exponential"

  /** The fields as configured; a zero or empty field means it was left out. */
  datatype Policy = Policy(algorithm: string, maxAttempts: int, initialDelay: int, maxDelay: int, multiplier: real,
          jitterFraction: real,
                           statusCodes: seq<int>, methods: seq<string>)

  const DEFAULT_STATUS_CODES: seq<int> := [408, 429, 502, 503, 504]

  const DEFAULT_METHODS: seq<string> := ["GET", "HEAD"]

  function Algorithm(p: Policy): string {
    if p.algorithm == "" then EXPONENTIAL else p.algorithm
  }

  function MaxAttempts(p: Policy): (n: int)
    ensures n >= 1 && (p.maxAttempts >= 1 ==> n == p.maxAttempts)
  {
    if p.maxAttempts < 1 then 3 else p.maxAttempts
  }

  function InitialDelay(p: Policy): (d: real)
    ensures d > 0.0
  {
    if p.initialDelay <= 0 then 500.0 else p.initialDelay as real
  }

  function MaxDelay(p: Policy): (d: real)
    ensures d > 0.0
  {
    if p.maxDelay <= 0 then 10000.0 else p.maxDelay as real
  }

  function Multiplier(p: Policy): (m: real)
    ensures m > 1.0
  {
    if p.multiplier <= 1.0 then 2.0 else p.multiplier
  }

  function JitterFraction(p: Policy): (j: real)
    ensures 0.0 <= j <= 1.0
  {
    if p.jitterFraction < 0.0 then 0.0 else if p.jitterFraction > 1.0 then 1.0 else p.jitterFraction
  }

  function StatusCodes(p: Policy): seq<int> {
    if p.statusCodes == [] then DEFAULT_STATUS_CODES else p.statusCodes
  }

  function Methods(p: Policy): seq<string> {
    if p.methods == [] then DEFAULT_METHODS else p.methods
  }

  /** A configured number counts if it is positive. */
  function PositiveOr(configured: int, standard: int): real {
    (if configured > 0 then configured else standard) as real
  }

  /** The settings in force, configured or not. */
  lemma {:induction false} SettingsInForce(p: Policy)
    ensures Algorithm(p) == EXPONENTIAL <==> p.algorithm in {"", "exponential"}
    ensures MaxAttempts(p) as real == PositiveOr(p.maxAttempts, 3)
    ensures InitialDelay(p) == PositiveOr(p.initialDelay, 500) && MaxDelay(p) == PositiveOr(p.maxDelay, 10000)
    ensures if p.multiplier > 1.0 then Multiplier(p) == p.multiplier else Multiplier(p) == 2.0
    ensures 0.0 <= p.jitterFraction <= 1.0 ==> JitterFraction(p) == p.jitterFraction
    ensures p.jitterFraction < 0.0 ==> JitterFraction(p) == 0.0
    ensures p.jitterFraction > 1.0 ==> JitterFraction(p) == 1.0
  {
    assert |"exponential"| == 11;
  }

  method IsStatusRetryable(p: Policy, status: int) returns (found: bool)
    ensures found <==> status in StatusCodes(p)
    ensures found <==> if p.statusCodes != [] then status in p.statusCodes else status in {408, 429, 502, 503, 504}
  {
    var codes := StatusCodes(p);
    for i := 0 to |codes|
      invariant status !in codes[..i]
    {
      if codes[i] == status {
        return true;
      }
    }
    return false;
  }

  predicate MethodRetryable(p: Policy, verb: string) {
    "*" in Methods(p) || verb in Methods(p)
  }

  method IsMethodRetryable(p: Policy, verb: string) returns (found: bool)
    ensures found <==> MethodRetryable(p, verb)
    ensures found <==> if p.methods != [] then verb in p.methods || "*" in p.methods else verb in {"GET", "HEAD"}
  {
    var methods := Methods(p);
    for i := 0 to |methods|
      invariant "*" !in methods[..i] && verb !in methods[..i]
    {
      if methods[i] == "*" {
        return true;
      }
      if methods[i] == verb {
        return true;
      }
    }
    return false;
  }

  // --- the delay ------------------------------------------------------------------------------------

  function Pow(m: real, n: nat): real {
    if n == 0 then 1.0 else m * Pow(m, n - 1)
  }

  function Min(a: real, b: real): real {
    if a <= b then a else b
  }

  /** The initial delay multiplied `k` times. */
  function Grown(p: Policy, k: nat): real {
    InitialDelay(p) * Pow(Multiplier(p), k)
  }

  /** The delay before jitter: it grows by the multiplier from wait to wait, up to the ceiling. */
  function BaseDelay(p: Policy, attempt: int): real {
    var k: nat := if attempt < 1 then 0 else attempt - 1;
    Min(MaxDelay(p), if Algorithm(p) == EXPONENTIAL then Grown(p, k) else InitialDelay(p))
  }

  /** A delay moved by the noise. */
  function Shaken(d: real, noise: real, jf: real): real {
    d * (1.0 + noise * jf)
  }

  lemma {:induction false} ScaleUp(a: real, x: real, y: real)
    requires a > 0.0 && x < y
    ensures a * x < a * y
  {
  }

  lemma {:induction false} Product(a: real, b: real)
    ensures a >= 0.0 && b >= 0.0 ==> a * b >= 0.0
    ensures a > 0.0 && b > 0.0 ==> a * b > 0.0
  {
  }

  lemma {:induction false} PowGrows(m: real, n: nat)
    requires m > 1.0
    ensures 1.0 <= Pow(m, n) < Pow(m, n + 1)
  {
    if n > 0 {
      PowGrows(m, n - 1);
      ScaleUp(m, Pow(m, n - 1), Pow(m, n));
    }
  }

  lemma {:induction false} GrownStep(p: Policy, k: nat)
    ensures 0.0 < Grown(p, k) < Grown(p, k + 1) == Multiplier(p) * Grown(p, k)
  {
    hide InitialDelay, Multiplier, Pow;
    var i, m, x := InitialDelay(p), Multiplier(p), Pow(Multiplier(p), k);
    PowGrows(m, k);
    Product(i, x);
    ScaleUp(i, x, Pow(m, k + 1));
    PowStep(m, k);
    assert i * (m * x) == m * (i * x);
  }

  lemma {:induction false} PowStep(m: real, n: nat)
    ensures Pow(m, n + 1) == m * Pow(m, n)
  {
  }

  lemma {:induction false} BaseDelayInRange(p: Policy, attempt: int)
    ensures 0.0 < BaseDelay(p, attempt) <= MaxDelay(p)
  {
    hide Algorithm, InitialDelay, MaxDelay, Grown;
    GrownStep(p, if attempt < 1 then 0 else attempt - 1);
  }

  /** Without jitter a wait is never shorter than the one before. */
  lemma {:induction false} BaseDelayNeverShrinks(p: Policy, early: int, late: int)
    requires early <= late
    ensures BaseDelay(p, early) <= BaseDelay(p, late)
    decreases late - early
  {
    hide Algorithm, InitialDelay, MaxDelay, Grown;
    if early < late {
      BaseDelayNeverShrinks(p, early, late - 1);
      if late > 1 {
        GrownStep(p, late - 2);
      }
    }
  }

  /** With an exponential policy a wait is the multiplier times the one before, unless that passes the ceiling. */
  lemma {:induction false} BaseDelayGrows(p: Policy, attempt: int)
    requires Algorithm(p) == EXPONENTIAL && attempt >= 1
    ensures BaseDelay(p, attempt + 1) == Min(MaxDelay(p), Multiplier(p) * BaseDelay(p, attempt))
  {
    hide Algorithm, InitialDelay, MaxDelay, Multiplier, Grown;
    GrownStep(p, attempt - 1);
    CappedGrowth(Grown(p, attempt - 1), Multiplier(p), MaxDelay(p));
  }

  /** The first wait, and with a policy that is not exponential every wait, is the initial delay or the ceiling. */
  lemma {:induction false} BaseDelayStarts(p: Policy, attempt: int)
    requires attempt <= 1 || Algorithm(p) != EXPONENTIAL
    ensures BaseDelay(p, attempt) == if InitialDelay(p) <= MaxDelay(p) then InitialDelay(p) else MaxDelay(p)
  {
    hide Algorithm, InitialDelay, MaxDelay, Multiplier;
  }

  lemma {:induction false} CappedGrowth(x: real, m: real, top: real)
    requires x > 0.0 && m > 1.0 && top > 0.0
    ensures Min(top, m * x) == Min(top, m * Min(top, x))
  {
    ScaleUp(top, 1.0, m);
    ScaleUp(x, 1.0, m);
  }

  /** The delay with jitter for one draw of the noise. */
  method BackoffFor(p: Policy, attempt: int, noise: real) returns (d: real)
    requires -1.0 <= noise <= 1.0
    ensures 0.0 <= d <= MaxDelay(p)
    ensures d == if JitterFraction(p) == 0.0 then BaseDelay(p, attempt)
        else Min(MaxDelay(p), Shaken(BaseDelay(p, attempt), noise, JitterFraction(p)))
  {
    hide Algorithm, InitialDelay, MaxDelay, Multiplier, Pow, Shaken, JitterFraction;
    var n: nat := if attempt < 1 then 0 else attempt - 1;
    var initial, maxDelay := InitialDelay(p), MaxDelay(p);
    BaseDelayInRange(p, attempt);
    if Algorithm(p) == EXPONENTIAL {
      var nanos := initial * Pow(Multiplier(p), n);
      d := if nanos > maxDelay then maxDelay else nanos;
    } else {
      d := initial;
    }
    if d > maxDelay {
      d := maxDelay;
    }
    assert d == BaseDelay(p, attempt);
    hide BaseDelay;
    var jf := JitterFraction(p);
    if jf > 0.0 {
      JitterInRange(d, noise, jf);
      d := Shaken(d, noise, jf);
      if d < 0.0 {
        d := 0.0;
      }
      if d > maxDelay {
        d := maxDelay;
      }
    }
  }

  /** Jitter moves a delay by no more than its fraction, so never below zero. */
  lemma {:induction false} JitterInRange(d: real, noise: real, jf: real)
    requires d >= 0.0 && -1.0 <= noise <= 1.0 && 0.0 <= jf <= 1.0
    ensures 0.0 <= d * (1.0 - jf) <= Shaken(d, noise, jf) <= d * (1.0 + jf)
  {
    Product(noise + 1.0, jf);
    Product(1.0 - noise, jf);
    var x := noise * jf;
    assert (noise + 1.0) * jf == x + jf && (1.0 - noise) * jf == jf - x;
    Product(d, 1.0 - jf);
    Product(d, x + jf);
    Product(d, jf - x);
    assert d * (1.0 + x) - d * (1.0 - jf) == d * (x + jf);
    assert d * (1.0 + jf) - d * (1.0 + x) == d * (jf - x);
  }

  /** Some noise moves the delay to any place in that range. */
  lemma {:induction false} JitterReaches(d: real, jf: real, x: real) returns (noise: real)
    requires d > 0.0 && 0.0 < jf <= 1.0 && d * (1.0 - jf) <= x <= d * (1.0 + jf)
    ensures -1.0 <= noise <= 1.0 && Shaken(d, noise, jf) == x
  {
    Product(d, jf);
    var reach := d * jf;
    assert d * (1.0 - jf) == d - reach && d * (1.0 + jf) == d + reach;
    noise := (x - d) / reach;
    Quotient(x - d, reach);
    assert d * (1.0 + noise * jf) == d + noise * reach;
  }

  lemma {:induction false} Quotient(a: real, b: real)
    requires b > 0.0 && -b <= a <= b
    ensures -1.0 <= a / b <= 1.0 && a / b * b == a
  {
  }
}
