/** Exact-real counterparts of the Go `math` functions both services rely on. */
module Numbers {

  function Abs(x: real): real {
    if x < 0.0 then -x else x
  }

  function Max(x: real, y: real): real {
    if x < y then y else x
  }

  /** `math.Round`: to the nearest integer, halves away from zero. */
  function Round(x: real): int {
    if x >= 0.0 then (x + 0.5).Floor else -(0.5 - x).Floor
  }

  /** `math.Trunc`: towards zero. */
  function Trunc(x: real): int {
    if x >= 0.0 then x.Floor else -(-x).Floor
  }

  /** `math.Mod` on integral operands: the remainder has the sign of `a`. */
  function Mod(a: int, b: int): int
    requires b > 0
  {
    if a >= 0 then a % b else -((-a) % b)
  }

  /** `math.Pow10`. */
  function Pow10(n: int): (r: real)
    ensures r > 0.0
    ensures n >= 0 ==> r >= 1.0
    decreases if n < 0 then -n else n
  {
    if n == 0 then 1.0
    else if n > 0 then 10.0 * Pow10(n - 1)
    else Pow10(n + 1) / 10.0
  }

  /** `x` counted in units of the `n`-th decimal place. */
  function Scaled(x: real, n: int): real {
    x * Pow10(n)
  }

  predicate Integral(x: real) {
    x.Floor as real == x
  }

  /** The point `k` steps away from `anchor`. */
  function GridPoint(anchor: int, step: int, k: int): int {
    anchor + k * step
  }

  lemma RoundIsNearest(x: real, n: int)
    ensures Abs(x - Round(x) as real) <= 0.5
    ensures Abs(x - Round(x) as real) <= Abs(x - n as real)
  {
    if n <= Round(x) - 1 {
      assert n as real <= Round(x) as real - 1.0;
    } else if n >= Round(x) + 1 {
      assert n as real >= Round(x) as real + 1.0;
    }
  }

  /** Rounding is odd, and a half goes away from zero. */
  lemma RoundHalvesAway(x: real, n: int)
    requires n >= 0
    ensures Round(-x) == -Round(x)
    ensures Round(n as real + 0.5) == n + 1 && Round(-(n as real) - 0.5) == -(n + 1)
  {
  }

  /** Truncation drops the fraction, whatever the sign. */
  lemma TruncTowardsZero(x: real)
    ensures Trunc(-x) == -Trunc(x)
    ensures x >= 0.0 ==> Trunc(x) as real <= x < Trunc(x) as real + 1.0
  {
  }

  predicate EqualsInteger(x: real, n: int) {
    x == n as real
  }

  lemma WholeExactly(x: real)
    ensures Trunc(x) as real == x <==> exists n :: EqualsInteger(x, n)
  {
    assert Trunc(x) as real == x ==> EqualsInteger(x, Trunc(x));
    if n :| EqualsInteger(x, n) {
      assert -x == (-n) as real;
      FloorOfInteger(n);
      FloorOfInteger(-n);
    }
  }

  lemma FloorOfInteger(n: int)
    ensures (n as real).Floor == n
  {
  }

  /** The remainder differs from `a` by whole steps, is smaller than one, and has the sign of `a`. */
  lemma ModIsRemainder(a: int, b: int) returns (q: int)
    requires b > 0
    ensures a == q * b + Mod(a, b)
    ensures if a >= 0 then 0 <= Mod(a, b) < b else -b < Mod(a, b) <= 0
  {
    q := if a >= 0 then a / b else -((-a) / b);
    if a < 0 {
      assert -a == ((-a) / b) * b + (-a) % b;
    }
  }

  lemma RoundOfInteger(n: int)
    ensures Round(n as real) == n
  {
    RoundIsNearest(n as real, n);
  }

  lemma IntegralRounds(x: real)
    requires Integral(x)
    ensures Round(x) as real == x
  {
    RoundOfInteger(x.Floor);
  }

  lemma RoundMonotone(x: real, y: real)
    requires x <= y
    ensures Round(x) <= Round(y)
  {
  }

  /** One place further means ten times as many units, to the left of the point too. */
  lemma ScaledSteps(x: real, n: int)
    ensures Scaled(x, n + 1) == 10.0 * Scaled(x, n)
  {
  }

  lemma ScaledSum(x: real, y: real, n: int)
    ensures Scaled(x + y, n) == Scaled(x, n) + Scaled(y, n)
    ensures Scaled(x - y, n) == Scaled(x, n) - Scaled(y, n)
  {
  }

  lemma ScaledMultiple(k: int, x: real, n: int)
    ensures Scaled(k as real * x, n) == k as real * Scaled(x, n)
  {
  }

  lemma ScaledAbs(x: real, n: int)
    ensures Scaled(Abs(x), n) == Abs(Scaled(x, n))
    ensures x > 0.0 <==> Scaled(x, n) > 0.0
    ensures x == 0.0 <==> Scaled(x, n) == 0.0
  {
  }

  lemma ScaledMonotone(x: real, y: real, n: int)
    requires x <= y
    ensures Scaled(x, n) <= Scaled(y, n)
  {
    ScaledAbs(y - x, n);
    ScaledSum(y, x, n);
  }

  lemma ScaledOrder(x: real, y: real, n: int)
    ensures x <= y <==> Scaled(x, n) <= Scaled(y, n)
  {
    if x <= y {
      ScaledMonotone(x, y, n);
    } else {
      ScaledAbs(x - y, n);
      ScaledSum(x, y, n);
    }
  }

  /** Every real is a scaled number. */
  lemma Unscaled(y: real, n: int) returns (x: real)
    ensures Scaled(x, n) == y
  {
    x := y / Pow10(n);
  }

  lemma {:induction false} ScaledTwice(x: real, m: nat, n: nat)
    ensures Scaled(x, m + n) == Scaled(Scaled(x, m), n)
    decreases n
  {
    if n > 0 {
      ScaledTwice(x, m, n - 1);
      ScaledSteps(x, m + n - 1);
      ScaledSteps(Scaled(x, m), n - 1);
    }
  }

  lemma TenfoldIntegral(x: real)
    requires Integral(x)
    ensures Integral(10.0 * x)
  {
    assert 10.0 * x == (10 * x.Floor) as real;
  }

  /** A number with at most `m` decimals has at most `n` decimals for every larger `n`. */
  lemma {:induction false} DecimalsGrow(x: real, m: nat, n: nat)
    requires m <= n && Integral(Scaled(x, m))
    ensures Integral(Scaled(x, n))
    decreases n
  {
    if m < n {
      DecimalsGrow(x, m, n - 1);
      TenfoldIntegral(Scaled(x, n - 1));
      ScaledSteps(x, n - 1);
    }
  }

  /** Scaling by at most eight places enlarges a number at most 10^8 times. */
  lemma {:induction false} ScaledBound(x: real, n: nat, limit: real)
    requires n <= 8 && Abs(x) < limit
    ensures Abs(Scaled(x, n)) < 100000000.0 * limit
    decreases 8 - n
  {
    if n == 8 {
      UnrollScaled(x, 4);
      UnrollScaled(Scaled(x, 4), 4);
      ScaledTwice(x, 4, 4);
    } else {
      ScaledBound(x, n + 1, limit);
      ScaledSteps(x, n);
    }
  }

  lemma UnrollScaled(x: real, n: nat)
    requires n == 4
    ensures Scaled(x, n) == 10000.0 * x
  {
    ScaledSteps(x, 3);
    ScaledSteps(x, 2);
    ScaledSteps(x, 1);
    ScaledSteps(x, 0);
  }

  lemma DivisibleIsGridPoint(a: int, b: int)
    requires b > 0
    ensures a % b == 0 <==> exists k :: a == GridPoint(0, b, k)
  {
    if a % b == 0 {
      assert a == GridPoint(0, b, a / b);
    }
    if k :| a == GridPoint(0, b, k) {
      MultipleHasNoRemainder(k, b);
    }
  }

  lemma MultipleBeyondDivisor(k: int, b: int)
    requires b > 0
    ensures k >= 1 ==> k * b >= b
    ensures k <= -1 ==> k * b <= -b
  {
  }

  lemma MultipleHasNoRemainder(k: int, b: int)
    requires b > 0
    ensures (k * b) % b == 0
  {
    var q, r := (k * b) / b, (k * b) % b;
    assert r == (k - q) * b;
    MultipleBeyondDivisor(k - q, b);
  }

  /** A vanishing `math.Mod` means being a whole number of steps away. */
  lemma ModZeroIsGridPoint(n: int, anchor: int, step: int)
    requires step > 0
    ensures Mod(n - anchor, step) == 0 <==> exists k :: n == GridPoint(anchor, step, k)
  {
    var d := n - anchor;
    DivisibleIsGridPoint(d, step);
    DivisibleIsGridPoint(-d, step);
    if k :| d == GridPoint(0, step, k) {
      assert n == GridPoint(anchor, step, k);
    }
    if k :| -d == GridPoint(0, step, k) {
      assert n == GridPoint(anchor, step, -k);
    }
    if k :| n == GridPoint(anchor, step, k) {
      assert d == GridPoint(0, step, k);
      assert -d == GridPoint(0, step, -k);
    }
  }
}
