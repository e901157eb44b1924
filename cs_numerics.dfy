/**
 * The numeric conversions of C# that the library relies on, stated over
 * unbounded integers and exact reals: `Math.Round` (which rounds halves to
 * even), the `(int)` cast of a double (which truncates toward zero), integer
 * division on `int` (which also truncates toward zero), and real powers for
 * the repeated `scale *= scaleFactor` of the window search.
 */
module CsNumerics {

  /** `Math.Round(r)`: the nearest integer, and the even one on a tie. */
  function RoundHalfEven(r: real): (n: int)
    ensures r - 0.5 <= n as real <= r + 0.5
    ensures (n as real == r - 0.5 || n as real == r + 0.5) ==> n % 2 == 0
  {
    var f := r.Floor;
    var frac := r - f as real;
    if frac < 0.5 then f
    else if frac > 0.5 then f + 1
    else if f % 2 == 0 then f
    else f + 1
  }

  /** The `(int)` cast of a double: truncation toward zero. */
  function Truncate(r: real): (n: int)
    ensures 0.0 <= r ==> n as real <= r < n as real + 1.0
    ensures r < 0.0 ==> n as real - 1.0 < r <= n as real
  {
    if r >= 0.0 then r.Floor else -((-r).Floor)
  }

  /** C# `a / b` on `int` for a positive divisor: the quotient truncated toward zero. */
  function CsDiv(a: int, b: int): (q: int)
    requires b > 0
    ensures 0 <= a ==> q * b <= a < q * b + b
    ensures a < 0 ==> q * b - b < a <= q * b
  {
    if a >= 0 then a / b
    else
      var p := -a / b;
      assert p * b <= -a < p * b + b;
      -p
  }

  function Abs(a: int): nat { if a < 0 then -a else a }

  function Max(a: int, b: int): int { if a < b then b else a }

  function Min(a: int, b: int): int { if a < b then a else b }

  /** `f` multiplied into `1.0` `k` times. */
  function Pow(f: real, k: nat): real
  {
    if k == 0 then 1.0 else f * Pow(f, k - 1)
  }

  lemma {:induction false} PowPositive(f: real, k: nat)
    requires f > 0.0
    ensures Pow(f, k) > 0.0
  {
    if k > 0 {
      PowPositive(f, k - 1);
    }
  }

  /** Bernoulli's inequality: for `f >= 1`, `f^k >= 1 + k(f - 1)`. */
  lemma {:induction false} Bernoulli(f: real, k: nat)
    requires f >= 1.0
    ensures Pow(f, k) >= 1.0 + (k as real) * (f - 1.0)
  {
    if k > 0 {
      Bernoulli(f, k - 1);
      var p := Pow(f, k - 1);
      assert p >= 1.0 + ((k - 1) as real) * (f - 1.0);
      calc {
        Pow(f, k);
        == f * p;
        >= { assert f >= 1.0 && p >= 1.0 + ((k - 1) as real) * (f - 1.0); }
          f * (1.0 + ((k - 1) as real) * (f - 1.0));
        == 1.0 + (k as real) * (f - 1.0) + ((k - 1) as real) * (f - 1.0) * (f - 1.0);
        >= 1.0 + (k as real) * (f - 1.0);
      }
    }
  }

  /** The powers of a factor above 1 never decrease. */
  lemma {:induction false} PowMonotone(f: real, j: nat, k: nat)
    requires f >= 1.0 && j <= k
    ensures Pow(f, j) <= Pow(f, k)
  {
    if j < k {
      PowMonotone(f, j, k - 1);
      PowPositive(f, k - 1);
      assert Pow(f, k) == f * Pow(f, k - 1) >= Pow(f, k - 1);
    }
  }
}
