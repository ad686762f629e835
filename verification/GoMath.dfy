/** The two float-to-integer conversions the scorer relies on, on exact reals. */
module GoMath {

  /** Go's `int(x)`: drops the fraction, towards zero. */
  function Truncate(x: real): (n: int)
    ensures 0.0 <= x ==> n as real <= x < n as real + 1.0
    ensures x <= 0.0 ==> n as real - 1.0 < x <= n as real
  {
    if 0.0 <= x then x.Floor else -(-x).Floor
  }

  /** Go's `int(math.Round(x))`: the nearest integer, halves away from zero. */
  function Round(x: real): (n: int)
    ensures 0.0 <= x ==> n as real - 0.5 <= x < n as real + 0.5
    ensures x <= 0.0 ==> n as real - 0.5 < x <= n as real + 0.5
  {
    if 0.0 <= x then (x + 0.5).Floor else -(-x + 0.5).Floor
  }

  lemma TruncateMonotone(x: real, y: real)
    requires x <= y
    ensures Truncate(x) <= Truncate(y)
  {
    assert Truncate(y) < Truncate(x) ==> Truncate(y) as real + 1.0 <= Truncate(x) as real;
  }

  lemma TruncateWhole(n: int)
    ensures Truncate(n as real) == n
  {
  }

  lemma TruncateWithin(x: real, y: real, n: nat)
    requires 0.0 <= x <= y <= n as real
    ensures 0 <= Truncate(x) <= Truncate(y) <= n
  {
    TruncateMonotone(x, y);
  }

  lemma RoundMonotone(x: real, y: real)
    requires x <= y
    ensures Round(x) <= Round(y)
  {
    assert Round(y) < Round(x) ==> Round(y) as real + 1.0 <= Round(x) as real;
  }

  lemma RoundWhole(n: int)
    ensures Round(n as real) == n
  {
  }

  lemma MulMonotone(a: real, b: real, k: real)
    requires a <= b && 0.0 <= k
    ensures a * k <= b * k
  {
  }

  lemma ProductMonotone(a: real, b: real, f: real, g: real)
    requires 0.0 <= a <= b && 0.0 <= f <= g
    ensures 0.0 <= a * f <= b * g
  {
    MulMonotone(0.0, f, a);
    MulMonotone(f, g, a);
    MulMonotone(a, b, g);
  }
}
