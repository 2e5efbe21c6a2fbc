/** Integer conversions shared by every revision: the C `(int)` cast, Python's
    `int()` and Rust's `as` all round a real toward zero, and `abs`/`fabs` take
    the magnitude. */
module Numeric {

  /** Rounding toward zero, the C `(int)` cast of a double (for values that fit
      in an `int`) and Python's `int()` of a float. */
  function Trunc(x: real): (r: int)
    ensures 0.0 <= x ==> 0 <= r && r as real <= x < r as real + 1.0
    ensures x <= 0.0 ==> r <= 0 && x <= r as real && (r as real) - 1.0 < x
  {
    if x >= 0.0 then x.Floor else -((-x).Floor)
  }

  /** `abs` of an int. */
  function Abs(i: int): (r: nat)
    ensures r == i || r == -i
  {
    if i < 0 then -i else i
  }

  /** `fabs` of a double. */
  function AbsReal(x: real): (r: real)
    ensures 0.0 <= r && (r == x || r == -x)
  {
    if x < 0.0 then -x else x
  }

  /** Rounding toward zero is monotone (both signs, and across zero). */
  lemma TruncMonotone(x: real, y: real)
    requires x <= y
    ensures Trunc(x) <= Trunc(y)
  {
    if 0.0 <= x {
      assert x.Floor <= y.Floor;
    } else if y <= 0.0 {
      assert (-y).Floor <= (-x).Floor;
    }
  }

  /** On non-negative reals rounding toward zero is the floor, so `Trunc(x) == k`
      exactly when `k <= x < k + 1`. */
  lemma TruncIsFloor(x: real, k: int)
    requires 0.0 <= x
    ensures Trunc(x) == k <==> (k as real <= x < k as real + 1.0)
  {
    if k as real <= x < k as real + 1.0 {
      assert x.Floor == k;
    }
  }

  /** The magnitude of the truncation never exceeds the magnitude of the value,
      and is less than one below it. */
  lemma AbsTruncBounds(x: real)
    ensures Abs(Trunc(x)) as real <= AbsReal(x) < Abs(Trunc(x)) as real + 1.0
  {
  }

  /** `abs((int)x) < b` exactly when -b < x < b. */
  lemma AbsTruncBelow(x: real, b: nat)
    ensures Abs(Trunc(x)) < b <==> -(b as real) < x < b as real
  {
  }

  /** Scaling by a non-negative factor keeps the order of two reals. */
  lemma ScaleMonotone(x: real, y: real, n: real)
    requires x <= y && 0.0 <= n
    ensures x * n <= y * n
  {
    var d := y - x;
    assert y * n - x * n == d * n;
    if 0.0 < n {
      SignOfProduct(n, d);
      assert n * d == d * n;
    }
  }

  /** For n > 0, a / n <= b exactly when a <= b * n (both sides scaled by n). */
  lemma DivLe(a: real, b: real, n: real)
    requires 0.0 < n
    ensures a / n <= b <==> a <= b * n
  {
    var q := a / n;
    assert q * n == a;
    assert b * n - a == (b - q) * n;
  }

  /** For x >= 0 and an integer b, `(int)x < b` exactly when x < b. */
  lemma TruncBelow(x: real, b: int)
    requires 0.0 <= x
    ensures Trunc(x) < b <==> x < b as real
  {
  }

  /** An integer product converted to a real is the product of the converted
      factors. */
  lemma ProductAsReal(a: int, b: int)
    ensures (a * b) as real == a as real * b as real
  {
  }

  /** A non-negative value divided by a positive one is non-negative. */
  lemma DivNonNegative(a: real, b: real)
    requires 0.0 <= a && 0.0 < b
    ensures 0.0 <= a / b
  {
    assert a / b * b == a;
  }

  /** A positive length times a cosine has the sign of the cosine. */
  lemma SignOfProduct(d: real, c: real)
    requires 0.0 < d
    ensures 0.0 < c ==> 0.0 < d * c
    ensures c < 0.0 ==> d * c < 0.0
    ensures c == 0.0 ==> d * c == 0.0
  {
  }

  /** The quotient of two positive reals is positive. */
  lemma DivPositive(a: real, b: real)
    requires 0.0 < a && 0.0 < b
    ensures 0.0 < a / b
  {
    assert a / b * b == a;
  }
  /** A non-negative length whose product with a cosine is positive has a
      positive cosine. */
  lemma PositiveFactor(d: real, c: real)
    requires 0.0 <= d && 0.0 < d * c
    ensures 0.0 < c
  {
  }

  /** A non-negative length whose product with a cosine is negative has a
      negative cosine. */
  lemma NegativeFactor(d: real, c: real)
    requires 0.0 <= d && d * c < 0.0
    ensures c < 0.0
  {
  }

  /** Dividing a sum by n is summing the quotients. */
  lemma DivAdd(a: real, b: real, n: real)
    requires n != 0.0
    ensures a / n + b / n == (a + b) / n
  {
    var p, q := a / n, b / n;
    assert p * n == a && q * n == b;
    assert (p + q) * n == a + b;
  }

  /** Dividing by t and by n, then multiplying by t, divides by n alone. */
  lemma RescaleQuotient(x: real, t: real, n: real)
    requires t != 0.0 && n != 0.0
    ensures x / t / n * t == x / n
  {
    var q := x / t / n;
    assert q * n == x / t;
    assert (x / t) * t == x;
    assert q * t * n == x;
  }

  /** The C `round()` of a double: to the nearest integer, halfway cases
      away from zero. */
  function Round(x: real): (r: int)
    ensures 0.0 <= x ==> 0 <= r && (r as real) - 0.5 <= x < (r as real) + 0.5
    ensures x <= 0.0 ==> r <= 0 && (r as real) - 0.5 < x <= (r as real) + 0.5
  {
    if x >= 0.0 then (x + 0.5).Floor else -((0.5 - x).Floor)
  }
}
