/** The transcendental functions the programs call (sqrt, log, cos, sin, acos
    and the constant pi). They are not computed here: a `Math` value supplies
    them, and the law predicates state the facts about them that every
    revision relies on. Real sqrt, log, cos, sin, acos and pi satisfy all of
    them. */
module Maths {

  datatype Math = Math(
    pi: real,
    sqrt: real -> real,
    log: real -> real,
    cos: real -> real,
    sin: real -> real,
    acos: real -> real)

  /** sqrt(x) is the non-negative square root of a non-negative x. */
  ghost predicate SqrtLaw(m: Math)
  {
    forall x: real :: 0.0 <= x ==> 0.0 <= m.sqrt(x) && m.sqrt(x) * m.sqrt(x) == x
  }

  /** log is negative on (0,1) and zero at 1. */
  ghost predicate LogLaw(m: Math)
  {
    m.log(1.0) == 0.0 && forall x: real :: 0.0 < x < 1.0 ==> m.log(x) < 0.0
  }

  /** cos and sin of one angle lie on the unit circle. */
  ghost predicate TrigLaw(m: Math)
  {
    forall a: real :: m.cos(a) * m.cos(a) + m.sin(a) * m.sin(a) == 1.0
  }

  /** acos inverts cos on [-1,1] and is strictly decreasing there; pi is positive. */
  ghost predicate AcosLaw(m: Math)
  {
    && 0.0 < m.pi
    && (forall x: real :: -1.0 <= x <= 1.0 ==> m.cos(m.acos(x)) == x)
    && (forall x: real, y: real :: -1.0 <= x < y <= 1.0 ==> m.acos(y) < m.acos(x))
  }

  ghost predicate Valid(m: Math)
  {
    SqrtLaw(m) && LogLaw(m) && TrigLaw(m) && AcosLaw(m)
  }

  /** sqrt of a value in [0,1] lies in [0,1], strictly inside when the value is. */
  lemma SqrtUnit(m: Math, u: real)
    requires SqrtLaw(m) && 0.0 <= u <= 1.0
    ensures 0.0 <= m.sqrt(u) <= 1.0
    ensures 0.0 < u ==> 0.0 < m.sqrt(u)
    ensures u < 1.0 ==> m.sqrt(u) < 1.0
  {
    var s := m.sqrt(u);
    assert s * s == u;
    UnitSquare(s);
    assert s == 1.0 ==> s * s == 1.0;
    assert s == 0.0 ==> s * s == 0.0;
  }

  /** A real whose square is at most 1 lies in [-1,1]. */
  lemma UnitSquare(c: real)
    requires c * c <= 1.0
    ensures -1.0 <= c <= 1.0
  {
    assert (c - 1.0) * (c + 1.0) <= 0.0;
  }

  /** cos and sin are bounded by 1 in magnitude. */
  lemma TrigBounds(m: Math, a: real)
    requires TrigLaw(m)
    ensures -1.0 <= m.cos(a) <= 1.0 && -1.0 <= m.sin(a) <= 1.0
  {
    var c, s := m.cos(a), m.sin(a);
    assert c * c + s * s == 1.0;
    assert 0.0 <= s * s && 0.0 <= c * c;
    UnitSquare(c);
    UnitSquare(s);
  }

  /** The azimuth drawn from a uniform number u: phi = 2 pi u. */
  function Azimuth(m: Math, u: real): real
  {
    2.0 * m.pi * u
  }

  /** sin theta as the sources compute it from cos theta: sqrt(1 - cos^2). */
  function SineOf(m: Math, c: real): real
  {
    m.sqrt(1.0 - c * c)
  }

  /** For |c| <= 1, sqrt(1 - c^2) is the non-negative sine completing c to a
      unit vector. */
  lemma SineOfCosine(m: Math, c: real)
    requires SqrtLaw(m) && -1.0 <= c <= 1.0
    ensures 0.0 <= SineOf(m, c)
    ensures c * c + SineOf(m, c) * SineOf(m, c) == 1.0
  {
    assert c * c <= 1.0 by {
      if 0.0 <= c { assert c * c <= c * 1.0; } else { assert c * c <= (-c) * 1.0; }
    }
  }

  /** The square root of 1 is 1. */
  lemma SqrtOne(m: Math)
    requires SqrtLaw(m)
    ensures m.sqrt(1.0) == 1.0
  {
    SqrtUnit(m, 1.0);
    var s := m.sqrt(1.0);
    assert s * (1.0 - s) >= 0.0;
    assert s * s <= s;
  }

  /** Radians to degrees as the sources write it: `a * (180/pi)`. */
  function ToDegrees(m: Math, a: real): real
    requires 0.0 < m.pi
  {
    a * (180.0 / m.pi)
  }

  /** Degrees to radians as the sources write it: `d * pi/180`. */
  function ToRadians(m: Math, d: real): real
  {
    d * m.pi / 180.0
  }

  /** Converting to degrees and back gives back the angle. */
  lemma DegreesRoundTrip(m: Math, a: real)
    requires 0.0 < m.pi
    ensures ToRadians(m, ToDegrees(m, a)) == a
  {
    var k := 180.0 / m.pi;
    assert k * m.pi == 180.0;
    assert a * k * m.pi == a * (k * m.pi);
  }

  /** So the bin angle stored in degrees, `acos(x)` converted, gives back x
      when converted to radians before the cosine. */
  lemma CosOfStoredDegrees(m: Math, x: real)
    requires AcosLaw(m) && -1.0 <= x <= 1.0
    ensures m.cos(ToRadians(m, ToDegrees(m, m.acos(x)))) == x
  {
    DegreesRoundTrip(m, m.acos(x));
  }
}
