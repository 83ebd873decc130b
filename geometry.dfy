/** Plane geometry used by the path tracker: the XYVector value type, the
    Euclidean distance, the bearing between two points and the wrap of an
    angle into one turn. Everything is over `real`; the C math library
    functions the tracker calls are supplied as a Libm value. */
module Geometry {

  type PosReal = r: real | r > 0.0 witness 1.0

  /** M_PI. Only its sign matters to the properties below, so its value is
      kept abstract. */
  const PiValue: PosReal
  const PI: real := PiValue

  /** A whole number of turns, 2 * PI * k. */
  function Turn(k: int): real {
    2.0 * PI * (k as real)
  }

  /** The C math functions the tracker calls: sqrt, atan2, cos and sin.
      They are left uninterpreted; Lawful states what the proofs rely on. */
  datatype Libm = Libm(sqrt: real -> real, atan2: (real, real) -> real, cos: real -> real, sin: real -> real)

  /** The only facts about libm that are used: sqrt is non-negative on its
      domain and maps 0 to 0. */
  ghost predicate Lawful(lib: Libm) {
    (forall v: real :: 0.0 <= v ==> 0.0 <= lib.sqrt(v)) && lib.sqrt(0.0) == 0.0
  }

  /** The C++ XYVector class: a pair of coordinates with component-wise
      +, - and scaling by a scalar. */
  datatype XYVector = XYVector(x: real, y: real) {

    /** operator+ */
    function Add(other: XYVector): (r: XYVector) {
      XYVector(x + other.x, y + other.y)
    }

    /** operator-: undoes operator+. */
    function Sub(other: XYVector): (r: XYVector)
      ensures r.Add(other) == this
    {
      XYVector(x - other.x, y - other.y)
    }

    /** operator*(double) */
    function Scale(s: real): (r: XYVector)
      ensures s == 1.0 ==> r == this
      ensures s == 0.0 ==> r == Origin
    {
      XYVector(x * s, y * s)
    }
  }

  /** The default-constructed XYVector. */
  const Origin := XYVector(0.0, 0.0)

  lemma AddSubCancel(a: XYVector, b: XYVector)
    ensures a.Add(b).Sub(b) == a
  {
  }

  /** The dot product, written inline in the tracker for the projected error. */
  function Dot(a: XYVector, b: XYVector): real {
    a.x * b.x + a.y * b.y
  }

  lemma DotSymmetric(a: XYVector, b: XYVector)
    ensures Dot(a, b) == Dot(b, a)
  {
  }

  /** dist_euc: sqrt(dx * dx + dy * dy) for the difference d = p1 - p2. */
  function Dist(lib: Libm, p1: XYVector, p2: XYVector): (r: real)
    ensures Lawful(lib) ==> 0.0 <= r
    ensures Lawful(lib) && p1 == p2 ==> r == 0.0
  {
    var d := p1.Sub(p2);
    SquareNonneg(d.x);
    SquareNonneg(d.y);
    lib.sqrt(Dot(d, d))
  }

  lemma SquareNonneg(a: real)
    ensures 0.0 <= a * a
  {
  }

  lemma {:induction false} DistSymmetric(lib: Libm, p: XYVector, q: XYVector)
    ensures Dist(lib, p, q) == Dist(lib, q, p)
  {
    var d, e := p.Sub(q), q.Sub(p);
    NegSquare(d.x, e.x);
    NegSquare(d.y, e.y);
    assert Dot(d, d) == Dot(e, e);
  }

  lemma NegSquare(a: real, b: real)
    requires b == -a
    ensures b * b == a * a
  {
  }

  /** Moving both points by the same offset does not change their distance. */
  lemma DistTranslate(lib: Libm, p: XYVector, q: XYVector, d: XYVector)
    ensures Dist(lib, p.Add(d), q.Add(d)) == Dist(lib, p, q)
  {
    assert p.Add(d).Sub(q.Add(d)) == p.Sub(q);
  }

  /** heading: the bearing of tgt seen from src, atan2(dy, dx). */
  function Heading(lib: Libm, src: XYVector, tgt: XYVector): (r: real) {
    lib.atan2(tgt.y - src.y, tgt.x - src.x)
  }

  /** The bearing depends only on the vector from src to tgt. */
  lemma HeadingTranslate(lib: Libm, src: XYVector, tgt: XYVector, d: XYVector)
    ensures Heading(lib, src.Add(d), tgt.Add(d)) == Heading(lib, src, tgt)
  {
    assert tgt.Add(d).y - src.Add(d).y == tgt.y - src.y;
    assert tgt.Add(d).x - src.Add(d).x == tgt.x - src.x;
  }

  /** Truncation toward zero, as C's fmod uses for the quotient. */
  function Trunc(v: real): (t: int)
    ensures 0.0 <= v ==> t as real <= v < t as real + 1.0
    ensures v < 0.0 ==> t as real - 1.0 < v <= t as real
  {
    if v >= 0.0 then v.Floor else -((-v).Floor)
  }

  /** C's fmod for a positive modulus: the remainder of a / m with the
      quotient truncated toward zero, so it has the sign of a. */
  function Fmod(a: real, m: real): (r: real)
    requires 0.0 < m
    ensures 0.0 <= a ==> 0.0 <= r < m
    ensures a < 0.0 ==> -m < r <= 0.0
    ensures r == a - m * (Trunc(a / m) as real)
  {
    RemainderBounds(a, m);
    a - m * (Trunc(a / m) as real)
  }

  lemma RemainderBounds(a: real, m: real)
    requires 0.0 < m
    ensures 0.0 <= a ==> 0.0 <= a - m * (Trunc(a / m) as real) < m
    ensures a < 0.0 ==> -m < a - m * (Trunc(a / m) as real) <= 0.0
  {
    QuotientRemainder(a, m, a / m, Trunc(a / m) as real);
  }

  /** With a = m * q, the remainder a - m * t is m times the fractional gap q - t. */
  lemma QuotientRemainder(a: real, m: real, q: real, t: real)
    requires 0.0 < m && a == m * q
    ensures 0.0 <= q - t < 1.0 ==> 0.0 <= a - m * t < m
    ensures 0.0 <= t - q < 1.0 ==> -m < a - m * t <= 0.0
  {
    if 0.0 <= q - t < 1.0 {
      RemainderAbove(a, m, q, t);
    }
    if 0.0 <= t - q < 1.0 {
      RemainderAbove(-a, m, -q, -t);
    }
  }

  lemma RemainderAbove(a: real, m: real, q: real, t: real)
    requires 0.0 < m && a == m * q
    requires 0.0 <= q - t < 1.0
    ensures 0.0 <= a - m * t < m
  {
    var f := q - t;
    var p := m * f;
    ScaledFraction(m, f);
    assert p < m;
    assert p == m * q - m * t;
  }

  /** A fraction of a positive modulus lies below the modulus. */
  lemma ScaledFraction(m: real, f: real)
    requires 0.0 < m && 0.0 <= f < 1.0
    ensures 0.0 <= m * f < m
  {
    MulNonneg(m, f);
    MulPos(m, 1.0 - f);
    assert m * (1.0 - f) == m - m * f;
  }

  lemma MulNonneg(a: real, b: real)
    requires 0.0 <= a && 0.0 <= b
    ensures 0.0 <= a * b
  {
  }

  lemma MulPos(a: real, b: real)
    requires 0.0 < a && 0.0 < b
    ensures 0.0 < a * b
  {
  }

  /** The remainder fmod(a, 2 * PI) differs from a by whole turns. */
  lemma FmodByTurn(a: real)
    ensures Fmod(a, PI * 2.0) == a + Turn(-Trunc(a / (PI * 2.0)))
  {
    var t := Trunc(a / (PI * 2.0));
    assert (PI * 2.0) * (t as real) == 2.0 * PI * (t as real);
    assert Turn(-t) == -(2.0 * PI * (t as real));
  }

  /** limit_angle: wraps an angle into [-PI, PI). */
  function LimitAngle(angle: real): (r: real)
    ensures -PI <= r < PI
  {
    var result := Fmod(angle + PI, PI * 2.0);
    if result >= 0.0 then result - PI else result + PI
  }

  /** limit_angle changes an angle by whole turns only. */
  lemma LimitAngleTurns(angle: real)
    ensures exists k :: LimitAngle(angle) == angle + Turn(k)
  {
    var result := Fmod(angle + PI, PI * 2.0);
    FmodByTurn(angle + PI);
    var t := Trunc((angle + PI) / (PI * 2.0));
    if result >= 0.0 {
      assert LimitAngle(angle) == angle + Turn(-t);
    } else {
      assert Turn(1 - t) == Turn(-t) + 2.0 * PI;
      assert LimitAngle(angle) == angle + Turn(1 - t);
    }
  }

  lemma TurnAdd(j: int, k: int)
    ensures Turn(j) + Turn(k) == Turn(j + k)
  {
  }

  lemma TurnSub(j: int, k: int)
    ensures Turn(j) - Turn(k) == Turn(j - k)
  {
    TurnAdd(j - k, k);
  }

  /** Two angles in [-PI, PI) that differ by whole turns are equal. */
  lemma {:induction false} UniqueInTurn(a: real, b: real, k: int)
    requires -PI <= a < PI && -PI <= b < PI
    requires a == b + Turn(k)
    ensures k == 0 && a == b
  {
    if k >= 1 {
      MulNonneg(2.0 * PI, (k - 1) as real);
    } else if k <= -1 {
      MulNonneg(2.0 * PI, (-k - 1) as real);
    }
  }

  /** An angle already in [-PI, PI) is left as it is. */
  lemma {:induction false} LimitAngleFixed(a: real)
    requires -PI <= a < PI
    ensures LimitAngle(a) == a
  {
    LimitAngleTurns(a);
    var k :| LimitAngle(a) == a + Turn(k);
    UniqueInTurn(LimitAngle(a), a, k);
  }

  /** Adding whole turns to an angle does not change its wrapped value. */
  lemma {:induction false} LimitAnglePeriodic(a: real, n: int)
    ensures LimitAngle(a + Turn(n)) == LimitAngle(a)
  {
    LimitAngleTurns(a + Turn(n));
    LimitAngleTurns(a);
    var j :| LimitAngle(a + Turn(n)) == a + Turn(n) + Turn(j);
    var k :| LimitAngle(a) == a + Turn(k);
    TurnAdd(n, j);
    TurnSub(n + j, k);
    assert LimitAngle(a + Turn(n)) - LimitAngle(a) == Turn(n + j) - Turn(k);
    UniqueInTurn(LimitAngle(a + Turn(n)), LimitAngle(a), n + j - k);
  }

  /** Wrapping twice is wrapping once. */
  lemma LimitAngleIdempotent(a: real)
    ensures LimitAngle(LimitAngle(a)) == LimitAngle(a)
  {
    LimitAngleFixed(LimitAngle(a));
  }

  /** The interval is closed at -PI and open at PI: both ends map to -PI,
      since an exact zero remainder takes the `result >= 0` branch. */
  lemma {:induction false} LimitAngleBoundary()
    ensures LimitAngle(PI) == -PI
    ensures LimitAngle(-PI) == -PI
  {
    LimitAngleFixed(-PI);
    LimitAnglePeriodic(-PI, 1);
    assert -PI + Turn(1) == PI;
  }
}
