/** The host's numeric library. Trigonometry and square roots are not part of
    this model: they are carried as arbitrary functions, so that everything
    proved about the creature holds whatever values they return. */
module Maths {

  /** `Math.cos`, `Math.sin`, `Math.atan2(y, x)` and `Math.sqrt`. */
  datatype MathLib = MathLib(
    cos: real -> real,
    sin: real -> real,
    atan2: (real, real) -> real,
    sqrt: real -> real)

  /** Square roots of non-negative numbers are non-negative. */
  ghost predicate SqrtNonNeg(m: MathLib)
  {
    forall v :: 0.0 <= v ==> 0.0 <= m.sqrt(v)
  }

  /** Square roots are exact: the root of a non-negative number is
      non-negative and squares back to it. Like `Pythagorean`, a hypothesis
      only. */
  ghost predicate SqrtExact(m: MathLib)
  {
    forall v :: 0.0 <= v ==> 0.0 <= m.sqrt(v) && Sq(m.sqrt(v)) == v
  }

  /** Cosine and sine lie on the unit circle. The model never assumes this;
      the lemmas about lengths take it as a hypothesis. */
  ghost predicate Pythagorean(m: MathLib)
  {
    forall a :: Sq(m.cos(a)) + Sq(m.sin(a)) == 1.0
  }

  /** `v ** 2`. */
  function Sq(v: real): (r: real)
    ensures 0.0 <= r
  {
    v * v
  }

  /** Signs of a product, which the solver does not always find unaided. */
  lemma MulSigns(a: real, b: real)
    ensures 0.0 <= a && 0.0 <= b ==> 0.0 <= a * b
    ensures a <= 0.0 && 0.0 <= b ==> a * b <= 0.0
  {
  }

  /** `Math.max(a, b)`. */
  function Max(a: real, b: real): (r: real)
    ensures a <= r && b <= r
    ensures r == a || r == b
  {
    if a < b then b else a
  }

  /** A point of the plane. */
  datatype Point = Point(x: real, y: real)

  /** `Math.sqrt((p.x - q.x) ** 2 + (p.y - q.y) ** 2)`. */
  function Distance(m: MathLib, p: Point, q: Point): (r: real)
    ensures SqrtNonNeg(m) ==> 0.0 <= r
  {
    m.sqrt(Sq(p.x - q.x) + Sq(p.y - q.y))
  }

  /** On the unit circle, the point `len` along the angle `a` from the origin
      is `len` away from it. */
  lemma PolarLength(m: MathLib, a: real, len: real)
    requires Pythagorean(m)
    ensures Sq(len * m.cos(a)) + Sq(len * m.sin(a)) == Sq(len)
  {
    var c, s := m.cos(a), m.sin(a);
    assert Sq(c) + Sq(s) == 1.0;
    calc {
      Sq(len * c) + Sq(len * s);
      len * len * (c * c + s * s);
      len * len;
    }
  }
}
