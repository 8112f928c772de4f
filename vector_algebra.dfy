/** Thor's vector algebra on `sf::Vector2<T>` and `sf::Vector3<T>`. Coordinates of floating-point
    vectors are real numbers, those of integer vectors mathematical integers; the functions that
    need square roots or trigonometry are outside this model, their non-zero preconditions are
    stated by `NonZero`. */
module VectorAlgebra {

  datatype Vector2 = Vector2(x: real, y: real)
  datatype Vector3 = Vector3(x: real, y: real, z: real)
  /** `sf::Vector2i`. */
  datatype Vector2i = Vector2i(x: int, y: int)
  /** `sf::Vector3i`. */
  datatype Vector3i = Vector3i(x: int, y: int, z: int)

  /** The default-constructed vector `sf::Vector2<T>()`. */
  const Zero2 := Vector2(0.0, 0.0)
  const Zero3 := Vector3(0.0, 0.0, 0.0)

  /** `vector != sf::Vector2<T>()`, the precondition of `SetLength`, `UnitVector`, `PolarAngle`
      and `Angle`. */
  predicate NonZero(v: Vector2)
  {
    v != Zero2
  }

  /** `vector != sf::Vector3<T>()`, the precondition of the 3D `UnitVector`, `PolarAngle` and
      `ElevationAngle`. */
  predicate NonZero3(v: Vector3)
  {
    v != Zero3
  }

  /** SFML's vector operators `+`, `*` (by a scalar) and unary `-`. */
  function Add(a: Vector2, b: Vector2): Vector2
  {
    Vector2(a.x + b.x, a.y + b.y)
  }

  function Scale(s: real, v: Vector2): Vector2
  {
    Vector2(s * v.x, s * v.y)
  }

  function Negate(v: Vector2): Vector2
  {
    Vector2(-v.x, -v.y)
  }

  // ---------------------------------------------------------------------------------------------
  // 2D

  /** `DotProduct(lhs, rhs)`. */
  function DotProduct(lhs: Vector2, rhs: Vector2): real
  {
    lhs.x * rhs.x + lhs.y * rhs.y
  }

  /** `CrossProduct(lhs, rhs)` of 2D vectors: a 3D vector along the z axis. */
  function CrossProduct(lhs: Vector2, rhs: Vector2): (c: Vector3)
    ensures c.x == 0.0 && c.y == 0.0
  {
    Vector3(0.0, 0.0, lhs.x * rhs.y - lhs.y * rhs.x)
  }

  /** `SquaredLength(v)`, the dot product of the vector with itself: never negative. */
  function SquaredLength(v: Vector2): (l: real)
    ensures l >= 0.0
  {
    SquareSign(v.x);
    SquareSign(v.y);
    DotProduct(v, v)
  }

  /** The squared length is zero exactly for the zero vector. */
  lemma SquaredLengthZero(v: Vector2)
    ensures NonZero(v) ==> SquaredLength(v) > 0.0
    ensures !NonZero(v) ==> SquaredLength(v) == 0.0
  {
    if NonZero(v) {
      calc {
        SquaredLength(v);
      ==
        v.x * v.x + v.y * v.y;
      > { assert v.x != 0.0 || v.y != 0.0; SumOfSquares(v.x, v.y, 0.0); }
        0.0;
      }
    }
  }

  /** A square is never negative, and positive for a number other than zero. */
  lemma SquareSign(r: real)
    ensures r * r >= 0.0
    ensures r != 0.0 ==> r * r > 0.0
  {
    if r < 0.0 {
      assert r * r == (-r) * (-r);
    }
  }

  /** A sum of squares is never negative, and positive unless every term is zero. */
  lemma SumOfSquares(a: real, b: real, c: real)
    ensures a * a + b * b >= 0.0 && a * a + b * b + c * c >= 0.0
    ensures a != 0.0 || b != 0.0 ==> a * a + b * b > 0.0
    ensures a != 0.0 || b != 0.0 || c != 0.0 ==> a * a + b * b + c * c > 0.0
    ensures a == 0.0 && b == 0.0 ==> a * a + b * b == 0.0
    ensures a == 0.0 && b == 0.0 && c == 0.0 ==> a * a + b * b + c * c == 0.0
  {
    SquareSign(a);
    SquareSign(b);
    SquareSign(c);
    if a != 0.0 {
      assert a * a > 0.0;
    } else if b != 0.0 {
      assert b * b > 0.0;
    } else if c != 0.0 {
      assert c * c > 0.0;
    }
  }

  /** `PerpendicularVector(v)`: the vector turned by +90 degrees. */
  function PerpendicularVector(v: Vector2): Vector2
  {
    Vector2(-v.y, v.x)
  }

  /** The perpendicular vector is orthogonal to the vector, as long as it, and turned to its left
      (the cross product is positive for a non-zero vector). */
  lemma PerpendicularProperties(v: Vector2)
    ensures DotProduct(v, PerpendicularVector(v)) == 0.0
    ensures SquaredLength(PerpendicularVector(v)) == SquaredLength(v)
    ensures CrossProduct(v, PerpendicularVector(v)).z == SquaredLength(v)
  {
    var p := PerpendicularVector(v);
    assert p.x * p.x == v.y * v.y by {
      assert p.x == -v.y;
    }
    assert p.y * p.y == v.x * v.x;
    assert v.x * p.y == v.x * v.x;
    assert v.y * p.x == -(v.y * v.y);
    assert v.x * p.x == -(v.x * v.y);
    assert v.y * p.y == v.x * v.y;
  }

  /** Turning twice by 90 degrees reverses the vector; four times gives it back. */
  lemma PerpendicularTwice(v: Vector2)
    ensures PerpendicularVector(PerpendicularVector(v)) == Negate(v)
    ensures PerpendicularVector(PerpendicularVector(PerpendicularVector(PerpendicularVector(v)))) == v
  {
  }

  /** The dot product is symmetric, the 2D cross product anti-symmetric. */
  lemma ProductSymmetry(a: Vector2, b: Vector2)
    ensures DotProduct(a, b) == DotProduct(b, a)
    ensures CrossProduct(a, b).z == -CrossProduct(b, a).z
  {
  }

  /** The dot product is linear in its first argument (and so, by symmetry, in its second). */
  lemma DotProductLinear(a: Vector2, b: Vector2, c: Vector2, s: real)
    ensures DotProduct(Add(a, b), c) == DotProduct(a, c) + DotProduct(b, c)
    ensures DotProduct(Scale(s, a), c) == s * DotProduct(a, c)
  {
  }

  /** A vector's cross product with itself vanishes. */
  lemma CrossProductSelf(v: Vector2)
    ensures CrossProduct(v, v) == Zero3
  {
  }

  /** `ComponentwiseProduct(lhs, rhs)`: `(lhs.x*rhs.x, lhs.y*rhs.y)`. */
  function ComponentwiseProduct(lhs: Vector2, rhs: Vector2): Vector2
  {
    Vector2(lhs.x * rhs.x, lhs.y * rhs.y)
  }

  /** `ComponentwiseQuotient(lhs, rhs)`, for a divisor without zero component: the inverse of the
      componentwise product with `rhs`. */
  function ComponentwiseQuotient(lhs: Vector2, rhs: Vector2): (q: Vector2)
    requires rhs.x != 0.0 && rhs.y != 0.0
    ensures ComponentwiseProduct(q, rhs) == lhs
  {
    Vector2(lhs.x / rhs.x, lhs.y / rhs.y)
  }

  /** The componentwise product is symmetric, and dividing it by one of its factors gives the
      other one back. */
  lemma QuotientUndoesProduct(lhs: Vector2, rhs: Vector2)
    requires rhs.x != 0.0 && rhs.y != 0.0
    ensures ComponentwiseProduct(lhs, rhs) == ComponentwiseProduct(rhs, lhs)
    ensures ComponentwiseQuotient(ComponentwiseProduct(lhs, rhs), rhs) == lhs
  {
  }

  /** `q` is the C++ integer quotient `a / b`: what is left over, `a - q * b`, has the sign of the
      dividend (or is zero) and is smaller than the divisor in magnitude. */
  predicate IsTruncatedQuotient(a: int, b: int, q: int)
  {
    var r := a - q * b;
    (0 <= a ==> 0 <= r && (r < b || r < -b)) &&
    (a < 0 ==> r <= 0 && (-b < r || b < r))
  }

  /** C++ `/` on integers: the quotient truncated toward zero. Dafny's own `/` rounds toward minus
      infinity for a positive divisor instead, so the cases are written out. */
  function TruncatedDivision(a: int, b: int): (q: int)
    requires b != 0
    ensures IsTruncatedQuotient(a, b, q)
  {
    if b > 0 then
      (if a >= 0 then NaturalQuotient(a, b); a / b
       else NaturalQuotient(-a, b); -((-a) / b))
    else
      (if a >= 0 then NaturalQuotient(a, -b); -(a / (-b))
       else NaturalQuotient(-a, -b); (-a) / (-b))
  }

  /** For a non-negative dividend and a positive divisor, Dafny's `/` leaves a remainder in
      `[0, b)`. */
  lemma NaturalQuotient(a: int, b: int)
    requires 0 <= a && 0 < b
    ensures 0 <= a - (a / b) * b < b
    ensures 0 <= a - (-(a / b)) * (-b) < b
    ensures -b < -a - (-(a / b)) * b <= 0
    ensures -b < -a - (a / b) * (-b) <= 0
  {
    assert a == (a / b) * b + a % b;
    assert (-(a / b)) * (-b) == (a / b) * b;
    assert (-(a / b)) * b == -((a / b) * b);
    assert (a / b) * (-b) == -((a / b) * b);
  }

  /** A factor of at least one does not shrink a non-negative number. */
  lemma {:induction false} ProductAtLeast(x: int, y: int)
    requires 1 <= x && 0 <= y
    ensures y <= x * y
    decreases x
  {
    if x > 1 {
      ProductAtLeast(x - 1, y);
      assert x * y == (x - 1) * y + y;
    }
  }

  /** A non-zero multiple of `b` is at least `b` in magnitude. */
  lemma MultipleAtLeast(d: int, b: int)
    requires d != 0 && b != 0
    ensures d * b >= b || d * b <= -b
    ensures d * b >= -b || d * b <= b
  {
    if d > 0 && b > 0 {
      ProductAtLeast(d, b);
    } else if d > 0 {
      ProductAtLeast(d, -b);
      assert d * (-b) == -(d * b);
    } else if b > 0 {
      ProductAtLeast(-d, b);
      assert (-d) * b == -(d * b);
    } else {
      ProductAtLeast(-d, -b);
      assert (-d) * (-b) == d * b;
    }
  }

  /** The remainder bounds determine the truncated quotient: no other integer meets them. */
  lemma TruncatedDivisionUnique(a: int, b: int, q: int)
    requires b != 0 && IsTruncatedQuotient(a, b, q)
    ensures q == TruncatedDivision(a, b)
  {
    var t := TruncatedDivision(a, b);
    var d := t - q;
    var rq, rt := a - q * b, a - t * b;
    // The two remainders lie on the same side of zero, closer than |b|, and differ by d * b.
    assert rq - rt == d * b by {
      assert t * b == q * b + d * b;
    }
    if d != 0 {
      MultipleAtLeast(d, b);
    }
  }

  /** Dividing a multiple of `b` by `b` is exact; other dividends lose their remainder, and a
      negative quotient is rounded up, not down: `1 / 2 == 0` and `-7 / 2 == -3`. */
  lemma TruncatedDivisionExamples(a: int, b: int)
    requires b != 0
    ensures TruncatedDivision(a * b, b) == a
    ensures TruncatedDivision(1, 2) == 0 && TruncatedDivision(-7, 2) == -3
  {
    assert a * b - a * b == 0;
    TruncatedDivisionUnique(a * b, b, a);
    TruncatedDivisionUnique(-7, 2, -3);
  }

  /** `ComponentwiseProduct` of `sf::Vector2i`. */
  function ComponentwiseProductInt(lhs: Vector2i, rhs: Vector2i): Vector2i
  {
    Vector2i(lhs.x * rhs.x, lhs.y * rhs.y)
  }

  /** `ComponentwiseQuotient` of `sf::Vector2i`, for a divisor without zero component: each
      coordinate divided with truncation toward zero. */
  function ComponentwiseQuotientInt(lhs: Vector2i, rhs: Vector2i): (q: Vector2i)
    requires rhs.x != 0 && rhs.y != 0
    ensures IsTruncatedQuotient(lhs.x, rhs.x, q.x) && IsTruncatedQuotient(lhs.y, rhs.y, q.y)
  {
    Vector2i(TruncatedDivision(lhs.x, rhs.x), TruncatedDivision(lhs.y, rhs.y))
  }

  /** For integer vectors, dividing a componentwise product by one factor gives the other one
      back, but multiplying a quotient back need not give the dividend: `(1, 1) / (2, 2)` is
      `(0, 0)`. */
  lemma IntQuotientRoundTrips(lhs: Vector2i, rhs: Vector2i)
    requires rhs.x != 0 && rhs.y != 0
    ensures ComponentwiseQuotientInt(ComponentwiseProductInt(lhs, rhs), rhs) == lhs
    ensures ComponentwiseQuotientInt(Vector2i(1, 1), Vector2i(2, 2)) == Vector2i(0, 0)
    ensures ComponentwiseProductInt(ComponentwiseQuotientInt(Vector2i(1, 1), Vector2i(2, 2)), Vector2i(2, 2)) != Vector2i(1, 1)
  {
    TruncatedDivisionExamples(lhs.x, rhs.x);
    TruncatedDivisionExamples(lhs.y, rhs.y);
  }

  /** `static_cast` from a floating-point type to an integer type: truncation toward zero. */
  function Truncate(r: real): (t: int)
    ensures t as real <= r < t as real + 1.0 || t as real - 1.0 < r <= t as real
    ensures r >= 0.0 ==> 0.0 <= t as real <= r
    ensures r <= 0.0 ==> r <= t as real <= 0.0
  {
    if r >= 0.0 then r.Floor else -((-r).Floor)
  }

  /** `ConvertVector<int>(v)`: every coordinate truncated toward zero on its own. */
  function ConvertToInt(v: Vector2): (w: Vector2i)
    ensures w.x == Truncate(v.x) && w.y == Truncate(v.y)
  {
    Vector2i(Truncate(v.x), Truncate(v.y))
  }

  /** `ConvertVector<float>(v)` of an integer vector: exact. */
  function ConvertToReal(v: Vector2i): (w: Vector2)
    ensures w.x == v.x as real && w.y == v.y as real
  {
    Vector2(v.x as real, v.y as real)
  }

  /** Converting a whole number to floating point and truncating it gives it back. */
  lemma TruncateWhole(i: int)
    ensures Truncate(i as real) == i
  {
    if i < 0 {
      assert -(i as real) == (-i) as real;
    }
  }

  /** Converting an integer vector to floating point and back gives it back. */
  lemma ConvertRoundTrip(v: Vector2i)
    ensures ConvertToInt(ConvertToReal(v)) == v
  {
    TruncateWhole(v.x);
    TruncateWhole(v.y);
  }

  // ---------------------------------------------------------------------------------------------
  // 3D

  /** `DotProduct` of 3D vectors. */
  function DotProduct3(lhs: Vector3, rhs: Vector3): real
  {
    lhs.x * rhs.x + lhs.y * rhs.y + lhs.z * rhs.z
  }

  /** `CrossProduct` of 3D vectors, the right-handed cross product. */
  function CrossProduct3(lhs: Vector3, rhs: Vector3): Vector3
  {
    Vector3(lhs.y * rhs.z - lhs.z * rhs.y, lhs.z * rhs.x - lhs.x * rhs.z, lhs.x * rhs.y - lhs.y * rhs.x)
  }

  /** The 3D dot product is symmetric, the cross product anti-symmetric, and the componentwise
      product symmetric. */
  lemma ProductSymmetry3(a: Vector3, b: Vector3)
    ensures DotProduct3(a, b) == DotProduct3(b, a)
    ensures var c, d := CrossProduct3(a, b), CrossProduct3(b, a); c.x == -d.x && c.y == -d.y && c.z == -d.z
    ensures ComponentwiseProduct3(a, b) == ComponentwiseProduct3(b, a)
  {
  }

  /** The 3D cross product is orthogonal to both factors. */
  lemma CrossProductOrthogonal(a: Vector3, b: Vector3)
    ensures DotProduct3(CrossProduct3(a, b), a) == 0.0
    ensures DotProduct3(CrossProduct3(a, b), b) == 0.0
  {
    assert DotProduct3(CrossProduct3(a, b), a) ==
      (a.y * b.z * a.x - a.z * b.y * a.x) + (a.z * b.x * a.y - a.x * b.z * a.y) + (a.x * b.y * a.z - a.y * b.x * a.z);
    assert DotProduct3(CrossProduct3(a, b), b) ==
      (a.y * b.z * b.x - a.z * b.y * b.x) + (a.z * b.x * b.y - a.x * b.z * b.y) + (a.x * b.y * b.z - a.y * b.x * b.z);
  }

  /** `SquaredLength` of a 3D vector: never negative. */
  function SquaredLength3(v: Vector3): (l: real)
    ensures l >= 0.0
  {
    SquareSign(v.x);
    SquareSign(v.y);
    SquareSign(v.z);
    DotProduct3(v, v)
  }

  /** The squared length of a 3D vector is zero exactly for the zero vector. */
  lemma SquaredLengthZero3(v: Vector3)
    ensures NonZero3(v) ==> SquaredLength3(v) > 0.0
    ensures !NonZero3(v) ==> SquaredLength3(v) == 0.0
  {
    if NonZero3(v) {
      calc {
        SquaredLength3(v);
      ==
        v.x * v.x + v.y * v.y + v.z * v.z;
      > { assert v.x != 0.0 || v.y != 0.0 || v.z != 0.0; SumOfSquares(v.x, v.y, v.z); }
        0.0;
      }
    }
  }

  /** `ComponentwiseProduct` of 3D vectors: `(lhs.x*rhs.x, lhs.y*rhs.y, lhs.z*rhs.z)`. */
  function ComponentwiseProduct3(lhs: Vector3, rhs: Vector3): Vector3
  {
    Vector3(lhs.x * rhs.x, lhs.y * rhs.y, lhs.z * rhs.z)
  }

  /** `ComponentwiseQuotient` of 3D vectors, for a divisor without zero component: the inverse of
      the componentwise product with `rhs`. */
  function ComponentwiseQuotient3(lhs: Vector3, rhs: Vector3): (q: Vector3)
    requires rhs.x != 0.0 && rhs.y != 0.0 && rhs.z != 0.0
    ensures ComponentwiseProduct3(q, rhs) == lhs
  {
    Vector3(lhs.x / rhs.x, lhs.y / rhs.y, lhs.z / rhs.z)
  }

  /** `ComponentwiseProduct` of `sf::Vector3i`. */
  function ComponentwiseProduct3i(lhs: Vector3i, rhs: Vector3i): Vector3i
  {
    Vector3i(lhs.x * rhs.x, lhs.y * rhs.y, lhs.z * rhs.z)
  }

  /** `ComponentwiseQuotient` of `sf::Vector3i`: each coordinate divided with truncation toward
      zero. */
  function ComponentwiseQuotient3i(lhs: Vector3i, rhs: Vector3i): (q: Vector3i)
    requires rhs.x != 0 && rhs.y != 0 && rhs.z != 0
    ensures IsTruncatedQuotient(lhs.x, rhs.x, q.x) && IsTruncatedQuotient(lhs.y, rhs.y, q.y)
    ensures IsTruncatedQuotient(lhs.z, rhs.z, q.z)
  {
    Vector3i(TruncatedDivision(lhs.x, rhs.x), TruncatedDivision(lhs.y, rhs.y), TruncatedDivision(lhs.z, rhs.z))
  }

  /** Dividing an integer componentwise product by one factor gives the other one back. */
  lemma IntQuotientRoundTrips3(lhs: Vector3i, rhs: Vector3i)
    requires rhs.x != 0 && rhs.y != 0 && rhs.z != 0
    ensures ComponentwiseQuotient3i(ComponentwiseProduct3i(lhs, rhs), rhs) == lhs
  {
    TruncatedDivisionExamples(lhs.x, rhs.x);
    TruncatedDivisionExamples(lhs.y, rhs.y);
    TruncatedDivisionExamples(lhs.z, rhs.z);
  }

  /** `ToVector3(v)`: x and y kept, z zero. The 2D dot and cross products are those of the
      embedded vectors. */
  function ToVector3(v: Vector2): (w: Vector3)
    ensures w.x == v.x && w.y == v.y && w.z == 0.0
  {
    Vector3(v.x, v.y, 0.0)
  }

  lemma EmbeddingKeepsProducts(a: Vector2, b: Vector2)
    ensures DotProduct3(ToVector3(a), ToVector3(b)) == DotProduct(a, b)
    ensures CrossProduct3(ToVector3(a), ToVector3(b)) == CrossProduct(a, b)
    ensures SquaredLength3(ToVector3(a)) == SquaredLength(a)
  {
  }

  /** `ConvertVector<int>` of a 3D vector: every coordinate truncated toward zero on its own. */
  function ConvertToInt3(v: Vector3): (w: Vector3i)
    ensures w.x == Truncate(v.x) && w.y == Truncate(v.y) && w.z == Truncate(v.z)
  {
    Vector3i(Truncate(v.x), Truncate(v.y), Truncate(v.z))
  }

  /** `ConvertVector<float>` of an integer 3D vector: exact. */
  function ConvertToReal3(v: Vector3i): (w: Vector3)
    ensures w.x == v.x as real && w.y == v.y as real && w.z == v.z as real
  {
    Vector3(v.x as real, v.y as real, v.z as real)
  }

  /** Converting an integer 3D vector to floating point and back gives it back. */
  lemma ConvertRoundTrip3(v: Vector3i)
    ensures ConvertToInt3(ConvertToReal3(v)) == v
  {
    TruncateWhole(v.x);
    TruncateWhole(v.y);
    TruncateWhole(v.z);
  }
}
