/**
 * Points, 4x4 matrices and the operations the inverter uses on them: point
 * difference and sum, a direction vector times a matrix, the matrix product
 * and the matrix inverse. Coordinates are exact reals; the host's double
 * precision arithmetic is not modelled.
 */
module Geometry {

  /** A position (w = 1) or a direction (w = 0) in object space; the homogeneous
      weight is implied by how the value is used. */
  datatype Point = Point(x: real, y: real, z: real)

  /** p - q: the direction from q to p. */
  function Sub(p: Point, q: Point): (d: Point)
    ensures Add(q, d) == p
  {
    Point(p.x - q.x, p.y - q.y, p.z - q.z)
  }

  /** p + d: the position p moved along the direction d. */
  function Add(p: Point, d: Point): Point
  {
    Point(p.x + d.x, p.y + d.y, p.z + d.z)
  }

  /** Moving p along d and taking the difference from p gives d back. */
  lemma AddSubRoundTrip(p: Point, d: Point)
    ensures Sub(Add(p, d), p) == d
  {
  }

  datatype Row = Row(c0: real, c1: real, c2: real, c3: real)

  /** A 4x4 matrix, stored row by row. Points are row vectors multiplied on the
      left, so rows 0-2 hold the images of the unit axes and row 3 the translation. */
  datatype Matrix = Matrix(r0: Row, r1: Row, r2: Row, r3: Row)

  const Identity: Matrix :=
    Matrix(Row(1.0, 0.0, 0.0, 0.0), Row(0.0, 1.0, 0.0, 0.0),
           Row(0.0, 0.0, 1.0, 0.0), Row(0.0, 0.0, 0.0, 1.0))

  function Dot(a: Row, b: Row): real
  {
    a.c0 * b.c0 + a.c1 * b.c1 + a.c2 * b.c2 + a.c3 * b.c3
  }

  function Col(m: Matrix, j: nat): Row
    requires j < 4
  {
    match j
    case 0 => Row(m.r0.c0, m.r1.c0, m.r2.c0, m.r3.c0)
    case 1 => Row(m.r0.c1, m.r1.c1, m.r2.c1, m.r3.c1)
    case 2 => Row(m.r0.c2, m.r1.c2, m.r2.c2, m.r3.c2)
    case 3 => Row(m.r0.c3, m.r1.c3, m.r2.c3, m.r3.c3)
  }

  /** The row vector r times the matrix m. */
  function RowTimes(r: Row, m: Matrix): Row
  {
    Row(Dot(r, Col(m, 0)), Dot(r, Col(m, 1)), Dot(r, Col(m, 2)), Dot(r, Col(m, 3)))
  }

  function Mul(a: Matrix, b: Matrix): Matrix
  {
    Matrix(RowTimes(a.r0, b), RowTimes(a.r1, b), RowTimes(a.r2, b), RowTimes(a.r3, b))
  }

  /** The first three entries of a row, as a direction. */
  function RowPart(r: Row): Point
  {
    Point(r.c0, r.c1, r.c2)
  }

  function Scale(s: real, p: Point): Point
  {
    Point(s * p.x, s * p.y, s * p.z)
  }

  /** A direction times a matrix: the vector is the row (x, y, z, 0), and the
      result keeps the first three columns (no homogeneous divide). So the result
      is the combination of rows 0-2 weighted by x, y and z, and row 3 (the
      translation) and column 3 of m play no part. */
  function VecMul(v: Point, m: Matrix): (r: Point)
    ensures r == Add(Add(Scale(v.x, RowPart(m.r0)), Scale(v.y, RowPart(m.r1))), Scale(v.z, RowPart(m.r2)))
  {
    var h := RowTimes(Row(v.x, v.y, v.z, 0.0), m);
    Point(h.c0, h.c1, h.c2)
  }

  /** The identity matrix leaves every direction unchanged. */
  lemma VecMulIdentity(v: Point)
    ensures VecMul(v, Identity) == v
  {
  }

  function RowScale(s: real, r: Row): Row
  {
    Row(s * r.c0, s * r.c1, s * r.c2, s * r.c3)
  }

  function RowSum(r: Row, q: Row): Row
  {
    Row(r.c0 + q.c0, r.c1 + q.c1, r.c2 + q.c2, r.c3 + q.c3)
  }

  /** A row times a matrix is the combination of the matrix's rows weighted by the row's entries. */
  lemma RowTimesCombination(a: Row, b: Matrix)
    ensures RowTimes(a, b) ==
      RowSum(RowSum(RowSum(RowScale(a.c0, b.r0), RowScale(a.c1, b.r1)), RowScale(a.c2, b.r2)), RowScale(a.c3, b.r3))
  {
    assert Col(b, 0) == Row(b.r0.c0, b.r1.c0, b.r2.c0, b.r3.c0);
    assert Col(b, 1) == Row(b.r0.c1, b.r1.c1, b.r2.c1, b.r3.c1);
    assert Col(b, 2) == Row(b.r0.c2, b.r1.c2, b.r2.c2, b.r3.c2);
    assert Col(b, 3) == Row(b.r0.c3, b.r1.c3, b.r2.c3, b.r3.c3);
  }

  lemma DotSum(r: Row, q: Row, c: Row)
    ensures Dot(RowSum(r, q), c) == Dot(r, c) + Dot(q, c)
  {
  }

  lemma DotScale(s: real, r: Row, c: Row)
    ensures Dot(RowScale(s, r), c) == s * Dot(r, c)
  {
  }

  /** Swapping the order of summation in (a * b) . c; the step behind associativity. */
  lemma DotSwap(a: Row, b: Matrix, c: Row)
    ensures Dot(RowTimes(a, b), c) == Dot(a, Row(Dot(b.r0, c), Dot(b.r1, c), Dot(b.r2, c), Dot(b.r3, c)))
  {
    var s0, s1, s2, s3 := RowScale(a.c0, b.r0), RowScale(a.c1, b.r1), RowScale(a.c2, b.r2), RowScale(a.c3, b.r3);
    RowTimesCombination(a, b);
    DotSum(RowSum(RowSum(s0, s1), s2), s3, c);
    DotSum(RowSum(s0, s1), s2, c);
    DotSum(s0, s1, c);
    DotScale(a.c0, b.r0, c);
    DotScale(a.c1, b.r1, c);
    DotScale(a.c2, b.r2, c);
    DotScale(a.c3, b.r3, c);
  }

  lemma RowTimesAssoc(r: Row, b: Matrix, c: Matrix)
    ensures RowTimes(RowTimes(r, b), c) == RowTimes(r, Mul(b, c))
  {
    DotSwap(r, b, Col(c, 0));
    DotSwap(r, b, Col(c, 1));
    DotSwap(r, b, Col(c, 2));
    DotSwap(r, b, Col(c, 3));
  }

  /** The matrix product is associative. */
  lemma MulAssoc(a: Matrix, b: Matrix, c: Matrix)
    ensures Mul(Mul(a, b), c) == Mul(a, Mul(b, c))
  {
    RowTimesAssoc(a.r0, b, c);
    RowTimesAssoc(a.r1, b, c);
    RowTimesAssoc(a.r2, b, c);
    RowTimesAssoc(a.r3, b, c);
  }

  lemma MulIdentity(m: Matrix)
    ensures Mul(Identity, m) == m && Mul(m, Identity) == m
  {
  }

  /** n is a two-sided inverse of m. */
  predicate IsInverse(m: Matrix, n: Matrix)
  {
    Mul(m, n) == Identity && Mul(n, m) == Identity
  }

  ghost predicate Invertible(m: Matrix)
  {
    exists n :: IsInverse(m, n)
  }

  /** A matrix has at most one inverse. */
  lemma InverseUnique(m: Matrix, n1: Matrix, n2: Matrix)
    requires IsInverse(m, n1) && IsInverse(m, n2)
    ensures n1 == n2
  {
    calc {
      n1;
      { MulIdentity(n1); }
      Mul(n1, Identity);
      Mul(n1, Mul(m, n2));
      { MulAssoc(n1, m, n2); }
      Mul(Mul(n1, m), n2);
      Mul(Identity, n2);
      { MulIdentity(n2); }
      n2;
    }
  }

  lemma InverseUniqueAll(m: Matrix)
    ensures forall n1, n2 :: IsInverse(m, n1) && IsInverse(m, n2) ==> n1 == n2
  {
    forall n1, n2 | IsInverse(m, n1) && IsInverse(m, n2)
      ensures n1 == n2
    {
      InverseUnique(m, n1, n2);
    }
  }

  /** The inverse of an invertible matrix. How the host computes it numerically
      is not modelled: the result is the exact, unique two-sided inverse, chosen
      by a specification rather than computed, so this function is not
      compilable (no bound for the chosen matrix), and neither are its callers. */
  function Inverse(m: Matrix): (r: Matrix)
    requires Invertible(m)
    ensures Mul(m, r) == Identity && Mul(r, m) == Identity
  {
    InverseUniqueAll(m);
    var n :| IsInverse(m, n);
    n
  }

  /** The column (0, 0, 0, 1): an affine matrix, whose rows 0-2 are directions
      and whose row 3 is a position. */
  const AffineColumn: Row := Row(0.0, 0.0, 0.0, 1.0)

  /** The inverse of an affine matrix is affine. */
  lemma InverseIsAffine(m: Matrix)
    requires Invertible(m) && Col(m, 3) == AffineColumn
    ensures Col(Inverse(m), 3) == AffineColumn
  {
    var n := Inverse(m);
    assert Mul(n, m) == Identity;
    assert Col(Mul(n, m), 3) == Row(n.r0.c3, n.r1.c3, n.r2.c3, n.r3.c3);
  }

  /** For affine m and a right inverse n of m, a direction multiplied by m and then
      by n comes back unchanged: the translation rows play no part. */
  lemma DirectionRoundTrip(m: Matrix, n: Matrix, d: Point)
    requires Mul(m, n) == Identity && Col(m, 3) == AffineColumn
    ensures VecMul(VecMul(d, m), n) == d
  {
    var d4 := Row(d.x, d.y, d.z, 0.0);
    var h := RowTimes(d4, m);
    assert h.c3 == 0.0;
    assert Row(h.c0, h.c1, h.c2, 0.0) == h;
    RowTimesAssoc(d4, m, n);
    assert RowTimes(h, n) == RowTimes(d4, Identity);
  }

  /** The affine matrix that moves positions by t. */
  function Translation(t: Point): Matrix
  {
    Matrix(Row(1.0, 0.0, 0.0, 0.0), Row(0.0, 1.0, 0.0, 0.0), Row(0.0, 0.0, 1.0, 0.0), Row(t.x, t.y, t.z, 1.0))
  }

  lemma RowTimesTranslation(r: Row, t: Point)
    ensures RowTimes(r, Translation(t)) == Row(r.c0 + r.c3 * t.x, r.c1 + r.c3 * t.y, r.c2 + r.c3 * t.z, r.c3)
  {
  }

  /** Translating by t and then by s translates by t + s. */
  lemma TranslationsCompose(t: Point, s: Point)
    ensures Mul(Translation(t), Translation(s)) == Translation(Add(t, s))
  {
    var a := Translation(t);
    RowTimesTranslation(a.r0, s);
    RowTimesTranslation(a.r1, s);
    RowTimesTranslation(a.r2, s);
    RowTimesTranslation(a.r3, s);
  }

  /** A translation is invertible, its inverse is the opposite translation, and
      it leaves directions unchanged. */
  lemma TranslationInverse(t: Point)
    ensures Invertible(Translation(t))
    ensures Inverse(Translation(t)) == Translation(Point(-t.x, -t.y, -t.z))
    ensures forall d :: VecMul(d, Translation(t)) == d
  {
    var back := Point(-t.x, -t.y, -t.z);
    TranslationsCompose(t, back);
    TranslationsCompose(back, t);
    assert Translation(Add(t, back)) == Identity;
    assert Translation(Add(back, t)) == Identity;
    assert IsInverse(Translation(t), Translation(back));
    InverseUnique(Translation(t), Inverse(Translation(t)), Translation(back));
    forall d
      ensures VecMul(d, Translation(t)) == d
    {
      RowTimesTranslation(Row(d.x, d.y, d.z, 0.0), t);
    }
  }
}
