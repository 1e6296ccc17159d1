/** The small fixed-size linear algebra the warps use: 3-vectors, 3x3
    matrices, matrix-vector and matrix-matrix products. */
module LinAlg {

  datatype Vec3 = Vec3(x: real, y: real, z: real)

  /** A 3x3 matrix, given by its rows. */
  datatype Mat3 = Mat3(r0: Vec3, r1: Vec3, r2: Vec3)

  function Dot(a: Vec3, b: Vec3): real
  {
    a.x * b.x + a.y * b.y + a.z * b.z
  }

  function Add(a: Vec3, b: Vec3): Vec3
  {
    Vec3(a.x + b.x, a.y + b.y, a.z + b.z)
  }

  function Scale(c: real, a: Vec3): Vec3
  {
    Vec3(c * a.x, c * a.y, c * a.z)
  }

  /** The product `m @ v` of a matrix and a column vector. */
  function MatVec(m: Mat3, v: Vec3): Vec3
  {
    Vec3(Dot(m.r0, v), Dot(m.r1, v), Dot(m.r2, v))
  }

  /** Row vector times matrix: the combination of b's rows weighted by v. */
  function RowTimes(v: Vec3, b: Mat3): Vec3
  {
    Add(Add(Scale(v.x, b.r0), Scale(v.y, b.r1)), Scale(v.z, b.r2))
  }

  /** The product `a @ b`. */
  function MatMul(a: Mat3, b: Mat3): Mat3
  {
    Mat3(RowTimes(a.r0, b), RowTimes(a.r1, b), RowTimes(a.r2, b))
  }

  const Identity: Mat3 := Mat3(Vec3(1.0, 0.0, 0.0), Vec3(0.0, 1.0, 0.0), Vec3(0.0, 0.0, 1.0))

  /** `inv` is the inverse of `m`: each undoes the other on every vector.
      ProductsGiveInverse shows that `m @ inv == I` and `inv @ m == I` give it. */
  ghost predicate IsInverse(m: Mat3, inv: Mat3)
  {
    && (forall v {:trigger MatVec(inv, MatVec(m, v))} :: MatVec(inv, MatVec(m, v)) == v)
    && (forall v {:trigger MatVec(m, MatVec(inv, v))} :: MatVec(m, MatVec(inv, v)) == v)
  }

  lemma MatVecIdentity(v: Vec3)
    ensures MatVec(Identity, v) == v
  {
  }

  /** Applying a product is applying its factors in turn. */
  lemma MatVecMatMul(a: Mat3, b: Mat3, v: Vec3)
    ensures MatVec(MatMul(a, b), v) == MatVec(a, MatVec(b, v))
  {
    RowTimesDot(a.r0, b, v);
    RowTimesDot(a.r1, b, v);
    RowTimesDot(a.r2, b, v);
  }

  lemma RowTimesDot(r: Vec3, b: Mat3, v: Vec3)
    ensures Dot(RowTimes(r, b), v) == Dot(r, MatVec(b, v))
  {
    var p, q, s := b.r0, b.r1, b.r2;
    calc {
      Dot(RowTimes(r, b), v);
      (r.x * p.x + r.y * q.x + r.z * s.x) * v.x
        + (r.x * p.y + r.y * q.y + r.z * s.y) * v.y
        + (r.x * p.z + r.y * q.z + r.z * s.z) * v.z;
      r.x * (p.x * v.x + p.y * v.y + p.z * v.z)
        + r.y * (q.x * v.x + q.y * v.y + q.z * v.z)
        + r.z * (s.x * v.x + s.y * v.y + s.z * v.z);
      Dot(r, MatVec(b, v));
    }
  }

  /** A matrix whose products with `inv` in both orders are the identity has
      `inv` as its inverse. */
  lemma ProductsGiveInverse(m: Mat3, inv: Mat3)
    requires MatMul(m, inv) == Identity && MatMul(inv, m) == Identity
    ensures IsInverse(m, inv)
  {
    forall v
      ensures MatVec(inv, MatVec(m, v)) == v && MatVec(m, MatVec(inv, v)) == v
    {
      MatVecMatMul(inv, m, v);
      MatVecMatMul(m, inv, v);
      MatVecIdentity(v);
    }
  }

  /** Matrix application is linear in the vector. */
  lemma MatVecScale(m: Mat3, c: real, v: Vec3)
    ensures MatVec(m, Scale(c, v)) == Scale(c, MatVec(m, v))
  {
    var a, l := MatVec(m, v), MatVec(m, Scale(c, v));
    assert l.x == c * a.x by { DotScale(c, m.r0, v, a.x); }
    assert l.y == c * a.y by { DotScale(c, m.r1, v, a.y); }
    assert l.z == c * a.z by { DotScale(c, m.r2, v, a.z); }
  }

  /** A common factor of either side comes out of a dot product `d`. */
  lemma DotScale(c: real, a: Vec3, b: Vec3, d: real)
    requires d == Dot(a, b)
    ensures Dot(Scale(c, a), b) == c * d
    ensures Dot(a, Scale(c, b)) == c * d
  {
    calc {
      Dot(Scale(c, a), b);
      (c * a.x) * b.x + (c * a.y) * b.y + (c * a.z) * b.z;
      c * (a.x * b.x + a.y * b.y + a.z * b.z);
      a.x * (c * b.x) + a.y * (c * b.y) + a.z * (c * b.z);
      Dot(a, Scale(c, b));
    }
  }
}
