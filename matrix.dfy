/** 2x2 complex matrices and 2-vectors: the per-wavelength entries of the source's
    `(2, 2, len_wl)` matrix arrays, one wavelength at a time. */
module Matrix2 {
  import opened ComplexField

  /** [[m00, m01], [m10, m11]] */
  datatype Mat2 = Mat2(m00: Complex, m01: Complex, m10: Complex, m11: Complex)

  /** A column vector (x0, x1); in the field reconstruction, (E, dE/dz). */
  datatype Vec2 = Vec2(x0: Complex, x1: Complex)

  const Identity: Mat2 := Mat2(One, Zero, Zero, One)

  /** The matrix product a . b, what `np.matmul` computes for one wavelength. */
  function MatMul(a: Mat2, b: Mat2): Mat2 {
    Mat2(Add(Mul(a.m00, b.m00), Mul(a.m01, b.m10)),
         Add(Mul(a.m00, b.m01), Mul(a.m01, b.m11)),
         Add(Mul(a.m10, b.m00), Mul(a.m11, b.m10)),
         Add(Mul(a.m10, b.m01), Mul(a.m11, b.m11)))
  }

  /** The product a . v of a matrix and a column vector. */
  function Apply(a: Mat2, v: Vec2): Vec2 {
    Vec2(Add(Mul(a.m00, v.x0), Mul(a.m01, v.x1)),
         Add(Mul(a.m10, v.x0), Mul(a.m11, v.x1)))
  }

  function Det(a: Mat2): Complex {
    Sub(Mul(a.m00, a.m11), Mul(a.m01, a.m10))
  }

  lemma MatMulIdentity(a: Mat2)
    ensures MatMul(a, Identity) == a && MatMul(Identity, a) == a
  {
  }

  lemma ApplyIdentity(v: Vec2)
    ensures Apply(Identity, v) == v
  {
  }

  /** The determinant is multiplicative: det(a . b) == det(a) * det(b). */
  lemma DetMul(a: Mat2, b: Mat2)
    ensures Det(MatMul(a, b)) == Mul(Det(a), Det(b))
  {
    var x := MatMul(a, b);
    // the eight products of four entries that the expansion of det(a . b) produces
    var p1 := Mul(Mul(a.m00, b.m00), Mul(a.m10, b.m01));
    var p2 := Mul(Mul(a.m00, b.m00), Mul(a.m11, b.m11));
    var p3 := Mul(Mul(a.m01, b.m10), Mul(a.m10, b.m01));
    var p4 := Mul(Mul(a.m01, b.m10), Mul(a.m11, b.m11));
    var q1 := Mul(Mul(a.m00, b.m01), Mul(a.m10, b.m00));
    var q2 := Mul(Mul(a.m00, b.m01), Mul(a.m11, b.m10));
    var q3 := Mul(Mul(a.m01, b.m11), Mul(a.m10, b.m00));
    var q4 := Mul(Mul(a.m01, b.m11), Mul(a.m11, b.m10));
    MulSums(Mul(a.m00, b.m00), Mul(a.m01, b.m10), Mul(a.m10, b.m01), Mul(a.m11, b.m11));
    MulSums(Mul(a.m00, b.m01), Mul(a.m01, b.m11), Mul(a.m10, b.m00), Mul(a.m11, b.m10));
    MulRegroupCross(a.m00, b.m00, a.m10, b.m01);
    MulRegroupCross(a.m01, b.m10, a.m11, b.m11);
    assert p1 == q1 && p4 == q4;
    MulDiffs(Mul(a.m00, a.m11), Mul(a.m01, a.m10), Mul(b.m00, b.m11), Mul(b.m01, b.m10));
    MulRegroup(a.m00, a.m11, b.m00, b.m11);
    MulRegroup(a.m00, a.m11, b.m01, b.m10);
    MulRegroup(a.m01, a.m10, b.m00, b.m11);
    MulRegroupCross(a.m01, b.m00, a.m10, b.m11);
    MulRegroup(a.m01, a.m10, b.m01, b.m10);
    MulRegroupCross(a.m01, b.m01, a.m10, b.m10);
    calc {
      Det(x);
    ==
      Sub(Add(Add(p1, p2), Add(p3, p4)), Add(Add(q1, q2), Add(q3, q4)));
    ==
      Add(Sub(Sub(p2, q2), q3), p3);
    ==
      Mul(Det(a), Det(b));
    }
  }
}
