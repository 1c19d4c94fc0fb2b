/** Exact complex arithmetic over pairs of reals.

    Every quantity of the multilayer computation at one wavelength (permittivity,
    permeability, wavevectors, admittances, matrix entries, amplitudes) is a complex
    number; the source uses floating-point complex numbers, this model uses exact
    `real` parts, so that algebraic facts can be stated as equalities. */
module ComplexField {

  datatype Complex = Complex(re: real, im: real)

  const Zero: Complex := Complex(0.0, 0.0)
  const One: Complex := Complex(1.0, 0.0)
  /** The imaginary unit, written `1j` in the source. */
  const I: Complex := Complex(0.0, 1.0)

  function OfReal(x: real): Complex { Complex(x, 0.0) }

  function Add(a: Complex, b: Complex): Complex { Complex(a.re + b.re, a.im + b.im) }

  function Sub(a: Complex, b: Complex): Complex { Complex(a.re - b.re, a.im - b.im) }

  function Neg(a: Complex): Complex { Complex(-a.re, -a.im) }

  /** Product of a real and a complex number. */
  function Scale(k: real, a: Complex): Complex { Complex(k * a.re, k * a.im) }

  function Mul(a: Complex, b: Complex): Complex {
    Complex(a.re * b.re - a.im * b.im, a.re * b.im + a.im * b.re)
  }

  function Conj(a: Complex): Complex { Complex(a.re, -a.im) }

  /** |a|^2, what the source computes as `np.absolute(a) ** 2`. */
  function NormSq(a: Complex): real {
    a.re * a.re + a.im * a.im
  }

  lemma SquarePositive(x: real)
    ensures x * x >= 0.0
    ensures x != 0.0 ==> x * x > 0.0
  {
    if x < 0.0 {
      assert x * x > 0.0;
    }
  }

  lemma SumOfSquaresPositive(x: real, y: real)
    ensures x * x + y * y >= 0.0
    ensures x != 0.0 || y != 0.0 ==> x * x + y * y > 0.0
  {
    SquarePositive(x);
    SquarePositive(y);
    if x != 0.0 {
      assert x * x > 0.0;
    } else if y != 0.0 {
      assert y * y > 0.0;
    }
  }

  /** |a|^2 is never negative. */
  lemma NormSqNonNegative(a: Complex)
    ensures NormSq(a) >= 0.0
  {
    var x, y := a.re, a.im;
    SumOfSquaresPositive(x, y);
    calc {
      NormSq(a);
    ==
      x * x + y * y;
    >=
      0.0;
    }
  }

  /** |a|^2 vanishes only at zero. */
  lemma NormSqPositive(a: Complex)
    requires a != Zero
    ensures NormSq(a) > 0.0
  {
    var x, y := a.re, a.im;
    SumOfSquaresPositive(x, y);
    calc {
      NormSq(a);
    ==
      x * x + y * y;
    >
      0.0;
    }
  }

  function Abs(x: real): (y: real)
    ensures y >= 0.0 && (y == x || y == -x)
  {
    if x < 0.0 then -x else x
  }

  /** The multiplicative inverse of a non-zero complex number. */
  function Inv(z: Complex): (w: Complex)
    requires z != Zero
    ensures Mul(z, w) == One && Mul(w, z) == One
  {
    NormSqPositive(z);
    var n := NormSq(z);
    var p := 1.0 / n;
    assert n * p == 1.0;
    assert z.re * (z.re * p) + z.im * (z.im * p) == n * p;
    Complex(z.re * p, -z.im * p)
  }

  /** Complex division; the source divides without guarding the denominator, so the
      model puts a non-zero denominator in the precondition. */
  function Div(a: Complex, b: Complex): (q: Complex)
    requires b != Zero
    ensures Mul(q, b) == a
  {
    MulAssoc(a, Inv(b), b);
    Mul(a, Inv(b))
  }

  // Field laws used by the proofs of the other modules.

  lemma MulZero(z: Complex)
    ensures Mul(Zero, z) == Zero && Mul(z, Zero) == Zero
  {
  }

  lemma MulOne(z: Complex)
    ensures Mul(One, z) == z && Mul(z, One) == z
  {
  }

  lemma AddZero(z: Complex)
    ensures Add(Zero, z) == z && Add(z, Zero) == z && Sub(z, Zero) == z
  {
  }

  lemma MulComm(a: Complex, b: Complex)
    ensures Mul(a, b) == Mul(b, a)
  {
  }

  lemma MulAssoc(a: Complex, b: Complex, c: Complex)
    ensures Mul(Mul(a, b), c) == Mul(a, Mul(b, c))
  {
  }

  lemma MulAddDistrib(a: Complex, b: Complex, c: Complex)
    ensures Mul(a, Add(b, c)) == Add(Mul(a, b), Mul(a, c))
    ensures Mul(Add(b, c), a) == Add(Mul(b, a), Mul(c, a))
  {
  }

  /** (p + q)(r + s) == pr + ps + qr + qs */
  lemma MulSums(p: Complex, q: Complex, r: Complex, s: Complex)
    ensures Mul(Add(p, q), Add(r, s)) == Add(Add(Mul(p, r), Mul(p, s)), Add(Mul(q, r), Mul(q, s)))
  {
  }

  /** (p - q)(r - s) == pr - ps - qr + qs */
  lemma MulDiffs(p: Complex, q: Complex, r: Complex, s: Complex)
    ensures Mul(Sub(p, q), Sub(r, s)) == Add(Sub(Sub(Mul(p, r), Mul(p, s)), Mul(q, r)), Mul(q, s))
  {
  }

  lemma MulScale(k: real, a: Complex, b: Complex)
    ensures Mul(Scale(k, a), b) == Scale(k, Mul(a, b))
  {
    assert (k * a.re) * b.re - (k * a.im) * b.im == k * (a.re * b.re - a.im * b.im);
    assert (k * a.re) * b.im + (k * a.im) * b.re == k * (a.re * b.im + a.im * b.re);
  }

  lemma MulNeg(a: Complex, b: Complex)
    ensures Mul(Neg(a), b) == Neg(Mul(a, b)) && Mul(a, Neg(b)) == Neg(Mul(a, b))
  {
  }

  /** i (i z) == -z, and -i (i z) == i (-i z) == z. */
  lemma ISquared(z: Complex)
    ensures Mul(I, Mul(I, z)) == Neg(z) && Mul(Neg(I), Mul(Neg(I), z)) == Neg(z)
    ensures Mul(Neg(I), Mul(I, z)) == z && Mul(I, Mul(Neg(I), z)) == z
  {
  }

  /** Regrouping the factors of a product of four. */
  lemma MulRegroup(p: Complex, q: Complex, r: Complex, s: Complex)
    ensures Mul(Mul(p, q), Mul(r, s)) == Mul(Mul(p, r), Mul(q, s))
  {
  }

  lemma MulRegroupCross(p: Complex, q: Complex, r: Complex, s: Complex)
    ensures Mul(Mul(p, q), Mul(r, s)) == Mul(Mul(p, s), Mul(r, q))
  {
  }

  /** Cancellation: a non-zero factor can be divided out of an equation. */
  lemma MulCancel(x: Complex, y: Complex, b: Complex)
    requires b != Zero
    requires Mul(x, b) == Mul(y, b)
    ensures x == y
  {
    var w := Inv(b);
    calc {
      x;
      Mul(x, Mul(b, w));
      { MulAssoc(x, b, w); }
      Mul(Mul(x, b), w);
      Mul(Mul(y, b), w);
      { MulAssoc(y, b, w); }
      Mul(y, Mul(b, w));
      y;
    }
  }

  /** A quotient is the unique solution of q * b == a. */
  lemma DivUnique(a: Complex, b: Complex, q: Complex)
    requires b != Zero
    requires Mul(q, b) == a
    ensures Div(a, b) == q
  {
    MulCancel(Div(a, b), q, b);
  }

  lemma MulNonZero(a: Complex, b: Complex)
    requires a != Zero && b != Zero
    ensures Mul(a, b) != Zero
  {
    if Mul(a, b) == Zero {
      calc {
        a;
        Mul(a, Mul(b, Inv(b)));
        { MulAssoc(a, b, Inv(b)); }
        Mul(Mul(a, b), Inv(b));
        Zero;
      }
    }
  }

  /** |a b|^2 == |a|^2 |b|^2. */
  lemma NormSqMul(a: Complex, b: Complex)
    ensures NormSq(Mul(a, b)) == NormSq(a) * NormSq(b)
  {
  }

  /** For real operands complex division is real division. */
  lemma DivReal(x: real, y: real)
    requires y != 0.0
    ensures OfReal(y) != Zero
    ensures Div(OfReal(x), OfReal(y)) == OfReal(x / y)
  {
    assert Mul(OfReal(x / y), OfReal(y)) == OfReal(x);
    DivUnique(OfReal(x), OfReal(y), OfReal(x / y));
  }
}
