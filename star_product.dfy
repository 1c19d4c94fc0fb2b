/** The scattering matrices of one wavelength and the Redheffer star product that
    cascades them (`cascade_opti_wavelength` and the matrices built by
    `coefficient_S_opti_wavelength`). */
module StarProduct {
  import opened ComplexField
  import opened Matrix2

  /** [[0, 1], [1, 0]]: the scattering matrix of an empty slab, stored as T[0]. */
  const Neutral: Mat2 := Mat2(Zero, One, One, Zero)

  /** The star product divides by 1 - B00 * A11; the source does not guard it. */
  predicate Joinable(a: Mat2, b: Mat2) {
    Sub(One, Mul(b.m00, a.m11)) != Zero
  }

  /** Combines the upper scattering matrix `a` with the lower one `b`. */
  function Cascade(a: Mat2, b: Mat2): Mat2
    requires Joinable(a, b)
  {
    var t := Inv(Sub(One, Mul(b.m00, a.m11)));
    Mat2(Add(a.m00, Mul(Mul(Mul(a.m01, b.m00), a.m10), t)),
         Mul(Mul(a.m01, b.m01), t),
         Mul(Mul(b.m10, a.m10), t),
         Add(b.m11, Mul(Mul(Mul(a.m11, b.m01), b.m10), t)))
  }

  lemma InvOne()
    ensures One != Zero && Inv(One) == One
  {
    MulCancel(Inv(One), One, One);
  }

  /** When the denominator of the star product is 1, the cascade needs no division. */
  lemma CascadeUnit(a: Mat2, b: Mat2)
    requires Sub(One, Mul(b.m00, a.m11)) == One
    ensures Joinable(a, b)
    ensures Cascade(a, b) == Mat2(Add(a.m00, Mul(Mul(a.m01, b.m00), a.m10)), Mul(a.m01, b.m01),
                                  Mul(b.m10, a.m10), Add(b.m11, Mul(Mul(a.m11, b.m01), b.m10)))
  {
    InvOne();
  }

  /** The empty slab is a two-sided neutral element of the cascade, which is why the
      fold of the source may start from T[0]. */
  lemma CascadeNeutral(m: Mat2)
    ensures Joinable(Neutral, m) && Joinable(m, Neutral)
    ensures Cascade(Neutral, m) == m
    ensures Cascade(m, Neutral) == m
  {
    MulZero(m.m00);
    MulZero(m.m11);
    AddZero(One);
    CascadeUnit(Neutral, m);
    CascadeUnit(m, Neutral);
  }

  /** The propagation matrix of a layer: the phase factor p on both off-diagonal
      entries, nothing reflected. */
  function Phase(p: Complex): Mat2 {
    Mat2(Zero, p, p, Zero)
  }

  /** Cascading two propagation matrices multiplies their phase factors. */
  lemma PhasesMultiply(p: Complex, q: Complex)
    ensures Joinable(Phase(p), Phase(q))
    ensures Cascade(Phase(p), Phase(q)) == Phase(Mul(p, q))
  {
    MulZero(Zero);
    AddZero(One);
    CascadeUnit(Phase(p), Phase(q));
    MulZero(p);
    MulZero(q);
    AddZero(Zero);
    MulComm(p, q);
  }

  /** A propagation matrix over zero thickness, exp(0) == 1, is the empty slab. */
  lemma PhaseOne()
    ensures Phase(One) == Neutral
  {
  }

  /** Cascading a propagation matrix of phase factor 1 in front of m leaves m. */
  lemma CascadePhaseOne(p: Complex, m: Mat2)
    requires p == One
    ensures Joinable(Phase(p), m) && Cascade(Phase(p), m) == m
  {
    PhaseOne();
    CascadeNeutral(m);
  }

  /** The scattering matrix of the interface between admittances b1 (above) and
      b2 (below), [[b1 - b2, 2 b2], [2 b1, b2 - b1]] / (b1 + b2). Its entries obey
      the Fresnel relations r + 1 == t on both sides and r' == -r, and an interface
      between equal admittances is no interface at all. */
  function Interface(b1: Complex, b2: Complex): (s: Mat2)
    requires Add(b1, b2) != Zero
    ensures s.m10 == Add(s.m00, One)
    ensures s.m01 == Add(s.m11, One)
    ensures s.m11 == Neg(s.m00)
    ensures b1 == b2 ==> s == Neutral
  {
    var d := Add(b1, b2);
    var r := Div(Sub(b1, b2), d);
    var rr := Div(Sub(b2, b1), d);
    InterfaceRelations(b1, b2);
    Mat2(r, Div(Scale(2.0, b2), d), Div(Scale(2.0, b1), d), rr)
  }

  lemma InterfaceRelations(b1: Complex, b2: Complex)
    requires Add(b1, b2) != Zero
    ensures Div(Scale(2.0, b1), Add(b1, b2)) == Add(Div(Sub(b1, b2), Add(b1, b2)), One)
    ensures Div(Scale(2.0, b2), Add(b1, b2)) == Add(Div(Sub(b2, b1), Add(b1, b2)), One)
    ensures Div(Sub(b2, b1), Add(b1, b2)) == Neg(Div(Sub(b1, b2), Add(b1, b2)))
    ensures b1 == b2 ==> Div(Sub(b1, b2), Add(b1, b2)) == Zero
  {
    var d := Add(b1, b2);
    var r := Div(Sub(b1, b2), d);
    var rr := Div(Sub(b2, b1), d);
    MulAddDistrib(d, r, One);
    MulComm(d, r);
    MulComm(d, Add(r, One));
    DivUnique(Scale(2.0, b1), d, Add(r, One));
    MulAddDistrib(d, rr, One);
    MulComm(d, rr);
    MulComm(d, Add(rr, One));
    DivUnique(Scale(2.0, b2), d, Add(rr, One));
    assert Mul(Neg(r), d) == Neg(Mul(r, d));
    DivUnique(Sub(b2, b1), d, Neg(r));
    if b1 == b2 {
      assert Mul(Zero, d) == Sub(b1, b2);
      DivUnique(Sub(b1, b2), d, Zero);
    }
  }

  /** Between real admittances the interface matrix is real. */
  lemma InterfaceReal(b1: real, b2: real)
    requires b1 + b2 != 0.0
    ensures Add(OfReal(b1), OfReal(b2)) != Zero
    ensures Interface(OfReal(b1), OfReal(b2))
         == Mat2(OfReal((b1 - b2) / (b1 + b2)), OfReal((2.0 * b2) / (b1 + b2)),
                 OfReal((2.0 * b1) / (b1 + b2)), OfReal((b2 - b1) / (b1 + b2)))
  {
    var sum := b1 + b2;
    assert Add(OfReal(b1), OfReal(b2)) == OfReal(sum);
    assert Sub(OfReal(b1), OfReal(b2)) == OfReal(b1 - b2);
    assert Sub(OfReal(b2), OfReal(b1)) == OfReal(b2 - b1);
    assert Scale(2.0, OfReal(b1)) == OfReal(2.0 * b1);
    assert Scale(2.0, OfReal(b2)) == OfReal(2.0 * b2);
    DivReal(b1 - b2, sum);
    DivReal(b2 - b1, sum);
    DivReal(2.0 * b1, sum);
    DivReal(2.0 * b2, sum);
  }

  /** Energy conservation at one lossless interface: with real positive admittances
      b1 and b2, |r|^2 + |t|^2 b2 / b1 == 1 for r == S00 and t == S10. */
  lemma InterfaceEnergy(b1: real, b2: real)
    requires b1 > 0.0 && b2 > 0.0
    ensures Add(OfReal(b1), OfReal(b2)) != Zero
    ensures NormSq(Interface(OfReal(b1), OfReal(b2)).m00)
          + NormSq(Interface(OfReal(b1), OfReal(b2)).m10) * (b2 / b1) == 1.0
  {
    InterfaceReal(b1, b2);
    var u := (b1 - b2) / (b1 + b2);
    var v := (2.0 * b1) / (b1 + b2);
    calc {
      NormSq(OfReal(u)) + NormSq(OfReal(v)) * (b2 / b1);
    ==
      u * u + v * v * (b2 / b1);
    ==  { FresnelEnergy(b1, b2); }
      1.0;
    }
  }

  /** The real-number identity behind InterfaceEnergy. */
  lemma FresnelEnergy(b1: real, b2: real)
    requires b1 > 0.0 && b2 > 0.0
    ensures var u, v := (b1 - b2) / (b1 + b2), (2.0 * b1) / (b1 + b2);
            u * u + v * v * (b2 / b1) == 1.0
  {
    var sum := b1 + b2;
    var u, v := (b1 - b2) / sum, (2.0 * b1) / sum;
    var w := b2 / b1;
    assert u * sum == b1 - b2;
    assert v * sum == 2.0 * b1;
    assert w * b1 == b2;
    var k := sum * sum * b1;
    assert k > 0.0 by {
      assert sum * sum > 0.0;
    }
    calc {
      (u * u + v * v * w) * k;
    ==
      (u * sum) * (u * sum) * b1 + (v * sum) * (v * sum) * (w * b1);
    ==
      (b1 - b2) * (b1 - b2) * b1 + (2.0 * b1) * (2.0 * b1) * b2;
    ==
      k;
    }
    ProductCancel(u * u + v * v * w, k);
  }

  lemma ProductCancel(x: real, k: real)
    requires k != 0.0 && x * k == k
    ensures x == 1.0
  {
    assert (x - 1.0) * k == 0.0;
  }

  /** Air over glass of index 1.5 at normal incidence (admittances b and 1.5 b):
      r == -0.2 whatever b, so 4 % of the power is reflected and 96 % transmitted. */
  lemma AirGlassInterface(b: real)
    requires b > 0.0
    ensures Add(OfReal(b), OfReal(1.5 * b)) != Zero
    ensures Interface(OfReal(b), OfReal(1.5 * b)).m00 == OfReal(-0.2)
    ensures NormSq(Interface(OfReal(b), OfReal(1.5 * b)).m00) == 0.04
    ensures NormSq(Interface(OfReal(b), OfReal(1.5 * b)).m10) * 1.5 == 0.96
  {
    InterfaceReal(b, 1.5 * b);
    var sum := b + 1.5 * b;
    assert sum == 2.5 * b;
    assert (b - 1.5 * b) / sum == -0.2 by {
      assert -0.2 * sum == b - 1.5 * b;
    }
    assert (2.0 * b) / sum == 0.8 by {
      assert 0.8 * sum == 2.0 * b;
    }
  }
}
