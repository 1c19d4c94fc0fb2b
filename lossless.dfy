/** Energy conservation in the Abeles formalism: in a stack that absorbs nothing, the
    reflected and the transmitted powers add up to the incident power, R + T == 1.
    Without loss every wave either propagates (real wavevector and admittance) or is
    evanescent (both purely imaginary, beyond the critical angle). Every layer matrix
    is then real, and the substrate either carries power away (real positive
    admittance) or reflects everything (imaginary admittance, total internal
    reflection). */
module Lossless {
  import opened ComplexField
  import opened Matrix2
  import opened Elementary
  import opened StarProduct
  import opened Scattering
  import opened Abeles

  predicate RealMatrix(m: Mat2) {
    m.m00.im == 0.0 && m.m01.im == 0.0 && m.m10.im == 0.0 && m.m11.im == 0.0
  }

  /** A real matrix [[a, b], [c, d]] with ad - bc == 1. */
  predicate RealUnimodular(m: Mat2) {
    RealMatrix(m) && m.m00.re * m.m11.re - m.m01.re * m.m10.re == 1.0
  }

  /** For a real matrix, determinant 1 is ad - bc == 1 on the real parts. */
  lemma RealDeterminant(m: Mat2)
    requires RealMatrix(m)
    ensures Det(m) == One <==> RealUnimodular(m)
  {
  }

  /** A layer with real cos, sin and admittance has a real transfer matrix. */
  lemma RealLayer(c: Complex, s: Complex, gf: Complex)
    requires c.im == 0.0 && s.im == 0.0 && gf.im == 0.0 && gf != Zero
    ensures RealMatrix(LayerMatrix(c, s, gf))
  {
    assert s == OfReal(s.re) && gf == OfReal(gf.re);
    DivReal(s.re, gf.re);
  }

  /** An evanescent layer, with real cos, imaginary sin and imaginary admittance, has a
      real transfer matrix too: -s/gf and gf s are real. */
  lemma EvanescentLayer(c: Complex, s: Complex, gf: Complex)
    requires c.im == 0.0 && s.re == 0.0 && gf.re == 0.0 && gf != Zero
    ensures RealMatrix(LayerMatrix(c, s, gf))
  {
    var q := Complex(s.im / gf.im, 0.0);
    assert gf.im != 0.0;
    assert q.re * gf.im == s.im;
    assert Mul(q, gf) == s;
    DivUnique(s, gf, q);
  }

  /** A layer that absorbs nothing: its wave propagates (gamma and gf real) or is
      evanescent (gamma and gf purely imaginary). */
  predicate LosslessLayer(gamma: Complex, gf: Complex) {
    (gamma.im == 0.0 && gf.im == 0.0) || (gamma.re == 0.0 && gf.re == 0.0)
  }

  /** A number whose square is real is real or purely imaginary. */
  lemma RealSquare(z: Complex)
    requires Mul(z, z).im == 0.0
    ensures z.re == 0.0 || z.im == 0.0
  {
    assert 2.0 * (z.re * z.im) == 0.0;
  }

  /** gf = gamma / f with a real non-zero f is of the same kind as gamma. */
  lemma AdmittanceOfLosslessWave(gamma: Complex, f: Complex, gf: Complex)
    requires f.im == 0.0 && f != Zero && Mul(gf, f) == gamma
    requires Mul(gamma, gamma).im == 0.0
    ensures LosslessLayer(gamma, gf)
  {
    RealSquare(gamma);
    assert gamma.re == gf.re * f.re && gamma.im == gf.im * f.re;
    assert f.re != 0.0;
  }

  /** A product of real matrices is real. */
  lemma {:induction false} RealProduct(ts: seq<Mat2>)
    requires |ts| >= 1
    requires forall k :: 0 <= k < |ts| ==> RealMatrix(ts[k])
    ensures RealMatrix(Product(ts))
  {
    if |ts| > 1 {
      RealProduct(ts[..|ts| - 1]);
    }
  }

  /** Layers that absorb nothing, propagating or evanescent, give a real global
      transfer matrix. */
  lemma RealGlobalMatrix(el: Elementary, gamma: seq<Complex>, gf: seq<Complex>, h: seq<real>)
    requires |gamma| == |gf| == |h| >= 2 && LayersDefined(gf)
    requires forall k :: 0 <= k < |gamma| - 1 ==> LosslessLayer(gamma[k], gf[k])
    requires RealOnRealAxis(el) && ParityOnImaginaryAxis(el)
    ensures RealMatrix(Product(LayerMatrices(el, gamma, gf, h)))
  {
    var ts := LayerMatrices(el, gamma, gf, h);
    forall k | 0 <= k < |ts|
      ensures RealMatrix(ts[k])
    {
      var z := Scale(h[k], gamma[k]);
      if gamma[k].im == 0.0 && gf[k].im == 0.0 {
        assert z.im == 0.0;
        RealLayer(el.cos(z), el.sin(z), gf[k]);
      } else {
        assert z.re == 0.0;
        EvanescentLayer(el.cos(z), el.sin(z), gf[k]);
      }
    }
    RealProduct(ts);
  }

  /** For a real global matrix [[a, b], [c, d]] and real outer admittances g0 and gL,
      the denominator and the numerator of r in components. */
  lemma RealFormulas(A: Mat2, g0: real, gL: real)
    requires RealMatrix(A)
    ensures Denominator(A, OfReal(g0), OfReal(gL))
            == Complex(A.m10.re - gL * g0 * A.m01.re, g0 * A.m11.re + gL * A.m00.re)
    ensures Numerator(A, OfReal(g0), OfReal(gL))
            == Complex(A.m10.re + gL * g0 * A.m01.re, gL * A.m00.re - g0 * A.m11.re)
  {
  }

  /** With ad - bc == 1, |den|^2 exceeds |num|^2 by exactly 4 g0 gL. */
  lemma DenominatorGap(a: real, b: real, c: real, d: real, g0: real, gL: real)
    requires a * d - b * c == 1.0
    ensures (c - gL * g0 * b) * (c - gL * g0 * b) + (g0 * d + gL * a) * (g0 * d + gL * a)
            == (c + gL * g0 * b) * (c + gL * g0 * b) + (gL * a - g0 * d) * (gL * a - g0 * d) + 4.0 * g0 * gL
  {
    assert 4.0 * g0 * gL * (a * d - b * c) == 4.0 * g0 * gL;
  }

  /** The cross terms of t . den in components: with ad - bc == 1,
      (a - i g0 b) den - (a + i g0 b) num == 2 i g0 (ad - bc) == 2 i g0. */
  lemma CrossTerms(s1: Complex, d1: Complex, num: Complex, den: Complex,
                    a: real, b: real, c: real, d: real, g0: real, gL: real)
    requires a * d - b * c == 1.0
    requires s1 == Complex(a, g0 * b) && d1 == Complex(a, -g0 * b)
    requires num == Complex(c + gL * g0 * b, gL * a - g0 * d)
    requires den == Complex(c - gL * g0 * b, g0 * d + gL * a)
    ensures Add(Mul(s1, Neg(num)), Mul(d1, den)) == Complex(0.0, 2.0 * g0)
  {
    var u := Mul(s1, Neg(num));
    var v := Mul(d1, den);
    assert u.re == -(a * c + g0 * g0 * b * d);
    assert v.re == a * c + g0 * g0 * b * d;
    assert u.im == -(gL * a * a - g0 * (a * d - b * c) + gL * g0 * g0 * b * b);
    assert v.im == g0 * (a * d - b * c) + gL * a * a + gL * g0 * g0 * b * b;
  }

  /** |den|^2 == |num|^2 + 4 g0 gL for a real unimodular global matrix. */
  lemma NormGap(A: Mat2, g0: real, gL: real)
    requires RealUnimodular(A)
    ensures NormSq(Denominator(A, OfReal(g0), OfReal(gL)))
            == NormSq(Numerator(A, OfReal(g0), OfReal(gL))) + 4.0 * g0 * gL
  {
    var a, b, c, d := A.m00.re, A.m01.re, A.m10.re, A.m11.re;
    RealFormulas(A, g0, gL);
    assert a * d - b * c == 1.0;
    DenominatorGap(a, b, c, d, g0, gL);
  }

  /** t den == -(a + i gf_0 b) num + (a - i gf_0 b) den for any global matrix: t is
      linear in r, and r den == -num. */
  lemma TransmissionExpansion(A: Mat2, gf0: Complex, gfL: Complex)
    requires AbelesDefined(A, gf0, gfL)
    ensures var p := Mul(I, gf0);
            Mul(ExtractA(A, gf0, gfL).t, Denominator(A, gf0, gfL))
            == Add(Mul(Add(A.m00, Mul(p, A.m01)), Neg(Numerator(A, gf0, gfL))),
                   Mul(Sub(A.m00, Mul(p, A.m01)), Denominator(A, gf0, gfL)))
  {
    var p := Mul(I, gf0);
    var r := AbelesReflection(A, gf0, gfL);
    var t := AbelesTransmission(A, gf0, r);
    var den, num := Denominator(A, gf0, gfL), Numerator(A, gf0, gfL);
    assert Mul(r, den) == Neg(num);
    var s1, d1 := Add(A.m00, Mul(p, A.m01)), Sub(A.m00, Mul(p, A.m01));
    LinearInR(A.m00, Mul(p, A.m01), r);
    assert t == Add(Mul(s1, r), d1);
    MulAddDistrib(den, Mul(s1, r), d1);
    MulAssoc(s1, r, den);
  }

  /** For a real unimodular global matrix, t . den == 2 i g0: |t|^2 is fixed by the
      denominator alone. */
  lemma TransmissionTimesDenominator(A: Mat2, g0: real, gL: real)
    requires RealUnimodular(A)
    requires AbelesDefined(A, OfReal(g0), OfReal(gL))
    ensures Mul(ExtractA(A, OfReal(g0), OfReal(gL)).t, Denominator(A, OfReal(g0), OfReal(gL)))
            == Complex(0.0, 2.0 * g0)
  {
    var a, b, c, d := A.m00.re, A.m01.re, A.m10.re, A.m11.re;
    var p := Mul(I, OfReal(g0));
    var s1, d1 := Add(A.m00, Mul(p, A.m01)), Sub(A.m00, Mul(p, A.m01));
    var den, num := Denominator(A, OfReal(g0), OfReal(gL)), Numerator(A, OfReal(g0), OfReal(gL));
    assert s1 == Complex(a, g0 * b) && d1 == Complex(a, -g0 * b) by {
    }
    assert den == Complex(c - gL * g0 * b, g0 * d + gL * a)
        && num == Complex(c + gL * g0 * b, gL * a - g0 * d) by {
      RealFormulas(A, g0, gL);
    }
    CrossTerms(s1, d1, num, den, a, b, c, d, g0, gL);
    TransmissionExpansion(A, OfReal(g0), OfReal(gL));
  }

  /** If t den == 2 i g0 with g0 > 0, the transmitted power |t|^2 Re(gL / g0) times
      |den|^2 is 4 g0 gL. */
  lemma PowerTimesDenominator(t: Complex, den: Complex, g0: real, gL: real)
    requires g0 > 0.0 && Mul(t, den) == Complex(0.0, 2.0 * g0)
    ensures TransmittedPower(t, Div(OfReal(gL), OfReal(g0))) * NormSq(den) == 4.0 * g0 * gL
  {
    var x, D := NormSq(t), NormSq(den);
    calc {
      x * D;
      { NormSqMul(t, den); }
      NormSq(Complex(0.0, 2.0 * g0));
      4.0 * g0 * g0;
    }
    DivReal(gL, g0);
    assert g0 * (gL / g0) == gL;
    calc {
      TransmittedPower(t, Div(OfReal(gL), OfReal(g0))) * D;
      x * (gL / g0) * D;
      (x * D) * (gL / g0);
      4.0 * g0 * (g0 * (gL / g0));
    }
  }

  /** R |den|^2 == |num|^2: r is -num / den. */
  lemma ReflectedPowerScaled(A: Mat2, g0: real, gL: real)
    requires AbelesDefined(A, OfReal(g0), OfReal(gL))
    ensures ExtractA(A, OfReal(g0), OfReal(gL)).R * NormSq(Denominator(A, OfReal(g0), OfReal(gL)))
            == NormSq(Numerator(A, OfReal(g0), OfReal(gL)))
  {
    var den, num := Denominator(A, OfReal(g0), OfReal(gL)), Numerator(A, OfReal(g0), OfReal(gL));
    var e := ExtractA(A, OfReal(g0), OfReal(gL));
    assert Mul(e.r, den) == Neg(num);
    NormSqMul(e.r, den);
  }

  /** T |den|^2 == 4 g0 gL for a real unimodular global matrix. */
  lemma TransmittedPowerScaled(A: Mat2, g0: real, gL: real)
    requires RealUnimodular(A)
    requires g0 > 0.0 && AbelesDefined(A, OfReal(g0), OfReal(gL))
    ensures ExtractA(A, OfReal(g0), OfReal(gL)).T * NormSq(Denominator(A, OfReal(g0), OfReal(gL)))
            == 4.0 * g0 * gL
  {
    var e := ExtractA(A, OfReal(g0), OfReal(gL));
    TransmissionTimesDenominator(A, g0, gL);
    PowerTimesDenominator(e.t, Denominator(A, OfReal(g0), OfReal(gL)), g0, gL);
  }

  /** Two shares R and T of a positive total D == N + P with R D == N and T D == P add
      up to 1. */
  lemma ShareOfPower(R: real, T: real, D: real, N: real, P: real)
    requires D > 0.0 && D == N + P && R * D == N && T * D == P
    ensures R + T == 1.0
  {
    var x := R + T;
    assert x * D == R * D + T * D;
    assert x * D == N + P;
    ProductCancel(x, D);
  }

  /** R + T == 1 for any real unimodular global matrix between media of positive
      admittance; the closed formula for r is then always defined. */
  lemma LosslessEnergy(A: Mat2, g0: real, gL: real)
    requires RealUnimodular(A)
    requires g0 > 0.0 && gL > 0.0
    ensures AbelesDefined(A, OfReal(g0), OfReal(gL))
    ensures ExtractA(A, OfReal(g0), OfReal(gL)).R + ExtractA(A, OfReal(g0), OfReal(gL)).T == 1.0
  {
    var gf0, gfL := OfReal(g0), OfReal(gL);
    var den, num := Denominator(A, gf0, gfL), Numerator(A, gf0, gfL);
    var D, N := NormSq(den), NormSq(num);
    assert D == N + 4.0 * g0 * gL && D > 0.0 by {
      NormGap(A, g0, gL);
      NormSqNonNegative(num);
      assert 4.0 * g0 * gL > 0.0;
    }
    ReflectedPowerScaled(A, g0, gL);
    TransmittedPowerScaled(A, g0, gL);
    var e := ExtractA(A, gf0, gfL);
    ShareOfPower(e.R, e.T, D, N, 4.0 * g0 * gL);
  }

  /** For a real global matrix, a real incidence admittance g0 and an imaginary
      substrate admittance i k, the numerator of r is the conjugate of its
      denominator. */
  lemma ImaginaryFormulas(A: Mat2, g0: real, k: real)
    requires RealMatrix(A)
    ensures Denominator(A, OfReal(g0), Complex(0.0, k))
            == Complex(A.m10.re - k * A.m00.re, g0 * A.m11.re - k * g0 * A.m01.re)
    ensures Numerator(A, OfReal(g0), Complex(0.0, k))
            == Conj(Denominator(A, OfReal(g0), Complex(0.0, k)))
  {
  }

  /** The denominator c - k a + i g0 (d - k b) cannot vanish when ad - bc == 1. */
  lemma EvanescentDenominator(den: Complex, a: real, b: real, c: real, d: real, g0: real, k: real)
    requires a * d - b * c == 1.0 && g0 > 0.0
    requires den.re == c - k * a && den.im == g0 * d - k * g0 * b
    ensures den != Zero
  {
    assert a * (g0 * d - k * g0 * b) - g0 * b * (c - k * a) == g0 * (a * d - b * c);
  }

  /** The transmitted power through an imaginary substrate admittance is 0: gf_L / g0
      is purely imaginary. */
  lemma NoPowerIntoEvanescent(t: Complex, g0: real, k: real)
    requires g0 > 0.0
    ensures TransmittedPower(t, Div(Complex(0.0, k), OfReal(g0))) == 0.0
  {
    var q := Complex(0.0, k / g0);
    assert (k / g0) * g0 == k;
    assert Mul(q, OfReal(g0)) == Complex(0.0, k);
    DivUnique(Complex(0.0, k), OfReal(g0), q);
  }

  /** A reflection coefficient whose numerator is minus the conjugate of its
      denominator has modulus 1. */
  lemma ConjugateReflection(r: Complex, den: Complex)
    requires den != Zero && Mul(r, den) == Neg(Conj(den))
    ensures NormSq(r) == 1.0
  {
    NormSqMul(r, den);
    assert NormSq(Neg(Conj(den))) == NormSq(den);
    NormSqPositive(den);
    ProductCancel(NormSq(r), NormSq(den));
  }

  /** With an imaginary substrate admittance the closed formulas are always defined
      for a real matrix with ad - bc == 1. */
  lemma EvanescentDefined(A: Mat2, g0: real, k: real)
    requires RealUnimodular(A)
    requires g0 > 0.0
    ensures AbelesDefined(A, OfReal(g0), Complex(0.0, k))
  {
    var a, b, c, d := A.m00.re, A.m01.re, A.m10.re, A.m11.re;
    ImaginaryFormulas(A, g0, k);
    EvanescentDenominator(Denominator(A, OfReal(g0), Complex(0.0, k)), a, b, c, d, g0, k);
  }

  /** Total internal reflection: for a real unimodular global matrix, a positive
      incidence admittance and an imaginary substrate admittance, the closed formulas
      are defined, everything is reflected (R == 1), nothing is transmitted (T == 0). */
  lemma EvanescentEnergy(A: Mat2, g0: real, k: real)
    requires RealUnimodular(A)
    requires g0 > 0.0
    ensures AbelesDefined(A, OfReal(g0), Complex(0.0, k))
    ensures ExtractA(A, OfReal(g0), Complex(0.0, k)).R == 1.0
    ensures ExtractA(A, OfReal(g0), Complex(0.0, k)).T == 0.0
  {
    EvanescentDefined(A, g0, k);
    var gf0, gfL := OfReal(g0), Complex(0.0, k);
    var e := ExtractA(A, gf0, gfL);
    ImaginaryFormulas(A, g0, k);
    ConjugateReflection(e.r, Denominator(A, gf0, gfL));
    NoPowerIntoEvanescent(e.t, g0, k);
  }

  /** R + T == 1 for a real unimodular global matrix, a real positive incidence
      admittance and a substrate admittance that is real positive (the wave
      propagates) or purely imaginary (total internal reflection). */
  lemma GlobalEnergy(A: Mat2, gf0: Complex, gfL: Complex)
    requires RealUnimodular(A)
    requires gf0.im == 0.0 && gf0.re > 0.0
    requires (gfL.im == 0.0 && gfL.re > 0.0) || gfL.re == 0.0
    ensures AbelesDefined(A, gf0, gfL)
    ensures ExtractA(A, gf0, gfL).R + ExtractA(A, gf0, gfL).T == 1.0
  {
    assert gf0 == OfReal(gf0.re);
    if gfL.re == 0.0 {
      assert gfL == Complex(0.0, gfL.im);
      EvanescentEnergy(A, gf0.re, gfL.im);
    } else {
      assert gfL == OfReal(gfL.re);
      LosslessEnergy(A, gf0.re, gfL.re);
    }
  }

  /** R + T == 1 for the Abeles routine on a whole stack without loss: every layer with
      a matrix propagating or evanescent, a real positive incidence admittance, and a
      substrate whose admittance is real positive or purely imaginary; with
      cos^2 + sin^2 == 1, cos and sin real on the real axis, cos even and sin odd. */
  lemma LosslessStackEnergy(el: Elementary, gamma: seq<Complex>, gf: seq<Complex>, h: seq<real>)
    requires |gamma| == |gf| == |h| >= 2 && LayersDefined(gf)
    requires forall k :: 0 <= k < |gamma| - 1 ==> LosslessLayer(gamma[k], gf[k])
    requires gf[0].im == 0.0 && gf[0].re > 0.0
    requires (gf[|gf| - 1].im == 0.0 && gf[|gf| - 1].re > 0.0) || gf[|gf| - 1].re == 0.0
    requires Pythagorean(el) && RealOnRealAxis(el) && ParityOnImaginaryAxis(el)
    ensures AReady(el, gamma, gf, h)
    ensures AEngine(el, gamma, gf, h).R + AEngine(el, gamma, gf, h).T == 1.0
  {
    var A := Product(LayerMatrices(el, gamma, gf, h));
    assert RealUnimodular(A) by {
      RealGlobalMatrix(el, gamma, gf, h);
      GlobalUnimodular(el, gamma, gf, h);
      RealDeterminant(A);
    }
    GlobalEnergy(A, gf[0], gf[|gf| - 1]);
  }

}
