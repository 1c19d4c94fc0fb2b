/** How the S and Abeles formalisms relate: on a single interface they give the same
    r, t, R and T, and across a lossless interface R + T == 1. */
module Agreement {
  import opened ComplexField
  import opened Matrix2
  import opened Elementary
  import opened StarProduct
  import opened Scattering
  import opened Abeles

  /** With gf_k f_k == gamma_k, the ratio of the S formalism, gamma_1 f_0 /
      (gamma_0 f_1), is the ratio gf_1 / gf_0 of the Abeles formalism. */
  lemma SameRatio(gamma: seq<Complex>, f: seq<Complex>, gf: seq<Complex>)
    requires |gamma| == |f| == |gf| == 2
    requires f[0] != Zero && f[1] != Zero && gf[0] != Zero
    requires Mul(gf[0], f[0]) == gamma[0] && Mul(gf[1], f[1]) == gamma[1]
    ensures Mul(gamma[0], f[|f| - 1]) != Zero
    ensures Div(Mul(gamma[|gamma| - 1], f[0]), Mul(gamma[0], f[|f| - 1])) == Div(gf[|gf| - 1], gf[0])
  {
    MulNonZero(gf[0], f[0]);
    TransmissionRatio(gamma[0], gamma[1], f[0], f[1]);
    DivUnique(gamma[0], f[0], gf[0]);
    DivUnique(gamma[1], f[1], gf[1]);
  }

  /** The two formalisms agree on a single interface (g == 2) with the phase reference
      at the top of layer 0: the same r, t, R and T. */
  lemma FormalismsAgree(el: Elementary, gamma: seq<Complex>, f: seq<Complex>, gf: seq<Complex>, h: seq<real>)
    requires |gamma| == |f| == |gf| == |h| == 2 && h[0] == 0.0
    requires f[0] != Zero && f[1] != Zero
    requires Mul(gf[0], f[0]) == gamma[0] && Mul(gf[1], f[1]) == gamma[1]
    requires gf[0] != Zero && Add(gf[0], gf[1]) != Zero
    requires ExpAtZero(el) && TrigAtZero(el)
    ensures SReady(el, gamma, f, gf, h) && AReady(el, gamma, gf, h)
    ensures SEngine(el, gamma, f, gf, h) == AEngine(el, gamma, gf, h)
  {
    SameRatio(gamma, f, gf);
    SingleInterfaceS(el, gamma, f, gf, h);
    SingleInterfaceAbeles(el, gamma, gf, h);
    var cS, cA := SEngine(el, gamma, f, gf, h), AEngine(el, gamma, gf, h);
    assert cS.r == cA.r && cS.t == cA.t;
    assert cS.R == cA.R && cS.T == cA.T;
  }

  /** The Fresnel coefficients of an interface between real positive admittances b0
      and b1 carry all the power: |r|^2 + |t|^2 b1 / b0 == 1. */
  lemma FresnelPowers(b0: real, b1: real, r: Complex, t: Complex)
    requires b0 > 0.0 && b1 > 0.0
    requires r == Div(Sub(OfReal(b0), OfReal(b1)), Add(OfReal(b0), OfReal(b1))) && t == Add(r, One)
    ensures NormSq(r) + TransmittedPower(t, Div(OfReal(b1), OfReal(b0))) == 1.0
  {
    InterfaceEnergy(b0, b1);
    DivReal(b1, b0);
  }

  /** Energy conservation across one lossless interface: with real positive
      admittances, R + T == 1 (in either formalism, since they agree). */
  lemma SingleInterfaceEnergy(el: Elementary, gamma: seq<Complex>, gf: seq<Complex>, h: seq<real>, b0: real, b1: real)
    requires |gamma| == |gf| == |h| == 2 && h[0] == 0.0
    requires b0 > 0.0 && b1 > 0.0 && gf[0] == OfReal(b0) && gf[1] == OfReal(b1)
    requires TrigAtZero(el)
    ensures AReady(el, gamma, gf, h)
    ensures AEngine(el, gamma, gf, h).R + AEngine(el, gamma, gf, h).T == 1.0
  {
    assert Add(gf[0], gf[1]) == OfReal(b0 + b1);
    SingleInterfaceAbeles(el, gamma, gf, h);
    var c := AEngine(el, gamma, gf, h);
    FresnelPowers(b0, b1, c.r, c.t);
    assert gf[|gf| - 1] == OfReal(b1);
  }
}
