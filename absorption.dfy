/** Field reconstruction and absorption of `absorption_A_opti_wavelength` at one
    wavelength: the field (E, dE/dz) at the bottom of every layer that has a matrix
    (the top of the next one) and below the stack, the Poynting flux it
    carries, and the absorption per layer as the drop of the flux. */
module Absorption {
  import opened ComplexField
  import opened Matrix2
  import opened Elementary
  import opened Scattering
  import opened Abeles

  /** What `absorption_A_opti_wavelength` returns: the absorption of every layer and
      r, t, R and T. */
  datatype AbsorptionResult = AbsorptionResult(absorb: seq<real>, coefficients: Coefficients)

  /** TE is polarization 0; anything else is TM. */
  predicate IsTE(polarization: int) {
    polarization == 0
  }

  /** Row k < g-1 is A[k] applied to the incident field, the field at the bottom of
      layer k (the top of layer k + 1); the last row is the outgoing field
      (t, -i gf_L t). */
  function Fields(As: seq<Mat2>, r: Complex, t: Complex, gf0: Complex, gfL: Complex): (fs: seq<Vec2>)
    ensures |fs| == |As| + 1
    ensures fs[|As|] == Outgoing(t, gfL)
  {
    seq(|As|, k requires 0 <= k < |As| => Apply(As[k], Incident(r, gf0))) + [Outgoing(t, gfL)]
  }

  /** The loop that fills the buffer I. */
  method FieldRows(As: seq<Mat2>, r: Complex, t: Complex, gf0: Complex, gfL: Complex) returns (fs: seq<Vec2>)
    ensures fs == Fields(As, r, t, gf0, gfL)
  {
    var rows := new Vec2[|As| + 1];
    for k := 0 to |As|
      invariant forall j :: 0 <= j < k ==> rows[j] == Apply(As[j], Incident(r, gf0))
    {
      rows[k] := Vec2(Add(Mul(As[k].m00, Add(r, One)), Mul(As[k].m01, Mul(Mul(I, gf0), Sub(r, One)))),
                      Add(Mul(As[k].m10, Add(r, One)), Mul(As[k].m11, Mul(Mul(I, gf0), Sub(r, One)))));
    }
    rows[|As|] := Vec2(t, Mul(Mul(Neg(I), gfL), t));
    fs := rows[..];
  }

  /** The z-component of the Poynting vector of the field v, normalised by gf_0:
      Re(-i E conj(dE) / gf_0) in TE and Re(i conj(E) dE / gf_0) in TM. */
  function Flux(v: Vec2, gf0: Complex, polarization: int): real
    requires gf0 != Zero
  {
    if IsTE(polarization) then Div(Mul(Mul(Neg(I), v.x0), Conj(v.x1)), gf0).re
    else Div(Mul(Mul(I, Conj(v.x0)), v.x1), gf0).re
  }

  /** The two loops that fill the buffer `poynting`, one per polarization. */
  method PoyntingValues(fs: seq<Vec2>, gf0: Complex, polarization: int) returns (p: seq<real>)
    requires gf0 != Zero
    ensures |p| == |fs|
    ensures forall k :: 0 <= k < |p| ==> p[k] == Flux(fs[k], gf0, polarization)
  {
    var poynting := new real[|fs|];
    if IsTE(polarization) {
      for k := 0 to |fs|
        invariant forall j :: 0 <= j < k ==> poynting[j] == Flux(fs[j], gf0, polarization)
      {
        poynting[k] := Div(Mul(Mul(Neg(I), fs[k].x0), Conj(fs[k].x1)), gf0).re;
      }
    } else {
      for k := 0 to |fs|
        invariant forall j :: 0 <= j < k ==> poynting[j] == Flux(fs[j], gf0, polarization)
      {
        poynting[k] := Div(Mul(Mul(I, Conj(fs[k].x0)), fs[k].x1), gf0).re;
      }
    }
    p := poynting[..];
  }

  /** A leading 0 for the incidence medium, then |p[k-1] - p[k]|, the flux lost between
      the tops of two consecutive layers. */
  function Absorb(p: seq<real>): (a: seq<real>)
    requires |p| >= 1
    ensures |a| == |p| && a[0] == 0.0
    ensures forall k :: 0 <= k < |a| ==> a[k] >= 0.0
  {
    [0.0] + seq(|p| - 1, k requires 0 <= k < |p| - 1 => Abs(p[k] - p[k + 1]))
  }

  /** The last absorption is 0 when the last two fluxes are equal. */
  lemma AbsorbEqualNeighbours(p: seq<real>)
    requires |p| >= 2 && p[|p| - 2] == p[|p| - 1]
    ensures Absorb(p)[|p| - 1] == 0.0
  {
    assert Absorb(p)[|p| - 1] == Abs(p[|p| - 2] - p[|p| - 1]);
  }

  function Sum(s: seq<real>): real {
    if s == [] then 0.0 else Sum(s[..|s| - 1]) + s[|s| - 1]
  }

  /** The flux never increases from one layer to the next. */
  predicate NonIncreasing(p: seq<real>) {
    forall k :: 0 <= k < |p| - 1 ==> p[k + 1] <= p[k]
  }

  lemma AbsorbPrefix(p: seq<real>, n: nat)
    requires 1 <= n <= |p|
    ensures Absorb(p)[..n] == Absorb(p[..n])
  {
  }

  /** The absorbed fractions add up to at least the flux that enters minus the flux
      that leaves, and to exactly that when the flux never increases. */
  lemma {:induction false} AbsorbTelescopes(p: seq<real>)
    requires |p| >= 1
    ensures Sum(Absorb(p)) >= p[0] - p[|p| - 1]
    ensures NonIncreasing(p) ==> Sum(Absorb(p)) == p[0] - p[|p| - 1]
  {
    var a := Absorb(p);
    if |p| == 1 {
      assert a == [0.0];
      assert Sum(a) == Sum([]) + 0.0;
    } else {
      var n := |p| - 1;
      AbsorbPrefix(p, n);
      assert a[..|a| - 1] == Absorb(p[..n]);
      AbsorbTelescopes(p[..n]);
      assert Sum(a) == Sum(Absorb(p[..n])) + Abs(p[n - 1] - p[n]);
      if NonIncreasing(p) {
        assert NonIncreasing(p[..n]);
      }
    }
  }

  /** Division by a non-zero number commutes with a real factor. */
  lemma DivScale(k: real, z: Complex, w: Complex)
    requires w != Zero
    ensures Div(Scale(k, z), w) == Scale(k, Div(z, w))
  {
    var q := Div(z, w);
    MulScale(k, q, w);
    DivUnique(Scale(k, z), w, Scale(k, q));
  }

  /** A product of the form Mul(w, g) divided by g. */
  lemma DivMul(w: Complex, g: Complex)
    requires g != Zero
    ensures Div(Mul(w, g), g) == w
  {
    DivUnique(Mul(w, g), g, w);
  }

  /** At the top of the stack the TM flux is 1 - |r|^2: incident minus reflected
      power. */
  lemma TopFluxTM(r: Complex, gf0: Complex, polarization: int)
    requires gf0 != Zero && !IsTE(polarization)
    ensures Flux(Incident(r, gf0), gf0, polarization) == 1.0 - NormSq(r)
  {
    var c, s := Conj(Add(r, One)), Sub(r, One);
    var w := Neg(Mul(c, s));
    assert Mul(Mul(I, c), Mul(Mul(I, gf0), s)) == Mul(w, gf0) by {
      MulRegroup(I, c, Mul(I, gf0), s);
      ISquared(gf0);
      MulNeg(gf0, Mul(c, s));
      MulComm(gf0, Mul(c, s));
      MulNeg(Mul(c, s), gf0);
    }
    DivMul(w, gf0);
  }

  /** The same holds in TE when gf_0 is real, as in a lossless incidence medium. */
  lemma TopFluxTE(r: Complex, gf0: Complex, polarization: int)
    requires gf0 != Zero && gf0.im == 0.0 && IsTE(polarization)
    ensures Flux(Incident(r, gf0), gf0, polarization) == 1.0 - NormSq(r)
  {
    var u, s := Add(r, One), Sub(r, One);
    var w := Neg(Mul(u, Conj(s)));
    assert Mul(Mul(Neg(I), u), Conj(Mul(Mul(I, gf0), s))) == Mul(w, gf0) by {
      assert Conj(Mul(Mul(I, gf0), s)) == Mul(Mul(Neg(I), gf0), Conj(s)) by {
        ConjMul(Mul(I, gf0), s);
        ConjMul(I, gf0);
      }
      ISquared(gf0);
      MulRegroup(Neg(I), u, Mul(Neg(I), gf0), Conj(s));
      MulNeg(gf0, Mul(u, Conj(s)));
      MulComm(gf0, Mul(u, Conj(s)));
      MulNeg(Mul(u, Conj(s)), gf0);
    }
    DivMul(w, gf0);
    assert w.re == 1.0 - NormSq(r) by {
      assert w.re == -((r.re + 1.0) * (r.re - 1.0) + r.im * r.im);
    }
  }

  /** conj(a b) == conj(a) conj(b) */
  lemma ConjMul(a: Complex, b: Complex)
    ensures Conj(Mul(a, b)) == Mul(Conj(a), Conj(b))
  {
  }

  /** conj(z) z == |z|^2 */
  lemma ConjTimesSelf(z: Complex)
    ensures Mul(Conj(z), z) == OfReal(NormSq(z)) && Mul(z, Conj(z)) == OfReal(NormSq(z))
  {
  }

  lemma MulOfReal(z: Complex, k: real)
    ensures Mul(z, OfReal(k)) == Scale(k, z)
  {
  }

  /** At the bottom of the stack the TM flux is Re(|t|^2 gf_L / gf_0), the
      transmitted power T. */
  lemma BottomFluxTM(t: Complex, gf0: Complex, gfL: Complex, polarization: int)
    requires gf0 != Zero && !IsTE(polarization)
    ensures Flux(Outgoing(t, gfL), gf0, polarization) == TransmittedPower(t, Div(gfL, gf0))
  {
    var n := NormSq(t);
    assert Mul(Mul(I, Conj(t)), Mul(Mul(Neg(I), gfL), t)) == Scale(n, gfL) by {
      MulRegroup(I, Conj(t), Mul(Neg(I), gfL), t);
      ISquared(gfL);
      ConjTimesSelf(t);
      MulOfReal(gfL, n);
    }
    DivScale(n, gfL, gf0);
  }

  /** Dividing by a real number commutes with conjugation. */
  lemma DivConjReal(z: Complex, w: Complex)
    requires w != Zero && w.im == 0.0
    ensures Div(Conj(z), w) == Conj(Div(z, w))
  {
    var q := Div(z, w);
    ConjMul(q, w);
    assert Conj(w) == w;
    DivUnique(Conj(z), w, Conj(q));
  }

  /** The same holds in TE when gf_0 is real, as in a lossless incidence medium,
      whatever gf_L: also below an absorbing last medium, and for an evanescent
      outgoing wave, where Re(gf_L) == 0 and no power is transmitted. */
  lemma BottomFluxTE(t: Complex, gf0: Complex, gfL: Complex, polarization: int)
    requires gf0 != Zero && gf0.im == 0.0 && IsTE(polarization)
    ensures Flux(Outgoing(t, gfL), gf0, polarization) == TransmittedPower(t, Div(gfL, gf0))
  {
    var n, g := NormSq(t), Conj(gfL);
    assert Conj(Mul(Mul(Neg(I), gfL), t)) == Mul(Mul(I, g), Conj(t)) by {
      ConjMul(Mul(Neg(I), gfL), t);
      ConjMul(Neg(I), gfL);
    }
    assert Mul(Mul(Neg(I), t), Mul(Mul(I, g), Conj(t))) == Scale(n, g) by {
      MulRegroup(Neg(I), t, Mul(I, g), Conj(t));
      ISquared(g);
      ConjTimesSelf(t);
      MulOfReal(g, n);
    }
    DivScale(n, g, gf0);
    DivConjReal(gfL, gf0);
  }

  /** The field rows of `absorption_A_opti_wavelength`: the incident field carried by
      every partial product, then the outgoing field. */
  function FieldsOf(el: Elementary, gamma: seq<Complex>, gf: seq<Complex>, h: seq<real>): (fs: seq<Vec2>)
    requires AReady(el, gamma, gf, h)
    ensures |fs| == |gamma|
  {
    var c := AEngine(el, gamma, gf, h);
    Fields(PartialProductsOf(LayerMatrices(el, gamma, gf, h)), c.r, c.t, gf[0], gf[|gf| - 1])
  }

  /** The Poynting flux at the bottom of layer k (the top of layer k + 1) for every
      k < g-1 and, last, below the stack. */
  function Fluxes(el: Elementary, gamma: seq<Complex>, gf: seq<Complex>, h: seq<real>, polarization: int): (p: seq<real>)
    requires AReady(el, gamma, gf, h)
    ensures |p| == |gamma|
  {
    var fs := FieldsOf(el, gamma, gf, h);
    seq(|fs|, k requires 0 <= k < |fs| => Flux(fs[k], gf[0], polarization))
  }

  /** The absorption of every layer, with r, t, R and T of the Abeles formalism. */
  function AbsorptionSpec(el: Elementary, gamma: seq<Complex>, gf: seq<Complex>, h: seq<real>, polarization: int)
    : (res: AbsorptionResult)
    requires AReady(el, gamma, gf, h)
    ensures |res.absorb| == |gamma| && res.absorb[0] == 0.0
    ensures forall k :: 0 <= k < |res.absorb| ==> res.absorb[k] >= 0.0
    ensures res.coefficients == AEngine(el, gamma, gf, h)
  {
    AbsorptionResult(Absorb(Fluxes(el, gamma, gf, h, polarization)), AEngine(el, gamma, gf, h))
  }

  /** Every partial product, the closed formulas on the last one, and the buffer of
      field rows. */
  method FieldEngine(el: Elementary, gamma: seq<Complex>, gf: seq<Complex>, h: seq<real>)
    returns (c: Coefficients, fs: seq<Vec2>)
    requires AReady(el, gamma, gf, h)
    ensures c == AEngine(el, gamma, gf, h) && fs == FieldsOf(el, gamma, gf, h)
  {
    var As := LayerProducts(el, gamma, gf, h);
    c := ExtractA(As[|As| - 1], gf[0], gf[|gf| - 1]);
    fs := FieldRows(As, c.r, c.t, gf[0], gf[|gf| - 1]);
  }

  /** The steps of `absorption_A_opti_wavelength` once the layers are known: the
      field rows, the buffer of fluxes and their differences. */
  method AbsorptionEngine(el: Elementary, gamma: seq<Complex>, gf: seq<Complex>, h: seq<real>, polarization: int)
    returns (res: AbsorptionResult)
    requires AReady(el, gamma, gf, h)
    ensures res == AbsorptionSpec(el, gamma, gf, h, polarization)
  {
    var c, fs := FieldEngine(el, gamma, gf, h);
    var poynting := PoyntingValues(fs, gf[0], polarization);
    assert poynting == Fluxes(el, gamma, gf, h, polarization);
    res := AbsorptionResult(Absorb(poynting), c);
  }

  /** The field row of the last layer with a matrix, A[g-2] (r + 1, i gf_0 (r - 1)),
      equals the row appended for the last medium, (t, -i gf_L t): the two ways the
      source could have filled the last row agree. */
  lemma LastRowsAgree(el: Elementary, gamma: seq<Complex>, gf: seq<Complex>, h: seq<real>)
    requires AReady(el, gamma, gf, h)
    ensures var fs := FieldsOf(el, gamma, gf, h);
            fs[|gamma| - 2] == fs[|gamma| - 1] && fs[|gamma| - 2].x0 == AEngine(el, gamma, gf, h).t
  {
    OutgoingBoundary(Product(LayerMatrices(el, gamma, gf, h)), gf[0], gf[|gf| - 1]);
  }

  /** The substrate absorbs nothing: its entry is the drop between two equal rows, the
      field below the last layer with a matrix and the outgoing field. */
  lemma SubstrateAbsorbsNothing(el: Elementary, gamma: seq<Complex>, gf: seq<Complex>, h: seq<real>, polarization: int)
    requires AReady(el, gamma, gf, h)
    ensures AbsorptionSpec(el, gamma, gf, h, polarization).absorb[|gamma| - 1] == 0.0
  {
    var fs := FieldsOf(el, gamma, gf, h);
    var p := Fluxes(el, gamma, gf, h, polarization);
    assert fs[|gamma| - 2] == fs[|gamma| - 1] by {
      LastRowsAgree(el, gamma, gf, h);
    }
    assert p[|gamma| - 2] == Flux(fs[|gamma| - 2], gf[0], polarization);
    assert p[|gamma| - 1] == Flux(fs[|gamma| - 1], gf[0], polarization);
    AbsorbEqualNeighbours(p);
  }

  /** With h_0 == 0 the first field row is the incident field itself. */
  lemma TopRow(el: Elementary, gamma: seq<Complex>, gf: seq<Complex>, h: seq<real>, r: Complex, t: Complex)
    requires |gamma| == |gf| == |h| >= 2 && LayersDefined(gf) && h[0] == 0.0
    requires TrigAtZero(el)
    ensures Fields(PartialProductsOf(LayerMatrices(el, gamma, gf, h)), r, t, gf[0], gf[|gf| - 1])[0] == Incident(r, gf[0])
  {
    var ts := LayerMatrices(el, gamma, gf, h);
    assert ts[..1] == [ts[0]];
    FirstLayerIdentity(el, gamma, gf, h);
    ApplyIdentity(Incident(r, gf[0]));
  }

  /** The flux at the top is 1 - R and the flux below the stack is T: in TM always, in
      TE when gf_0 is real. */
  lemma OuterFluxes(el: Elementary, gamma: seq<Complex>, gf: seq<Complex>, h: seq<real>, polarization: int)
    requires AReady(el, gamma, gf, h) && h[0] == 0.0
    requires TrigAtZero(el)
    requires IsTE(polarization) ==> gf[0].im == 0.0
    ensures var p, c := Fluxes(el, gamma, gf, h, polarization), AEngine(el, gamma, gf, h);
            p[0] == 1.0 - c.R && p[|p| - 1] == c.T
  {
    var c := AEngine(el, gamma, gf, h);
    TopRow(el, gamma, gf, h, c.r, c.t);
    if IsTE(polarization) {
      TopFluxTE(c.r, gf[0], polarization);
      BottomFluxTE(c.t, gf[0], gf[|gf| - 1], polarization);
    } else {
      TopFluxTM(c.r, gf[0], polarization);
      BottomFluxTM(c.t, gf[0], gf[|gf| - 1], polarization);
    }
  }

  /** Energy balance: the absorbed fractions add up to at least 1 - R - T, and to
      exactly 1 - R - T when the flux never increases with depth. */
  lemma EnergyBalance(el: Elementary, gamma: seq<Complex>, gf: seq<Complex>, h: seq<real>, polarization: int)
    requires AReady(el, gamma, gf, h) && h[0] == 0.0
    requires TrigAtZero(el)
    requires IsTE(polarization) ==> gf[0].im == 0.0
    ensures var res := AbsorptionSpec(el, gamma, gf, h, polarization);
            Sum(res.absorb) >= 1.0 - res.coefficients.R - res.coefficients.T
            && (NonIncreasing(Fluxes(el, gamma, gf, h, polarization)) ==>
                  Sum(res.absorb) == 1.0 - res.coefficients.R - res.coefficients.T)
  {
    OuterFluxes(el, gamma, gf, h, polarization);
    AbsorbTelescopes(Fluxes(el, gamma, gf, h, polarization));
  }
}
