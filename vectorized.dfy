/** The three routines of PyMoosh/vectorized.py at one wavelength:
    `coefficient_S_opti_wavelength`, `coefficient_A_opti_wavelength` and
    `absorption_A_opti_wavelength`. Each is a method that runs the same steps as the
    source, proved equal to a specification function; the lemmas state what those
    functions promise and how the two formalisms agree. */
module Vectorized {
  import opened ComplexField
  import opened Matrix2
  import opened Elementary
  import opened Wavevector
  import opened StarProduct
  import opened Scattering
  import opened Abeles
  import opened Agreement
  import opened Absorption
  import opened Lossless

  /** A multilayer at one wavelength: the permittivity and permeability of every
      material, the material of every layer from top to bottom, and the layer
      thicknesses. */
  datatype Structure = Structure(epsilon: seq<Complex>, mu: seq<Complex>, layerType: seq<nat>, thickness: seq<real>)

  /** The light: the vacuum wavevector k0 = 2 pi / wavelength, the sine of the
      incidence angle, and the polarization (0 for TE, anything else for TM). */
  datatype Light = Light(k0: real, sinIncidence: real, polarization: int)

  predicate WellFormed(st: Structure) {
    |st.epsilon| == |st.mu| && |st.layerType| == |st.thickness| >= 1
    && forall k :: 0 <= k < |st.layerType| ==> st.layerType[k] < |st.epsilon|
  }

  /** values[Type]: the value of every layer's material. */
  function PerLayer(values: seq<Complex>, layerType: seq<nat>): (v: seq<Complex>)
    requires forall k :: 0 <= k < |layerType| ==> layerType[k] < |values|
    ensures |v| == |layerType|
  {
    seq(|layerType|, k requires 0 <= k < |layerType| => values[layerType[k]])
  }

  /** f: the permeability in TE, the permittivity in TM. */
  function Driver(st: Structure, light: Light): seq<Complex> {
    if IsTE(light.polarization) then st.mu else st.epsilon
  }

  /** The copy of the thicknesses with the first set to 0, so that the phase of r is
      measured at the top of the first interface. */
  function PhaseReference(h: seq<real>): (h': seq<real>)
    requires |h| >= 1
    ensures |h'| == |h| && h'[0] == 0.0 && h'[1..] == h[1..]
  {
    h[0 := 0.0]
  }

  /** The per-layer quantities every routine builds before its matrices: the vertical
      wavevectors gamma, the drivers f, the admittances gf == gamma / f and the
      thicknesses h with the first set to 0. */
  datatype Layers = Layers(gamma: seq<Complex>, f: seq<Complex>, gf: seq<Complex>, h: seq<real>)

  /** f, per layer. */
  function LayerDrivers(st: Structure, light: Light): (f: seq<Complex>)
    requires WellFormed(st)
    ensures |f| == |st.layerType|
  {
    PerLayer(Driver(st, light), st.layerType)
  }

  /** Every f_k is non-zero: gf divides by it. */
  predicate DriversNonZero(st: Structure, light: Light)
    requires WellFormed(st)
  {
    forall k :: 0 <= k < |st.layerType| ==> LayerDrivers(st, light)[k] != Zero
  }

  /** The layers of a structure under a given light. */
  function Prepare(el: Elementary, st: Structure, light: Light): (L: Layers)
    requires WellFormed(st) && DriversNonZero(st, light)
    ensures |L.gamma| == |L.f| == |L.gf| == |L.h| == |st.layerType|
    ensures L.h[0] == 0.0 && L.h[1..] == st.thickness[1..]
    ensures forall k :: 0 <= k < |L.f| ==>
              L.f[k] == (if IsTE(light.polarization) then st.mu else st.epsilon)[st.layerType[k]]
    ensures forall k :: 0 <= k < |L.f| ==> L.f[k] != Zero && Mul(L.gf[k], L.f[k]) == L.gamma[k]
  {
    var gamma := VerticalWavevectors(el, light.k0, light.sinIncidence,
                                     PerLayer(st.epsilon, st.layerType), PerLayer(st.mu, st.layerType));
    var f := LayerDrivers(st, light);
    Layers(gamma, f, Admittances(gamma, f), PhaseReference(st.thickness))
  }

  /** The opening steps shared by the three routines: the copy of the thicknesses, the
      per-layer materials, the wavevectors and the admittances. */
  method PrepareLayers(el: Elementary, st: Structure, light: Light) returns (L: Layers)
    requires WellFormed(st) && DriversNonZero(st, light)
    ensures L == Prepare(el, st, light)
  {
    var h := st.thickness[0 := 0.0];
    var eps, mu := PerLayer(st.epsilon, st.layerType), PerLayer(st.mu, st.layerType);
    var f := PerLayer(if IsTE(light.polarization) then st.mu else st.epsilon, st.layerType);
    var gamma := Wavevectors(el, light.k0, light.sinIncidence, eps, mu);
    assert f == LayerDrivers(st, light);
    var gf := Admittances(gamma, f);
    L := Layers(gamma, f, gf, h);
  }

  // ---------------------------------------------------------------- S formalism

  /** Every division of `coefficient_S_opti_wavelength` has a non-zero denominator. */
  predicate SDefined(el: Elementary, st: Structure, light: Light) {
    WellFormed(st) && DriversNonZero(st, light)
    && var L := Prepare(el, st, light); SReady(el, L.gamma, L.f, L.gf, L.h)
  }

  function CoefficientsS(el: Elementary, st: Structure, light: Light): (c: Coefficients)
    requires SDefined(el, st, light)
    ensures c.R == NormSq(c.r) >= 0.0
  {
    var L := Prepare(el, st, light);
    SEngine(el, L.gamma, L.f, L.gf, L.h)
  }

  /** `coefficient_S_opti_wavelength`: the layers, the list T, the cascade loop and the
      extraction. */
  method CoefficientS(el: Elementary, st: Structure, light: Light) returns (c: Coefficients)
    requires SDefined(el, st, light)
    ensures c == CoefficientsS(el, st, light)
  {
    var L := PrepareLayers(el, st, light);
    c := ScatteringEngine(el, L.gamma, L.f, L.gf, L.h);
  }

  /** The thicknesses enter the layers only through h. */
  lemma ThicknessOnlyInH(el: Elementary, st: Structure, light: Light, hs: seq<real>)
    requires WellFormed(st) && DriversNonZero(st, light) && |hs| == |st.thickness|
    ensures var st' := st.(thickness := hs);
            WellFormed(st') && DriversNonZero(st', light)
            && var L, L' := Prepare(el, st, light), Prepare(el, st', light);
               L'.gamma == L.gamma && L'.f == L.f && L'.gf == L.gf && L'.h == PhaseReference(hs)
  {
    var st' := st.(thickness := hs);
    assert LayerDrivers(st', light) == LayerDrivers(st, light);
  }

  /** Neither the first thickness (replaced by 0) nor the last (its propagation matrix
      is never cascaded) changes any result of the S formalism. */
  lemma OuterThicknessesUnused(el: Elementary, st: Structure, light: Light, h0: real, hL: real)
    requires SDefined(el, st, light)
    ensures var g := |st.layerType|;
            var st' := st.(thickness := st.thickness[0 := h0][g - 1 := hL]);
            SDefined(el, st', light) && CoefficientsS(el, st', light) == CoefficientsS(el, st, light)
  {
    var g := |st.layerType|;
    var hs := st.thickness[0 := h0][g - 1 := hL];
    ThicknessOnlyInH(el, st, light, hs);
    var L, L' := Prepare(el, st, light), Prepare(el, st.(thickness := hs), light);
    assert L.h[..g - 1] == L'.h[..g - 1] by {
      forall k | 0 <= k < g - 1
        ensures L.h[k] == L'.h[k]
      {
        if k > 0 {
          assert L.h[k] == L.h[1..][k - 1] == st.thickness[k];
        }
      }
    }
    EngineIgnoresLastThickness(el, L.gamma, L.f, L.gf, L.h, L'.h);
  }

  // ----------------------------------------------------------- Abeles formalism

  /** Every division of `coefficient_A_opti_wavelength` has a non-zero denominator, and
      there are at least two layers (the source reads T[0]). */
  predicate ADefined(el: Elementary, st: Structure, light: Light) {
    WellFormed(st) && DriversNonZero(st, light)
    && var L := Prepare(el, st, light); AReady(el, L.gamma, L.gf, L.h)
  }

  function CoefficientsA(el: Elementary, st: Structure, light: Light): (c: Coefficients)
    requires ADefined(el, st, light)
    ensures c.R == NormSq(c.r) >= 0.0
  {
    var L := Prepare(el, st, light);
    AEngine(el, L.gamma, L.gf, L.h)
  }

  /** `coefficient_A_opti_wavelength`: the layers, the layer matrices, the product
      loop and the closed formulas. */
  method CoefficientA(el: Elementary, st: Structure, light: Light) returns (c: Coefficients)
    requires ADefined(el, st, light)
    ensures c == CoefficientsA(el, st, light)
  {
    var L := PrepareLayers(el, st, light);
    c := AbelesEngine(el, L.gamma, L.gf, L.h);
  }

  /** The two routines agree on a single interface: the same r, t, R and T. */
  lemma RoutinesAgree(el: Elementary, st: Structure, light: Light)
    requires WellFormed(st) && DriversNonZero(st, light) && |st.layerType| == 2
    requires var gf := Prepare(el, st, light).gf; gf[0] != Zero && Add(gf[0], gf[1]) != Zero
    requires ExpAtZero(el) && TrigAtZero(el)
    ensures SDefined(el, st, light) && ADefined(el, st, light)
    ensures CoefficientsS(el, st, light) == CoefficientsA(el, st, light)
  {
    var L := Prepare(el, st, light);
    FormalismsAgree(el, L.gamma, L.f, L.gf, L.h);
  }

  /** R + T == 1 for `coefficient_A_opti_wavelength` on a stack that absorbs nothing:
      every layer's material has a real permittivity and permeability, so each wave
      either propagates or is evanescent; the incidence admittance is positive and the
      substrate's has a non-negative real part (zero beyond the critical angle, where
      everything is reflected). */
  lemma LosslessBalance(el: Elementary, st: Structure, light: Light)
    requires WellFormed(st) && DriversNonZero(st, light) && |st.layerType| >= 2
    requires forall k :: 0 <= k < |st.layerType| ==>
               st.epsilon[st.layerType[k]].im == 0.0 && st.mu[st.layerType[k]].im == 0.0
    requires var L := Prepare(el, st, light);
             LayersDefined(L.gf) && L.gf[0].re > 0.0 && L.gf[|L.gf| - 1].re >= 0.0
    requires SquareRoots(el) && Pythagorean(el) && RealOnRealAxis(el) && ParityOnImaginaryAxis(el)
    ensures ADefined(el, st, light)
    ensures CoefficientsA(el, st, light).R + CoefficientsA(el, st, light).T == 1.0
  {
    var L := Prepare(el, st, light);
    var eps, mu := PerLayer(st.epsilon, st.layerType), PerLayer(st.mu, st.layerType);
    RealSquares(el, light.k0, light.sinIncidence, eps, mu);
    assert L.gamma == VerticalWavevectors(el, light.k0, light.sinIncidence, eps, mu);
    forall k | 0 <= k < |L.gamma|
      ensures LosslessLayer(L.gamma[k], L.gf[k])
    {
      assert L.f[k].im == 0.0;
      AdmittanceOfLosslessWave(L.gamma[k], L.f[k], L.gf[k]);
    }
    LosslessStackEnergy(el, L.gamma, L.gf, L.h);
  }

  // --------------------------------------------------------------- absorption

  function AbsorptionOf(el: Elementary, st: Structure, light: Light): (res: AbsorptionResult)
    requires ADefined(el, st, light)
    ensures |res.absorb| == |st.layerType| && res.absorb[0] == 0.0
    ensures forall k :: 0 <= k < |res.absorb| ==> res.absorb[k] >= 0.0
    ensures res.coefficients == CoefficientsA(el, st, light)
  {
    var L := Prepare(el, st, light);
    AbsorptionSpec(el, L.gamma, L.gf, L.h, light.polarization)
  }

  /** `absorption_A_opti_wavelength`: the layers, every partial product, the closed
      formulas, the buffer of fields, the buffer of fluxes and their differences. */
  method AbsorptionA(el: Elementary, st: Structure, light: Light) returns (res: AbsorptionResult)
    requires ADefined(el, st, light)
    ensures res == AbsorptionOf(el, st, light)
  {
    var L := PrepareLayers(el, st, light);
    res := AbsorptionEngine(el, L.gamma, L.gf, L.h, light.polarization);
  }

  /** The absorbed fractions of a whole routine add up to at least 1 - R - T, and to
      exactly 1 - R - T when the flux never increases with depth. */
  lemma AbsorptionBalance(el: Elementary, st: Structure, light: Light)
    requires ADefined(el, st, light)
    requires TrigAtZero(el)
    requires var gf := Prepare(el, st, light).gf;
             IsTE(light.polarization) ==> gf[0].im == 0.0
    ensures var L, res := Prepare(el, st, light), AbsorptionOf(el, st, light);
            Sum(res.absorb) >= 1.0 - res.coefficients.R - res.coefficients.T
            && (NonIncreasing(Fluxes(el, L.gamma, L.gf, L.h, light.polarization)) ==>
                  Sum(res.absorb) == 1.0 - res.coefficients.R - res.coefficients.T)
  {
    var L := Prepare(el, st, light);
    EnergyBalance(el, L.gamma, L.gf, L.h, light.polarization);
  }
}
