# PyMoosh vectorized core, modelled in Dafny

PyMoosh computes how a stack of flat layers reflects, transmits and absorbs light. This
project models the three routines of `PyMoosh/vectorized.py` at one wavelength:

- `coefficient_S_opti_wavelength` is the scattering-matrix formalism. It builds a list T
  of 2g matrices: the empty slab, then a propagation matrix and an interface matrix per
  layer, then the last propagation matrix. It folds all of T but the last entry with the
  Redheffer star product `cascade_opti_wavelength`, and reads r, t, R and T off the
  result.
- `coefficient_A_opti_wavelength` is the Abeles transfer-matrix formalism. It builds one
  2x2 matrix per layer but the last and multiplies them in order. It then solves the
  boundary conditions in closed form for r and t.
- `absorption_A_opti_wavelength` keeps every partial product of the Abeles loop. From
  them it rebuilds the field (E, dE/dz) at the bottom of every layer that has a matrix
  (the top of the next layer) and, last, the outgoing field below the stack; it takes
  the z-component of the Poynting vector there and reports the absorption of a layer as
  the drop of that flux across it. The first entry is 0 by construction, and so is the
  last (the substrate), since its two rows are the same field.

All three routines first compute the same things:

- the vertical wavevector gamma_k of every layer, from `np.sqrt`;
- three rules that choose the branch of each root;
- the admittances gf_k = gamma_k / f_k, where f is mu in TE and epsilon in TM.

Every routine is a `method` that performs the source's steps in order: array-filling
loops, the cascade loop, the product loop, the field and flux buffers. Each method is
proved equal to a specification function. Lemmas about those functions state what the
physics promises:

- which branch every wavevector ends on;
- the Fresnel coefficients of a single interface, in both formalisms;
- the two formalisms agree on one interface;
- R + T == 1 across one lossless interface, and in the Abeles formalism for a whole
  stack whose materials have real eps and mu. Each wave there either propagates or is
  evanescent. Beyond the critical angle at the substrate everything is reflected
  (R == 1, T == 0);
- the global transfer matrix has determinant 1;
- the closed formulas for r and t solve the boundary conditions;
- the flux at the top is 1 - R and below the stack is T;
- the absorbed fractions add up to at least 1 - R - T, with equality when the flux never
  increases, and the substrate absorbs nothing.

Complex numbers are pairs of reals with exact field arithmetic. `np.sqrt`, `np.exp`,
`np.cos` and `np.sin` are parameters of type `Elementary`. A lemma that needs one of
their properties assumes it as a hypothesis, for example that sqrt returns a square
root, that exp(0) == 1, that cos^2 + sin^2 == 1, that cos and sin are real on the
real axis, or that cos is even and sin odd.

Modules:

| module | file | models |
|---|---|---|
| ComplexField | complex.dfy | complex arithmetic |
| Matrix2 | matrix.dfy | 2x2 matrices, product, determinant |
| Elementary | elementary.dfy | the transcendental functions as parameters |
| StarProduct | star_product.dfy | `cascade_opti_wavelength`, propagation and interface matrices |
| Wavevector | wavevector.dfy | vertical wavevectors and their branch rules |
| Scattering | scattering.dfy | the S engine: list T, cascade loop, extraction |
| Abeles | abeles.dfy | the Abeles engine: layer matrices, product loop, closed formulas |
| Agreement | agreement.dfy | the S and Abeles engines on a single interface |
| Lossless | lossless.dfy | R + T == 1 for a whole stack without loss, with propagating and evanescent waves and total internal reflection at the substrate |
| Absorption | absorption.dfy | field rows, Poynting flux, absorption per layer |
| Vectorized | vectorized.dfy | the three routines on a structure and a light |

The branch rule for interior layers follows the code. The comment at
PyMoosh/vectorized.py:194 introduces it as a change of determination of the square root
for stability. The assignment at lines 195-197 is to the slice `gamma[:,1:g - 2]`. That
slice covers only columns 1 to g-3, so column g-2 keeps the principal root. `Wavevector.InteriorRule` and `Wavevector.InteriorBranches` model and
state the slice as written.

## Model

| member | source | states |
|---|---|---|
| StarProduct.Cascade | PyMoosh/vectorized.py:26-31 | the star product of an upper matrix A and a lower matrix B, dividing by 1 - B00 A11 (Joinable); its neutral element and its action on propagation matrices are CascadeNeutral, PhasesMultiply and CascadePhaseOne |
| StarProduct.Phase | PyMoosh/vectorized.py:219-221 | the propagation matrix [[0, t], [t, 0]] of a layer with phase factor t; cascading two of them multiplies the factors (PhasesMultiply) |
| StarProduct.CascadeUnit | PyMoosh/vectorized.py:26-31 | when 1 - B00 A11 == 1 the star product is the four combinations of entries with no division |
| StarProduct.CascadeNeutral | PyMoosh/vectorized.py:26-31 | the empty slab [[0,1],[1,0]] stored as T[0] is a two-sided neutral element of the star product, with a non-zero denominator on both sides |
| StarProduct.PhasesMultiply | PyMoosh/vectorized.py:26-31 | cascading two propagation matrices gives the propagation matrix of the product of their phase factors |
| StarProduct.CascadePhaseOne | PyMoosh/vectorized.py:219-221 | a propagation matrix with phase factor 1, that of a layer of zero thickness, is absorbed by the cascade |
| StarProduct.Interface | PyMoosh/vectorized.py:224-228 | the interface matrix has S10 == S00 + 1, S01 == S11 + 1 and S11 == -S00, and equal admittances on both sides give the empty slab |
| StarProduct.InterfaceRelations | PyMoosh/vectorized.py:227-228 | 2 b1 / (b1 + b2) is the reflection coefficient plus 1, the reflection coefficient from below is the opposite of the one from above, and equal admittances reflect nothing |
| StarProduct.InterfaceReal | PyMoosh/vectorized.py:227-228 | between real admittances the interface matrix is real, with entries (b1 - b2)/(b1 + b2), 2 b2/(b1 + b2), 2 b1/(b1 + b2) and (b2 - b1)/(b1 + b2) |
| StarProduct.InterfaceEnergy | PyMoosh/vectorized.py:227-228 | between real positive admittances \|S00\|^2 + \|S10\|^2 b2 / b1 == 1, so no power is lost at an interface |
| StarProduct.FresnelEnergy | PyMoosh/vectorized.py:227-228 | the real Fresnel coefficients u and v of an interface satisfy u^2 + v^2 b2 / b1 == 1 |
| StarProduct.AirGlassInterface | PyMoosh/vectorized.py:227-228 | an interface whose second admittance is 1.5 times the first has r == -0.2, reflects 4% and transmits 96% |
| Wavevector.Alpha | PyMoosh/vectorized.py:184 | the horizontal wavevector sqrt(eps_0 mu_0) k0 sin(incidence), shared by every layer |
| Wavevector.Dispersion | PyMoosh/vectorized.py:187-188 | eps_k mu_k k0^2 - alpha^2, the value every final gamma_k squares to (DispersionRelation) |
| Wavevector.IncidenceRule | PyMoosh/vectorized.py:191-192 | the first rule: gamma_0 changes sign when eps_0 and mu_0 both have negative real parts (IncidenceBranch) |
| Wavevector.InteriorRule | PyMoosh/vectorized.py:195-197 | the second rule, on the slice 1 : g-2 as written: columns 1 .. g-3 take the root with non-negative imaginary part (InteriorBranches) |
| Wavevector.OutgoingRule | PyMoosh/vectorized.py:200-208 | the third rule: the two masks written one after the other into the last column (OutgoingBranch, OutgoingMasksDisjoint) |
| Wavevector.Resolve | PyMoosh/vectorized.py:190-208 | the three rules in the order of the source; ResolveBranches computes it in place |
| Wavevector.VerticalWavevectors | PyMoosh/vectorized.py:181-208 | one gamma per layer: the principal roots, then the three rules with gamma_new the root of the last medium; DispersionRelation states what they satisfy |
| Wavevector.PrincipalRoots | PyMoosh/vectorized.py:187-188 | one root per layer, and each squares to eps_k mu_k k0^2 - alpha^2 when sqrt returns square roots |
| Wavevector.Decaying | PyMoosh/vectorized.py:196-197 | multiplying by 1 - 2 [Im z < 0] gives the root of z with non-negative imaginary part, differs from z at most by sign, and keeps z when Im z >= 0 |
| Wavevector.ResolveBranches | PyMoosh/vectorized.py:190-208 | the in-place masks and slice assignment leave the array equal to the three rules applied in order to its old contents |
| Wavevector.Wavevectors | PyMoosh/vectorized.py:181-208 | the method returns the branch-resolved roots, and each squares to the dispersion value of its layer when sqrt returns square roots |
| Wavevector.BranchesKeepSquares | PyMoosh/vectorized.py:190-208 | the branch rules only change signs, so every column keeps its square |
| Wavevector.DispersionRelation | PyMoosh/vectorized.py:181-208 | every final gamma_k satisfies gamma_k^2 == eps_k mu_k k0^2 - alpha^2 |
| Wavevector.RealAlphaSquare | PyMoosh/vectorized.py:182-184 | a real eps_0 and mu_0 give a real alpha^2 |
| Wavevector.RealSquares | PyMoosh/vectorized.py:181-208 | with real eps and mu in every layer, every final gamma_k^2 is real |
| Wavevector.IncidenceBranch | PyMoosh/vectorized.py:190-192 | gamma_0 is negated exactly when the incidence medium has eps and mu with negative real parts |
| Wavevector.InteriorBranches | PyMoosh/vectorized.py:194-197 | columns 1 to g-3 end with Im >= 0 and within a sign of the principal root, and column g-2 keeps the principal root |
| Wavevector.OutgoingMasksDisjoint | PyMoosh/vectorized.py:203-206 | the two masks of the outgoing-wave rule never hold together |
| Wavevector.OutgoingBranch | PyMoosh/vectorized.py:199-208 | the last column is -gamma_new under the first mask, gamma_new under the second, and otherwise the value the earlier rules left |
| Scattering.Admittances | PyMoosh/vectorized.py:216 | gf_k f_k == gamma_k for every layer |
| Scattering.PhaseFactor | PyMoosh/vectorized.py:219 | exp(i gamma_k h_k), the phase factor of layer k; with h == 0 and exp(0) == 1 it is 1 (FoldUnitPrefix) |
| Scattering.ScatteringAt | PyMoosh/vectorized.py:215-232 | entry j of T: the empty slab at 0, the propagation matrix of layer k at 2k+1, the interface between layers k and k+1 at 2k+2 |
| Scattering.ScatteringMatrices | PyMoosh/vectorized.py:211-232 | the 2g matrices of T, which FillScattering computes |
| Scattering.Fold | PyMoosh/vectorized.py:234-239 | the left fold of the star product over a list, None at a step with zero denominator; FoldPrefix and CascadeStack relate it to the loop |
| Scattering.FillScattering | PyMoosh/vectorized.py:211-232 | the filling loop leaves T equal to the empty slab, then the propagation and interface matrices of each layer, then the last propagation matrix |
| Scattering.FoldPrefix | PyMoosh/vectorized.py:234-239 | if the fold of a list succeeds, so does the fold of every non-empty prefix |
| Scattering.CascadeStack | PyMoosh/vectorized.py:234-239 | the cascade loop computes the left star-product fold of T without its last entry |
| Scattering.ExtractS | PyMoosh/vectorized.py:240-249 | r and t are the entries S00 and S10, R == \|r\|^2 >= 0, and T is \|t\|^2 times the real part of gamma_L f_0 / (gamma_0 f_L) |
| Scattering.TransmissionRatio | PyMoosh/vectorized.py:247-249 | the ratio gamma_L f_0 / (gamma_0 f_L) equals gf_L / gf_0, the ratio of the Abeles formalism |
| Scattering.LastThicknessUnused | PyMoosh/vectorized.py:230-239 | the last thickness only enters T[2g-1], which the fold never reaches |
| Scattering.EngineIgnoresLastThickness | PyMoosh/vectorized.py:230-249 | r, t, R and T of the S formalism do not depend on the last layer's thickness |
| Scattering.SEngine | PyMoosh/vectorized.py:240-249 | R == \|r\|^2 >= 0, and T is \|t\|^2 times the real part of the transmission ratio of the first and last layers |
| Scattering.CascadeLayers | PyMoosh/vectorized.py:211-239 | filling T and running the cascade loop gives the fold of all of T but its last entry |
| Scattering.ScatteringEngine | PyMoosh/vectorized.py:211-249 | the S steps after the wavevectors compute the specification SEngine |
| Scattering.FoldUnitPrefix | PyMoosh/vectorized.py:234-239 | with phase factor 1, the fold of the empty slab, the first propagation matrix and the first interface is that interface |
| Scattering.SingleInterfaceS | PyMoosh/vectorized.py:213-243 | for a single interface with h_0 == 0 and exp(0) == 1, r == (gf_0 - gf_1) / (gf_0 + gf_1) and t == r + 1 |
| Abeles.LayerMatrix | PyMoosh/vectorized.py:355-356 | the transfer matrix [[c, -s/gf], [gf s, c]] of a layer, of determinant c^2 + s^2 (LayerDet) |
| Abeles.LayerAt | PyMoosh/vectorized.py:347-356 | the matrix of layer k from cos and sin of gamma_k h_k and gf_k |
| Abeles.LayerMatrices | PyMoosh/vectorized.py:346-356 | the g-1 layer matrices, one per layer but the last, which FillLayers computes |
| Abeles.Product | PyMoosh/vectorized.py:360-369 | the ordered product T[n-1] ... T[0], each new layer on the left; determinant 1 by ProductUnimodular |
| Abeles.LayerDet | PyMoosh/vectorized.py:355-356 | the determinant of a layer matrix is c^2 + s^2, whatever the admittance |
| Abeles.FillLayers | PyMoosh/vectorized.py:346-356 | the filling loop leaves T equal to the g-1 layer matrices built from cos and sin of gamma_k h_k |
| Abeles.TransferProduct | PyMoosh/vectorized.py:360-369 | the product loop computes T[n-1] ... T[1] T[0] |
| Abeles.PartialProducts | PyMoosh/vectorized.py:502-510 | the loop keeps every partial product: A[i] == T[i] ... T[0] |
| Abeles.PartialProductsStep | PyMoosh/vectorized.py:503-510 | the partial products satisfy A[0] == T[0] and A[i] == T[i] A[i-1] |
| Abeles.ProductUnimodular | PyMoosh/vectorized.py:360-369 | a product of matrices of determinant 1 has determinant 1 |
| Abeles.LayersUnimodular | PyMoosh/vectorized.py:346-369 | with cos^2 + sin^2 == 1 every partial product of the layer matrices has determinant 1 |
| Abeles.GlobalUnimodular | PyMoosh/vectorized.py:360-369 | with cos^2 + sin^2 == 1 the global transfer matrix has determinant 1 |
| Abeles.ZeroThicknessLayer | PyMoosh/vectorized.py:347-356 | with cos(0) == 1 and sin(0) == 0 a layer of zero thickness has the identity as its transfer matrix |
| Abeles.FirstLayerIdentity | PyMoosh/vectorized.py:299-302 | once thickness[0] is set to 0, the matrix of layer 0 is the identity |
| Abeles.Denominator | PyMoosh/vectorized.py:376-382 | cpd + i gf_L apb, the denominator of r |
| Abeles.Numerator | PyMoosh/vectorized.py:376-382 | cmd + i gf_L amb; minus the numerator of r |
| Abeles.AbelesReflection | PyMoosh/vectorized.py:382 | r = -(cmd + i gf_L amb) / (cpd + i gf_L apb), which solves the boundary conditions (OutgoingBoundary) |
| Abeles.AbelesTransmission | PyMoosh/vectorized.py:384 | t = a (r + 1) + i gf_0 b (r - 1), the first component of A applied to the incident field (OutgoingBoundary) |
| Abeles.Incident | PyMoosh/vectorized.py:384 | the field (r + 1, i gf_0 (r - 1)) above the stack, whose flux is 1 - \|r\|^2 (TopFluxTM, TopFluxTE) |
| Abeles.Outgoing | PyMoosh/vectorized.py:384 | the field (t, -i gf_L t) below the stack, whose flux is T (BottomFluxTM, BottomFluxTE) |
| Abeles.ExtractA | PyMoosh/vectorized.py:371-388 | R == \|r\|^2 >= 0 and T is \|t\|^2 times the real part of gf_L / gf_0 |
| Abeles.OutgoingBoundary | PyMoosh/vectorized.py:376-384 | the closed formulas for r and t solve the boundary conditions: the global matrix carries (r + 1, i gf_0 (r - 1)) to (t, -i gf_L t) |
| Abeles.SingleInterfaceA | PyMoosh/vectorized.py:371-384 | when the global matrix is the identity, r == (gf_0 - gf_L) / (gf_0 + gf_L) and t == r + 1 |
| Abeles.AEngine | PyMoosh/vectorized.py:371-388 | R == \|r\|^2 >= 0, and T is \|t\|^2 times the real part of gf_L / gf_0 |
| Abeles.GlobalMatrix | PyMoosh/vectorized.py:346-369 | filling T and running the product loop gives the ordered product of the layer matrices |
| Abeles.AbelesEngine | PyMoosh/vectorized.py:346-390 | the Abeles steps after the wavevectors compute the specification AEngine |
| Abeles.SingleLayerIdentity | PyMoosh/vectorized.py:346-369 | for a single interface with h_0 == 0 the global matrix is the identity |
| Abeles.SingleInterfaceAbeles | PyMoosh/vectorized.py:371-384 | for a single interface with h_0 == 0, r and t are the Fresnel coefficients (gf_0 - gf_1) / (gf_0 + gf_1) and r + 1 |
| Abeles.PartialProductsOf | PyMoosh/vectorized.py:502-512 | there is one partial product per layer matrix, and the last is the global matrix that the closed formulas read |
| Abeles.LayerProducts | PyMoosh/vectorized.py:488-510 | filling T and running the loop of the absorption routine gives every partial product |
| Lossless.RealLayer | PyMoosh/vectorized.py:355-356 | a layer with real cos, sin and admittance has a real transfer matrix |
| Lossless.RealProduct | PyMoosh/vectorized.py:360-369 | a product of real matrices is real |
| Lossless.EvanescentLayer | PyMoosh/vectorized.py:355-356 | a layer with real cos, imaginary sin and imaginary admittance (an evanescent wave) has a real transfer matrix |
| Lossless.AdmittanceOfLosslessWave | PyMoosh/vectorized.py:349 | gf = gamma / f with real non-zero f is real when gamma is real and imaginary when gamma is imaginary |
| Lossless.RealGlobalMatrix | PyMoosh/vectorized.py:346-369 | layers whose gamma and gf are both real or both imaginary, with cos and sin real on the real axis, cos even and sin odd, give a real global matrix |
| Lossless.RealDeterminant | PyMoosh/vectorized.py:371-374 | for a real matrix, determinant 1 is ad - bc == 1 on the real parts |
| Lossless.RealFormulas | PyMoosh/vectorized.py:376-382 | for a real global matrix and real outer admittances, the denominator and numerator of r in components |
| Lossless.DenominatorGap | PyMoosh/vectorized.py:376-382 | with ad - bc == 1, the squared modulus of the denominator exceeds that of the numerator by 4 g0 gL |
| Lossless.NormGap | PyMoosh/vectorized.py:376-382 | for a real unimodular global matrix, \|den\|^2 == \|num\|^2 + 4 g0 gL |
| Lossless.CrossTerms | PyMoosh/vectorized.py:382-384 | with ad - bc == 1, (a - i g0 b) den - (a + i g0 b) num == 2 i g0 in components |
| Lossless.TransmissionExpansion | PyMoosh/vectorized.py:376-384 | for any global matrix, t times the denominator of r is (a - i gf_0 b) den - (a + i gf_0 b) num, since t is linear in r and r den == -num |
| Lossless.TransmissionTimesDenominator | PyMoosh/vectorized.py:382-384 | for a real unimodular global matrix, t times the denominator of r is 2 i g0 |
| Lossless.PowerTimesDenominator | PyMoosh/vectorized.py:388 | if t times the denominator of r is 2 i g0, then T times the squared modulus of that denominator is 4 g0 gL |
| Lossless.TransmittedPowerScaled | PyMoosh/vectorized.py:384-388 | for a real unimodular global matrix, T times \|den\|^2 is 4 g0 gL |
| Lossless.ReflectedPowerScaled | PyMoosh/vectorized.py:382-386 | R times \|den\|^2 is \|num\|^2, since r den == -num |
| Lossless.LosslessEnergy | PyMoosh/vectorized.py:376-388 | for any real global matrix of determinant 1 between positive admittances, the closed formulas are defined and R + T == 1 |
| Lossless.ImaginaryFormulas | PyMoosh/vectorized.py:376-382 | for a real global matrix, real gf_0 and imaginary gf_L, the denominator in components, and the numerator of r is its conjugate |
| Lossless.EvanescentDenominator | PyMoosh/vectorized.py:382 | with ad - bc == 1 and g0 > 0, the denominator c - k a + i g0 (d - k b) is not 0 |
| Lossless.EvanescentDefined | PyMoosh/vectorized.py:376-382 | for a real unimodular global matrix, positive gf_0 and imaginary gf_L, the closed formula for r is defined |
| Lossless.ConjugateReflection | PyMoosh/vectorized.py:382-386 | a reflection coefficient with r den == -conj(den) has \|r\|^2 == 1 |
| Lossless.NoPowerIntoEvanescent | PyMoosh/vectorized.py:388 | with real positive gf_0 and imaginary gf_L the transmitted power is 0 |
| Lossless.EvanescentEnergy | PyMoosh/vectorized.py:376-388 | total internal reflection: for a real unimodular global matrix, positive gf_0 and imaginary gf_L, the closed formulas are defined, R == 1 and T == 0 |
| Lossless.GlobalEnergy | PyMoosh/vectorized.py:376-388 | for a real unimodular global matrix, positive gf_0 and a gf_L that is real positive or imaginary, the closed formulas are defined and R + T == 1 |
| Lossless.LosslessStackEnergy | PyMoosh/vectorized.py:346-388 | for a stack whose layers have gamma and gf both real or both imaginary, a positive gf_0, a gf_L real positive or imaginary, cos^2 + sin^2 == 1, cos and sin real on the real axis, cos even and sin odd, the Abeles engine is defined and R + T == 1 |
| Agreement.SameRatio | PyMoosh/vectorized.py:247-249 | for one interface the S transmission ratio equals the Abeles ratio gf_1 / gf_0, and its denominator is non-zero |
| Agreement.FormalismsAgree | PyMoosh/vectorized.py:240-249 | on a single interface with h_0 == 0 both engines are defined and return the same r, t, R and T |
| Agreement.FresnelPowers | PyMoosh/vectorized.py:386-388 | the Fresnel coefficients between real positive admittances give \|r\|^2 + T == 1 |
| Agreement.SingleInterfaceEnergy | PyMoosh/vectorized.py:386-388 | across one interface between real positive admittances the Abeles engine returns R + T == 1 |
| Absorption.Flux | PyMoosh/vectorized.py:542-547 | the z-component of the Poynting vector of a field row, one formula per polarization; TopFluxTM/TE and BottomFluxTM/TE give its value above and below the stack |
| Absorption.Fields | PyMoosh/vectorized.py:532-538 | one field row per partial product plus one, and the last row is the outgoing field (t, -i gf_L t) |
| Absorption.FieldRows | PyMoosh/vectorized.py:532-538 | the loop over the buffer I computes each row as A[k] applied to the incident field, then appends the outgoing field |
| Absorption.FieldsOf | PyMoosh/vectorized.py:532-538 | one field row per layer, built from the Abeles coefficients; FieldRows computes it, TopRow states the first row and LastRowsAgree the last two |
| Absorption.Fluxes | PyMoosh/vectorized.py:540-547 | one Poynting flux per field row; PoyntingValues computes it, OuterFluxes states its first and last values and AbsorbTelescopes relates it to the absorptions |
| Absorption.PoyntingValues | PyMoosh/vectorized.py:540-547 | the two polarization loops give, row by row, the flux of the field row |
| Absorption.Absorb | PyMoosh/vectorized.py:549-553 | one absorption per layer, 0 for the incidence medium and never negative |
| Absorption.AbsorbEqualNeighbours | PyMoosh/vectorized.py:549-553 | a layer whose flux is the same at its top and at its bottom absorbs nothing |
| Absorption.AbsorbTelescopes | PyMoosh/vectorized.py:549-553 | the absorptions add up to at least the flux in minus the flux out, and to exactly that when the flux never increases |
| Absorption.TopFluxTM | PyMoosh/vectorized.py:545-547 | in TM the flux of the incident field (r + 1, i gf_0 (r - 1)) is 1 - \|r\|^2 |
| Absorption.TopFluxTE | PyMoosh/vectorized.py:542-544 | in TE with real gf_0 the flux of the incident field is 1 - \|r\|^2 |
| Absorption.BottomFluxTM | PyMoosh/vectorized.py:545-547 | in TM the flux of the outgoing field (t, -i gf_L t) is \|t\|^2 Re(gf_L / gf_0), the T of the closed formulas |
| Absorption.BottomFluxTE | PyMoosh/vectorized.py:542-544 | in TE with real gf_0, whatever gf_L, the flux of the outgoing field is \|t\|^2 Re(gf_L / gf_0) |
| Absorption.AbsorptionSpec | PyMoosh/vectorized.py:549-556 | one non-negative absorption per layer, the first 0, returned with the r, t, R and T of the Abeles engine |
| Absorption.FieldEngine | PyMoosh/vectorized.py:502-538 | the partial products, the closed formulas and the buffer I give the Abeles coefficients and the field rows |
| Absorption.AbsorptionEngine | PyMoosh/vectorized.py:502-556 | the absorption steps after the wavevectors compute the specification AbsorptionSpec |
| Absorption.LastRowsAgree | PyMoosh/vectorized.py:532-538 | the row of the last partial product equals the appended outgoing row (t, -i gf_L t) |
| Absorption.TopRow | PyMoosh/vectorized.py:534-536 | with h_0 == 0 the first field row is the incident field itself |
| Absorption.OuterFluxes | PyMoosh/vectorized.py:540-547 | the flux at the top is 1 - R and the flux below the stack is T, in TM always and in TE when gf_0 is real |
| Absorption.EnergyBalance | PyMoosh/vectorized.py:549-553 | in TM always and in TE when gf_0 is real, the absorptions add up to at least 1 - R - T, and to exactly 1 - R - T when the flux never increases |
| Absorption.SubstrateAbsorbsNothing | PyMoosh/vectorized.py:532-553 | the absorption of the last medium is 0: its two field rows are the same field |
| Vectorized.PerLayer | PyMoosh/vectorized.py:167-188 | the value of each layer's material, one per layer |
| Vectorized.Driver | PyMoosh/vectorized.py:170-173 | f is mu in TE (polarization 0) and epsilon otherwise |
| Vectorized.PhaseReference | PyMoosh/vectorized.py:163-166 | the copy of the thicknesses has the same length, 0 first, and every other thickness unchanged |
| Vectorized.Prepare | PyMoosh/vectorized.py:160-216 | one gamma, f, gf and h per layer; h_0 == 0 and the other thicknesses unchanged; f is mu in TE and epsilon in TM; gf_k f_k == gamma_k with f_k non-zero |
| Vectorized.PrepareLayers | PyMoosh/vectorized.py:160-216 | the opening steps of each routine compute the specification Prepare |
| Vectorized.CoefficientsS | PyMoosh/vectorized.py:118-251 | R == \|r\|^2 >= 0 for the whole structure |
| Vectorized.CoefficientS | PyMoosh/vectorized.py:118-251 | `coefficient_S_opti_wavelength` at one wavelength computes CoefficientsS |
| Vectorized.OuterThicknessesUnused | PyMoosh/vectorized.py:163-166 | changing the first or the last thickness changes none of r, t, R and T of the S routine |
| Vectorized.CoefficientsA | PyMoosh/vectorized.py:254-390 | R == \|r\|^2 >= 0 for the whole structure |
| Vectorized.CoefficientA | PyMoosh/vectorized.py:254-390 | `coefficient_A_opti_wavelength` at one wavelength computes CoefficientsA |
| Vectorized.RoutinesAgree | PyMoosh/vectorized.py:240-249 | on a single interface both routines are defined and return the same r, t, R and T |
| Vectorized.LosslessBalance | PyMoosh/vectorized.py:254-390 | for a structure whose materials all have real eps and mu, with gf_0 > 0 and Re gf_L >= 0, `coefficient_A_opti_wavelength` is defined and returns R + T == 1, whether the waves propagate or are evanescent |
| Vectorized.AbsorptionOf | PyMoosh/vectorized.py:549-556 | one non-negative absorption per layer, the first 0, returned with the coefficients of the Abeles routine |
| Vectorized.AbsorptionA | PyMoosh/vectorized.py:396-556 | `absorption_A_opti_wavelength` at one wavelength computes AbsorptionOf |
| Vectorized.AbsorptionBalance | PyMoosh/vectorized.py:549-556 | for a whole structure, in TM always and in TE when gf_0 is real, the absorptions add up to at least 1 - R - T, with equality when the flux never increases |

## Left out

- One wavelength at a time: the vectorisation over an array of wavelengths, with its numpy shapes and transposes, is not modelled. Every wavelength runs the same steps independently.
- `conv_to_nm`, `polarizability_opti_wavelength` and the material models are not part of this model. The routines receive epsilon and mu per material, and k0 == 2 pi / wavelength, as values.
- The other routines of the file, such as `spectrum`, `angular` and the plotting code, are not part of this model.
- `np.sqrt`, `np.exp`, `np.cos` and `np.sin` are not computed. They are parameters, and the lemmas that need them state the property they use as a hypothesis: square roots, exp(0) == 1, cos(0) == 1 with sin(0) == 0, or cos^2 + sin^2 == 1.
- Floating point: arithmetic is exact. The `complex` and `clongdouble` precisions, rounding, inf and nan are not modelled.
- Vectorized.CoefficientS: a zero denominator, where numpy would produce inf or nan, is excluded by requires instead of being computed. This covers b1 + b2 at an interface, 1 - B00 A11 in a cascade step, gamma_0 f_L in the ratio, and f_k in gf. The cascade fold returns an Option, and the routine requires it to succeed.
- Vectorized.CoefficientA: the same holds for gf_k in the layer matrices, gf_0 and the denominator of r. The routine also requires at least two layers, since the source reads T[0] of an array with g-1 entries.
- Vectorized.AbsorptionA: requires the same as Vectorized.CoefficientA.
- Absorption.TopFluxTE: assumes a real gf_0. For a complex admittance the TE flux formula of the source is not 1 - \|r\|^2.
- Vectorized.CoefficientsS: the agreement of the S routine with the Abeles routine is proved for a single interface only (Vectorized.RoutinesAgree), not for every stack, and R + T == 1 for a stack without loss is proved for the Abeles routine only.
- Vectorized.CoefficientsA: R + T == 1 is proved for a stack without loss (Vectorized.LosslessBalance); its equality with the S routine on stacks of more than two layers is not proved.
- Vectorized.LosslessBalance: gf_0 > 0 and Re gf_L >= 0 are hypotheses. The model does not prove that the branch rules of Wavevector always produce these signs.
- Vectorized.PrepareLayers: the deep copy of the caller's thickness list is modelled as a fresh value. The source never writes to the caller's structure.
