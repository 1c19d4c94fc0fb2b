/** The vertical wavevectors gamma_k of the layers at one wavelength, and the rules
    that pick the branch of each square root. The three routines of the source share
    this computation word for word (PyMoosh/vectorized.py:181-208, 317-343, 459-485),
    so it is modelled once. */
module Wavevector {
  import opened ComplexField
  import opened Elementary

  /** The horizontal wavevector, sqrt(eps_0 mu_0) k0 sin(incidence). */
  function Alpha(el: Elementary, k0: real, sinIncidence: real, epsFirst: Complex, muFirst: Complex): Complex {
    Scale(k0 * sinIncidence, el.sqrt(Mul(epsFirst, muFirst)))
  }

  /** eps mu k0^2 - alpha^2, whose square roots are the vertical wavevectors. */
  function Dispersion(k0: real, eps: Complex, mu: Complex, alpha: Complex): Complex {
    Sub(Scale(k0 * k0, Mul(eps, mu)), Mul(alpha, alpha))
  }

  /** The square roots as `np.sqrt` returns them, one per layer. */
  function PrincipalRoots(el: Elementary, k0: real, alpha: Complex, eps: seq<Complex>, mu: seq<Complex>): (roots: seq<Complex>)
    requires |eps| == |mu|
    ensures |roots| == |eps|
    ensures SquareRoots(el) ==> forall k :: 0 <= k < |roots| ==> Mul(roots[k], roots[k]) == Dispersion(k0, eps[k], mu[k], alpha)
  {
    seq(|eps|, k requires 0 <= k < |eps| => el.sqrt(Dispersion(k0, eps[k], mu[k], alpha)))
  }

  /** The incidence medium has negative index: both real parts are negative. */
  predicate NegativeIndex(eps: Complex, mu: Complex) {
    eps.re < 0.0 && mu.re < 0.0
  }

  /** The first mask of the outgoing-wave rule for the last medium. */
  predicate OutgoingFlip(eps: Complex, mu: Complex, gammaNew: Complex) {
    eps.re < 0.0 && mu.re < 0.0 && gammaNew.re != 0.0
  }

  /** The second mask of the outgoing-wave rule for the last medium. */
  predicate OutgoingKeep(eps: Complex, mu: Complex, gammaNew: Complex) {
    eps.re > 0.0 || mu.re > 0.0 || gammaNew.re == 0.0
  }

  /** Multiplication by 1 - 2 [Im z < 0]: the branch with a non-negative imaginary
      part, that is, a wave that does not grow along the layer. */
  function Decaying(z: Complex): (w: Complex)
    ensures w.im >= 0.0
    ensures w == z || w == Neg(z)
    ensures z.im >= 0.0 ==> w == z
  {
    Scale(1.0 - 2.0 * (if z.im < 0.0 then 1.0 else 0.0), z)
  }

  /** First rule: the root of the incidence medium changes sign in a negative-index
      medium. */
  function IncidenceRule(gamma: seq<Complex>, epsFirst: Complex, muFirst: Complex): seq<Complex>
    requires |gamma| >= 1
  {
    gamma[0 := if NegativeIndex(epsFirst, muFirst) then Neg(gamma[0]) else gamma[0]]
  }

  /** Second rule, applied to the slice 1 : g-2, that is, to columns 1 .. g-3. */
  function InteriorRule(gamma: seq<Complex>): seq<Complex> {
    seq(|gamma|, k requires 0 <= k < |gamma| => if 1 <= k < |gamma| - 2 then Decaying(gamma[k]) else gamma[k])
  }

  /** Third rule: the two masks are written one after the other into the last column;
      where neither holds, the column keeps its value. */
  function OutgoingRule(gamma: seq<Complex>, epsLast: Complex, muLast: Complex, gammaNew: Complex): seq<Complex>
    requires |gamma| >= 1
  {
    var last := |gamma| - 1;
    gamma[last := if OutgoingKeep(epsLast, muLast, gammaNew) then gammaNew
                  else if OutgoingFlip(epsLast, muLast, gammaNew) then Neg(gammaNew)
                  else gamma[last]]
  }

  /** The three rules in the order of the source. */
  function Resolve(gamma: seq<Complex>, epsFirst: Complex, muFirst: Complex,
                   epsLast: Complex, muLast: Complex, gammaNew: Complex): seq<Complex>
    requires |gamma| >= 1
  {
    OutgoingRule(InteriorRule(IncidenceRule(gamma, epsFirst, muFirst)), epsLast, muLast, gammaNew)
  }

  /** The branch rules applied in place to the array of roots, as the source does with
      `np.putmask` and a slice assignment. */
  method ResolveBranches(gamma: array<Complex>, epsFirst: Complex, muFirst: Complex,
                         epsLast: Complex, muLast: Complex, gammaNew: Complex)
    requires gamma.Length >= 1
    modifies gamma
    ensures gamma[..] == Resolve(old(gamma[..]), epsFirst, muFirst, epsLast, muLast, gammaNew)
  {
    var g := gamma.Length;
    if NegativeIndex(epsFirst, muFirst) {
      gamma[0] := Neg(gamma[0]);
    }
    ghost var afterIncidence := gamma[..];
    assert afterIncidence == IncidenceRule(old(gamma[..]), epsFirst, muFirst);
    if g > 2 {
      forall k | 1 <= k < g - 2 {
        gamma[k] := Decaying(gamma[k]);
      }
    }
    assert gamma[..] == InteriorRule(afterIncidence);
    ghost var afterInterior := gamma[..];
    if OutgoingFlip(epsLast, muLast, gammaNew) {
      gamma[g - 1] := Neg(gammaNew);
    }
    if OutgoingKeep(epsLast, muLast, gammaNew) {
      gamma[g - 1] := gammaNew;
    }
    assert gamma[..] == OutgoingRule(afterInterior, epsLast, muLast, gammaNew);
  }

  /** The vertical wavevectors of all layers: the principal roots, then the branch
      rules, where `gamma_new` is the principal root of the last medium again. */
  function VerticalWavevectors(el: Elementary, k0: real, sinIncidence: real,
                               eps: seq<Complex>, mu: seq<Complex>): (gamma: seq<Complex>)
    requires |eps| == |mu| >= 1
    ensures |gamma| == |eps|
  {
    var g := |eps|;
    var alpha := Alpha(el, k0, sinIncidence, eps[0], mu[0]);
    var roots := PrincipalRoots(el, k0, alpha, eps, mu);
    Resolve(roots, eps[0], mu[0], eps[g - 1], mu[g - 1], roots[g - 1])
  }

  /** Computes the roots into a fresh array and resolves their branches in place. */
  method Wavevectors(el: Elementary, k0: real, sinIncidence: real, eps: seq<Complex>, mu: seq<Complex>)
    returns (gamma: seq<Complex>)
    requires |eps| == |mu| >= 1
    ensures gamma == VerticalWavevectors(el, k0, sinIncidence, eps, mu)
    ensures SquareRoots(el) ==> forall k :: 0 <= k < |gamma| ==>
              Mul(gamma[k], gamma[k]) == Dispersion(k0, eps[k], mu[k], Alpha(el, k0, sinIncidence, eps[0], mu[0]))
  {
    var g := |eps|;
    var alpha := Alpha(el, k0, sinIncidence, eps[0], mu[0]);
    var roots := new Complex[g];
    forall k | 0 <= k < g {
      roots[k] := el.sqrt(Dispersion(k0, eps[k], mu[k], alpha));
    }
    assert roots[..] == PrincipalRoots(el, k0, alpha, eps, mu);
    var gammaNew := el.sqrt(Dispersion(k0, eps[g - 1], mu[g - 1], alpha));
    ResolveBranches(roots, eps[0], mu[0], eps[g - 1], mu[g - 1], gammaNew);
    gamma := roots[..];
    DispersionRelation(el, k0, sinIncidence, eps, mu);
  }

  lemma NegSquare(z: Complex)
    ensures Mul(Neg(z), Neg(z)) == Mul(z, z)
  {
  }

  /** None of the three rules changes a square: each column ends as a root of the same
      number, provided `gamma_new` is a root of the last column's number. */
  lemma BranchesKeepSquares(gamma: seq<Complex>, epsFirst: Complex, muFirst: Complex,
                            epsLast: Complex, muLast: Complex, gammaNew: Complex)
    requires |gamma| >= 1
    requires Mul(gammaNew, gammaNew) == Mul(gamma[|gamma| - 1], gamma[|gamma| - 1])
    ensures var r := Resolve(gamma, epsFirst, muFirst, epsLast, muLast, gammaNew);
            |r| == |gamma| && forall k :: 0 <= k < |r| ==> Mul(r[k], r[k]) == Mul(gamma[k], gamma[k])
  {
    var r := Resolve(gamma, epsFirst, muFirst, epsLast, muLast, gammaNew);
    NegSquare(gamma[0]);
    NegSquare(gammaNew);
    forall k | 0 <= k < |r|
      ensures Mul(r[k], r[k]) == Mul(gamma[k], gamma[k])
    {
      NegSquare(gamma[k]);
    }
  }

  /** Every vertical wavevector squares to eps_k mu_k k0^2 - alpha^2 when sqrt returns
      square roots: the sign rules choose a branch and nothing else. */
  lemma DispersionRelation(el: Elementary, k0: real, sinIncidence: real, eps: seq<Complex>, mu: seq<Complex>)
    requires |eps| == |mu| >= 1
    ensures var gamma := VerticalWavevectors(el, k0, sinIncidence, eps, mu);
            SquareRoots(el) ==> forall k :: 0 <= k < |gamma| ==>
              Mul(gamma[k], gamma[k]) == Dispersion(k0, eps[k], mu[k], Alpha(el, k0, sinIncidence, eps[0], mu[0]))
  {
    var g := |eps|;
    var alpha := Alpha(el, k0, sinIncidence, eps[0], mu[0]);
    var roots := PrincipalRoots(el, k0, alpha, eps, mu);
    BranchesKeepSquares(roots, eps[0], mu[0], eps[g - 1], mu[g - 1], roots[g - 1]);
  }

  /** A real incidence medium gives a real alpha^2. */
  lemma RealAlphaSquare(el: Elementary, k0: real, sinIncidence: real, epsFirst: Complex, muFirst: Complex)
    requires SquareRoots(el) && epsFirst.im == 0.0 && muFirst.im == 0.0
    ensures var alpha := Alpha(el, k0, sinIncidence, epsFirst, muFirst);
            Mul(alpha, alpha).im == 0.0
  {
    var c := k0 * sinIncidence;
    var s := el.sqrt(Mul(epsFirst, muFirst));
    var alpha := Scale(c, s);
    assert Mul(s, s) == Mul(epsFirst, muFirst);
    assert Mul(alpha, alpha).im == (c * c) * (2.0 * (s.re * s.im));
  }

  /** With a real eps and mu in every layer, every gamma_k^2 is real: each wave either
      propagates or is evanescent. */
  lemma RealSquares(el: Elementary, k0: real, sinIncidence: real, eps: seq<Complex>, mu: seq<Complex>)
    requires |eps| == |mu| >= 1 && SquareRoots(el)
    requires forall k :: 0 <= k < |eps| ==> eps[k].im == 0.0 && mu[k].im == 0.0
    ensures var gamma := VerticalWavevectors(el, k0, sinIncidence, eps, mu);
            forall k :: 0 <= k < |gamma| ==> Mul(gamma[k], gamma[k]).im == 0.0
  {
    DispersionRelation(el, k0, sinIncidence, eps, mu);
    var alpha := Alpha(el, k0, sinIncidence, eps[0], mu[0]);
    RealAlphaSquare(el, k0, sinIncidence, eps[0], mu[0]);
    forall k | 0 <= k < |eps|
      ensures Dispersion(k0, eps[k], mu[k], alpha).im == 0.0
    {
      assert Mul(eps[k], mu[k]).im == 0.0;
    }
  }

  /** Column 0 is negated exactly in a negative-index incidence medium (g >= 2, so the
      outgoing rule does not touch it). */
  lemma IncidenceBranch(gamma: seq<Complex>, epsFirst: Complex, muFirst: Complex,
                        epsLast: Complex, muLast: Complex, gammaNew: Complex)
    requires |gamma| >= 2
    ensures var r := Resolve(gamma, epsFirst, muFirst, epsLast, muLast, gammaNew);
            (NegativeIndex(epsFirst, muFirst) ==> r[0] == Neg(gamma[0]))
            && (!NegativeIndex(epsFirst, muFirst) ==> r[0] == gamma[0])
  {
  }

  /** Columns 1 .. g-3 end on the branch with Im >= 0 and differ from the principal
      root at most by sign; column g-2 is outside the slice and keeps the principal
      root. */
  lemma InteriorBranches(gamma: seq<Complex>, epsFirst: Complex, muFirst: Complex,
                         epsLast: Complex, muLast: Complex, gammaNew: Complex)
    requires |gamma| >= 1
    ensures var r := Resolve(gamma, epsFirst, muFirst, epsLast, muLast, gammaNew);
            |r| == |gamma|
            && (forall k :: 1 <= k < |gamma| - 2 ==>
                  r[k].im >= 0.0 && (r[k] == gamma[k] || r[k] == Neg(gamma[k]))
                  && (gamma[k].im >= 0.0 ==> r[k] == gamma[k]))
            && (|gamma| >= 3 ==> r[|gamma| - 2] == gamma[|gamma| - 2])
  {
  }

  /** The two masks of the outgoing rule never hold together. */
  lemma OutgoingMasksDisjoint(eps: Complex, mu: Complex, gammaNew: Complex)
    ensures !(OutgoingFlip(eps, mu, gammaNew) && OutgoingKeep(eps, mu, gammaNew))
  {
  }

  /** The last column ends as -gamma_new under the first mask, as gamma_new under the
      second, and keeps the value the earlier rules left otherwise. */
  lemma OutgoingBranch(gamma: seq<Complex>, epsFirst: Complex, muFirst: Complex,
                       epsLast: Complex, muLast: Complex, gammaNew: Complex)
    requires |gamma| >= 1
    ensures var r := Resolve(gamma, epsFirst, muFirst, epsLast, muLast, gammaNew);
            var last := |gamma| - 1;
            (OutgoingFlip(epsLast, muLast, gammaNew) ==> r[last] == Neg(gammaNew) && r[last].re != 0.0)
            && (OutgoingKeep(epsLast, muLast, gammaNew) ==> r[last] == gammaNew)
            && (!OutgoingFlip(epsLast, muLast, gammaNew) && !OutgoingKeep(epsLast, muLast, gammaNew) ==>
                  r[last] == IncidenceRule(gamma, epsFirst, muFirst)[last])
            && (|gamma| >= 2 ==> IncidenceRule(gamma, epsFirst, muFirst)[last] == gamma[last])
  {
    OutgoingMasksDisjoint(epsLast, muLast, gammaNew);
  }
}
