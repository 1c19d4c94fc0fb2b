/** The transcendental functions the multilayer computation calls (`np.sqrt`,
    `np.exp`, `np.cos`, `np.sin` on complex arguments). They are not computed here:
    every operation receives them as parameters, and a lemma that needs one of their
    properties states it as a hypothesis. */
module Elementary {
  import opened ComplexField

  datatype Elementary = Elementary(
    sqrt: Complex -> Complex,
    exp: Complex -> Complex,
    cos: Complex -> Complex,
    sin: Complex -> Complex)

  /** sqrt returns a square root, whichever branch it picks. */
  ghost predicate SquareRoots(el: Elementary) {
    forall z :: Mul(el.sqrt(z), el.sqrt(z)) == z
  }

  /** exp(0) == 1 */
  predicate ExpAtZero(el: Elementary) {
    el.exp(Zero) == One
  }

  /** cos(0) == 1 and sin(0) == 0 */
  predicate TrigAtZero(el: Elementary) {
    el.cos(Zero) == One && el.sin(Zero) == Zero
  }

  /** cos^2 + sin^2 == 1 on the whole complex plane. */
  ghost predicate Pythagorean(el: Elementary) {
    forall z :: Add(Mul(el.cos(z), el.cos(z)), Mul(el.sin(z), el.sin(z))) == One
  }

  /** cos and sin map the real axis into itself. */
  ghost predicate RealOnRealAxis(el: Elementary) {
    forall z: Complex {:trigger el.cos(z)} {:trigger el.sin(z)} :: z.im == 0.0 ==> el.cos(z).im == 0.0 && el.sin(z).im == 0.0
  }

  /** cos is even and sin is odd: on the imaginary axis cos is real and sin is
      imaginary (cos(iy) == cosh y, sin(iy) == i sinh y). */
  ghost predicate ParityOnImaginaryAxis(el: Elementary) {
    forall z: Complex {:trigger el.cos(z)} {:trigger el.sin(z)} :: z.re == 0.0 ==> el.cos(z).im == 0.0 && el.sin(z).re == 0.0
  }
}
