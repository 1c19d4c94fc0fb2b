/** The scattering-matrix engine of `coefficient_S_opti_wavelength` at one wavelength:
    the interleaved list of propagation and interface matrices, its left fold by the
    star product, and the extraction of r, t, R and T. */
module Scattering {
  import opened ComplexField
  import opened Matrix2
  import opened Elementary
  import opened StarProduct

  datatype Option<T> = None | Some(value: T)

  /** The reflection and transmission coefficients and the reflected and transmitted
      powers returned by both formalisms. */
  datatype Coefficients = Coefficients(r: Complex, t: Complex, R: real, T: real)

  /** gf_k = gamma_k / f_k, the admittance of layer k; f is mu in TE and epsilon in
      TM. */
  function Admittances(gamma: seq<Complex>, f: seq<Complex>): (gf: seq<Complex>)
    requires |gamma| == |f|
    requires forall k :: 0 <= k < |f| ==> f[k] != Zero
    ensures |gf| == |gamma|
    ensures forall k :: 0 <= k < |gf| ==> Mul(gf[k], f[k]) == gamma[k]
  {
    seq(|gamma|, k requires 0 <= k < |gamma| => Div(gamma[k], f[k]))
  }

  /** Every interface matrix has a non-zero denominator b1 + b2. */
  predicate InterfacesDefined(gf: seq<Complex>) {
    forall k :: 0 <= k < |gf| - 1 ==> Add(gf[k], gf[k + 1]) != Zero
  }

  /** exp(i gamma h), the phase a wave gathers across a layer of thickness h. */
  function PhaseFactor(el: Elementary, gamma: Complex, h: real): Complex {
    el.exp(Scale(h, Mul(I, gamma)))
  }

  /** Entry j of the list T: the empty slab at 0, the propagation matrix of layer k at
      2k+1 and the interface between layers k and k+1 at 2k+2. */
  function ScatteringAt(el: Elementary, gamma: seq<Complex>, gf: seq<Complex>, h: seq<real>, j: nat): Mat2
    requires |gamma| == |gf| == |h| && j < 2 * |gamma|
    requires InterfacesDefined(gf)
  {
    if j == 0 then Neutral
    else if j % 2 == 1 then Phase(PhaseFactor(el, gamma[j / 2], h[j / 2]))
    else Interface(gf[j / 2 - 1], gf[j / 2])
  }

  /** The 2g matrices of the list T. */
  function ScatteringMatrices(el: Elementary, gamma: seq<Complex>, gf: seq<Complex>, h: seq<real>): (ts: seq<Mat2>)
    requires |gamma| == |gf| == |h|
    requires InterfacesDefined(gf)
    ensures |ts| == 2 * |gamma|
  {
    seq(2 * |gamma|, j requires 0 <= j < 2 * |gamma| => ScatteringAt(el, gamma, gf, h, j))
  }

  /** Fills T in the order of the source: T[0], then a propagation and an interface
      matrix per layer but the last, then the propagation matrix of the last layer. */
  method FillScattering(T: array<Mat2>, el: Elementary, gamma: seq<Complex>, gf: seq<Complex>, h: seq<real>)
    requires |gamma| == |gf| == |h| >= 1 && T.Length == 2 * |gamma|
    requires InterfacesDefined(gf)
    modifies T
    ensures T[..] == ScatteringMatrices(el, gamma, gf, h)
  {
    var g := |gamma|;
    T[0] := Neutral;
    for k := 0 to g - 1
      invariant forall j :: 0 <= j < 2 * k + 1 ==> T[j] == ScatteringAt(el, gamma, gf, h, j)
    {
      T[2 * k + 1] := Phase(PhaseFactor(el, gamma[k], h[k]));
      T[2 * k + 2] := Interface(gf[k], gf[k + 1]);
    }
    T[2 * g - 1] := Phase(PhaseFactor(el, gamma[g - 1], h[g - 1]));
  }

  /** The left fold of the star product over a non-empty list; None as soon as one
      step has a zero denominator, where floating point would give inf or nan. */
  function Fold(ms: seq<Mat2>): Option<Mat2>
    requires |ms| >= 1
  {
    if |ms| == 1 then Some(ms[0])
    else
      match Fold(ms[..|ms| - 1])
      case None => None
      case Some(a) => if Joinable(a, ms[|ms| - 1]) then Some(Cascade(a, ms[|ms| - 1])) else None
  }

  /** A fold that succeeds succeeds on every non-empty prefix. */
  lemma {:induction false} FoldPrefix(ms: seq<Mat2>, n: nat)
    requires 1 <= n <= |ms|
    requires Fold(ms).Some?
    ensures Fold(ms[..n]).Some?
  {
    if n < |ms| {
      var init := ms[..|ms| - 1];
      assert Fold(init).Some?;
      FoldPrefix(init, n);
      assert init[..n] == ms[..n];
    } else {
      assert ms[..n] == ms;
    }
  }

  /** The cascade loop of the source: A[0] = T[0] and A[j+1] = A[j] * T[j+1] for
      j < len(T) - 2, so the last entry T[2g-1] is never folded in. */
  method CascadeStack(T: array<Mat2>) returns (s: Mat2)
    requires T.Length >= 2
    requires Fold(T[..T.Length - 1]).Some?
    ensures Fold(T[..T.Length - 1]) == Some(s)
  {
    var n := T.Length - 1;
    var A := new Mat2[n];
    A[0] := T[0];
    assert T[..1] == [T[0]];
    var j := 0;
    while j < n - 1
      invariant 0 <= j <= n - 1
      invariant Fold(T[..j + 1]) == Some(A[j])
    {
      FoldPrefix(T[..n], j + 2);
      assert T[..n][..j + 2] == T[..j + 2];
      assert T[..j + 2][..j + 1] == T[..j + 1];
      A[j + 1] := Cascade(A[j], T[j + 1]);
      j := j + 1;
    }
    s := A[n - 1];
  }

  /** |t|^2 Re(ratio): the transmitted power, where ratio is the ratio of the
      admittances of the last and the first medium. */
  function TransmittedPower(t: Complex, ratio: Complex): real {
    NormSq(t) * ratio.re
  }

  /** r = S00, t = S10, R = |r|^2 and T = Re(|t|^2 gamma_L f_0 / (gamma_0 f_L)). */
  function ExtractS(s: Mat2, gamma0: Complex, gammaL: Complex, f0: Complex, fL: Complex): (c: Coefficients)
    requires Mul(gamma0, fL) != Zero
    ensures c.r == s.m00 && c.t == s.m10
    ensures c.R == NormSq(c.r) >= 0.0 && c.T == TransmittedPower(c.t, Div(Mul(gammaL, f0), Mul(gamma0, fL)))
  {
    NormSqNonNegative(s.m00);
    Coefficients(s.m00, s.m10, NormSq(s.m00), TransmittedPower(s.m10, Div(Mul(gammaL, f0), Mul(gamma0, fL))))
  }

  /** The ratio of the S formalism, gamma_L f_0 / (gamma_0 f_L), is gf_L / gf_0, the
      ratio the Abeles formalism uses. */
  lemma TransmissionRatio(gamma0: Complex, gammaL: Complex, f0: Complex, fL: Complex)
    requires f0 != Zero && fL != Zero && gamma0 != Zero
    ensures Mul(gamma0, fL) != Zero && Div(gamma0, f0) != Zero
    ensures Div(Mul(gammaL, f0), Mul(gamma0, fL)) == Div(Div(gammaL, fL), Div(gamma0, f0))
  {
    MulNonZero(gamma0, fL);
    var gf0, gfL := Div(gamma0, f0), Div(gammaL, fL);
    if gf0 == Zero {
      MulZero(f0);
      assert false;
    }
    var q := Div(gfL, gf0);
    // q gamma_0 f_L == (q gf_0) (f_0 f_L) == gf_L (f_L f_0) == gamma_L f_0
    calc {
      Mul(q, Mul(gamma0, fL));
      Mul(q, Mul(Mul(gf0, f0), fL));
      { MulAssoc(gf0, f0, fL); }
      Mul(q, Mul(gf0, Mul(f0, fL)));
      { MulAssoc(q, gf0, Mul(f0, fL)); }
      Mul(Mul(q, gf0), Mul(f0, fL));
      Mul(gfL, Mul(f0, fL));
      { MulComm(f0, fL); }
      Mul(gfL, Mul(fL, f0));
      { MulAssoc(gfL, fL, f0); }
      Mul(Mul(gfL, fL), f0);
      Mul(gammaL, f0);
    }
    DivUnique(Mul(gammaL, f0), Mul(gamma0, fL), q);
  }

  /** The last layer's thickness only enters T[2g-1], which the fold never reaches, so
      it cannot change r or t. */
  lemma LastThicknessUnused(el: Elementary, gamma: seq<Complex>, gf: seq<Complex>, h: seq<real>, h': seq<real>)
    requires |gamma| == |gf| == |h| == |h'| >= 1
    requires InterfacesDefined(gf)
    requires h[..|h| - 1] == h'[..|h'| - 1]
    ensures var n := 2 * |gamma| - 1;
            Fold(ScatteringMatrices(el, gamma, gf, h)[..n]) == Fold(ScatteringMatrices(el, gamma, gf, h')[..n])
  {
    var n := 2 * |gamma| - 1;
    var ts, ts' := ScatteringMatrices(el, gamma, gf, h), ScatteringMatrices(el, gamma, gf, h');
    forall j | 0 <= j < n
      ensures ts[j] == ts'[j]
    {
      if j % 2 == 1 {
        assert j / 2 < |h| - 1;
        assert h[j / 2] == h[..|h| - 1][j / 2] == h'[j / 2];
      }
    }
    assert ts[..n] == ts'[..n];
  }

  /** Every division of the S formalism has a non-zero denominator, given the
      wavevectors gamma, the drivers f, the admittances gf and the thicknesses h of the
      layers. */
  predicate SReady(el: Elementary, gamma: seq<Complex>, f: seq<Complex>, gf: seq<Complex>, h: seq<real>) {
    |gamma| == |f| == |gf| == |h| >= 1
    && InterfacesDefined(gf)
    && Fold(ScatteringMatrices(el, gamma, gf, h)[..2 * |gamma| - 1]).Some?
    && Mul(gamma[0], f[|f| - 1]) != Zero
  }

  /** r, t, R and T of the S formalism. */
  function SEngine(el: Elementary, gamma: seq<Complex>, f: seq<Complex>, gf: seq<Complex>, h: seq<real>): (c: Coefficients)
    requires SReady(el, gamma, f, gf, h)
    ensures c.R == NormSq(c.r) >= 0.0
    ensures c.T == TransmittedPower(c.t, Div(Mul(gamma[|gamma| - 1], f[0]), Mul(gamma[0], f[|f| - 1])))
  {
    var g := |gamma|;
    ExtractS(Fold(ScatteringMatrices(el, gamma, gf, h)[..2 * g - 1]).value, gamma[0], gamma[g - 1], f[0], f[g - 1])
  }

  /** r, t, R and T of the S formalism do not depend on the last layer's thickness. */
  lemma EngineIgnoresLastThickness(el: Elementary, gamma: seq<Complex>, f: seq<Complex>, gf: seq<Complex>,
                                   h: seq<real>, h': seq<real>)
    requires SReady(el, gamma, f, gf, h) && |h'| == |h| && h[..|h| - 1] == h'[..|h'| - 1]
    ensures SReady(el, gamma, f, gf, h') && SEngine(el, gamma, f, gf, h') == SEngine(el, gamma, f, gf, h)
  {
    LastThicknessUnused(el, gamma, gf, h, h');
  }

  /** Fills T and runs the cascade loop: the result is the fold of all of T but its
      last entry. */
  method CascadeLayers(el: Elementary, gamma: seq<Complex>, gf: seq<Complex>, h: seq<real>) returns (s: Mat2)
    requires |gamma| == |gf| == |h| >= 1 && InterfacesDefined(gf)
    requires Fold(ScatteringMatrices(el, gamma, gf, h)[..2 * |gamma| - 1]).Some?
    ensures Fold(ScatteringMatrices(el, gamma, gf, h)[..2 * |gamma| - 1]) == Some(s)
  {
    var T := new Mat2[2 * |gamma|];
    FillScattering(T, el, gamma, gf, h);
    s := CascadeStack(T);
  }

  /** The S-formalism steps of `coefficient_S_opti_wavelength` once the layers are
      known: fill T, run the cascade loop, extract the coefficients. */
  method ScatteringEngine(el: Elementary, gamma: seq<Complex>, f: seq<Complex>, gf: seq<Complex>, h: seq<real>)
    returns (c: Coefficients)
    requires SReady(el, gamma, f, gf, h)
    ensures c == SEngine(el, gamma, f, gf, h)
  {
    var s := CascadeLayers(el, gamma, gf, h);
    c := ExtractS(s, gamma[0], gamma[|gamma| - 1], f[0], f[|f| - 1]);
  }

  /** One step of the fold: a prefix that folds to a, then a last matrix that can be
      joined to a. */
  lemma FoldStep(ms: seq<Mat2>, a: Mat2)
    requires |ms| >= 2 && Fold(ms[..|ms| - 1]) == Some(a) && Joinable(a, ms[|ms| - 1])
    ensures Fold(ms) == Some(Cascade(a, ms[|ms| - 1]))
  {
  }

  /** The fold of two matrices is their star product. */
  lemma FoldPair(ms: seq<Mat2>, a: Mat2)
    requires |ms| == 2 && ms[0] == a && Joinable(a, ms[1])
    ensures Fold(ms) == Some(Cascade(a, ms[1]))
  {
    assert ms[..1] == [a];
  }

  /** The empty slab, then a propagation matrix: the fold is the propagation
      matrix. */
  lemma FoldNeutralPhasePair(ms: seq<Mat2>, p: Complex)
    requires |ms| == 2 && ms[0] == Neutral && ms[1] == Phase(p)
    ensures Fold(ms) == Some(Phase(p))
  {
    CascadeNeutral(Phase(p));
    FoldPair(ms, Neutral);
  }

  /** The empty slab and a propagation matrix, then any matrix m: the fold is the
      propagation matrix joined to m. */
  lemma FoldNeutralPhase(ms: seq<Mat2>, p: Complex)
    requires |ms| == 3 && ms[0] == Neutral && ms[1] == Phase(p) && Joinable(Phase(p), ms[2])
    ensures Fold(ms) == Some(Cascade(Phase(p), ms[2]))
  {
    FoldNeutralPhasePair(ms[..2], p);
    FoldStep(ms, Phase(p));
  }

  /** With phase factor 1 the fold gives the third matrix unchanged. */
  lemma FoldUnitPrefix(ms: seq<Mat2>, p: Complex)
    requires |ms| == 3 && ms[0] == Neutral && ms[1] == Phase(p) && p == One
    ensures Fold(ms) == Some(ms[2])
  {
    CascadePhaseOne(p, ms[2]);
    FoldNeutralPhase(ms, p);
  }

  /** A single interface (g == 2) with the phase reference at the top of layer 0
      (h_0 == 0): r and t are the Fresnel coefficients (gf_0 - gf_1) / (gf_0 + gf_1)
      and r + 1, the entries S00 and S10 of the interface matrix, whatever h_1. */
  lemma SingleInterfaceS(el: Elementary, gamma: seq<Complex>, f: seq<Complex>, gf: seq<Complex>, h: seq<real>)
    requires |gamma| == |f| == |gf| == |h| == 2 && h[0] == 0.0
    requires Add(gf[0], gf[1]) != Zero && Mul(gamma[0], f[1]) != Zero
    requires ExpAtZero(el)
    ensures SReady(el, gamma, f, gf, h)
    ensures SEngine(el, gamma, f, gf, h).r == Div(Sub(gf[0], gf[1]), Add(gf[0], gf[1]))
    ensures SEngine(el, gamma, f, gf, h).t == Add(SEngine(el, gamma, f, gf, h).r, One)
  {
    var ts := ScatteringMatrices(el, gamma, gf, h);
    var p := PhaseFactor(el, gamma[0], h[0]);
    assert p == One by {
      assert Scale(h[0], Mul(I, gamma[0])) == Zero;
    }
    var s3 := ts[..3];
    assert s3[0] == Neutral && s3[1] == Phase(p);
    FoldUnitPrefix(s3, p);
    assert s3[2] == Interface(gf[0], gf[1]);
  }
}
