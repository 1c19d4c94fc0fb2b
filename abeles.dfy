/** The transfer-matrix (Abeles) engine of `coefficient_A_opti_wavelength` at one
    wavelength: one matrix per layer but the last, their ordered product, and the
    closed formulas for r, t, R and T. */
module Abeles {
  import opened ComplexField
  import opened Matrix2
  import opened Elementary
  import opened Scattering

  /** [[c, -s/gf], [gf s, c]], the transfer matrix of a layer with cos c, sin s and
      admittance gf. */
  function LayerMatrix(c: Complex, s: Complex, gf: Complex): Mat2
    requires gf != Zero
  {
    Mat2(c, Neg(Div(s, gf)), Mul(gf, s), c)
  }

  /** The determinant of a layer matrix is c^2 + s^2, whatever the admittance. */
  lemma LayerDet(c: Complex, s: Complex, gf: Complex)
    requires gf != Zero
    ensures Det(LayerMatrix(c, s, gf)) == Add(Mul(c, c), Mul(s, s))
  {
    var q := Div(s, gf);
    calc {
      Mul(q, Mul(gf, s));
      { MulAssoc(q, gf, s); }
      Mul(Mul(q, gf), s);
      Mul(s, s);
    }
    assert Mul(Neg(q), Mul(gf, s)) == Neg(Mul(q, Mul(gf, s)));
  }

  /** The admittance of every layer that has a matrix, all but the last, is non-zero:
      the matrix divides by it. */
  predicate LayersDefined(gf: seq<Complex>) {
    forall k :: 0 <= k < |gf| - 1 ==> gf[k] != Zero
  }

  /** The transfer matrix of layer k, from cos and sin of gamma_k h_k. */
  function LayerAt(el: Elementary, gamma: seq<Complex>, gf: seq<Complex>, h: seq<real>, k: nat): Mat2
    requires |gamma| == |gf| == |h| && k < |gamma| - 1
    requires LayersDefined(gf)
  {
    LayerMatrix(el.cos(Scale(h[k], gamma[k])), el.sin(Scale(h[k], gamma[k])), gf[k])
  }

  /** The g-1 layer matrices T[0 .. g-2]; the last medium has none. */
  function LayerMatrices(el: Elementary, gamma: seq<Complex>, gf: seq<Complex>, h: seq<real>): (ts: seq<Mat2>)
    requires |gamma| == |gf| == |h| >= 1
    requires LayersDefined(gf)
    ensures |ts| == |gamma| - 1
  {
    seq(|gamma| - 1, k requires 0 <= k < |gamma| - 1 => LayerAt(el, gamma, gf, h, k))
  }

  /** The loop of the source that fills T. */
  method FillLayers(T: array<Mat2>, el: Elementary, gamma: seq<Complex>, gf: seq<Complex>, h: seq<real>)
    requires |gamma| == |gf| == |h| >= 1 && T.Length == |gamma| - 1
    requires LayersDefined(gf)
    modifies T
    ensures T[..] == LayerMatrices(el, gamma, gf, h)
  {
    for k := 0 to T.Length
      invariant forall j :: 0 <= j < k ==> T[j] == LayerAt(el, gamma, gf, h, j)
    {
      var c, s := el.cos(Scale(h[k], gamma[k])), el.sin(Scale(h[k], gamma[k]));
      T[k] := LayerMatrix(c, s, gf[k]);
    }
  }

  /** T[n-1] . ... . T[1] . T[0]: every new layer multiplies on the left. */
  function Product(ts: seq<Mat2>): Mat2
    requires |ts| >= 1
  {
    if |ts| == 1 then ts[0] else MatMul(ts[|ts| - 1], Product(ts[..|ts| - 1]))
  }

  /** The product loop of `coefficient_A_opti_wavelength`, which keeps only the running
      product. */
  method TransferProduct(T: array<Mat2>) returns (A: Mat2)
    requires T.Length >= 1
    ensures A == Product(T[..])
  {
    A := T[0];
    assert T[..1] == [T[0]];
    for i := 1 to T.Length
      invariant A == Product(T[..i])
    {
      assert T[..i + 1][..i] == T[..i];
      A := MatMul(T[i], A);
    }
    assert T[..T.Length] == T[..];
  }

  /** The product loop of `absorption_A_opti_wavelength`, which keeps every partial
      product: A[i] == T[i] . A[i-1]. */
  method PartialProducts(T: array<Mat2>) returns (As: seq<Mat2>)
    requires T.Length >= 1
    ensures |As| == T.Length
    ensures forall i :: 0 <= i < |As| ==> As[i] == Product(T[..i + 1])
  {
    var A := new Mat2[T.Length];
    A[0] := T[0];
    assert T[..1] == [T[0]];
    for i := 1 to T.Length
      invariant forall j :: 0 <= j < i ==> A[j] == Product(T[..j + 1])
    {
      assert T[..i + 1][..i] == T[..i];
      A[i] := MatMul(T[i], A[i - 1]);
    }
    As := A[..];
  }

  /** If every factor has determinant 1, so has the product. */
  lemma {:induction false} ProductUnimodular(ts: seq<Mat2>)
    requires |ts| >= 1
    requires forall k :: 0 <= k < |ts| ==> Det(ts[k]) == One
    ensures Det(Product(ts)) == One
  {
    if |ts| > 1 {
      ProductUnimodular(ts[..|ts| - 1]);
      DetMul(ts[|ts| - 1], Product(ts[..|ts| - 1]));
      MulOne(One);
    }
  }

  /** With cos^2 + sin^2 == 1 every layer matrix, and so every partial product, has
      determinant 1. */
  lemma LayersUnimodular(el: Elementary, gamma: seq<Complex>, gf: seq<Complex>, h: seq<real>, n: nat)
    requires |gamma| == |gf| == |h| >= 1
    requires LayersDefined(gf)
    requires 1 <= n <= |gamma| - 1
    requires Pythagorean(el)
    ensures Det(Product(LayerMatrices(el, gamma, gf, h)[..n])) == One
  {
    var ts := LayerMatrices(el, gamma, gf, h)[..n];
    forall k | 0 <= k < |ts|
      ensures Det(ts[k]) == One
    {
      var z := Scale(h[k], gamma[k]);
      LayerDet(el.cos(z), el.sin(z), gf[k]);
      assert Add(Mul(el.cos(z), el.cos(z)), Mul(el.sin(z), el.sin(z))) == One;
    }
    ProductUnimodular(ts);
  }

  /** A layer of zero thickness, such as layer 0 once its thickness is forced to 0, has
      the identity as its transfer matrix. */
  lemma ZeroThicknessLayer(el: Elementary, gamma: Complex, gf: Complex)
    requires gf != Zero
    requires TrigAtZero(el)
    ensures LayerMatrix(el.cos(Scale(0.0, gamma)), el.sin(Scale(0.0, gamma)), gf) == Identity
  {
    assert Scale(0.0, gamma) == Zero;
    MulZero(gf);
    DivUnique(Zero, gf, Zero);
  }

  /** The denominator of the closed formula for r is non-zero. */
  predicate AbelesDefined(A: Mat2, gf0: Complex, gfL: Complex) {
    gf0 != Zero && Denominator(A, gf0, gfL) != Zero
  }

  /** cpd + i gf_L apb, with cpd = c + i gf_0 d and apb = a + i gf_0 b. */
  function Denominator(A: Mat2, gf0: Complex, gfL: Complex): Complex {
    var p := Mul(I, gf0);
    Add(Add(A.m10, Mul(p, A.m11)), Mul(Mul(I, gfL), Add(A.m00, Mul(p, A.m01))))
  }

  /** cmd + i gf_L amb, with cmd = c - i gf_0 d and amb = a - i gf_0 b. */
  function Numerator(A: Mat2, gf0: Complex, gfL: Complex): Complex {
    var p := Mul(I, gf0);
    Add(Sub(A.m10, Mul(p, A.m11)), Mul(Mul(I, gfL), Sub(A.m00, Mul(p, A.m01))))
  }

  /** The incident field (E, dE/dz) at the top of the stack: (r + 1, i gf_0 (r - 1)). */
  function Incident(r: Complex, gf0: Complex): Vec2 {
    Vec2(Add(r, One), Mul(Mul(I, gf0), Sub(r, One)))
  }

  /** The outgoing field at the bottom: (t, -i gf_L t). */
  function Outgoing(t: Complex, gfL: Complex): Vec2 {
    Vec2(t, Mul(Mul(Neg(I), gfL), t))
  }

  /** r = -(cmd + i gf_L amb) / (cpd + i gf_L apb). */
  function AbelesReflection(A: Mat2, gf0: Complex, gfL: Complex): Complex
    requires AbelesDefined(A, gf0, gfL)
  {
    Div(Neg(Numerator(A, gf0, gfL)), Denominator(A, gf0, gfL))
  }

  /** t = a (r + 1) + i gf_0 b (r - 1): the first component of A applied to the
      incident field. */
  function AbelesTransmission(A: Mat2, gf0: Complex, r: Complex): Complex {
    Add(Mul(A.m00, Add(r, One)), Mul(Mul(Mul(I, gf0), A.m01), Sub(r, One)))
  }

  /** r, t, R = |r|^2 and T = Re(|t|^2 gf_L / gf_0) from the global transfer matrix. */
  function ExtractA(A: Mat2, gf0: Complex, gfL: Complex): (c: Coefficients)
    requires AbelesDefined(A, gf0, gfL)
    ensures c.R == NormSq(c.r) >= 0.0 && c.T == TransmittedPower(c.t, Div(gfL, gf0))
  {
    var r := AbelesReflection(A, gf0, gfL);
    var t := AbelesTransmission(A, gf0, r);
    NormSqNonNegative(r);
    Coefficients(r, t, NormSq(r), TransmittedPower(t, Div(gfL, gf0)))
  }

  /** alpha (r + 1) + beta (r - 1) == (alpha + beta) r + (alpha - beta) */
  lemma LinearInR(alpha: Complex, beta: Complex, r: Complex)
    ensures Add(Mul(alpha, Add(r, One)), Mul(beta, Sub(r, One))) == Add(Mul(Add(alpha, beta), r), Sub(alpha, beta))
  {
  }

  /** The closed formulas for r and t are the solution of the boundary conditions: the
      global matrix carries the incident field (r + 1, i gf_0 (r - 1)) to the outgoing
      field (t, -i gf_L t), with no wave coming back from below. */
  lemma OutgoingBoundary(A: Mat2, gf0: Complex, gfL: Complex)
    requires AbelesDefined(A, gf0, gfL)
    ensures Apply(A, Incident(ExtractA(A, gf0, gfL).r, gf0)) == Outgoing(ExtractA(A, gf0, gfL).t, gfL)
  {
    var a, b, c, d := A.m00, A.m01, A.m10, A.m11;
    var p, q := Mul(I, gf0), Mul(I, gfL);
    var r := AbelesReflection(A, gf0, gfL);
    var t := AbelesTransmission(A, gf0, r);
    var den, num := Denominator(A, gf0, gfL), Numerator(A, gf0, gfL);
    assert Mul(r, den) == Neg(num);
    // the second component of A . (r + 1, p (r - 1)), linear in r
    var e := Add(Mul(c, Add(r, One)), Mul(d, Mul(p, Sub(r, One))));
    MulAssoc(d, p, Sub(r, One));
    MulComm(d, p);
    LinearInR(c, Mul(p, d), r);
    assert e == Add(Mul(Add(c, Mul(p, d)), r), Sub(c, Mul(p, d)));
    // t, linear in r
    var s1, d1 := Add(a, Mul(p, b)), Sub(a, Mul(p, b));
    LinearInR(a, Mul(p, b), r);
    assert t == Add(Mul(s1, r), d1);
    MulAddDistrib(q, Mul(s1, r), d1);
    MulAssoc(q, s1, r);
    assert Mul(q, t) == Add(Mul(Mul(q, s1), r), Mul(q, d1));
    // e + q t == den r + num == 0
    MulAddDistrib(r, Add(c, Mul(p, d)), Mul(q, s1));
    MulComm(r, Add(c, Mul(p, d)));
    MulComm(r, Mul(q, s1));
    MulComm(r, den);
    assert Add(e, Mul(q, t)) == Add(Mul(r, den), num);
    assert Add(e, Mul(q, t)) == Zero;
    assert e == Neg(Mul(q, t));
    assert Mul(Neg(I), gfL) == Neg(q);
    assert Mul(Neg(q), t) == Neg(Mul(q, t));
    // the first component is t itself
    MulComm(p, b);
    MulAssoc(b, p, Sub(r, One));
    assert Apply(A, Incident(r, gf0)).x0 == t;
  }

  /** When the global matrix is the identity (a single interface: the only layer matrix
      is that of layer 0, of zero thickness), r == (gf_0 - gf_L) / (gf_0 + gf_L) and
      t == r + 1: the Fresnel coefficients, equal to the entries S00 and S10 of the
      interface scattering matrix. */
  lemma SingleInterfaceA(gf0: Complex, gfL: Complex)
    requires gf0 != Zero && Add(gf0, gfL) != Zero
    ensures AbelesDefined(Identity, gf0, gfL)
    ensures ExtractA(Identity, gf0, gfL).r == Div(Sub(gf0, gfL), Add(gf0, gfL))
    ensures ExtractA(Identity, gf0, gfL).t == Add(ExtractA(Identity, gf0, gfL).r, One)
  {
    var p, q := Mul(I, gf0), Mul(I, gfL);
    MulOne(p);
    MulZero(p);
    MulOne(q);
    assert Denominator(Identity, gf0, gfL) == Add(p, q);
    assert Numerator(Identity, gf0, gfL) == Add(Neg(p), q);
    MulAddDistrib(I, gf0, gfL);
    assert Add(p, q) == Mul(I, Add(gf0, gfL));
    MulNonZero(I, Add(gf0, gfL));
    var r := Div(Sub(gf0, gfL), Add(gf0, gfL));
    calc {
      Mul(r, Add(p, q));
      Mul(r, Mul(I, Add(gf0, gfL)));
      { MulComm(I, Add(gf0, gfL)); MulAssoc(r, Add(gf0, gfL), I); }
      Mul(Mul(r, Add(gf0, gfL)), I);
      Mul(Sub(gf0, gfL), I);
      Neg(Add(Neg(p), q));
    }
    DivUnique(Neg(Add(Neg(p), q)), Add(p, q), r);
    MulOne(Add(r, One));
    MulZero(Sub(r, One));
    MulZero(p);
  }

  /** Every division of the Abeles formalism has a non-zero denominator, given the
      wavevectors gamma, the admittances gf and the thicknesses h of the layers; there
      are at least two layers, since the source reads T[0]. */
  predicate AReady(el: Elementary, gamma: seq<Complex>, gf: seq<Complex>, h: seq<real>) {
    |gamma| == |gf| == |h| >= 2 && LayersDefined(gf)
    && AbelesDefined(Product(LayerMatrices(el, gamma, gf, h)), gf[0], gf[|gf| - 1])
  }

  /** r, t, R and T of the Abeles formalism. */
  function AEngine(el: Elementary, gamma: seq<Complex>, gf: seq<Complex>, h: seq<real>): (c: Coefficients)
    requires AReady(el, gamma, gf, h)
    ensures c.R == NormSq(c.r) >= 0.0 && c.T == TransmittedPower(c.t, Div(gf[|gf| - 1], gf[0]))
  {
    ExtractA(Product(LayerMatrices(el, gamma, gf, h)), gf[0], gf[|gf| - 1])
  }

  /** Fills T and runs the product loop of `coefficient_A_opti_wavelength`. */
  method GlobalMatrix(el: Elementary, gamma: seq<Complex>, gf: seq<Complex>, h: seq<real>) returns (A: Mat2)
    requires |gamma| == |gf| == |h| >= 2 && LayersDefined(gf)
    ensures A == Product(LayerMatrices(el, gamma, gf, h))
  {
    var T := new Mat2[|gamma| - 1];
    FillLayers(T, el, gamma, gf, h);
    A := TransferProduct(T);
  }

  /** The Abeles steps of `coefficient_A_opti_wavelength` once the layers are known:
      the layer matrices, their product and the closed formulas. */
  method AbelesEngine(el: Elementary, gamma: seq<Complex>, gf: seq<Complex>, h: seq<real>) returns (c: Coefficients)
    requires AReady(el, gamma, gf, h)
    ensures c == AEngine(el, gamma, gf, h)
  {
    var A := GlobalMatrix(el, gamma, gf, h);
    c := ExtractA(A, gf[0], gf[|gf| - 1]);
  }

  /** With h_0 == 0 the matrix of layer 0 is the identity. */
  lemma FirstLayerIdentity(el: Elementary, gamma: seq<Complex>, gf: seq<Complex>, h: seq<real>)
    requires |gamma| == |gf| == |h| >= 2 && LayersDefined(gf) && h[0] == 0.0
    requires TrigAtZero(el)
    ensures LayerMatrices(el, gamma, gf, h)[0] == Identity
  {
    var ts := LayerMatrices(el, gamma, gf, h);
    assert ts[0] == LayerMatrix(el.cos(Scale(0.0, gamma[0])), el.sin(Scale(0.0, gamma[0])), gf[0]);
    ZeroThicknessLayer(el, gamma[0], gf[0]);
  }

  /** A single interface (g == 2) with h_0 == 0: the only layer matrix is that of
      layer 0, of zero thickness, so the global matrix is the identity. */
  lemma SingleLayerIdentity(el: Elementary, gamma: seq<Complex>, gf: seq<Complex>, h: seq<real>)
    requires |gamma| == |gf| == |h| == 2 && h[0] == 0.0 && gf[0] != Zero
    requires TrigAtZero(el)
    ensures LayersDefined(gf) && Product(LayerMatrices(el, gamma, gf, h)) == Identity
  {
    FirstLayerIdentity(el, gamma, gf, h);
  }

  /** A single interface in the Abeles formalism: r and t are the Fresnel coefficients
      (gf_0 - gf_1) / (gf_0 + gf_1) and r + 1, whatever h_1. */
  lemma SingleInterfaceAbeles(el: Elementary, gamma: seq<Complex>, gf: seq<Complex>, h: seq<real>)
    requires |gamma| == |gf| == |h| == 2 && h[0] == 0.0
    requires gf[0] != Zero && Add(gf[0], gf[1]) != Zero
    requires TrigAtZero(el)
    ensures AReady(el, gamma, gf, h)
    ensures AEngine(el, gamma, gf, h).r == Div(Sub(gf[0], gf[1]), Add(gf[0], gf[1]))
    ensures AEngine(el, gamma, gf, h).t == Add(AEngine(el, gamma, gf, h).r, One)
  {
    SingleLayerIdentity(el, gamma, gf, h);
    SingleInterfaceA(gf[0], gf[1]);
  }

  /** With cos^2 + sin^2 == 1 the global transfer matrix has determinant 1. */
  lemma GlobalUnimodular(el: Elementary, gamma: seq<Complex>, gf: seq<Complex>, h: seq<real>)
    requires |gamma| == |gf| == |h| >= 2 && LayersDefined(gf)
    requires Pythagorean(el)
    ensures Det(Product(LayerMatrices(el, gamma, gf, h))) == One
  {
    var ts := LayerMatrices(el, gamma, gf, h);
    LayersUnimodular(el, gamma, gf, h, |ts|);
    assert ts[..|ts|] == ts;
  }

  /** A[i] == T[i] . ... . T[0] for every i: the matrices of `absorption_A_opti_wavelength`
      that carry the incident field to the top of layer i + 1. */
  function PartialProductsOf(ts: seq<Mat2>): (As: seq<Mat2>)
    ensures |As| == |ts|
    ensures |ts| >= 1 ==> As[|ts| - 1] == Product(ts)
  {
    assert ts[..|ts|] == ts;
    seq(|ts|, i requires 0 <= i < |ts| => Product(ts[..i + 1]))
  }

  /** The partial products follow the recurrence of the source's loop: A[0] == T[0]
      and A[i] == T[i] . A[i-1]. */
  lemma PartialProductsStep(ts: seq<Mat2>)
    requires |ts| >= 1
    ensures PartialProductsOf(ts)[0] == ts[0]
    ensures forall i :: 1 <= i < |ts| ==>
              PartialProductsOf(ts)[i] == MatMul(ts[i], PartialProductsOf(ts)[i - 1])
  {
    var As := PartialProductsOf(ts);
    forall i | 1 <= i < |ts|
      ensures As[i] == MatMul(ts[i], As[i - 1])
    {
      assert ts[..i + 1][..i] == ts[..i];
    }
  }

  /** Fills T and runs the product loop of `absorption_A_opti_wavelength`, which keeps
      every partial product. */
  method LayerProducts(el: Elementary, gamma: seq<Complex>, gf: seq<Complex>, h: seq<real>) returns (As: seq<Mat2>)
    requires |gamma| == |gf| == |h| >= 2 && LayersDefined(gf)
    ensures As == PartialProductsOf(LayerMatrices(el, gamma, gf, h))
  {
    var T := new Mat2[|gamma| - 1];
    FillLayers(T, el, gamma, gf, h);
    As := PartialProducts(T);
  }
}
