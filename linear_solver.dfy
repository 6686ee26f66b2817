/**
 * lalib::LinearSolver: conjugate gradients on a square system (CG), conjugate gradients on the
 * normal equations (CGNR), its weighted variant, Tikhonov-regularised CGNR (TCGNR) and iteratively
 * reweighted least squares (IRLS).
 *
 * The solver keeps copies of its system matrix and right-hand side; it is modelled on their values
 * (the rows of the matrix and the elements of the vector), which the sparse matrix and vector
 * methods are proved to compute.  The loops are the source's recurrences in exact arithmetic, and
 * what each loop keeps is its residual: the vector `r` it updates step by step always equals the
 * residual recomputed from scratch at the current iterate.
 */
module Solver {
  import opened Wrappers
  import opened DenseAlgebra
  import Utility
  import Crs
  import SparseMatrix
  import DenseVector

  /** Defaults of solve's optional arguments. */
  const MaxIter: int := 1000000
  const Tolerance: real := 0.000001

  // ---------------------------------------------------------------------------
  // Residuals

  /** A quotient; where the source's division by zero gives inf or NaN this gives 0. */
  function Ratio(a: real, b: real): (q: real)
    ensures b != 0.0 ==> q * b == a
    ensures b == 0.0 ==> q == 0.0
  {
    if b == 0.0 then 0.0 else a / b
  }

  /** v.dot(v). */
  function SquaredNorm(v: seq<real>): real
  {
    Dot(v, v)
  }

  /** The residual of A x = b. */
  function Residual(a: seq<seq<real>>, b: seq<real>, x: seq<real>): (r: seq<real>)
    requires IsMatrix(a, |x|) && |b| == |a|
    ensures |r| == |a|
  {
    VecSub(b, MatVec(a, x))
  }

  /** The residual of the normal equations Aᵀ A x = Aᵀ b, as CGNR first computes it. */
  function NormalResidual(a: seq<seq<real>>, b: seq<real>, x: seq<real>): (r: seq<real>)
    requires IsMatrix(a, |x|) && |b| == |a|
    ensures |r| == |x|
  {
    VecSub(MatVec(Transpose(a, |x|), b), MatVec(Transpose(a, |x|), MatVec(a, x)))
  }

  /** W Aᵀ A W v for the diagonal weighting W = diag(w). */
  function Gram(w: seq<real>, a: seq<seq<real>>, v: seq<real>): (r: seq<real>)
    requires |w| == |v| && IsMatrix(a, |v|)
    ensures |r| == |v|
  {
    VecMul(w, MatVec(Transpose(a, |v|), MatVec(a, VecMul(w, v))))
  }

  /** The weighted subprocess's first residual W Aᵀ b - W² Aᵀ A x0. */
  function WeightedStart(w: seq<real>, a: seq<seq<real>>, b: seq<real>, x0: seq<real>): (r: seq<real>)
    requires |w| == |x0| && IsMatrix(a, |x0|) && |b| == |a|
    ensures |r| == |x0|
  {
    VecSub(VecMul(w, MatVec(Transpose(a, |x0|), b)), VecMul(VecMul(w, w), MatVec(Transpose(a, |x0|), MatVec(a, x0))))
  }

  /** The weighted subprocess's residual at x: its first residual less W Aᵀ A W (x - x0). */
  function WeightedResidual(w: seq<real>, a: seq<seq<real>>, b: seq<real>, x0: seq<real>, x: seq<real>): (r: seq<real>)
    requires |w| == |x0| == |x| && IsMatrix(a, |x0|) && |b| == |a|
    ensures |r| == |x|
  {
    VecSub(WeightedStart(w, a, b, x0), Gram(w, a, VecSub(x, x0)))
  }

  /** The normal-equation residual of the regularised problem: Aᵀ b - (Aᵀ A x + s² x). */
  function TikhonovResidual(a: seq<seq<real>>, b: seq<real>, s: real, x: seq<real>): (r: seq<real>)
    requires IsMatrix(a, |x|) && |b| == |a|
    ensures |r| == |x|
  {
    VecSub(MatVec(Transpose(a, |x|), b), VecAdd(MatVec(Transpose(a, |x|), MatVec(a, x)), VecScale(x, s * s)))
  }

  /** The block stacked under A by TCGNR: the identity constructor Matrix(n, n, s). */
  function Regulariser(n: nat, s: real): (m: seq<seq<real>>)
    ensures |m| == n && IsMatrix(m, n)
  {
    Crs.DiagonalOf(n, n, seq(n, _ => s))
  }

  /**
   * minimizedNorm(A, x, b, p): the 2-norm of A x - b, whatever p is; `root` stands for the square
   * root that pNorm's pow(·, 1/2) takes.
   */
  function MinimizedNorm(a: seq<seq<real>>, x: seq<real>, b: seq<real>, root: real -> real): real
    requires IsMatrix(a, |x|) && |b| == |a|
  {
    root(SquaredNorm(VecSub(MatVec(a, x), b)))
  }

  /** IRLS's weight of one element: max(|v|^((p-2)/p), |tol|^((p-2)/p)), with `pow` for std::pow. */
  function IrlsWeight(v: real, p: real, tol: real, pow: (real, real) -> real): (r: real)
    ensures r >= pow(RealAbs(tol), Ratio(p - 2.0, p))
    ensures r == pow(RealAbs(v), Ratio(p - 2.0, p)) || r == pow(RealAbs(tol), Ratio(p - 2.0, p))
  {
    var e := Ratio(p - 2.0, p);
    if pow(RealAbs(v), e) >= pow(RealAbs(tol), e) then pow(RealAbs(v), e) else pow(RealAbs(tol), e)
  }

  /** The weight vector of one IRLS round: IrlsWeight of every element of the iterate. */
  function IrlsWeights(x: seq<real>, p: real, tol: real, pow: (real, real) -> real): (w: seq<real>)
    ensures |w| == |x| && forall i :: 0 <= i < |x| ==> w[i] == IrlsWeight(x[i], p, tol, pow)
  {
    DenseVector.MapElems(v => IrlsWeight(v, p, tol, pow), x)
  }

  /**
   * How the conjugate-gradient loops end: either at iteration n <= maxIter because the residual
   * fell below the tolerance, or after all maxIter + 1 iterations, the last residual not below it.
   */
  ghost predicate LoopExit(n: int, res: real, maxIter: int, tol: real)
  {
    || (0 <= n <= maxIter && res < tol)
    || (n == (if maxIter < 0 then 0 else maxIter + 1) && (maxIter >= 0 ==> res >= tol))
  }

  // ---------------------------------------------------------------------------
  // The recurrences as functions: what each loop computes, step by step

  /** What a solver run publishes: its iterate, its iteration count and its residual measure. */
  datatype Run = Run(x: seq<real>, n: int, res: real)

  /**
   * The rest of CG's loop from iteration `iter`, with iterate `xk`, residual `r`, direction `p`
   * and squared residual `oldRes`.
   */
  function CgSteps(a: seq<seq<real>>, xk: seq<real>, r: seq<real>, p: seq<real>, oldRes: real,
                   iter: int, maxIter: int, tol: real): (o: Run)
    requires IsMatrix(a, |xk|) && |a| == |xk| == |r| == |p|
    ensures |o.x| == |xk|
    decreases maxIter - iter
  {
    if iter > maxIter then Run(xk, iter, oldRes)
    else
      var ap := MatVec(a, p);
      var alpha := Ratio(oldRes, Dot(p, ap));
      var x := VecAdd(xk, VecScale(p, alpha));
      var r' := VecSub(r, VecScale(ap, alpha));
      var newRes := Dot(r', r');
      if newRes < tol then Run(x, iter, newRes)
      else CgSteps(a, x, r', VecAdd(VecScale(p, Ratio(newRes, oldRes)), r'), newRes, iter + 1, maxIter, tol)
  }

  /** CG's run on A x = b from x0. */
  function CgRun(a: seq<seq<real>>, b: seq<real>, x0: seq<real>, maxIter: int, tol: real): (o: Run)
    requires IsMatrix(a, |x0|) && |a| == |x0| == |b|
    ensures |o.x| == |x0|
  {
    var r := Residual(a, b, x0);
    CgSteps(a, x0, r, r, Dot(r, r), 0, maxIter, tol)
  }

  /** The rest of the CGNR loop from iteration `iter`, `at` being Aᵀ. */
  function CgnrSteps(a: seq<seq<real>>, at: seq<seq<real>>, xk: seq<real>, r: seq<real>, p: seq<real>,
                     oldRes: real, iter: int, maxIter: int, tol: real): (o: Run)
    requires IsMatrix(a, |xk|) && at == Transpose(a, |xk|) && |xk| == |r| == |p|
    ensures |o.x| == |xk|
    decreases maxIter - iter
  {
    if iter > maxIter then Run(xk, iter, oldRes)
    else
      var ap := MatVec(a, p);
      var alpha := Ratio(oldRes, Dot(ap, ap));
      var x := VecAdd(xk, VecScale(p, alpha));
      var r' := VecSub(r, VecScale(MatVec(at, ap), alpha));
      var newRes := Dot(r', r');
      if newRes < tol then Run(x, iter, newRes)
      else CgnrSteps(a, at, x, r', VecAdd(VecScale(p, Ratio(newRes, oldRes)), r'), newRes, iter + 1, maxIter, tol)
  }

  /** The CGNR subprocess's run on A x = b from x0. */
  function CgnrRun(a: seq<seq<real>>, b: seq<real>, x0: seq<real>, maxIter: int, tol: real): (o: Run)
    requires IsMatrix(a, |x0|) && |b| == |a|
    ensures |o.x| == |x0|
  {
    var r := NormalResidual(a, b, x0);
    CgnrSteps(a, Transpose(a, |x0|), x0, r, r, Dot(r, r), 0, maxIter, tol)
  }

  /** The rest of the weighted CGNR loop from iteration `iter`, with W = diag(w). */
  function WcgnrSteps(w: seq<real>, a: seq<seq<real>>, at: seq<seq<real>>, xk: seq<real>, r: seq<real>,
                      p: seq<real>, oldRes: real, iter: int, maxIter: int, tol: real): (o: Run)
    requires IsMatrix(a, |xk|) && at == Transpose(a, |xk|) && |w| == |xk| == |r| == |p|
    ensures |o.x| == |xk|
    decreases maxIter - iter
  {
    if iter > maxIter then Run(xk, iter, oldRes)
    else
      var ap := MatVec(a, VecMul(w, p));
      var alpha := Ratio(oldRes, Dot(ap, ap));
      var x := VecAdd(xk, VecScale(p, alpha));
      var r' := VecSub(r, VecScale(VecMul(w, MatVec(at, ap)), alpha));
      var newRes := Dot(r', r');
      if newRes < tol then Run(x, iter, newRes)
      else WcgnrSteps(w, a, at, x, r', VecAdd(VecScale(p, Ratio(newRes, oldRes)), r'), newRes, iter + 1, maxIter, tol)
  }

  /** The weighted subprocess's run on A x = b from x0 with the weights w. */
  function WcgnrRun(w: seq<real>, a: seq<seq<real>>, b: seq<real>, x0: seq<real>, maxIter: int, tol: real): (o: Run)
    requires |w| == |x0| && IsMatrix(a, |x0|) && |b| == |a|
    ensures |o.x| == |x0|
  {
    var r := WeightedStart(w, a, b, x0);
    WcgnrSteps(w, a, Transpose(a, |x0|), x0, r, r, Dot(r, r), 0, maxIter, tol)
  }

  /**
   * The rest of IRLS's rounds from round `k`, with iterate `xk` and its norm `norm`: each round
   * weights the current iterate and runs the weighted subprocess from it.
   */
  function IrlsRounds(a: seq<seq<real>>, b: seq<real>, xk: seq<real>, norm: real, k: int, maxIter: int,
                      tol: real, p: real, root: real -> real, pow: (real, real) -> real): (o: Run)
    requires IsMatrix(a, |xk|) && |b| == |a|
    ensures |o.x| == |xk| && o.n >= k
    decreases maxIter - k
  {
    if norm > tol && k < maxIter then
      var x := WcgnrRun(IrlsWeights(xk, p, tol, pow), a, b, xk, maxIter, tol).x;
      IrlsRounds(a, b, x, MinimizedNorm(a, x, b, root), k + 1, maxIter, tol, p, root, pow)
    else Run(xk, k, norm)
  }

  /** IRLS's run from x0: the CGNR subprocess first, counted as round 1, then the weighted rounds. */
  function IrlsRun(a: seq<seq<real>>, b: seq<real>, x0: seq<real>, maxIter: int, tol: real, p: real,
                   root: real -> real, pow: (real, real) -> real): (o: Run)
    requires IsMatrix(a, |x0|) && |b| == |a|
    ensures |o.x| == |x0|
  {
    var x := CgnrRun(a, b, x0, maxIter, tol).x;
    IrlsRounds(a, b, x, MinimizedNorm(a, x, b, root), 1, maxIter, tol, p, root, pow)
  }

  /**
   * IRLS's rounds as written, from the first CGNR iterate x1: every round weights x1 and restarts
   * the weighted subprocess from it, so all rounds after the first compute the same norm.  The
   * loop stops after round 1, after round 2, or after maxIter rounds, and x1 is published.
   */
  function ShadowedRounds(a: seq<seq<real>>, b: seq<real>, x1: seq<real>, maxIter: int, tol: real, p: real,
                          root: real -> real, pow: (real, real) -> real): (o: Run)
    requires IsMatrix(a, |x1|) && |b| == |a|
    ensures o.x == x1 && (o.n == 1 || o.n == 2 || o.n == maxIter)
  {
    var n1 := MinimizedNorm(a, x1, b, root);
    if !(n1 > tol && 1 < maxIter) then Run(x1, 1, n1)
    else
      var n2 := MinimizedNorm(a, WcgnrRun(IrlsWeights(x1, p, tol, pow), a, b, x1, maxIter, tol).x, b, root);
      Run(x1, if n2 > tol && 2 < maxIter then maxIter else 2, n2)
  }

  /** IRLS's run from x0 as written. */
  function IrlsRunAsWritten(a: seq<seq<real>>, b: seq<real>, x0: seq<real>, maxIter: int, tol: real, p: real,
                            root: real -> real, pow: (real, real) -> real): (o: Run)
    requires IsMatrix(a, |x0|) && |b| == |a|
    ensures o.x == CgnrRun(a, b, x0, maxIter, tol).x
  {
    ShadowedRounds(a, b, CgnrRun(a, b, x0, maxIter, tol).x, maxIter, tol, p, root, pow)
  }

  // ---------------------------------------------------------------------------
  // What the residuals mean

  // The squares below are written as products of two equal factors u and v: the solver
  // handles a product of two names where it gives up on the square of one.

  lemma ProductNonNegative(l: real, m: real)
    requires l == m
    ensures l * m >= 0.0
  {
    if l < 0.0 {
      assert (-l) * (-m) >= 0.0 * (-m);
      assert l * m == (-l) * (-m);
    } else {
      assert l * m >= 0.0 * m;
    }
  }

  lemma ProductPositive(l: real, m: real)
    requires l == m && l != 0.0
    ensures l * m > 0.0
  {
    if l < 0.0 {
      assert (-l) * (-m) > 0.0 * (-m);
      assert l * m == (-l) * (-m);
    } else {
      assert l * m > 0.0 * m;
    }
  }

  lemma {:induction false} DotSelfNonNegative(u: seq<real>, v: seq<real>)
    requires u == v
    ensures Dot(u, v) >= 0.0
  {
    if u != [] {
      DotSelfNonNegative(u[..|u| - 1], v[..|v| - 1]);
      ProductNonNegative(u[|u| - 1], v[|v| - 1]);
    }
  }

  /** A non-zero element makes the squared norm positive. */
  lemma {:induction false} DotSelfPositive(u: seq<real>, v: seq<real>, i: int)
    requires u == v && 0 <= i < |u| && u[i] != 0.0
    ensures Dot(u, v) > 0.0
  {
    var last := |u| - 1;
    assert Dot(u, v) == Dot(u[..last], v[..last]) + u[last] * v[last];
    if i == last {
      DotSelfNonNegative(u[..last], v[..last]);
      ProductPositive(u[last], v[last]);
    } else {
      DotSelfPositive(u[..last], v[..last], i);
      ProductNonNegative(u[last], v[last]);
    }
  }

  /** A squared norm is zero exactly on the zero vector. */
  lemma SquaredNormZero(v: seq<real>)
    ensures SquaredNorm(v) == 0.0 <==> v == Zeros(|v|)
  {
    if v == Zeros(|v|) {
      DotZeroRight(v);
    } else {
      var i :| 0 <= i < |v| && v[i] != Zeros(|v|)[i];
      DotSelfPositive(v, v, i);
    }
  }

  /** CG's residual is zero exactly when x solves A x = b. */
  lemma ResidualZeroIff(a: seq<seq<real>>, b: seq<real>, x: seq<real>)
    requires IsMatrix(a, |x|) && |b| == |a|
    ensures SquaredNorm(Residual(a, b, x)) == 0.0 <==> MatVec(a, x) == b
  {
    var r := Residual(a, b, x);
    SquaredNormZero(r);
    if r == Zeros(|r|) {
      forall i | 0 <= i < |b| ensures MatVec(a, x)[i] == b[i] {
        assert r[i] == 0.0;
      }
    }
  }

  /** CGNR's residual is Aᵀ applied to the residual of A x = b. */
  lemma NormalIsTransposedResidual(a: seq<seq<real>>, b: seq<real>, x: seq<real>)
    requires IsMatrix(a, |x|) && |b| == |a|
    ensures NormalResidual(a, b, x) == MatVec(Transpose(a, |x|), Residual(a, b, x))
  {
    MatVecSub(Transpose(a, |x|), b, MatVec(a, x));
  }

  lemma {:induction false} SquaredNormNegated(u: seq<real>, v: seq<real>)
    requires |u| == |v| && forall i :: 0 <= i < |u| ==> u[i] == -v[i]
    ensures SquaredNorm(u) == SquaredNorm(v)
  {
    if u != [] {
      SquaredNormNegated(u[..|u| - 1], v[..|v| - 1]);
    }
  }

  /** minimizedNorm measures the residual of A x = b. */
  lemma MinimizedNormOfResidual(a: seq<seq<real>>, x: seq<real>, b: seq<real>, root: real -> real)
    requires IsMatrix(a, |x|) && |b| == |a|
    ensures MinimizedNorm(a, x, b, root) == root(SquaredNorm(Residual(a, b, x)))
  {
    SquaredNormNegated(VecSub(MatVec(a, x), b), Residual(a, b, x));
  }

  // ---------------------------------------------------------------------------
  // One step of each recurrence keeps its residual

  /** CGNR's update r -= alpha Aᵀ A p matches the move x += alpha p. */
  lemma NormalResidualStep(a: seq<seq<real>>, b: seq<real>, x: seq<real>, p: seq<real>, alpha: real)
    requires |x| == |p| && IsMatrix(a, |x|) && |b| == |a|
    ensures VecSub(NormalResidual(a, b, x), VecScale(MatVec(Transpose(a, |x|), MatVec(a, p)), alpha))
         == NormalResidual(a, b, VecAdd(x, VecScale(p, alpha)))
  {
    var t := Transpose(a, |x|);
    MatVecAffine(a, x, p, alpha);
    MatVecAffine(t, MatVec(a, x), MatVec(a, p), alpha);
  }

  /** Weighting distributes over a step. */
  lemma VecMulAffine(w: seq<real>, u: seq<real>, p: seq<real>, alpha: real)
    requires |w| == |u| == |p|
    ensures VecMul(w, VecAdd(u, VecScale(p, alpha))) == VecAdd(VecMul(w, u), VecScale(VecMul(w, p), alpha))
  {
    forall i | 0 <= i < |w|
      ensures VecMul(w, VecAdd(u, VecScale(p, alpha)))[i] == VecAdd(VecMul(w, u), VecScale(VecMul(w, p), alpha))[i]
    {
      assert w[i] * (u[i] + p[i] * alpha) == w[i] * u[i] + (w[i] * p[i]) * alpha;
    }
  }

  /** Weighting distributes over a difference. */
  lemma VecMulSub(w: seq<real>, u: seq<real>, v: seq<real>)
    requires |w| == |u| == |v|
    ensures VecMul(w, VecSub(u, v)) == VecSub(VecMul(w, u), VecMul(w, v))
  {
    forall i | 0 <= i < |w| ensures VecMul(w, VecSub(u, v))[i] == VecSub(VecMul(w, u), VecMul(w, v))[i] {
      assert w[i] * (u[i] - v[i]) == w[i] * u[i] - w[i] * v[i];
    }
  }

  /** Unit weights change nothing. */
  lemma VecMulOnes(y: seq<real>)
    ensures VecMul(seq(|y|, _ => 1.0), y) == y
    ensures VecMul(seq(|y|, _ => 1.0), seq(|y|, _ => 1.0)) == seq(|y|, _ => 1.0)
  {
  }

  /** W Aᵀ A W is linear. */
  lemma GramAffine(w: seq<real>, a: seq<seq<real>>, u: seq<real>, p: seq<real>, alpha: real)
    requires |w| == |u| == |p| && IsMatrix(a, |u|)
    ensures Gram(w, a, VecAdd(u, VecScale(p, alpha))) == VecAdd(Gram(w, a, u), VecScale(Gram(w, a, p), alpha))
  {
    var t := Transpose(a, |u|);
    VecMulAffine(w, u, p, alpha);
    MatVecAffine(a, VecMul(w, u), VecMul(w, p), alpha);
    MatVecAffine(t, MatVec(a, VecMul(w, u)), MatVec(a, VecMul(w, p)), alpha);
    VecMulAffine(w, MatVec(t, MatVec(a, VecMul(w, u))), MatVec(t, MatVec(a, VecMul(w, p))), alpha);
  }

  /** The weighted update r -= alpha W Aᵀ A W p matches the move x += alpha p. */
  lemma WeightedResidualStep(w: seq<real>, a: seq<seq<real>>, b: seq<real>, x0: seq<real>, x: seq<real>, p: seq<real>, alpha: real)
    requires |w| == |x0| == |x| == |p| && IsMatrix(a, |x0|) && |b| == |a|
    ensures VecSub(WeightedResidual(w, a, b, x0, x), VecScale(Gram(w, a, p), alpha))
         == WeightedResidual(w, a, b, x0, VecAdd(x, VecScale(p, alpha)))
  {
    var u := VecSub(x, x0);
    assert VecSub(VecAdd(x, VecScale(p, alpha)), x0) == VecAdd(u, VecScale(p, alpha));
    GramAffine(w, a, u, p, alpha);
  }

  /** The weighted residual at the starting point is the first residual. */
  lemma WeightedResidualAtStart(w: seq<real>, a: seq<seq<real>>, b: seq<real>, x0: seq<real>)
    requires |w| == |x0| && IsMatrix(a, |x0|) && |b| == |a|
    ensures WeightedResidual(w, a, b, x0, x0) == WeightedStart(w, a, b, x0)
  {
    var n := |x0|;
    assert VecSub(x0, x0) == Zeros(n);
    assert VecMul(w, Zeros(n)) == Zeros(n);
    MatVecZero(a, n);
    MatVecZero(Transpose(a, n), |a|);
    assert Gram(w, a, Zeros(n)) == Zeros(n);
  }

  /** With unit weights the weighted subprocess keeps CGNR's residual. */
  lemma UnitWeightsAreNormal(a: seq<seq<real>>, b: seq<real>, x0: seq<real>, x: seq<real>)
    requires |x0| == |x| && IsMatrix(a, |x|) && |b| == |a|
    ensures WeightedResidual(seq(|x|, _ => 1.0), a, b, x0, x) == NormalResidual(a, b, x)
  {
    var n := |x|;
    var w := seq(n, _ => 1.0);
    var t := Transpose(a, n);
    VecMulOnes(VecSub(x, x0));
    VecMulOnes(MatVec(t, b));
    VecMulOnes(MatVec(t, MatVec(a, x0)));
    MatVecSub(a, x, x0);
    MatVecSub(t, MatVec(a, x), MatVec(a, x0));
    VecMulOnes(MatVec(t, MatVec(a, VecSub(x, x0))));
  }

  /** Started from zero, the weighted subprocess solves the normal equations of (A W) y = b, scaled by W. */
  lemma WeightedFromZero(w: seq<real>, a: seq<seq<real>>, b: seq<real>, x: seq<real>)
    requires |w| == |x| && IsMatrix(a, |x|) && |b| == |a|
    ensures WeightedResidual(w, a, b, Zeros(|x|), x) == VecMul(w, MatVec(Transpose(a, |x|), Residual(a, b, VecMul(w, x))))
  {
    var n := |x|;
    var t := Transpose(a, n);
    assert VecSub(x, Zeros(n)) == x;
    MatVecZero(a, n);
    MatVecZero(t, |a|);
    assert VecMul(VecMul(w, w), Zeros(n)) == Zeros(n);
    assert WeightedStart(w, a, b, Zeros(n)) == VecMul(w, MatVec(t, b));
    MatVecSub(t, b, MatVec(a, VecMul(w, x)));
    VecMulSub(w, MatVec(t, b), MatVec(t, MatVec(a, VecMul(w, x))));
  }

  /** Column j of A stacked over diag(s): column j of A followed by s at position j. */
  lemma StackedColumn(a: seq<seq<real>>, n: nat, s: real, j: int)
    requires IsMatrix(a, n) && 0 <= j < n
    ensures IsMatrix(a + Regulariser(n, s), n)
    ensures Transpose(a + Regulariser(n, s), n)[j] == Transpose(a, n)[j] + DiagonalMatrix(seq(n, _ => s))[j]
  {
    var m := a + Regulariser(n, s);
    assert IsMatrix(m, n) by {
      forall i | 0 <= i < |m| ensures |m[i]| == n {
        if i >= |a| {
          assert m[i] == Regulariser(n, s)[i - |a|];
        }
      }
    }
  }

  /** The identity block contributes s² x to the normal equations. */
  lemma RegulariserProduct(n: nat, s: real, x: seq<real>)
    requires |x| == n
    ensures Regulariser(n, s) == DiagonalMatrix(seq(n, _ => s))
    ensures MatVec(Regulariser(n, s), x) == VecScale(x, s)
  {
    var d := seq(n, _ => s);
    forall r | 0 <= r < n ensures Regulariser(n, s)[r] == DiagonalMatrix(d)[r] {
      assert forall c :: 0 <= c < n ==> Regulariser(n, s)[r][c] == DiagonalMatrix(d)[r][c];
    }
    MatVecDiagonal(d, x);
    assert forall i :: 0 <= i < n ==> VecMul(d, x)[i] == VecScale(x, s)[i];
  }

  /** Column j of the stacked system against the stacked right-hand side. */
  lemma StackedRhs(col: seq<real>, dj: seq<real>, b: seq<real>)
    requires |col| == |b|
    ensures Dot(col + dj, b + Zeros(|dj|)) == Dot(col, b)
  {
    DotAppend(col, dj, b, Zeros(|dj|));
    DotZeroRight(dj);
  }

  /** Row j of s I against s x: s² x[j]. */
  lemma UnitScaled(dj: seq<real>, x: seq<real>, s: real, j: int)
    requires |dj| == |x| && 0 <= j < |x|
    requires forall k :: 0 <= k < |dj| ==> dj[k] == if k == j then s else 0.0
    ensures Dot(dj, VecScale(x, s)) == x[j] * (s * s)
  {
    DotUnit(dj, VecScale(x, s), j, s);
    VecScaleAt(x, s, j);
    ScaleTwice(s, x[j]);
  }

  lemma ScaleTwice(s: real, v: real)
    ensures s * (v * s) == v * (s * s)
  {
  }

  /** Entry j of the stacked system's Aᵀ b. */
  lemma StackedRhsEntry(a: seq<seq<real>>, b: seq<real>, s: real, n: nat, j: int)
    requires IsMatrix(a, n) && |b| == |a| && 0 <= j < n && IsMatrix(a + Regulariser(n, s), n)
    ensures MatVec(Transpose(a + Regulariser(n, s), n), b + Zeros(n))[j] == MatVec(Transpose(a, n), b)[j]
  {
    StackedColumn(a, n, s, j);
    StackedRhs(Transpose(a, n)[j], DiagonalMatrix(seq(n, _ => s))[j], b);
  }

  /** Entry j of the stacked system's Aᵀ A x. */
  lemma StackedProductEntry(a: seq<seq<real>>, s: real, x: seq<real>, j: int)
    requires IsMatrix(a, |x|) && 0 <= j < |x| && IsMatrix(a + Regulariser(|x|, s), |x|)
    ensures MatVec(Transpose(a + Regulariser(|x|, s), |x|), MatVec(a + Regulariser(|x|, s), x))[j]
         == MatVec(Transpose(a, |x|), MatVec(a, x))[j] + x[j] * (s * s)
  {
    var n := |x|;
    var d := DiagonalMatrix(seq(n, _ => s));
    var ta := Transpose(a, n);
    StackedColumn(a, n, s, j);
    RegulariserProduct(n, s, x);
    MatVecStack(a, Regulariser(n, s), x);
    DotAppend(ta[j], d[j], MatVec(a, x), VecScale(x, s));
    UnitScaled(d[j], x, s, j);
  }

  /** Entry j of the stacked system's normal residual. */
  lemma TikhonovEntry(a: seq<seq<real>>, b: seq<real>, s: real, x: seq<real>, j: int)
    requires IsMatrix(a, |x|) && |b| == |a| && 0 <= j < |x|
    requires IsMatrix(a + Regulariser(|x|, s), |x|)
    ensures NormalResidual(a + Regulariser(|x|, s), b + Zeros(|x|), x)[j] == TikhonovResidual(a, b, s, x)[j]
  {
    StackedRhsEntry(a, b, s, |x|, j);
    StackedProductEntry(a, s, x, j);
  }

  /** TCGNR's stacked system [A; s I] x = [b; 0] has the Tikhonov normal equations. */
  lemma TikhonovIsStackedNormal(a: seq<seq<real>>, b: seq<real>, s: real, x: seq<real>)
    requires IsMatrix(a, |x|) && |b| == |a|
    ensures IsMatrix(a + Regulariser(|x|, s), |x|)
    ensures NormalResidual(a + Regulariser(|x|, s), b + Zeros(|x|), x) == TikhonovResidual(a, b, s, x)
  {
    if |x| > 0 {
      StackedColumn(a, |x|, s, 0);
    } else {
      assert IsMatrix(a + Regulariser(|x|, s), |x|);
    }
    forall j | 0 <= j < |x|
      ensures NormalResidual(a + Regulariser(|x|, s), b + Zeros(|x|), x)[j] == TikhonovResidual(a, b, s, x)[j]
    {
      TikhonovEntry(a, b, s, x, j);
    }
  }

  // ---------------------------------------------------------------------------
  // What each run publishes

  /** Every CG step keeps "r is the residual at xk", so the run ends with its residual and exit rule. */
  lemma {:induction false} CgStepsPublish(a: seq<seq<real>>, b: seq<real>, xk: seq<real>, r: seq<real>, p: seq<real>,
                                          oldRes: real, iter: int, maxIter: int, tol: real)
    requires IsMatrix(a, |xk|) && |a| == |xk| == |r| == |p| == |b|
    requires 0 <= iter <= (if maxIter < 0 then 0 else maxIter + 1)
    requires r == Residual(a, b, xk) && oldRes == SquaredNorm(r) && (iter > 0 ==> oldRes >= tol)
    ensures CgSteps(a, xk, r, p, oldRes, iter, maxIter, tol).res
         == SquaredNorm(Residual(a, b, CgSteps(a, xk, r, p, oldRes, iter, maxIter, tol).x))
    ensures LoopExit(CgSteps(a, xk, r, p, oldRes, iter, maxIter, tol).n, CgSteps(a, xk, r, p, oldRes, iter, maxIter, tol).res,
                     maxIter, tol)
    decreases maxIter - iter, 1
  {
    if iter <= maxIter {
      CgStepPublishes(a, b, xk, r, p, oldRes, iter, maxIter, tol);
    }
  }

  /** One CG step keeps the residual invariant, and the rest of the run publishes. */
  lemma {:induction false} CgStepPublishes(a: seq<seq<real>>, b: seq<real>, xk: seq<real>, r: seq<real>, p: seq<real>,
                                           oldRes: real, iter: int, maxIter: int, tol: real)
    requires IsMatrix(a, |xk|) && |a| == |xk| == |r| == |p| == |b|
    requires 0 <= iter <= maxIter
    requires r == Residual(a, b, xk) && oldRes == SquaredNorm(r) && (iter > 0 ==> oldRes >= tol)
    ensures CgSteps(a, xk, r, p, oldRes, iter, maxIter, tol).res
         == SquaredNorm(Residual(a, b, CgSteps(a, xk, r, p, oldRes, iter, maxIter, tol).x))
    ensures LoopExit(CgSteps(a, xk, r, p, oldRes, iter, maxIter, tol).n, CgSteps(a, xk, r, p, oldRes, iter, maxIter, tol).res,
                     maxIter, tol)
    decreases maxIter - iter, 0
  {
    var ap := MatVec(a, p);
    var alpha := Ratio(oldRes, Dot(p, ap));
    var x := VecAdd(xk, VecScale(p, alpha));
    var r' := VecSub(r, VecScale(ap, alpha));
    assert r' == Residual(a, b, x) by { ResidualStep(a, b, xk, p, alpha); }
    var newRes := Dot(r', r');
    if newRes >= tol {
      var p' := VecAdd(VecScale(p, Ratio(newRes, oldRes)), r');
      CgStepsPublish(a, b, x, r', p', newRes, iter + 1, maxIter, tol);
      assert CgSteps(a, xk, r, p, oldRes, iter, maxIter, tol) == CgSteps(a, x, r', p', newRes, iter + 1, maxIter, tol);
    } else {
      assert CgSteps(a, xk, r, p, oldRes, iter, maxIter, tol) == Run(x, iter, newRes);
    }
  }

  /** CG publishes the squared residual of A x = b at its iterate, and stops as LoopExit says. */
  lemma CgRunPublishes(a: seq<seq<real>>, b: seq<real>, x0: seq<real>, maxIter: int, tol: real)
    requires IsMatrix(a, |x0|) && |a| == |x0| == |b|
    ensures CgRun(a, b, x0, maxIter, tol).res == SquaredNorm(Residual(a, b, CgRun(a, b, x0, maxIter, tol).x))
    ensures LoopExit(CgRun(a, b, x0, maxIter, tol).n, CgRun(a, b, x0, maxIter, tol).res, maxIter, tol)
  {
    var r := Residual(a, b, x0);
    CgStepsPublish(a, b, x0, r, r, Dot(r, r), 0, maxIter, tol);
  }

  /** Every CGNR step keeps "r is the normal residual at xk". */
  lemma {:induction false} CgnrStepsPublish(a: seq<seq<real>>, at: seq<seq<real>>, b: seq<real>, xk: seq<real>,
                                            r: seq<real>, p: seq<real>, oldRes: real, iter: int, maxIter: int, tol: real)
    requires IsMatrix(a, |xk|) && at == Transpose(a, |xk|) && |xk| == |r| == |p| && |b| == |a|
    requires 0 <= iter <= (if maxIter < 0 then 0 else maxIter + 1)
    requires r == NormalResidual(a, b, xk) && oldRes == SquaredNorm(r) && (iter > 0 ==> oldRes >= tol)
    ensures CgnrSteps(a, at, xk, r, p, oldRes, iter, maxIter, tol).res
         == SquaredNorm(NormalResidual(a, b, CgnrSteps(a, at, xk, r, p, oldRes, iter, maxIter, tol).x))
    ensures LoopExit(CgnrSteps(a, at, xk, r, p, oldRes, iter, maxIter, tol).n,
                     CgnrSteps(a, at, xk, r, p, oldRes, iter, maxIter, tol).res, maxIter, tol)
    decreases maxIter - iter, 1
  {
    if iter <= maxIter {
      CgnrStepPublishes(a, at, b, xk, r, p, oldRes, iter, maxIter, tol);
    }
  }

  /** One CGNR step keeps the residual invariant, and the rest of the run publishes. */
  lemma {:induction false} CgnrStepPublishes(a: seq<seq<real>>, at: seq<seq<real>>, b: seq<real>, xk: seq<real>,
                                             r: seq<real>, p: seq<real>, oldRes: real, iter: int, maxIter: int, tol: real)
    requires IsMatrix(a, |xk|) && at == Transpose(a, |xk|) && |xk| == |r| == |p| && |b| == |a|
    requires 0 <= iter <= maxIter
    requires r == NormalResidual(a, b, xk) && oldRes == SquaredNorm(r) && (iter > 0 ==> oldRes >= tol)
    ensures CgnrSteps(a, at, xk, r, p, oldRes, iter, maxIter, tol).res
         == SquaredNorm(NormalResidual(a, b, CgnrSteps(a, at, xk, r, p, oldRes, iter, maxIter, tol).x))
    ensures LoopExit(CgnrSteps(a, at, xk, r, p, oldRes, iter, maxIter, tol).n,
                     CgnrSteps(a, at, xk, r, p, oldRes, iter, maxIter, tol).res, maxIter, tol)
    decreases maxIter - iter, 0
  {
    var ap := MatVec(a, p);
    var alpha := Ratio(oldRes, Dot(ap, ap));
    var x := VecAdd(xk, VecScale(p, alpha));
    var r' := VecSub(r, VecScale(MatVec(at, ap), alpha));
    assert r' == NormalResidual(a, b, x) by { NormalResidualStep(a, b, xk, p, alpha); }
    var newRes := Dot(r', r');
    if newRes >= tol {
      CgnrStepsPublish(a, at, b, x, r', VecAdd(VecScale(p, Ratio(newRes, oldRes)), r'), newRes, iter + 1, maxIter, tol);
    }
  }

  /** The CGNR subprocess publishes the squared normal residual at its iterate. */
  lemma CgnrRunPublishes(a: seq<seq<real>>, b: seq<real>, x0: seq<real>, maxIter: int, tol: real)
    requires IsMatrix(a, |x0|) && |b| == |a|
    ensures CgnrRun(a, b, x0, maxIter, tol).res == SquaredNorm(NormalResidual(a, b, CgnrRun(a, b, x0, maxIter, tol).x))
    ensures LoopExit(CgnrRun(a, b, x0, maxIter, tol).n, CgnrRun(a, b, x0, maxIter, tol).res, maxIter, tol)
  {
    var r := NormalResidual(a, b, x0);
    CgnrStepsPublish(a, Transpose(a, |x0|), b, x0, r, r, Dot(r, r), 0, maxIter, tol);
  }

  /** Every weighted step keeps "r is the weighted residual at xk". */
  lemma {:induction false} WcgnrStepsPublish(w: seq<real>, a: seq<seq<real>>, at: seq<seq<real>>, b: seq<real>,
                                             x0: seq<real>, xk: seq<real>, r: seq<real>, p: seq<real>, oldRes: real,
                                             iter: int, maxIter: int, tol: real)
    requires IsMatrix(a, |xk|) && at == Transpose(a, |xk|) && |w| == |x0| == |xk| == |r| == |p| && |b| == |a|
    requires 0 <= iter <= (if maxIter < 0 then 0 else maxIter + 1)
    requires r == WeightedResidual(w, a, b, x0, xk) && oldRes == SquaredNorm(r) && (iter > 0 ==> oldRes >= tol)
    ensures WcgnrSteps(w, a, at, xk, r, p, oldRes, iter, maxIter, tol).res
         == SquaredNorm(WeightedResidual(w, a, b, x0, WcgnrSteps(w, a, at, xk, r, p, oldRes, iter, maxIter, tol).x))
    ensures LoopExit(WcgnrSteps(w, a, at, xk, r, p, oldRes, iter, maxIter, tol).n,
                     WcgnrSteps(w, a, at, xk, r, p, oldRes, iter, maxIter, tol).res, maxIter, tol)
    decreases maxIter - iter, 1
  {
    if iter <= maxIter {
      WcgnrStepPublishes(w, a, at, b, x0, xk, r, p, oldRes, iter, maxIter, tol);
    }
  }

  /** One weighted step keeps the residual invariant, and the rest of the run publishes. */
  lemma {:induction false} WcgnrStepPublishes(w: seq<real>, a: seq<seq<real>>, at: seq<seq<real>>, b: seq<real>,
                                             x0: seq<real>, xk: seq<real>, r: seq<real>, p: seq<real>, oldRes: real,
                                             iter: int, maxIter: int, tol: real)
    requires IsMatrix(a, |xk|) && at == Transpose(a, |xk|) && |w| == |x0| == |xk| == |r| == |p| && |b| == |a|
    requires 0 <= iter <= maxIter
    requires r == WeightedResidual(w, a, b, x0, xk) && oldRes == SquaredNorm(r) && (iter > 0 ==> oldRes >= tol)
    ensures WcgnrSteps(w, a, at, xk, r, p, oldRes, iter, maxIter, tol).res
         == SquaredNorm(WeightedResidual(w, a, b, x0, WcgnrSteps(w, a, at, xk, r, p, oldRes, iter, maxIter, tol).x))
    ensures LoopExit(WcgnrSteps(w, a, at, xk, r, p, oldRes, iter, maxIter, tol).n,
                     WcgnrSteps(w, a, at, xk, r, p, oldRes, iter, maxIter, tol).res, maxIter, tol)
    decreases maxIter - iter, 0
  {
    var ap := MatVec(a, VecMul(w, p));
    var alpha := Ratio(oldRes, Dot(ap, ap));
    var x := VecAdd(xk, VecScale(p, alpha));
    var r' := VecSub(r, VecScale(VecMul(w, MatVec(at, ap)), alpha));
    assert r' == WeightedResidual(w, a, b, x0, x) by { WeightedResidualStep(w, a, b, x0, xk, p, alpha); }
    var newRes := Dot(r', r');
    if newRes >= tol {
      var p' := VecAdd(VecScale(p, Ratio(newRes, oldRes)), r');
      WcgnrStepsPublish(w, a, at, b, x0, x, r', p', newRes, iter + 1, maxIter, tol);
      assert WcgnrSteps(w, a, at, xk, r, p, oldRes, iter, maxIter, tol)
          == WcgnrSteps(w, a, at, x, r', p', newRes, iter + 1, maxIter, tol);
    } else {
      assert WcgnrSteps(w, a, at, xk, r, p, oldRes, iter, maxIter, tol) == Run(x, iter, newRes);
    }
  }

  /** The weighted subprocess publishes the squared weighted residual at its iterate. */
  lemma WcgnrRunPublishes(w: seq<real>, a: seq<seq<real>>, b: seq<real>, x0: seq<real>, maxIter: int, tol: real)
    requires |w| == |x0| && IsMatrix(a, |x0|) && |b| == |a|
    ensures WcgnrRun(w, a, b, x0, maxIter, tol).res
         == SquaredNorm(WeightedResidual(w, a, b, x0, WcgnrRun(w, a, b, x0, maxIter, tol).x))
    ensures LoopExit(WcgnrRun(w, a, b, x0, maxIter, tol).n, WcgnrRun(w, a, b, x0, maxIter, tol).res, maxIter, tol)
  {
    var r := WeightedStart(w, a, b, x0);
    WeightedResidualAtStart(w, a, b, x0);
    WcgnrStepsPublish(w, a, Transpose(a, |x0|), b, x0, x0, r, r, Dot(r, r), 0, maxIter, tol);
  }

  /** Every IRLS round measures the norm at the iterate it reaches. */
  lemma {:induction false} IrlsRoundsPublish(a: seq<seq<real>>, b: seq<real>, xk: seq<real>, norm: real, k: int,
                                             maxIter: int, tol: real, p: real, root: real -> real,
                                             pow: (real, real) -> real)
    requires IsMatrix(a, |xk|) && |b| == |a| && k >= 1 && norm == MinimizedNorm(a, xk, b, root)
    ensures IrlsRounds(a, b, xk, norm, k, maxIter, tol, p, root, pow).res
         == MinimizedNorm(a, IrlsRounds(a, b, xk, norm, k, maxIter, tol, p, root, pow).x, b, root)
    ensures IrlsRounds(a, b, xk, norm, k, maxIter, tol, p, root, pow).n >= 1
    ensures !(IrlsRounds(a, b, xk, norm, k, maxIter, tol, p, root, pow).res > tol
              && IrlsRounds(a, b, xk, norm, k, maxIter, tol, p, root, pow).n < maxIter)
    decreases maxIter - k
  {
    if norm > tol && k < maxIter {
      var x := WcgnrRun(IrlsWeights(xk, p, tol, pow), a, b, xk, maxIter, tol).x;
      IrlsRoundsPublish(a, b, x, MinimizedNorm(a, x, b, root), k + 1, maxIter, tol, p, root, pow);
    }
  }

  /** One more IRLS round: it weights the current iterate and runs the weighted subprocess from it. */
  lemma IrlsRoundsNext(a: seq<seq<real>>, b: seq<real>, xk: seq<real>, norm: real, k: int, maxIter: int,
                       tol: real, p: real, root: real -> real, pow: (real, real) -> real,
                       x: seq<real>, xNorm: real, k1: int, run: Run)
    requires IsMatrix(a, |xk|) && |b| == |a| && norm > tol && k < maxIter
    requires x == WcgnrRun(IrlsWeights(xk, p, tol, pow), a, b, xk, maxIter, tol).x
    requires xNorm == MinimizedNorm(a, x, b, root) && k1 == k + 1
    requires IrlsRounds(a, b, xk, norm, k, maxIter, tol, p, root, pow) == run
    ensures IrlsRounds(a, b, x, xNorm, k1, maxIter, tol, p, root, pow) == run
  {
  }

  /** The rounds stop once the norm is within the tolerance or maxIter rounds have run. */
  lemma IrlsRoundsDone(a: seq<seq<real>>, b: seq<real>, xk: seq<real>, norm: real, k: int, maxIter: int,
                       tol: real, p: real, root: real -> real, pow: (real, real) -> real, run: Run)
    requires IsMatrix(a, |xk|) && |b| == |a| && !(norm > tol && k < maxIter)
    requires IrlsRounds(a, b, xk, norm, k, maxIter, tol, p, root, pow) == run
    ensures run.x == xk && run.n == k && run.res == norm
  {
  }

  /** IRLS's rounds start from the CGNR subprocess's iterate, counted as round 1. */
  lemma IrlsRunRounds(a: seq<seq<real>>, b: seq<real>, x0: seq<real>, maxIter: int, tol: real, p: real,
                      root: real -> real, pow: (real, real) -> real, x1: seq<real>)
    requires IsMatrix(a, |x0|) && |b| == |a| && x1 == CgnrRun(a, b, x0, maxIter, tol).x
    ensures IrlsRun(a, b, x0, maxIter, tol, p, root, pow)
         == IrlsRounds(a, b, x1, MinimizedNorm(a, x1, b, root), 1, maxIter, tol, p, root, pow)
  {
  }

  /** IRLS publishes the norm of the residual at its iterate, after at least one round. */
  lemma IrlsRunPublishes(a: seq<seq<real>>, b: seq<real>, x0: seq<real>, maxIter: int, tol: real, p: real,
                         root: real -> real, pow: (real, real) -> real)
    requires IsMatrix(a, |x0|) && |b| == |a|
    ensures IrlsRun(a, b, x0, maxIter, tol, p, root, pow).res
         == MinimizedNorm(a, IrlsRun(a, b, x0, maxIter, tol, p, root, pow).x, b, root)
    ensures IrlsRun(a, b, x0, maxIter, tol, p, root, pow).n >= 1
    ensures !(IrlsRun(a, b, x0, maxIter, tol, p, root, pow).res > tol && IrlsRun(a, b, x0, maxIter, tol, p, root, pow).n < maxIter)
  {
    var x := CgnrRun(a, b, x0, maxIter, tol).x;
    IrlsRoundsPublish(a, b, x, MinimizedNorm(a, x, b, root), 1, maxIter, tol, p, root, pow);
  }

  /**
   * When IRLS stops after one weighted round, the as-written run reports the same count and norm
   * as the corrected one, but publishes the CGNR iterate instead of the weighted round's outcome,
   * which is where that norm was measured.
   */
  lemma ShadowedAfterOneRound(a: seq<seq<real>>, b: seq<real>, x0: seq<real>, maxIter: int, tol: real, p: real,
                              root: real -> real, pow: (real, real) -> real)
    requires IsMatrix(a, |x0|) && |b| == |a| && IrlsRun(a, b, x0, maxIter, tol, p, root, pow).n == 2
    ensures IrlsRunAsWritten(a, b, x0, maxIter, tol, p, root, pow).n == 2
    ensures IrlsRunAsWritten(a, b, x0, maxIter, tol, p, root, pow).res == IrlsRun(a, b, x0, maxIter, tol, p, root, pow).res
    ensures IrlsRunAsWritten(a, b, x0, maxIter, tol, p, root, pow).x == CgnrRun(a, b, x0, maxIter, tol).x
    ensures IrlsRun(a, b, x0, maxIter, tol, p, root, pow).x
         == WcgnrRun(IrlsWeights(CgnrRun(a, b, x0, maxIter, tol).x, p, tol, pow), a, b, CgnrRun(a, b, x0, maxIter, tol).x,
                     maxIter, tol).x
  {
    var x1 := CgnrRun(a, b, x0, maxIter, tol).x;
    var n1 := MinimizedNorm(a, x1, b, root);
    assert n1 > tol && 1 < maxIter;
    var x2 := WcgnrRun(IrlsWeights(x1, p, tol, pow), a, b, x1, maxIter, tol).x;
    var n2 := MinimizedNorm(a, x2, b, root);
    assert IrlsRun(a, b, x0, maxIter, tol, p, root, pow) == IrlsRounds(a, b, x2, n2, 2, maxIter, tol, p, root, pow);
    assert !(n2 > tol && 2 < maxIter);
  }

  // ---------------------------------------------------------------------------
  // The solver object

  class LinearSolver {
    /** Filled by the solver methods. */
    var solution: seq<real>
    var nIterations: int
    var residual: real
    var milliseconds: int
    var param: real
    /** Filled by the constructor: the rows of the system matrix, its width and the right-hand side. */
    var systemMatrix: seq<seq<real>>
    var nCols: nat
    var rhsVector: seq<real>
    /** Set by solve. */
    var maxIter: int
    var tolerance: real

    ghost predicate Valid()
      reads this`systemMatrix, this`nCols
    {
      |systemMatrix| >= 1 && nCols >= 1 && IsMatrix(systemMatrix, nCols)
    }

    /** The main constructor: copies of the matrix and the vector, nothing solved yet. */
    constructor (system: SparseMatrix.Matrix, rhs: DenseVector.Vector)
      requires system.Valid() && rhs.Valid()
      ensures Valid() && systemMatrix == system.Rows() && nCols == system.nCols && rhsVector == rhs.Elems()
      ensures solution == [] && nIterations == -1 && residual == -1.0 && milliseconds == -1 && param == -1.0
    {
      solution := [];
      nIterations := -1;
      residual := -1.0;
      milliseconds := -1;
      param := -1.0;
      systemMatrix := Crs.Dense(system.Rep());
      nCols := system.nCols;
      rhsVector := rhs.Elems();
      maxIter := MaxIter;
      tolerance := Tolerance;
    }

    /** The dimensions each solver accepts. */
    ghost predicate Accepts(name: string, x0: seq<real>)
      reads this`systemMatrix, this`nCols, this`rhsVector
    {
      if name == "cg" then |systemMatrix| == |x0| == |rhsVector| == nCols
      else if name == "cgnr" || name == "tcgnr" || name == "irls" then nCols == |x0| && |systemMatrix| == |rhsVector|
      else false
    }

    /** What CG publishes: its iterate, the squared residual of A x = b there, and the loop's exit. */
    ghost predicate CgPublished()
      reads this`systemMatrix, this`nCols, this`rhsVector, this`solution, this`nIterations, this`residual, this`maxIter, this`tolerance
    {
      && |solution| == nCols && IsMatrix(systemMatrix, nCols) && |rhsVector| == |systemMatrix|
      && residual == SquaredNorm(Residual(systemMatrix, rhsVector, solution))
      && LoopExit(nIterations, residual, maxIter, tolerance)
    }

    /** What the CGNR subprocess publishes for the system A x = b. */
    ghost predicate NormalPublished(a: seq<seq<real>>, b: seq<real>)
      reads this`solution, this`nIterations, this`residual, this`maxIter, this`tolerance
    {
      && IsMatrix(a, |solution|) && |b| == |a|
      && residual == SquaredNorm(NormalResidual(a, b, solution))
      && LoopExit(nIterations, residual, maxIter, tolerance)
    }

    /** What TCGNR publishes: CGNR's outcome on the normal equations (Aᵀ A + s² I) x = Aᵀ b. */
    ghost predicate TikhonovPublished(s: real)
      reads this`systemMatrix, this`nCols, this`rhsVector, this`solution, this`nIterations, this`residual, this`maxIter, this`tolerance
    {
      && |solution| == nCols && IsMatrix(systemMatrix, nCols) && |rhsVector| == |systemMatrix|
      && residual == SquaredNorm(TikhonovResidual(systemMatrix, rhsVector, s, solution))
      && LoopExit(nIterations, residual, maxIter, tolerance)
    }

    /** What IRLS publishes: its iterate, the norm of the residual there, and the loop's exit. */
    ghost predicate IrlsPublished(root: real -> real)
      reads this`systemMatrix, this`nCols, this`rhsVector, this`solution, this`nIterations, this`residual, this`maxIter, this`tolerance
    {
      && |solution| == nCols && IsMatrix(systemMatrix, nCols) && |rhsVector| == |systemMatrix|
      && residual == MinimizedNorm(systemMatrix, solution, rhsVector, root)
      && nIterations >= 1 && !(residual > tolerance && nIterations < maxIter)
    }

    /** _cgSolve: conjugate gradients on a square system. */
    method CgSolve(x0: seq<real>) returns (o: Outcome)
      requires Valid()
      modifies this`solution, this`nIterations, this`residual
      ensures o.Pass? <==> Accepts("cg", x0)
      ensures o.Fail? ==> unchanged(this)
      ensures o.Pass? ==> Run(solution, nIterations, residual) == CgRun(systemMatrix, rhsVector, x0, maxIter, tolerance)
      ensures o.Pass? ==> CgPublished()
    {
      if |systemMatrix| != |x0| || |systemMatrix| != |rhsVector| {
        return Fail("Improper dimensions!");
      }
      if |systemMatrix| != nCols {
        return Fail("Coefficient matrix must be square!");
      }
      var a, b := systemMatrix, rhsVector;
      var xk := x0;
      var r := VecSub(b, MatVec(a, xk));
      var p := r;
      var oldResidual := Dot(r, r);
      var iter := 0;
      while iter <= maxIter
        invariant |xk| == |p| == |r| == nCols
        invariant CgSteps(a, xk, r, p, oldResidual, iter, maxIter, tolerance) == CgRun(a, b, x0, maxIter, tolerance)
        decreases maxIter - iter
      {
        var ap := MatVec(a, p);
        var alpha := Ratio(oldResidual, Dot(p, ap));
        xk := VecAdd(xk, VecScale(p, alpha));
        r := VecSub(r, VecScale(ap, alpha));
        var newResidual := Dot(r, r);
        if newResidual < tolerance {
          solution, nIterations, residual := xk, iter, newResidual;
          CgRunPublishes(a, b, x0, maxIter, tolerance);
          return Pass;
        }
        var beta := Ratio(newResidual, oldResidual);
        p := VecAdd(VecScale(p, beta), r);
        oldResidual := newResidual;
        iter := iter + 1;
      }
      solution, nIterations, residual := xk, iter, oldResidual;
      CgRunPublishes(a, b, x0, maxIter, tolerance);
      return Pass;
    }

    /** _cgnrSubprocess: conjugate gradients on Aᵀ A x = Aᵀ b, given A's transpose. */
    method CgnrSubprocess(a: seq<seq<real>>, at: seq<seq<real>>, b: seq<real>, x0: seq<real>)
      requires IsMatrix(a, |x0|) && |b| == |a| && at == Transpose(a, |x0|)
      modifies this`solution, this`nIterations, this`residual
      ensures Run(solution, nIterations, residual) == CgnrRun(a, b, x0, maxIter, tolerance)
      ensures |solution| == |x0|
    {
      var xk := x0;
      var r := VecSub(MatVec(at, b), MatVec(at, MatVec(a, xk)));
      var p := r;
      var oldResidual := Dot(r, r);
      var iter := 0;
      while iter <= maxIter
        invariant |xk| == |p| == |r| == |x0|
        invariant CgnrSteps(a, at, xk, r, p, oldResidual, iter, maxIter, tolerance) == CgnrRun(a, b, x0, maxIter, tolerance)
        decreases maxIter - iter
      {
        var ap := MatVec(a, p);
        var alpha := Ratio(oldResidual, Dot(ap, ap));
        xk := VecAdd(xk, VecScale(p, alpha));
        r := VecSub(r, VecScale(MatVec(at, ap), alpha));
        var newResidual := Dot(r, r);
        if newResidual < tolerance {
          solution, nIterations, residual := xk, iter, newResidual;
          return;
        }
        var beta := Ratio(newResidual, oldResidual);
        p := VecAdd(VecScale(p, beta), r);
        oldResidual := newResidual;
        iter := iter + 1;
      }
      solution, nIterations, residual := xk, iter, oldResidual;
    }

    /** _wcgnrSubprocess: the CGNR recurrence with the weighting W = diag(w). */
    method WcgnrSubprocess(w: seq<real>, a: seq<seq<real>>, at: seq<seq<real>>, b: seq<real>, x0: seq<real>)
      requires |w| == |x0| && IsMatrix(a, |x0|) && |b| == |a| && at == Transpose(a, |x0|)
      modifies this`solution, this`nIterations, this`residual
      ensures Run(solution, nIterations, residual) == WcgnrRun(w, a, b, x0, maxIter, tolerance)
      ensures |solution| == |x0|
    {
      var weights := DiagonalMatrix(w);
      var w2 := VecMul(w, w);
      var weights2 := DiagonalMatrix(w2);
      MatVecDiagonal(w, MatVec(at, b));
      MatVecDiagonal(w2, MatVec(at, MatVec(a, x0)));
      var xk := x0;
      var r := VecSub(MatVec(weights, MatVec(at, b)), MatVec(weights2, MatVec(at, MatVec(a, xk))));
      var p := r;
      var oldResidual := Dot(r, r);
      var iter := 0;
      while iter <= maxIter
        invariant |xk| == |p| == |r| == |x0|
        invariant WcgnrSteps(w, a, at, xk, r, p, oldResidual, iter, maxIter, tolerance) == WcgnrRun(w, a, b, x0, maxIter, tolerance)
        decreases maxIter - iter
      {
        MatVecDiagonal(w, p);
        var ap := MatVec(a, MatVec(weights, p));
        var alpha := Ratio(oldResidual, Dot(ap, ap));
        MatVecDiagonal(w, MatVec(at, ap));
        xk := VecAdd(xk, VecScale(p, alpha));
        r := VecSub(r, VecScale(MatVec(weights, MatVec(at, ap)), alpha));
        var newResidual := Dot(r, r);
        if newResidual < tolerance {
          solution, nIterations, residual := xk, iter, newResidual;
          return;
        }
        var beta := Ratio(newResidual, oldResidual);
        p := VecAdd(VecScale(p, beta), r);
        oldResidual := newResidual;
        iter := iter + 1;
      }
      solution, nIterations, residual := xk, iter, oldResidual;
    }

    /** _cgnrSolve: CGNR on the system itself. */
    method CgnrSolve(x0: seq<real>) returns (o: Outcome)
      requires Valid()
      modifies this`solution, this`nIterations, this`residual
      ensures o.Pass? <==> Accepts("cgnr", x0)
      ensures o.Fail? ==> unchanged(this)
      ensures o.Pass? ==> Run(solution, nIterations, residual) == CgnrRun(systemMatrix, rhsVector, x0, maxIter, tolerance)
      ensures o.Pass? ==> |solution| == nCols && NormalPublished(systemMatrix, rhsVector)
    {
      if nCols != |x0| || |systemMatrix| != |rhsVector| {
        return Fail("Improper dimensions!");
      }
      var at := Transpose(systemMatrix, nCols);
      CgnrSubprocess(systemMatrix, at, rhsVector, x0);
      CgnrRunPublishes(systemMatrix, rhsVector, x0, maxIter, tolerance);
      return Pass;
    }

    /**
     * _tcgnrSolve: CGNR on A with the block s I stacked under it and n zeros under b, where
     * s = root(param) stands for sqrt(param).
     */
    method TcgnrSolve(x0: seq<real>, root: real -> real) returns (o: Outcome)
      requires Valid()
      modifies this`solution, this`nIterations, this`residual
      ensures o.Pass? <==> Accepts("tcgnr", x0)
      ensures o.Fail? ==> unchanged(this)
      ensures o.Pass? ==>
        Run(solution, nIterations, residual)
        == CgnrRun(systemMatrix + Regulariser(nCols, root(param)), rhsVector + Zeros(nCols), x0, maxIter, tolerance)
      ensures o.Pass? ==> TikhonovPublished(root(param))
    {
      if nCols != |x0| || |systemMatrix| != |rhsVector| {
        return Fail("Improper dimensions!");
      }
      var s := root(param);
      TikhonovIsStackedNormal(systemMatrix, rhsVector, s, x0);
      var newSystem := systemMatrix + Regulariser(nCols, s);
      var newRhs := rhsVector + Zeros(nCols);
      var at := Transpose(newSystem, nCols);
      CgnrSubprocess(newSystem, at, newRhs, x0);
      CgnrRunPublishes(newSystem, newRhs, x0, maxIter, tolerance);
      TikhonovIsStackedNormal(systemMatrix, rhsVector, s, solution);
      return Pass;
    }

    /**
     * _irlsSolve with the iterate carried from round to round: CGNR first, then weighted CGNR
     * from the current iterate until the norm reaches the tolerance or maxIter rounds have run.
     * It publishes IrlsRun's outcome, so after the first round its iterate is the one the last
     * weighted round reached when started, and weighted, at the iterate of the round before.
     */
    method IrlsSolve(x0: seq<real>, root: real -> real, pow: (real, real) -> real) returns (o: Outcome)
      requires Valid()
      modifies this`solution, this`nIterations, this`residual
      ensures o.Pass? <==> Accepts("irls", x0)
      ensures o.Fail? ==> unchanged(this)
      ensures o.Pass? ==>
        Run(solution, nIterations, residual) == IrlsRun(systemMatrix, rhsVector, x0, maxIter, tolerance, param, root, pow)
      ensures o.Pass? ==> IrlsPublished(root)
    {
      if nCols != |x0| || |systemMatrix| != |rhsVector| {
        return Fail("Improper dimensions!");
      }
      var a, b := systemMatrix, rhsVector;
      var at := Transpose(a, nCols);
      CgnrSubprocess(a, at, b, x0);
      var x1, p, tol, mi := solution, param, tolerance, maxIter;
      var xk, irlsIter, irlsNorm := WeightedRounds(a, at, b, x1, root, pow);
      IrlsRunRounds(a, b, x0, mi, tol, p, root, pow, x1);
      solution, residual, nIterations := xk, irlsNorm, irlsIter;
      return Pass;
    }

    /** The rounds of _irlsSolve after its first CGNR run from x1, each weighted at the current iterate. */
    method WeightedRounds(a: seq<seq<real>>, at: seq<seq<real>>, b: seq<real>, x1: seq<real>, root: real -> real,
                          pow: (real, real) -> real) returns (xk: seq<real>, irlsIter: int, irlsNorm: real)
      requires IsMatrix(a, |x1|) && |b| == |a| && at == Transpose(a, |x1|)
      modifies this`solution, this`nIterations, this`residual
      ensures Run(xk, irlsIter, irlsNorm)
           == IrlsRounds(a, b, x1, MinimizedNorm(a, x1, b, root), 1, maxIter, tolerance, param, root, pow)
      ensures |xk| == |x1| && irlsIter >= 1 && irlsNorm == MinimizedNorm(a, xk, b, root)
      ensures !(irlsNorm > tolerance && irlsIter < maxIter)
    {
      xk := x1;
      irlsNorm := MinimizedNorm(a, xk, b, root);
      irlsIter := 1;
      var p, tol, mi := param, tolerance, maxIter;
      ghost var run := IrlsRounds(a, b, x1, irlsNorm, 1, mi, tol, p, root, pow);
      while irlsNorm > tol && irlsIter < mi
        invariant |xk| == |x1| && mi == maxIter && tol == tolerance && p == param
        invariant irlsIter >= 1 && irlsNorm == MinimizedNorm(a, xk, b, root)
        invariant IrlsRounds(a, b, xk, irlsNorm, irlsIter, mi, tol, p, root, pow) == run
        decreases mi - irlsIter
      {
        var w := IrlsWeights(xk, p, tol, pow);
        WcgnrSubprocess(w, a, at, b, xk);
        ghost var prevX, prevNorm, prevIter := xk, irlsNorm, irlsIter;
        xk := solution;
        irlsNorm := MinimizedNorm(a, xk, b, root);
        irlsIter := irlsIter + 1;
        IrlsRoundsNext(a, b, prevX, prevNorm, prevIter, mi, tol, p, root, pow, xk, irlsNorm, irlsIter, run);
      }
      IrlsRoundsDone(a, b, xk, irlsNorm, irlsIter, mi, tol, p, root, pow, run);
    }

    /**
     * _irlsSolve as written: the loop body declares a fresh `xk`, so every round takes its weights
     * at the first CGNR iterate and restarts the weighted subprocess from it, and that iterate is
     * what is published, whatever the rounds found.
     */
    method IrlsSolveAsWritten(x0: seq<real>, root: real -> real, pow: (real, real) -> real) returns (o: Outcome)
      requires Valid()
      modifies this`solution, this`nIterations, this`residual
      ensures o.Pass? <==> Accepts("irls", x0)
      ensures o.Fail? ==> unchanged(this)
      ensures o.Pass? ==>
        Run(solution, nIterations, residual) == IrlsRunAsWritten(systemMatrix, rhsVector, x0, maxIter, tolerance, param, root, pow)
    {
      if nCols != |x0| || |systemMatrix| != |rhsVector| {
        o := Fail("Improper dimensions!");
        return;
      }
      var a, b := systemMatrix, rhsVector;
      var at := Transpose(a, nCols);
      CgnrSubprocess(a, at, b, x0);
      var xk := solution;
      var irlsIter, irlsNorm := ShadowedLoop(a, at, b, xk, root, pow);
      solution, residual, nIterations := xk, irlsNorm, irlsIter;
      o := Pass;
    }

    /** The rounds of _irlsSolve as written: each is weighted at, and started from, the first iterate x1. */
    method ShadowedLoop(a: seq<seq<real>>, at: seq<seq<real>>, b: seq<real>, x1: seq<real>, root: real -> real,
                        pow: (real, real) -> real) returns (irlsIter: int, irlsNorm: real)
      requires IsMatrix(a, |x1|) && |b| == |a| && at == Transpose(a, |x1|)
      modifies this`solution, this`nIterations, this`residual
      ensures Run(x1, irlsIter, irlsNorm) == ShadowedRounds(a, b, x1, maxIter, tolerance, param, root, pow)
    {
      var xk := x1;
      irlsNorm := MinimizedNorm(a, xk, b, root);
      irlsIter := 1;
      var p, tol, mi := param, tolerance, maxIter;
      ghost var first := irlsNorm;
      ghost var second := WcgnrRun(IrlsWeights(xk, p, tol, pow), a, b, xk, mi, tol).x;
      while irlsNorm > tol && irlsIter < mi
        invariant mi == maxIter && tol == tolerance && p == param && irlsIter >= 1
        invariant irlsIter == 1 ==> irlsNorm == first
        invariant irlsIter > 1 ==> first > tol && 1 < mi
        invariant irlsIter > 1 ==> irlsNorm == MinimizedNorm(a, second, b, root) && irlsIter <= mi
        invariant irlsIter > 2 ==> irlsNorm > tol
        decreases mi - irlsIter
      {
        var w := IrlsWeights(xk, p, tol, pow);
        WcgnrSubprocess(w, a, at, b, xk);
        var xk := solution;
        irlsNorm := MinimizedNorm(a, xk, b, root);
        irlsIter := irlsIter + 1;
      }
    }

    /**
     * solve: records the arguments, dispatches on the lower-cased solver name and records the time
     * taken, `elapsed` standing for the clock's reading.  An unknown name or a rejected dimension
     * fails before the time is recorded.
     */
    method Solve(solver: string, x0: seq<real>, maxIterations: int, tol: real, parameter: real, elapsed: nat,
                 root: real -> real, pow: (real, real) -> real) returns (o: Outcome)
      requires Valid()
      modifies this`param, this`maxIter, this`tolerance, this`solution, this`nIterations, this`residual, this`milliseconds
      ensures param == parameter && maxIter == maxIterations && tolerance == tol
      ensures o.Pass? <==> Accepts(Utility.Lower(solver), x0)
      ensures o.Pass? ==> milliseconds == elapsed
      ensures o.Fail? ==> milliseconds == old(milliseconds) && solution == old(solution)
      ensures o.Fail? ==> nIterations == old(nIterations) && residual == old(residual)
      ensures o.Pass? && Utility.Lower(solver) == "cg" ==> CgPublished()
      ensures o.Pass? && Utility.Lower(solver) == "cgnr" ==> NormalPublished(systemMatrix, rhsVector)
      ensures o.Pass? && Utility.Lower(solver) == "tcgnr" ==> TikhonovPublished(root(parameter))
      ensures o.Pass? && Utility.Lower(solver) == "irls" ==> IrlsPublished(root)
      ensures o.Pass? && Utility.Lower(solver) == "cg" ==>
        Run(solution, nIterations, residual) == CgRun(systemMatrix, rhsVector, x0, maxIter, tolerance)
      ensures o.Pass? && Utility.Lower(solver) == "cgnr" ==>
        Run(solution, nIterations, residual) == CgnrRun(systemMatrix, rhsVector, x0, maxIter, tolerance)
      ensures o.Pass? && Utility.Lower(solver) == "tcgnr" ==>
        Run(solution, nIterations, residual)
        == CgnrRun(systemMatrix + Regulariser(nCols, root(param)), rhsVector + Zeros(nCols), x0, maxIter, tolerance)
      ensures o.Pass? && Utility.Lower(solver) == "irls" ==>
        Run(solution, nIterations, residual) == IrlsRun(systemMatrix, rhsVector, x0, maxIter, tolerance, param, root, pow)
    {
      var name := Utility.ToLower(solver);
      param, maxIter, tolerance := parameter, maxIterations, tol;
      o := Dispatch(name, x0, elapsed, root, pow);
    }

    /** The name dispatch of solve, once the settings are stored; a solve that passes records its time. */
    method Dispatch(name: string, x0: seq<real>, elapsed: nat, root: real -> real, pow: (real, real) -> real)
      returns (o: Outcome)
      requires Valid()
      modifies this`solution, this`nIterations, this`residual, this`milliseconds
      ensures o.Pass? <==> Accepts(name, x0)
      ensures o.Pass? ==> milliseconds == elapsed
      ensures o.Fail? ==> unchanged(this)
      ensures o.Pass? && name == "cg" ==> CgPublished()
      ensures o.Pass? && name == "cgnr" ==> NormalPublished(systemMatrix, rhsVector)
      ensures o.Pass? && name == "tcgnr" ==> TikhonovPublished(root(param))
      ensures o.Pass? && name == "irls" ==> IrlsPublished(root)
      ensures o.Pass? && name == "cg" ==>
        Run(solution, nIterations, residual) == CgRun(systemMatrix, rhsVector, x0, maxIter, tolerance)
      ensures o.Pass? && name == "cgnr" ==>
        Run(solution, nIterations, residual) == CgnrRun(systemMatrix, rhsVector, x0, maxIter, tolerance)
      ensures o.Pass? && name == "tcgnr" ==>
        Run(solution, nIterations, residual)
        == CgnrRun(systemMatrix + Regulariser(nCols, root(param)), rhsVector + Zeros(nCols), x0, maxIter, tolerance)
      ensures o.Pass? && name == "irls" ==>
        Run(solution, nIterations, residual) == IrlsRun(systemMatrix, rhsVector, x0, maxIter, tolerance, param, root, pow)
    {
      if name == "cg" {
        assert name != "cgnr" && name != "tcgnr" && name != "irls";
        o := CgSolve(x0);
      } else if name == "cgnr" {
        assert name != "tcgnr" && name != "irls";
        o := CgnrSolve(x0);
      } else if name == "tcgnr" {
        assert name != "irls";
        o := TcgnrSolve(x0, root);
      } else if name == "irls" {
        o := IrlsSolve(x0, root, pow);
      } else {
        return Fail("Invalid solver passed!");
      }
      if o.Pass? {
        milliseconds := elapsed;
      }
    }

    /** getSolution: the address test always holds, so the solution is returned even before a solve. */
    method GetSolution() returns (x: seq<real>)
      ensures x == solution
    {
      x := solution;
    }

    /** getSolveTime: the time of the last solve, failing before any solve has finished. */
    method GetSolveTime() returns (r: Result<int>)
      ensures r.Err? <==> milliseconds < 0
      ensures r.Ok? ==> r.value == milliseconds
    {
      if milliseconds >= 0 {
        return Ok(milliseconds);
      }
      return Err("System has not been solved yet!");
    }
  }
}
