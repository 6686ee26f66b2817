/**
 * Exact-arithmetic meaning of the linear algebra in lalib: vectors as sequences of
 * reals, matrices as sequences of rows.  The Matrix and Vector classes are proved
 * to compute these operations, and the solvers are stated with them.
 */
module DenseAlgebra {

  /** Sum of a sequence, accumulated from the left as the source's loops do. */
  function Sum(s: seq<real>): real
  {
    if s == [] then 0.0 else Sum(s[..|s| - 1]) + s[|s| - 1]
  }

  /** Inner product of two equally long vectors. */
  function Dot(x: seq<real>, y: seq<real>): real
    requires |x| == |y|
  {
    if x == [] then 0.0 else Dot(x[..|x| - 1], y[..|y| - 1]) + x[|x| - 1] * y[|y| - 1]
  }

  function VecAdd(x: seq<real>, y: seq<real>): seq<real>
    requires |x| == |y|
  {
    seq(|x|, i requires 0 <= i < |x| => x[i] + y[i])
  }

  function VecSub(x: seq<real>, y: seq<real>): seq<real>
    requires |x| == |y|
  {
    seq(|x|, i requires 0 <= i < |x| => x[i] - y[i])
  }

  /** Element-wise (Hadamard) product. */
  function VecMul(x: seq<real>, y: seq<real>): seq<real>
    requires |x| == |y|
  {
    seq(|x|, i requires 0 <= i < |x| => x[i] * y[i])
  }

  /** Every element multiplied by the scalar `s` (vector times scalar). */
  function VecScale(x: seq<real>, s: real): seq<real>
  {
    seq(|x|, i requires 0 <= i < |x| => x[i] * s)
  }

  lemma VecScaleAt(x: seq<real>, s: real, i: int)
    requires 0 <= i < |x|
    ensures VecScale(x, s)[i] == x[i] * s
  {
  }

  /** std::abs on a value. */
  function RealAbs(x: real): real
  {
    if x < 0.0 then -x else x
  }

  function Zeros(n: nat): seq<real>
  {
    seq(n, _ => 0.0)
  }

  /** `a` is a matrix whose every row has `cols` entries. */
  ghost predicate IsMatrix(a: seq<seq<real>>, cols: nat)
  {
    forall i :: 0 <= i < |a| ==> |a[i]| == cols
  }

  /** Matrix-vector product: entry i is the inner product of row i with `x`. */
  function MatVec(a: seq<seq<real>>, x: seq<real>): seq<real>
    requires IsMatrix(a, |x|)
  {
    seq(|a|, i requires 0 <= i < |a| => Dot(a[i], x))
  }

  /** The transpose of a matrix with `cols` columns. */
  function Transpose(a: seq<seq<real>>, cols: nat): (t: seq<seq<real>>)
    requires IsMatrix(a, cols)
    ensures |t| == cols && IsMatrix(t, |a|)
  {
    seq(cols, j requires 0 <= j < cols => seq(|a|, i requires 0 <= i < |a| => a[i][j]))
  }

  /** Square matrix with `s` on the diagonal. */
  function DiagonalMatrix(d: seq<real>): seq<seq<real>>
  {
    seq(|d|, i requires 0 <= i < |d| => seq(|d|, j requires 0 <= j < |d| => if i == j then d[i] else 0.0))
  }

  // ---------------------------------------------------------------------------
  // Algebraic facts the solvers rely on.

  lemma {:induction false} SumAppend(a: seq<real>, b: seq<real>)
    ensures Sum(a + b) == Sum(a) + Sum(b)
    decreases |b|
  {
    if b == [] {
      assert a + b == a;
    } else {
      assert (a + b)[..|a + b| - 1] == a + b[..|b| - 1];
      SumAppend(a, b[..|b| - 1]);
    }
  }

  lemma {:induction false} SumZeros(n: nat)
    ensures Sum(Zeros(n)) == 0.0
  {
    if n > 0 {
      assert Zeros(n)[..n - 1] == Zeros(n - 1);
      SumZeros(n - 1);
    }
  }

  lemma {:induction false} DotAppend(x1: seq<real>, x2: seq<real>, y1: seq<real>, y2: seq<real>)
    requires |x1| == |y1| && |x2| == |y2|
    ensures Dot(x1 + x2, y1 + y2) == Dot(x1, y1) + Dot(x2, y2)
    decreases |x2|
  {
    if x2 == [] {
      assert x1 + x2 == x1 && y1 + y2 == y1;
    } else {
      var n := |x2| - 1;
      assert (x1 + x2)[..|x1 + x2| - 1] == x1 + x2[..n];
      assert (y1 + y2)[..|y1 + y2| - 1] == y1 + y2[..n];
      DotAppend(x1, x2[..n], y1, y2[..n]);
    }
  }

  /** The inner product is the sum of the element-wise products. */
  lemma {:induction false} DotIsSumOfProducts(x: seq<real>, y: seq<real>)
    requires |x| == |y|
    ensures Dot(x, y) == Sum(VecMul(x, y))
  {
    if x != [] {
      var n := |x| - 1;
      assert |VecMul(x, y)[..n]| == n;
      assert forall k :: 0 <= k < n ==> VecMul(x, y)[..n][k] == VecMul(x[..n], y[..n])[k];
      assert VecMul(x, y)[..n] == VecMul(x[..n], y[..n]);
      DotIsSumOfProducts(x[..n], y[..n]);
    }
  }

  lemma {:induction false} SumVecAdd(x: seq<real>, y: seq<real>)
    requires |x| == |y|
    ensures Sum(VecAdd(x, y)) == Sum(x) + Sum(y)
  {
    if x != [] {
      var n := |x| - 1;
      assert |VecAdd(x, y)[..n]| == n;
      assert forall k :: 0 <= k < n ==> VecAdd(x, y)[..n][k] == VecAdd(x[..n], y[..n])[k];
      assert VecAdd(x, y)[..n] == VecAdd(x[..n], y[..n]);
      SumVecAdd(x[..n], y[..n]);
    }
  }

  lemma {:induction false} DotZeroRight(x: seq<real>)
    ensures Dot(x, Zeros(|x|)) == 0.0
  {
    if x != [] {
      assert Zeros(|x|)[..|x| - 1] == Zeros(|x| - 1);
      DotZeroRight(x[..|x| - 1]);
    }
  }

  lemma {:induction false} DotAddRight(x: seq<real>, y: seq<real>, z: seq<real>)
    requires |x| == |y| == |z|
    ensures Dot(x, VecAdd(y, z)) == Dot(x, y) + Dot(x, z)
  {
    if x != [] {
      var n := |x| - 1;
      assert VecAdd(y, z)[..n] == VecAdd(y[..n], z[..n]);
      DotAddRight(x[..n], y[..n], z[..n]);
    }
  }

  lemma {:induction false} DotSubRight(x: seq<real>, y: seq<real>, z: seq<real>)
    requires |x| == |y| == |z|
    ensures Dot(x, VecSub(y, z)) == Dot(x, y) - Dot(x, z)
  {
    if x != [] {
      var n := |x| - 1;
      assert VecSub(y, z)[..n] == VecSub(y[..n], z[..n]);
      DotSubRight(x[..n], y[..n], z[..n]);
    }
  }

  lemma {:induction false} DotScaleRight(x: seq<real>, y: seq<real>, s: real)
    requires |x| == |y|
    ensures Dot(x, VecScale(y, s)) == Dot(x, y) * s
  {
    if x != [] {
      var n := |x| - 1;
      assert |VecScale(y, s)[..n]| == n;
      assert forall k :: 0 <= k < n ==> VecScale(y, s)[..n][k] == VecScale(y[..n], s)[k];
      assert VecScale(y, s)[..n] == VecScale(y[..n], s);
      DotScaleRight(x[..n], y[..n], s);
    }
  }

  lemma {:induction false} DotSymmetric(x: seq<real>, y: seq<real>)
    requires |x| == |y|
    ensures Dot(x, y) == Dot(y, x)
  {
    if x != [] {
      DotSymmetric(x[..|x| - 1], y[..|y| - 1]);
    }
  }

  /** A matrix-vector product distributes over a vector sum. */
  lemma MatVecAdd(a: seq<seq<real>>, x: seq<real>, y: seq<real>)
    requires |x| == |y| && IsMatrix(a, |x|)
    ensures MatVec(a, VecAdd(x, y)) == VecAdd(MatVec(a, x), MatVec(a, y))
  {
    forall i | 0 <= i < |a|
      ensures MatVec(a, VecAdd(x, y))[i] == VecAdd(MatVec(a, x), MatVec(a, y))[i]
    {
      DotAddRight(a[i], x, y);
    }
  }

  lemma MatVecSub(a: seq<seq<real>>, x: seq<real>, y: seq<real>)
    requires |x| == |y| && IsMatrix(a, |x|)
    ensures MatVec(a, VecSub(x, y)) == VecSub(MatVec(a, x), MatVec(a, y))
  {
    forall i | 0 <= i < |a|
      ensures MatVec(a, VecSub(x, y))[i] == VecSub(MatVec(a, x), MatVec(a, y))[i]
    {
      DotSubRight(a[i], x, y);
    }
  }

  lemma MatVecScale(a: seq<seq<real>>, x: seq<real>, s: real)
    requires IsMatrix(a, |x|)
    ensures MatVec(a, VecScale(x, s)) == VecScale(MatVec(a, x), s)
  {
    forall i | 0 <= i < |a|
      ensures MatVec(a, VecScale(x, s))[i] == VecScale(MatVec(a, x), s)[i]
    {
      DotScaleRight(a[i], x, s);
    }
  }

  /**
   * The step shared by every conjugate-gradient variant: moving the iterate along `p`
   * by `alpha` and the residual along `a p` by `alpha` keeps "residual = b - a x".
   */
  lemma ResidualStep(a: seq<seq<real>>, b: seq<real>, x: seq<real>, p: seq<real>, alpha: real)
    requires |x| == |p| && IsMatrix(a, |x|) && |b| == |a|
    ensures VecSub(VecSub(b, MatVec(a, x)), VecScale(MatVec(a, p), alpha))
         == VecSub(b, MatVec(a, VecAdd(x, VecScale(p, alpha))))
  {
    MatVecAdd(a, x, VecScale(p, alpha));
    MatVecScale(a, p, alpha);
  }

  /** Transposing twice gives the matrix back. */
  lemma TransposeTwice(a: seq<seq<real>>, cols: nat)
    requires IsMatrix(a, cols)
    ensures IsMatrix(Transpose(a, cols), |a|)
    ensures Transpose(Transpose(a, cols), |a|) == a
  {
    var t := Transpose(a, cols);
    var tt := Transpose(t, |a|);
    forall i | 0 <= i < |a| ensures tt[i] == a[i] {
      assert |tt[i]| == cols;
    }
  }

  /** Moving along `p` by `alpha` moves a matrix-vector product along `a p` by `alpha`. */
  lemma MatVecAffine(a: seq<seq<real>>, u: seq<real>, p: seq<real>, alpha: real)
    requires |u| == |p| && IsMatrix(a, |u|)
    ensures MatVec(a, VecAdd(u, VecScale(p, alpha))) == VecAdd(MatVec(a, u), VecScale(MatVec(a, p), alpha))
  {
    MatVecAdd(a, u, VecScale(p, alpha));
    MatVecScale(a, p, alpha);
  }

  /** Any matrix maps the zero vector to zero. */
  lemma MatVecZero(a: seq<seq<real>>, n: nat)
    requires IsMatrix(a, n)
    ensures MatVec(a, Zeros(n)) == Zeros(|a|)
  {
    forall i | 0 <= i < |a| ensures MatVec(a, Zeros(n))[i] == 0.0 {
      DotZeroRight(a[i]);
    }
  }

  /** The product of a matrix with rows stacked below it: the two products one after the other. */
  lemma MatVecStack(a: seq<seq<real>>, c: seq<seq<real>>, x: seq<real>)
    requires IsMatrix(a, |x|) && IsMatrix(c, |x|)
    ensures IsMatrix(a + c, |x|) && MatVec(a + c, x) == MatVec(a, x) + MatVec(c, x)
  {
    assert forall i :: 0 <= i < |a + c| ==> (a + c)[i] == if i < |a| then a[i] else c[i - |a|];
  }

  /** A row holding `s` at position i and zeros elsewhere picks out `s` times entry i. */
  lemma {:induction false} DotUnitPrefix(u: seq<real>, y: seq<real>, i: int, s: real, k: nat)
    requires |u| == |y| && k <= |u| && 0 <= i < |u|
    requires forall j :: 0 <= j < |u| ==> u[j] == if j == i then s else 0.0
    ensures Dot(u[..k], y[..k]) == if i < k then s * y[i] else 0.0
  {
    if k > 0 {
      DotUnitPrefix(u, y, i, s, k - 1);
      assert u[..k][..k - 1] == u[..k - 1] && y[..k][..k - 1] == y[..k - 1];
    }
  }

  lemma DotUnit(u: seq<real>, y: seq<real>, i: int, s: real)
    requires |u| == |y| && 0 <= i < |u|
    requires forall j :: 0 <= j < |u| ==> u[j] == if j == i then s else 0.0
    ensures Dot(u, y) == s * y[i]
  {
    DotUnitPrefix(u, y, i, s, |u|);
    assert u[..|u|] == u && y[..|y|] == y;
  }

  /** A diagonal matrix scales each entry by its diagonal element. */
  lemma MatVecDiagonal(d: seq<real>, x: seq<real>)
    requires |d| == |x|
    ensures IsMatrix(DiagonalMatrix(d), |x|) && MatVec(DiagonalMatrix(d), x) == VecMul(d, x)
  {
    var m := DiagonalMatrix(d);
    assert IsMatrix(m, |x|);
    forall i | 0 <= i < |d| ensures MatVec(m, x)[i] == VecMul(d, x)[i] {
      DotUnit(m[i], x, i, d[i]);
    }
  }
}
