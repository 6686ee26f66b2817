/**
 * SIMD lanes (simd.hpp and the helpers at the top of Matrix.hpp / Vector.hpp).
 * A lane is one vector register of doubles; with a 32-byte register and 8-byte
 * doubles it holds four elements.  Lane arithmetic is element-wise.
 */
module Simd {
  import opened DenseAlgebra

  /** Bytes in one vector register (SIMD_SIZE). */
  const SimdSize: nat := 32
  /** Bytes in one element (sizeof(double)). */
  const ValSize: nat := 8
  /** Elements per lane (vectSize). */
  const N: nat := SimdSize / ValSize

  type Lane = s: seq<real> | |s| == N witness [0.0, 0.0, 0.0, 0.0]

  /** The all-zero lane (zeroVect). */
  function ZeroLane(): Lane
  {
    seq(N, _ => 0.0)
  }

  /** A lane holding `v` in every element (_fill). */
  function Broadcast(v: real): Lane
  {
    seq(N, _ => v)
  }

  /** A zero lane with `v` at element `e` (_valueVect). */
  function Unit(e: nat, v: real): (r: Lane)
    requires e < N
  {
    ZeroLane()[e := v]
  }

  function LaneAdd(a: Lane, b: Lane): Lane
  {
    seq(N, i requires 0 <= i < N => a[i] + b[i])
  }

  function LaneSub(a: Lane, b: Lane): Lane
  {
    seq(N, i requires 0 <= i < N => a[i] - b[i])
  }

  function LaneMul(a: Lane, b: Lane): Lane
  {
    seq(N, i requires 0 <= i < N => a[i] * b[i])
  }

  /** Lane times scalar. */
  function LaneScale(a: Lane, s: real): Lane
  {
    seq(N, i requires 0 <= i < N => a[i] * s)
  }

  /** Element i of a scaled lane. */
  lemma LaneScaleAt(a: Lane, s: real, i: int)
    requires 0 <= i < N
    ensures LaneScale(a, s)[i] == a[i] * s
  {
  }

  /** Multiplying by a broadcast scalar (_fill, then *) scales the lane. */
  lemma LaneMulBroadcast(a: Lane, s: real)
    ensures LaneMul(a, Broadcast(s)) == LaneScale(a, s)
  {
    forall i | 0 <= i < N ensures LaneMul(a, Broadcast(s))[i] == LaneScale(a, s)[i] {
      assert Broadcast(s)[i] == s;
    }
  }

  /** Sum of the elements of a lane, the exact meaning of _reduce. */
  function LaneSum(a: Lane): real
  {
    Sum(a)
  }

  /** The horizontal sum of a lane (_reduce), as its loop computes it. */
  method Reduce(v: Lane) returns (s: real)
    ensures s == Sum(v)
  {
    s := 0.0;
    var i := 0;
    while i < N
      invariant 0 <= i <= N
      invariant s == Sum(v[..i])
    {
      assert v[..i + 1][..i] == v[..i];
      s := s + v[i];
      i := i + 1;
    }
    assert v[..N] == v;
  }

  /** Lane equality by element-wise comparison (_vectEq). */
  method VectEq(a: Lane, b: Lane) returns (eq: bool)
    ensures eq <==> a == b
  {
    var i := 0;
    while i < N
      invariant 0 <= i <= N
      invariant a[..i] == b[..i]
    {
      if a[i] != b[i] {
        return false;
      }
      assert a[..i + 1] == a[..i] + [a[i]] && b[..i + 1] == b[..i] + [b[i]];
      i := i + 1;
    }
    assert a[..N] == a && b[..N] == b;
    return true;
  }

  /** Reducing a sum of lanes is the sum of the reductions. */
  lemma SumLaneAdd(a: Lane, b: Lane)
    ensures Sum(LaneAdd(a, b)) == Sum(a) + Sum(b)
  {
    SumVecAdd(a, b);
    assert LaneAdd(a, b) == VecAdd(a, b);
  }

  /** A lane product reduces to the inner product of the two lanes. */
  lemma SumLaneMul(a: Lane, b: Lane)
    ensures Sum(LaneMul(a, b)) == Dot(a, b)
  {
    DotIsSumOfProducts(a, b);
    assert LaneMul(a, b) == VecMul(a, b);
  }
}
