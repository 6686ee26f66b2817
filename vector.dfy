/**
 * The dense lane-packed vector of lalib (Vector.hpp).  A vector of n elements keeps
 * ceil(n, N) lanes; element i lives in lane i / N at position i % N, and the slots past
 * n in the last lane are padding that the arithmetic relies on being zero.
 *
 * The first part of this module states the lane layout as functions on values; the
 * class `Vector` below updates its lanes in place and is proved against them.
 */
module DenseVector {
  import opened Wrappers
  import opened DenseAlgebra
  import opened Simd
  import Utility

  // ---------------------------------------------------------------------------
  // Lane layout

  /** The number of lanes a vector of `n` elements keeps: ulib::ceil(n, vectSize). */
  function LanesFor(n: nat): (c: nat)
    ensures c * N >= n
    ensures n >= 1 ==> c >= 1 && (c - 1) * N < n
  {
    Utility.Ceil(n, N)
  }

  /** The first `n` elements stored in `lanes` (_vectIndex / _vectElem addressing). */
  function Elements(lanes: seq<Lane>, n: nat): (s: seq<real>)
    requires n <= |lanes| * N
    ensures |s| == n
  {
    seq(n, i requires 0 <= i < n => lanes[i / N][i % N])
  }

  /** Every slot of the first `count` lanes past element `n` holds zero. */
  predicate PaddedWithZeros(lanes: seq<Lane>, n: nat, count: nat)
    requires count <= |lanes|
  {
    forall j, e :: 0 <= j < count && 0 <= e < N && n <= j * N + e ==> lanes[j][e] == 0.0
  }

  /** Slot `e` of lane `j` is element j * N + e. */
  lemma SlotIndex(j: nat, e: nat)
    requires e < N
    ensures (j * N + e) / N == j && (j * N + e) % N == e
  {
  }

  /** Element `i` sits in a lane below `count` when i < count * N. */
  lemma LaneOfIndex(i: nat, count: nat)
    requires i < count * N
    ensures i / N < count && i % N < N && i == (i / N) * N + i % N
  {
  }

  /** The elements only read the lanes in use. */
  lemma ElementsOfPrefix(lanes: seq<Lane>, n: nat, count: nat)
    requires count <= |lanes| && n <= count * N
    ensures Elements(lanes[..count], n) == Elements(lanes, n)
  {
    forall i | 0 <= i < n ensures Elements(lanes[..count], n)[i] == Elements(lanes, n)[i] {
      LaneOfIndex(i, count);
    }
  }

  /** Zero lanes hold zero elements, padding included. */
  lemma ZeroLanesElements(n: nat, lanes: seq<Lane>)
    requires n <= |lanes| * N
    requires forall j :: 0 <= j < |lanes| ==> lanes[j] == ZeroLane()
    ensures Elements(lanes, n) == Zeros(n) && PaddedWithZeros(lanes, n, |lanes|)
  {
    forall k | 0 <= k < n
      ensures Elements(lanes, n)[k] == 0.0
    {
      LaneOfIndex(k, |lanes|);
    }
  }

  /** The lanes with element `i` (slot i % N of lane i / N) set to `v`. */
  function SetElement(lanes: seq<Lane>, i: nat, v: real): (r: seq<Lane>)
    requires i < |lanes| * N
    ensures |r| == |lanes|
  {
    LaneOfIndex(i, |lanes|);
    lanes[i / N := lanes[i / N][i % N := v]]
  }

  /** Writing element `i` (place) changes that element of the vector and no other. */
  lemma ElementsUpdate(lanes: seq<Lane>, n: nat, i: nat, v: real)
    requires n <= |lanes| * N && i < n
    ensures Elements(SetElement(lanes, i, v), n) == Elements(lanes, n)[i := v]
  {
    var updated := SetElement(lanes, i, v);
    LaneOfIndex(i, |lanes|);
    forall k | 0 <= k < n
      ensures Elements(updated, n)[k] == Elements(lanes, n)[i := v][k]
    {
      LaneOfIndex(k, |lanes|);
      if k != i {
        assert k / N != i / N || k % N != i % N;
      }
    }
  }

  /** Writing an element leaves a zero padding zero. */
  lemma SetElementPadding(lanes: seq<Lane>, n: nat, count: nat, i: nat, v: real)
    requires count <= |lanes| && i < n <= |lanes| * N && PaddedWithZeros(lanes, n, count)
    ensures PaddedWithZeros(SetElement(lanes, i, v), n, count)
  {
    var updated := SetElement(lanes, i, v);
    LaneOfIndex(i, |lanes|);
    forall j, e | 0 <= j < count && 0 <= e < N && n <= j * N + e ensures updated[j][e] == 0.0 {
      assert j != i / N || e != i % N;
    }
  }

  /** Writing a slot of the padding leaves the elements alone. */
  lemma ElementsOutsidePadding(lanes: seq<Lane>, n: nat, j: nat, lane: Lane)
    requires n <= |lanes| * N && j < |lanes|
    requires forall e :: 0 <= e < N && j * N + e < n ==> lane[e] == lanes[j][e]
    ensures Elements(lanes[j := lane], n) == Elements(lanes, n)
  {
    forall k | 0 <= k < n
      ensures Elements(lanes[j := lane], n)[k] == Elements(lanes, n)[k]
    {
      LaneOfIndex(k, |lanes|);
    }
  }

  // ---------------------------------------------------------------------------
  // Element-wise arithmetic on lanes

  /** The element-wise operators +, - and * (operator+=, -=, *=). */
  datatype ElemOp = Plus | Minus | Times

  function LaneOp(op: ElemOp, a: Lane, b: Lane): Lane
  {
    match op
    case Plus => LaneAdd(a, b)
    case Minus => LaneSub(a, b)
    case Times => LaneMul(a, b)
  }

  function ApplyOp(op: ElemOp, x: real, y: real): real
  {
    match op
    case Plus => x + y
    case Minus => x - y
    case Times => x * y
  }

  lemma LaneOpAt(op: ElemOp, a: Lane, b: Lane, e: nat)
    requires e < N
    ensures LaneOp(op, a, b)[e] == ApplyOp(op, a[e], b[e])
  {
  }

  /** The meaning of an element-wise operator on whole vectors. */
  function ElemsOp(op: ElemOp, x: seq<real>, y: seq<real>): (r: seq<real>)
    requires |x| == |y|
    ensures |r| == |x|
  {
    seq(|x|, i requires 0 <= i < |x| => ApplyOp(op, x[i], y[i]))
  }

  /** The compound operators' loop: the first `count` lanes combined, the rest untouched. */
  function ZipLanes(op: ElemOp, a: seq<Lane>, b: seq<Lane>, count: nat): (r: seq<Lane>)
    requires count <= |a| && count <= |b|
    ensures |r| == |a|
  {
    seq(|a|, j requires 0 <= j < |a| => if j < count then LaneOp(op, a[j], b[j]) else a[j])
  }

  /** Combining the lanes combines the elements. */
  lemma ZipElements(op: ElemOp, a: seq<Lane>, b: seq<Lane>, n: nat, count: nat)
    requires count <= |a| && count <= |b| && n <= count * N
    ensures Elements(ZipLanes(op, a, b, count), n) == ElemsOp(op, Elements(a, n), Elements(b, n))
  {
    var z := ZipLanes(op, a, b, count);
    forall k | 0 <= k < n
      ensures Elements(z, n)[k] == ElemsOp(op, Elements(a, n), Elements(b, n))[k]
    {
      LaneOfIndex(k, count);
      var j, e := k / N, k % N;
      assert Elements(z, n)[k] == z[j][e] && z[j] == LaneOp(op, a[j], b[j]);
      assert Elements(a, n)[k] == a[j][e] && Elements(b, n)[k] == b[j][e];
      LaneOpAt(op, a[j], b[j], e);
    }
  }

  /** Combining keeps a zero padding when both paddings are zero, and for the product when one is. */
  lemma ZipPadding(op: ElemOp, a: seq<Lane>, b: seq<Lane>, n: nat, count: nat)
    requires count <= |a| && count <= |b|
    requires (PaddedWithZeros(a, n, count) && PaddedWithZeros(b, n, count))
             || (op == Times && (PaddedWithZeros(a, n, count) || PaddedWithZeros(b, n, count)))
    ensures PaddedWithZeros(ZipLanes(op, a, b, count), n, count)
  {
    var z := ZipLanes(op, a, b, count);
    forall j, e | 0 <= j < count && 0 <= e < N && n <= j * N + e
      ensures z[j][e] == 0.0
    {
      assert z[j] == LaneOp(op, a[j], b[j]);
      LaneOpAt(op, a[j], b[j], e);
    }
  }

  /** Scalar multiplication of the first `count` lanes (operator*= with a scalar). */
  function ScaleLanes(a: seq<Lane>, s: real, count: nat): (r: seq<Lane>)
    requires count <= |a|
    ensures |r| == |a|
  {
    seq(|a|, j requires 0 <= j < |a| => if j < count then LaneScale(a[j], s) else a[j])
  }

  /** Scaling the lanes scales the elements and keeps a zero padding. */
  lemma ScaleElements(a: seq<Lane>, s: real, n: nat, count: nat)
    requires count <= |a| && n <= count * N
    ensures Elements(ScaleLanes(a, s, count), n) == VecScale(Elements(a, n), s)
    ensures PaddedWithZeros(a, n, count) ==> PaddedWithZeros(ScaleLanes(a, s, count), n, count)
  {
    forall k | 0 <= k < n
      ensures Elements(ScaleLanes(a, s, count), n)[k] == VecScale(Elements(a, n), s)[k]
    {
      LaneOfIndex(k, count);
    }
  }

  /** No element of the vector is zero. */
  predicate NoZeroElement(x: seq<real>)
  {
    forall i :: 0 <= i < |x| ==> x[i] != 0.0
  }

  /** Element-wise quotient of two vectors without zeros. */
  function ElemsDiv(x: seq<real>, y: seq<real>): (r: seq<real>)
    requires |x| == |y| && NoZeroElement(y)
    ensures |r| == |x|
  {
    seq(|x|, i requires 0 <= i < |x| => x[i] / y[i])
  }

  /** Element-wise division of the elements of the first `count` lanes, padding untouched. */
  function DivideLanes(a: seq<Lane>, b: seq<Lane>, n: nat, count: nat): (r: seq<Lane>)
    requires count <= |a| && count <= |b| && n <= count * N
    requires NoZeroElement(Elements(b, n))
    ensures |r| == |a|
  {
    seq(|a|, j requires 0 <= j < |a| =>
      if j < count then
        seq(N, e requires 0 <= e < N =>
          if j * N + e < n then
            SlotIndex(j, e);
            assert Elements(b, n)[j * N + e] == b[j][e];
            a[j][e] / b[j][e]
          else a[j][e])
      else a[j])
  }

  /** Dividing the element slots divides the elements and leaves the padding as it was. */
  lemma DivideElements(a: seq<Lane>, b: seq<Lane>, n: nat, count: nat)
    requires count <= |a| && count <= |b| && n <= count * N
    requires NoZeroElement(Elements(b, n))
    ensures Elements(DivideLanes(a, b, n, count), n) == ElemsDiv(Elements(a, n), Elements(b, n))
    ensures PaddedWithZeros(a, n, count) ==> PaddedWithZeros(DivideLanes(a, b, n, count), n, count)
  {
    forall k | 0 <= k < n
      ensures Elements(DivideLanes(a, b, n, count), n)[k] == ElemsDiv(Elements(a, n), Elements(b, n))[k]
    {
      LaneOfIndex(k, count);
    }
  }

  predicate NoZeroSlot(l: Lane)
  {
    forall e :: 0 <= e < N ==> l[e] != 0.0
  }

  /** operator/= as written divides whole lanes: every slot of the divisor must be non-zero. */
  function LaneDivAsWritten(a: Lane, b: Lane): Lane
    requires NoZeroSlot(b)
  {
    seq(N, e requires 0 <= e < N => a[e] / b[e])
  }

  /**
   * When n is not a multiple of the lane width, the last lane of every divisor whose
   * padding is zero has a zero slot, so the whole-lane division divides by zero there.
   */
  lemma DivisionAsWrittenHitsPadding(b: seq<Lane>, n: nat)
    requires n >= 1 && n % N != 0 && LanesFor(n) <= |b| && PaddedWithZeros(b, n, LanesFor(n))
    ensures !NoZeroSlot(b[LanesFor(n) - 1])
  {
    var c := LanesFor(n);
    assert c * N != n;
    assert b[c - 1][N - 1] == 0.0;
  }

  // ---------------------------------------------------------------------------
  // Inner product over lanes

  /** The lanes laid end to end. */
  function Flatten(lanes: seq<Lane>): (s: seq<real>)
    ensures |s| == |lanes| * N
  {
    if lanes == [] then [] else Flatten(lanes[..|lanes| - 1]) + lanes[|lanes| - 1]
  }

  lemma {:induction false} FlattenIndex(lanes: seq<Lane>, i: nat)
    requires i < |lanes| * N
    ensures Flatten(lanes)[i] == lanes[i / N][i % N]
    decreases |lanes|
  {
    var m := |lanes| - 1;
    if i < m * N {
      FlattenIndex(lanes[..m], i);
      LaneOfIndex(i, m);
    } else {
      SlotIndex(m, i - m * N);
    }
  }

  /** The elements are the start of the flattened lanes; with a zero padding the rest is zeros. */
  lemma FlattenSplit(a: seq<Lane>, n: nat, count: nat)
    requires count <= |a| && n <= count * N
    ensures Flatten(a[..count])[..n] == Elements(a, n)
    ensures PaddedWithZeros(a, n, count) ==> Flatten(a[..count])[n..] == Zeros(count * N - n)
  {
    var f := Flatten(a[..count]);
    forall k | 0 <= k < n
      ensures f[..n][k] == Elements(a, n)[k]
    {
      FlattenIndex(a[..count], k);
    }
    if PaddedWithZeros(a, n, count) {
      forall k | 0 <= k < count * N - n
        ensures f[n..][k] == 0.0
      {
        FlattenIndex(a[..count], n + k);
        LaneOfIndex(n + k, count);
      }
    }
  }

  /** dot's lane accumulator: the lane-wise products of the first `count` lanes, summed lane-wise. */
  function LaneAccumulate(a: seq<Lane>, b: seq<Lane>, count: nat): Lane
    requires count <= |a| && count <= |b|
  {
    if count == 0 then ZeroLane()
    else LaneAdd(LaneAccumulate(a, b, count - 1), LaneMul(a[count - 1], b[count - 1]))
  }

  lemma SumZeroLane()
    ensures Sum(ZeroLane()) == 0.0
  {
    SumZeros(N);
    assert ZeroLane() == Zeros(N);
  }

  /** Reducing the accumulator gives the inner product of the flattened lanes. */
  lemma {:induction false} AccumulateIsDot(a: seq<Lane>, b: seq<Lane>, count: nat)
    requires count <= |a| && count <= |b|
    ensures Sum(LaneAccumulate(a, b, count)) == Dot(Flatten(a[..count]), Flatten(b[..count]))
  {
    if count == 0 {
      SumZeroLane();
    } else {
      var c := count - 1;
      AccumulateIsDot(a, b, c);
      SumLaneAdd(LaneAccumulate(a, b, c), LaneMul(a[c], b[c]));
      SumLaneMul(a[c], b[c]);
      assert a[..count][..c] == a[..c] && b[..count][..c] == b[..c];
      DotAppend(Flatten(a[..c]), a[c], Flatten(b[..c]), b[c]);
    }
  }

  /** A zero vector contributes nothing to an inner product, on either side. */
  lemma DotWithZeros(x: seq<real>, z: seq<real>)
    requires |x| == |z| && z == Zeros(|x|)
    ensures Dot(x, z) == 0.0 && Dot(z, x) == 0.0
  {
    DotZeroRight(x);
    DotSymmetric(x, z);
  }

  /**
   * The lane-wise inner product equals the inner product of the elements as soon as
   * one of the two paddings is zero.
   */
  lemma LaneDotIsDot(a: seq<Lane>, b: seq<Lane>, n: nat, count: nat)
    requires count <= |a| && count <= |b| && n <= count * N
    requires PaddedWithZeros(a, n, count) || PaddedWithZeros(b, n, count)
    ensures Sum(LaneAccumulate(a, b, count)) == Dot(Elements(a, n), Elements(b, n))
  {
    AccumulateIsDot(a, b, count);
    FlattenSplit(a, n, count);
    FlattenSplit(b, n, count);
    DotZeroTail(Flatten(a[..count]), Flatten(b[..count]), n);
  }

  /** When either side is zero past `n`, only the first `n` products count. */
  lemma DotZeroTail(x: seq<real>, y: seq<real>, n: nat)
    requires |x| == |y| && n <= |x|
    requires x[n..] == Zeros(|x| - n) || y[n..] == Zeros(|x| - n)
    ensures Dot(x, y) == Dot(x[..n], y[..n])
  {
    assert x == x[..n] + x[n..] && y == y[..n] + y[n..];
    DotAppend(x[..n], x[n..], y[..n], y[n..]);
    if x[n..] == Zeros(|x| - n) {
      DotWithZeros(y[n..], x[n..]);
    } else {
      DotWithZeros(x[n..], y[n..]);
    }
  }

  // ---------------------------------------------------------------------------
  // Building lanes from elements, and the constructors as written

  /** The lanes of a vector with elements `x`: element slots filled in order, padding zero. */
  function PackLanes(x: seq<real>): (r: seq<Lane>)
    ensures |r| == LanesFor(|x|)
  {
    seq(LanesFor(|x|), j requires 0 <= j < LanesFor(|x|) =>
      seq(N, e requires 0 <= e < N => if j * N + e < |x| then x[j * N + e] else 0.0))
  }

  /** Packing and reading back gives the elements, with a zero padding. */
  lemma PackLanesElements(x: seq<real>)
    ensures Elements(PackLanes(x), |x|) == x
    ensures PaddedWithZeros(PackLanes(x), |x|, LanesFor(|x|))
  {
    var p := PackLanes(x);
    forall k | 0 <= k < |x|
      ensures Elements(p, |x|)[k] == x[k]
    {
      LaneOfIndex(k, LanesFor(|x|));
    }
  }

  /** Vector(n, value) as written: `value` broadcast into every lane, padding included. */
  function FillLanesAsWritten(n: nat, v: real): seq<Lane>
  {
    seq(LanesFor(n), _ => Broadcast(v))
  }

  /**
   * As written, a non-zero fill value lands in the padding whenever n is not a multiple
   * of the lane width.
   */
  lemma FillAsWrittenPadding(n: nat, v: real)
    requires n >= 1 && n % N != 0 && v != 0.0
    ensures !PaddedWithZeros(FillLanesAsWritten(n, v), n, LanesFor(n))
  {
    var c := LanesFor(n);
    assert c * N != n;
    assert FillLanesAsWritten(n, v)[c - 1][N - 1] == v;
  }

  /**
   * The consequence for dot: the one-element vector filled with 1 has squared norm 1, but
   * its lane-wise inner product with itself counts the three padding slots as well.
   */
  lemma FillAsWrittenDot()
    ensures var f := FillLanesAsWritten(1, 1.0);
      Dot(Elements(f, 1), Elements(f, 1)) == 1.0 && Sum(LaneAccumulate(f, f, 1)) == 4.0
  {
    var f := FillLanesAsWritten(1, 1.0);
    assert Elements(f, 1) == [1.0];
    assert [1.0][..0] == [];
    var b := Broadcast(1.0);
    assert f[0] == b;
    SumLaneAdd(ZeroLane(), LaneMul(b, b));
    SumZeroLane();
    assert LaneMul(b, b) == [1.0, 1.0, 1.0, 1.0];
    assert Sum([1.0]) == 1.0;
    assert [1.0, 1.0][..1] == [1.0];
    assert Sum([1.0, 1.0]) == 2.0;
    assert [1.0, 1.0, 1.0][..2] == [1.0, 1.0];
    assert Sum([1.0, 1.0, 1.0]) == 3.0;
    assert [1.0, 1.0, 1.0, 1.0][..3] == [1.0, 1.0, 1.0];
  }

  /**
   * Vector(n, elems) as written reads elems[j * N + e] for every slot of every lane, the
   * padding included; a read past the end of `elems` is reported as an error.
   */
  function FromSeqLanesAsWritten(x: seq<real>, n: nat): Result<seq<Lane>>
  {
    if LanesFor(n) * N > |x| then Err("elems read out of range")
    else
      var lanes: seq<Lane> := seq(LanesFor(n), j requires 0 <= j < LanesFor(n) =>
        seq(N, e requires 0 <= e < N => x[j * N + e]));
      Ok(lanes)
  }

  /** As written, the element constructor reads past its input exactly when n is not a multiple of N. */
  lemma FromSeqAsWrittenReadsPastEnd(x: seq<real>)
    requires |x| >= 1
    ensures FromSeqLanesAsWritten(x, |x|).Err? <==> |x| % N != 0
  {
    var c := LanesFor(|x|);
    if |x| % N == 0 {
      assert c * N == |x|;
    } else {
      assert c * N != |x|;
    }
  }

  /**
   * addRows as written: the lanes of the second vector appended to all lanes of the
   * first, as a vector of n1 + n2 elements.
   */
  function AddRowsLanesAsWritten(a: seq<Lane>, b: seq<Lane>): seq<Lane>
  {
    a + b
  }

  /** When the first vector fills its lanes exactly, appending lanes appends elements. */
  lemma AddRowsAsWrittenAligned(a: seq<Lane>, n1: nat, b: seq<Lane>, n2: nat)
    requires n1 == |a| * N && n2 <= |b| * N
    ensures Elements(AddRowsLanesAsWritten(a, b), n1 + n2) == Elements(a, n1) + Elements(b, n2)
  {
    var c := AddRowsLanesAsWritten(a, b);
    forall k | 0 <= k < n1 + n2
      ensures Elements(c, n1 + n2)[k] == (Elements(a, n1) + Elements(b, n2))[k]
    {
      if k < n1 {
        AlignedFront(a, n1, b, n2, k);
      } else {
        AlignedBack(a, n1, b, n2, k);
      }
    }
  }

  lemma AlignedFront(a: seq<Lane>, n1: nat, b: seq<Lane>, n2: nat, k: nat)
    requires n1 == |a| * N && n2 <= |b| * N && k < n1
    ensures Elements(a + b, n1 + n2)[k] == Elements(a, n1)[k]
  {
    LaneOfIndex(k, |a|);
    var j, e := k / N, k % N;
    assert Elements(a + b, n1 + n2)[k] == (a + b)[j][e] && (a + b)[j] == a[j];
    assert Elements(a, n1)[k] == a[j][e];
  }

  lemma AlignedBack(a: seq<Lane>, n1: nat, b: seq<Lane>, n2: nat, k: nat)
    requires n1 == |a| * N && n2 <= |b| * N && n1 <= k < n1 + n2
    ensures Elements(a + b, n1 + n2)[k] == Elements(b, n2)[k - n1]
  {
    var m := k - n1;
    LaneOfIndex(m, |b|);
    var j, e := m / N, m % N;
    AppendedSlot(|a|, m, k, j, e);
    assert Elements(a + b, n1 + n2)[k] == (a + b)[|a| + j][e] && (a + b)[|a| + j] == b[j];
    assert Elements(b, n2)[m] == b[j][e];
  }

  /** Element m behind `skip` full lanes sits in lane skip + m / N at slot m % N. */
  lemma AppendedSlot(skip: nat, m: nat, k: int, j: nat, e: nat)
    requires k == skip * N + m && j == m / N && e == m % N
    ensures k / N == skip + j && k % N == e
  {
    assert m == j * N + e;
    assert k == (skip + j) * N + e;
    SlotIndex(skip + j, e);
  }

  /** Otherwise the second vector's elements land behind the padding: [1] stacked on [2] reads [1, 0]. */
  lemma AddRowsAsWrittenMisplaces()
    ensures var a := PackLanes([1.0]);
      var b := PackLanes([2.0]);
      Elements(AddRowsLanesAsWritten(a, b), 2) == [1.0, 0.0]
  {
    var a := PackLanes([1.0]);
    var b := PackLanes([2.0]);
    var c := AddRowsLanesAsWritten(a, b);
    assert LanesFor(1) == 1;
    assert c[0] == a[0];
    assert a[0][1] == 0.0;
  }

  /**
   * Appending a zero vector as written still appends zeros, since the first vector's padding is
   * zero: the right-hand side TCGNR stacks is [b; 0] either way.
   */
  lemma AddRowsAsWrittenZeroTail(a: seq<Lane>, n1: nat, b: seq<Lane>, n2: nat)
    requires n1 <= |a| * N && n2 <= |b| * N && PaddedWithZeros(a, n1, |a|)
    requires forall j :: 0 <= j < |b| ==> b[j] == ZeroLane()
    ensures Elements(AddRowsLanesAsWritten(a, b), n1 + n2) == Elements(a, n1) + Zeros(n2)
  {
    forall k | 0 <= k < n1 + n2
      ensures Elements(a + b, n1 + n2)[k] == (Elements(a, n1) + Zeros(n2))[k]
    {
      ZeroTailAt(a, n1, b, n2, k);
    }
  }

  lemma ZeroTailAt(a: seq<Lane>, n1: nat, b: seq<Lane>, n2: nat, k: nat)
    requires n1 <= |a| * N && n2 <= |b| * N && PaddedWithZeros(a, n1, |a|) && k < n1 + n2
    requires forall j :: 0 <= j < |b| ==> b[j] == ZeroLane()
    ensures Elements(a + b, n1 + n2)[k] == if k < n1 then Elements(a, n1)[k] else 0.0
  {
    if k < |a| * N {
      FrontSlot(a, b, n1 + n2, k);
      LaneOfIndex(k, |a|);
      if k < n1 {
        assert Elements(a, n1)[k] == a[k / N][k % N];
      }
    } else {
      var rest := n1 + n2 - |a| * N;
      AlignedBack(a, |a| * N, b, rest, k);
      ZeroLanesElements(rest, b);
    }
  }

  /** An element inside the first lanes of a concatenation is read from them. */
  lemma FrontSlot(a: seq<Lane>, b: seq<Lane>, n: nat, k: nat)
    requires k < |a| * N && k < n <= (|a| + |b|) * N
    ensures Elements(a + b, n)[k] == a[k / N][k % N]
  {
    LaneOfIndex(k, |a|);
    assert (a + b)[k / N] == a[k / N];
  }

  /** Packing the concatenated elements: what addRows is meant to build. */
  lemma AddRowsPacked(x: seq<real>, y: seq<real>)
    ensures Elements(PackLanes(x + y), |x| + |y|) == x + y
  {
    PackLanesElements(x + y);
  }

  /**
   * slice as written: a buffer of e - s elements into which the loop writes element i
   * at index i for every i in [s, e); a write at an index past the buffer is reported as
   * an error.
   */
  function SliceWrites(buffer: seq<real>, x: seq<real>, i: nat, e: nat): Result<seq<real>>
    requires e <= |x|
    decreases e - i
  {
    if i >= e then Ok(buffer)
    else if i >= |buffer| then Err("newValues written out of range")
    else SliceWrites(buffer[i := x[i]], x, i + 1, e)
  }

  function SliceAsWritten(x: seq<real>, s: int, e: int): Result<seq<real>>
  {
    if s > e || s < 0 || e > |x| then Err("Given bounds are out of bounds")
    else
      var written := SliceWrites(Zeros(e - s), x, s, e);
      if written.Err? then written
      else if e - s < 1 then Err("Vector length must be positive!")
      else written
  }

  /** As written, slicing [1, 2] from 1 to 2 writes past its one-element buffer. */
  lemma SliceAsWrittenOverruns()
    ensures SliceAsWritten([1.0, 2.0], 1, 2).Err?
  {
    assert SliceWrites([0.0], [1.0, 2.0], 1, 2) == Err("newValues written out of range");
  }

  /** Slices starting at 0 are the only ones the loop as written gets right. */
  lemma {:induction false} SliceWritesFromZero(buffer: seq<real>, x: seq<real>, i: nat, e: nat)
    requires i <= e <= |x| && |buffer| == e && buffer[..i] == x[..i]
    ensures SliceWrites(buffer, x, i, e) == Ok(x[..e])
    decreases e - i
  {
    if i < e {
      var b := buffer[i := x[i]];
      assert b[..i + 1] == x[..i + 1] by {
        assert b[..i + 1] == buffer[..i] + [x[i]];
        assert x[..i + 1] == x[..i] + [x[i]];
      }
      SliceWritesFromZero(b, x, i + 1, e);
    } else {
      assert buffer == buffer[..i];
    }
  }

  lemma SliceAsWrittenFromZero(x: seq<real>, e: int)
    requires 1 <= e <= |x|
    ensures SliceAsWritten(x, 0, e) == Ok(x[..e])
  {
    SliceWritesFromZero(Zeros(e), x, 0, e);
  }

  /** `f` applied to every element. */
  function MapElems(f: real -> real, x: seq<real>): (r: seq<real>)
    ensures |r| == |x|
  {
    seq(|x|, i requires 0 <= i < |x| => f(x[i]))
  }

  // ---------------------------------------------------------------------------
  // The vector object

  /**
   * lalib::Vector.  `values` is the lane array; `totalVectCount` the number of lanes in
   * use, which the operators loop over.  The array may hold more lanes than that (a vector
   * built from a lane array keeps the array as given).
   */
  class Vector {
    var nElems: int
    var totalVectCount: int
    var values: seq<Lane>

    ghost predicate Valid()
      reads this
    {
      nElems >= 1 && totalVectCount == LanesFor(nElems) && |values| >= totalVectCount
    }

    /** The elements, as operator() reads them. */
    function Elems(): (x: seq<real>)
      reads this
      requires Valid()
      ensures |x| == nElems
    {
      Elements(values, nElems)
    }

    /** The padding slots of the lanes in use are zero. */
    ghost predicate ZeroPadding()
      reads this
      requires Valid()
    {
      PaddedWithZeros(values, nElems, totalVectCount)
    }

    constructor Init(n: nat, lanes: seq<Lane>)
      requires n >= 1 && |lanes| >= LanesFor(n)
      ensures Valid() && nElems == n && values == lanes
    {
      nElems := n;
      totalVectCount := LanesFor(n);
      values := lanes;
    }

    /** The zeros constructor Vector(n): fails for n < 1. */
    static method NewZeros(n: int) returns (r: Result<Vector>)
      ensures r.Err? <==> n < 1
      ensures r.Ok? ==> fresh(r.value) && r.value.Valid() && r.value.nElems == n
      ensures r.Ok? ==> r.value.Elems() == Zeros(n) && r.value.ZeroPadding()
    {
      if n < 1 {
        return Err("Vector length must be positive!");
      }
      var lanes := seq(LanesFor(n), _ => ZeroLane());
      ZeroLanesElements(n, lanes);
      var v := new Vector.Init(n, lanes);
      return Ok(v);
    }

    /**
     * The element constructor Vector(n, elems), reading elems[j * N + e] only for slots
     * below n: fails for n < 1 or a size mismatch.
     */
    static method FromElems(n: int, elems: seq<real>) returns (r: Result<Vector>)
      ensures r.Err? <==> n < 1 || n != |elems|
      ensures r.Ok? ==> fresh(r.value) && r.value.Valid() && r.value.Elems() == elems && r.value.ZeroPadding()
    {
      if n < 1 {
        return Err("Vector length must be positive!");
      }
      if n != |elems| {
        return Err("Given dimensions don't match with the size of the std::vector!");
      }
      var count := LanesFor(n);
      var lanes: seq<Lane> := [];
      var j := 0;
      while j < count
        invariant 0 <= j <= count
        invariant lanes == PackLanes(elems)[..j]
      {
        var lane: Lane := seq(N, e requires 0 <= e < N => if j * N + e < n then elems[j * N + e] else 0.0);
        assert lanes + [lane] == PackLanes(elems)[..j + 1] by {
          assert lane == PackLanes(elems)[j];
          assert PackLanes(elems)[..j + 1] == PackLanes(elems)[..j] + [PackLanes(elems)[j]];
        }
        lanes := lanes + [lane];
        j := j + 1;
      }
      assert lanes == PackLanes(elems);
      var v := new Vector.Init(n, lanes);
      assert v.Elems() == elems && v.ZeroPadding() by {
        PackLanesElements(elems);
      }
      return Ok(v);
    }

    /** The fill constructor Vector(n, value), with the padding left at zero. */
    static method NewFilled(n: int, value: real) returns (r: Result<Vector>)
      ensures r.Err? <==> n < 1
      ensures r.Ok? ==> fresh(r.value) && r.value.Valid() && r.value.Elems() == seq(n, _ => value)
      ensures r.Ok? ==> r.value.ZeroPadding()
    {
      if n < 1 {
        return Err("Vector length must be positive!");
      }
      r := FromElems(n, seq(n, _ => value));
    }

    /** The lane-array constructor Vector(n, lanes): the lanes are kept as given. */
    static method FromLanes(n: int, lanes: seq<Lane>) returns (r: Result<Vector>)
      requires n >= 1 ==> |lanes| >= LanesFor(n)
      ensures r.Err? <==> n < 1
      ensures r.Ok? ==> fresh(r.value) && r.value.Valid() && r.value.nElems == n && r.value.values == lanes
    {
      if n < 1 {
        return Err("Vector length must be positive!");
      }
      var v := new Vector.Init(n, lanes);
      return Ok(v);
    }

    /** The copying constructor. */
    method Copy() returns (c: Vector)
      requires Valid()
      ensures fresh(c) && c.Valid()
      ensures c.nElems == nElems && c.totalVectCount == totalVectCount && c.values == values
    {
      c := new Vector.Init(nElems, values);
    }

    /** place(index, value): fails outside [0, n); otherwise only that element changes. */
    method Place(index: int, value: real) returns (o: Outcome)
      requires Valid()
      modifies this`values
      ensures Valid()
      ensures o.Fail? <==> index < 0 || index >= nElems
      ensures o.Fail? ==> values == old(values)
      ensures o.Pass? ==> values == SetElement(old(values), index, value)
      ensures o.Pass? ==> Elems() == old(Elems())[index := value]
      ensures old(ZeroPadding()) ==> ZeroPadding()
    {
      if index < 0 || index >= nElems {
        return Fail("Index out of bounds");
      }
      LaneOfIndex(index, totalVectCount);
      ElementsUpdate(values, nElems, index, value);
      if ZeroPadding() {
        SetElementPadding(values, nElems, totalVectCount, index, value);
      }
      values := SetElement(values, index, value);
      return Pass;
    }

    /** place(vectIndex, lane): fails outside [0, totalVectCount); replaces that lane. */
    method PlaceLane(j: int, lane: Lane) returns (o: Outcome)
      requires Valid()
      modifies this`values
      ensures Valid()
      ensures o.Fail? <==> j < 0 || j >= totalVectCount
      ensures o.Fail? ==> values == old(values)
      ensures o.Pass? ==> values == old(values)[j := lane]
    {
      if j < 0 || j >= totalVectCount {
        return Fail("SIMD vector index out of bounds");
      }
      values := values[j := lane];
      return Pass;
    }

    /** operator(): fails outside [0, n). */
    method Get(index: int) returns (r: Result<real>)
      requires Valid()
      ensures r.Err? <==> index < 0 || index >= nElems
      ensures r.Ok? ==> r.value == Elems()[index]
    {
      if index < 0 || index >= nElems {
        return Err("Index out of bounds");
      }
      return Ok(values[index / N][index % N]);
    }

    /** getSIMD: fails outside [0, totalVectCount). */
    method GetSimd(j: int) returns (r: Result<Lane>)
      requires Valid()
      ensures r.Err? <==> j < 0 || j >= totalVectCount
      ensures r.Ok? ==> r.value == values[j]
    {
      if j < 0 || j >= totalVectCount {
        return Err("SIMD vector index out of bounds");
      }
      return Ok(values[j]);
    }

    /** operator==: equal lengths and equal elements (the padding is not compared). */
    method Equals(that: Vector) returns (eq: bool)
      requires Valid() && that.Valid()
      ensures eq <==> Elems() == that.Elems()
    {
      if nElems != that.nElems {
        return false;
      }
      var i := 0;
      while i < nElems
        invariant 0 <= i <= nElems
        invariant forall k :: 0 <= k < i ==> Elems()[k] == that.Elems()[k]
      {
        LaneOfIndex(i, totalVectCount);
        if values[i / N][i % N] != that.values[i / N][i % N] {
          assert Elems()[i] != that.Elems()[i];
          return false;
        }
        assert Elems()[i] == that.Elems()[i];
        i := i + 1;
      }
      assert Elems() == that.Elems();
      return true;
    }

    /** getElems: the elements in order. */
    method GetElems() returns (x: seq<real>)
      requires Valid()
      ensures x == Elems()
    {
      x := [];
      var i := 0;
      while i < nElems
        invariant 0 <= i <= nElems
        invariant x == Elems()[..i]
      {
        x := x + [values[i / N][i % N]];
        i := i + 1;
      }
    }

    /**
     * operator+=, -= and *= with a vector: fail on a length mismatch, otherwise combine
     * the lanes in use.  `that` may be this very vector.
     */
    method ElementwiseAssign(that: Vector, op: ElemOp) returns (o: Outcome)
      requires Valid() && that.Valid()
      modifies this`values
      ensures Valid()
      ensures o.Fail? <==> old(nElems) != old(that.nElems)
      ensures o.Fail? ==> values == old(values)
      ensures o.Pass? ==> values == ZipLanes(op, old(values), old(that.values), totalVectCount)
      ensures o.Pass? ==> Elems() == ElemsOp(op, old(Elems()), old(that.Elems()))
      ensures o.Pass? && old(ZeroPadding()) && old(that.ZeroPadding()) ==> ZeroPadding()
    {
      if nElems != that.nElems {
        return Fail("Vector dimensions must match!");
      }
      ghost var a := values;
      ghost var aElems := Elems();
      ghost var bElems := that.Elems();
      var other := that.values;
      var j := 0;
      while j < totalVectCount
        invariant 0 <= j <= totalVectCount
        invariant values == ZipLanes(op, a, other, j)
      {
        values := values[j := LaneOp(op, values[j], other[j])];
        j := j + 1;
      }
      ZipElements(op, a, other, nElems, totalVectCount);
      if PaddedWithZeros(a, nElems, totalVectCount) && PaddedWithZeros(other, nElems, totalVectCount) {
        ZipPadding(op, a, other, nElems, totalVectCount);
      }
      return Pass;
    }

    /** operator+, - and * with a vector: a combined copy; this vector and `that` are unchanged. */
    method Elementwise(that: Vector, op: ElemOp) returns (r: Result<Vector>)
      requires Valid() && that.Valid()
      ensures r.Err? <==> nElems != that.nElems
      ensures r.Ok? ==> fresh(r.value) && r.value.Valid() && r.value.Elems() == ElemsOp(op, Elems(), that.Elems())
      ensures r.Ok? && ZeroPadding() && that.ZeroPadding() ==> r.value.ZeroPadding()
    {
      var c := Copy();
      var o := c.ElementwiseAssign(that, op);
      if o.Fail? {
        return Err(o.msg);
      }
      return Ok(c);
    }

    /**
     * operator/= with a vector, dividing the elements; the padding slots keep their
     * value rather than being divided by the divisor's zero padding.
     */
    method DivideAssign(that: Vector) returns (o: Outcome)
      requires Valid() && that.Valid() && (nElems == that.nElems ==> NoZeroElement(that.Elems()))
      modifies this`values
      ensures Valid()
      ensures o.Fail? <==> old(nElems) != old(that.nElems)
      ensures o.Fail? ==> values == old(values)
      ensures o.Pass? ==> values == DivideLanes(old(values), old(that.values), nElems, totalVectCount)
      ensures o.Pass? ==> Elems() == ElemsDiv(old(Elems()), old(that.Elems()))
      ensures o.Pass? && old(ZeroPadding()) ==> ZeroPadding()
    {
      if nElems != that.nElems {
        return Fail("Vector dimensions must match!");
      }
      ghost var a := values;
      var other := that.values;
      var quotient := DivideLanes(values, other, nElems, totalVectCount);
      DivideElements(a, other, nElems, totalVectCount);
      values := quotient;
      return Pass;
    }

    /** operator*= with a scalar: every lane in use scaled. */
    method ScaleAssign(s: real)
      requires Valid()
      modifies this`values
      ensures Valid()
      ensures values == ScaleLanes(old(values), s, totalVectCount)
      ensures Elems() == VecScale(old(Elems()), s)
      ensures old(ZeroPadding()) ==> ZeroPadding()
    {
      ghost var a := values;
      var j := 0;
      while j < totalVectCount
        invariant 0 <= j <= totalVectCount
        invariant values == ScaleLanes(a, s, j)
      {
        values := values[j := LaneScale(values[j], s)];
        j := j + 1;
      }
      ScaleElements(a, s, nElems, totalVectCount);
    }

    /** operator* with a scalar (either side): a scaled copy. */
    method Scaled(s: real) returns (c: Vector)
      requires Valid()
      ensures fresh(c) && c.Valid() && c.Elems() == VecScale(Elems(), s)
      ensures ZeroPadding() ==> c.ZeroPadding()
    {
      c := Copy();
      c.ScaleAssign(s);
    }

    /** operator/= with a scalar: fails for zero, otherwise multiplies by the reciprocal. */
    method DivideScalarAssign(s: real) returns (o: Outcome)
      requires Valid()
      modifies this`values
      ensures Valid()
      ensures o.Fail? <==> s == 0.0
      ensures o.Fail? ==> values == old(values)
      ensures o.Pass? ==> Elems() == VecScale(old(Elems()), 1.0 / s)
      ensures old(ZeroPadding()) ==> ZeroPadding()
    {
      if s == 0.0 {
        return Fail("Division by zero!");
      }
      ScaleAssign(1.0 / s);
      return Pass;
    }

    /** operator/ with a scalar: fails for zero before copying. */
    method DividedByScalar(s: real) returns (r: Result<Vector>)
      requires Valid()
      ensures r.Err? <==> s == 0.0
      ensures r.Ok? ==> fresh(r.value) && r.value.Valid() && r.value.Elems() == VecScale(Elems(), 1.0 / s)
    {
      if s == 0.0 {
        return Err("Division by zero!");
      }
      var c := Copy();
      var o := c.DivideScalarAssign(s);
      return Ok(c);
    }

    /**
     * dot: fails on a length mismatch; otherwise the reduced lane-wise accumulator, which
     * is the inner product of the elements when either padding is zero.
     */
    method Dot(that: Vector) returns (r: Result<real>)
      requires Valid() && that.Valid()
      ensures r.Err? <==> nElems != that.nElems
      ensures r.Ok? ==> r.value == Sum(LaneAccumulate(values, that.values, totalVectCount))
      ensures r.Ok? && (ZeroPadding() || that.ZeroPadding()) ==> r.value == DenseAlgebra.Dot(Elems(), that.Elems())
    {
      if nElems != that.nElems {
        return Err("Vector dimensions must match!");
      }
      var sum := ZeroLane();
      var j := 0;
      while j < totalVectCount
        invariant 0 <= j <= totalVectCount
        invariant sum == LaneAccumulate(values, that.values, j)
      {
        sum := LaneAdd(sum, LaneMul(values[j], that.values[j]));
        j := j + 1;
      }
      var total := Reduce(sum);
      if ZeroPadding() || that.ZeroPadding() {
        LaneDotIsDot(values, that.values, nElems, totalVectCount);
      }
      return Ok(total);
    }

    /**
     * addRows: the elements of this vector followed by those of `that`.  The lanes are
     * packed from the elements so that the second vector starts right after the first.
     */
    method AddRows(that: Vector) returns (c: Vector)
      requires Valid() && that.Valid()
      ensures fresh(c) && c.Valid() && c.Elems() == Elems() + that.Elems() && c.ZeroPadding()
    {
      var x := GetElems();
      var y := that.GetElems();
      PackLanesElements(x + y);
      c := new Vector.Init(|x + y|, PackLanes(x + y));
    }

    /** apply(f): a new vector of f applied to each element; this vector is unchanged. */
    method Apply(f: real -> real) returns (c: Vector)
      requires Valid()
      ensures fresh(c) && c.Valid() && c.nElems == nElems && c.ZeroPadding()
      ensures c.Elems() == MapElems(f, Elems())
    {
      var x := GetElems();
      var z := NewZeros(nElems);
      c := z.value;
      var i := 0;
      while i < nElems
        invariant 0 <= i <= nElems
        invariant fresh(c) && c.Valid() && c.nElems == nElems && c.ZeroPadding()
        invariant forall k :: 0 <= k < i ==> c.Elems()[k] == f(x[k])
        modifies c
      {
        var o := c.Place(i, f(x[i]));
        i := i + 1;
      }
      assert c.Elems() == MapElems(f, x);
    }

    /** isClose: equal lengths and every pair of elements within `tol`. */
    method IsClose(that: Vector, tol: real) returns (close: bool)
      requires Valid() && that.Valid()
      ensures close <==> nElems == that.nElems
                         && forall k :: 0 <= k < nElems ==> RealAbs(Elems()[k] - that.Elems()[k]) <= tol
    {
      if nElems != that.nElems {
        return false;
      }
      ghost var x, y := Elems(), that.Elems();
      var i := 0;
      while i < nElems
        invariant 0 <= i <= nElems
        invariant forall k :: 0 <= k < i ==> RealAbs(x[k] - y[k]) <= tol
      {
        LaneOfIndex(i, totalVectCount);
        var a, b := values[i / N][i % N], that.values[i / N][i % N];
        assert x[i] == a && y[i] == b;
        if RealAbs(a - b) > tol {
          assert x == Elems() && y == that.Elems();
          return false;
        }
        i := i + 1;
      }
      assert x == Elems() && y == that.Elems();
      return true;
    }

    /** The copying loop of slice: the elements from `start` up to `end`. */
    method CopyRange(start: int, end: int) returns (r: seq<real>)
      requires Valid() && 0 <= start <= end <= nElems
      ensures r == Elems()[start..end]
    {
      ghost var x := Elems();
      r := Zeros(end - start);
      var i := start;
      while i < end
        invariant start <= i <= end
        invariant |r| == end - start
        invariant r[..i - start] == x[start..i]
      {
        LaneOfIndex(i, totalVectCount);
        assert values[i / N][i % N] == x[i];
        r := r[i - start := values[i / N][i % N]];
        assert r[..i + 1 - start] == r[..i - start] + [x[i]];
        i := i + 1;
      }
    }

    /**
     * slice(start, end): the elements at [start, end), failing unless
     * 0 <= start < end <= n (an empty slice would be a vector of length zero).
     */
    method Slice(start: int, end: int) returns (r: Result<Vector>)
      requires Valid()
      ensures r.Err? <==> !(0 <= start < end <= nElems)
      ensures r.Ok? ==> fresh(r.value) && r.value.Valid() && r.value.Elems() == Elems()[start..end]
      ensures r.Ok? ==> r.value.ZeroPadding()
    {
      if start > end || start < 0 || end > nElems {
        return Err("Given bounds are out of bounds");
      }
      var newValues := CopyRange(start, end);
      r := FromElems(end - start, newValues);
    }
  }

  /** The elements of the vectors, one after another. */
  ghost function Concatenation(vs: seq<Vector>): seq<real>
    reads set i | 0 <= i < |vs| :: vs[i]
    requires forall i :: 0 <= i < |vs| ==> vs[i].Valid()
  {
    if vs == [] then [] else Concatenation(vs[..|vs| - 1]) + vs[|vs| - 1].Elems()
  }

  /** stack: fails for no vectors; otherwise the vectors stacked with addRows, in order. */
  method Stack(vs: seq<Vector>) returns (r: Result<Vector>)
    requires forall i :: 0 <= i < |vs| ==> vs[i].Valid()
    ensures r.Err? <==> vs == []
    ensures r.Ok? ==> fresh(r.value) && r.value.Valid() && r.value.Elems() == Concatenation(vs)
  {
    if |vs| < 1 {
      return Err("There must be at least one vector to stack!");
    }
    var tmp := vs[0].Copy();
    assert vs[..1][..0] == [];
    var i := 1;
    while i < |vs|
      invariant 1 <= i <= |vs|
      invariant fresh(tmp) && tmp.Valid() && tmp.Elems() == Concatenation(vs[..i])
    {
      assert vs[..i + 1][..i] == vs[..i];
      tmp := tmp.AddRows(vs[i]);
      i := i + 1;
    }
    assert vs[..|vs|] == vs;
    return Ok(tmp);
  }
}
