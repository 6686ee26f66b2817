/**
 * lalib::Matrix (Matrix.hpp): a sparse matrix in compressed row storage whose values
 * are SIMD lanes.  The class keeps the three arrays as fields and updates them in
 * place; every operation is proved against the storage functions and lemmas of
 * module Crs, which say what the arrays mean as a matrix of reals.
 *
 * The invariant Valid() is Crs.Canonical: the arrays are well shaped, each row's lane
 * indexes strictly increase, the padding past the last column is zero and no stored
 * lane is all zero.  A canonical storage is determined by its entries
 * (Crs.CanonicalUnique), so stating the matrix a method leaves states its arrays.
 */
module SparseMatrix {
  import opened Wrappers
  import opened DenseAlgebra
  import opened Simd
  import opened DenseVector
  import opened Crs
  import Utility

  /** The row-pointer loops of place and the constructors: entries from `from` on moved by `d`. */
  method ShiftPointers(ptrs: seq<int>, from: int, d: int) returns (q: seq<int>)
    requires 0 <= from <= |ptrs|
    ensures q == ShiftFrom(ptrs, from, |ptrs|, d)
  {
    q := ptrs;
    var k := from;
    while k < |q|
      invariant from <= k <= |ptrs| && |q| == |ptrs|
      invariant q == ShiftFrom(ptrs, from, k, d)
    {
      q := q[k := q[k] + d];
      k := k + 1;
    }
  }

  class Matrix {
    var nRows: int
    var nCols: int
    var vectsPerRow: int
    var totalVectCount: int
    var values: seq<Lane>
    var colVectIndexes: seq<int>
    var rowPointers: seq<int>

    /** The arrays as a value. */
    function Rep(): Storage
      reads this
    {
      Storage(nRows, nCols, values, colVectIndexes, rowPointers)
    }

    ghost predicate Valid()
      reads this
    {
      Canonical(Rep()) && vectsPerRow == LanesFor(nCols) && totalVectCount == |values|
    }

    /** The rows, as operator() reads them. */
    ghost function Rows(): seq<seq<real>>
      reads this
      requires Valid()
    {
      Dense(Rep())
    }

    /** The fields set from the arrays: the invariant holds exactly for canonical ones. */
    constructor Init(s: Storage)
      ensures Rep() == s && vectsPerRow == Utility.Ceil(s.nCols, N) && totalVectCount == |s.values|
      ensures Valid() <==> Canonical(s)
    {
      nRows := s.nRows;
      nCols := s.nCols;
      vectsPerRow := Utility.Ceil(s.nCols, N);
      totalVectCount := |s.values|;
      values := s.values;
      colVectIndexes := s.colVectIndexes;
      rowPointers := s.rowPointers;
    }

    // -------------------------------------------------------------------------
    // Constructors

    /** The zeros constructor Matrix(rows, cols): fails unless both are positive. */
    static method Zeros(rows: int, cols: int) returns (r: Result<Matrix>)
      ensures r.Err? <==> rows < 1 || cols < 1
      ensures r.Ok? ==> fresh(r.value) && r.value.Valid() && r.value.Rep() == ZeroStorage(rows, cols)
      ensures r.Ok? ==> Dense(r.value.Rep()) == seq(rows, _ => DenseAlgebra.Zeros(cols))
    {
      if cols < 1 || rows < 1 {
        return Err("Matrix dimensions must be positive!");
      }
      var m := new Matrix.Init(Storage(rows, cols, [], [], seq(rows + 1, _ => 0)));
      ZeroStorageDense(rows, cols);
      assert forall i :: 0 <= i < rows ==> Dense(m.Rep())[i] == DenseAlgebra.Zeros(cols);
      return Ok(m);
    }

    /** The copying constructor. */
    method Copy() returns (c: Matrix)
      requires Valid()
      ensures fresh(c) && c.Valid() && c.Rep() == Rep()
    {
      c := new Matrix.Init(Rep());
    }

    /**
     * Adds the lane of entry (i, i) at the end of the arrays and moves the later row
     * pointers up by one: the step of the identity and diagonal constructors, which is
     * place(i, i, v) when the rows from i on are empty.
     */
    method PushDiagonal(i: int, v: real)
      requires Valid() && 0 <= i < nRows && i < nCols && v != 0.0 && rowPointers[i] == |values|
      modifies this
      ensures Valid() && nRows == old(nRows) && nCols == old(nCols)
      ensures Rep() == PlaceSpec(old(Rep()), i, i, v)
      ensures Dense(Rep()) == old(Dense(Rep()))[i := old(Dense(Rep()))[i][i := v]]
      ensures rowPointers[i + 1] == |values|
    {
      ghost var s := Rep();
      assert rowPointers[i] <= rowPointers[i + 1] <= rowPointers[nRows];
      DiagonalPushIsPlace(s, i, v);
      PlaceKeepsInvariants(s, i, i, v);
      PlaceDense(s, i, i, v);
      InsertLane(i, |values|, Unit(i % N, v), i / N);
      assert Rep() == PlaceSpec(s, i, i, v);
    }

    /**
     * One step of the identity and diagonal constructors: entry (i, i) is set to d[i]
     * when that is not zero, on a matrix holding the diagonal entries before i.
     */
    method DiagonalStep(ghost d: seq<real>, i: int, v: real)
      requires Valid() && 0 <= i < |d| && i < nRows && i < nCols && v == d[i]
      requires rowPointers[i] == |values| && Dense(Rep()) == DiagonalOf(nRows, nCols, d[..i])
      modifies this
      ensures Valid() && nRows == old(nRows) && nCols == old(nCols)
      ensures rowPointers[i + 1] == |values| && Dense(Rep()) == DiagonalOf(nRows, nCols, d[..i + 1])
    {
      DiagonalOfStep(nRows, nCols, d, i);
      if v != 0.0 {
        PushDiagonal(i, v);
      } else {
        assert rowPointers[i] <= rowPointers[i + 1] <= rowPointers[nRows];
      }
    }

    /**
     * The identity constructor Matrix(rows, cols, scalar): `scalar` on the first
     * min(rows, cols) diagonal entries.  A zero scalar stores no lanes.
     */
    static method Identity(rows: int, cols: int, scalar: real) returns (r: Result<Matrix>)
      ensures r.Err? <==> rows < 1 || cols < 1
      ensures r.Ok? ==> fresh(r.value) && r.value.Valid() && r.value.nRows == rows && r.value.nCols == cols
      ensures r.Ok? ==> Dense(r.value.Rep()) == DiagonalOf(rows, cols, seq(if rows < cols then rows else cols, _ => scalar))
      ensures r.Ok? && scalar != 0.0 ==> r.value.Rep() == DiagonalLanes(rows, cols, seq(if rows < cols then rows else cols, _ => scalar))
    {
      if cols < 1 || rows < 1 {
        return Err("Matrix dimensions must be positive!");
      }
      var m := new Matrix.Init(ZeroStorage(rows, cols));
      var rowColMin := if rows < cols then rows else cols;
      var d := seq(rowColMin, _ => scalar);
      ZeroStorageDense(rows, cols);
      m.FillDiagonal(d);
      if scalar != 0.0 {
        DiagonalIsDiagonalLanes(m.Rep(), d);
      }
      return Ok(m);
    }

    /**
     * The diagonal constructor Matrix(diag): the square matrix with diag on its diagonal,
     * stored canonically.  A zero entry stores no lane.  When no entry is zero these are
     * the source's own arrays.
     */
    static method Diagonal(diag: Vector) returns (m: Matrix)
      requires diag.Valid()
      ensures fresh(m) && m.Valid() && m.nRows == diag.nElems && m.nCols == diag.nElems
      ensures Dense(m.Rep()) == DiagonalMatrix(diag.Elems())
      ensures (forall i :: 0 <= i < diag.nElems ==> diag.Elems()[i] != 0.0) ==>
        m.Rep() == DiagonalLanes(diag.nElems, diag.nElems, diag.Elems())
    {
      var n := diag.nElems;
      m := new Matrix.Init(ZeroStorage(n, n));
      ZeroStorageDense(n, n);
      var d := diag.CopyRange(0, n);
      assert d == diag.Elems();
      m.FillDiagonal(d);
      DiagonalOfSquare(d);
      if forall i :: 0 <= i < n ==> d[i] != 0.0 {
        DiagonalIsDiagonalLanes(m.Rep(), d);
      }
    }

    /** The loop of both constructors: entry (i, i) set to d[i] for each i in turn. */
    method FillDiagonal(d: seq<real>)
      requires Valid() && |d| <= nRows && |d| <= nCols
      requires rowPointers[0] == |values| && Dense(Rep()) == DiagonalOf(nRows, nCols, [])
      modifies this
      ensures Valid() && nRows == old(nRows) && nCols == old(nCols)
      ensures Dense(Rep()) == DiagonalOf(nRows, nCols, d)
    {
      assert d[..0] == [];
      var i := 0;
      while i < |d|
        invariant 0 <= i <= |d|
        invariant Valid() && nRows == old(nRows) && nCols == old(nCols)
        invariant rowPointers[i] == |values| && Dense(Rep()) == DiagonalOf(nRows, nCols, d[..i])
      {
        DiagonalStep(d, i, d[i]);
        i := i + 1;
      }
      assert d[..|d|] == d;
    }

    /**
     * The CRS constructor from lane arrays: fails when a lane index lies outside
     * [0, ceil(cols, N)) or a row pointer outside [0, |newColVectIndexes|]; otherwise the
     * matrix keeps the arrays as given, and it satisfies the class invariant exactly
     * when they are canonical.
     */
    static method FromLanes(rows: int, cols: int, newValues: seq<Lane>, newColVectIndexes: seq<int>, newRowPointers: seq<int>)
      returns (r: Result<Matrix>)
      ensures r.Err? <==> !LaneArraysInRange(cols, newColVectIndexes, newRowPointers)
      ensures r.Ok? ==> fresh(r.value) && r.value.Rep() == Storage(rows, cols, newValues, newColVectIndexes, newRowPointers)
      ensures r.Ok? ==> (r.value.Valid() <==> Canonical(Storage(rows, cols, newValues, newColVectIndexes, newRowPointers)))
    {
      var newVectsPerRow := Utility.Ceil(cols, N);
      var k := 0;
      while k < |newColVectIndexes|
        invariant 0 <= k <= |newColVectIndexes|
        invariant forall i :: 0 <= i < k ==> 0 <= newColVectIndexes[i] < newVectsPerRow
      {
        if newColVectIndexes[k] >= newVectsPerRow || newColVectIndexes[k] < 0 {
          return Err("Matrix dimensions out of bounds!");
        }
        k := k + 1;
      }
      k := 0;
      while k < |newRowPointers|
        invariant 0 <= k <= |newRowPointers|
        invariant forall i :: 0 <= i < k ==> 0 <= newRowPointers[i] <= |newColVectIndexes|
      {
        if newRowPointers[k] > |newColVectIndexes| || newRowPointers[k] < 0 {
          return Err("Matrix dimensions out of bounds!");
        }
        k := k + 1;
      }
      var m := new Matrix.Init(Storage(rows, cols, newValues, newColVectIndexes, newRowPointers));
      return Ok(m);
    }

    // -------------------------------------------------------------------------
    // Placement and access

    /**
     * The scan of place and getSIMD over a row's lanes: it stops at the first stored
     * lane whose index is not below j, which is where lane j is or would be stored.
     */
    method Scan(row: int, j: int) returns (i: int)
      requires Valid() && 0 <= row < nRows
      ensures i == rowPointers[row] + Find(RowCols(Rep(), row), j)
      ensures rowPointers[row] <= i <= rowPointers[row + 1]
    {
      var lo := rowPointers[row];
      var hi := rowPointers[row + 1];
      i := lo;
      while i < hi && colVectIndexes[i] < j
        invariant lo <= i <= hi
        invariant forall k :: lo <= k < i ==> colVectIndexes[k] < j
      {
        i := i + 1;
      }
      var cols := colVectIndexes[lo..hi];
      forall k | 0 <= k < i - lo ensures cols[k] < j {
        assert cols[k] == colVectIndexes[lo + k];
      }
      if i < hi {
        assert cols[i - lo] == colVectIndexes[i];
      }
      FindIs(cols, j, i - lo);
      assert RowCols(Rep(), row) == cols;
    }

    /** Writes slot e of stored lane i. */
    method SetSlot(i: int, e: int, v: real)
      requires 0 <= i < |values| && 0 <= e < N
      modifies this`values
      ensures Rep() == old(Rep()).(values := old(values)[i := old(values)[i][e := v]])
    {
      values := values[i := values[i][e := v]];
    }

    /** Stores `lane` under lane index j at position i, in row `row`: the later row pointers move up by one. */
    method InsertLane(row: int, i: int, lane: Lane, j: int)
      requires 0 <= i <= |values| && i <= |colVectIndexes| && 0 <= row < nRows && |rowPointers| == nRows + 1
      modifies this`values, this`colVectIndexes, this`totalVectCount, this`rowPointers
      ensures Rep() == Storage(old(nRows), old(nCols), old(values)[..i] + [lane] + old(values)[i..],
                               old(colVectIndexes)[..i] + [j] + old(colVectIndexes)[i..], ShiftFrom(old(rowPointers), row + 1, old(nRows) + 1, 1))
      ensures totalVectCount == old(totalVectCount) + 1 && |values| == old(|values|) + 1
    {
      values := values[..i] + [lane] + values[i..];
      colVectIndexes := colVectIndexes[..i] + [j] + colVectIndexes[i..];
      totalVectCount := totalVectCount + 1;
      rowPointers := ShiftPointers(rowPointers, row + 1, 1);
    }

    /** Removes the lane at position i, in row `row`: the later row pointers move down by one. */
    method EraseLane(row: int, i: int)
      requires 0 <= i < |values| && i < |colVectIndexes| && 0 <= row < nRows && |rowPointers| == nRows + 1
      modifies this`values, this`colVectIndexes, this`totalVectCount, this`rowPointers
      ensures Rep() == Storage(old(nRows), old(nCols), old(values)[..i] + old(values)[i + 1..],
                               old(colVectIndexes)[..i] + old(colVectIndexes)[i + 1..], ShiftFrom(old(rowPointers), row + 1, old(nRows) + 1, -1))
      ensures totalVectCount == old(totalVectCount) - 1 && |values| == old(|values|) - 1
    {
      values := values[..i] + values[i + 1..];
      colVectIndexes := colVectIndexes[..i] + colVectIndexes[i + 1..];
      totalVectCount := totalVectCount - 1;
      rowPointers := ShiftPointers(rowPointers, row + 1, -1);
    }

    /**
     * place(row, col, value): fails outside the matrix; otherwise entry (row, col)
     * becomes `value` and the arrays are PlaceSpec's.  The source's separate branches
     * for an empty matrix and an empty row are the scan stopping at once.
     */
    method Place(row: int, col: int, value: real) returns (o: Outcome)
      requires Valid()
      modifies this
      ensures Valid() && nRows == old(nRows) && nCols == old(nCols)
      ensures o.Fail? <==> !(0 <= row < nRows && 0 <= col < nCols)
      ensures o.Fail? ==> Rep() == old(Rep())
      ensures o.Pass? ==> Rep() == PlaceSpec(old(Rep()), row, col, value)
      ensures o.Pass? ==> Dense(Rep()) == old(Dense(Rep()))[row := old(Dense(Rep()))[row][col := value]]
    {
      if row < 0 || col < 0 || row >= nRows || col >= nCols {
        return Fail("Given dimensions out of bounds for the matrix");
      }
      ghost var s := Rep();
      var i := Scan(row, col / N);
      if value != 0.0 {
        PlaceNonZero(row, col, value, i);
      } else {
        PlaceZero(row, col, i);
      }
      PlaceKeepsInvariants(s, row, col, value);
      PlaceDense(s, row, col, value);
      return Pass;
    }

    /** place of a non-zero value: the slot of a stored lane is written, or a new lane is inserted at i. */
    method PlaceNonZero(row: int, col: int, value: real, i: int)
      requires WellFormed(Rep()) && 0 <= row < nRows && 0 <= col < nCols && value != 0.0
      requires i == rowPointers[row] + Find(RowCols(Rep(), row), col / N)
      requires totalVectCount == |values|
      modifies this`values, this`colVectIndexes, this`totalVectCount, this`rowPointers
      ensures Rep() == PlaceSpec(old(Rep()), row, col, value) && totalVectCount == |values|
    {
      ghost var s := Rep();
      var j := col / N;
      var e := col % N;
      if i < rowPointers[row + 1] && colVectIndexes[i] == j {
        PlaceSpecUpdate(s, row, col, value, i);
        SetSlot(i, e, value);
      } else {
        PlaceSpecInsert(s, row, col, value, i);
        InsertLane(row, i, Unit(e, value), j);
      }
    }

    /**
     * place of a zero: nothing happens where no lane is stored; otherwise the slot is
     * written and a lane left all zero is erased.
     */
    method PlaceZero(row: int, col: int, i: int)
      requires WellFormed(Rep()) && 0 <= row < nRows && 0 <= col < nCols
      requires i == rowPointers[row] + Find(RowCols(Rep(), row), col / N)
      requires totalVectCount == |values|
      modifies this`values, this`colVectIndexes, this`totalVectCount, this`rowPointers
      ensures Rep() == PlaceSpec(old(Rep()), row, col, 0.0) && totalVectCount == |values|
    {
      ghost var s := Rep();
      var j := col / N;
      var e := col % N;
      if !(i < rowPointers[row + 1] && colVectIndexes[i] == j) {
        PlaceSpecAbsentZero(s, row, col);
        return;
      }
      SetSlot(i, e, 0.0);
      var empty := VectEq(values[i], ZeroLane());
      if empty {
        PlaceSpecErase(s, row, col, i);
        ghost var u := values;
        assert u[..i] + u[i + 1..] == s.values[..i] + s.values[i + 1..];
        EraseLane(row, i);
      } else {
        PlaceSpecUpdate(s, row, col, 0.0, i);
      }
    }

    /** The scan of getSIMD for a row inside the matrix: lane j of the row, zeros when not stored. */
    method LaneOf(row: int, j: int) returns (l: Lane)
      requires Valid() && 0 <= row < nRows
      ensures l == RowLane(Rep(), row, j)
    {
      var i := Scan(row, j);
      if i < rowPointers[row + 1] && colVectIndexes[i] == j {
        return values[i];
      }
      return ZeroLane();
    }

    /** operator()(row, col): fails outside the matrix; otherwise entry (row, col). */
    method Get(row: int, col: int) returns (r: Result<real>)
      requires Valid()
      ensures r.Err? <==> !(0 <= row < nRows && 0 <= col < nCols)
      ensures r.Ok? ==> r.value == Dense(Rep())[row][col]
    {
      if row < 0 || col < 0 || row >= nRows || col >= nCols {
        return Err("Given dimensions out of bounds for the matrix");
      }
      var l := LaneOf(row, col / N);
      return Ok(l[col % N]);
    }

    /**
     * getSIMD(row, j): fails for a row outside the matrix or j outside
     * [0, vectsPerRow); otherwise lane j of the row, the zero-padded slice of the row.
     */
    method GetSimd(row: int, j: int) returns (r: Result<Lane>)
      requires Valid()
      ensures r.Err? <==> !(0 <= row < nRows) || j < 0 || j >= vectsPerRow
      ensures r.Ok? ==> r.value == RowLane(Rep(), row, j) && r.value == DenseLane(Dense(Rep())[row], nCols, j)
    {
      if row < 0 || j < 0 || row >= nRows || j >= vectsPerRow {
        return Err("Given dimensions out of bounds!");
      }
      var l := LaneOf(row, j);
      RowLaneIsDenseLane(Rep(), row, j);
      return Ok(l);
    }

    /**
     * place(row, j, lane): place of each slot of the lane whose column lies inside the
     * matrix.  It fails when a placed column is negative or the row is outside the
     * matrix; a lane past the last column places nothing.
     */
    method PlaceLane(row: int, j: int, lane: Lane) returns (o: Outcome)
      requires Valid()
      modifies this
      ensures Valid() && nRows == old(nRows) && nCols == old(nCols)
      ensures o.Fail? <==> j < 0 || (j < vectsPerRow && !(0 <= row < nRows))
      ensures o.Fail? ==> Rep() == old(Rep())
      ensures o.Pass? && 0 <= row < nRows ==> Dense(Rep()) == LanePlaced(old(Dense(Rep())), row, j, lane, N)
      ensures o.Pass? && !(0 <= row < nRows) ==> Rep() == old(Rep())
    {
      assert N == 4;
      ghost var d := Dense(Rep());
      if 0 <= row < nRows {
        LanePlacedStart(d, row, j, lane);
      }
      var e := 0;
      while e < N
        invariant 0 <= e <= N
        invariant Valid() && nRows == old(nRows) && nCols == old(nCols) && vectsPerRow == old(vectsPerRow)
        invariant e > 0 ==> j >= 0 && (0 <= row < nRows || j >= vectsPerRow)
        invariant 0 <= row < nRows && j >= 0 ==> |d| == nRows && Dense(Rep()) == LanePlaced(d, row, j, lane, e)
        invariant !(0 <= row < nRows) || e == 0 ==> Rep() == old(Rep())
      {
        o := PlaceSlot(row, j, lane, e, d);
        if o.Fail? {
          return;
        }
        e := e + 1;
      }
      return Pass;
    }

    /** One step of place(row, j, lane): slot e is placed when its column lies inside the matrix. */
    method PlaceSlot(row: int, j: int, lane: Lane, e: int, ghost d: seq<seq<real>>) returns (o: Outcome)
      requires Valid() && 0 <= e < N
      requires 0 <= row < nRows && j >= 0 ==> |d| == nRows && Dense(Rep()) == LanePlaced(d, row, j, lane, e)
      modifies this
      ensures Valid() && nRows == old(nRows) && nCols == old(nCols) && vectsPerRow == old(vectsPerRow)
      ensures o.Fail? <==> j * N + e < nCols && !(0 <= row < nRows && 0 <= j * N + e)
      ensures o.Fail? || !(0 <= row < nRows) ==> Rep() == old(Rep())
      ensures o.Pass? && 0 <= row < nRows && j >= 0 ==> Dense(Rep()) == LanePlaced(d, row, j, lane, e + 1)
    {
      var col := j * N + e;
      ghost var placed := 0 <= row < nRows && j >= 0;
      if placed {
        LanePlacedStep(d, row, j, lane, e);
      }
      if col < nCols {
        ghost var m := Dense(Rep());
        o := Place(row, col, lane[e]);
        assert placed ==> Dense(Rep()) == m[row := m[row][col := lane[e]]];
      } else {
        o := Pass;
      }
    }

    // -------------------------------------------------------------------------
    // Comparison

    /**
     * operator==: equal dimensions and equal arrays.  The row pointers are compared as
     * well, which the source omits (Crs.EqualsAsWrittenIgnoresPointers); with them the
     * answer is whether the two matrices are equal.
     */
    method Equals(that: Matrix) returns (eq: bool)
      requires Valid() && that.Valid()
      ensures eq <==> Rep() == that.Rep()
      ensures eq <==> nCols == that.nCols && Dense(Rep()) == Dense(that.Rep())
    {
      EqualIffSameMatrix(Rep(), that.Rep());
      if nRows != that.nRows || nCols != that.nCols || totalVectCount != that.totalVectCount {
        return false;
      }
      var i := 0;
      while i < totalVectCount
        invariant 0 <= i <= totalVectCount
        invariant values[..i] == that.values[..i] && colVectIndexes[..i] == that.colVectIndexes[..i]
      {
        var same := VectEq(values[i], that.values[i]);
        if !same || colVectIndexes[i] != that.colVectIndexes[i] {
          assert values[..i + 1][i] == values[i] && colVectIndexes[..i + 1][i] == colVectIndexes[i];
          return false;
        }
        assert values[..i + 1] == values[..i] + [values[i]] && that.values[..i + 1] == that.values[..i] + [that.values[i]];
        assert colVectIndexes[..i + 1] == colVectIndexes[..i] + [colVectIndexes[i]];
        assert that.colVectIndexes[..i + 1] == that.colVectIndexes[..i] + [that.colVectIndexes[i]];
        i := i + 1;
      }
      assert values == values[..i] && that.values == that.values[..i];
      assert colVectIndexes == colVectIndexes[..i] && that.colVectIndexes == that.colVectIndexes[..i];
      return rowPointers == that.rowPointers;
    }

    /**
     * isClose(that, tol): equal dimensions, equal lane indexes and every stored slot
     * within `tol`.  The row pointers are compared as well, which the source omits
     * (Crs.IsCloseAsWrittenIgnoresPointers); with them every entry is within `tol`.
     */
    method IsClose(that: Matrix, tol: real) returns (close: bool)
      requires Valid() && that.Valid()
      ensures close == IsCloseSpec(Rep(), that.Rep(), tol)
      ensures close && tol >= 0.0 ==> forall r, c :: 0 <= r < nRows && 0 <= c < nCols ==>
                RealAbs(Dense(Rep())[r][c] - Dense(that.Rep())[r][c]) <= tol
      ensures Dense(Rep()) == Dense(that.Rep()) && tol >= 0.0 ==> close
    {
      if Dense(Rep()) == Dense(that.Rep()) && tol >= 0.0 {
        IsCloseSameMatrix(Rep(), that.Rep(), tol);
      }
      if IsCloseSpec(Rep(), that.Rep(), tol) && tol >= 0.0 {
        IsCloseSpecEntries(Rep(), that.Rep(), tol);
      }
      close := CompareClose(that, tol);
    }

    /** The comparisons of isClose, array by array. */
    method CompareClose(that: Matrix, tol: real) returns (close: bool)
      requires Valid() && that.Valid()
      ensures close == IsCloseSpec(Rep(), that.Rep(), tol)
    {
      if nRows != that.nRows || nCols != that.nCols || totalVectCount != that.totalVectCount {
        return false;
      }
      var i := 0;
      while i < totalVectCount
        invariant 0 <= i <= totalVectCount
        invariant forall k :: 0 <= k < i ==> colVectIndexes[k] == that.colVectIndexes[k]
        invariant forall k, e :: 0 <= k < i && 0 <= e < N ==> RealAbs(values[k][e] - that.values[k][e]) <= tol
      {
        if colVectIndexes[i] != that.colVectIndexes[i] {
          return false;
        }
        var near := LanesClose(values[i], that.values[i], tol);
        if !near {
          return false;
        }
        i := i + 1;
      }
      return rowPointers == that.rowPointers;
    }

    // -------------------------------------------------------------------------
    // Element-wise operators

    /**
     * operator+=, -= and *= with a matrix: fail on a shape mismatch; otherwise each lane
     * of each row is combined with the other matrix's lane and placed back with
     * place(row, j, lane).  Lanes that cannot change are skipped: both zero for + and -,
     * the left one zero for *.  `that` may be this very matrix.
     */
    method ElementwiseAssign(that: Matrix, op: ElemOp) returns (o: Outcome)
      requires Valid() && that.Valid()
      modifies this
      ensures Valid() && nRows == old(nRows) && nCols == old(nCols)
      ensures o.Fail? <==> old(nRows) != old(that.nRows) || old(nCols) != old(that.nCols)
      ensures o.Fail? ==> Rep() == old(Rep())
      ensures o.Pass? ==> Dense(Rep()) == DenseOp(op, old(Dense(Rep())), old(Dense(that.Rep())))
    {
      if nCols != that.nCols || nRows != that.nRows {
        return Fail("Matrix dimensions must match!");
      }
      ghost var a := Dense(Rep());
      ghost var b := Dense(that.Rep());
      OpPrefixStart(op, a, b);
      var row := 0;
      while row < that.nRows
        invariant 0 <= row <= nRows && nRows == old(nRows) && nCols == old(nCols)
        invariant Valid() && that.Valid() && that.nRows == nRows && that.nCols == nCols
        invariant that == this ==> a == b
        invariant that != this ==> Dense(that.Rep()) == b
        invariant Dense(Rep()) == OpPrefix(op, a, b, row, 0)
      {
        ElementwiseRow(that, op, row, a, b);
        row := row + 1;
      }
      OpPrefixEnd(op, a, b);
      return Pass;
    }

    /** The lanes of one row, in order. */
    method ElementwiseRow(that: Matrix, op: ElemOp, row: int, ghost a: seq<seq<real>>, ghost b: seq<seq<real>>)
      requires Valid() && that.Valid() && that.nRows == nRows && that.nCols == nCols && 0 <= row < nRows
      requires |a| == |b| == nRows && IsMatrix(a, nCols) && IsMatrix(b, nCols)
      requires that == this ==> a == b
      requires that != this ==> Dense(that.Rep()) == b
      requires Dense(Rep()) == OpPrefix(op, a, b, row, 0)
      modifies this
      ensures Valid() && nRows == old(nRows) && nCols == old(nCols)
      ensures Dense(Rep()) == OpPrefix(op, a, b, row + 1, 0)
    {
      var j := 0;
      while j < vectsPerRow
        invariant 0 <= j <= vectsPerRow && nRows == old(nRows) && nCols == old(nCols)
        invariant Valid() && that.Valid() && that.nRows == nRows && that.nCols == nCols
        invariant that != this ==> Dense(that.Rep()) == b
        invariant Dense(Rep()) == OpPrefix(op, a, b, row, j)
      {
        ElementwiseLane(that, op, row, j, a, b);
        j := j + 1;
      }
      OpPrefixNextRow(op, a, b, row, nCols);
    }

    /** Lane j of row `row`: combined and placed, or skipped when it cannot change. */
    method ElementwiseLane(that: Matrix, op: ElemOp, row: int, j: int, ghost a: seq<seq<real>>, ghost b: seq<seq<real>>)
      requires Valid() && that.Valid() && that.nRows == nRows && that.nCols == nCols
      requires 0 <= row < nRows && 0 <= j < vectsPerRow
      requires |a| == |b| == nRows && IsMatrix(a, nCols) && IsMatrix(b, nCols)
      requires that == this ==> a == b
      requires that != this ==> Dense(that.Rep()) == b
      requires Dense(Rep()) == OpPrefix(op, a, b, row, j)
      modifies this
      ensures Valid() && nRows == old(nRows) && nCols == old(nCols) && vectsPerRow == old(vectsPerRow)
      ensures Dense(Rep()) == OpPrefix(op, a, b, row, j + 1)
    {
      var thisLane := GetSimd(row, j);
      var thatLane := that.GetSimd(row, j);
      var x, y := thisLane.value, thatLane.value;
      OpPrefixLane(op, a, b, row, j, nCols);
      assert x == DenseLane(a[row], nCols, j) && y == DenseLane(b[row], nCols, j);
      var skip := VectEq(x, ZeroLane());
      if op != Times {
        var yZero := VectEq(y, ZeroLane());
        skip := skip && yZero;
      }
      if skip {
        OpPrefixSkip(op, a, b, row, j, nCols);
        return;
      }
      OpPrefixStep(op, a, b, row, j, nCols);
      var o := PlaceLane(row, j, LaneOp(op, x, y));
    }

    /** operator+, - and * with a matrix: a combined copy; neither operand changes. */
    method Elementwise(that: Matrix, op: ElemOp) returns (r: Result<Matrix>)
      requires Valid() && that.Valid()
      ensures r.Err? <==> nRows != that.nRows || nCols != that.nCols
      ensures r.Ok? ==> fresh(r.value) && r.value.Valid() && r.value.nRows == nRows && r.value.nCols == nCols
      ensures r.Ok? ==> Dense(r.value.Rep()) == DenseOp(op, Dense(Rep()), Dense(that.Rep()))
    {
      var c := Copy();
      var o := c.ElementwiseAssign(that, op);
      if o.Fail? {
        return Err(o.msg);
      }
      return Ok(c);
    }

    // -------------------------------------------------------------------------
    // Products with a vector

    /** The lane loop of rowDot and matmul(Vector): row `row`'s stored lanes times the other operand's lanes. */
    method RowLanesDot(row: int, xl: seq<Lane>) returns (sum: Lane)
      requires Valid() && 0 <= row < nRows && |xl| == vectsPerRow
      ensures sum == RowProduct(Rep(), row, xl)
    {
      RowConditions(Rep(), row);
      var lo, hi := rowPointers[row], rowPointers[row + 1];
      sum := AccumulateLanes(values[lo..hi], colVectIndexes[lo..hi], xl);
    }

    /**
     * rowDot(row, x): fails on a length mismatch or a row outside the matrix; otherwise
     * the inner product of the row with x (0 for a row without lanes).
     */
    method RowDot(row: int, that: Vector) returns (r: Result<real>)
      requires Valid() && that.Valid()
      ensures r.Err? <==> nCols != that.nElems || row < 0 || row >= nRows
      ensures r.Ok? ==> r.value == Dot(Dense(Rep())[row], that.Elems())
    {
      if nCols != that.nElems {
        return Err("Improper dimensions!");
      }
      if row < 0 || row >= nRows {
        return Err("Improper row index!");
      }
      var xl := that.values[..that.totalVectCount];
      ElementsOfPrefix(that.values, that.nElems, that.totalVectCount);
      RowProductIsDot(Rep(), row, xl);
      if rowPointers[row + 1] - rowPointers[row] == 0 {
        assert RowValues(Rep(), row) == [] && RowCols(Rep(), row) == [];
        SumZeroLane();
        return Ok(0.0);
      }
      var sum := RowLanesDot(row, xl);
      var total := Reduce(sum);
      return Ok(total);
    }

    /**
     * matmul(x): fails on a length mismatch; otherwise the vector of the rows' inner
     * products with x.  Rows without lanes keep the zero of the fresh vector.
     */
    method MatMulVec(that: Vector) returns (r: Result<Vector>)
      requires Valid() && that.Valid()
      ensures r.Err? <==> nCols != that.nElems
      ensures r.Ok? ==> fresh(r.value) && r.value.Valid() && r.value.ZeroPadding()
      ensures r.Ok? ==> r.value.Elems() == MatVec(Dense(Rep()), that.Elems())
    {
      if nCols != that.nElems {
        return Err("Improper dimensions!");
      }
      var zeros := Vector.NewZeros(nRows);
      var ret := zeros.value;
      ghost var x := that.Elems();
      var xl := that.values[..that.totalVectCount];
      ElementsOfPrefix(that.values, that.nElems, that.totalVectCount);
      assert ret.Elems() == ProductPrefix(Dense(Rep()), x, 0);
      var row := 0;
      while row < nRows
        invariant 0 <= row <= nRows
        invariant fresh(ret) && ret.Valid() && ret.nElems == nRows && ret.ZeroPadding()
        invariant ret.Elems() == ProductPrefix(Dense(Rep()), x, row)
      {
        ProductIntoRow(ret, row, xl, x);
        row := row + 1;
      }
      assert ret.Elems() == MatVec(Dense(Rep()), x);
      return Ok(ret);
    }

    /** One row of matmul(x): a row with lanes has its reduced lane product placed into the result. */
    method ProductIntoRow(ret: Vector, row: int, xl: seq<Lane>, ghost x: seq<real>)
      requires Valid() && 0 <= row < nRows && |xl| == vectsPerRow && |x| == nCols && Elements(xl, nCols) == x
      requires ret.Valid() && ret.nElems == nRows && ret.ZeroPadding() && ret.Elems() == ProductPrefix(Dense(Rep()), x, row)
      modifies ret`values
      ensures ret.Valid() && ret.ZeroPadding() && ret.Elems() == ProductPrefix(Dense(Rep()), x, row + 1)
    {
      ghost var d := Dense(Rep());
      RowProductIsDot(Rep(), row, xl);
      if rowPointers[row + 1] - rowPointers[row] == 0 {
        assert RowValues(Rep(), row) == [] && RowCols(Rep(), row) == [];
        SumZeroLane();
        ProductPrefixNext(d, x, row, 0.0);
        return;
      }
      var sum := RowLanesDot(row, xl);
      var total := Reduce(sum);
      var o := ret.Place(row, total);
      ProductPrefixNext(d, x, row, total);
    }

    // -------------------------------------------------------------------------
    // addRows

    /**
     * addRows(that): fails when the column counts differ; otherwise a new matrix with the
     * rows of this matrix followed by those of `that`.
     */
    method AddRows(that: Matrix) returns (r: Result<Matrix>)
      requires Valid() && that.Valid()
      ensures r.Err? <==> nCols != that.nCols
      ensures r.Ok? ==> fresh(r.value) && r.value.Valid() && r.value.Rep() == AddRowsSpec(Rep(), that.Rep())
      ensures r.Ok? ==> r.value.Rows() == Rows() + that.Rows()
    {
      if nCols != that.nCols {
        return Err("Matrices must have the same number of columns!");
      }
      var newValues := values + that.values;
      var newColVectIndexes := colVectIndexes + that.colVectIndexes;
      var thatRowPointers := ShiftPointers(that.rowPointers, 0, totalVectCount);
      var newRowPointers := rowPointers[..nRows] + thatRowPointers;
      AddRowsDense(Rep(), that.Rep());
      assert Storage(nRows + that.nRows, nCols, newValues, newColVectIndexes, newRowPointers) == AddRowsSpec(Rep(), that.Rep());
      CanonicalPassesChecks(AddRowsSpec(Rep(), that.Rep()));
      r := FromLanes(nRows + that.nRows, nCols, newValues, newColVectIndexes, newRowPointers);
    }

    // -------------------------------------------------------------------------
    // Transposes

    /** Column c, top to bottom, read with operator(). */
    method ColumnOf(c: int) returns (col: seq<real>)
      requires Valid() && 0 <= c < nCols
      ensures col == Column(Rep(), c)
    {
      col := [];
      var row := 0;
      while row < nRows
        invariant 0 <= row <= nRows && |col| == row
        invariant forall r :: 0 <= r < row ==> col[r] == Entry(Rep(), r, c)
      {
        var e := Get(row, c);
        col := col + [e.value];
        row := row + 1;
      }
    }

    /**
     * naiveTranspose: column after column, the column's non-zeros are packed into the
     * lanes of a new row, giving the transpose with C rows and R columns.
     */
    method NaiveTranspose() returns (t: Matrix)
      requires Valid()
      ensures fresh(t) && t.Valid() && t.Rep() == TransposeSpec(Rep())
      ensures t.nRows == nCols && t.nCols == nRows && t.Rows() == DenseAlgebra.Transpose(Rows(), nCols)
    {
      var valuesT, colVectIndexesT, rowPointersT := TransposeArrays();
      TransposeSpecDense(Rep());
      CanonicalPassesChecks(TransposeSpec(Rep()));
      var r := FromLanes(nCols, nRows, valuesT, colVectIndexesT, rowPointersT);
      t := r.value;
    }

    /** naiveTranspose's loop over the columns. */
    method TransposeArrays() returns (valuesT: seq<Lane>, colVectIndexesT: seq<int>, rowPointersT: seq<int>)
      requires Valid()
      ensures Storage(nCols, nRows, valuesT, colVectIndexesT, rowPointersT) == TransposeSpec(Rep())
    {
      ghost var rows := TransposeRows(Rep());
      valuesT, colVectIndexesT, rowPointersT := [], [], [0];
      var col := 0;
      while col < nCols
        invariant 0 <= col <= nCols
        invariant valuesT == AllValues(rows[..col]) && colVectIndexesT == AllCols(rows[..col]) && rowPointersT == Offsets(rows[..col])
      {
        var row := TransposeRowOf(col);
        TakeNext(rows, col);
        valuesT, colVectIndexesT, rowPointersT := AppendRow(valuesT, colVectIndexesT, rowPointersT, rows[..col], row);
        col := col + 1;
      }
      TakeAll(rows);
    }

    /** Row c of naiveTranspose: column c packed into lanes by row index. */
    method TransposeRowOf(c: int) returns (row: RowLanes)
      requires Valid() && 0 <= c < nCols
      ensures row == TransposeRows(Rep())[c]
    {
      var column := ColumnOf(c);
      row := PackRow(Range(nRows), column);
    }

    /**
     * transpose (T) as written: naiveTranspose's lanes under the pointers its count,
     * prefix-sum, scatter and increment passes leave (Crs.FastTransposeAsWritten), handed
     * to the lane-array constructor, which fails exactly when the last column is empty.
     * The passes themselves are not rendered.  Only the pointers are taken from them, in
     * closed form.  The lanes and lane indexes are naiveTranspose's.  On canonical storage
     * the scatter pass visits each column's entries in ascending row order.  It opens the
     * next slot of that column's region for each new lane index, so it writes the same lanes
     * in the same order.
     */
    method TransposeAsWritten() returns (r: Result<Matrix>)
      requires Valid()
      ensures r.Err? <==> |TransposeRow(Rep(), nCols - 1).values| == 0
      ensures r.Ok? ==> fresh(r.value) && r.value.Rep() == Crs.FastTransposeAsWritten(Rep())
    {
      var valuesT, colVectIndexesT, rowPointersT := TransposeArrays();
      var pointers := TransposePointersAsWritten(LaneCounts(TransposeRows(Rep())));
      FastTransposeAsWrittenFails(Rep());
      r := FromLanes(nCols, nRows, valuesT, colVectIndexesT, pointers);
    }

    /**
     * transpose (T), as intended: the transpose naiveTranspose builds.  The source's
     * linear-time passes are TransposeAsWritten.
     */
    method Transpose() returns (t: Matrix)
      requires Valid()
      ensures fresh(t) && t.Valid() && t.Rep() == TransposeSpec(Rep())
      ensures t.nRows == nCols && t.nCols == nRows && t.Rows() == DenseAlgebra.Transpose(Rows(), nCols)
    {
      t := NaiveTranspose();
    }

    // -------------------------------------------------------------------------
    // matmul(Matrix)

    /** Every lane of row `row`, read with getSIMD. */
    method FullRow(row: int) returns (xl: seq<Lane>)
      requires Valid() && 0 <= row < nRows
      ensures xl == FullLanes(RowValues(Rep(), row), RowCols(Rep(), row), vectsPerRow)
    {
      xl := [];
      var j := 0;
      while j < vectsPerRow
        invariant 0 <= j <= vectsPerRow && |xl| == j
        invariant forall k :: 0 <= k < j ==> xl[k] == RowLane(Rep(), row, k)
      {
        var l := LaneOf(row, j);
        xl := xl + [l];
        j := j + 1;
      }
    }

    /**
     * One row of matmul: entry c is row c of the right operand's transpose times this
     * row's lanes, reduced; the entries are packed into lanes in column order.
     */
    method ProductRow(that: Matrix, bt: Matrix, row: int) returns (packed: RowLanes)
      requires Valid() && that.Valid() && bt.Valid() && nCols == that.nRows && 0 <= row < nRows
      requires bt.Rep() == TransposeSpec(that.Rep())
      ensures packed == PackRows(DenseProduct(Rows(), that.Rows(), that.nCols))[row]
    {
      var vs := ProductEntries(that, bt, row);
      packed := PackRow(Range(that.nCols), vs);
    }

    /** The entries of row `row` of the product, column by column. */
    method ProductEntries(that: Matrix, bt: Matrix, row: int) returns (vs: seq<real>)
      requires Valid() && that.Valid() && bt.Valid() && nCols == that.nRows && 0 <= row < nRows
      requires bt.Rep() == TransposeSpec(that.Rep())
      ensures vs == DenseProduct(Rows(), that.Rows(), that.nCols)[row]
    {
      ghost var p := DenseProduct(Rows(), that.Rows(), that.nCols)[row];
      assert |p| == that.nCols;
      var xl := FullRow(row);
      vs := [];
      var col := 0;
      while col < that.nCols
        invariant 0 <= col <= that.nCols && |vs| == col
        invariant forall c :: 0 <= c < col ==> vs[c] == p[c]
      {
        ProductEntryIsDot(Rep(), that.Rep(), row, col);
        var sum := bt.RowLanesDot(col, xl);
        var entry := Reduce(sum);
        vs := vs + [entry];
        col := col + 1;
      }
    }

    /**
     * matmul(that): fails unless the column count matches the other operand's row count;
     * otherwise a new matrix holding the product, rows packed into lanes in column order.
     */
    method MatMul(that: Matrix) returns (r: Result<Matrix>)
      requires Valid() && that.Valid()
      ensures r.Err? <==> nCols != that.nRows
      ensures r.Ok? ==> fresh(r.value) && r.value.Valid() && r.value.Rep() == MatMulSpec(Rep(), that.Rep())
      ensures r.Ok? ==> r.value.nRows == nRows && r.value.nCols == that.nCols
      ensures r.Ok? ==> r.value.Rows() == DenseProduct(Rows(), that.Rows(), that.nCols)
    {
      if nCols != that.nRows {
        return Err("Improper dimensions!");
      }
      var bt := that.NaiveTranspose();
      var newValues, newColVectIndexes, newRowPointers := ProductArrays(that, bt);
      MatMulSpecDense(Rep(), that.Rep());
      CanonicalPassesChecks(MatMulSpec(Rep(), that.Rep()));
      r := FromLanes(nRows, that.nCols, newValues, newColVectIndexes, newRowPointers);
    }

    /** matmul's loop over the rows. */
    method ProductArrays(that: Matrix, bt: Matrix) returns (newValues: seq<Lane>, newColVectIndexes: seq<int>, newRowPointers: seq<int>)
      requires Valid() && that.Valid() && bt.Valid() && nCols == that.nRows
      requires bt.Rep() == TransposeSpec(that.Rep())
      ensures Storage(nRows, that.nCols, newValues, newColVectIndexes, newRowPointers) == MatMulSpec(Rep(), that.Rep())
    {
      ghost var all := PackRows(DenseProduct(Rows(), that.Rows(), that.nCols));
      assert |all| == nRows;
      newValues, newColVectIndexes, newRowPointers := [], [], [0];
      var row := 0;
      while row < nRows
        invariant 0 <= row <= nRows == |all|
        invariant newValues == AllValues(all[..row]) && newColVectIndexes == AllCols(all[..row]) && newRowPointers == Offsets(all[..row])
      {
        var packed := ProductRow(that, bt, row);
        TakeNext(all, row);
        newValues, newColVectIndexes, newRowPointers := AppendRow(newValues, newColVectIndexes, newRowPointers, all[..row], packed);
        row := row + 1;
      }
      TakeAll(all);
    }

    // -------------------------------------------------------------------------
    // Scalar operators

    /**
     * operator*=(scalar): every stored lane multiplied by the broadcast scalar.  Scaling
     * by zero empties the arrays, where the source keeps every lane, now all zero
     * (Crs.ScaleByZeroAsWritten).
     */
    method ScaleAssign(k: real)
      requires Valid()
      modifies this
      ensures Valid() && nRows == old(nRows) && nCols == old(nCols)
      ensures Rep() == ScaleSpec(old(Rep()), k)
      ensures Dense(Rep()) == DenseScale(old(Dense(Rep())), k)
    {
      ghost var s := Rep();
      ScaleSpecDense(s, k);
      if k == 0.0 {
        values := [];
        colVectIndexes := [];
        totalVectCount := 0;
        rowPointers := seq(nRows + 1, _ => 0);
        assert Rep() == ZeroStorage(nRows, nCols);
        return;
      }
      ScaleValues(k);
      ScaleLanesDense(s, k);
      assert Rep() == Crs.ScaleLanes(s, k);
    }

    /** The loop of operator*=(scalar) over the stored lanes. */
    method ScaleValues(k: real)
      requires |values| == totalVectCount
      modifies this`values
      ensures values == seq(|old(values)|, i requires 0 <= i < |old(values)| => LaneScale(old(values)[i], k))
    {
      var thatVect := Broadcast(k);
      var i := 0;
      while i < totalVectCount
        invariant 0 <= i <= totalVectCount == |values| == |old(values)|
        invariant forall m :: 0 <= m < |values| ==> values[m] == if m < i then LaneScale(old(values)[m], k) else old(values)[m]
      {
        LaneMulBroadcast(values[i], k);
        values := values[i := LaneMul(values[i], thatVect)];
        i := i + 1;
      }
    }

    /** operator*(scalar), on either side: a scaled copy; this matrix is unchanged. */
    method Scaled(k: real) returns (c: Matrix)
      requires Valid()
      ensures fresh(c) && c.Valid() && c.Rep() == ScaleSpec(Rep(), k)
      ensures Dense(c.Rep()) == DenseScale(Dense(Rep()), k)
    {
      c := Copy();
      c.ScaleAssign(k);
    }

    /** operator/=(scalar): fails for zero, otherwise multiplies by the reciprocal. */
    method DivideScalarAssign(k: real) returns (o: Outcome)
      requires Valid()
      modifies this
      ensures Valid() && nRows == old(nRows) && nCols == old(nCols)
      ensures o.Fail? <==> k == 0.0
      ensures o.Fail? ==> Rep() == old(Rep())
      ensures o.Pass? ==> Dense(Rep()) == DenseScale(old(Dense(Rep())), 1.0 / k)
    {
      if k == 0.0 {
        return Fail("Division by zero!");
      }
      ScaleAssign(1.0 / k);
      return Pass;
    }

    /** operator/(scalar): fails for zero before copying. */
    method DividedByScalar(k: real) returns (r: Result<Matrix>)
      requires Valid()
      ensures r.Err? <==> k == 0.0
      ensures r.Ok? ==> fresh(r.value) && r.value.Valid() && Dense(r.value.Rep()) == DenseScale(Dense(Rep()), 1.0 / k)
    {
      if k == 0.0 {
        return Err("Division by zero!");
      }
      var c := Copy();
      var o := c.DivideScalarAssign(k);
      return Ok(c);
    }
  }

  /** The inner loop of isClose: every slot of the two lanes within `tol`. */
  method LanesClose(a: Lane, b: Lane, tol: real) returns (near: bool)
    ensures near <==> forall e :: 0 <= e < N ==> RealAbs(a[e] - b[e]) <= tol
  {
    var e := 0;
    while e < N
      invariant 0 <= e <= N
      invariant forall m :: 0 <= m < e ==> RealAbs(a[m] - b[m]) <= tol
    {
      if RealAbs(a[e] - b[e]) > tol {
        return false;
      }
      e := e + 1;
    }
    return true;
  }

  /** matmul(x) after `count` rows: their inner products with x, zeros below. */
  ghost function ProductPrefix(d: seq<seq<real>>, x: seq<real>, count: int): (y: seq<real>)
    requires IsMatrix(d, |x|)
    ensures |y| == |d|
  {
    seq(|d|, r requires 0 <= r < |d| => if r < count then Dot(d[r], x) else 0.0)
  }

  /** One more row of matmul(x): its inner product replaces the zero at that index. */
  lemma ProductPrefixNext(d: seq<seq<real>>, x: seq<real>, row: int, v: real)
    requires IsMatrix(d, |x|) && 0 <= row < |d| && v == Dot(d[row], x)
    ensures ProductPrefix(d, x, row + 1) == ProductPrefix(d, x, row)[row := v]
    ensures v == 0.0 ==> ProductPrefix(d, x, row + 1) == ProductPrefix(d, x, row)
  {
  }

  /** The rows of the matrices, one matrix after another. */
  ghost function Stacked(ms: seq<Matrix>): seq<seq<real>>
    reads set i | 0 <= i < |ms| :: ms[i]
    requires forall i :: 0 <= i < |ms| ==> ms[i].Valid()
  {
    if ms == [] then [] else Stacked(ms[..|ms| - 1]) + ms[|ms| - 1].Rows()
  }

  /** The first `n` matrices have the column count of the first one. */
  ghost predicate SameWidths(ms: seq<Matrix>, n: int)
    reads set i | 0 <= i < |ms| :: ms[i]
    requires 0 < n <= |ms|
  {
    forall k :: 0 <= k < n ==> ms[k].nCols == ms[0].nCols
  }

  /**
   * stack: fails for no matrices or when a matrix has another column count than the
   * first; otherwise the matrices stacked with addRows, in order.
   */
  method Stack(ms: seq<Matrix>) returns (r: Result<Matrix>)
    requires forall i :: 0 <= i < |ms| ==> ms[i].Valid()
    ensures r.Err? <==> ms == [] || exists i :: 0 <= i < |ms| && ms[i].nCols != ms[0].nCols
    ensures r.Ok? ==> fresh(r.value) && r.value.Valid() && r.value.Rows() == Stacked(ms)
  {
    if |ms| < 1 {
      return Err("There must be at least one matrix to stack!");
    }
    var tmp := ms[0].Copy();
    assert ms[..1][..0] == [];
    var i := 1;
    while i < |ms|
      invariant 1 <= i <= |ms| && SameWidths(ms, i)
      invariant fresh(tmp) && tmp.Valid() && tmp.nCols == ms[0].nCols && tmp.Rows() == Stacked(ms[..i])
    {
      var next := StackStep(ms, i, tmp);
      if next.Err? {
        return next;
      }
      tmp := next.value;
      i := i + 1;
    }
    assert ms[..|ms|] == ms;
    return Ok(tmp);
  }

  /** One step of stack: the rows stacked so far followed by those of ms[i]. */
  method StackStep(ms: seq<Matrix>, i: int, tmp: Matrix) returns (r: Result<Matrix>)
    requires 0 < i < |ms| && forall k :: 0 <= k < |ms| ==> ms[k].Valid()
    requires tmp.Valid() && tmp.nCols == ms[0].nCols && tmp.Rows() == Stacked(ms[..i]) && SameWidths(ms, i)
    ensures r.Err? <==> ms[i].nCols != ms[0].nCols
    ensures r.Ok? ==> fresh(r.value) && r.value.Valid() && r.value.nCols == ms[0].nCols
    ensures r.Ok? ==> r.value.Rows() == Stacked(ms[..i + 1]) && SameWidths(ms, i + 1)
  {
    assert ms[..i + 1][..i] == ms[..i];
    r := tmp.AddRows(ms[i]);
  }

  /** The sum of the lane products vals[k] * xl[cols[k]], accumulated left to right. */
  method AccumulateLanes(vals: seq<Lane>, cols: seq<int>, xl: seq<Lane>) returns (sum: Lane)
    requires |vals| == |cols| && forall k :: 0 <= k < |cols| ==> 0 <= cols[k] < |xl|
    ensures sum == SparseAccumulate(vals, cols, xl)
  {
    sum := ZeroLane();
    var i := 0;
    while i < |vals|
      invariant 0 <= i <= |vals|
      invariant sum == SparseAccumulate(vals[..i], cols[..i], xl)
    {
      assert vals[..i + 1][..i] == vals[..i] && cols[..i + 1][..i] == cols[..i];
      sum := LaneAdd(sum, LaneMul(vals[i], xl[cols[i]]));
      i := i + 1;
    }
    assert vals[..i] == vals && cols[..i] == cols;
  }

  // ---------------------------------------------------------------------------
  // Building the arrays row by row

  /**
   * The row builders' inner loop: the entries (cs[k], vs[k]) in order, zeros skipped, a
   * value going into the last lane when `last` (that lane's index) is its lane.
   */
  method PackRow(cs: seq<int>, vs: seq<real>) returns (row: RowLanes)
    requires |cs| == |vs| && forall k :: 0 <= k < |cs| ==> cs[k] >= 0
    ensures row == PackEntries(cs, vs)
  {
    var vals: seq<Lane>, cols: seq<int> := [], [];
    var last := -1;
    var k := 0;
    while k < |cs|
      invariant 0 <= k <= |cs| && RowLanes(vals, cols) == PackEntries(cs[..k], vs[..k])
      invariant last == if cols == [] then -1 else cols[|cols| - 1]
    {
      var c, v := cs[k], vs[k];
      PackEntriesSnoc(cs[..k], vs[..k], c, v);
      assert cs[..k + 1] == cs[..k] + [c] && vs[..k + 1] == vs[..k] + [v];
      if v != 0.0 {
        if c / N == last {
          vals := vals[|vals| - 1 := vals[|vals| - 1][c % N := v]];
        } else {
          vals := vals + [Unit(c % N, v)];
          cols := cols + [c / N];
          last := c / N;
        }
      }
      k := k + 1;
    }
    assert cs[..k] == cs && vs[..k] == vs;
    row := RowLanes(vals, cols);
  }

  /** The arrays of `done` extended by one more row. */
  method AppendRow(vals: seq<Lane>, cols: seq<int>, ptrs: seq<int>, ghost done: seq<RowLanes>, row: RowLanes)
    returns (vals': seq<Lane>, cols': seq<int>, ptrs': seq<int>)
    requires vals == AllValues(done) && cols == AllCols(done) && ptrs == Offsets(done)
    ensures vals' == AllValues(done + [row]) && cols' == AllCols(done + [row]) && ptrs' == Offsets(done + [row])
  {
    FromRowsAppend(done, row);
    vals' := vals + row.values;
    cols' := cols + row.cols;
    ptrs' := ptrs + [|vals'|];
  }

  /** The triplet constructor's range checks, over all the column indexes and row pointers. */
  method TripletsInRange(nCols: int, colIndexes: seq<int>, ptrs: seq<int>) returns (ok: bool)
    ensures ok == TripletInRange(nCols, colIndexes, ptrs)
  {
    var k := 0;
    while k < |colIndexes|
      invariant 0 <= k <= |colIndexes|
      invariant forall i :: 0 <= i < k ==> 0 <= colIndexes[i] < nCols
    {
      if colIndexes[k] < 0 || colIndexes[k] >= nCols {
        return false;
      }
      k := k + 1;
    }
    k := 0;
    while k < |ptrs|
      invariant 0 <= k <= |ptrs|
      invariant forall i :: 0 <= i < k ==> 0 <= ptrs[i] <= |colIndexes|
    {
      if ptrs[k] < 0 || ptrs[k] > |colIndexes| {
        return false;
      }
      k := k + 1;
    }
    return true;
  }

  /**
   * The CRS array constructor from one value per entry: fails when a column index or a
   * row pointer is out of range; otherwise row r holds the entries ptrs[r] .. ptrs[r+1] - 1
   * packed into lanes, so entry (r, c) is the row's value for column c, or zero.
   */
  method FromTriplets(rows: int, cols: int, vals: seq<real>, colIndexes: seq<int>, ptrs: seq<int>) returns (r: Result<Matrix>)
    requires rows >= 1 && cols >= 1 && |ptrs| == rows + 1 && |colIndexes| == |vals|
    requires SortedRows(colIndexes, ptrs)
    ensures r.Err? <==> !TripletInRange(cols, colIndexes, ptrs)
    ensures r.Ok? ==> fresh(r.value) && r.value.Valid() && r.value.Rep() == TripletSpec(rows, cols, vals, colIndexes, ptrs)
    ensures r.Ok? ==> forall i, j :: 0 <= i < rows && 0 <= j < cols ==>
                        r.value.Rows()[i][j] == TripletValue(colIndexes, vals, ptrs[i], ptrs[i + 1], j)
  {
    var ok := TripletsInRange(cols, colIndexes, ptrs);
    if !ok {
      return Err("Matrix dimensions out of bounds!");
    }
    var newValues, newColVectIndexes, newRowPointers := TripletArrays(rows, cols, vals, colIndexes, ptrs);
    TripletSpecDense(rows, cols, vals, colIndexes, ptrs);
    var m := new Matrix.Init(Storage(rows, cols, newValues, newColVectIndexes, newRowPointers));
    return Ok(m);
  }

  /** The triplet constructor's loop over the rows. */
  method TripletArrays(rows: nat, cols: int, vals: seq<real>, colIndexes: seq<int>, ptrs: seq<int>)
    returns (newValues: seq<Lane>, newColVectIndexes: seq<int>, newRowPointers: seq<int>)
    requires |ptrs| == rows + 1 && |colIndexes| == |vals| && TripletInRange(cols, colIndexes, ptrs)
    ensures Storage(rows, cols, newValues, newColVectIndexes, newRowPointers) == TripletSpec(rows, cols, vals, colIndexes, ptrs)
  {
    ghost var all := TripletRows(rows, cols, vals, colIndexes, ptrs);
    newValues, newColVectIndexes, newRowPointers := [], [], [0];
    var row := 0;
    while row < rows
      invariant 0 <= row <= rows
      invariant newValues == AllValues(all[..row]) && newColVectIndexes == AllCols(all[..row]) && newRowPointers == Offsets(all[..row])
    {
      var packed := TripletRowOf(vals, colIndexes, ptrs[row], ptrs[row + 1]);
      TakeNext(all, row);
      newValues, newColVectIndexes, newRowPointers := AppendRow(newValues, newColVectIndexes, newRowPointers, all[..row], packed);
      row := row + 1;
    }
    TakeAll(all);
  }

  /** One row of the triplet constructor: the entries in [lo, hi), none when hi < lo. */
  method TripletRowOf(vals: seq<real>, colIndexes: seq<int>, lo: int, hi: int) returns (packed: RowLanes)
    requires |colIndexes| == |vals| && 0 <= lo <= |vals| && 0 <= hi <= |vals|
    requires forall k :: 0 <= k < |colIndexes| ==> colIndexes[k] >= 0
    ensures packed == TripletRow(colIndexes, vals, lo, hi)
  {
    packed := RowLanes([], []);
    if lo <= hi {
      packed := PackRow(colIndexes[lo..hi], vals[lo..hi]);
    }
  }
}
