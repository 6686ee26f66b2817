/**
 * Compressed row storage of lalib::Matrix (Matrix.hpp), stated on values.
 *
 * A matrix of R rows and C columns keeps three arrays: `values`, a sequence of lanes
 * of N elements; `colVectIndexes`, the lane-column index of each stored lane (lane j
 * covers columns j * N .. j * N + N - 1); and `rowPointers`, of length R + 1, where
 * row r owns the stored lanes at positions rowPointers[r] .. rowPointers[r + 1] - 1.
 * A lane that is not stored reads as zeros.
 *
 * The class SparseMatrix.Matrix updates these arrays in place and is proved against
 * the functions here; the lemmas here state what those functions mean for the
 * entries of the matrix.
 */
module Crs {
  import opened Wrappers
  import opened DenseAlgebra
  import opened Simd
  import opened DenseVector
  import Utility

  /** The arrays of a matrix, as values. */
  datatype Storage = Storage(nRows: int, nCols: int, values: seq<Lane>, colVectIndexes: seq<int>, rowPointers: seq<int>)

  /** The stored lanes of one row and their lane-column indexes. */
  datatype RowLanes = RowLanes(values: seq<Lane>, cols: seq<int>)

  predicate Increasing(cols: seq<int>)
  {
    forall a, b :: 0 <= a < b < |cols| ==> cols[a] < cols[b]
  }

  /**
   * The array shapes: positive dimensions, parallel value and index arrays, and row
   * pointers that start at 0, never decrease and end at the number of stored lanes.
   */
  predicate Shape(s: Storage)
  {
    && s.nRows >= 1 && s.nCols >= 1
    && |s.values| == |s.colVectIndexes|
    && |s.rowPointers| == s.nRows + 1
    && s.rowPointers[0] == 0 && s.rowPointers[s.nRows] == |s.values|
    && (forall a, b :: 0 <= a <= b <= s.nRows ==> s.rowPointers[a] <= s.rowPointers[b])
  }

  function RowCols(s: Storage, r: int): seq<int>
    requires Shape(s) && 0 <= r < s.nRows
  {
    s.colVectIndexes[s.rowPointers[r]..s.rowPointers[r + 1]]
  }

  function RowValues(s: Storage, r: int): seq<Lane>
    requires Shape(s) && 0 <= r < s.nRows
  {
    s.values[s.rowPointers[r]..s.rowPointers[r + 1]]
  }

  function Row(s: Storage, r: int): RowLanes
    requires Shape(s) && 0 <= r < s.nRows
  {
    RowLanes(RowValues(s, r), RowCols(s, r))
  }

  /** Lane-column indexes lie in [0, ceil(C, N)). */
  predicate LanesInRange(cols: seq<int>, nCols: nat)
  {
    forall i :: 0 <= i < |cols| ==> 0 <= cols[i] < LanesFor(nCols)
  }

  /**
   * The CRS invariant that `place` keeps: the shapes above, lane-column indexes strictly
   * increasing within each row, and every index inside the matrix.
   */
  predicate WellFormed(s: Storage)
  {
    && Shape(s)
    && (forall r :: 0 <= r < s.nRows ==> Increasing(RowCols(s, r)))
    && LanesInRange(s.colVectIndexes, s.nCols)
  }

  /** The slots of stored lanes past the last column hold zero. */
  predicate ZeroPadding(s: Storage)
    requires |s.values| == |s.colVectIndexes|
  {
    RowPadded(RowLanes(s.values, s.colVectIndexes), s.nCols)
  }

  /** No stored lane is all zero: the form `place` produces. */
  predicate NoZeroLanes(s: Storage)
  {
    RowNoZero(RowLanes(s.values, s.colVectIndexes))
  }

  /** A matrix in the form `place` produces: well formed, zero padding, no zero lane. */
  predicate Canonical(s: Storage)
  {
    WellFormed(s) && ZeroPadding(s) && NoZeroLanes(s)
  }

  // ---------------------------------------------------------------------------
  // Reading one row

  /**
   * The scan of operator() and getSIMD: the first position whose lane index is not
   * below `j`, or the end of the row.
   */
  function Find(cols: seq<int>, j: int): (p: nat)
    ensures p <= |cols|
    ensures forall k :: 0 <= k < p ==> cols[k] < j
    ensures p < |cols| ==> cols[p] >= j
  {
    if cols == [] || cols[0] >= j then 0 else 1 + Find(cols[1..], j)
  }

  /** A position with the properties of the scan's stopping point is the one Find gives. */
  lemma FindIs(cols: seq<int>, j: int, p: nat)
    requires p <= |cols|
    requires forall k :: 0 <= k < p ==> cols[k] < j
    requires p < |cols| ==> cols[p] >= j
    ensures Find(cols, j) == p
  {
  }

  /**
   * The lane with index `j` of a row: the stored lane the scan stops at when its index
   * is `j`, otherwise zeros.  With increasing indexes it is the lane stored under `j`.
   */
  function LaneAt(vals: seq<Lane>, cols: seq<int>, j: int): (l: Lane)
    requires |vals| == |cols|
    ensures Increasing(cols) ==> forall k :: 0 <= k < |cols| && cols[k] == j ==> l == vals[k]
    ensures (forall k :: 0 <= k < |cols| ==> cols[k] != j) ==> l == ZeroLane()
  {
    var p := Find(cols, j);
    if p < |cols| && cols[p] == j then vals[p] else ZeroLane()
  }

  /** Inserting index `j` where the scan stops for it, when it is missing, keeps the order. */
  lemma InsertKeepsOrder(cols: seq<int>, j: int, p: int)
    requires Increasing(cols) && p == Find(cols, j)
    requires p == |cols| || cols[p] != j
    ensures Increasing(cols[..p] + [j] + cols[p..])
  {
    var nc := cols[..p] + [j] + cols[p..];
    forall a, b | 0 <= a < b < |nc| ensures nc[a] < nc[b] {
      if b < p {
        assert nc[a] == cols[a] && nc[b] == cols[b];
      } else if b == p {
        assert nc[a] == cols[a] && nc[b] == j;
      } else if a < p {
        assert nc[a] == cols[a] && nc[b] == cols[b - 1] && cols[b - 1] >= cols[p] > j;
      } else if a == p {
        assert nc[b] == cols[b - 1] && cols[b - 1] >= cols[p] > j;
      } else {
        assert nc[a] == cols[a - 1] && nc[b] == cols[b - 1];
      }
    }
  }

  /**
   * Inserting a lane at the position the scan finds for a missing index keeps the
   * indexes increasing and changes the lane under that index only.
   */
  lemma LaneAtInsert(vals: seq<Lane>, cols: seq<int>, j: int, l: Lane, p: int)
    requires |vals| == |cols| && Increasing(cols) && p == Find(cols, j)
    requires p == |cols| || cols[p] != j
    ensures Increasing(cols[..p] + [j] + cols[p..])
    ensures forall j' :: LaneAt(vals[..p] + [l] + vals[p..], cols[..p] + [j] + cols[p..], j')
                         == if j' == j then l else LaneAt(vals, cols, j')
  {
    var nv := vals[..p] + [l] + vals[p..];
    var nc := cols[..p] + [j] + cols[p..];
    InsertKeepsOrder(cols, j, p);
    forall j' ensures LaneAt(nv, nc, j') == if j' == j then l else LaneAt(vals, cols, j') {
      if j' == j {
        assert nc[p] == j && nv[p] == l;
      } else if k :| 0 <= k < |cols| && cols[k] == j' {
        var k' := if k < p then k else k + 1;
        assert nc[k'] == j' && nv[k'] == vals[k];
      } else {
        forall k | 0 <= k < |nc| ensures nc[k] != j' {
          if k > p {
            assert nc[k] == cols[k - 1];
          } else if k < p {
            assert nc[k] == cols[k];
          }
        }
      }
    }
  }

  /** Overwriting the stored lane at position `p` changes the lane under its index only. */
  lemma LaneAtUpdate(vals: seq<Lane>, cols: seq<int>, p: int, l: Lane)
    requires |vals| == |cols| && Increasing(cols) && 0 <= p < |cols|
    ensures forall j' :: LaneAt(vals[p := l], cols, j') == if j' == cols[p] then l else LaneAt(vals, cols, j')
  {
    forall j' ensures LaneAt(vals[p := l], cols, j') == if j' == cols[p] then l else LaneAt(vals, cols, j') {
      if k :| 0 <= k < |cols| && cols[k] == j' {
        assert vals[p := l][k] == if k == p then l else vals[k];
      }
    }
  }

  /** Erasing the stored lane at position `p` keeps the order and turns its index into zeros. */
  lemma LaneAtDelete(vals: seq<Lane>, cols: seq<int>, p: int)
    requires |vals| == |cols| && Increasing(cols) && 0 <= p < |cols|
    ensures Increasing(cols[..p] + cols[p + 1..])
    ensures forall j' :: LaneAt(vals[..p] + vals[p + 1..], cols[..p] + cols[p + 1..], j')
                         == if j' == cols[p] then ZeroLane() else LaneAt(vals, cols, j')
  {
    var nv := vals[..p] + vals[p + 1..];
    var nc := cols[..p] + cols[p + 1..];
    assert forall k :: 0 <= k < |nc| ==> nc[k] == if k < p then cols[k] else cols[k + 1];
    assert forall k :: 0 <= k < |nv| ==> nv[k] == if k < p then vals[k] else vals[k + 1];
    forall j' ensures LaneAt(nv, nc, j') == if j' == cols[p] then ZeroLane() else LaneAt(vals, cols, j') {
      if j' == cols[p] {
        assert forall k :: 0 <= k < |nc| ==> nc[k] != j';
      } else if k :| 0 <= k < |cols| && cols[k] == j' {
        var k' := if k < p then k else k - 1;
        assert nc[k'] == j' && nv[k'] == vals[k];
      } else {
        assert forall k :: 0 <= k < |nc| ==> nc[k] != j';
      }
    }
  }

  // ---------------------------------------------------------------------------
  // Entries of a matrix

  /** getSIMD's answer: lane `j` of row `r`. */
  function RowLane(s: Storage, r: int, j: int): Lane
    requires Shape(s) && 0 <= r < s.nRows
  {
    LaneAt(RowValues(s, r), RowCols(s, r), j)
  }

  /** operator()'s answer: element c % N of lane c / N of row r. */
  function Entry(s: Storage, r: int, c: int): real
    requires Shape(s) && 0 <= r < s.nRows && 0 <= c
  {
    RowLane(s, r, c / N)[c % N]
  }

  /** The matrix the storage represents, row by row. */
  function Dense(s: Storage): (d: seq<seq<real>>)
    requires Shape(s)
    ensures |d| == s.nRows && IsMatrix(d, s.nCols)
  {
    seq(s.nRows, r requires 0 <= r < s.nRows => seq(s.nCols, c requires 0 <= c < s.nCols => Entry(s, r, c)))
  }

  // ---------------------------------------------------------------------------
  // Replacing the lanes of one row

  /** Row-level forms of the padding and zero-lane conditions. */
  predicate RowPadded(row: RowLanes, nCols: int)
    requires |row.values| == |row.cols|
  {
    forall k, e :: 0 <= k < |row.values| && 0 <= e < N && row.cols[k] * N + e >= nCols ==> row.values[k][e] == 0.0
  }

  predicate RowNoZero(row: RowLanes)
  {
    forall k :: 0 <= k < |row.values| ==> row.values[k] != ZeroLane()
  }

  /**
   * The storage with row `r`'s lanes replaced by `row`: the arrays spliced at the row's
   * extent and the later row pointers shifted by the change in its length.  Every
   * insertion into and erasure from a row that `place` performs is one of these.
   */
  function ReplaceRow(s: Storage, r: int, row: RowLanes): (t: Storage)
    requires Shape(s) && 0 <= r < s.nRows && |row.values| == |row.cols|
    ensures Shape(t) && t.nRows == s.nRows && t.nCols == s.nCols
  {
    var lo := s.rowPointers[r];
    var hi := s.rowPointers[r + 1];
    var d := |row.values| - (hi - lo);
    Storage(s.nRows, s.nCols,
            s.values[..lo] + row.values + s.values[hi..],
            s.colVectIndexes[..lo] + row.cols + s.colVectIndexes[hi..],
            seq(s.nRows + 1, k requires 0 <= k <= s.nRows => if k <= r then s.rowPointers[k] else s.rowPointers[k] + d))
  }

  /** Where each stored lane of the spliced storage comes from. */
  lemma ReplaceRowIndex(s: Storage, r: int, row: RowLanes)
    requires Shape(s) && 0 <= r < s.nRows && |row.values| == |row.cols|
    ensures var t := ReplaceRow(s, r, row);
            var lo := s.rowPointers[r];
            var d := |row.values| - (s.rowPointers[r + 1] - lo);
            forall i :: 0 <= i < |t.values| ==>
              if i < lo then t.values[i] == s.values[i] && t.colVectIndexes[i] == s.colVectIndexes[i]
              else if i < lo + |row.values| then t.values[i] == row.values[i - lo] && t.colVectIndexes[i] == row.cols[i - lo]
              else t.values[i] == s.values[i - d] && t.colVectIndexes[i] == s.colVectIndexes[i - d]
  {
  }

  /** A row before the spliced one keeps its pointers and lanes. */
  lemma ReplaceRowEarlierRow(s: Storage, r: int, row: RowLanes, r': int)
    requires Shape(s) && 0 <= r' < r < s.nRows && |row.values| == |row.cols|
    ensures Row(ReplaceRow(s, r, row), r') == Row(s, r')
  {
    var t := ReplaceRow(s, r, row);
    var a := s.rowPointers[r'];
    var b := s.rowPointers[r' + 1];
    assert b <= s.rowPointers[r];
    assert t.rowPointers[r'] == a && t.rowPointers[r' + 1] == b;
    SpliceHead(s.values, s.rowPointers[r], s.rowPointers[r + 1], row.values, a, b);
    SpliceHead(s.colVectIndexes, s.rowPointers[r], s.rowPointers[r + 1], row.cols, a, b);
  }

  /** A row after the spliced one keeps its lanes, at pointers shifted by the change in length. */
  lemma ReplaceRowLaterRow(s: Storage, r: int, row: RowLanes, r': int)
    requires Shape(s) && 0 <= r < r' < s.nRows && |row.values| == |row.cols|
    ensures Row(ReplaceRow(s, r, row), r') == Row(s, r')
  {
    var t := ReplaceRow(s, r, row);
    var d := |row.values| - (s.rowPointers[r + 1] - s.rowPointers[r]);
    var a := s.rowPointers[r'];
    var b := s.rowPointers[r' + 1];
    assert s.rowPointers[r + 1] <= a <= b;
    assert t.rowPointers[r'] == a + d && t.rowPointers[r' + 1] == b + d;
    SpliceTail(s.values, s.rowPointers[r], s.rowPointers[r + 1], row.values, a, b, d);
    SpliceTail(s.colVectIndexes, s.rowPointers[r], s.rowPointers[r + 1], row.cols, a, b, d);
    assert RowValues(t, r') == t.values[a + d..b + d] && RowCols(t, r') == t.colVectIndexes[a + d..b + d];
  }

  /** Past the spliced stretch, a slice of the original reappears shifted by the change in length. */
  lemma SpliceTail<T>(xs: seq<T>, lo: int, hi: int, ys: seq<T>, a: int, b: int, d: int)
    requires 0 <= lo <= hi <= a <= b <= |xs| && d == |ys| - (hi - lo)
    ensures (xs[..lo] + ys + xs[hi..])[a + d..b + d] == xs[a..b]
  {
    var zs := xs[..lo] + ys + xs[hi..];
    assert forall i :: a + d <= i < b + d ==> zs[i] == xs[i - d];
    ShiftedSlice(xs, zs, a, b, d);
  }

  /** Before the spliced stretch, slices of the original are untouched. */
  lemma SpliceHead<T>(xs: seq<T>, lo: int, hi: int, ys: seq<T>, a: int, b: int)
    requires 0 <= a <= b <= lo <= hi <= |xs|
    ensures (xs[..lo] + ys + xs[hi..])[a..b] == xs[a..b]
  {
    var zs := xs[..lo] + ys + xs[hi..];
    assert forall i :: a <= i < b ==> zs[i] == xs[i];
    ShiftedSlice(xs, zs, a, b, 0);
  }

  /** A stretch of `ys` that repeats xs[a..b] d places further on. */
  lemma ShiftedSlice<T>(xs: seq<T>, ys: seq<T>, a: int, b: int, d: int)
    requires 0 <= a <= b <= |xs| && 0 <= a + d && b + d <= |ys|
    requires forall i :: a + d <= i < b + d ==> ys[i] == xs[i - d]
    ensures ys[a + d..b + d] == xs[a..b]
  {
    assert forall k :: 0 <= k < b - a ==> ys[a + d..b + d][k] == ys[a + d + k] && xs[a..b][k] == xs[a + k];
  }

  /** The spliced storage has `row` as row `r` and every other row as before. */
  lemma ReplaceRowRows(s: Storage, r: int, row: RowLanes)
    requires Shape(s) && 0 <= r < s.nRows && |row.values| == |row.cols|
    ensures Row(ReplaceRow(s, r, row), r) == row
    ensures forall r' :: 0 <= r' < s.nRows && r' != r ==> Row(ReplaceRow(s, r, row), r') == Row(s, r')
  {
    ReplaceRowRow(s, r, row, r);
    forall r' | 0 <= r' < s.nRows && r' != r
      ensures Row(ReplaceRow(s, r, row), r') == Row(s, r')
    {
      ReplaceRowRow(s, r, row, r');
    }
  }

  /** Row r' of the spliced storage: `row` itself at r, the old row elsewhere. */
  lemma ReplaceRowRow(s: Storage, r: int, row: RowLanes, r': int)
    requires Shape(s) && 0 <= r < s.nRows && |row.values| == |row.cols| && 0 <= r' < s.nRows
    ensures Row(ReplaceRow(s, r, row), r') == if r' == r then row else Row(s, r')
  {
    if r' < r {
      ReplaceRowEarlierRow(s, r, row, r');
    } else if r' > r {
      ReplaceRowLaterRow(s, r, row, r');
    } else {
      var t := ReplaceRow(s, r, row);
      var lo := s.rowPointers[r];
      assert t.rowPointers[r] == lo && t.rowPointers[r + 1] == lo + |row.values|;
      assert t.values[lo..lo + |row.values|] == row.values;
      assert t.colVectIndexes[lo..lo + |row.values|] == row.cols;
    }
  }

  /** Splicing in an ordered, in-range row keeps the storage well formed. */
  lemma ReplaceRowWellFormed(s: Storage, r: int, row: RowLanes)
    requires WellFormed(s) && 0 <= r < s.nRows && |row.values| == |row.cols|
    requires Increasing(row.cols) && LanesInRange(row.cols, s.nCols)
    ensures WellFormed(ReplaceRow(s, r, row))
  {
    var t := ReplaceRow(s, r, row);
    forall r' | 0 <= r' < t.nRows ensures Increasing(RowCols(t, r')) {
      ReplaceRowRow(s, r, row, r');
      assert RowCols(t, r') == Row(t, r').cols;
    }
    InRangeSplice(s.colVectIndexes, row.cols, s.rowPointers[r], s.rowPointers[r + 1], s.nCols);
  }

  /** Splicing in-range lane indexes into in-range lane indexes. */
  lemma InRangeSplice(xs: seq<int>, ys: seq<int>, lo: int, hi: int, nCols: nat)
    requires 0 <= lo <= hi <= |xs| && LanesInRange(xs, nCols) && LanesInRange(ys, nCols)
    ensures LanesInRange(xs[..lo] + ys + xs[hi..], nCols)
  {
    var zs := xs[..lo] + ys + xs[hi..];
    forall i | 0 <= i < |zs| ensures 0 <= zs[i] < LanesFor(nCols) {
      if i < lo {
        assert zs[i] == xs[i];
      } else if i < lo + |ys| {
        assert zs[i] == ys[i - lo];
      } else {
        assert zs[i] == xs[i - lo - |ys| + hi];
      }
    }
  }

  /** Splicing keeps a zero padding when the new row has one. */
  lemma ReplaceRowPadding(s: Storage, r: int, row: RowLanes)
    requires Shape(s) && 0 <= r < s.nRows && |row.values| == |row.cols|
    requires ZeroPadding(s) && RowPadded(row, s.nCols)
    ensures ZeroPadding(ReplaceRow(s, r, row))
  {
    ReplaceRowIndex(s, r, row);
  }

  /** Splicing keeps the absence of zero lanes when the new row has none. */
  lemma ReplaceRowNoZero(s: Storage, r: int, row: RowLanes)
    requires Shape(s) && 0 <= r < s.nRows && |row.values| == |row.cols|
    requires NoZeroLanes(s) && RowNoZero(row)
    ensures NoZeroLanes(ReplaceRow(s, r, row))
  {
    ReplaceRowIndex(s, r, row);
  }

  /** After splicing, the lanes of row `r` are those of `row`; other rows read as before. */
  lemma ReplaceRowLanes(s: Storage, r: int, row: RowLanes)
    requires Shape(s) && 0 <= r < s.nRows && |row.values| == |row.cols|
    ensures forall r', j :: 0 <= r' < s.nRows ==>
              RowLane(ReplaceRow(s, r, row), r', j) == if r' == r then LaneAt(row.values, row.cols, j) else RowLane(s, r', j)
  {
    var t := ReplaceRow(s, r, row);
    ReplaceRowRows(s, r, row);
    forall r', j | 0 <= r' < s.nRows
      ensures RowLane(t, r', j) == if r' == r then LaneAt(row.values, row.cols, j) else RowLane(s, r', j)
    {
      assert RowValues(t, r') == Row(t, r').values && RowCols(t, r') == Row(t, r').cols;
      assert RowValues(s, r') == Row(s, r').values && RowCols(s, r') == Row(s, r').cols;
    }
  }

  // ---------------------------------------------------------------------------
  // place(row, col, value)

  /** Column `c` lies in lane c / N, a lane of the matrix, at slot c % N. */
  lemma ColumnLane(c: int, nCols: int)
    requires 0 <= c < nCols
    ensures 0 <= c / N < LanesFor(nCols) && 0 <= c % N < N && (c / N) * N + c % N == c
  {
    LaneOfIndex(c, LanesFor(nCols));
  }

  /**
   * The effect of place(r, c, v) on the arrays.  A non-zero value overwrites its slot
   * in the lane the scan finds, or goes into a new lane inserted there; a zero
   * overwrites an existing slot and the lane is erased when it becomes all zero; a zero
   * for a lane that is not stored changes nothing.
   */
  function PlaceSpec(s: Storage, r: int, c: int, v: real): (t: Storage)
    requires WellFormed(s) && 0 <= r < s.nRows && 0 <= c < s.nCols
    ensures Shape(t) && t.nRows == s.nRows && t.nCols == s.nCols
  {
    var vals := RowValues(s, r);
    var cols := RowCols(s, r);
    var j := c / N;
    var e := c % N;
    var p := Find(cols, j);
    if v != 0.0 then
      if p < |cols| && cols[p] == j then ReplaceRow(s, r, RowLanes(vals[p := vals[p][e := v]], cols))
      else ReplaceRow(s, r, RowLanes(vals[..p] + [Unit(e, v)] + vals[p..], cols[..p] + [j] + cols[p..]))
    else if p < |cols| && cols[p] == j then
      if vals[p][e := 0.0] == ZeroLane() then ReplaceRow(s, r, RowLanes(vals[..p] + vals[p + 1..], cols[..p] + cols[p + 1..]))
      else ReplaceRow(s, r, RowLanes(vals[p := vals[p][e := 0.0]], cols))
    else s
  }

  /** place changes lane c / N of row r at slot c % N, and no other lane. */
  lemma PlaceLanes(s: Storage, r: int, c: int, v: real)
    requires WellFormed(s) && 0 <= r < s.nRows && 0 <= c < s.nCols
    ensures forall r', j :: 0 <= r' < s.nRows ==>
              RowLane(PlaceSpec(s, r, c, v), r', j)
              == if r' == r && j == c / N then RowLane(s, r, j)[c % N := v] else RowLane(s, r', j)
  {
    var cols := RowCols(s, r);
    var p := Find(cols, c / N);
    if p < |cols| && cols[p] == c / N {
      PlaceLanesFound(s, r, c, v, p);
    } else if v != 0.0 {
      PlaceLanesInserted(s, r, c, v);
    } else {
      assert RowLane(s, r, c / N) == ZeroLane();
      assert ZeroLane()[c % N := 0.0] == ZeroLane();
    }
  }

  /** Splicing in a row whose lanes are those of row r with slot c % N of lane c / N set to v. */
  lemma PlaceLanesVia(s: Storage, r: int, c: int, v: real, row: RowLanes)
    requires WellFormed(s) && 0 <= r < s.nRows && 0 <= c < s.nCols && |row.values| == |row.cols|
    requires PlaceSpec(s, r, c, v) == ReplaceRow(s, r, row)
    requires forall j :: LaneAt(row.values, row.cols, j) == if j == c / N then RowLane(s, r, j)[c % N := v] else RowLane(s, r, j)
    ensures forall r', j :: 0 <= r' < s.nRows ==>
              RowLane(PlaceSpec(s, r, c, v), r', j)
              == if r' == r && j == c / N then RowLane(s, r, j)[c % N := v] else RowLane(s, r', j)
  {
    ReplaceRowLanes(s, r, row);
  }

  /** The lane is stored at position p: its slot is overwritten, or the lane erased. */
  lemma PlaceLanesFound(s: Storage, r: int, c: int, v: real, p: int)
    requires WellFormed(s) && 0 <= r < s.nRows && 0 <= c < s.nCols
    requires p == Find(RowCols(s, r), c / N) && p < |RowCols(s, r)| && RowCols(s, r)[p] == c / N
    ensures forall r', j :: 0 <= r' < s.nRows ==>
              RowLane(PlaceSpec(s, r, c, v), r', j)
              == if r' == r && j == c / N then RowLane(s, r, j)[c % N := v] else RowLane(s, r', j)
  {
    var vals := RowValues(s, r);
    var cols := RowCols(s, r);
    var e := c % N;
    assert Increasing(cols);
    assert RowLane(s, r, c / N) == vals[p];
    var row: RowLanes;
    if v == 0.0 && vals[p][e := 0.0] == ZeroLane() {
      row := RowLanes(vals[..p] + vals[p + 1..], cols[..p] + cols[p + 1..]);
      LaneAtDelete(vals, cols, p);
    } else {
      row := RowLanes(vals[p := vals[p][e := v]], cols);
      LaneAtUpdate(vals, cols, p, vals[p][e := v]);
    }
    PlaceLanesVia(s, r, c, v, row);
  }

  /** The lane is not stored and v is non-zero: a new lane goes in at the scan's position. */
  lemma PlaceLanesInserted(s: Storage, r: int, c: int, v: real)
    requires WellFormed(s) && 0 <= r < s.nRows && 0 <= c < s.nCols && v != 0.0
    requires var p := Find(RowCols(s, r), c / N); p == |RowCols(s, r)| || RowCols(s, r)[p] != c / N
    ensures forall r', j :: 0 <= r' < s.nRows ==>
              RowLane(PlaceSpec(s, r, c, v), r', j)
              == if r' == r && j == c / N then RowLane(s, r, j)[c % N := v] else RowLane(s, r', j)
  {
    var vals := RowValues(s, r);
    var cols := RowCols(s, r);
    var j := c / N;
    var e := c % N;
    var p := Find(cols, j);
    assert Increasing(cols);
    assert RowLane(s, r, j) == ZeroLane();
    assert ZeroLane()[e := v] == Unit(e, v);
    var row := RowLanes(vals[..p] + [Unit(e, v)] + vals[p..], cols[..p] + [j] + cols[p..]);
    LaneAtInsert(vals, cols, j, Unit(e, v), p);
    PlaceLanesVia(s, r, c, v, row);
  }

  /** The row-level view of the storage-wide conditions. */
  lemma RowConditions(s: Storage, r: int)
    requires WellFormed(s) && 0 <= r < s.nRows
    ensures Increasing(Row(s, r).cols) && LanesInRange(Row(s, r).cols, s.nCols)
    ensures ZeroPadding(s) ==> RowPadded(Row(s, r), s.nCols)
    ensures NoZeroLanes(s) ==> RowNoZero(Row(s, r))
  {
    var lo := s.rowPointers[r];
    assert forall k :: 0 <= k < |Row(s, r).values| ==>
      Row(s, r).values[k] == s.values[lo + k] && Row(s, r).cols[k] == s.colVectIndexes[lo + k];
  }

  /** Splicing in a row that satisfies the row-level conditions keeps all three. */
  lemma SpliceKeepsInvariants(s: Storage, r: int, row: RowLanes)
    requires WellFormed(s) && 0 <= r < s.nRows && |row.values| == |row.cols|
    requires Increasing(row.cols) && LanesInRange(row.cols, s.nCols)
    requires ZeroPadding(s) ==> RowPadded(row, s.nCols)
    requires NoZeroLanes(s) ==> RowNoZero(row)
    ensures WellFormed(ReplaceRow(s, r, row))
    ensures ZeroPadding(s) ==> ZeroPadding(ReplaceRow(s, r, row))
    ensures NoZeroLanes(s) ==> NoZeroLanes(ReplaceRow(s, r, row))
  {
    ReplaceRowWellFormed(s, r, row);
    if ZeroPadding(s) {
      ReplaceRowPadding(s, r, row);
    }
    if NoZeroLanes(s) {
      ReplaceRowNoZero(s, r, row);
    }
  }

  /** Overwriting slot `e` of a stored lane with a value of column below C. */
  lemma UpdatedRowConditions(row: RowLanes, nCols: int, p: int, e: int, v: real)
    requires |row.values| == |row.cols| && 0 <= p < |row.values| && 0 <= e < N
    requires row.cols[p] * N + e < nCols
    ensures RowPadded(row, nCols) ==> RowPadded(RowLanes(row.values[p := row.values[p][e := v]], row.cols), nCols)
    ensures RowNoZero(row) && (v != 0.0 || row.values[p][e := v] != ZeroLane()) ==>
              RowNoZero(RowLanes(row.values[p := row.values[p][e := v]], row.cols))
  {
    assert v != 0.0 ==> row.values[p][e := v][e] != 0.0;
  }

  /** Erasing a stored lane. */
  lemma ErasedRowConditions(row: RowLanes, nCols: nat, p: int)
    requires |row.values| == |row.cols| && 0 <= p < |row.values|
    ensures var nr := RowLanes(row.values[..p] + row.values[p + 1..], row.cols[..p] + row.cols[p + 1..]);
            && (LanesInRange(row.cols, nCols) ==> LanesInRange(nr.cols, nCols))
            && (RowPadded(row, nCols) ==> RowPadded(nr, nCols))
            && (RowNoZero(row) ==> RowNoZero(nr))
  {
    var nr := RowLanes(row.values[..p] + row.values[p + 1..], row.cols[..p] + row.cols[p + 1..]);
    assert forall k :: 0 <= k < |nr.values| ==>
      nr.values[k] == row.values[if k < p then k else k + 1] && nr.cols[k] == row.cols[if k < p then k else k + 1];
  }

  /** Inserting the lane of a single non-zero value of column below C. */
  lemma InsertedRowConditions(row: RowLanes, nCols: nat, p: int, j: int, e: int, v: real)
    requires |row.values| == |row.cols| && 0 <= p <= |row.values| && 0 <= e < N && v != 0.0
    requires 0 <= j < LanesFor(nCols) && j * N + e < nCols
    ensures var nr := RowLanes(row.values[..p] + [Unit(e, v)] + row.values[p..], row.cols[..p] + [j] + row.cols[p..]);
            && (LanesInRange(row.cols, nCols) ==> LanesInRange(nr.cols, nCols))
            && (RowPadded(row, nCols) ==> RowPadded(nr, nCols))
            && (RowNoZero(row) ==> RowNoZero(nr))
  {
    var nr := RowLanes(row.values[..p] + [Unit(e, v)] + row.values[p..], row.cols[..p] + [j] + row.cols[p..]);
    assert Unit(e, v)[e] != 0.0;
    assert forall k :: 0 <= k < |nr.values| ==>
      if k < p then nr.values[k] == row.values[k] && nr.cols[k] == row.cols[k]
      else if k == p then nr.values[k] == Unit(e, v) && nr.cols[k] == j
      else nr.values[k] == row.values[k - 1] && nr.cols[k] == row.cols[k - 1];
  }

  /** place keeps the CRS invariant, a zero padding and the absence of zero lanes. */
  lemma PlaceKeepsInvariants(s: Storage, r: int, c: int, v: real)
    requires WellFormed(s) && 0 <= r < s.nRows && 0 <= c < s.nCols
    ensures WellFormed(PlaceSpec(s, r, c, v))
    ensures ZeroPadding(s) ==> ZeroPadding(PlaceSpec(s, r, c, v))
    ensures NoZeroLanes(s) ==> NoZeroLanes(PlaceSpec(s, r, c, v))
  {
    var row := Row(s, r);
    var j := c / N;
    var e := c % N;
    var p := Find(row.cols, j);
    ColumnLane(c, s.nCols);
    RowConditions(s, r);
    if p < |row.cols| && row.cols[p] == j {
      if v == 0.0 && row.values[p][e := 0.0] == ZeroLane() {
        LaneAtDelete(row.values, row.cols, p);
        ErasedRowConditions(row, s.nCols, p);
        SpliceKeepsInvariants(s, r, RowLanes(row.values[..p] + row.values[p + 1..], row.cols[..p] + row.cols[p + 1..]));
      } else {
        UpdatedRowConditions(row, s.nCols, p, e, v);
        SpliceKeepsInvariants(s, r, RowLanes(row.values[p := row.values[p][e := v]], row.cols));
      }
    } else if v != 0.0 {
      InsertKeepsOrder(row.cols, j, p);
      InsertedRowConditions(row, s.nCols, p, j, e, v);
      SpliceKeepsInvariants(s, r, RowLanes(row.values[..p] + [Unit(e, v)] + row.values[p..], row.cols[..p] + [j] + row.cols[p..]));
    }
  }

  /**
   * After place(r, c, v), entry (r, c) is v and every other entry is unchanged; the
   * result is well formed.
   */
  lemma PlaceEntry(s: Storage, r: int, c: int, v: real)
    requires WellFormed(s) && 0 <= r < s.nRows && 0 <= c < s.nCols
    ensures WellFormed(PlaceSpec(s, r, c, v))
    ensures forall r', c' :: 0 <= r' < s.nRows && 0 <= c' < s.nCols ==>
              Entry(PlaceSpec(s, r, c, v), r', c') == if r' == r && c' == c then v else Entry(s, r', c')
  {
    PlaceKeepsInvariants(s, r, c, v);
    forall r', c' | 0 <= r' < s.nRows && 0 <= c' < s.nCols
      ensures Entry(PlaceSpec(s, r, c, v), r', c') == if r' == r && c' == c then v else Entry(s, r', c')
    {
      PlaceEntryAt(s, r, c, v, r', c');
    }
  }

  lemma PlaceEntryAt(s: Storage, r: int, c: int, v: real, r': int, c': int)
    requires WellFormed(s) && 0 <= r < s.nRows && 0 <= c < s.nCols
    requires 0 <= r' < s.nRows && 0 <= c' < s.nCols
    ensures Entry(PlaceSpec(s, r, c, v), r', c') == if r' == r && c' == c then v else Entry(s, r', c')
  {
    var t := PlaceSpec(s, r, c, v);
    PlaceLanes(s, r, c, v);
    ColumnLane(c', s.nCols);
    ColumnLane(c, s.nCols);
    assert Entry(t, r', c') == RowLane(t, r', c' / N)[c' % N];
    assert Entry(s, r', c') == RowLane(s, r', c' / N)[c' % N];
  }

  /** place as an update of the represented matrix. */
  lemma PlaceDense(s: Storage, r: int, c: int, v: real)
    requires WellFormed(s) && 0 <= r < s.nRows && 0 <= c < s.nCols
    ensures Dense(PlaceSpec(s, r, c, v)) == Dense(s)[r := Dense(s)[r][c := v]]
  {
    var t := PlaceSpec(s, r, c, v);
    var d := Dense(s)[r := Dense(s)[r][c := v]];
    forall r' | 0 <= r' < s.nRows ensures Dense(t)[r'] == d[r'] {
      forall c' | 0 <= c' < s.nCols ensures Dense(t)[r'][c'] == d[r'][c'] {
        PlaceEntryAt(s, r, c, v, r', c');
        DenseEntry(t, r', c');
        DenseEntry(s, r', c');
      }
    }
  }

  /** Placing a zero where no lane is stored leaves the arrays as they are. */
  lemma PlaceZeroAbsentIsNoop(s: Storage, r: int, c: int)
    requires WellFormed(s) && 0 <= r < s.nRows && 0 <= c < s.nCols
    requires forall k :: 0 <= k < |RowCols(s, r)| ==> RowCols(s, r)[k] != c / N
    ensures PlaceSpec(s, r, c, 0.0) == s
  {
  }

  /**
   * Placing a zero into a lane whose only non-zero is that slot erases the lane:
   * one lane fewer, and every later row pointer one less.
   */
  lemma PlaceZeroErasesLane(s: Storage, r: int, c: int)
    requires WellFormed(s) && 0 <= r < s.nRows && 0 <= c < s.nCols
    requires RowLane(s, r, c / N) != ZeroLane() && RowLane(s, r, c / N)[c % N := 0.0] == ZeroLane()
    ensures |PlaceSpec(s, r, c, 0.0).values| == |s.values| - 1
    ensures forall k :: r < k <= s.nRows ==> PlaceSpec(s, r, c, 0.0).rowPointers[k] == s.rowPointers[k] - 1
  {
    var cols := RowCols(s, r);
    var p := Find(cols, c / N);
    assert p < |cols| && cols[p] == c / N;
  }

  // ---------------------------------------------------------------------------
  // Storage laid out row after row

  predicate Aligned(rows: seq<RowLanes>)
  {
    forall r :: 0 <= r < |rows| ==> |rows[r].values| == |rows[r].cols|
  }

  /** The lanes of the rows, one row after another. */
  function AllValues(rows: seq<RowLanes>): seq<Lane>
  {
    if rows == [] then [] else AllValues(rows[..|rows| - 1]) + rows[|rows| - 1].values
  }

  function AllCols(rows: seq<RowLanes>): seq<int>
  {
    if rows == [] then [] else AllCols(rows[..|rows| - 1]) + rows[|rows| - 1].cols
  }

  /** Row pointers of rows laid out one after another: the lane count before each row. */
  function Offsets(rows: seq<RowLanes>): (p: seq<int>)
    ensures |p| == |rows| + 1
  {
    seq(|rows| + 1, k requires 0 <= k <= |rows| => |AllValues(rows[..k])|)
  }

  /** The arrays of a matrix with the given rows. */
  function FromRows(nCols: int, rows: seq<RowLanes>): Storage
  {
    Storage(|rows|, nCols, AllValues(rows), AllCols(rows), Offsets(rows))
  }

  /** Both the lanes and the indexes of a concatenation of rows split at any row. */
  lemma AllSplit(a: seq<RowLanes>, b: seq<RowLanes>)
    ensures AllValues(a + b) == AllValues(a) + AllValues(b)
    ensures AllCols(a + b) == AllCols(a) + AllCols(b)
  {
    AllValuesSplit(a, b);
    AllColsSplit(a, b);
  }

  lemma {:induction false} AllValuesSplit(a: seq<RowLanes>, b: seq<RowLanes>)
    ensures AllValues(a + b) == AllValues(a) + AllValues(b)
    decreases |b|
  {
    if b == [] {
      assert a + b == a;
    } else {
      var n := |b| - 1;
      assert (a + b)[..|a + b| - 1] == a + b[..n];
      AllValuesSplit(a, b[..n]);
      AppendAssoc(AllValues(a), AllValues(b[..n]), b[n].values);
    }
  }

  lemma {:induction false} AllColsSplit(a: seq<RowLanes>, b: seq<RowLanes>)
    ensures AllCols(a + b) == AllCols(a) + AllCols(b)
    decreases |b|
  {
    if b == [] {
      assert a + b == a;
    } else {
      var n := |b| - 1;
      assert (a + b)[..|a + b| - 1] == a + b[..n];
      AllColsSplit(a, b[..n]);
      AppendAssoc(AllCols(a), AllCols(b[..n]), b[n].cols);
    }
  }

  lemma AppendAssoc<T>(x: seq<T>, y: seq<T>, z: seq<T>)
    ensures x + y + z == x + (y + z)
  {
  }

  /** A prefix one element longer. */
  lemma TakeNext<T>(xs: seq<T>, k: int)
    requires 0 <= k < |xs|
    ensures xs[..k + 1] == xs[..k] + [xs[k]]
  {
  }

  lemma TakeAll<T>(xs: seq<T>)
    ensures xs[..|xs|] == xs
  {
  }

  /** With every row aligned, the lanes and indexes of the rows are equally long. */
  lemma {:induction false} AllAligned(rows: seq<RowLanes>)
    requires Aligned(rows)
    ensures |AllValues(rows)| == |AllCols(rows)|
  {
    if rows != [] {
      AllAligned(rows[..|rows| - 1]);
    }
  }

  /** Rows laid out one after another form a storage whose row r is rows[r]. */
  lemma FromRowsRows(nCols: int, rows: seq<RowLanes>)
    requires |rows| >= 1 && nCols >= 1 && Aligned(rows)
    ensures Shape(FromRows(nCols, rows))
    ensures forall r :: 0 <= r < |rows| ==> Row(FromRows(nCols, rows), r) == rows[r]
  {
    var t := FromRows(nCols, rows);
    AllAligned(rows);
    assert rows[..|rows|] == rows;
    forall a, b | 0 <= a <= b <= |rows| ensures t.rowPointers[a] <= t.rowPointers[b] {
      OffsetsMonotone(rows, a, b);
    }
    forall r | 0 <= r < |rows| ensures Row(t, r) == rows[r] {
      OffsetsSlice(rows, r);
    }
  }

  /** The lane count before row a is at most the one before row b. */
  lemma OffsetsMonotone(rows: seq<RowLanes>, a: int, b: int)
    requires 0 <= a <= b <= |rows|
    ensures Offsets(rows)[a] <= Offsets(rows)[b]
  {
    assert rows[..b] == rows[..a] + rows[a..b];
    AllSplit(rows[..a], rows[a..b]);
  }

  /** Between its two offsets the laid-out arrays hold exactly row r. */
  lemma OffsetsSlice(rows: seq<RowLanes>, r: int)
    requires 0 <= r < |rows| && Aligned(rows)
    ensures var o := Offsets(rows);
            o[r] <= o[r + 1] <= |AllValues(rows)| && |AllCols(rows)| == |AllValues(rows)|
            && AllValues(rows)[o[r]..o[r + 1]] == rows[r].values
            && AllCols(rows)[o[r]..o[r + 1]] == rows[r].cols
  {
    var pre, row, post := rows[..r], rows[r], rows[r + 1..];
    assert rows == pre + [row] + post;
    assert rows[..r + 1] == pre + [row] + [];
    AllAround(pre, row, post);
    AllAround(pre, row, []);
    AllAligned(pre);
    AllAligned(rows);
    var lo, hi := |AllValues(pre)|, |AllValues(pre)| + |row.values|;
    assert AllValues(rows)[lo..hi] == row.values;
    assert AllCols(rows)[lo..hi] == row.cols;
  }

  /** The lanes and indexes of rows around one row: those before, the row's, those after. */
  lemma AllAround(pre: seq<RowLanes>, row: RowLanes, post: seq<RowLanes>)
    ensures AllValues(pre + [row] + post) == AllValues(pre) + row.values + AllValues(post)
    ensures AllCols(pre + [row] + post) == AllCols(pre) + row.cols + AllCols(post)
  {
    AllSplit(pre + [row], post);
    AllSplit(pre, [row]);
    assert [row][..0] == [];
  }

  /** Concatenating two index sequences of in-range lanes. */
  lemma ConcatConditions(a: RowLanes, b: RowLanes, nCols: nat)
    requires |a.values| == |a.cols| && |b.values| == |b.cols|
    ensures var ab := RowLanes(a.values + b.values, a.cols + b.cols);
            && (LanesInRange(a.cols, nCols) && LanesInRange(b.cols, nCols) ==> LanesInRange(ab.cols, nCols))
            && (RowPadded(a, nCols) && RowPadded(b, nCols) ==> RowPadded(ab, nCols))
            && (RowNoZero(a) && RowNoZero(b) ==> RowNoZero(ab))
  {
    var ab := RowLanes(a.values + b.values, a.cols + b.cols);
    assert forall k :: 0 <= k < |ab.values| ==>
      if k < |a.values| then ab.values[k] == a.values[k] && ab.cols[k] == a.cols[k]
      else ab.values[k] == b.values[k - |a.values|] && ab.cols[k] == b.cols[k - |a.values|];
  }

  /** The storage-wide conditions of rows laid out one after another follow from the rows'. */
  lemma {:induction false} AllConditions(rows: seq<RowLanes>, nCols: nat)
    requires Aligned(rows)
    ensures |AllValues(rows)| == |AllCols(rows)|
    ensures (forall r :: 0 <= r < |rows| ==> LanesInRange(rows[r].cols, nCols)) ==> LanesInRange(AllCols(rows), nCols)
    ensures (forall r :: 0 <= r < |rows| ==> RowPadded(rows[r], nCols)) ==> RowPadded(RowLanes(AllValues(rows), AllCols(rows)), nCols)
    ensures (forall r :: 0 <= r < |rows| ==> RowNoZero(rows[r])) ==> RowNoZero(RowLanes(AllValues(rows), AllCols(rows)))
  {
    AllAligned(rows);
    if rows != [] {
      var m := |rows| - 1;
      AllConditions(rows[..m], nCols);
      ConcatConditions(RowLanes(AllValues(rows[..m]), AllCols(rows[..m])), rows[m], nCols);
    }
  }

  /**
   * Rows that are each ordered, in range, zero-padded and free of zero lanes give a
   * canonical storage.
   */
  lemma FromRowsCanonical(nCols: int, rows: seq<RowLanes>)
    requires |rows| >= 1 && nCols >= 1 && Aligned(rows)
    requires forall r :: 0 <= r < |rows| ==> Increasing(rows[r].cols) && LanesInRange(rows[r].cols, nCols)
    ensures WellFormed(FromRows(nCols, rows))
    ensures (forall r :: 0 <= r < |rows| ==> RowPadded(rows[r], nCols)) ==> ZeroPadding(FromRows(nCols, rows))
    ensures (forall r :: 0 <= r < |rows| ==> RowNoZero(rows[r])) ==> NoZeroLanes(FromRows(nCols, rows))
  {
    FromRowsRows(nCols, rows);
    AllConditions(rows, nCols);
    var t := FromRows(nCols, rows);
    forall r | 0 <= r < |rows| ensures Increasing(RowCols(t, r)) {
      assert RowCols(t, r) == Row(t, r).cols;
    }
  }

  /** The lane of a row of a storage built from rows is read from that row. */
  lemma FromRowsLanes(nCols: int, rows: seq<RowLanes>)
    requires |rows| >= 1 && nCols >= 1 && Aligned(rows)
    ensures Shape(FromRows(nCols, rows))
    ensures forall r, j :: 0 <= r < |rows| ==> RowLane(FromRows(nCols, rows), r, j) == LaneAt(rows[r].values, rows[r].cols, j)
  {
    FromRowsRows(nCols, rows);
    var t := FromRows(nCols, rows);
    forall r, j | 0 <= r < |rows| ensures RowLane(t, r, j) == LaneAt(rows[r].values, rows[r].cols, j) {
      assert RowValues(t, r) == Row(t, r).values && RowCols(t, r) == Row(t, r).cols;
    }
  }

  /** A storage is its own rows laid out one after another. */
  lemma StorageIsRows(s: Storage)
    requires Shape(s)
    ensures s == FromRows(s.nCols, seq(s.nRows, r requires 0 <= r < s.nRows => Row(s, r)))
  {
    var rows := seq(s.nRows, r requires 0 <= r < s.nRows => Row(s, r));
    forall k | 0 <= k <= s.nRows
      ensures AllValues(rows[..k]) == s.values[..s.rowPointers[k]] && AllCols(rows[..k]) == s.colVectIndexes[..s.rowPointers[k]]
    {
      PrefixIsRows(s, rows, k);
    }
    assert rows[..s.nRows] == rows;
    assert s.values[..s.rowPointers[s.nRows]] == s.values;
    assert s.colVectIndexes[..s.rowPointers[s.nRows]] == s.colVectIndexes;
  }

  lemma {:induction false} PrefixIsRows(s: Storage, rows: seq<RowLanes>, k: int)
    requires Shape(s) && |rows| == s.nRows && 0 <= k <= s.nRows
    requires forall r :: 0 <= r < s.nRows ==> rows[r] == Row(s, r)
    ensures AllValues(rows[..k]) == s.values[..s.rowPointers[k]] && AllCols(rows[..k]) == s.colVectIndexes[..s.rowPointers[k]]
  {
    if k > 0 {
      PrefixIsRows(s, rows, k - 1);
      assert rows[..k][..k - 1] == rows[..k - 1];
      var a := s.rowPointers[k - 1];
      var b := s.rowPointers[k];
      assert s.values[..b] == s.values[..a] + s.values[a..b];
      assert s.colVectIndexes[..b] == s.colVectIndexes[..a] + s.colVectIndexes[a..b];
    }
  }

  // ---------------------------------------------------------------------------
  // Packing the entries of a row into lanes

  /**
   * One step of the row builders (the triplet constructor, naiveTranspose and
   * the dense constructor): a zero is skipped; a value whose lane was the last one
   * added goes into that lane; otherwise a new lane holding only the value is added.
   */
  function Push(row: RowLanes, c: int, v: real): (t: RowLanes)
    requires |row.values| == |row.cols| && c >= 0
    ensures |t.values| == |t.cols|
  {
    var m := |row.values|;
    if v == 0.0 then row
    else if m > 0 && row.cols[m - 1] == c / N then RowLanes(row.values[m - 1 := row.values[m - 1][c % N := v]], row.cols)
    else RowLanes(row.values + [Unit(c % N, v)], row.cols + [c / N])
  }

  /** The row built from the entries (cs[k], vs[k]) in their order. */
  function PackEntries(cs: seq<int>, vs: seq<real>): (row: RowLanes)
    requires |cs| == |vs| && forall k :: 0 <= k < |cs| ==> cs[k] >= 0
    ensures |row.values| == |row.cols|
  {
    if cs == [] then RowLanes([], [])
    else Push(PackEntries(cs[..|cs| - 1], vs[..|vs| - 1]), cs[|cs| - 1], vs[|vs| - 1])
  }

  /** The value the entry list gives column `c`: the last entry for it, or zero. */
  function ValueAt(cs: seq<int>, vs: seq<real>, c: int): (v: real)
    requires |cs| == |vs|
    ensures (forall k :: 0 <= k < |cs| ==> cs[k] != c) ==> v == 0.0
    ensures forall k :: 0 <= k < |cs| && cs[k] == c && (forall k' :: k < k' < |cs| ==> cs[k'] != c) ==> v == vs[k]
  {
    if cs == [] then 0.0
    else if cs[|cs| - 1] == c then vs[|vs| - 1]
    else ValueAt(cs[..|cs| - 1], vs[..|vs| - 1], c)
  }

  /** Two columns are equal exactly when their lanes and slots are. */
  lemma SameColumn(c: int, c': int)
    requires 0 <= c && 0 <= c'
    ensures c' == c <==> c' / N == c / N && c' % N == c % N
  {
    assert c == (c / N) * N + c % N && c' == (c' / N) * N + c' % N;
  }

  /** A Push of a column beyond every lane of the row keeps the row's conditions. */
  lemma PushConditions(row: RowLanes, c: int, v: real, nCols: nat)
    requires |row.values| == |row.cols| && Increasing(row.cols) && LanesInRange(row.cols, nCols)
    requires RowPadded(row, nCols) && RowNoZero(row)
    requires 0 <= c < nCols && forall k :: 0 <= k < |row.cols| ==> row.cols[k] <= c / N
    ensures var t := Push(row, c, v);
            && Increasing(t.cols) && LanesInRange(t.cols, nCols) && RowPadded(t, nCols) && RowNoZero(t)
            && (forall k :: 0 <= k < |t.cols| ==> t.cols[k] <= c / N)
  {
    var n := |row.values|;
    var j := c / N;
    ColumnLane(c, nCols);
    if v == 0.0 {
    } else if n > 0 && row.cols[n - 1] == j {
      UpdatedRowConditions(row, nCols, n - 1, c % N, v);
    } else {
      FindIs(row.cols, j, n);
      assert row.values[..n] + [Unit(c % N, v)] + row.values[n..] == row.values + [Unit(c % N, v)];
      assert row.cols[..n] + [j] + row.cols[n..] == row.cols + [j];
      InsertKeepsOrder(row.cols, j, n);
      InsertedRowConditions(row, nCols, n, j, c % N, v);
    }
  }

  /** Push into the lane last added changes only the pushed column. */
  lemma PushIntoLastLane(row: RowLanes, c: int, v: real)
    requires |row.values| == |row.cols| && Increasing(row.cols) && 0 <= c && v != 0.0
    requires |row.cols| > 0 && row.cols[|row.cols| - 1] == c / N
    ensures var t := Push(row, c, v);
            forall c' :: 0 <= c' ==> LaneAt(t.values, t.cols, c' / N)[c' % N]
                                     == if c' == c then v else LaneAt(row.values, row.cols, c' / N)[c' % N]
  {
    var n := |row.values|;
    var l := row.values[n - 1];
    var t := Push(row, c, v);
    assert t == RowLanes(row.values[n - 1 := l[c % N := v]], row.cols);
    LaneAtUpdate(row.values, row.cols, n - 1, l[c % N := v]);
    forall c' | 0 <= c'
      ensures LaneAt(t.values, t.cols, c' / N)[c' % N] == if c' == c then v else LaneAt(row.values, row.cols, c' / N)[c' % N]
    {
      SameColumn(c, c');
    }
  }

  /**
   * Push of a column whose lane lies beyond every lane of the row adds a lane holding
   * just that value.
   */
  lemma PushNewLane(row: RowLanes, c: int, v: real)
    requires |row.values| == |row.cols| && Increasing(row.cols) && 0 <= c && v != 0.0
    requires forall k :: 0 <= k < |row.cols| ==> row.cols[k] < c / N
    ensures var t := Push(row, c, v);
            forall c' :: 0 <= c' ==> LaneAt(t.values, t.cols, c' / N)[c' % N]
                                     == if c' == c then v else LaneAt(row.values, row.cols, c' / N)[c' % N]
  {
    var n := |row.values|;
    var j := c / N;
    var t := Push(row, c, v);
    assert t == RowLanes(row.values + [Unit(c % N, v)], row.cols + [j]);
    FindIs(row.cols, j, n);
    assert row.values[..n] + [Unit(c % N, v)] + row.values[n..] == row.values + [Unit(c % N, v)];
    assert row.cols[..n] + [j] + row.cols[n..] == row.cols + [j];
    LaneAtInsert(row.values, row.cols, j, Unit(c % N, v), n);
    assert LaneAt(row.values, row.cols, j) == ZeroLane();
    forall c' | 0 <= c'
      ensures LaneAt(t.values, t.cols, c' / N)[c' % N] == if c' == c then v else LaneAt(row.values, row.cols, c' / N)[c' % N]
    {
      SameColumn(c, c');
    }
  }

  /**
   * A Push of a column beyond every lane of the row, whose element is still zero, sets
   * that element and no other.
   */
  lemma PushLookup(row: RowLanes, c: int, v: real)
    requires |row.values| == |row.cols| && Increasing(row.cols)
    requires 0 <= c && forall k :: 0 <= k < |row.cols| ==> row.cols[k] <= c / N
    requires LaneAt(row.values, row.cols, c / N)[c % N] == 0.0
    ensures var t := Push(row, c, v);
            forall c' :: 0 <= c' ==> LaneAt(t.values, t.cols, c' / N)[c' % N]
                                     == if c' == c then v else LaneAt(row.values, row.cols, c' / N)[c' % N]
  {
    var n := |row.values|;
    if v == 0.0 {
    } else if n > 0 && row.cols[n - 1] == c / N {
      PushIntoLastLane(row, c, v);
    } else {
      assert forall k :: 0 <= k < n ==> row.cols[k] < c / N by {
        if n > 0 {
          assert forall k :: 0 <= k < n - 1 ==> row.cols[k] < row.cols[n - 1];
        }
      }
      PushNewLane(row, c, v);
    }
  }

  /**
   * Packing entries with strictly increasing columns in [0, C) gives an ordered,
   * in-range, zero-padded row without zero lanes, whose element c is the entry for c
   * (zero for a column without one).
   */
  lemma PackEntriesLookup(cs: seq<int>, vs: seq<real>, nCols: nat)
    requires |cs| == |vs| && Increasing(cs)
    requires forall k :: 0 <= k < |cs| ==> 0 <= cs[k] < nCols
    ensures var row := PackEntries(cs, vs);
            && Increasing(row.cols) && LanesInRange(row.cols, nCols)
            && RowPadded(row, nCols) && RowNoZero(row)
            && (|cs| > 0 ==> forall k :: 0 <= k < |row.cols| ==> row.cols[k] <= cs[|cs| - 1] / N)
            && forall c :: 0 <= c ==> LaneAt(row.values, row.cols, c / N)[c % N] == ValueAt(cs, vs, c)
  {
    PackEntriesConditions(cs, vs, nCols);
    PackEntriesValues(cs, vs, nCols);
  }

  lemma {:induction false} PackEntriesConditions(cs: seq<int>, vs: seq<real>, nCols: nat)
    requires |cs| == |vs| && Increasing(cs)
    requires forall k :: 0 <= k < |cs| ==> 0 <= cs[k] < nCols
    ensures Increasing(PackEntries(cs, vs).cols) && LanesInRange(PackEntries(cs, vs).cols, nCols)
    ensures RowPadded(PackEntries(cs, vs), nCols) && RowNoZero(PackEntries(cs, vs))
    ensures |cs| > 0 ==> forall k :: 0 <= k < |PackEntries(cs, vs).cols| ==> PackEntries(cs, vs).cols[k] <= cs[|cs| - 1] / N
  {
    if cs != [] {
      var m := |cs| - 1;
      var pc := cs[..m];
      var pv := vs[..m];
      PackEntriesConditions(pc, pv, nCols);
      var row := PackEntries(pc, pv);
      var c := cs[m];
      PackedBelowLast(cs, vs, row);
      assert PackEntries(cs, vs) == Push(row, c, vs[m]);
      PushConditions(row, c, vs[m], nCols);
    }
  }

  /** The lanes packed from all but the last entry lie at or before the last entry's lane. */
  lemma PackedBelowLast(cs: seq<int>, vs: seq<real>, row: RowLanes)
    requires |cs| == |vs| && |cs| > 0 && Increasing(cs) && forall k :: 0 <= k < |cs| ==> cs[k] >= 0
    requires row == PackEntries(cs[..|cs| - 1], vs[..|cs| - 1])
    requires |cs| > 1 ==> forall k :: 0 <= k < |row.cols| ==> row.cols[k] <= cs[|cs| - 2] / N
    ensures forall k :: 0 <= k < |row.cols| ==> row.cols[k] <= cs[|cs| - 1] / N
  {
    var m := |cs| - 1;
    if m > 0 {
      assert cs[m - 1] <= cs[m];
      assert cs[m - 1] / N <= cs[m] / N;
    } else {
      assert cs[..m] == [] && vs[..m] == [];
      assert row.cols == [];
    }
  }

  lemma {:induction false} PackEntriesValues(cs: seq<int>, vs: seq<real>, nCols: nat)
    requires |cs| == |vs| && Increasing(cs)
    requires forall k :: 0 <= k < |cs| ==> 0 <= cs[k] < nCols
    ensures forall c :: 0 <= c ==> LaneAt(PackEntries(cs, vs).values, PackEntries(cs, vs).cols, c / N)[c % N] == ValueAt(cs, vs, c)
  {
    if cs != [] {
      var m := |cs| - 1;
      var pc := cs[..m];
      var pv := vs[..m];
      PackEntriesValues(pc, pv, nCols);
      PackEntriesConditions(pc, pv, nCols);
      var row := PackEntries(pc, pv);
      var c := cs[m];
      PackedBelowLast(cs, vs, row);
      assert forall k :: 0 <= k < m ==> pc[k] != c;
      assert PackEntries(cs, vs) == Push(row, c, vs[m]);
      PushLookup(row, c, vs[m]);
      assert forall c' :: ValueAt(cs, vs, c') == if c' == c then vs[m] else ValueAt(pc, pv, c');
    }
  }

  /** 0, 1, ..., n - 1: the columns of a dense row in order. */
  function Range(n: nat): (r: seq<int>)
    ensures |r| == n && forall k :: 0 <= k < n ==> r[k] == k
  {
    seq(n, k requires 0 <= k < n => k)
  }

  /** A dense row packs into a row whose element c is the row's element c. */
  lemma PackDense(vs: seq<real>, nCols: nat)
    requires |vs| <= nCols
    ensures var row := PackEntries(Range(|vs|), vs);
            && Increasing(row.cols) && LanesInRange(row.cols, nCols)
            && RowPadded(row, nCols) && RowNoZero(row)
            && forall c :: 0 <= c < |vs| ==> LaneAt(row.values, row.cols, c / N)[c % N] == vs[c]
  {
    PackEntriesLookup(Range(|vs|), vs, nCols);
    forall c | 0 <= c < |vs| ensures ValueAt(Range(|vs|), vs, c) == vs[c] {
      assert Range(|vs|)[c] == c;
    }
  }

  // ---------------------------------------------------------------------------
  // The transpose

  /** Column c of the matrix, top to bottom. */
  function Column(s: Storage, c: int): (col: seq<real>)
    requires Shape(s) && 0 <= c
    ensures |col| == s.nRows && forall r :: 0 <= r < s.nRows ==> col[r] == Entry(s, r, c)
  {
    seq(s.nRows, r requires 0 <= r < s.nRows => Entry(s, r, c))
  }

  /** Row c of the transpose as naiveTranspose builds it: column c packed by row. */
  function TransposeRow(s: Storage, c: int): RowLanes
    requires Shape(s) && 0 <= c
  {
    PackEntries(Range(s.nRows), Column(s, c))
  }

  function TransposeRows(s: Storage): (rows: seq<RowLanes>)
    requires Shape(s)
    ensures |rows| == s.nCols && Aligned(rows)
  {
    seq(s.nCols, c requires 0 <= c < s.nCols => TransposeRow(s, c))
  }

  /** The arrays naiveTranspose builds: C rows of R columns, one per column. */
  function TransposeSpec(s: Storage): (t: Storage)
    requires Shape(s)
    ensures t.nRows == s.nCols && t.nCols == s.nRows
  {
    FromRows(s.nRows, TransposeRows(s))
  }

  /** Each row of the transpose is ordered, in range, padded, free of zero lanes, and reads back its column. */
  lemma TransposeRowsConditions(s: Storage)
    requires Shape(s)
    ensures var rows := TransposeRows(s);
            forall c :: 0 <= c < s.nCols ==>
              && Increasing(rows[c].cols) && LanesInRange(rows[c].cols, s.nRows)
              && RowPadded(rows[c], s.nRows) && RowNoZero(rows[c])
              && forall r :: 0 <= r < s.nRows ==> LaneAt(rows[c].values, rows[c].cols, r / N)[r % N] == Column(s, c)[r]
  {
    var rows := TransposeRows(s);
    forall c | 0 <= c < s.nCols
      ensures Increasing(rows[c].cols) && LanesInRange(rows[c].cols, s.nRows)
      ensures RowPadded(rows[c], s.nRows) && RowNoZero(rows[c])
      ensures forall r :: 0 <= r < s.nRows ==> LaneAt(rows[c].values, rows[c].cols, r / N)[r % N] == Column(s, c)[r]
    {
      PackDense(Column(s, c), s.nRows);
    }
  }

  /** Entry (c, r) of naiveTranspose's arrays is entry (r, c) of the matrix. */
  lemma TransposeSpecEntries(s: Storage)
    requires Shape(s)
    ensures Shape(TransposeSpec(s))
    ensures forall c, r :: 0 <= c < s.nCols && 0 <= r < s.nRows ==> Entry(TransposeSpec(s), c, r) == Entry(s, r, c)
  {
    var rows := TransposeRows(s);
    var t := TransposeSpec(s);
    TransposeRowsConditions(s);
    FromRowsLanes(s.nRows, rows);
    forall c, r | 0 <= c < s.nCols && 0 <= r < s.nRows ensures Entry(t, c, r) == Entry(s, r, c) {
      assert Entry(t, c, r) == RowLane(t, c, r / N)[r % N];
    }
  }

  /** naiveTranspose gives a canonical storage of the transpose. */
  lemma TransposeSpecDense(s: Storage)
    requires Shape(s)
    ensures Canonical(TransposeSpec(s))
    ensures Dense(TransposeSpec(s)) == Transpose(Dense(s), s.nCols)
  {
    var t := TransposeSpec(s);
    TransposeRowsConditions(s);
    FromRowsCanonical(s.nRows, TransposeRows(s));
    TransposeSpecEntries(s);
    forall c | 0 <= c < s.nCols ensures Dense(t)[c] == Transpose(Dense(s), s.nCols)[c] {
      assert forall r :: 0 <= r < s.nRows ==> Dense(t)[c][r] == Entry(s, r, c);
    }
  }

  /** Row pointers from the lane counts of the rows: the cumulative sums. */
  function CumulativePointers(counts: seq<nat>): (p: seq<int>)
    ensures |p| == |counts| + 1 && p[0] == 0
    ensures forall k :: 0 <= k < |counts| ==> p[k + 1] == p[k] + counts[k]
  {
    if counts == [] then [0]
    else
      var q := CumulativePointers(counts[..|counts| - 1]);
      q + [q[|q| - 1] + counts[|counts| - 1]]
  }

  /** The lane count of every row. */
  function LaneCounts(rows: seq<RowLanes>): (counts: seq<nat>)
    ensures |counts| == |rows|
  {
    seq(|rows|, k requires 0 <= k < |rows| => |rows[k].values|)
  }

  /** Rows laid out one after another are pointed to by the cumulative lane counts. */
  lemma OffsetsAreCumulative(rows: seq<RowLanes>)
    ensures Offsets(rows) == CumulativePointers(LaneCounts(rows))
  {
    var o := Offsets(rows);
    var p := CumulativePointers(LaneCounts(rows));
    forall k | 0 <= k <= |rows| ensures o[k] == p[k] {
      OffsetAt(rows, k);
    }
  }

  lemma {:induction false} OffsetAt(rows: seq<RowLanes>, k: nat)
    requires k <= |rows|
    ensures Offsets(rows)[k] == CumulativePointers(LaneCounts(rows))[k]
  {
    if k > 0 {
      OffsetAt(rows, k - 1);
      assert rows[..k] == rows[..k - 1] + [rows[k - 1]];
      AllSplit(rows[..k - 1], [rows[k - 1]]);
      assert [rows[k - 1]][..0] == [];
    }
  }

  /**
   * The row pointers the fast transpose publishes, as its count, prefix-sum, scatter
   * and final increment passes leave them: the prefix-sum pass sets entry k + 1 to the
   * start of row k; the scatter pass adds one for every lane of row k after its first;
   * the final pass adds one to every entry past the first.  A row without lanes thus
   * still gets one.
   */
  function TransposePointersAsWritten(counts: seq<nat>): (p: seq<int>)
    ensures |p| == |counts| + 1
  {
    var start := CumulativePointers(counts);
    seq(|counts| + 1, k requires 0 <= k <= |counts| =>
      if k == 0 then 0 else start[k - 1] + (if counts[k - 1] >= 1 then counts[k - 1] else 1))
  }

  /** The fast transpose's pointers are right exactly when no row of the transpose is empty. */
  lemma TransposePointersAsWrittenIff(counts: seq<nat>)
    ensures TransposePointersAsWritten(counts) == CumulativePointers(counts)
            <==> forall k :: 0 <= k < |counts| ==> counts[k] >= 1
  {
    if forall k :: 0 <= k < |counts| ==> counts[k] >= 1 {
      TransposePointersAgree(counts);
    } else {
      var k :| 0 <= k < |counts| && counts[k] < 1;
      TransposePointersDiffer(counts, k);
    }
  }

  lemma TransposePointersAgree(counts: seq<nat>)
    requires forall k :: 0 <= k < |counts| ==> counts[k] >= 1
    ensures TransposePointersAsWritten(counts) == CumulativePointers(counts)
  {
    var a := TransposePointersAsWritten(counts);
    var p := CumulativePointers(counts);
    forall k | 0 <= k <= |counts| ensures a[k] == p[k] {
      if k > 0 {
        assert a[k] == p[k - 1] + counts[k - 1];
        assert p[k] == p[k - 1] + counts[k - 1];
      } else {
        assert a[0] == 0 == p[0];
      }
    }
  }

  lemma TransposePointersDiffer(counts: seq<nat>, k: int)
    requires 0 <= k < |counts| && counts[k] == 0
    ensures TransposePointersAsWritten(counts)[k + 1] == CumulativePointers(counts)[k + 1] + 1
  {
  }

  /** The storage the fast transpose returns: naiveTranspose's arrays with its own pointers. */
  function FastTransposeAsWritten(s: Storage): (t: Storage)
    requires Shape(s)
  {
    var t := TransposeSpec(s);
    t.(rowPointers := TransposePointersAsWritten(LaneCounts(TransposeRows(s))))
  }

  /** It agrees with naiveTranspose exactly when every column of the matrix holds a non-zero. */
  lemma FastTransposeAsWrittenIff(s: Storage)
    requires Shape(s)
    ensures FastTransposeAsWritten(s) == TransposeSpec(s)
            <==> forall c :: 0 <= c < s.nCols ==> |TransposeRow(s, c).values| >= 1
  {
    var rows := TransposeRows(s);
    var t := FromRows(s.nRows, rows);
    assert TransposeSpec(s) == t;
    assert FastTransposeAsWritten(s) == t.(rowPointers := TransposePointersAsWritten(LaneCounts(rows)));
    FastPointersIff(s.nRows, rows);
    forall c | 0 <= c < s.nCols ensures |rows[c].values| == |TransposeRow(s, c).values| {
      TransposeRowsAt(s, c);
    }
  }

  lemma TransposeRowsAt(s: Storage, c: int)
    requires Shape(s) && 0 <= c < s.nCols
    ensures TransposeRows(s)[c] == TransposeRow(s, c)
  {
  }

  /** Rows laid out with the fast transpose's pointers read back right exactly when none is empty. */
  lemma FastPointersIff(nCols: int, rows: seq<RowLanes>)
    ensures var t := FromRows(nCols, rows);
            t.(rowPointers := TransposePointersAsWritten(LaneCounts(rows))) == t
            <==> forall k :: 0 <= k < |rows| ==> |rows[k].values| >= 1
  {
    var counts := LaneCounts(rows);
    OffsetsAreCumulative(rows);
    TransposePointersAsWrittenIff(counts);
    assert forall k :: 0 <= k < |rows| ==> counts[k] == |rows[k].values|;
  }

  lemma AllOfTwo(a: RowLanes, b: RowLanes)
    ensures AllValues([a, b]) == a.values + b.values && AllCols([a, b]) == a.cols + b.cols
  {
    assert [a, b][..1] == [a] && [a][..0] == [];
    assert AllValues([a]) == [] + a.values == a.values;
    assert AllCols([a]) == [] + a.cols == a.cols;
  }

  /** The 1 x 2 matrix [[0, 1]], stored as one lane. */
  function RowVector(): (s: Storage)
    ensures Shape(s) && s.nRows == 1 && s.nCols == 2
  {
    Storage(1, 2, [Unit(1, 1.0)], [0], [0, 1])
  }

  lemma RowVectorStorage()
    ensures Dense(RowVector()) == [[0.0, 1.0]] && Column(RowVector(), 0) == [0.0] && Column(RowVector(), 1) == [1.0]
  {
    assert N == 4;
    var s := RowVector();
    assert Row(s, 0) == RowLanes([Unit(1, 1.0)], [0]);
    assert RowLane(s, 0, 0) == Unit(1, 1.0);
    assert Entry(s, 0, 0) == 0.0 && Entry(s, 0, 1) == 1.0;
    assert Dense(s)[0] == [0.0, 1.0];
  }

  /** A single entry in column 0 packs into one lane, or none when it is zero. */
  lemma PackSingle(v: real)
    ensures PackEntries([0], [v]) == if v == 0.0 then RowLanes([], []) else RowLanes([Unit(0, v)], [0])
  {
    assert [0][..0] == [] && [v][..0] == [];
  }

  /** Column 0 of [[0, 1]] packs to no lanes. */
  lemma RowVectorTransposeRow0()
    ensures TransposeRow(RowVector(), 0) == RowLanes([], [])
  {
    RowVectorStorage();
    assert Range(1) == [0];
    PackSingle(0.0);
  }

  /** Column 1 of [[0, 1]] packs to the one lane [1, 0, 0, 0]. */
  lemma RowVectorTransposeRow1()
    ensures TransposeRow(RowVector(), 1) == RowLanes([Unit(0, 1.0)], [0])
  {
    RowVectorStorage();
    assert Range(1) == [0];
    PackSingle(1.0);
  }

  /** The rows of the transpose of [[0, 1]]. */
  lemma RowVectorTransposeRows()
    ensures TransposeRows(RowVector()) == [RowLanes([], []), RowLanes([Unit(0, 1.0)], [0])]
  {
    RowVectorTransposeRow0();
    RowVectorTransposeRow1();
  }

  /** The 2 x 1 storage whose only lane is row 0's. */
  function MisplacedColumn(): (t: Storage)
    ensures Shape(t) && t.nRows == 2 && t.nCols == 1
  {
    Storage(2, 1, [Unit(0, 1.0)], [0], [0, 1, 1])
  }

  lemma MisplacedColumnDense()
    ensures Dense(MisplacedColumn()) == [[1.0], [0.0]]
  {
    assert N == 4;
    var t := MisplacedColumn();
    assert Row(t, 0) == RowLanes([Unit(0, 1.0)], [0]);
    assert Row(t, 1) == RowLanes([], []);
    assert Entry(t, 0, 0) == 1.0 && Entry(t, 1, 0) == 0.0;
    assert Dense(t)[0] == [1.0] && Dense(t)[1] == [0.0];
  }

  /** The arrays the fast transpose builds for [[0, 1]]. */
  lemma RowVectorFastTranspose()
    ensures FastTransposeAsWritten(RowVector()) == MisplacedColumn()
  {
    RowVectorTransposeRows();
    var rows := TransposeRows(RowVector());
    assert LaneCounts(rows) == [0, 1];
    var p := CumulativePointers([0, 1]);
    assert p[1] == 0 && p[2] == 1;
    assert TransposePointersAsWritten([0, 1]) == [0, 1, 1];
    AllOfTwo(rows[0], rows[1]);
    assert rows == [rows[0], rows[1]];
  }

  /**
   * For the 1 x 2 matrix [[0, 1]] the fast transpose points row 0 at the only lane:
   * it reads as [[1], [0]], not [[0], [1]].
   */
  lemma FastTransposeAsWrittenMisplaces()
    ensures Dense(RowVector()) == [[0.0, 1.0]]
    ensures FastTransposeAsWritten(RowVector()) == MisplacedColumn()
    ensures Dense(MisplacedColumn()) == [[1.0], [0.0]]
    ensures Transpose(Dense(RowVector()), 2) == [[0.0], [1.0]]
  {
    RowVectorStorage();
    RowVectorFastTranspose();
    MisplacedColumnDense();
    TransposeRowVector();
  }

  lemma TransposeRowVector()
    ensures Transpose([[0.0, 1.0]], 2) == [[0.0], [1.0]]
  {
    var t := Transpose([[0.0, 1.0]], 2);
    assert t[0] == [0.0] && t[1] == [1.0];
  }

  // ---------------------------------------------------------------------------
  // The lane-array constructor's range checks

  /**
   * The four checks of the lane-array constructor: every lane index in [0, ceil(C, N))
   * and every row pointer in [0, |colVectIndexes|].  Over an empty array a check holds
   * here; the source dereferences the end of the array instead.
   */
  predicate LaneArraysInRange(nCols: int, colVectIndexes: seq<int>, rowPointers: seq<int>)
  {
    && (forall i :: 0 <= i < |colVectIndexes| ==> 0 <= colVectIndexes[i] < Utility.Ceil(nCols, N))
    && (forall k :: 0 <= k < |rowPointers| ==> 0 <= rowPointers[k] <= |colVectIndexes|)
  }

  /** Canonical arrays, empty ones included, pass the checks. */
  lemma CanonicalPassesChecks(s: Storage)
    requires Canonical(s)
    ensures LaneArraysInRange(s.nCols, s.colVectIndexes, s.rowPointers)
  {
    forall k | 0 <= k < |s.rowPointers| ensures 0 <= s.rowPointers[k] <= |s.colVectIndexes| {
      assert s.rowPointers[0] <= s.rowPointers[k] <= s.rowPointers[s.nRows];
    }
  }

  lemma {:induction false} CumulativeMonotone(counts: seq<nat>, a: int, b: int)
    requires 0 <= a <= b <= |counts|
    ensures CumulativePointers(counts)[a] <= CumulativePointers(counts)[b]
    decreases b - a
  {
    if a < b {
      CumulativeMonotone(counts, a, b - 1);
    }
  }

  /**
   * The fast transpose's pointers stay within [0, total] exactly when the last row of
   * the transpose has a lane: an empty last row is given one lane past the end.
   */
  lemma AsWrittenPointersInRange(counts: seq<nat>)
    requires |counts| >= 1
    ensures var p := TransposePointersAsWritten(counts);
            (forall k :: 0 <= k < |p| ==> 0 <= p[k] <= CumulativePointers(counts)[|counts|])
            <==> counts[|counts| - 1] >= 1
  {
    var p := TransposePointersAsWritten(counts);
    var start := CumulativePointers(counts);
    var n := |counts|;
    if counts[n - 1] >= 1 {
      forall k | 0 <= k < |p| ensures 0 <= p[k] <= start[n] {
        CumulativeMonotone(counts, 0, n);
        if k > 0 {
          assert p[k] == start[k - 1] + (if counts[k - 1] >= 1 then counts[k - 1] else 1);
          CumulativeMonotone(counts, 0, k - 1);
          assert start[k] == start[k - 1] + counts[k - 1];
          if counts[k - 1] >= 1 {
            CumulativeMonotone(counts, k, n);
          } else {
            assert k <= n - 1;
            CumulativeMonotone(counts, k, n - 1);
            assert start[n] == start[n - 1] + counts[n - 1];
          }
        }
      }
    } else {
      assert p[n] == start[n - 1] + 1;
      assert start[n] == start[n - 1] + counts[n - 1];
    }
  }

  /**
   * transpose() hands the lane-array constructor naiveTranspose's lanes with the fast
   * pointers; the constructor's checks reject them exactly when the last column of the
   * matrix is empty, so that transpose ends in ERROR.
   */
  lemma FastTransposeAsWrittenFails(s: Storage)
    requires Shape(s)
    ensures var t := FastTransposeAsWritten(s);
            LaneArraysInRange(t.nCols, t.colVectIndexes, t.rowPointers)
            <==> |TransposeRow(s, s.nCols - 1).values| >= 1
  {
    var rows := TransposeRows(s);
    var counts := LaneCounts(rows);
    var t0 := TransposeSpec(s);
    var t := FastTransposeAsWritten(s);
    TransposeSpecDense(s);
    CanonicalPassesChecks(t0);
    OffsetsAreCumulative(rows);
    assert t0.rowPointers == Offsets(rows) == CumulativePointers(counts);
    assert |t.colVectIndexes| == CumulativePointers(counts)[|counts|];
    AsWrittenPointersInRange(counts);
    TransposeRowsAt(s, s.nCols - 1);
  }

  /** The 1 x 2 matrix [[1, 0]], stored as one lane. */
  function LastColumnEmpty(): (s: Storage)
    ensures Shape(s) && s.nRows == 1 && s.nCols == 2
  {
    Storage(1, 2, [Unit(0, 1.0)], [0], [0, 1])
  }

  /** For [[1, 0]], whose last column is empty, transpose() fails the constructor's checks. */
  lemma FastTransposeAsWrittenRejects()
    ensures var t := FastTransposeAsWritten(LastColumnEmpty());
            !LaneArraysInRange(t.nCols, t.colVectIndexes, t.rowPointers)
  {
    assert N == 4;
    var s := LastColumnEmpty();
    assert Row(s, 0) == RowLanes([Unit(0, 1.0)], [0]);
    assert Entry(s, 0, 1) == 0.0;
    assert Column(s, 1) == [0.0];
    assert Range(1) == [0];
    PackSingle(0.0);
    FastTransposeAsWrittenFails(s);
  }

  /**
   * The transpose of a zero matrix stores no lane, so naiveTranspose hands the
   * lane-array constructor empty arrays, and the constructor's max_element and
   * min_element of them are dereferenced past the end.
   */
  lemma ZeroTransposeStoresNoLane(rows: int, cols: int)
    requires rows >= 1 && cols >= 1
    ensures TransposeSpec(ZeroStorage(rows, cols)).values == []
    ensures TransposeSpec(ZeroStorage(rows, cols)).colVectIndexes == []
  {
    var s := ZeroStorage(rows, cols);
    forall c | 0 <= c < cols ensures TransposeRow(s, c) == RowLanes([], []) {
      forall r | 0 <= r < rows ensures Column(s, c)[r] == 0.0 {
        assert RowCols(s, r) == [];
      }
      PackEntriesZeros(Range(rows), Column(s, c));
    }
    EmptyRows(TransposeRows(s));
  }

  lemma {:induction false} EmptyRows(rows: seq<RowLanes>)
    requires forall k :: 0 <= k < |rows| ==> rows[k] == RowLanes([], [])
    ensures AllValues(rows) == [] && AllCols(rows) == []
  {
    if rows != [] {
      EmptyRows(rows[..|rows| - 1]);
    }
  }

  // ---------------------------------------------------------------------------
  // The triplet constructor

  /** Every row's column indexes in the triplet arrays strictly increase. */
  predicate SortedRows(colIndexes: seq<int>, ptrs: seq<int>)
  {
    forall r, a, b :: 0 <= r < |ptrs| - 1 && 0 <= ptrs[r] <= a < b < ptrs[r + 1] && b < |colIndexes| ==> colIndexes[a] < colIndexes[b]
  }

  /** Row r from the triplet arrays: the entries in [lo, hi), none when hi < lo. */
  function TripletRow(colIndexes: seq<int>, vals: seq<real>, lo: int, hi: int): (row: RowLanes)
    requires |colIndexes| == |vals| && 0 <= lo <= |vals| && 0 <= hi <= |vals|
    requires forall k :: 0 <= k < |colIndexes| ==> colIndexes[k] >= 0
    ensures |row.values| == |row.cols|
  {
    if lo <= hi then PackEntries(colIndexes[lo..hi], vals[lo..hi]) else RowLanes([], [])
  }

  /** The value the triplets of row r give column c: the last one for it, or zero. */
  function TripletValue(colIndexes: seq<int>, vals: seq<real>, lo: int, hi: int, c: int): real
    requires |colIndexes| == |vals| && 0 <= lo <= |vals| && 0 <= hi <= |vals|
  {
    if lo <= hi then ValueAt(colIndexes[lo..hi], vals[lo..hi], c) else 0.0
  }

  /** The pointers and indexes pass the constructor's range checks. */
  predicate TripletInRange(nCols: int, colIndexes: seq<int>, ptrs: seq<int>)
  {
    && (forall k :: 0 <= k < |colIndexes| ==> 0 <= colIndexes[k] < nCols)
    && (forall k :: 0 <= k < |ptrs| ==> 0 <= ptrs[k] <= |colIndexes|)
  }

  /** The rows the triplet constructor packs, one per row pointer pair. */
  function TripletRows(nRows: nat, nCols: int, vals: seq<real>, colIndexes: seq<int>, ptrs: seq<int>): (rows: seq<RowLanes>)
    requires |colIndexes| == |vals| && |ptrs| == nRows + 1 && TripletInRange(nCols, colIndexes, ptrs)
    ensures |rows| == nRows
    ensures forall r :: 0 <= r < nRows ==> rows[r] == TripletRow(colIndexes, vals, ptrs[r], ptrs[r + 1])
  {
    seq(nRows, r requires 0 <= r < nRows => TripletRow(colIndexes, vals, ptrs[r], ptrs[r + 1]))
  }

  /** The arrays the triplet constructor builds. */
  function TripletSpec(nRows: nat, nCols: int, vals: seq<real>, colIndexes: seq<int>, ptrs: seq<int>): (t: Storage)
    requires |colIndexes| == |vals| && |ptrs| == nRows + 1 && TripletInRange(nCols, colIndexes, ptrs)
    ensures t.nRows == nRows && t.nCols == nCols
  {
    FromRows(nCols, TripletRows(nRows, nCols, vals, colIndexes, ptrs))
  }

  /** One row of the triplet constructor: its lanes read back the row's triplets. */
  lemma TripletRowLookup(nCols: nat, vals: seq<real>, colIndexes: seq<int>, ptrs: seq<int>, r: int)
    requires |colIndexes| == |vals| && TripletInRange(nCols, colIndexes, ptrs)
    requires SortedRows(colIndexes, ptrs) && 0 <= r < |ptrs| - 1
    ensures var row := TripletRow(colIndexes, vals, ptrs[r], ptrs[r + 1]);
            && Increasing(row.cols) && LanesInRange(row.cols, nCols)
            && RowPadded(row, nCols) && RowNoZero(row)
            && forall c :: 0 <= c ==> LaneAt(row.values, row.cols, c / N)[c % N]
                                      == TripletValue(colIndexes, vals, ptrs[r], ptrs[r + 1], c)
  {
    var lo := ptrs[r];
    var hi := ptrs[r + 1];
    if lo <= hi {
      var cs := colIndexes[lo..hi];
      assert Increasing(cs) by {
        forall a, b | 0 <= a < b < |cs| ensures cs[a] < cs[b] {
          assert cs[a] == colIndexes[lo + a] && cs[b] == colIndexes[lo + b];
        }
      }
      PackEntriesLookup(cs, vals[lo..hi], nCols);
    }
  }

  /**
   * With sorted rows the triplet constructor gives a canonical storage whose entry
   * (r, c) is the triplet of row r for column c, or zero.
   */
  lemma TripletSpecDense(nRows: nat, nCols: int, vals: seq<real>, colIndexes: seq<int>, ptrs: seq<int>)
    requires nRows >= 1 && nCols >= 1
    requires |colIndexes| == |vals| && |ptrs| == nRows + 1 && TripletInRange(nCols, colIndexes, ptrs)
    requires SortedRows(colIndexes, ptrs)
    ensures var t := TripletSpec(nRows, nCols, vals, colIndexes, ptrs);
            && Canonical(t)
            && forall r, c :: 0 <= r < nRows && 0 <= c < nCols ==>
                 Dense(t)[r][c] == TripletValue(colIndexes, vals, ptrs[r], ptrs[r + 1], c)
  {
    var rows := TripletRows(nRows, nCols, vals, colIndexes, ptrs);
    forall r | 0 <= r < nRows
      ensures && Increasing(rows[r].cols) && LanesInRange(rows[r].cols, nCols)
              && RowPadded(rows[r], nCols) && RowNoZero(rows[r])
    {
      TripletRowLookup(nCols, vals, colIndexes, ptrs, r);
    }
    FromRowsCanonical(nCols, rows);
    TripletRowsEntries(nCols, vals, colIndexes, ptrs, rows);
  }

  /** TripletEntry for every entry, given the rows the triplet constructor packs. */
  lemma TripletRowsEntries(nCols: int, vals: seq<real>, colIndexes: seq<int>, ptrs: seq<int>, rows: seq<RowLanes>)
    requires nCols >= 1 && |colIndexes| == |vals| && TripletInRange(nCols, colIndexes, ptrs) && SortedRows(colIndexes, ptrs)
    requires |rows| == |ptrs| - 1 >= 1 && Aligned(rows)
    requires forall r :: 0 <= r < |rows| ==> rows[r] == TripletRow(colIndexes, vals, ptrs[r], ptrs[r + 1])
    ensures Shape(FromRows(nCols, rows))
    ensures forall r, c :: 0 <= r < |rows| && 0 <= c < nCols ==>
              Dense(FromRows(nCols, rows))[r][c] == TripletValue(colIndexes, vals, ptrs[r], ptrs[r + 1], c)
  {
    FromRowsLanes(nCols, rows);
    forall r, c | 0 <= r < |rows| && 0 <= c < nCols
      ensures Dense(FromRows(nCols, rows))[r][c] == TripletValue(colIndexes, vals, ptrs[r], ptrs[r + 1], c)
    {
      TripletEntry(nCols, vals, colIndexes, ptrs, rows, r, c);
    }
  }

  /** One entry of the triplet constructor's storage: the row's lanes read back its triplets. */
  lemma TripletEntry(nCols: int, vals: seq<real>, colIndexes: seq<int>, ptrs: seq<int>, rows: seq<RowLanes>, r: int, c: int)
    requires nCols >= 1 && |colIndexes| == |vals| && TripletInRange(nCols, colIndexes, ptrs) && SortedRows(colIndexes, ptrs)
    requires |rows| == |ptrs| - 1 && Aligned(rows) && 0 <= r < |rows| && 0 <= c < nCols
    requires rows[r] == TripletRow(colIndexes, vals, ptrs[r], ptrs[r + 1])
    ensures Shape(FromRows(nCols, rows))
    ensures Dense(FromRows(nCols, rows))[r][c] == TripletValue(colIndexes, vals, ptrs[r], ptrs[r + 1], c)
  {
    FromRowsEntry(nCols, rows, r, c);
    TripletRowLookup(nCols, vals, colIndexes, ptrs, r);
  }

  /** Entry (r, c) of rows laid out one after another is read from row r's own lanes. */
  lemma FromRowsEntry(nCols: int, rows: seq<RowLanes>, r: int, c: int)
    requires |rows| >= 1 && nCols >= 1 && Aligned(rows) && 0 <= r < |rows| && 0 <= c < nCols
    ensures Shape(FromRows(nCols, rows))
    ensures Dense(FromRows(nCols, rows))[r][c] == LaneAt(rows[r].values, rows[r].cols, c / N)[c % N]
  {
    FromRowsLanes(nCols, rows);
    assert Dense(FromRows(nCols, rows))[r][c] == RowLane(FromRows(nCols, rows), r, c / N)[c % N];
  }

  // ---------------------------------------------------------------------------
  // A canonical storage is determined by its entries

  /** Lane j of a dense row of C columns, zero-padded; the zero lane outside [0, ceil(C, N)). */
  function DenseLane(row: seq<real>, nCols: nat, j: int): (l: Lane)
    requires |row| == nCols
  {
    if 0 <= j < LanesFor(nCols) then seq(N, e requires 0 <= e < N => if j * N + e < nCols then row[j * N + e] else 0.0)
    else ZeroLane()
  }

  /** Entry (r, c) of the dense matrix is the storage's entry. */
  lemma DenseEntry(s: Storage, r: int, c: int)
    requires Shape(s) && 0 <= r < s.nRows && 0 <= c < s.nCols
    ensures Dense(s)[r][c] == Entry(s, r, c)
  {
  }

  /** Slot e of getSIMD's lane j inside the row: the row's element, or a zero of the padding. */
  lemma RowLaneSlot(s: Storage, r: int, j: int, e: int)
    requires Canonical(s) && 0 <= r < s.nRows && 0 <= j < LanesFor(s.nCols) && 0 <= e < N
    ensures RowLane(s, r, j)[e] == DenseLane(Dense(s)[r], s.nCols, j)[e]
  {
    SlotIndex(j, e);
    var c := j * N + e;
    var dl := DenseLane(Dense(s)[r], s.nCols, j);
    if c < s.nCols {
      DenseEntry(s, r, c);
      assert dl[e] == Dense(s)[r][c];
    } else {
      assert dl[e] == 0.0;
      RowLanePadding(s, r, j, e);
    }
  }

  /** A slot of a row's lane past the last column reads zero: stored padding or an absent lane. */
  lemma RowLanePadding(s: Storage, r: int, j: int, e: int)
    requires WellFormed(s) && ZeroPadding(s) && 0 <= r < s.nRows && 0 <= e < N && j * N + e >= s.nCols
    ensures RowLane(s, r, j)[e] == 0.0
  {
    RowConditions(s, r);
    var row := Row(s, r);
    if k :| 0 <= k < |row.cols| && row.cols[k] == j {
      assert RowLane(s, r, j) == row.values[k];
    }
  }

  /** In a canonical storage getSIMD's lane is the lane of the dense row. */
  lemma RowLaneIsDenseLane(s: Storage, r: int, j: int)
    requires Canonical(s) && 0 <= r < s.nRows
    ensures RowLane(s, r, j) == DenseLane(Dense(s)[r], s.nCols, j)
  {
    if 0 <= j < LanesFor(s.nCols) {
      forall e | 0 <= e < N ensures RowLane(s, r, j)[e] == DenseLane(Dense(s)[r], s.nCols, j)[e] {
        RowLaneSlot(s, r, j, e);
      }
    } else {
      RowConditions(s, r);
      var row := Row(s, r);
      assert forall k :: 0 <= k < |row.cols| ==> row.cols[k] != j;
    }
  }

  /** A row without its first lane. */
  function Tail(a: RowLanes): RowLanes
    requires |a.values| == |a.cols| && |a.cols| > 0
  {
    RowLanes(a.values[1..], a.cols[1..])
  }

  /** Dropping the first lane of an ordered row keeps the order and reads zeros under its index. */
  lemma TailLanes(a: RowLanes)
    requires |a.values| == |a.cols| && |a.cols| > 0 && Increasing(a.cols) && RowNoZero(a)
    ensures Increasing(Tail(a).cols) && RowNoZero(Tail(a))
    ensures forall j :: LaneAt(Tail(a).values, Tail(a).cols, j) == if j == a.cols[0] then ZeroLane() else LaneAt(a.values, a.cols, j)
  {
    var t := Tail(a);
    forall j ensures LaneAt(t.values, t.cols, j) == if j == a.cols[0] then ZeroLane() else LaneAt(a.values, a.cols, j) {
      LaneAtDropFirst(a.values, a.cols, j);
    }
    assert forall k :: 0 <= k < |t.values| ==> t.values[k] == a.values[k + 1];
  }

  /** Without its first lane a row reads zero there and as before elsewhere. */
  lemma LaneAtDropFirst(vals: seq<Lane>, cols: seq<int>, j: int)
    requires |vals| == |cols| && |cols| > 0 && Increasing(cols)
    ensures LaneAt(vals[1..], cols[1..], j) == if j == cols[0] then ZeroLane() else LaneAt(vals, cols, j)
  {
    var nv, nc := vals[1..], cols[1..];
    assert forall k :: 0 <= k < |nc| ==> nc[k] == cols[k + 1] && nv[k] == vals[k + 1];
    if j == cols[0] {
      assert forall k :: 0 <= k < |nc| ==> nc[k] != j;
    } else if k :| 0 <= k < |cols| && cols[k] == j {
      assert nc[k - 1] == j && nv[k - 1] == vals[k];
    } else {
      assert forall k :: 0 <= k < |nc| ==> nc[k] != j;
    }
  }

  /** Two rows that read the same everywhere: the first lane of one is stored in the other, no later than first. */
  lemma FirstIndexBound(a: RowLanes, b: RowLanes)
    requires |a.values| == |a.cols| && |b.values| == |b.cols|
    requires Increasing(a.cols) && Increasing(b.cols) && RowNoZero(a) && |a.cols| > 0
    requires forall j :: LaneAt(a.values, a.cols, j) == LaneAt(b.values, b.cols, j)
    ensures |b.cols| > 0 && b.cols[0] <= a.cols[0]
  {
    var j0 := a.cols[0];
    assert LaneAt(a.values, a.cols, j0) == a.values[0] != ZeroLane();
    var k :| 0 <= k < |b.cols| && b.cols[k] == j0;
    assert k == 0 || b.cols[0] < b.cols[k];
  }

  /** Two such rows start with the same lane, and their tails again read the same everywhere. */
  lemma SameFirstLane(a: RowLanes, b: RowLanes)
    requires |a.values| == |a.cols| && |b.values| == |b.cols| && |a.cols| > 0
    requires Increasing(a.cols) && Increasing(b.cols) && RowNoZero(a) && RowNoZero(b)
    requires forall j :: LaneAt(a.values, a.cols, j) == LaneAt(b.values, b.cols, j)
    ensures |b.cols| > 0 && a.cols[0] == b.cols[0] && a.values[0] == b.values[0]
    ensures Increasing(Tail(a).cols) && RowNoZero(Tail(a)) && Increasing(Tail(b).cols) && RowNoZero(Tail(b))
    ensures forall j :: LaneAt(Tail(a).values, Tail(a).cols, j) == LaneAt(Tail(b).values, Tail(b).cols, j)
  {
    FirstIndexBound(a, b);
    FirstIndexBound(b, a);
    var j0 := a.cols[0];
    assert LaneAt(a.values, a.cols, j0) == a.values[0];
    assert LaneAt(b.values, b.cols, j0) == b.values[0];
    TailLanes(a);
    TailLanes(b);
  }

  lemma SameHeadAndTail(a: RowLanes, b: RowLanes)
    requires |a.values| == |a.cols| && |b.values| == |b.cols| && |a.cols| > 0 && |b.cols| > 0
    requires a.cols[0] == b.cols[0] && a.values[0] == b.values[0] && Tail(a) == Tail(b)
    ensures a == b
  {
    assert a.values == [a.values[0]] + a.values[1..] && a.cols == [a.cols[0]] + a.cols[1..];
    assert b.values == [b.values[0]] + b.values[1..] && b.cols == [b.cols[0]] + b.cols[1..];
  }

  /** Two ordered rows without zero lanes that read the same everywhere are the same row. */
  lemma {:induction false} RowUnique(a: RowLanes, b: RowLanes)
    requires |a.values| == |a.cols| && |b.values| == |b.cols|
    requires Increasing(a.cols) && Increasing(b.cols) && RowNoZero(a) && RowNoZero(b)
    requires forall j :: LaneAt(a.values, a.cols, j) == LaneAt(b.values, b.cols, j)
    ensures a == b
    decreases |a.values| + |b.values|
  {
    if |a.cols| > 0 {
      SameFirstLane(a, b);
      var ta := Tail(a);
      var tb := Tail(b);
      RowUnique(ta, tb);
      SameHeadAndTail(a, b);
    } else if |b.cols| > 0 {
      FirstIndexBound(b, a);
    }
  }

  /** Canonical storages of the same shape and entries are identical, arrays and all. */
  lemma CanonicalUnique(s: Storage, t: Storage)
    requires Canonical(s) && Canonical(t) && s.nRows == t.nRows && s.nCols == t.nCols
    requires Dense(s) == Dense(t)
    ensures s == t
  {
    forall r | 0 <= r < s.nRows ensures Row(s, r) == Row(t, r) {
      RowConditions(s, r);
      RowConditions(t, r);
      forall j ensures LaneAt(Row(s, r).values, Row(s, r).cols, j) == LaneAt(Row(t, r).values, Row(t, r).cols, j) {
        RowLaneIsDenseLane(s, r, j);
        RowLaneIsDenseLane(t, r, j);
      }
      RowUnique(Row(s, r), Row(t, r));
    }
    StorageIsRows(s);
    StorageIsRows(t);
    assert seq(s.nRows, r requires 0 <= r < s.nRows => Row(s, r)) == seq(t.nRows, r requires 0 <= r < t.nRows => Row(t, r));
  }

  // ---------------------------------------------------------------------------
  // Row products (rowDot, matmul)

  /**
   * The lane sum rowDot and matmul accumulate: every stored lane times the other
   * operand's lane under the same index.
   */
  function SparseAccumulate(vals: seq<Lane>, cols: seq<int>, xl: seq<Lane>): Lane
    requires |vals| == |cols| && forall k :: 0 <= k < |cols| ==> 0 <= cols[k] < |xl|
  {
    if vals == [] then ZeroLane()
    else LaneAdd(SparseAccumulate(vals[..|vals| - 1], cols[..|cols| - 1], xl), LaneMul(vals[|vals| - 1], xl[cols[|cols| - 1]]))
  }

  /** Every lane of a row, stored or not. */
  function FullLanes(vals: seq<Lane>, cols: seq<int>, count: nat): (lanes: seq<Lane>)
    requires |vals| == |cols|
    ensures |lanes| == count
  {
    seq(count, j requires 0 <= j < count => LaneAt(vals, cols, j))
  }

  lemma AddZeroProduct(a: Lane, b: Lane)
    ensures LaneAdd(a, LaneMul(ZeroLane(), b)) == a
  {
  }

  /** One step of the accumulation over the full row, at a lane that is stored at position q. */
  lemma SparseStepStored(vals: seq<Lane>, cols: seq<int>, xl: seq<Lane>, m: nat, q: nat)
    requires |vals| == |cols| && 1 <= m <= |xl| && q < |cols| && cols[q] == m - 1
    requires forall k :: 0 <= k < |cols| ==> 0 <= cols[k] < |xl|
    requires Increasing(cols) && Find(cols, m) == q + 1
    requires LaneAccumulate(FullLanes(vals, cols, |xl|), xl, m - 1) == SparseAccumulate(vals[..q], cols[..q], xl)
    ensures LaneAccumulate(FullLanes(vals, cols, |xl|), xl, m) == SparseAccumulate(vals[..Find(cols, m)], cols[..Find(cols, m)], xl)
  {
    assert FullLanes(vals, cols, |xl|)[m - 1] == vals[q];
    assert vals[..q + 1][..q] == vals[..q] && cols[..q + 1][..q] == cols[..q];
  }

  /** One step of the accumulation over the full row, at a lane that is not stored. */
  lemma SparseStepAbsent(vals: seq<Lane>, cols: seq<int>, xl: seq<Lane>, m: nat, q: nat)
    requires |vals| == |cols| && 1 <= m <= |xl| && q <= |cols|
    requires forall k :: 0 <= k < |cols| ==> 0 <= cols[k] < |xl|
    requires (forall k :: 0 <= k < |cols| ==> cols[k] != m - 1) && Find(cols, m) == q
    requires LaneAccumulate(FullLanes(vals, cols, |xl|), xl, m - 1) == SparseAccumulate(vals[..q], cols[..q], xl)
    ensures LaneAccumulate(FullLanes(vals, cols, |xl|), xl, m) == SparseAccumulate(vals[..Find(cols, m)], cols[..Find(cols, m)], xl)
  {
    var full := FullLanes(vals, cols, |xl|);
    assert full[m - 1] == ZeroLane();
    AddZeroProduct(LaneAccumulate(full, xl, m - 1), xl[m - 1]);
  }

  /** The scan position of the next index: one further exactly when the index is stored. */
  lemma FindNext(cols: seq<int>, j: int, q: nat)
    requires Increasing(cols) && q == Find(cols, j)
    ensures if q < |cols| && cols[q] == j then Find(cols, j + 1) == q + 1
            else Find(cols, j + 1) == q && forall k :: 0 <= k < |cols| ==> cols[k] != j
  {
    if q < |cols| && cols[q] == j {
      FindIs(cols, j + 1, q + 1);
    } else {
      FindIs(cols, j + 1, q);
      forall k | 0 <= k < |cols| ensures cols[k] != j {
        if k > q {
          assert cols[k] > cols[q];
        }
      }
    }
  }

  lemma SparseStart(vals: seq<Lane>, cols: seq<int>, xl: seq<Lane>)
    requires |vals| == |cols| && forall k :: 0 <= k < |cols| ==> 0 <= cols[k] < |xl|
    ensures LaneAccumulate(FullLanes(vals, cols, |xl|), xl, 0) == SparseAccumulate(vals[..Find(cols, 0)], cols[..Find(cols, 0)], xl)
  {
    FindIs(cols, 0, 0);
    assert vals[..0] == [] && cols[..0] == [];
  }

  /** Accumulating over the first m lanes of the full row is accumulating over the stored lanes below m. */
  lemma {:induction false} SparsePrefix(vals: seq<Lane>, cols: seq<int>, xl: seq<Lane>, m: nat)
    requires |vals| == |cols| && Increasing(cols) && m <= |xl|
    requires forall k :: 0 <= k < |cols| ==> 0 <= cols[k] < |xl|
    ensures LaneAccumulate(FullLanes(vals, cols, |xl|), xl, m) == SparseAccumulate(vals[..Find(cols, m)], cols[..Find(cols, m)], xl)
  {
    if m == 0 {
      SparseStart(vals, cols, xl);
    } else {
      SparsePrefix(vals, cols, xl, m - 1);
      SparseStep(vals, cols, xl, m, Find(cols, m - 1));
    }
  }

  /** One step of the accumulation over the full row, from lane m - 1 to lane m. */
  lemma SparseStep(vals: seq<Lane>, cols: seq<int>, xl: seq<Lane>, m: nat, q: nat)
    requires |vals| == |cols| && Increasing(cols) && 1 <= m <= |xl| && q == Find(cols, m - 1)
    requires forall k :: 0 <= k < |cols| ==> 0 <= cols[k] < |xl|
    requires LaneAccumulate(FullLanes(vals, cols, |xl|), xl, m - 1) == SparseAccumulate(vals[..q], cols[..q], xl)
    ensures LaneAccumulate(FullLanes(vals, cols, |xl|), xl, m) == SparseAccumulate(vals[..Find(cols, m)], cols[..Find(cols, m)], xl)
  {
    FindNext(cols, m - 1, q);
    if q < |cols| && cols[q] == m - 1 {
      SparseStepStored(vals, cols, xl, m, q);
    } else {
      SparseStepAbsent(vals, cols, xl, m, q);
    }
  }

  /** A stored lane whose index is in range is read from the full row. */
  lemma FullLanesPadded(row: RowLanes, n: nat, count: nat)
    requires |row.values| == |row.cols| && Increasing(row.cols) && RowPadded(row, n)
    ensures PaddedWithZeros(FullLanes(row.values, row.cols, count), n, count)
  {
    var full := FullLanes(row.values, row.cols, count);
    forall j, e | 0 <= j < count && 0 <= e < N && n <= j * N + e ensures full[j][e] == 0.0 {
      if k :| 0 <= k < |row.cols| && row.cols[k] == j {
        assert full[j] == row.values[k];
      }
    }
  }

  /**
   * Accumulating over the stored lanes of an ordered row of n elements is the inner
   * product of the row with the other operand's first n elements, when either side
   * holds zeros past them.
   */
  lemma SparseIsDot(vals: seq<Lane>, cols: seq<int>, xl: seq<Lane>, n: nat)
    requires |vals| == |cols| && Increasing(cols) && n <= |xl| * N
    requires forall k :: 0 <= k < |cols| ==> 0 <= cols[k] < |xl|
    requires RowPadded(RowLanes(vals, cols), n) || PaddedWithZeros(xl, n, |xl|)
    ensures Sum(SparseAccumulate(vals, cols, xl)) == Dot(Elements(FullLanes(vals, cols, |xl|), n), Elements(xl, n))
  {
    SparsePrefix(vals, cols, xl, |xl|);
    FindIs(cols, |xl|, |cols|);
    assert vals[..|cols|] == vals && cols[..|cols|] == cols;
    if RowPadded(RowLanes(vals, cols), n) {
      FullLanesPadded(RowLanes(vals, cols), n, |xl|);
    }
    LaneDotIsDot(FullLanes(vals, cols, |xl|), xl, n, |xl|);
  }

  /** The lanes of row r, stored or not, hold its dense row. */
  lemma DenseRowLanes(s: Storage, r: int)
    requires WellFormed(s) && 0 <= r < s.nRows
    ensures Elements(FullLanes(RowValues(s, r), RowCols(s, r), LanesFor(s.nCols)), s.nCols) == Dense(s)[r]
  {
    var full := FullLanes(RowValues(s, r), RowCols(s, r), LanesFor(s.nCols));
    forall c | 0 <= c < s.nCols ensures Elements(full, s.nCols)[c] == Dense(s)[r][c] {
      ColumnLane(c, s.nCols);
    }
  }

  /** rowDot's lane sum for row r against a vector's lanes. */
  function RowProduct(s: Storage, r: int, xl: seq<Lane>): Lane
    requires WellFormed(s) && 0 <= r < s.nRows && |xl| == LanesFor(s.nCols)
  {
    RowConditions(s, r);
    SparseAccumulate(RowValues(s, r), RowCols(s, r), xl)
  }

  /**
   * The reduced row product is the inner product of the dense row with the vector's
   * elements, when the matrix or the vector is zero-padded.
   */
  lemma RowProductIsDot(s: Storage, r: int, xl: seq<Lane>)
    requires WellFormed(s) && 0 <= r < s.nRows && |xl| == LanesFor(s.nCols)
    requires ZeroPadding(s) || PaddedWithZeros(xl, s.nCols, |xl|)
    ensures Sum(RowProduct(s, r, xl)) == Dot(Dense(s)[r], Elements(xl, s.nCols))
  {
    RowConditions(s, r);
    SparseIsDot(RowValues(s, r), RowCols(s, r), xl, s.nCols);
    DenseRowLanes(s, r);
  }

  // ---------------------------------------------------------------------------
  // Reference matrices

  /** The entry-wise combination of two equally shaped matrices (+, - and Hadamard *). */
  function DenseOp(op: ElemOp, a: seq<seq<real>>, b: seq<seq<real>>): (d: seq<seq<real>>)
    requires |a| == |b| && forall r :: 0 <= r < |a| ==> |a[r]| == |b[r]|
    ensures |d| == |a|
  {
    seq(|a|, r requires 0 <= r < |a| => ElemsOp(op, a[r], b[r]))
  }

  /** Every entry multiplied by `k`. */
  function DenseScale(a: seq<seq<real>>, k: real): (d: seq<seq<real>>)
    ensures |d| == |a|
  {
    seq(|a|, r requires 0 <= r < |a| => VecScale(a[r], k))
  }

  /** The rows x cols matrix holding d[i] at (i, i) for i < |d| and zero elsewhere. */
  function DiagonalOf(rows: nat, cols: nat, d: seq<real>): (m: seq<seq<real>>)
    ensures |m| == rows && IsMatrix(m, cols)
  {
    seq(rows, r requires 0 <= r < rows => seq(cols, c requires 0 <= c < cols => if r == c && r < |d| then d[r] else 0.0))
  }

  /** The matrix product: entry (r, c) is row r of `a` times column c of `b`. */
  function DenseProduct(a: seq<seq<real>>, b: seq<seq<real>>, cols: nat): (p: seq<seq<real>>)
    requires IsMatrix(a, |b|) && IsMatrix(b, cols)
    ensures |p| == |a| && IsMatrix(p, cols)
  {
    seq(|a|, r requires 0 <= r < |a| => seq(cols, c requires 0 <= c < cols => Dot(a[r], Transpose(b, cols)[c])))
  }

  // ---------------------------------------------------------------------------
  // The zeros, identity and diagonal constructors

  /** The zeros constructor's arrays: no lanes and every row pointer 0. */
  function ZeroStorage(rows: int, cols: int): (s: Storage)
    requires rows >= 1 && cols >= 1
    ensures Canonical(s) && s.nRows == rows && s.nCols == cols
  {
    Storage(rows, cols, [], [], seq(rows + 1, _ => 0))
  }

  lemma ZeroStorageDense(rows: int, cols: int)
    requires rows >= 1 && cols >= 1
    ensures Dense(ZeroStorage(rows, cols)) == DiagonalOf(rows, cols, [])
  {
    var s := ZeroStorage(rows, cols);
    forall r | 0 <= r < rows ensures Dense(s)[r] == DiagonalOf(rows, cols, [])[r] {
      assert RowCols(s, r) == [];
    }
  }

  /**
   * The arrays the identity and diagonal constructors build: for each i < |d| one lane
   * in row i, holding d[i] in the slot of column i, whatever d[i] is.
   */
  function DiagonalLanes(rows: int, cols: int, d: seq<real>): (s: Storage)
    requires 1 <= rows && 1 <= cols && |d| <= rows && |d| <= cols
    ensures s.nRows == rows && s.nCols == cols && |s.values| == |d|
  {
    Storage(rows, cols,
            seq(|d|, i requires 0 <= i < |d| => Unit(i % N, d[i])),
            seq(|d|, i requires 0 <= i < |d| => i / N),
            seq(rows + 1, k requires 0 <= k <= rows => if k < |d| then k else |d|))
  }

  /** Row r of those arrays: the single lane of entry (r, r), or nothing past |d|. */
  lemma DiagonalLanesRow(rows: int, cols: int, d: seq<real>, r: int)
    requires 1 <= rows && 1 <= cols && |d| <= rows && |d| <= cols && 0 <= r < rows
    ensures Shape(DiagonalLanes(rows, cols, d))
    ensures Row(DiagonalLanes(rows, cols, d), r) == if r < |d| then RowLanes([Unit(r % N, d[r])], [r / N]) else RowLanes([], [])
  {
  }

  /**
   * The identity and diagonal constructors' arrays are well formed and zero-padded and
   * hold the diagonal matrix; they are free of zero lanes exactly when no d[i] is zero.
   */
  lemma DiagonalLanesDense(rows: int, cols: int, d: seq<real>)
    requires 1 <= rows && 1 <= cols && |d| <= rows && |d| <= cols
    ensures WellFormed(DiagonalLanes(rows, cols, d)) && ZeroPadding(DiagonalLanes(rows, cols, d))
    ensures Dense(DiagonalLanes(rows, cols, d)) == DiagonalOf(rows, cols, d)
    ensures NoZeroLanes(DiagonalLanes(rows, cols, d)) <==> forall i :: 0 <= i < |d| ==> d[i] != 0.0
  {
    var s := DiagonalLanes(rows, cols, d);
    forall i | 0 <= i < |d| ensures 0 <= s.colVectIndexes[i] < LanesFor(cols) && (i / N) * N + i % N == i {
      ColumnLane(i, cols);
    }
    forall r | 0 <= r < rows ensures Increasing(RowCols(s, r)) {
      DiagonalLanesRow(rows, cols, d, r);
    }
    forall r | 0 <= r < rows ensures Dense(s)[r] == DiagonalOf(rows, cols, d)[r] {
      DiagonalLanesRow(rows, cols, d, r);
      forall c | 0 <= c < cols ensures Entry(s, r, c) == if r == c && r < |d| then d[r] else 0.0 {
        ColumnLane(c, cols);
        if r < |d| {
          SameColumn(c, r);
        }
      }
    }
    if forall i :: 0 <= i < |d| ==> d[i] != 0.0 {
      forall i | 0 <= i < |d| ensures s.values[i] != ZeroLane() {
        assert s.values[i][i % N] == d[i];
      }
    } else {
      var i :| 0 <= i < |d| && d[i] == 0.0;
      assert s.values[i] == ZeroLane();
    }
  }

  /**
   * The identity constructor with scalar 0 stores one all-zero lane per diagonal entry:
   * the matrix is zero, yet its arrays are not the zeros constructor's, which any
   * comparison of the arrays (operator==) tells apart.
   */
  lemma IdentityZeroScalarAsWritten(rows: int, cols: int)
    requires 1 <= rows && 1 <= cols
    ensures var m := if rows < cols then rows else cols;
            var s := DiagonalLanes(rows, cols, seq(m, _ => 0.0));
            && Dense(s) == Dense(ZeroStorage(rows, cols))
            && !NoZeroLanes(s)
            && s != ZeroStorage(rows, cols)
  {
    var m := if rows < cols then rows else cols;
    var d := seq(m, _ => 0.0);
    DiagonalLanesDense(rows, cols, d);
    ZeroStorageDense(rows, cols);
    forall r | 0 <= r < rows ensures DiagonalOf(rows, cols, d)[r] == DiagonalOf(rows, cols, [])[r] {
    }
    var s := DiagonalLanes(rows, cols, d);
    assert s.values[0] == ZeroLane();
  }

  /**
   * The diagonal constructor Matrix(diag) stores one lane per entry, a zero entry
   * included: the arrays hold the diagonal matrix of d, yet they keep an all-zero lane,
   * so they differ from every canonical storage of that matrix, which operator==,
   * comparing the lanes, tells apart.
   */
  lemma DiagonalZeroEntryAsWritten(d: seq<real>, i: int)
    requires 0 <= i < |d| && d[i] == 0.0
    ensures var s := DiagonalLanes(|d|, |d|, d);
            && Dense(s) == DiagonalMatrix(d)
            && !NoZeroLanes(s)
            && forall t :: Canonical(t) && Dense(t) == DiagonalMatrix(d) ==> t != s
  {
    DiagonalLanesDense(|d|, |d|, d);
    DiagonalOfSquare(d);
  }

  // ---------------------------------------------------------------------------
  // Scalar multiplication

  /** scalar *=: every stored lane multiplied by the scalar, the indexes kept. */
  function ScaleLanes(s: Storage, k: real): (t: Storage)
    ensures t.nRows == s.nRows && t.nCols == s.nCols && |t.values| == |s.values|
    ensures t.colVectIndexes == s.colVectIndexes && t.rowPointers == s.rowPointers
    ensures Shape(s) ==> Shape(t)
  {
    s.(values := seq(|s.values|, i requires 0 <= i < |s.values| => LaneScale(s.values[i], k)))
  }

  /** A scaled storage reads each lane scaled. */
  lemma ScaleLanesRowLane(s: Storage, k: real, r: int, j: int)
    requires Shape(s) && 0 <= r < s.nRows
    ensures Shape(ScaleLanes(s, k))
    ensures RowLane(ScaleLanes(s, k), r, j) == LaneScale(RowLane(s, r, j), k)
  {
    var t := ScaleLanes(s, k);
    assert RowCols(t, r) == RowCols(s, r);
    var p := Find(RowCols(s, r), j);
    if p < |RowCols(s, r)| && RowCols(s, r)[p] == j {
      assert RowValues(t, r)[p] == t.values[s.rowPointers[r] + p];
    }
  }

  lemma ScaleLanesEntry(s: Storage, k: real, r: int, c: int)
    requires Shape(s) && 0 <= r < s.nRows && 0 <= c < s.nCols
    ensures Dense(ScaleLanes(s, k))[r][c] == VecScale(Dense(s)[r], k)[c]
  {
    var t := ScaleLanes(s, k);
    ScaleLanesEntryLane(s, k, r, c);
    DenseEntry(t, r, c);
    DenseEntry(s, r, c);
    VecScaleAt(Dense(s)[r], k, c);
  }

  lemma ScaleLanesEntryLane(s: Storage, k: real, r: int, c: int)
    requires Shape(s) && 0 <= r < s.nRows && 0 <= c
    ensures Entry(ScaleLanes(s, k), r, c) == Entry(s, r, c) * k
  {
    ScaleLanesRowLane(s, k, r, c / N);
    EntryOfScaledLane(s, ScaleLanes(s, k), k, r, c);
  }

  lemma EntryOfScaledLane(s: Storage, t: Storage, k: real, r: int, c: int)
    requires Shape(s) && Shape(t) && 0 <= r < s.nRows && r < t.nRows && 0 <= c
    requires RowLane(t, r, c / N) == LaneScale(RowLane(s, r, c / N), k)
    ensures Entry(t, r, c) == Entry(s, r, c) * k
  {
    LaneScaleAt(RowLane(s, r, c / N), k, c % N);
  }

  lemma ScaleLanesRow(s: Storage, k: real, r: int)
    requires Shape(s) && 0 <= r < s.nRows
    ensures Dense(ScaleLanes(s, k))[r] == VecScale(Dense(s)[r], k)
  {
    var t := ScaleLanes(s, k);
    forall c | 0 <= c < s.nCols {
      ScaleLanesEntry(s, k, r, c);
    }
  }

  lemma ScaleLanesMatrix(s: Storage, k: real)
    requires Shape(s)
    ensures Dense(ScaleLanes(s, k)) == DenseScale(Dense(s), k)
  {
    forall r | 0 <= r < s.nRows ensures Dense(ScaleLanes(s, k))[r] == DenseScale(Dense(s), k)[r] {
      ScaleLanesRow(s, k, r);
    }
  }

  /** Scaling every stored lane scales every entry, and keeps the invariants. */
  lemma ScaleLanesDense(s: Storage, k: real)
    requires WellFormed(s)
    ensures WellFormed(ScaleLanes(s, k))
    ensures ZeroPadding(s) ==> ZeroPadding(ScaleLanes(s, k))
    ensures k != 0.0 && NoZeroLanes(s) ==> NoZeroLanes(ScaleLanes(s, k))
    ensures Dense(ScaleLanes(s, k)) == DenseScale(Dense(s), k)
  {
    var t := ScaleLanes(s, k);
    assert forall r :: 0 <= r < s.nRows ==> RowCols(t, r) == RowCols(s, r);
    ScaleLanesMatrix(s, k);
    if k != 0.0 && NoZeroLanes(s) {
      forall i | 0 <= i < |t.values| ensures t.values[i] != ZeroLane() {
        var e :| 0 <= e < N && s.values[i][e] != 0.0;
        assert t.values[i][e] == s.values[i][e] * k;
      }
    }
  }

  /**
   * Scaling by 0 as written keeps every lane, now all zero: the matrix is zero but the
   * arrays are not the zeros constructor's.
   */
  lemma ScaleByZeroAsWritten(s: Storage)
    requires Canonical(s) && |s.values| >= 1
    ensures Dense(ScaleLanes(s, 0.0)) == Dense(ZeroStorage(s.nRows, s.nCols))
    ensures !NoZeroLanes(ScaleLanes(s, 0.0)) && ScaleLanes(s, 0.0) != ZeroStorage(s.nRows, s.nCols)
  {
    ScaleLanesDense(s, 0.0);
    ZeroStorageDense(s.nRows, s.nCols);
    assert ScaleLanes(s, 0.0).values[0] == ZeroLane();
    forall r | 0 <= r < s.nRows ensures DenseScale(Dense(s), 0.0)[r] == DiagonalOf(s.nRows, s.nCols, [])[r] {
    }
  }

  /** Scalar multiplication in canonical form: by 0 the zero matrix, otherwise ScaleLanes. */
  function ScaleSpec(s: Storage, k: real): (t: Storage)
    requires Canonical(s)
  {
    if k == 0.0 then ZeroStorage(s.nRows, s.nCols) else ScaleLanes(s, k)
  }

  lemma ScaleSpecDense(s: Storage, k: real)
    requires Canonical(s)
    ensures Canonical(ScaleSpec(s, k)) && Dense(ScaleSpec(s, k)) == DenseScale(Dense(s), k)
  {
    ScaleLanesDense(s, k);
    if k == 0.0 {
      ZeroStorageDense(s.nRows, s.nCols);
      forall r | 0 <= r < s.nRows ensures DenseScale(Dense(s), 0.0)[r] == DiagonalOf(s.nRows, s.nCols, [])[r] {
      }
    }
  }

  // ---------------------------------------------------------------------------
  // Comparison (operator==, isClose)

  /** operator== as written: dimensions, lanes and lane indexes; the row pointers are not compared. */
  predicate EqualsAsWritten(s: Storage, t: Storage)
  {
    s.nRows == t.nRows && s.nCols == t.nCols && s.values == t.values && s.colVectIndexes == t.colVectIndexes
  }

  /** Canonical storages are the same arrays exactly when they hold the same matrix. */
  lemma EqualIffSameMatrix(s: Storage, t: Storage)
    requires Canonical(s) && Canonical(t)
    ensures s == t <==> Dense(s) == Dense(t)
  {
    if Dense(s) == Dense(t) {
      assert |Dense(s)[0]| == s.nCols && |Dense(t)[0]| == t.nCols;
      CanonicalUnique(s, t);
    }
  }

  /** The 2 x 1 matrix [[0], [1]]. */
  function ColumnVector(): (t: Storage)
    ensures Shape(t) && t.nRows == 2 && t.nCols == 1
  {
    Storage(2, 1, [Unit(0, 1.0)], [0], [0, 0, 1])
  }

  lemma ColumnVectorDense()
    ensures Dense(ColumnVector()) == [[0.0], [1.0]]
  {
    assert N == 4;
    var t := ColumnVector();
    assert Row(t, 0) == RowLanes([], []);
    assert Row(t, 1) == RowLanes([Unit(0, 1.0)], [0]);
    assert Entry(t, 0, 0) == 0.0 && Entry(t, 1, 0) == 1.0;
    assert Dense(t)[0] == [0.0] && Dense(t)[1] == [1.0];
  }

  /** A single lane Unit(0, 1) at index 0 is canonical in a one-column matrix, whichever row holds it. */
  lemma SingleLaneCanonical(t: Storage)
    requires Shape(t) && t.nCols == 1 && t.values == [Unit(0, 1.0)] && t.colVectIndexes == [0]
    ensures Canonical(t)
  {
    assert N == 4;
    assert LanesFor(1) == 1;
    assert t.values[0][0] == 1.0;
    forall r | 0 <= r < t.nRows ensures Increasing(RowCols(t, r)) {
    }
  }

  /**
   * operator== as written calls [[1], [0]] and [[0], [1]] equal: both store the lane
   * Unit(0, 1) at index 0 and differ only in their row pointers.
   */
  lemma EqualsAsWrittenIgnoresPointers()
    ensures Canonical(MisplacedColumn()) && Canonical(ColumnVector())
    ensures EqualsAsWritten(MisplacedColumn(), ColumnVector())
    ensures Dense(MisplacedColumn()) == [[1.0], [0.0]] && Dense(ColumnVector()) == [[0.0], [1.0]]
  {
    SingleLaneCanonical(MisplacedColumn());
    SingleLaneCanonical(ColumnVector());
    MisplacedColumnDense();
    ColumnVectorDense();
  }

  /** isClose as written: equal dimensions and lane indexes, every lane slot within `tol`; not the row pointers. */
  predicate IsCloseAsWritten(s: Storage, t: Storage, tol: real)
    requires |s.values| == |s.colVectIndexes| && |t.values| == |t.colVectIndexes|
  {
    && s.nRows == t.nRows && s.nCols == t.nCols && |s.values| == |t.values|
    && (forall i :: 0 <= i < |s.values| ==> s.colVectIndexes[i] == t.colVectIndexes[i])
    && (forall i, e :: 0 <= i < |s.values| && 0 <= e < N ==> RealAbs(s.values[i][e] - t.values[i][e]) <= tol)
  }

  /** isClose comparing the row pointers as well. */
  predicate IsCloseSpec(s: Storage, t: Storage, tol: real)
    requires |s.values| == |s.colVectIndexes| && |t.values| == |t.colVectIndexes|
  {
    IsCloseAsWritten(s, t, tol) && s.rowPointers == t.rowPointers
  }

  /** With the same arrays of indexes and pointers, lane j of row r is close in every slot. */
  lemma IsCloseLanes(s: Storage, t: Storage, tol: real, r: int, j: int)
    requires Shape(s) && Shape(t) && tol >= 0.0 && IsCloseSpec(s, t, tol) && 0 <= r < s.nRows
    ensures forall e :: 0 <= e < N ==> RealAbs(RowLane(s, r, j)[e] - RowLane(t, r, j)[e]) <= tol
  {
    assert s.colVectIndexes == t.colVectIndexes;
    var cols := RowCols(s, r);
    assert RowCols(t, r) == cols;
    var p := Find(cols, j);
    if p < |cols| && cols[p] == j {
      var i := s.rowPointers[r] + p;
      assert RowLane(s, r, j) == s.values[i] && RowLane(t, r, j) == t.values[i];
    }
  }

  /** isClose (row pointers compared) bounds the difference of every pair of entries by `tol`. */
  lemma IsCloseSpecEntries(s: Storage, t: Storage, tol: real)
    requires Shape(s) && Shape(t) && tol >= 0.0 && IsCloseSpec(s, t, tol)
    ensures forall r, c :: 0 <= r < s.nRows && 0 <= c < s.nCols ==> RealAbs(Dense(s)[r][c] - Dense(t)[r][c]) <= tol
  {
    forall r, c | 0 <= r < s.nRows && 0 <= c < s.nCols ensures RealAbs(Dense(s)[r][c] - Dense(t)[r][c]) <= tol {
      ColumnLane(c, s.nCols);
      IsCloseLanes(s, t, tol, r, c / N);
      assert Dense(s)[r][c] == RowLane(s, r, c / N)[c % N] && Dense(t)[r][c] == RowLane(t, r, c / N)[c % N];
    }
  }

  /** Canonical storages of the same matrix are close for every tolerance that is not negative. */
  lemma IsCloseSameMatrix(s: Storage, t: Storage, tol: real)
    requires Canonical(s) && Canonical(t) && Dense(s) == Dense(t) && tol >= 0.0
    ensures IsCloseSpec(s, t, tol)
  {
    EqualIffSameMatrix(s, t);
  }

  /**
   * isClose as written also calls [[1], [0]] and [[0], [1]] close, for every tolerance
   * below 1, though entry (0, 0) differs by 1.
   */
  lemma IsCloseAsWrittenIgnoresPointers(tol: real)
    requires 0.0 <= tol < 1.0
    ensures IsCloseAsWritten(MisplacedColumn(), ColumnVector(), tol)
    ensures RealAbs(Dense(MisplacedColumn())[0][0] - Dense(ColumnVector())[0][0]) > tol
  {
    EqualsAsWrittenIgnoresPointers();
  }

  // ---------------------------------------------------------------------------
  // addRows and stack

  /**
   * addRows: the lanes and indexes of the second matrix after the first's, and its row
   * pointers, shifted by the first's lane count, after the first's (without its last).
   */
  function AddRowsSpec(s: Storage, t: Storage): (u: Storage)
    requires Shape(s) && Shape(t)
    ensures u.nRows == s.nRows + t.nRows && u.nCols == s.nCols
  {
    Storage(s.nRows + t.nRows, s.nCols, s.values + t.values, s.colVectIndexes + t.colVectIndexes,
            s.rowPointers[..s.nRows] + seq(t.nRows + 1, k requires 0 <= k <= t.nRows => t.rowPointers[k] + |s.values|))
  }

  lemma AddRowsPointers(s: Storage, t: Storage)
    requires Shape(s) && Shape(t)
    ensures var u := AddRowsSpec(s, t);
            && |u.rowPointers| == u.nRows + 1
            && (forall k :: 0 <= k <= s.nRows ==> u.rowPointers[k] == s.rowPointers[k])
            && (forall k :: s.nRows <= k <= u.nRows ==> u.rowPointers[k] == t.rowPointers[k - s.nRows] + |s.values|)
  {
  }

  /** The rows of the stacked matrix are the first's rows, then the second's. */
  lemma AddRowsRows(s: Storage, t: Storage)
    requires Shape(s) && Shape(t) && s.nCols == t.nCols
    ensures Shape(AddRowsSpec(s, t))
    ensures forall r :: 0 <= r < s.nRows ==> Row(AddRowsSpec(s, t), r) == Row(s, r)
    ensures forall r :: s.nRows <= r < s.nRows + t.nRows ==> Row(AddRowsSpec(s, t), r) == Row(t, r - s.nRows)
  {
    AddRowsShape(s, t);
    forall r | 0 <= r < s.nRows ensures Row(AddRowsSpec(s, t), r) == Row(s, r) {
      AddRowsFirstRow(s, t, r);
    }
    forall r | s.nRows <= r < s.nRows + t.nRows ensures Row(AddRowsSpec(s, t), r) == Row(t, r - s.nRows) {
      AddRowsSecondRow(s, t, r);
    }
  }

  lemma AddRowsShape(s: Storage, t: Storage)
    requires Shape(s) && Shape(t) && s.nCols == t.nCols
    ensures Shape(AddRowsSpec(s, t))
  {
    var u := AddRowsSpec(s, t);
    var m := |s.values|;
    AddRowsPointers(s, t);
    forall a, b | 0 <= a <= b <= u.nRows ensures u.rowPointers[a] <= u.rowPointers[b] {
      if b <= s.nRows {
      } else if a >= s.nRows {
      } else {
        assert u.rowPointers[a] <= m == u.rowPointers[s.nRows] <= u.rowPointers[b];
      }
    }
  }

  lemma AddRowsFirstRow(s: Storage, t: Storage, r: int)
    requires Shape(s) && Shape(t) && s.nCols == t.nCols && 0 <= r < s.nRows
    ensures Shape(AddRowsSpec(s, t)) && Row(AddRowsSpec(s, t), r) == Row(s, r)
  {
    var u := AddRowsSpec(s, t);
    AddRowsShape(s, t);
    AddRowsPointers(s, t);
    var lo := s.rowPointers[r];
    var hi := s.rowPointers[r + 1];
    ShiftedSlice(s.values, u.values, lo, hi, 0);
    ShiftedSlice(s.colVectIndexes, u.colVectIndexes, lo, hi, 0);
  }

  lemma AddRowsSecondRow(s: Storage, t: Storage, r: int)
    requires Shape(s) && Shape(t) && s.nCols == t.nCols && s.nRows <= r < s.nRows + t.nRows
    ensures Shape(AddRowsSpec(s, t)) && Row(AddRowsSpec(s, t), r) == Row(t, r - s.nRows)
  {
    var u := AddRowsSpec(s, t);
    var m := |s.values|;
    AddRowsShape(s, t);
    AddRowsPointers(s, t);
    var lo := t.rowPointers[r - s.nRows];
    var hi := t.rowPointers[r - s.nRows + 1];
    ShiftedSlice(t.values, u.values, lo, hi, m);
    ShiftedSlice(t.colVectIndexes, u.colVectIndexes, lo, hi, m);
  }

  lemma AddRowsDense(s: Storage, t: Storage)
    requires Canonical(s) && Canonical(t) && s.nCols == t.nCols
    ensures Canonical(AddRowsSpec(s, t))
    ensures Dense(AddRowsSpec(s, t)) == Dense(s) + Dense(t)
  {
    var u := AddRowsSpec(s, t);
    AddRowsRows(s, t);
    ConcatConditions(RowLanes(s.values, s.colVectIndexes), RowLanes(t.values, t.colVectIndexes), s.nCols);
    forall r | 0 <= r < u.nRows ensures Increasing(RowCols(u, r)) {
      assert RowCols(u, r) == Row(u, r).cols;
      if r >= s.nRows {
        assert RowCols(t, r - s.nRows) == Row(t, r - s.nRows).cols;
      } else {
        assert RowCols(s, r) == Row(s, r).cols;
      }
    }
    forall r | 0 <= r < u.nRows ensures Dense(u)[r] == (Dense(s) + Dense(t))[r] {
      forall c | 0 <= c < u.nCols ensures Dense(u)[r][c] == (Dense(s) + Dense(t))[r][c] {
        AddRowsEntry(s, t, r, c);
      }
    }
  }

  /** Entry (r, c) of the stacked matrix comes from the first matrix or, past its rows, the second. */
  lemma AddRowsEntry(s: Storage, t: Storage, r: int, c: int)
    requires Shape(s) && Shape(t) && s.nCols == t.nCols
    requires 0 <= r < s.nRows + t.nRows && 0 <= c < s.nCols
    ensures Shape(AddRowsSpec(s, t))
    ensures Dense(AddRowsSpec(s, t))[r][c] == if r < s.nRows then Dense(s)[r][c] else Dense(t)[r - s.nRows][c]
  {
    var u := AddRowsSpec(s, t);
    AddRowsShape(s, t);
    DenseEntry(u, r, c);
    if r < s.nRows {
      AddRowsFirstRow(s, t, r);
      assert RowValues(u, r) == RowValues(s, r) && RowCols(u, r) == RowCols(s, r);
      DenseEntry(s, r, c);
    } else {
      AddRowsSecondRow(s, t, r);
      assert RowValues(u, r) == RowValues(t, r - s.nRows) && RowCols(u, r) == RowCols(t, r - s.nRows);
      DenseEntry(t, r - s.nRows, c);
    }
  }

  // ---------------------------------------------------------------------------
  // Matrices built row by row (naiveTranspose, matmul)

  /** Appending one row to rows laid out one after another. */
  lemma FromRowsAppend(rows: seq<RowLanes>, row: RowLanes)
    ensures AllValues(rows + [row]) == AllValues(rows) + row.values
    ensures AllCols(rows + [row]) == AllCols(rows) + row.cols
    ensures Offsets(rows + [row]) == Offsets(rows) + [|AllValues(rows)| + |row.values|]
  {
    var all := rows + [row];
    assert all[..|all| - 1] == rows && all[|all| - 1] == row;
    OffsetsAppend(rows, row);
  }

  lemma OffsetsAppend(rows: seq<RowLanes>, row: RowLanes)
    ensures Offsets(rows + [row]) == Offsets(rows) + [|AllValues(rows)| + |row.values|]
  {
    forall k | 0 <= k <= |rows| + 1 ensures Offsets(rows + [row])[k] == (Offsets(rows) + [|AllValues(rows)| + |row.values|])[k] {
      OffsetAppend(rows, row, k);
    }
  }

  lemma OffsetAppend(rows: seq<RowLanes>, row: RowLanes, k: int)
    requires 0 <= k <= |rows| + 1
    ensures Offsets(rows + [row])[k] == if k <= |rows| then Offsets(rows)[k] else |AllValues(rows)| + |row.values|
  {
    var all := rows + [row];
    if k <= |rows| {
      assert all[..k] == rows[..k];
    } else {
      assert all[..k] == all;
      assert all[..|rows|] == rows;
    }
  }

  /** The rows of a dense matrix, each packed into lanes entry by entry. */
  function PackRows(vss: seq<seq<real>>): (rows: seq<RowLanes>)
    ensures |rows| == |vss| && Aligned(rows)
  {
    seq(|vss|, r requires 0 <= r < |vss| => PackEntries(Range(|vss[r]|), vss[r]))
  }

  /** Packed rows laid out one after another give a canonical storage of the dense matrix. */
  lemma PackRowsDense(nCols: int, vss: seq<seq<real>>)
    requires |vss| >= 1 && nCols >= 1 && IsMatrix(vss, nCols)
    ensures Canonical(FromRows(nCols, PackRows(vss)))
    ensures Dense(FromRows(nCols, PackRows(vss))) == vss
  {
    var rows := PackRows(vss);
    var t := FromRows(nCols, rows);
    forall r | 0 <= r < |vss|
      ensures Increasing(rows[r].cols) && LanesInRange(rows[r].cols, nCols)
      ensures RowPadded(rows[r], nCols) && RowNoZero(rows[r])
      ensures forall c :: 0 <= c < nCols ==> LaneAt(rows[r].values, rows[r].cols, c / N)[c % N] == vss[r][c]
    {
      PackDense(vss[r], nCols);
    }
    FromRowsCanonical(nCols, rows);
    FromRowsLanes(nCols, rows);
    forall r | 0 <= r < |vss| ensures Dense(t)[r] == vss[r] {
      assert forall c :: 0 <= c < nCols ==> Entry(t, r, c) == vss[r][c];
    }
  }

  // ---------------------------------------------------------------------------
  // matmul(Matrix)

  /**
   * matmul's entry (r, c): row c of the right operand's transpose times the lanes of
   * row r of the left operand, lane by lane, reduced.
   */
  function ProductEntry(a: Storage, bt: Storage, r: int, c: int): real
    requires WellFormed(a) && WellFormed(bt) && bt.nCols == a.nCols && 0 <= r < a.nRows && 0 <= c < bt.nRows
  {
    Sum(RowProduct(bt, c, FullLanes(RowValues(a, r), RowCols(a, r), LanesFor(a.nCols))))
  }

  /** With the naive transpose of `b`, matmul's entry is the product's entry. */
  lemma ProductEntryIsDot(a: Storage, b: Storage, r: int, c: int)
    requires Canonical(a) && Shape(b) && a.nCols == b.nRows && 0 <= r < a.nRows && 0 <= c < b.nCols
    ensures Canonical(TransposeSpec(b)) && TransposeSpec(b).nCols == a.nCols
    ensures ProductEntry(a, TransposeSpec(b), r, c) == DenseProduct(Dense(a), Dense(b), b.nCols)[r][c]
  {
    var bt := TransposeSpec(b);
    TransposeSpecDense(b);
    var xl := FullLanes(RowValues(a, r), RowCols(a, r), LanesFor(a.nCols));
    RowProductIsDot(bt, c, xl);
    DenseRowLanes(a, r);
    DotSymmetric(Dense(bt)[c], Dense(a)[r]);
  }

  /** The product in canonical form: each row of the dense product packed into lanes. */
  function MatMulSpec(a: Storage, b: Storage): (t: Storage)
    requires Shape(a) && Shape(b) && a.nCols == b.nRows
  {
    FromRows(b.nCols, PackRows(DenseProduct(Dense(a), Dense(b), b.nCols)))
  }

  lemma MatMulSpecDense(a: Storage, b: Storage)
    requires Shape(a) && Shape(b) && a.nCols == b.nRows
    ensures Canonical(MatMulSpec(a, b)) && MatMulSpec(a, b).nRows == a.nRows && MatMulSpec(a, b).nCols == b.nCols
    ensures Dense(MatMulSpec(a, b)) == DenseProduct(Dense(a), Dense(b), b.nCols)
  {
    PackRowsDense(b.nCols, DenseProduct(Dense(a), Dense(b), b.nCols));
  }

  /** The state of matmul's emission loop in one row: the lanes emitted and the lane being filled. */
  datatype Emission = Emission(row: RowLanes, lastIndex: int, lastLane: Lane)

  /**
   * matmul's emission loop as written, fed the columns whose lane sum is not zero and
   * their reduced values: the lane being filled starts as the zero lane with index 0
   * and is emitted only when a column of another lane arrives, so the last one never is.
   */
  function EmitAsWritten(cs: seq<int>, vs: seq<real>): Emission
    requires |cs| == |vs| && forall k :: 0 <= k < |cs| ==> cs[k] >= 0
  {
    if cs == [] then Emission(RowLanes([], []), 0, ZeroLane())
    else
      var e := EmitAsWritten(cs[..|cs| - 1], vs[..|vs| - 1]);
      var c := cs[|cs| - 1];
      var v := vs[|vs| - 1];
      if c / N == e.lastIndex then Emission(e.row, e.lastIndex, e.lastLane[c % N := v])
      else Emission(RowLanes(e.row.values + [e.lastLane], e.row.cols + [e.lastIndex]), c / N, Unit(c % N, v))
  }

  /**
   * A product row whose only non-zero is in column 0 emits no lane at all, and one whose
   * only non-zero is in column 4 emits the all-zero lane under index 0 instead of its
   * own lane under index 1.
   */
  lemma MatMulEmitAsWritten()
    ensures EmitAsWritten([0], [1.0]).row == RowLanes([], [])
    ensures PackEntries([0], [1.0]) == RowLanes([Unit(0, 1.0)], [0])
    ensures EmitAsWritten([4], [1.0]).row == RowLanes([ZeroLane()], [0])
    ensures PackEntries([4], [1.0]) == RowLanes([Unit(0, 1.0)], [1])
  {
    EmitAsWrittenColumnZero();
    EmitAsWrittenColumnFour();
  }

  lemma EmitAsWrittenColumnZero()
    ensures EmitAsWritten([0], [1.0]).row == RowLanes([], [])
    ensures PackEntries([0], [1.0]) == RowLanes([Unit(0, 1.0)], [0])
  {
    assert [0][..0] == [] && [1.0][..0] == [];
  }

  lemma EmitAsWrittenColumnFour()
    ensures EmitAsWritten([4], [1.0]).row == RowLanes([ZeroLane()], [0])
    ensures PackEntries([4], [1.0]) == RowLanes([Unit(0, 1.0)], [1])
  {
    assert N == 4;
    assert [4][..0] == [] && [1.0][..0] == [];
  }

  /**
   * Entry (r, c) of matmul as written: for each stored lane i of row c of the
   * transpose `bt`, line 832 asks getSIMD for the lane of row r of `a` under `b`'s own
   * lane index at position i instead of `bt`'s.  getSIMD fails for an index outside
   * [0, ceil(C, N)).  The positions must lie inside `b`'s arrays: past them the source
   * reads beyond their end.
   */
  function ProductEntryAsWritten(a: Storage, b: Storage, bt: Storage, r: int, c: int): Result<real>
    requires WellFormed(a) && Shape(bt) && 0 <= r < a.nRows && 0 <= c < bt.nRows
    requires bt.rowPointers[c + 1] <= |b.colVectIndexes|
  {
    var idx := b.colVectIndexes[bt.rowPointers[c]..bt.rowPointers[c + 1]];
    if forall k :: 0 <= k < |idx| ==> 0 <= idx[k] < LanesFor(a.nCols) then
      Ok(Sum(SparseAccumulate(RowValues(bt, c), idx, FullLanes(RowValues(a, r), RowCols(a, r), LanesFor(a.nCols)))))
    else
      Err("Given dimensions out of bounds!")
  }

  /**
   * Where `b`'s lane indexes at the positions of row c of its transpose are the
   * transpose's own, the as-written entry is the product's entry.
   */
  lemma ProductEntryAsWrittenAgrees(a: Storage, b: Storage, bt: Storage, r: int, c: int)
    requires Canonical(a) && Shape(b) && a.nCols == b.nRows && 0 <= r < a.nRows && 0 <= c < b.nCols
    requires bt == TransposeSpec(b) && Shape(bt) && bt.rowPointers[c + 1] <= |b.colVectIndexes|
    requires b.colVectIndexes[bt.rowPointers[c]..bt.rowPointers[c + 1]] == RowCols(bt, c)
    ensures ProductEntryAsWritten(a, b, bt, r, c) == Ok(DenseProduct(Dense(a), Dense(b), b.nCols)[r][c])
  {
    ProductEntryIsDot(a, b, r, c);
    var idx := b.colVectIndexes[bt.rowPointers[c]..bt.rowPointers[c + 1]];
    var xl := FullLanes(RowValues(a, r), RowCols(a, r), LanesFor(a.nCols));
    RowConditions(bt, c);
    assert idx == Row(bt, c).cols;
    assert forall k :: 0 <= k < |idx| ==> 0 <= idx[k] < LanesFor(a.nCols);
    assert ProductEntryAsWritten(a, b, bt, r, c) == Ok(Sum(SparseAccumulate(RowValues(bt, c), idx, xl)));
  }

  /** The 1 x 5 matrix [[2, 0, 0, 0, 3]]: lane 0 holds the 2 and lane 1 the 3. */
  function TwoLaneRow(): (s: Storage)
    ensures Shape(s) && s.nRows == 1 && s.nCols == 5
  {
    Storage(1, 5, [Unit(0, 2.0), Unit(0, 3.0)], [0, 1], [0, 2])
  }

  /** The 5 x 1 matrix whose only non-zero is a 1 in row 4, stored in lane 0 of row 4. */
  function BottomOne(): (s: Storage)
    ensures Shape(s) && s.nRows == 5 && s.nCols == 1
  {
    Storage(5, 1, [Unit(0, 1.0)], [0], [0, 0, 0, 0, 0, 1])
  }

  /** Its transpose [[0, 0, 0, 0, 1]]: the 1 sits in lane 1. */
  function BottomOneTransposed(): (s: Storage)
    ensures Shape(s) && s.nRows == 1 && s.nCols == 5
  {
    Storage(1, 5, [Unit(0, 1.0)], [1], [0, 1])
  }

  lemma TwoLaneRowDense()
    ensures Canonical(TwoLaneRow()) && Dense(TwoLaneRow()) == [[2.0, 0.0, 0.0, 0.0, 3.0]]
  {
    assert N == 4;
    var s := TwoLaneRow();
    assert Unit(0, 2.0)[0] == 2.0 && Unit(0, 3.0)[0] == 3.0;
    assert Row(s, 0) == RowLanes([Unit(0, 2.0), Unit(0, 3.0)], [0, 1]);
    assert RowLane(s, 0, 0) == Unit(0, 2.0) && RowLane(s, 0, 1) == Unit(0, 3.0);
    assert Dense(s)[0] == [2.0, 0.0, 0.0, 0.0, 3.0];
  }

  lemma BottomOneDense()
    ensures Canonical(BottomOne()) && Dense(BottomOne()) == [[0.0], [0.0], [0.0], [0.0], [1.0]]
  {
    assert N == 4;
    var s := BottomOne();
    assert Unit(0, 1.0)[0] == 1.0;
    forall r | 0 <= r < 4 ensures Dense(s)[r] == [0.0] {
      assert RowCols(s, r) == [];
    }
    assert Row(s, 4) == RowLanes([Unit(0, 1.0)], [0]);
    assert Dense(s)[4] == [1.0];
  }

  lemma BottomOneTransposedDense()
    ensures Canonical(BottomOneTransposed()) && Dense(BottomOneTransposed()) == [[0.0, 0.0, 0.0, 0.0, 1.0]]
  {
    assert N == 4;
    var t := BottomOneTransposed();
    assert Unit(0, 1.0)[0] == 1.0;
    assert Row(t, 0) == RowLanes([Unit(0, 1.0)], [1]);
    assert RowLane(t, 0, 0) == ZeroLane() && RowLane(t, 0, 1) == Unit(0, 1.0);
    assert Dense(t)[0] == [0.0, 0.0, 0.0, 0.0, 1.0];
  }

  lemma ColumnTransposed()
    ensures Transpose([[0.0], [0.0], [0.0], [0.0], [1.0]], 1) == [[0.0, 0.0, 0.0, 0.0, 1.0]]
  {
    assert Transpose([[0.0], [0.0], [0.0], [0.0], [1.0]], 1)[0] == [0.0, 0.0, 0.0, 0.0, 1.0];
  }

  lemma BottomOneTransposedIsTranspose()
    ensures TransposeSpec(BottomOne()) == BottomOneTransposed()
  {
    var b := BottomOne();
    BottomOneDense();
    BottomOneTransposedDense();
    ColumnTransposed();
    TransposeSpecDense(b);
    CanonicalUnique(TransposeSpec(b), BottomOneTransposed());
  }

  /**
   * [[2, 0, 0, 0, 3]] times the column with a 1 in row 4: the product is 3, but the lane
   * sum line 832 forms multiplies the transpose's lane 1 by the left operand's lane 0,
   * the index the right operand stores at that position, and reduces to 2.
   */
  lemma MatMulLaneIndexAsWritten()
    ensures Canonical(TwoLaneRow()) && TransposeSpec(BottomOne()) == BottomOneTransposed()
    ensures ProductEntryAsWritten(TwoLaneRow(), BottomOne(), BottomOneTransposed(), 0, 0) == Ok(2.0)
    ensures DenseProduct(Dense(TwoLaneRow()), Dense(BottomOne()), 1) == [[3.0]]
  {
    assert N == 4;
    var a := TwoLaneRow();
    TwoLaneRowDense();
    BottomOneDense();
    BottomOneTransposedIsTranspose();
    var bt := BottomOneTransposed();
    assert RowValues(bt, 0) == [Unit(0, 1.0)];
    assert LanesFor(5) == 2;
    var xl := FullLanes(RowValues(a, 0), RowCols(a, 0), 2);
    assert xl[0] == Unit(0, 2.0);
    assert [Unit(0, 1.0)][..0] == [] && [0][..0] == [];
    assert SparseAccumulate([Unit(0, 1.0)], [0], xl) == LaneAdd(ZeroLane(), LaneMul(Unit(0, 1.0), Unit(0, 2.0)));
    assert LaneAdd(ZeroLane(), LaneMul(Unit(0, 1.0), Unit(0, 2.0))) == [2.0, 0.0, 0.0, 0.0];
    SumOfExample();
    ProductOfExample();
  }

  lemma SumOfExample()
    ensures Sum([2.0, 0.0, 0.0, 0.0]) == 2.0
  {
    var l1 := [2.0];
    var l2 := l1 + [0.0];
    var l3 := l2 + [0.0];
    var l4 := l3 + [0.0];
    assert l1[..0] == [] && l2[..1] == l1 && l3[..2] == l2 && l4[..3] == l3;
    assert Sum(l1) == 2.0;
    assert Sum(l2) == 2.0;
    assert Sum(l3) == 2.0;
    assert l4 == [2.0, 0.0, 0.0, 0.0];
  }

  lemma ProductOfExample()
    ensures DenseProduct([[2.0, 0.0, 0.0, 0.0, 3.0]], [[0.0], [0.0], [0.0], [0.0], [1.0]], 1) == [[3.0]]
  {
    var b := [[0.0], [0.0], [0.0], [0.0], [1.0]];
    var x := [2.0, 0.0, 0.0, 0.0, 3.0];
    var y := [0.0, 0.0, 0.0, 0.0, 1.0];
    ColumnTransposed();
    assert x[..4] == [2.0, 0.0, 0.0, 0.0] && y[..4] == Zeros(4);
    DotZeroRight([2.0, 0.0, 0.0, 0.0]);
    assert Dot(x, y) == 3.0;
    var p := DenseProduct([x], b, 1);
    assert p[0][0] == Dot(x, y);
    assert p[0] == [3.0];
  }

  // ---------------------------------------------------------------------------
  // The operations on the flat arrays, as SparseMatrix.Matrix performs them in place

  /** The row pointers at positions lo .. hi - 1 moved by `d`, the others kept. */
  function ShiftFrom(ptrs: seq<int>, lo: int, hi: int, d: int): (q: seq<int>)
    ensures |q| == |ptrs|
    ensures forall k :: 0 <= k < |ptrs| ==> q[k] == if lo <= k < hi then ptrs[k] + d else ptrs[k]
  {
    seq(|ptrs|, k requires 0 <= k < |ptrs| => if lo <= k < hi then ptrs[k] + d else ptrs[k])
  }

  /** Overwriting element p of the slice xs[lo..hi] in place. */
  lemma SpliceUpdate<T>(xs: seq<T>, lo: int, hi: int, p: int, x: T)
    requires 0 <= lo <= hi <= |xs| && 0 <= p < hi - lo
    ensures xs[..lo] + xs[lo..hi][p := x] + xs[hi..] == xs[lo + p := x]
  {
    var ys := xs[..lo] + xs[lo..hi][p := x] + xs[hi..];
    assert forall k :: 0 <= k < |ys| ==> ys[k] == xs[lo + p := x][k];
  }

  /** Inserting before element p of the slice xs[lo..hi] in place. */
  lemma SpliceInsert<T>(xs: seq<T>, lo: int, hi: int, p: int, x: T)
    requires 0 <= lo <= hi <= |xs| && 0 <= p <= hi - lo
    ensures xs[..lo] + (xs[lo..hi][..p] + [x] + xs[lo..hi][p..]) + xs[hi..] == xs[..lo + p] + [x] + xs[lo + p..]
  {
    var ys := xs[..lo] + (xs[lo..hi][..p] + [x] + xs[lo..hi][p..]) + xs[hi..];
    var zs := xs[..lo + p] + [x] + xs[lo + p..];
    assert |ys| == |zs|;
    forall k | 0 <= k < |ys| ensures ys[k] == zs[k] {
      if k < lo + p {
        assert ys[k] == xs[k] && zs[k] == xs[k];
      } else if k > lo + p {
        assert ys[k] == xs[k - 1] && zs[k] == xs[k - 1];
      }
    }
  }

  /** Erasing element p of the slice xs[lo..hi] in place. */
  lemma SpliceErase<T>(xs: seq<T>, lo: int, hi: int, p: int)
    requires 0 <= lo <= hi <= |xs| && 0 <= p < hi - lo
    ensures xs[..lo] + (xs[lo..hi][..p] + xs[lo..hi][p + 1..]) + xs[hi..] == xs[..lo + p] + xs[lo + p + 1..]
  {
    var ys := xs[..lo] + (xs[lo..hi][..p] + xs[lo..hi][p + 1..]) + xs[hi..];
    var zs := xs[..lo + p] + xs[lo + p + 1..];
    assert |ys| == |zs|;
    forall k | 0 <= k < |ys| ensures ys[k] == zs[k] {
      if k < lo + p {
        assert ys[k] == xs[k] && zs[k] == xs[k];
      } else {
        assert ys[k] == xs[k + 1] && zs[k] == xs[k + 1];
      }
    }
  }

  /** The arrays of a storage, unchanged, under ReplaceRow of a row by itself with new lane values. */
  lemma SpliceSame(xs: seq<int>, lo: int, hi: int)
    requires 0 <= lo <= hi <= |xs|
    ensures xs[..lo] + xs[lo..hi] + xs[hi..] == xs
  {
  }

  /**
   * place writing into a lane the scan finds stored, which stays stored: one slot of the
   * flat lane array changes, the indexes and pointers do not.
   */
  lemma PlaceSpecUpdate(s: Storage, r: int, c: int, v: real, i: int)
    requires WellFormed(s) && 0 <= r < s.nRows && 0 <= c < s.nCols
    requires i == s.rowPointers[r] + Find(RowCols(s, r), c / N)
    requires var p := Find(RowCols(s, r), c / N); p < |RowCols(s, r)| && RowCols(s, r)[p] == c / N
    requires v != 0.0 || s.values[i][c % N := 0.0] != ZeroLane()
    ensures PlaceSpec(s, r, c, v) == s.(values := s.values[i := s.values[i][c % N := v]])
  {
    var vals := RowValues(s, r);
    var cols := RowCols(s, r);
    var p := Find(cols, c / N);
    assert vals[p] == s.values[i];
    assert PlaceSpec(s, r, c, v) == ReplaceRow(s, r, RowLanes(vals[p := vals[p][c % N := v]], cols));
    ReplaceRowUpdated(s, r, p, vals[p][c % N := v], i);
  }

  /** Splicing in row r with its lane at position p replaced is a single-slot update of the lanes. */
  lemma ReplaceRowUpdated(s: Storage, r: int, p: int, l: Lane, i: int)
    requires Shape(s) && 0 <= r < s.nRows && 0 <= p < |RowCols(s, r)| && i == s.rowPointers[r] + p
    ensures ReplaceRow(s, r, RowLanes(RowValues(s, r)[p := l], RowCols(s, r))) == s.(values := s.values[i := l])
  {
    var lo := s.rowPointers[r];
    var hi := s.rowPointers[r + 1];
    var t := ReplaceRow(s, r, RowLanes(RowValues(s, r)[p := l], RowCols(s, r)));
    SpliceUpdate(s.values, lo, hi, p, l);
    SpliceSame(s.colVectIndexes, lo, hi);
    assert t.rowPointers == s.rowPointers;
  }

  /** place inserting a new lane where the scan stops: one lane and index inserted, later pointers up by one. */
  lemma PlaceSpecInsert(s: Storage, r: int, c: int, v: real, i: int)
    requires WellFormed(s) && 0 <= r < s.nRows && 0 <= c < s.nCols && v != 0.0
    requires i == s.rowPointers[r] + Find(RowCols(s, r), c / N)
    requires var p := Find(RowCols(s, r), c / N); !(p < |RowCols(s, r)| && RowCols(s, r)[p] == c / N)
    ensures PlaceSpec(s, r, c, v)
            == Storage(s.nRows, s.nCols, s.values[..i] + [Unit(c % N, v)] + s.values[i..],
                       s.colVectIndexes[..i] + [c / N] + s.colVectIndexes[i..], ShiftFrom(s.rowPointers, r + 1, s.nRows + 1, 1))
  {
    var vals := RowValues(s, r);
    var cols := RowCols(s, r);
    var p := Find(cols, c / N);
    var row := RowLanes(vals[..p] + [Unit(c % N, v)] + vals[p..], cols[..p] + [c / N] + cols[p..]);
    assert PlaceSpec(s, r, c, v) == ReplaceRow(s, r, row);
    ReplaceRowInserted(s, r, p, Unit(c % N, v), c / N, i);
  }

  /** Splicing in row r with one more lane at position p is an insertion into the arrays. */
  lemma ReplaceRowInserted(s: Storage, r: int, p: int, l: Lane, j: int, i: int)
    requires Shape(s) && 0 <= r < s.nRows && 0 <= p <= |RowCols(s, r)| && i == s.rowPointers[r] + p
    ensures var vals, cols := RowValues(s, r), RowCols(s, r);
            ReplaceRow(s, r, RowLanes(vals[..p] + [l] + vals[p..], cols[..p] + [j] + cols[p..]))
            == Storage(s.nRows, s.nCols, s.values[..i] + [l] + s.values[i..],
                       s.colVectIndexes[..i] + [j] + s.colVectIndexes[i..], ShiftFrom(s.rowPointers, r + 1, s.nRows + 1, 1))
  {
    var lo := s.rowPointers[r];
    var hi := s.rowPointers[r + 1];
    var vals := RowValues(s, r);
    var cols := RowCols(s, r);
    var row := RowLanes(vals[..p] + [l] + vals[p..], cols[..p] + [j] + cols[p..]);
    var t := ReplaceRow(s, r, row);
    assert |row.values| - (hi - lo) == 1;
    SpliceInsert(s.values, lo, hi, p, l);
    SpliceInsert(s.colVectIndexes, lo, hi, p, j);
    assert t.values == s.values[..lo + p] + [l] + s.values[lo + p..];
    assert t.colVectIndexes == s.colVectIndexes[..lo + p] + [j] + s.colVectIndexes[lo + p..];
    assert t.rowPointers == ShiftFrom(s.rowPointers, r + 1, s.nRows + 1, 1);
  }

  lemma PlaceSpecErase(s: Storage, r: int, c: int, i: int)
    requires WellFormed(s) && 0 <= r < s.nRows && 0 <= c < s.nCols
    requires i == s.rowPointers[r] + Find(RowCols(s, r), c / N)
    requires var p := Find(RowCols(s, r), c / N); p < |RowCols(s, r)| && RowCols(s, r)[p] == c / N
    requires s.values[i][c % N := 0.0] == ZeroLane()
    ensures PlaceSpec(s, r, c, 0.0)
            == Storage(s.nRows, s.nCols, s.values[..i] + s.values[i + 1..],
                       s.colVectIndexes[..i] + s.colVectIndexes[i + 1..], ShiftFrom(s.rowPointers, r + 1, s.nRows + 1, -1))
  {
    var vals := RowValues(s, r);
    var cols := RowCols(s, r);
    var p := Find(cols, c / N);
    assert vals[p] == s.values[i];
    assert PlaceSpec(s, r, c, 0.0) == ReplaceRow(s, r, RowLanes(vals[..p] + vals[p + 1..], cols[..p] + cols[p + 1..]));
    ReplaceRowErased(s, r, p, i);
  }

  /** Splicing in row r without its lane at position p is an erasure from the arrays. */
  lemma ReplaceRowErased(s: Storage, r: int, p: int, i: int)
    requires Shape(s) && 0 <= r < s.nRows && 0 <= p < |RowCols(s, r)| && i == s.rowPointers[r] + p
    ensures var vals, cols := RowValues(s, r), RowCols(s, r);
            ReplaceRow(s, r, RowLanes(vals[..p] + vals[p + 1..], cols[..p] + cols[p + 1..]))
            == Storage(s.nRows, s.nCols, s.values[..i] + s.values[i + 1..],
                       s.colVectIndexes[..i] + s.colVectIndexes[i + 1..], ShiftFrom(s.rowPointers, r + 1, s.nRows + 1, -1))
  {
    var lo := s.rowPointers[r];
    var hi := s.rowPointers[r + 1];
    var vals := RowValues(s, r);
    var cols := RowCols(s, r);
    var row := RowLanes(vals[..p] + vals[p + 1..], cols[..p] + cols[p + 1..]);
    var t := ReplaceRow(s, r, row);
    assert |row.values| - (hi - lo) == -1;
    SpliceErase(s.values, lo, hi, p);
    SpliceErase(s.colVectIndexes, lo, hi, p);
    assert t.values == s.values[..lo + p] + s.values[lo + p + 1..];
    assert t.colVectIndexes == s.colVectIndexes[..lo + p] + s.colVectIndexes[lo + p + 1..];
    assert t.rowPointers == ShiftFrom(s.rowPointers, r + 1, s.nRows + 1, -1);
  }

  // ---------------------------------------------------------------------------
  // place(row, vectIndex, lane)

  /** Row r with the first `count` slots of lane j (those inside the row) set from `l`. */
  function LanePlaced(d: seq<seq<real>>, r: int, j: int, l: Lane, count: nat): (m: seq<seq<real>>)
    requires 0 <= r < |d|
    ensures |m| == |d| && |m[r]| == |d[r]|
    ensures forall r' :: 0 <= r' < |d| && r' != r ==> m[r'] == d[r']
    ensures forall c :: 0 <= c < |d[r]| ==> m[r][c] == if c / N == j && c % N < count then l[c % N] else d[r][c]
  {
    d[r := seq(|d[r]|, c requires 0 <= c < |d[r]| => if c / N == j && c % N < count then l[c % N] else d[r][c])]
  }

  lemma LanePlacedStart(d: seq<seq<real>>, r: int, j: int, l: Lane)
    requires 0 <= r < |d|
    ensures LanePlaced(d, r, j, l, 0) == d
  {
    assert LanePlaced(d, r, j, l, 0)[r] == d[r];
  }

  /** Placing slot e of the lane: one entry set when its column lies in the row, nothing otherwise. */
  lemma LanePlacedStep(d: seq<seq<real>>, r: int, j: int, l: Lane, e: nat)
    requires 0 <= r < |d| && e < N && j >= 0
    ensures j * N + e < |d[r]| ==>
              LanePlaced(d, r, j, l, e + 1)
              == LanePlaced(d, r, j, l, e)[r := LanePlaced(d, r, j, l, e)[r][j * N + e := l[e]]]
    ensures j * N + e >= |d[r]| ==> LanePlaced(d, r, j, l, e + 1) == LanePlaced(d, r, j, l, e)
  {
    var m := LanePlaced(d, r, j, l, e);
    var m' := LanePlaced(d, r, j, l, e + 1);
    SlotIndex(j, e);
    forall c | 0 <= c < |d[r]| ensures m'[r][c] == if c == j * N + e then l[e] else m[r][c] {
      SameColumn(c, j * N + e);
    }
    if j * N + e < |d[r]| {
      assert m'[r] == m[r][j * N + e := l[e]];
    } else {
      assert m'[r] == m[r];
    }
  }

  // ---------------------------------------------------------------------------
  // Element-wise +=, -=, *= lane by lane

  /**
   * The matrix after the element-wise loop has done rows 0 .. row - 1 and lanes
   * 0 .. j - 1 of row `row`: those entries combined, the rest as in `a`.
   */
  function OpPrefix(op: ElemOp, a: seq<seq<real>>, b: seq<seq<real>>, row: int, j: int): (m: seq<seq<real>>)
    requires |a| == |b| && forall r :: 0 <= r < |a| ==> |a[r]| == |b[r]|
    ensures |m| == |a|
  {
    seq(|a|, r requires 0 <= r < |a| =>
      seq(|a[r]|, c requires 0 <= c < |a[r]| => if r < row || (r == row && c / N < j) then ApplyOp(op, a[r][c], b[r][c]) else a[r][c]))
  }

  lemma OpPrefixStart(op: ElemOp, a: seq<seq<real>>, b: seq<seq<real>>)
    requires |a| == |b| && forall r :: 0 <= r < |a| ==> |a[r]| == |b[r]|
    ensures OpPrefix(op, a, b, 0, 0) == a
  {
    forall r | 0 <= r < |a| ensures OpPrefix(op, a, b, 0, 0)[r] == a[r] {
    }
  }

  lemma OpPrefixEnd(op: ElemOp, a: seq<seq<real>>, b: seq<seq<real>>)
    requires |a| == |b| && forall r :: 0 <= r < |a| ==> |a[r]| == |b[r]|
    ensures OpPrefix(op, a, b, |a|, 0) == DenseOp(op, a, b)
  {
    forall r | 0 <= r < |a| ensures OpPrefix(op, a, b, |a|, 0)[r] == DenseOp(op, a, b)[r] {
    }
  }

  /** After the last lane of a row the loop moves to the next row. */
  lemma OpPrefixNextRow(op: ElemOp, a: seq<seq<real>>, b: seq<seq<real>>, row: int, nCols: nat)
    requires |a| == |b| && IsMatrix(a, nCols) && IsMatrix(b, nCols)
    ensures OpPrefix(op, a, b, row, LanesFor(nCols)) == OpPrefix(op, a, b, row + 1, 0)
  {
    forall r | 0 <= r < |a| ensures OpPrefix(op, a, b, row, LanesFor(nCols))[r] == OpPrefix(op, a, b, row + 1, 0)[r] {
      forall c | 0 <= c < nCols ensures c / N < LanesFor(nCols) {
        ColumnLane(c, nCols);
      }
    }
  }

  /** Lane j of row `row` is still as in `a` when the loop reaches it. */
  lemma OpPrefixLane(op: ElemOp, a: seq<seq<real>>, b: seq<seq<real>>, row: int, j: int, nCols: nat)
    requires |a| == |b| && IsMatrix(a, nCols) && IsMatrix(b, nCols) && 0 <= row < |a|
    ensures DenseLane(OpPrefix(op, a, b, row, j)[row], nCols, j) == DenseLane(a[row], nCols, j)
  {
    var m := OpPrefix(op, a, b, row, j);
    if 0 <= j < LanesFor(nCols) {
      forall e | 0 <= e < N ensures DenseLane(m[row], nCols, j)[e] == DenseLane(a[row], nCols, j)[e] {
        OpPrefixLaneSlot(op, a, b, row, j, nCols, e);
      }
    }
  }

  lemma OpPrefixLaneSlot(op: ElemOp, a: seq<seq<real>>, b: seq<seq<real>>, row: int, j: int, nCols: nat, e: int)
    requires |a| == |b| && IsMatrix(a, nCols) && IsMatrix(b, nCols) && 0 <= row < |a|
    requires 0 <= j < LanesFor(nCols) && 0 <= e < N
    ensures DenseLane(OpPrefix(op, a, b, row, j)[row], nCols, j)[e] == DenseLane(a[row], nCols, j)[e]
  {
    var c := j * N + e;
    SlotIndex(j, e);
    if c < nCols {
      var m := OpPrefix(op, a, b, row, j);
      assert c / N == j;
      assert m[row][c] == a[row][c];
    }
  }

  /** Placing the combined lane advances the loop by one lane. */
  lemma OpPrefixStep(op: ElemOp, a: seq<seq<real>>, b: seq<seq<real>>, row: int, j: int, nCols: nat)
    requires |a| == |b| && IsMatrix(a, nCols) && IsMatrix(b, nCols) && 0 <= row < |a| && 0 <= j
    ensures LanePlaced(OpPrefix(op, a, b, row, j), row, j, LaneOp(op, DenseLane(a[row], nCols, j), DenseLane(b[row], nCols, j)), N)
            == OpPrefix(op, a, b, row, j + 1)
  {
    var m := OpPrefix(op, a, b, row, j);
    var l := LaneOp(op, DenseLane(a[row], nCols, j), DenseLane(b[row], nCols, j));
    var m' := OpPrefix(op, a, b, row, j + 1);
    var placed := LanePlaced(m, row, j, l, N);
    forall c | 0 <= c < nCols ensures placed[row][c] == m'[row][c] {
      OpPrefixStepEntry(op, a, b, row, j, nCols, c);
    }
    assert placed[row] == m'[row];
    forall r | 0 <= r < |a| ensures placed[r] == m'[r] {
    }
  }

  lemma OpPrefixStepEntry(op: ElemOp, a: seq<seq<real>>, b: seq<seq<real>>, row: int, j: int, nCols: nat, c: int)
    requires |a| == |b| && IsMatrix(a, nCols) && IsMatrix(b, nCols) && 0 <= row < |a| && 0 <= j && 0 <= c < nCols
    ensures LanePlaced(OpPrefix(op, a, b, row, j), row, j, LaneOp(op, DenseLane(a[row], nCols, j), DenseLane(b[row], nCols, j)), N)[row][c]
            == OpPrefix(op, a, b, row, j + 1)[row][c]
  {
    ColumnLane(c, nCols);
    var e := c % N;
    if c / N == j {
      LaneOpAt(op, DenseLane(a[row], nCols, j), DenseLane(b[row], nCols, j), e);
      assert DenseLane(a[row], nCols, j)[e] == a[row][c] && DenseLane(b[row], nCols, j)[e] == b[row][c];
    }
  }

  /** A lane the loop skips already holds the combined values. */
  lemma OpPrefixSkip(op: ElemOp, a: seq<seq<real>>, b: seq<seq<real>>, row: int, j: int, nCols: nat)
    requires |a| == |b| && IsMatrix(a, nCols) && IsMatrix(b, nCols) && 0 <= row < |a| && 0 <= j
    requires DenseLane(a[row], nCols, j) == ZeroLane()
    requires op == Times || DenseLane(b[row], nCols, j) == ZeroLane()
    ensures OpPrefix(op, a, b, row, j) == OpPrefix(op, a, b, row, j + 1)
  {
    var m := OpPrefix(op, a, b, row, j);
    var m' := OpPrefix(op, a, b, row, j + 1);
    forall c | 0 <= c < nCols ensures m[row][c] == m'[row][c] {
      ColumnLane(c, nCols);
      if c / N == j {
        assert a[row][c] == DenseLane(a[row], nCols, j)[c % N];
        assert b[row][c] == DenseLane(b[row], nCols, j)[c % N];
      }
    }
    assert m[row] == m'[row];
    forall r | 0 <= r < |a| ensures m[r] == m'[r] {
    }
  }

  // ---------------------------------------------------------------------------
  // The identity and diagonal constructors, entry by entry

  /** Setting entry (i, i) to d[i] extends the diagonal by one entry. */
  lemma DiagonalOfStep(rows: nat, cols: nat, d: seq<real>, i: int)
    requires 0 <= i < |d| && i < rows && i < cols
    ensures DiagonalOf(rows, cols, d[..i])[i := DiagonalOf(rows, cols, d[..i])[i][i := d[i]]] == DiagonalOf(rows, cols, d[..i + 1])
    ensures d[i] == 0.0 ==> DiagonalOf(rows, cols, d[..i]) == DiagonalOf(rows, cols, d[..i + 1])
  {
    var m := DiagonalOf(rows, cols, d[..i]);
    var m' := DiagonalOf(rows, cols, d[..i + 1]);
    forall r | 0 <= r < rows ensures m[i := m[i][i := d[i]]][r] == m'[r] {
    }
    if d[i] == 0.0 {
      forall r | 0 <= r < rows ensures m[r] == m'[r] {
      }
    }
  }

  /** The diagonal of a storage whose rows from i on are empty: a new lane for (i, i) is place's insertion. */
  lemma DiagonalPushIsPlace(s: Storage, i: int, v: real)
    requires WellFormed(s) && 0 <= i < s.nRows && i < s.nCols && v != 0.0 && s.rowPointers[i] == |s.values|
    ensures PlaceSpec(s, i, i, v)
            == Storage(s.nRows, s.nCols, s.values[..|s.values|] + [Unit(i % N, v)] + s.values[|s.values|..],
                       s.colVectIndexes[..|s.values|] + [i / N] + s.colVectIndexes[|s.values|..],
                       ShiftFrom(s.rowPointers, i + 1, s.nRows + 1, 1))
  {
    assert s.rowPointers[i] <= s.rowPointers[i + 1];
    assert RowCols(s, i) == [];
    PlaceSpecInsert(s, i, i, v, |s.values|);
  }

  // ---------------------------------------------------------------------------
  // Building rows entry by entry

  /** Packing one more entry is one Push. */
  lemma PackEntriesSnoc(cs: seq<int>, vs: seq<real>, c: int, v: real)
    requires |cs| == |vs| && c >= 0 && forall k :: 0 <= k < |cs| ==> cs[k] >= 0
    ensures PackEntries(cs + [c], vs + [v]) == Push(PackEntries(cs, vs), c, v)
  {
    assert (cs + [c])[..|cs|] == cs && (vs + [v])[..|vs|] == vs;
  }

  /** Entries that are all zero pack into no lanes. */
  lemma {:induction false} PackEntriesZeros(cs: seq<int>, vs: seq<real>)
    requires |cs| == |vs| && forall k :: 0 <= k < |cs| ==> cs[k] >= 0
    requires forall k :: 0 <= k < |vs| ==> vs[k] == 0.0
    ensures PackEntries(cs, vs) == RowLanes([], [])
  {
    if cs != [] {
      PackEntriesZeros(cs[..|cs| - 1], vs[..|vs| - 1]);
    }
  }

  /** A square DiagonalOf is the diagonal matrix of its entries. */
  lemma DiagonalOfSquare(d: seq<real>)
    ensures DiagonalOf(|d|, |d|, d) == DiagonalMatrix(d)
  {
    forall r | 0 <= r < |d| ensures DiagonalOf(|d|, |d|, d)[r] == DiagonalMatrix(d)[r] {
    }
  }

  /** The lanes of every row are sorted by lane index. */
  predicate RowsSorted(s: Storage)
    requires Shape(s)
  {
    forall r :: 0 <= r < s.nRows ==> Increasing(RowCols(s, r))
  }

  /** Placing a zero where the scan finds no lane leaves the arrays as they are. */
  lemma PlaceSpecAbsentZero(s: Storage, r: int, c: int)
    requires WellFormed(s) && 0 <= r < s.nRows && 0 <= c < s.nCols
    requires var p := Find(RowCols(s, r), c / N); !(p < |RowCols(s, r)| && RowCols(s, r)[p] == c / N)
    ensures PlaceSpec(s, r, c, 0.0) == s
  {
  }

  /** A canonical storage of a diagonal matrix with non-zero entries is DiagonalLanes. */
  lemma DiagonalIsDiagonalLanes(s: Storage, d: seq<real>)
    requires Canonical(s) && |d| <= s.nRows && |d| <= s.nCols
    requires forall i :: 0 <= i < |d| ==> d[i] != 0.0
    requires Dense(s) == DiagonalOf(s.nRows, s.nCols, d)
    ensures s == DiagonalLanes(s.nRows, s.nCols, d)
  {
    DiagonalLanesDense(s.nRows, s.nCols, d);
    CanonicalUnique(s, DiagonalLanes(s.nRows, s.nCols, d));
  }
}
