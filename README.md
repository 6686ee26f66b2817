# quantform core in Dafny

This project models the computational core of quantform, a quantitative-finance toolkit.
It has a C++ linear-algebra library (`lalib`, with its helpers in `ulib`) and a Python
library (`pylib`). The model covers:

- **Lanes** (module `Simd`). lalib stores `double`s in SIMD lanes of
  `SIMD_SIZE / sizeof(val_t)` = 32 / 8 = 4 slots. A lane is a `seq<real>` of length `N` = 4.
  `val_t` is modelled as `real`, so every algebraic statement holds in exact arithmetic.
- **The sparse CRS matrix** `Matrix<val_t>` (modules `Crs` and `SparseMatrix`).
  - Its state is the lane array `values`, the lane-column indexes `colVectIndexes` and the
    row pointers `rowPointers`.
  - `Crs` holds the pure storage specification. `Dense(s)` is the matrix the arrays denote.
    `Canonical(s)` is the invariant the operations keep: well formed, zero padding past
    `nCols`, no stored all-zero lane. `PlaceSpec` is the scalar `place`.
  - The transpose, product, stacking, scaling and triplet specifications live there too,
    with the lemmas that tie each one to the dense matrix.
  - `SparseMatrix.Matrix` is a class with the source's fields. Its methods change them in
    place and are proved against the `Crs` functions. Its invariant `Valid()` is
    `Canonical(Rep())` plus the cached counts.
- **The dense lane-packed vector** `Vector<val_t>` (module `DenseVector`). Its state is
  `nElems`, `totalVectCount` and the lane array `values`. `Elems()` is the vector the lanes
  denote. `ZeroPadding()` says the slots past `nElems` are zero, which is what `dot` relies on.
- **The linear solver** `LinearSolver` (module `Solver`).
  - It is a class whose fields `solution`, `nIterations`, `residual`, `milliseconds` and
    `param` are set by the solver methods.
  - CG, CGNR, weighted CGNR, Tikhonov-regularised CGNR and IRLS are loops over dense
    `seq<seq<real>>` values: the source copies the matrix and vectors it works on.
  - The loop invariants state the residual recurrence: `r = b − A·x` for CG and
    `r = Aᵀb − AᵀA·x` for CGNR, and their weighted and stacked forms.
  - Each loop is proved equal to a recursive function of its recurrence (`CgRun`, `CgnrRun`,
    `WcgnrRun`, `IrlsRun`), so every run publishes one determined iterate, count and residual.
  - `DenseAlgebra` holds the dense vector and matrix algebra these rest on.
- **ulib's string and map helpers** (module `Utility`), and the verbosity state machine of
  ulib's logging (module `Logging`, class `Logger`). Standard output is modelled as the text
  written so far.
- **From pylib**: the date record of `QfDate.py` (module `QfDate`), and the option-id
  encoder/decoder and the bisection root finder of `equity/utils.py` (module `EquityUtils`).
  `Decimal` models the decimal `str`/`int` conversions and `rjust` padding these use.
  `Wrappers` holds `Result` and `Outcome`.

Error paths are modelled, not excluded. Where the source calls `ERROR(...)`, which throws,
the model returns `Err`/`Fail` and leaves the state unchanged. Python `assert` failures
become `Err` in the same way.

Where the code and its documented intent differ, the model's operations follow the
intended behaviour, and the behaviour as written is kept in separate members. Each such
place is a row under "## Findings": its as-written member states the code's behaviour and
exhibits the difference, and its corrected member, which the rest of the model uses,
states the intended one.

## Model

Source paths are relative to the repository root. `N` is the lane width 4
(`src/quantform/cpplib/lalib/src/Matrix.hpp:33`), and `INDEX_OFFSET` is 0
(`src/quantform/cpplib/lalib/lalib.hpp:11`).

| member | source | states |
|---|---|---|
| Simd.Reduce | src/quantform/cpplib/lalib/src/Matrix.hpp:37-44 | the horizontal sum of a lane is the sum of its four slots |
| Simd.VectEq | src/quantform/cpplib/lalib/src/Matrix.hpp:116-125 | slot-by-slot comparison answers true exactly when the two lanes are equal |
| Simd.LaneMulBroadcast | src/quantform/cpplib/lalib/src/Matrix.hpp:48-55 | multiplying a lane by the broadcast of s (`_fill`) scales every slot by s |
| Simd.SumLaneMul | src/quantform/cpplib/lalib/src/Vector.hpp:486-502 | the reduced lane product is the inner product of the two lanes |
| DenseVector.LanesFor | src/quantform/cpplib/ulib/src/utility.hpp:178-180 | ceil(n, N): enough lanes for n elements, and for n ≥ 1 not one lane more |
| Utility.Ceil | src/quantform/cpplib/ulib/src/utility.hpp:178-180 | with C++ truncating division, for a ≥ 0 and b > 0 the result r is the least count with r·b ≥ a: r·b ≥ a and (r − 1)·b < a |
| Utility.Split | src/quantform/cpplib/ulib/src/utility.hpp:65-78 | the loop returns exactly Tokens(s, d): the maximal delimiter-free runs of s, in order |
| Utility.NumTokens | src/quantform/cpplib/ulib/src/utility.hpp:46-58 | the counter equals the number of tokens split returns |
| Utility.TokensAreWords | src/quantform/cpplib/ulib/src/utility.hpp:65-78 | no token is empty and no token contains the delimiter |
| Utility.TokensCoverText | src/quantform/cpplib/ulib/src/utility.hpp:65-78 | the tokens, concatenated, are the text with its delimiters removed: nothing is lost or reordered |
| Utility.TokensFromAcross | src/quantform/cpplib/ulib/src/utility.hpp:65-78 | a delimiter ends the current token: the tokens of a + d + b are those of a followed by those of b |
| Utility.Join | src/quantform/cpplib/ulib/src/utility.hpp:82-90 | the loop returns the as-written join, with the delimiter before every string |
| Utility.JoinLeadingDelimiter | src/quantform/cpplib/ulib/src/utility.hpp:86-88 | for a non-empty list, the as-written join is the intended join with one extra leading delimiter |
| Utility.JoinTestCase | src/quantform/cpplib/ulib/tests/utility_tests.cpp:110-130 | join(["Hello", "World"], ' ') is " Hello World" as written, while the intended join gives the "Hello World" the test expects |
| Utility.SplitJoined | src/quantform/cpplib/ulib/src/utility.hpp:65-90 | splitting the intended join of non-empty, delimiter-free words gives the words back |
| Utility.ToLower | src/quantform/cpplib/ulib/src/utility.hpp:94-103 | the loop returns Lower(s), the character-by-character lower-casing |
| Utility.ToUpper | src/quantform/cpplib/ulib/src/utility.hpp:107-116 | the loop returns Upper(s), the character-by-character upper-casing |
| Utility.CaseConversions | src/quantform/cpplib/ulib/src/utility.hpp:94-116 | both mappings keep the length and are idempotent; each absorbs the other; no upper-case letter is left in Lower(s) and no lower-case letter in Upper(s) |
| Utility.TrimLeft | src/quantform/cpplib/ulib/src/utility.hpp:126-138 | the result is a suffix of s, everything cut off is whitespace, and it does not start with whitespace |
| Utility.TrimRight | src/quantform/cpplib/ulib/src/utility.hpp:140-149 | the result is a prefix of s, everything cut off is whitespace, and it does not end with whitespace |
| Utility.Trim | src/quantform/cpplib/ulib/src/utility.hpp:120-150 | fails exactly on the empty string; otherwise returns Trimmed(s), which is "" for an all-whitespace string |
| Utility.TrimmedBetween | src/quantform/cpplib/ulib/src/utility.hpp:120-150 | the trimmed text is exactly s from its first to its last non-whitespace character |
| Utility.TrimmedIsTrimmed | src/quantform/cpplib/ulib/src/utility.hpp:120-150 | trimming is idempotent, and a non-empty trimmed text starts and ends with non-whitespace |
| Utility.KeysAscendingOrdered | src/quantform/cpplib/ulib/src/utility.hpp:155-162 | the keys listed in std::map order contain every key once, nothing else, strictly ascending |
| Utility.MapKeys | src/quantform/cpplib/ulib/src/utility.hpp:155-162 | the loop returns the keys in ascending order |
| Utility.MapVals | src/quantform/cpplib/ulib/src/utility.hpp:167-174 | one value per key, value i being the one stored under the i-th smallest key |
| Logging.ChosenLevel | src/quantform/cpplib/ulib/src/logging.hpp:59-74 | a requested level in 0..5 is kept; any other becomes 5 |
| Logging.Logger.constructor | src/quantform/cpplib/ulib/src/logging.hpp:14-16 | at program start no call has been made, the stored level is BASE_VERBOSITY = 3, nothing is printed |
| Logging.Logger.Verbosity | src/quantform/cpplib/ulib/src/logging.hpp:59-74 | the first call stores the chosen level; every later call ignores its argument; each call returns the stored level |
| Logging.Logger.ErrorMsg | src/quantform/cpplib/ulib/src/logging.hpp:78-86 | always fails, with the composed text, after printing it followed by two blank lines and a newline |
| Logging.Logger.WarningMsg | src/quantform/cpplib/ulib/src/logging.hpp:90-98 | prints once if always_print, and once more iff the level exceeds 1; a first message fixes the level at 3 |
| Logging.Logger.InfoMsg | src/quantform/cpplib/ulib/src/logging.hpp:102-110 | prints exactly once iff always_print or the level exceeds 2; with always_print the level is not consulted or fixed |
| Logging.Logger.LowPriorityMsg | src/quantform/cpplib/ulib/src/logging.hpp:114-118 | prints iff the level exceeds 3; a first message fixes the level at 3 |
| Logging.Logger.DebugMsg | src/quantform/cpplib/ulib/src/logging.hpp:122-126 | prints iff the level exceeds 4; a first message fixes the level at 3 |
| Decimal.NatToStringValue | src/quantform/pylib/equity/utils.py:43-45 | reading back the decimal digits of str(n) gives n |
| Decimal.PadLeftValue | src/quantform/pylib/equity/utils.py:66 | rjust with '0' gives max(width, length) digits with the same value |
| QfDate.DaysInYear | src/quantform/pylib/QfDate.py:34-39 | every convention has 252, 360 or 365 days in the year |
| QfDate.ParseCalendar | src/quantform/pylib/QfDate.py:15-21 | a calendar name is accepted iff it is one of the five, and it names the calendar returned |
| QfDate.ParseConvention | src/quantform/pylib/QfDate.py:25-30 | a convention name is accepted iff it is one of the four, and it names the convention returned |
| QfDate.NamesRoundTrip | src/quantform/pylib/QfDate.py:15-30 | each calendar and convention parses back from its own name |
| QfDate.Make | src/quantform/pylib/QfDate.py:78 | ql.Date accepts exactly the calendar dates of 1901-2199 and keeps the fields given |
| QfDate.NewDate | src/quantform/pylib/QfDate.py:62-79 | an unknown calendar is rejected first, then an unknown convention; success iff both names are known and the date exists, keeping year, month and day |
| QfDate.ReconstructDate | src/quantform/pylib/QfDate.py:62-79 | every valid date is rebuilt by the constructor from its fields and names |
| QfDate.Comparable | src/quantform/pylib/QfDate.py:42-55 | passes iff the conventions and the calendars agree |
| QfDate.ComparisonsGuarded | src/quantform/pylib/QfDate.py:131-155 | every comparison fails on incomparable dates and answers on comparable ones |
| QfDate.OrderIsChronological | src/quantform/pylib/QfDate.py:131-140 | `>` and `==` compare the key year·372 + month·31 + day, which preserves the calendar order (it is not a day count): `>` is lexicographic on (year, month, day) |
| QfDate.Trichotomy | src/quantform/pylib/QfDate.py:131-155 | exactly one of <, ==, > holds; ≤ is < or ==; ≥ is > or ==; a < b iff b > a |
| QfDate.LtTransitive | src/quantform/pylib/QfDate.py:143-145 | < is transitive |
| QfDate.NextMonthStart | src/quantform/pylib/QfDate.py:282-289 | December goes to 1 January of the next year, other months to the 1st of the next month; calendar and convention kept |
| QfDate.PrevMonthStart | src/quantform/pylib/QfDate.py:299-306 | January goes to 1 December of the previous year, other months to the 1st of the previous month; calendar and convention kept |
| QfDate.MonthNavigation | src/quantform/pylib/QfDate.py:282-306 | this month start ≤ d < next month start, previous month start < d, previous(next(d)) is this month start; each exists unless it leaves 1901-2199 |
| QfDate.YearNavigation | src/quantform/pylib/QfDate.py:309-369 | this year's start ≤ d ≤ this year's end; previous start < previous end < this start; this end < next start < next end; each exists iff its year stays in 1901-2199 |
| QfDate.TimeDelta | src/quantform/pylib/QfDate.py:191-200 | under 30/360 the delta is (360·Δy + 30·Δm + Δd) / 360, and it fails exactly on incomparable dates |
| QfDate.TimeDeltaAntisymmetric | src/quantform/pylib/QfDate.py:26 | timedelta(a, b) = −timedelta(b, a) |
| QfDate.TwoDigitsLayout | src/quantform/pylib/QfDate.py:83 | `:02` of a month or day is two digits with that value |
| QfDate.YearLayout | src/quantform/pylib/QfDate.py:83 | a year of 1901-2199 prints as four digits with that value |
| QfDate.StrLayout | src/quantform/pylib/QfDate.py:82-83 | str(d) is ten characters YYYY-MM-DD whose fields read back as the year, month and day |
| EquityUtils.SliceBound | src/quantform/pylib/equity/utils.py:35-49 | a Python slice bound: non-negative in range is kept, negative counts from the end, anything else clamps |
| EquityUtils.ParseDecimal | src/quantform/pylib/equity/utils.py:35 | float("whole.fraction") succeeds iff both parts are digits and not both empty |
| EquityUtils.ParseOptionId | src/quantform/pylib/equity/utils.py:35-51 | on success the underlying is all but the last 15 characters, Call iff the character 9 from the end is 'C', and the maturity is a valid date |
| EquityUtils.PaddedDigits | src/quantform/pylib/equity/utils.py:73 | rjust(k, '0') of str(n), for n < 10^k, is k digits with value n |
| EquityUtils.StrikeFieldLayout | src/quantform/pylib/equity/utils.py:65-66 | the strike field of k thousandths is eight digits: five for k div 1000, three for k mod 1000 |
| EquityUtils.PaddedExpiryLayout | src/quantform/pylib/equity/utils.py:73 | with the year zero-padded, the expiry field is six digits holding yy, mm, dd |
| EquityUtils.ExpiryParse | src/quantform/pylib/equity/utils.py:42-45 | int() of the three expiry slices gives back year − 2000, month and day |
| EquityUtils.StrikeValue | src/quantform/pylib/equity/utils.py:35 | the strike field parses back to k / 1000 |
| EquityUtils.ParseAccepts | src/quantform/pylib/equity/utils.py:35-51 | given what each slice parses to, parse_option_id returns exactly those parts |
| EquityUtils.PaddedRoundTrip | src/quantform/pylib/equity/utils.py:35-75 | parsing the id formed with a zero-padded year gives back underlying, maturity, type and strike for every maturity in 2000-2099 |
| EquityUtils.FormsAgreeFrom2010 | src/quantform/pylib/equity/utils.py:73 | from 2010 on the as-written id and the padded id coincide |
| EquityUtils.RoundTrip | src/quantform/pylib/equity/utils.py:35-75 | parse(form(u, d, t, k)) = (u, d, t, k / 1000) for maturities in 2010-2099 and strikes below 100000 |
| EquityUtils.UnpaddedYearExample | src/quantform/pylib/equity/utils.py:73 | a 2005 maturity gives the 18-character id AAPL50815C00237500 |
| EquityUtils.UnpaddedYearRejected | src/quantform/pylib/equity/utils.py:42-47 | parsing that id fails: the date slice is "L50815", and `int("L5")` of its first two characters raises |
| EquityUtils.UnpaddedYearBreaksRoundTrip | src/quantform/pylib/equity/utils.py:35-75 | so the round trip fails for a 2005 maturity |
| EquityUtils.HalvedWidth | src/quantform/pylib/equity/utils.py:92-98 | after k halvings the bracket width is the initial width / 2^k, and either half of it halves again |
| EquityUtils.Bisection | src/quantform/pylib/equity/utils.py:78-102 | fails iff upper ≤ lower or the signs are not f(lower) < 0 < f(upper); otherwise the bracket stays inside the original one with f(lo) < 0 < f(hi), its width is the original / 2^k, and the midpoint is returned once f is 0 there or the width is ≤ tol |
| DenseVector.Vector.NewZeros | src/quantform/cpplib/lalib/src/Vector.hpp:127-136 | fails iff n < 1; otherwise n elements, all zero, in ceil(n, N) lanes with zero padding |
| DenseVector.Vector.NewFilled | src/quantform/cpplib/lalib/src/Vector.hpp:140-149 | fails iff n < 1; otherwise n copies of the value, padding kept zero (the corrected constructor) |
| DenseVector.Vector.FromElems | src/quantform/cpplib/lalib/src/Vector.hpp:153-176 | fails iff n < 1 or n ≠ the input's length; otherwise the elements are the input, padding zero (the corrected constructor) |
| DenseVector.Vector.FromLanes | src/quantform/cpplib/lalib/src/Vector.hpp:180-190 | requires at least ceil(n, 4) lanes when n ≥ 1, which the source does not check; fails iff n < 1; otherwise takes the lanes as given |
| DenseVector.Vector.Copy | src/quantform/cpplib/lalib/src/Vector.hpp:113-123 | a fresh vector with the same length, lane count and lanes |
| DenseVector.Vector.Place | src/quantform/cpplib/lalib/src/Vector.hpp:236-245 | fails iff the index is outside [0, n) and changes nothing then; otherwise element i becomes v, every other element is kept, and zero padding is kept |
| DenseVector.ElementsUpdate | src/quantform/cpplib/lalib/src/Vector.hpp:236-245 | writing slot i % N of lane i / N updates exactly element i |
| DenseVector.Vector.PlaceLane | src/quantform/cpplib/lalib/src/Vector.hpp:249-256 | fails iff the lane index is outside [0, lanes); otherwise replaces that lane |
| DenseVector.Vector.Get | src/quantform/cpplib/lalib/src/Vector.hpp:263-272 | fails iff the index is outside [0, n); otherwise returns element i |
| DenseVector.Vector.GetSimd | src/quantform/cpplib/lalib/src/Vector.hpp:276-283 | fails iff the lane index is out of range; otherwise returns that lane |
| DenseVector.Vector.Equals | src/quantform/cpplib/lalib/src/Vector.hpp:327-337 | true iff the two vectors have the same elements |
| DenseVector.Vector.GetElems | src/quantform/cpplib/lalib/src/Vector.hpp:524-532 | returns the n elements the lanes denote |
| DenseVector.Vector.ElementwiseAssign | src/quantform/cpplib/lalib/src/Vector.hpp:350-403 | `+=`, `-=`, `*=`: fail iff the lengths differ; otherwise element i becomes a[i] op b[i], and zero padding is kept |
| DenseVector.ZipElements | src/quantform/cpplib/lalib/src/Vector.hpp:350-403 | the lane-wise operation denotes the element-wise one |
| DenseVector.ZipPadding | src/quantform/cpplib/lalib/src/Vector.hpp:350-403 | the lane-wise operation keeps zero padding: 0 op 0 = 0 for + − × |
| DenseVector.Vector.Elementwise | src/quantform/cpplib/lalib/src/Vector.hpp:365-409 | `+`, `-`, `*`: a fresh vector holding a[i] op b[i]; the operands are untouched; fails iff the lengths differ |
| DenseVector.Vector.DivideAssign | src/quantform/cpplib/lalib/src/Vector.hpp:437-454 | fails iff the lengths differ, for any divisor; otherwise element i becomes a[i] / b[i], and the padding is not divided (the corrected operator) |
| DenseVector.DivideElements | src/quantform/cpplib/lalib/src/Vector.hpp:437-448 | dividing the element slots only denotes element-wise division and keeps zero padding |
| DenseVector.Vector.ScaleAssign | src/quantform/cpplib/lalib/src/Vector.hpp:413-427 | every element is multiplied by s, and zero padding is kept |
| DenseVector.ScaleElements | src/quantform/cpplib/lalib/src/Vector.hpp:413-427 | scaling the lanes denotes scaling the elements and keeps zero padding |
| DenseVector.Vector.Scaled | src/quantform/cpplib/lalib/src/Vector.hpp:431-433 | a fresh vector of the scaled elements |
| DenseVector.Vector.DivideScalarAssign | src/quantform/cpplib/lalib/src/Vector.hpp:458-465 | fails iff s = 0, changing nothing; otherwise every element is multiplied by 1 / s |
| DenseVector.Vector.DividedByScalar | src/quantform/cpplib/lalib/src/Vector.hpp:469-476 | fails iff s = 0; otherwise a fresh vector of the elements times 1 / s |
| DenseVector.Vector.Dot | src/quantform/cpplib/lalib/src/Vector.hpp:486-502 | fails iff the lengths differ; returns the sum of the accumulated lane products, which is Σ a[i]·b[i] when either operand has zero padding |
| DenseVector.AccumulateIsDot | src/quantform/cpplib/lalib/src/Vector.hpp:493-499 | the lane accumulator's sum is the inner product of the flattened lanes |
| DenseVector.LaneDotIsDot | src/quantform/cpplib/lalib/src/Vector.hpp:486-502 | with zero padding on either side, it is the inner product of the elements |
| DenseVector.PackLanesElements | src/quantform/cpplib/lalib/src/Vector.hpp:153-176 | packing a sequence into lanes denotes that sequence, with zero padding |
| DenseVector.Vector.AddRows | src/quantform/cpplib/lalib/src/Vector.hpp:536-541 | a fresh vector whose elements are the first vector's followed by the second's, with zero padding (the corrected operation) |
| DenseVector.AddRowsPacked | src/quantform/cpplib/lalib/src/Vector.hpp:536-541 | repacking the concatenated elements denotes the concatenation |
| DenseVector.Vector.Apply | src/quantform/cpplib/lalib/src/Vector.hpp:545-553 | a fresh vector of the same length holding f of each element, with zero padding; the receiver is untouched |
| DenseVector.Vector.IsClose | src/quantform/cpplib/lalib/src/Vector.hpp:582-592 | true iff the lengths agree and every pair of elements is within tol |
| DenseVector.Vector.CopyRange | src/quantform/cpplib/lalib/src/Vector.hpp:300-302 | the loop copies exactly elements start up to end |
| DenseVector.Vector.Slice | src/quantform/cpplib/lalib/src/Vector.hpp:287-307 | fails unless 0 ≤ start < end ≤ n; otherwise a fresh vector holding elements start up to end (the corrected loop) |
| DenseVector.Stack | src/quantform/cpplib/lalib/src/Vector.hpp:650-663 | fails iff the list is empty; otherwise a fresh vector holding every element of every vector, in order |
| DenseVector.FillAsWrittenPadding | src/quantform/cpplib/lalib/src/Vector.hpp:140-149 | as written, a non-zero fill value lands in the padding whenever n is not a multiple of N |
| DenseVector.FillAsWrittenDot | src/quantform/cpplib/lalib/src/Vector.hpp:140-149 | so Vector(1, 1.0) has squared norm 1 but dot with itself gives 4 |
| DenseVector.FromSeqAsWrittenReadsPastEnd | src/quantform/cpplib/lalib/src/Vector.hpp:166-172 | as written, the constructor reads past the input exactly when n is not a multiple of N |
| DenseVector.SliceAsWrittenOverruns | src/quantform/cpplib/lalib/src/Vector.hpp:300-301 | as written, slice(1, 2) of a two-element vector writes past its one-element buffer |
| DenseVector.SliceAsWrittenFromZero | src/quantform/cpplib/lalib/src/Vector.hpp:300-301 | as written, slices from 0 are right |
| DenseVector.AddRowsAsWrittenAligned | src/quantform/cpplib/lalib/src/Vector.hpp:536-541 | as written, concatenating lanes is right when the first length is a multiple of N |
| DenseVector.AddRowsAsWrittenMisplaces | src/quantform/cpplib/lalib/src/Vector.hpp:536-541 | as written, [1] with [2] gives [1, 0] |
| DenseVector.AddRowsAsWrittenZeroTail | src/quantform/cpplib/lalib/src/LinearSolver.hpp:358 | as written, appending a zero vector is still right, as in the Tikhonov right-hand side |
| DenseVector.DivisionAsWrittenHitsPadding | src/quantform/cpplib/lalib/src/Vector.hpp:444 | as written, when n is not a multiple of N the last lane of a divisor with zero padding has a zero slot, so the division divides by zero |
| SparseMatrix.ShiftPointers | src/quantform/cpplib/lalib/src/Matrix.hpp:454-457 | the loop adds d to every row pointer from a given row on and keeps the rest |
| SparseMatrix.Matrix.Zeros | src/quantform/cpplib/lalib/src/Matrix.hpp:157-169 | fails iff a dimension is < 1; otherwise the empty storage, the rows × cols zero matrix |
| SparseMatrix.Matrix.Copy | src/quantform/cpplib/lalib/src/Matrix.hpp:139-153 | a fresh matrix with the same arrays |
| SparseMatrix.Matrix.Identity | src/quantform/cpplib/lalib/src/Matrix.hpp:173-197 | fails iff a dimension is < 1; otherwise the matrix with the scalar at (i, i) for i < min(rows, cols) and zero elsewhere, stored canonically (the corrected constructor); for a non-zero scalar these are the source's own arrays |
| SparseMatrix.Matrix.PushDiagonal | src/quantform/cpplib/lalib/src/Matrix.hpp:189-196 | appending the lane of (i, i) and bumping the later row pointers is place(i, i, v) |
| SparseMatrix.Matrix.DiagonalStep | src/quantform/cpplib/lalib/src/Matrix.hpp:189-196 | one step of the corrected diagonal loop: the first i + 1 diagonal entries are placed, and a zero entry stores no lane (the source's loop stores one; see "## Findings") |
| SparseMatrix.Matrix.FillDiagonal | src/quantform/cpplib/lalib/src/Matrix.hpp:201-218 | the zero matrix becomes the diagonal matrix of the given entries |
| SparseMatrix.Matrix.Diagonal | src/quantform/cpplib/lalib/src/Matrix.hpp:201-218 | a fresh n × n matrix with the vector on its diagonal, stored canonically (the corrected constructor); when no entry is zero these are the source's own arrays |
| Crs.DiagonalZeroEntryAsWritten | src/quantform/cpplib/lalib/src/Matrix.hpp:209-216 | as written, a diagonal with a zero entry stores an all-zero lane: the arrays denote the diagonal matrix but differ from every canonical storage of it |
| Crs.DiagonalLanesDense | src/quantform/cpplib/lalib/src/Matrix.hpp:173-218 | the lanes the diagonal loops build denote the diagonal matrix, and hold no all-zero lane iff no diagonal entry is 0 |
| SparseMatrix.Matrix.FromLanes | src/quantform/cpplib/lalib/src/Matrix.hpp:222-244 | for any arrays: fails iff a lane index is outside [0, ceil(cols, N)) or a row pointer outside [0, number of lane indexes]; otherwise a fresh matrix holding the arrays as given, which satisfies the class invariant iff they are canonical |
| Crs.CanonicalPassesChecks | src/quantform/cpplib/lalib/src/Matrix.hpp:228-233 | canonical arrays pass the lane-array constructor's range checks, so an operation that builds a canonical result never reaches that ERROR |
| SparseMatrix.FromTriplets | src/quantform/cpplib/lalib/src/Matrix.hpp:248-297 | fails iff a column index or a row pointer is out of bounds; otherwise entry (i, j) is the value given for (i, j), or 0 |
| SparseMatrix.TripletArrays | src/quantform/cpplib/lalib/src/Matrix.hpp:263-296 | the row loop builds exactly the arrays of the triplet specification |
| SparseMatrix.TripletRowOf | src/quantform/cpplib/lalib/src/Matrix.hpp:270-290 | one row's triplets packed into lanes |
| SparseMatrix.TripletsInRange | src/quantform/cpplib/lalib/src/Matrix.hpp:252-257 | the check answers true iff every column index of every row is in range |
| Crs.TripletSpecDense | src/quantform/cpplib/lalib/src/Matrix.hpp:248-297 | the triplet arrays are canonical and denote the matrix of the triplets |
| Crs.PackEntriesLookup | src/quantform/cpplib/lalib/src/Matrix.hpp:270-290 | packing sorted (column, value) pairs into lanes puts each value in the lane and slot of its column |
| SparseMatrix.Matrix.Scan | src/quantform/cpplib/lalib/src/Matrix.hpp:426-443 | the scan stops at the first lane of the row whose index is not below the wanted one |
| SparseMatrix.Matrix.Place | src/quantform/cpplib/lalib/src/Matrix.hpp:385-505 | fails iff (row, col) is outside the matrix, changing nothing; otherwise the storage becomes PlaceSpec, entry (row, col) becomes the value and every other entry is kept |
| SparseMatrix.Matrix.PlaceNonZero | src/quantform/cpplib/lalib/src/Matrix.hpp:404-457 | the non-zero branch: update the lane in place or insert a new one, and shift the later row pointers |
| SparseMatrix.Matrix.PlaceZero | src/quantform/cpplib/lalib/src/Matrix.hpp:461-504 | the zero branch: clear the slot and erase the lane once it is all zero, shifting the later row pointers back |
| SparseMatrix.Matrix.SetSlot | src/quantform/cpplib/lalib/src/Matrix.hpp:431-433 | writes one slot of one stored lane and nothing else |
| SparseMatrix.Matrix.InsertLane | src/quantform/cpplib/lalib/src/Matrix.hpp:436-457 | inserts a lane and its index at a position and shifts the later row pointers by one |
| SparseMatrix.Matrix.EraseLane | src/quantform/cpplib/lalib/src/Matrix.hpp:477-503 | erases a lane and its index and shifts the later row pointers back by one |
| Crs.PlaceKeepsInvariants | src/quantform/cpplib/lalib/src/Matrix.hpp:404-504 | place keeps the CRS invariants: pointer bounds and order, strictly increasing lane indexes in range, zero padding, no all-zero lane |
| Crs.PlaceEntry | src/quantform/cpplib/lalib/src/Matrix.hpp:385-505 | after place(r, c, v), entry (r, c) is v and every other entry is unchanged |
| Crs.PlaceDense | src/quantform/cpplib/lalib/src/Matrix.hpp:385-505 | the matrix after place is the old one with (r, c) set to v |
| Crs.PlaceZeroAbsentIsNoop | src/quantform/cpplib/lalib/src/Matrix.hpp:461-498 | placing zero where no lane is stored changes nothing |
| Crs.PlaceZeroErasesLane | src/quantform/cpplib/lalib/src/Matrix.hpp:473-503 | placing zero that empties a lane removes it and moves every later row pointer back by one |
| Crs.CanonicalUnique | src/quantform/cpplib/lalib/src/Matrix.hpp:385-505 | two canonical storages of the same shape denoting the same matrix are identical |
| SparseMatrix.Matrix.Get | src/quantform/cpplib/lalib/src/Matrix.hpp:528-563 | fails iff (row, col) is outside the matrix; otherwise returns the entry |
| SparseMatrix.Matrix.LaneOf | src/quantform/cpplib/lalib/src/Matrix.hpp:567-593 | the scan finds the stored lane of the row, or the zero lane |
| SparseMatrix.Matrix.GetSimd | src/quantform/cpplib/lalib/src/Matrix.hpp:567-593 | fails iff the row or lane index is out of range; otherwise returns lane j of the row, the matrix's entries in columns 4j to 4j + 3 |
| SparseMatrix.Matrix.PlaceLane | src/quantform/cpplib/lalib/src/Matrix.hpp:509-521 | fails iff the lane's first in-range column is outside the matrix; otherwise the in-range slots of the lane are placed one by one |
| SparseMatrix.Matrix.PlaceSlot | src/quantform/cpplib/lalib/src/Matrix.hpp:513-520 | one step of that loop: the first e + 1 slots are placed |
| SparseMatrix.Matrix.Equals | src/quantform/cpplib/lalib/src/Matrix.hpp:620-638 | true iff the storages are identical, which is iff the two matrices have the same shape and entries (the corrected comparison, which also compares row pointers) |
| Crs.EqualIffSameMatrix | src/quantform/cpplib/lalib/src/Matrix.hpp:620-638 | canonical storages are equal iff they denote the same matrix |
| Crs.EqualsAsWrittenIgnoresPointers | src/quantform/cpplib/lalib/src/Matrix.hpp:626-635 | as written, [[1], [0]] and [[0], [1]] compare equal |
| SparseMatrix.Matrix.ElementwiseAssign | src/quantform/cpplib/lalib/src/Matrix.hpp:653-733 | `+=`, `-=`, `*=`: fail iff the shapes differ, changing nothing; otherwise the matrix becomes the entry-wise operation of the two, with the invariants kept |
| SparseMatrix.Matrix.ElementwiseRow | src/quantform/cpplib/lalib/src/Matrix.hpp:659-670 | after row r, rows 0..r hold the entry-wise result and the rest is unchanged |
| SparseMatrix.Matrix.ElementwiseLane | src/quantform/cpplib/lalib/src/Matrix.hpp:660-669 | after lane j of row r, that lane holds the entry-wise result too |
| SparseMatrix.Matrix.Elementwise | src/quantform/cpplib/lalib/src/Matrix.hpp:677-739 | `+`, `-`, `*`: a fresh matrix of the entry-wise operation; operands untouched; fails iff the shapes differ |
| SparseMatrix.Matrix.ScaleAssign | src/quantform/cpplib/lalib/src/Matrix.hpp:743-757 | every entry is multiplied by k, and the storage stays canonical: scaling by 0 empties it (the corrected operator) |
| SparseMatrix.Matrix.ScaleValues | src/quantform/cpplib/lalib/src/Matrix.hpp:749-754 | the loop multiplies every stored lane by the broadcast of k |
| Crs.ScaleLanesDense | src/quantform/cpplib/lalib/src/Matrix.hpp:743-757 | scaling every lane denotes the scaled matrix, keeps well-formedness and zero padding, and for k ≠ 0 keeps no all-zero lane |
| Crs.ScaleSpecDense | src/quantform/cpplib/lalib/src/Matrix.hpp:743-757 | the corrected scaling is canonical and denotes the scaled matrix |
| Crs.ScaleByZeroAsWritten | src/quantform/cpplib/lalib/src/Matrix.hpp:743-757 | as written, scaling by 0 keeps every lane, now all zero: the matrix is zero but its arrays are not the zero matrix's |
| SparseMatrix.Matrix.Scaled | src/quantform/cpplib/lalib/src/Matrix.hpp:761-763 | a fresh matrix with every entry multiplied by k |
| SparseMatrix.Matrix.DivideScalarAssign | src/quantform/cpplib/lalib/src/Matrix.hpp:772-779 | fails iff k = 0, changing nothing; otherwise every entry is multiplied by 1 / k |
| SparseMatrix.Matrix.DividedByScalar | src/quantform/cpplib/lalib/src/Matrix.hpp:783-790 | fails iff k = 0; otherwise a fresh matrix of the entries times 1 / k |
| SparseMatrix.Matrix.RowLanesDot | src/quantform/cpplib/lalib/src/Matrix.hpp:915-923 | the loop accumulates the products of the row's stored lanes with the matching lanes of x |
| Crs.RowProductIsDot | src/quantform/cpplib/lalib/src/Matrix.hpp:899-926 | with zero padding on either side, the reduced accumulator is the row's inner product with x |
| SparseMatrix.Matrix.RowDot | src/quantform/cpplib/lalib/src/Matrix.hpp:899-926 | fails iff the row is out of range or the lengths differ; otherwise returns Σⱼ A(r, j)·x[j] |
| SparseMatrix.Matrix.MatMulVec | src/quantform/cpplib/lalib/src/Matrix.hpp:865-895 | fails iff the lengths differ; otherwise a fresh vector holding A·x, with zero padding |
| SparseMatrix.Matrix.ProductIntoRow | src/quantform/cpplib/lalib/src/Matrix.hpp:874-892 | after row r, elements 0..r of the result hold A·x and the rest are zero |
| SparseMatrix.Matrix.AddRows | src/quantform/cpplib/lalib/src/Matrix.hpp:993-1012 | fails iff the column counts differ; otherwise a fresh matrix whose rows are the first's followed by the second's |
| Crs.AddRowsRows | src/quantform/cpplib/lalib/src/Matrix.hpp:993-1012 | row r of the stacked storage is row r of the first for r < R₁, and row r − R₁ of the second after |
| Crs.AddRowsEntry | src/quantform/cpplib/lalib/src/Matrix.hpp:993-1012 | entry-wise form of the same |
| Crs.AddRowsDense | src/quantform/cpplib/lalib/src/Matrix.hpp:993-1012 | the stacked storage is canonical and denotes the rows of both, in order |
| SparseMatrix.Stack | src/quantform/cpplib/lalib/src/Matrix.hpp:1307-1320 | fails iff the list is empty or a width differs from the first; otherwise a fresh matrix of all their rows, in order |
| SparseMatrix.StackStep | src/quantform/cpplib/lalib/src/Matrix.hpp:1315-1317 | one step of the stacking loop |
| SparseMatrix.Matrix.ColumnOf | src/quantform/cpplib/lalib/src/Matrix.hpp:1035-1036 | collects column c of the matrix |
| SparseMatrix.Matrix.TransposeRowOf | src/quantform/cpplib/lalib/src/Matrix.hpp:1034-1060 | packs column c into the lanes of row c of the transpose |
| SparseMatrix.Matrix.TransposeArrays | src/quantform/cpplib/lalib/src/Matrix.hpp:1020-1063 | the column loop builds exactly the arrays of the transpose specification |
| SparseMatrix.Matrix.NaiveTranspose | src/quantform/cpplib/lalib/src/Matrix.hpp:1020-1063 | a fresh C × R matrix whose rows are the columns of A |
| Crs.TransposeSpecEntries | src/quantform/cpplib/lalib/src/Matrix.hpp:1020-1063 | T(c, r) = A(r, c) for every r, c |
| Crs.TransposeSpecDense | src/quantform/cpplib/lalib/src/Matrix.hpp:1020-1063 | the transpose storage is canonical and denotes the transposed matrix |
| SparseMatrix.Matrix.Transpose | src/quantform/cpplib/lalib/src/Matrix.hpp:1071-1166 | the same result as naiveTranspose (the corrected operation) |
| Crs.TransposePointersAsWrittenIff | src/quantform/cpplib/lalib/src/Matrix.hpp:1088-1163 | the fast transpose's row pointers are right iff no row of the transpose is empty |
| Crs.FastTransposeAsWrittenIff | src/quantform/cpplib/lalib/src/Matrix.hpp:1071-1166 | as written, transpose agrees with naiveTranspose iff every column of A holds a non-zero |
| Crs.FastTransposeAsWrittenMisplaces | src/quantform/cpplib/lalib/src/Matrix.hpp:1161-1163 | as written, the transpose of [[0, 1]] comes out as [[1], [0]] |
| Crs.AsWrittenPointersInRange | src/quantform/cpplib/lalib/src/Matrix.hpp:1088-1163 | the fast transpose's row pointers all lie in [0, lanes stored] iff the last row of the transpose stores a lane |
| Crs.FastTransposeAsWrittenFails | src/quantform/cpplib/lalib/src/Matrix.hpp:1071-1166 | as written, the arrays transpose hands to the lane-array constructor pass its range checks iff A's last column holds a non-zero |
| Crs.FastTransposeAsWrittenRejects | src/quantform/cpplib/lalib/src/Matrix.hpp:1161-1165 | as written, the arrays built for the transpose of [[1, 0]] fail the range checks |
| SparseMatrix.Matrix.TransposeAsWritten | src/quantform/cpplib/lalib/src/Matrix.hpp:1071-1166 | as written: fails iff A's last column is empty; otherwise a fresh matrix holding the fast transpose's arrays |
| Crs.ZeroTransposeStoresNoLane | src/quantform/cpplib/lalib/src/Matrix.hpp:1020-1063 | the transpose of a zero matrix stores no lane: its lane-index array is empty |
| SparseMatrix.Matrix.FullRow | src/quantform/cpplib/lalib/src/Matrix.hpp:834 | row r spread over all its lanes, the zero lane where nothing is stored |
| SparseMatrix.Matrix.ProductEntries | src/quantform/cpplib/lalib/src/Matrix.hpp:820-837 | the reduced sums of row r of the product are the entries of row r of A·B |
| SparseMatrix.Matrix.ProductRow | src/quantform/cpplib/lalib/src/Matrix.hpp:811-856 | row r of the product packed canonically into lanes |
| SparseMatrix.Matrix.ProductArrays | src/quantform/cpplib/lalib/src/Matrix.hpp:797-861 | the row loop builds exactly the arrays of the product specification |
| SparseMatrix.Matrix.MatMul | src/quantform/cpplib/lalib/src/Matrix.hpp:797-861 | fails iff A's columns differ from B's rows; otherwise a fresh R × C matrix whose rows are those of A·B, stored canonically (the corrected operation) |
| Crs.ProductEntryIsDot | src/quantform/cpplib/lalib/src/Matrix.hpp:829-836 | the lane sum over B's transpose is Σₖ A(r, k)·B(k, c) |
| Crs.MatMulSpecDense | src/quantform/cpplib/lalib/src/Matrix.hpp:797-861 | the product specification is canonical, of shape R × C, and denotes A·B |
| Crs.PackRowsDense | src/quantform/cpplib/lalib/src/Matrix.hpp:838-853 | packing dense rows into lanes, dropping all-zero lanes, gives canonical arrays that denote those rows |
| Crs.ProductEntryAsWrittenAgrees | src/quantform/cpplib/lalib/src/Matrix.hpp:829-836 | reading the lane indexes from B's array at Bᵀ's positions gives entry (r, c) of A·B whenever those indexes are Bᵀ's own |
| Crs.MatMulLaneIndexAsWritten | src/quantform/cpplib/lalib/src/Matrix.hpp:832 | as written, [[2, 0, 0, 0, 3]]·[[0], [0], [0], [0], [1]] pairs Bᵀ's lane (index 1) with A's lane 0 and gives 2, while A·B is [[3]] |
| Crs.MatMulEmitAsWritten | src/quantform/cpplib/lalib/src/Matrix.hpp:817-853 | as written, a product row whose only non-zero is in column 0 emits no lane, and one whose only non-zero is in column 4 emits the zero lane under index 0 |
| Crs.IdentityZeroScalarAsWritten | src/quantform/cpplib/lalib/src/Matrix.hpp:189-196 | as written, the identity with scalar 0 stores all-zero lanes: the matrix is zero but its arrays are not the zero matrix's |
| SparseMatrix.Matrix.IsClose | src/quantform/cpplib/lalib/src/Matrix.hpp:1197-1224 | answers the corrected comparison: same shape and every pair of entries within tol; equal matrices are close (the corrected comparison, which also compares row pointers) |
| SparseMatrix.Matrix.CompareClose | src/quantform/cpplib/lalib/src/Matrix.hpp:1207-1221 | the lane-by-lane loop of that comparison |
| SparseMatrix.LanesClose | src/quantform/cpplib/lalib/src/Matrix.hpp:1216-1220 | two lanes are close iff every slot differs by at most tol |
| Crs.IsCloseSpecEntries | src/quantform/cpplib/lalib/src/Matrix.hpp:1197-1224 | close storages have every pair of entries within tol |
| Crs.IsCloseSameMatrix | src/quantform/cpplib/lalib/src/Matrix.hpp:1197-1224 | canonical storages of the same matrix are close for any tol ≥ 0 |
| Crs.IsCloseAsWrittenIgnoresPointers | src/quantform/cpplib/lalib/src/Matrix.hpp:1203-1221 | as written, [[1], [0]] and [[0], [1]] are close for any tol < 1 |
| DenseAlgebra.ResidualStep | src/quantform/cpplib/lalib/src/LinearSolver.hpp:166-167 | updating x by αp and r by −αAp keeps r = b − A·x |
| DenseAlgebra.TransposeTwice | src/quantform/cpplib/lalib/src/LinearSolver.hpp:338 | transposing twice gives the matrix back |
| DenseAlgebra.MatVecDiagonal | src/quantform/cpplib/lalib/src/LinearSolver.hpp:265-270 | the diagonal matrix of w times x is w ⊙ x |
| DenseAlgebra.MatVecStack | src/quantform/cpplib/lalib/src/LinearSolver.hpp:357 | a stacked matrix times x is the two products stacked |
| Solver.MinimizedNormOfResidual | src/quantform/cpplib/lalib/src/LinearSolver.hpp:19-21 | minimizedNorm is the root of the squared residual ‖b − A·x‖², whatever p is |
| Solver.SquaredNormZero | src/quantform/cpplib/lalib/src/LinearSolver.hpp:157 | r·r is 0 iff r is the zero vector |
| Solver.ResidualZeroIff | src/quantform/cpplib/lalib/src/LinearSolver.hpp:154-157 | the squared residual is 0 iff x solves A·x = b |
| Solver.NormalIsTransposedResidual | src/quantform/cpplib/lalib/src/LinearSolver.hpp:209 | Aᵀb − Aᵀ(A·x) = Aᵀ(b − A·x) |
| Solver.NormalResidualStep | src/quantform/cpplib/lalib/src/LinearSolver.hpp:221-222 | updating x by αp and r by −αAᵀ(Ap) keeps r = Aᵀb − AᵀA·x |
| Solver.GramAffine | src/quantform/cpplib/lalib/src/LinearSolver.hpp:282-287 | the weighted normal operator is linear in its argument |
| Solver.WeightedResidualStep | src/quantform/cpplib/lalib/src/LinearSolver.hpp:286-287 | the weighted update keeps r equal to the weighted residual at x |
| Solver.WeightedResidualAtStart | src/quantform/cpplib/lalib/src/LinearSolver.hpp:274 | the starting r of the weighted loop is its residual at x0 |
| Solver.UnitWeightsAreNormal | src/quantform/cpplib/lalib/src/LinearSolver.hpp:274-287 | with all weights 1 the weighted residual is the CGNR one |
| Solver.WeightedFromZero | src/quantform/cpplib/lalib/src/LinearSolver.hpp:262-323 | started from 0, the weighted residual is W·Aᵀ(b − A·(W·x)), the normal residual of the system in the substituted variable |
| Solver.RegulariserProduct | src/quantform/cpplib/lalib/src/LinearSolver.hpp:357 | the regulariser Matrix(n, n, s) is the diagonal matrix of s, and multiplies x by s |
| Solver.TikhonovIsStackedNormal | src/quantform/cpplib/lalib/src/LinearSolver.hpp:357-369 | the CGNR residual of the stacked system [A; s·I] x = [b; 0] is Aᵀb − (AᵀA + s²I)·x |
| Solver.IrlsWeight | src/quantform/cpplib/lalib/src/LinearSolver.hpp:404-405 | the weight is the larger of \|v\|^((p−2)/p) and \|tol\|^((p−2)/p) |
| Solver.Ratio | src/quantform/cpplib/lalib/src/LinearSolver.hpp:164 | the quotient a / b times b is a when b ≠ 0 |
| Solver.LinearSolver.constructor | src/quantform/cpplib/lalib/src/LinearSolver.hpp:97-101 | keeps the matrix rows and the right-hand side; nothing solved yet: solution empty, nIterations, residual, milliseconds and param all −1 |
| Solver.LinearSolver.Solve | src/quantform/cpplib/lalib/src/LinearSolver.hpp:108-138 | stores param, maxIter and tol; succeeds iff the lower-cased name is cg, cgnr, tcgnr or irls and that solver accepts the dimensions; then records the elapsed milliseconds and publishes exactly that solver's run (CgRun, CgnrRun, the stacked CgnrRun or IrlsRun) with its residual properties; on failure the published fields are unchanged |
| Solver.LinearSolver.Dispatch | src/quantform/cpplib/lalib/src/LinearSolver.hpp:116-138 | for a lower-cased name: succeeds iff it is cg, cgnr, tcgnr or irls and that solver accepts the dimensions, then records the elapsed milliseconds and publishes exactly that solver's run with its residual properties; an unknown name fails with nothing changed |
| Solver.LinearSolver.CgSolve | src/quantform/cpplib/lalib/src/LinearSolver.hpp:142-202 | fails, changing nothing, unless rows = \|x0\| = \|b\| = cols; otherwise the loop publishes exactly CgRun from x0: its iterate x, residual = ‖b − A·x‖², and an exit at n ≤ maxIter with residual < tol or at maxIter + 1 with residual ≥ tol |
| Solver.LinearSolver.CgnrSubprocess | src/quantform/cpplib/lalib/src/LinearSolver.hpp:206-258 | the loop publishes exactly CgnrRun from x0 (iterate, iteration count, squared residual) |
| Solver.LinearSolver.WcgnrSubprocess | src/quantform/cpplib/lalib/src/LinearSolver.hpp:262-323 | the loop publishes exactly WcgnrRun from x0 with the weights w |
| Solver.LinearSolver.CgnrSolve | src/quantform/cpplib/lalib/src/LinearSolver.hpp:327-346 | fails, changing nothing, unless cols = \|x0\| and rows = \|b\|; otherwise publishes CgnrRun for A x = b, with residual = ‖Aᵀb − AᵀA·x‖² and the CG exit rule |
| Solver.LinearSolver.TcgnrSolve | src/quantform/cpplib/lalib/src/LinearSolver.hpp:350-371 | same dimension check; otherwise publishes CgnrRun of the stacked system [A; s·I] x = [b; 0], whose residual is that of (AᵀA + s²I) x = Aᵀb |
| Solver.LinearSolver.IrlsSolve | src/quantform/cpplib/lalib/src/LinearSolver.hpp:375-426 | same dimension check; otherwise publishes exactly IrlsRun (the corrected loop): each round weights and restarts from the iterate the round before reached, and the last round's outcome is published with minimizedNorm measured there, nIterations ≥ 1 and the exit: residual ≤ tol or nIterations ≥ maxIter |
| Solver.LinearSolver.IrlsSolveAsWritten | src/quantform/cpplib/lalib/src/LinearSolver.hpp:394-424 | as written, publishes exactly IrlsRunAsWritten: the first CGNR iterate, with the norm of the first weighted round started and weighted there, after 1, 2 or maxIter rounds |
| Solver.CgRun | src/quantform/cpplib/lalib/src/LinearSolver.hpp:153-201 | CG's deterministic run from x0; its iterate has the length of x0 |
| Solver.CgRunPublishes | src/quantform/cpplib/lalib/src/LinearSolver.hpp:153-201 | CG's run ends with residual = ‖b − A·x‖² at its iterate and the exit rule LoopExit |
| Solver.CgnrRun | src/quantform/cpplib/lalib/src/LinearSolver.hpp:208-257 | the CGNR subprocess's deterministic run from x0; its iterate has the length of x0 |
| Solver.CgnrRunPublishes | src/quantform/cpplib/lalib/src/LinearSolver.hpp:208-257 | the CGNR run ends with residual = ‖Aᵀb − AᵀA·x‖² at its iterate and the exit rule LoopExit |
| Solver.WcgnrRun | src/quantform/cpplib/lalib/src/LinearSolver.hpp:262-323 | the weighted subprocess's deterministic run from x0; its iterate has the length of x0 |
| Solver.WcgnrRunPublishes | src/quantform/cpplib/lalib/src/LinearSolver.hpp:262-323 | the weighted run ends with residual the squared weighted residual at its iterate and the exit rule LoopExit |
| Solver.IrlsRounds | src/quantform/cpplib/lalib/src/LinearSolver.hpp:407-416 | the rounds of the corrected loop from round k; the count reached is at least k |
| Solver.IrlsRoundsPublish | src/quantform/cpplib/lalib/src/LinearSolver.hpp:407-416 | the rounds end with the norm measured at their iterate, at least one round, and the exit: norm ≤ tol or count ≥ maxIter |
| Solver.IrlsRun | src/quantform/cpplib/lalib/src/LinearSolver.hpp:394-416 | the corrected IRLS run: CGNR from x0 as round 1, then the weighted rounds |
| Solver.IrlsRunPublishes | src/quantform/cpplib/lalib/src/LinearSolver.hpp:394-424 | IRLS's run publishes minimizedNorm at its iterate, after at least one round, with the exit rule |
| Solver.LinearSolver.WeightedRounds | src/quantform/cpplib/lalib/src/LinearSolver.hpp:407-416 | the corrected loop publishes exactly IrlsRounds from round 1, with the norm at its iterate and the exit rule |
| Solver.ShadowedRounds | src/quantform/cpplib/lalib/src/LinearSolver.hpp:407-416 | the rounds as written publish x1 itself, after 1, 2 or maxIter rounds |
| Solver.IrlsRunAsWritten | src/quantform/cpplib/lalib/src/LinearSolver.hpp:394-424 | the as-written run publishes the first CGNR iterate |
| Solver.LinearSolver.ShadowedLoop | src/quantform/cpplib/lalib/src/LinearSolver.hpp:407-416 | the loop as written computes exactly ShadowedRounds |
| Solver.ShadowedAfterOneRound | src/quantform/cpplib/lalib/src/LinearSolver.hpp:407-424 | when IRLS stops after one weighted round, the as-written run reports the corrected count and norm but publishes the CGNR iterate, not the weighted round's outcome where that norm was measured |
| Solver.LinearSolver.GetSolution | src/quantform/cpplib/lalib/src/LinearSolver.hpp:429-436 | returns the published solution |
| Solver.LinearSolver.GetSolveTime | src/quantform/cpplib/lalib/src/LinearSolver.hpp:439-446 | fails iff no solve has recorded a time (milliseconds < 0); otherwise returns it |

## Left out

- File I/O is not modelled. This covers the file constructors and `save` of `Matrix` and `Vector`, `ulib::lastLine`, the `operator<<` printers, `_toString` and `_printArrays`. The in-memory triplet constructor stands for the parsing.
- OpenMP `parallel for` loops are modelled as sequential loops. Their iterations touch disjoint lanes or rows.
- Hardware SIMD and GCC vector types are not modelled. A lane is a sequence of `N` = 4 reals.
- Floating point is not modelled. `val_t` is `real`, so rounding, NaN and infinities are absent. `sqrt` and `std::pow` are parameters of the members that use them (`root`, `pow`). `frobenius` and `pNorm` are left out because they are only `sqrt` and `pow` over a sum.
- Convergence of CG, CGNR and IRLS is not modelled. The code does not promise it, and it depends on floating point. The model states the recurrences and the exit bookkeeping.
- Timing with `std::chrono` is not modelled. The elapsed milliseconds are a parameter of `Solve`.
- The `LOWPRIORITY`, `WARNING` and `DEBUG` logging inside the solver loops is left out. This includes the `printFrequency` cadence. It changes no field of the solver.
- `ERROR` is modelled as returning `Err`/`Fail` with the state unchanged. In the source it throws `std::runtime_error`.
- The copy constructor and assignment operator of `LinearSolver` are left out. They only copy fields.
- `Matrix::operator=` and `Vector::operator=` are left out. `Copy` states the copy they make.
- `operator!=` is left out. It is the negation of `Equals`.
- The scalar-on-the-left `operator*` (`Matrix.hpp:1300-1302`, `Vector.hpp:643`) is left out. It calls `Scaled`.
- `SparseMatrix.Matrix.FromLanes` accepts any arrays that pass the range checks, as the source does; a matrix built from arrays that are not canonical (unsorted lane indexes, decreasing row pointers, non-zero padding, stored zero lanes) is outside `Valid()`, and no operation of the model is proved for it. The `LOWPRIORITY` log line at `Matrix.hpp:226` is not modelled.
- `SparseMatrix.Matrix.FromLanes` checks the empty lane-index array vacuously, where the source's `max_element` dereference is undefined (see "## Findings").
- `Solver.Ratio` gives 0 where the source's division by zero gives inf or NaN. In particular `alpha = oldResidual / (p.dot(Ap))` (`LinearSolver.hpp:164`) is 0/0 when the start x0 already solves the system.
- `Solver.LinearSolver.CgSolve`, `CgnrSubprocess` and `WcgnrSubprocess` (through `Solver.Ratio`): from an exact start the source's residual becomes NaN, `NaN < tol` is false, so it runs all maxIter + 1 iterations and publishes a NaN solution; the model publishes x0 at iteration 0 with residual 0.
- `Solver.LinearSolver.constructor` keeps only the elements of the right-hand side. The source keeps the padded vector, and `r.dot(r)` (`LinearSolver.hpp:157`) and `minimizedNorm` also sum the padding slots of b − A·x. A right-hand side with non-zero padding (the fill constructor as written, see "## Findings") adds those slots to every residual; with zero padding, as every corrected constructor of the model leaves it, the two agree.
- `DenseVector.Vector.DivideAssign` requires the divisor to have no zero element when the lengths match. Division by zero gives inf or NaN in the source, which `real` cannot hold; the length-mismatch ERROR is modelled for every divisor.
- `EquityUtils.ParseDecimal` accepts only ASCII digits on each side of the point. Python's `float()` also accepts a sign, surrounding whitespace and underscores between digits: the id `AAPL250815C-0001500` gives strike −1.5 in Python and `Err` here.
- `EquityUtils.ParseOptionId` inherits that, and reads the date fields with `Decimal.ParseInt`, which accepts an optional sign and ASCII digits but not the whitespace, underscores and other Unicode digits Python's `int()` also accepts.
- Vector `operator/ (Vector)` is left out. It copies the vector and then calls `DivideAssign`.
- `getValues`, `getColVectIndexes`, `getRowPointers`, `numRows`, `numCols`, `len` and `shape` are left out. They return a field, and the model reads the field directly.
- `SparseMatrix.FromTriplets` requires `rows ≥ 1`, `cols ≥ 1`, exactly `rows + 1` row pointers, as many column indexes as values, and column indexes strictly ascending within each row (`Crs.SortedRows`). The source assumes the ordering and merges only consecutive entries that fall in one lane. It also reads only the first `rows + 1` pointers and the entries they cover, so longer arrays are accepted there; shorter ones are undefined behaviour. Empty matrices, unsorted input and arrays of other lengths are not modelled.
- `DenseVector.Vector.FromLanes` requires at least ceil(n, 4) lanes when n ≥ 1. The source checks nothing here (`Vector.hpp:180-190`); a shorter array makes later lane reads undefined behaviour. Its only caller, `addRows` (`Vector.hpp:540`), passes enough lanes.
- `SparseMatrix.Matrix.TransposeAsWritten` does not render the count, prefix-sum and scatter loops of `Matrix.hpp:1088-1158`. It takes naiveTranspose's lanes and lane indexes and the pointers in closed form (`Crs.TransposePointersAsWritten`). On canonical storage the scatter visits each column's entries in ascending row order and opens a new slot of that column's region for each new lane index, so it produces the same lanes and indexes; that argument is not a Dafny proof.
- `Utility.Trim`: the `WARNING` the source logs for a whitespace-only string is not modelled. The result is still `""`.
- `Utility.MapKeys`, `Utility.MapVals`: keys are modelled as `int`. `std::map`'s order for other key types is the comparison `<` of that type, which the model does not capture.
- `Utility.Trim` treats only `' '`, `'\t'`, `'\n'`, `'\r'`, `'\f'` and `'\v'` as whitespace, which is `isspace` in the C locale. Other locales are not modelled.
- `Solver.LinearSolver.IrlsSolve` and `Solver.MinimizedNormOfResidual` take `pow` and `sqrt` as parameters. The model proves nothing about their values.
- `Solver.LinearSolver.Solve`: `maxIter` and `tol` are stored as given. The source's defaults are `MAX_ITER` = 1e6 and `TOLERANCE` = 1e-6 (`lalib.hpp:19`, `lalib.hpp:23`).
- `EquityUtils.Bisection` requires `tol > 0`. With `tol ≤ 0` the source loop need not terminate over the reals.
- `EquityUtils.Bisection` does not model the function's floating-point rounding near the root.
- Strikes in `EquityUtils` are modelled as integer thousandths, below 100000. Other floats go through `f"{strike:.3f}"` rounding, which is not modelled.
- The parts of `QfDate.py` that depend on QuantLib are left out. These are serial numbers, `days_until`, the business-day loops (`prod_days_until`, `next_prod_date`, `prev_prod_date`), `date_shift`, `__add__`, `__sub__`, `__div__` and the month-end helpers.
- `QfDate.TimeDelta` covers only 30/360. The other conventions call into QuantLib.
- `ql.Date`'s validity is modelled as a Gregorian calendar date with a year in 1901-2199, which is QuantLib's range.
- The rest of pylib (pricers, curves, surfaces, VaR, boundaries, strategies, UI, broker, DB, scheduler) is not part of this model.
- The C interface (`clinsolve.cpp`, `linsolve.py`), the test harness (`testing.hpp`), `ulib::logfile`, `formString` and `getcppStandard` are not part of this model.

## Findings

Each row names two members. The as-written member states the code's behaviour and
exhibits the discrepancy. The corrected member states the intended behaviour, which the
rest of the model uses.

| source | as written | input that shows it | evidently intended | confidence | as-written member | corrected member |
|---|---|---|---|---|---|---|
| src/quantform/cpplib/ulib/src/utility.hpp:86-88 | `join` writes the delimiter before every string | `join({"Hello", "World"}, ' ')` gives `" Hello World"` | delimiters only between strings, as `utility_tests.cpp:110-130` expects | not executed | Utility.JoinLeadingDelimiter | Utility.SplitJoined |
| src/quantform/pylib/equity/utils.py:73 | the year is written as `year - 2000` without zero padding | maturity 2005-08-15 gives `AAPL50815C00237500`, which `parse_option_id` rejects | a two-digit year, so that parse inverts form | not executed | EquityUtils.UnpaddedYearBreaksRoundTrip | EquityUtils.PaddedRoundTrip |
| src/quantform/cpplib/lalib/src/Vector.hpp:148 | the fill constructor broadcasts the value into the padding | `Vector(1, 1.0).dot(itself)` is 4 | padding stays zero | not executed | DenseVector.FillAsWrittenDot | DenseVector.Vector.NewFilled |
| src/quantform/cpplib/lalib/src/Vector.hpp:166-172 | the element constructor reads `elems[vectIndex * 4 + vectElem]` for every slot | any n not a multiple of 4, e.g. n = 1 | read only the n elements and pad with zero | not executed | DenseVector.FromSeqAsWrittenReadsPastEnd | DenseVector.Vector.FromElems |
| src/quantform/cpplib/lalib/src/Vector.hpp:300-301 | `slice` writes `newValues[i]` for i from start | `slice(1, 2)` of a two-element vector writes index 1 of a one-element buffer | `newValues[i - start]` | not executed | DenseVector.SliceAsWrittenOverruns | DenseVector.Vector.Slice |
| src/quantform/cpplib/lalib/src/Vector.hpp:536-541 | `addRows` concatenates the padded lane arrays | `[1]` with `[2]` reads `[1, 0]` | the element sequences concatenated | not executed | DenseVector.AddRowsAsWrittenMisplaces | DenseVector.Vector.AddRows |
| src/quantform/cpplib/lalib/src/Vector.hpp:444 | `/=` divides whole lanes, padding included | any n not a multiple of 4: the padding computes 0 / 0 | divide the element slots only | not executed | DenseVector.DivisionAsWrittenHitsPadding | DenseVector.Vector.DivideAssign |
| src/quantform/cpplib/lalib/src/Matrix.hpp:626-635 | `==` compares lanes and lane indexes but not row pointers | `[[1], [0]] == [[0], [1]]` is true | also compare the row pointers | not executed | Crs.EqualsAsWrittenIgnoresPointers | SparseMatrix.Matrix.Equals |
| src/quantform/cpplib/lalib/src/Matrix.hpp:1207-1221 | `isClose` compares lanes and lane indexes but not row pointers | `[[1], [0]]` is close to `[[0], [1]]` for tol = 1e-6 | also compare the row pointers | not executed | Crs.IsCloseAsWrittenIgnoresPointers | SparseMatrix.Matrix.IsClose |
| src/quantform/cpplib/lalib/src/Matrix.hpp:1161-1163 | the final pass adds one to every row pointer, including those of empty columns (the next row gives the case of an empty last column) | `[[0, 1]].transpose()` is `[[1], [0]]` | the naiveTranspose result | not executed | Crs.FastTransposeAsWrittenMisplaces | SparseMatrix.Matrix.Transpose |
| src/quantform/cpplib/lalib/src/Matrix.hpp:1161-1165 | when A's last column is empty, that pass leaves the last row pointer one past the lanes stored, and the lane-array constructor raises ERROR | `[[1, 0]].transpose()` raises "Matrix dimensions out of bounds!" | the naiveTranspose result | not executed | SparseMatrix.Matrix.TransposeAsWritten | SparseMatrix.Matrix.Transpose |
| src/quantform/cpplib/lalib/src/Matrix.hpp:809 | `matmul` transposes B with the fast `T()`, so it inherits that ERROR and those misplaced pointers | `[[1]]·[[1, 0]]` raises "Matrix dimensions out of bounds!" | transpose B as naiveTranspose does | not executed | Crs.FastTransposeAsWrittenRejects | SparseMatrix.Matrix.MatMul |
| src/quantform/cpplib/lalib/src/Matrix.hpp:832 | `matmul` reads the lane index as `that.colVectIndexes[thatT_i]`, B's array at a position in Bᵀ's; it reads past the end of B's array when Bᵀ stores more lanes than B, and `getSIMD` raises ERROR for an index beyond A's lanes | `[[2, 0, 0, 0, 3]]·[[0], [0], [0], [0], [1]]` gives `[[2]]` instead of `[[3]]`; B = `[[1, 2, 3, 4, 5]]` (two lanes, five in Bᵀ) reads past the end | `thatT.colVectIndexes[thatT_i]` | not executed | Crs.MatMulLaneIndexAsWritten | SparseMatrix.Matrix.MatMul |
| src/quantform/cpplib/lalib/src/Matrix.hpp:226-231 | the lane-array constructor dereferences `max_element` and `min_element` of the lane-index array, which is undefined behaviour when it is empty; the triplet constructor does the same at lines 252-255 | the transpose of the 2 × 2 zero matrix (naiveTranspose hands over an empty lane-index array), and addRows or matmul whose result stores no lane | check the bounds element by element, which empty arrays pass | not executed | Crs.ZeroTransposeStoresNoLane | SparseMatrix.Matrix.FromLanes |
| src/quantform/cpplib/lalib/src/Matrix.hpp:817-853 | matmul never flushes the last lane of a row, and flushes the initial zero lane under index 0 | a product row with one non-zero in column 0 emits nothing; one in column 4 emits the zero lane at index 0 | each row's non-zero lanes, under their own indexes | not executed | Crs.MatMulEmitAsWritten | SparseMatrix.Matrix.MatMul |
| src/quantform/cpplib/lalib/src/Matrix.hpp:743-757 | scaling by 0 keeps every stored lane, now all zero | `A *= 0` for any A with a stored lane | the canonical zero matrix | not executed | Crs.ScaleByZeroAsWritten | SparseMatrix.Matrix.ScaleAssign |
| src/quantform/cpplib/lalib/src/Matrix.hpp:189-196 | the identity constructor stores a lane per diagonal entry even for scalar 0 | `Matrix(1, 1, 0.0)` differs from `Matrix(1, 1)` under `==` | the canonical zero matrix | not executed | Crs.IdentityZeroScalarAsWritten | SparseMatrix.Matrix.Identity |
| src/quantform/cpplib/lalib/src/Matrix.hpp:209-216 | the diagonal constructor stores a lane per entry, a zero entry included | `Matrix(Vector({0.0}))` differs from `Matrix(1, 1)` under `==`; the IRLS weight matrices of `LinearSolver.hpp:265` and `:270` whenever a weight is 0 | canonical storage without zero lanes | not executed | Crs.DiagonalZeroEntryAsWritten | SparseMatrix.Matrix.Diagonal |
| src/quantform/cpplib/lalib/src/LinearSolver.hpp:411 | the loop declares a new `xk`, shadowing the outer one | any run whose loop body executes: the published solution is the first CGNR iterate, every round restarts from it, so the loop stops after one weighted round or runs all maxIter; after one round the published norm belongs to another iterate (ShadowedAfterOneRound) | the loop updates the outer `xk`: each round starts from the previous round's outcome and the last round's outcome is published | not executed | Solver.LinearSolver.IrlsSolveAsWritten | Solver.LinearSolver.IrlsSolve |

`minimizedNorm` (`LinearSolver.hpp:19-21`) takes `p` but always computes the 2-norm. The
model keeps this (`Solver.MinimizedNormOfResidual`). Nothing shows that another norm was
intended at the call sites.
