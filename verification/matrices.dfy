/** Dense real matrices as sequences of rows, with the array operations the
    builders use: zero blocks, identity, horizontal tiling and stacking,
    block-diagonal placement, negation, element-wise sums and removal of
    all-zero rows. Entries are exact reals: the builders only copy, negate,
    add and sign-test them. */
module Matrices {
  import opened Seqs

  type Row = seq<real>
  type Matrix = seq<Row>

  predicate IsZero(row: Row)
  {
    forall k :: 0 <= k < |row| ==> row[k] == 0.0
  }

  predicate NonNeg(row: Row)
  {
    forall k :: 0 <= k < |row| ==> row[k] >= 0.0
  }

  predicate NonPos(row: Row)
  {
    forall k :: 0 <= k < |row| ==> row[k] <= 0.0
  }

  /** Every entry is 0 or 1. */
  predicate Binary(row: Row)
  {
    forall k :: 0 <= k < |row| ==> row[k] == 0.0 || row[k] == 1.0
  }

  /** All entries on one side of zero: non-negative when `up`, non-positive otherwise. */
  predicate Signed(row: Row, up: bool)
  {
    if up then NonNeg(row) else NonPos(row)
  }

  function Zeros(n: nat): (z: Row)
    ensures |z| == n && IsZero(z)
  {
    seq(n, _ => 0.0)
  }

  lemma {:induction false} ZerosJoin(a: nat, b: nat)
    ensures Zeros(a) + Zeros(b) == Zeros(a + b)
  {
  }

  predicate Rect(m: Matrix, cols: nat)
  {
    forall i :: 0 <= i < |m| ==> |m[i]| == cols
  }

  predicate Shape(m: Matrix, rows: nat, cols: nat)
  {
    |m| == rows && Rect(m, cols)
  }

  /** A matrix with at least one row has only one width. */
  lemma {:induction false} RectUnique(m: Matrix, a: nat, b: nat)
    requires |m| > 0 && Rect(m, a)
    ensures Rect(m, b) <==> a == b
  {
    assert |m[0]| == a;
  }

  function ZeroMatrix(rows: nat, cols: nat): (z: Matrix)
    ensures Shape(z, rows, cols)
    ensures forall i :: 0 <= i < rows ==> IsZero(z[i])
  {
    seq(rows, _ => Zeros(cols))
  }

  /** Row `i` of the n-by-n identity. */
  function Unit(n: nat, i: nat): (u: Row)
    ensures |u| == n
  {
    seq(n, j => if j == i then 1.0 else 0.0)
  }

  function Identity(n: nat): Matrix
  {
    seq(n, i requires 0 <= i < n => Unit(n, i))
  }

  /** The number of columns of a matrix, read off its first row. */
  function Width(m: Matrix): nat
  {
    if |m| == 0 then 0 else |m[0]|
  }

  // ---------------------------------------------------------------------------
  // Horizontal tiling

  /** `k` copies of `row` side by side. */
  function Repeat(row: Row, k: nat): Row
  {
    Concat(seq(k, _ => row))
  }

  lemma {:induction false} RepeatLayout(row: Row, k: nat, q: nat, j: nat)
    requires q < k && j < |row|
    ensures |Repeat(row, k)| == k * |row|
    ensures q * |row| + j < k * |row|
    ensures Repeat(row, k)[q * |row| + j] == row[j]
  {
    var xs := seq(k, _ => row);
    ConcatLength(xs);
    PrefixSumConstant(Lengths(xs), |row|, k);
    PrefixSumConstant(Lengths(xs), |row|, q);
    ConcatIndex(xs, q, j);
  }

  lemma {:induction false} RepeatLength(row: Row, k: nat)
    ensures |Repeat(row, k)| == k * |row|
  {
    var xs := seq(k, _ => row);
    ConcatLength(xs);
    PrefixSumConstant(Lengths(xs), |row|, k);
  }

  /** numpy's tile of a matrix along its columns. */
  function Tile(m: Matrix, k: nat): Matrix
  {
    seq(|m|, i requires 0 <= i < |m| => Repeat(m[i], k))
  }

  /** Side-by-side concatenation of two matrices with the same number of rows. */
  function HStack(a: Matrix, b: Matrix): (m: Matrix)
    requires |a| == |b|
    ensures |m| == |a|
  {
    seq(|a|, i requires 0 <= i < |a| => a[i] + b[i])
  }

  function NegRow(row: Row): (n: Row)
    ensures |n| == |row|
  {
    seq(|row|, k requires 0 <= k < |row| => -row[k])
  }

  function Neg(m: Matrix): (n: Matrix)
    ensures |n| == |m|
  {
    seq(|m|, i requires 0 <= i < |m| => NegRow(m[i]))
  }

  function AddRow(a: Row, b: Row): (s: Row)
    requires |a| == |b|
    ensures |s| == |a|
  {
    seq(|a|, k requires 0 <= k < |a| => a[k] + b[k])
  }

  /** Element-wise sum of rows of width `w` (the empty sum is the zero row). */
  function RowsSum(rows: seq<Row>, w: nat): (s: Row)
    requires forall t :: 0 <= t < |rows| ==> |rows[t]| == w
    ensures |s| == w
  {
    if |rows| == 0 then Zeros(w)
    else AddRow(RowsSum(rows[..|rows| - 1], w), rows[|rows| - 1])
  }

  /** A sum of rows that all lie on one side of zero is zero exactly when each row is. */
  lemma {:induction false} RowsSumZero(rows: seq<Row>, w: nat, up: bool)
    requires forall t :: 0 <= t < |rows| ==> |rows[t]| == w
    requires forall t :: 0 <= t < |rows| ==> Signed(rows[t], up)
    ensures Signed(RowsSum(rows, w), up)
    ensures IsZero(RowsSum(rows, w)) <==> forall t :: 0 <= t < |rows| ==> IsZero(rows[t])
  {
    if |rows| > 0 {
      var n := |rows| - 1;
      RowsSumZero(rows[..n], w, up);
      var s := RowsSum(rows[..n], w);
      var x := rows[n];
      if IsZero(AddRow(s, x)) {
        forall k | 0 <= k < w
          ensures s[k] == 0.0 && x[k] == 0.0
        {
          assert AddRow(s, x)[k] == 0.0;
        }
        forall t | 0 <= t < |rows|
          ensures IsZero(rows[t])
        {
          if t < n {
            assert rows[..n][t] == rows[t];
          }
        }
      }
      if forall t :: 0 <= t < |rows| ==> IsZero(rows[t]) {
        assert forall t :: 0 <= t < n ==> IsZero(rows[..n][t]);
      }
    }
  }

  function RowSum(row: Row): real
  {
    if |row| == 0 then 0.0 else RowSum(row[..|row| - 1]) + row[|row| - 1]
  }

  lemma {:induction false} RowSumAppend(a: Row, b: Row)
    ensures RowSum(a + b) == RowSum(a) + RowSum(b)
    decreases |b|
  {
    if |b| == 0 {
      assert a + b == a;
    } else {
      var n := |b| - 1;
      assert (a + b)[..|a + b| - 1] == a + b[..n];
      RowSumAppend(a, b[..n]);
    }
  }

  lemma {:induction false} RowSumZero(row: Row)
    requires IsZero(row)
    ensures RowSum(row) == 0.0
  {
    if |row| > 0 {
      RowSumZero(row[..|row| - 1]);
    }
  }

  // ---------------------------------------------------------------------------
  // Block-diagonal placement

  function Widths(bs: seq<Matrix>): (ws: seq<nat>)
    ensures |ws| == |bs|
    ensures forall b :: 0 <= b < |bs| ==> ws[b] == Width(bs[b])
  {
    seq(|bs|, b requires 0 <= b < |bs| => Width(bs[b]))
  }

  /** First row of block `b` in the block-diagonal matrix. */
  function RowOffset(bs: seq<Matrix>, b: nat): nat
    requires b <= |bs|
  {
    PrefixSum(Lengths(bs), b)
  }

  /** First column of block `b` in the block-diagonal matrix. */
  function ColOffset(bs: seq<Matrix>, b: nat): nat
    requires b <= |bs|
  {
    PrefixSum(Widths(bs), b)
  }

  /** Columns taken by blocks `b`, `b+1`, ... */
  function ColsFrom(bs: seq<Matrix>, b: nat): nat
    requires b <= |bs|
  {
    SuffixSum(Widths(bs), b)
  }

  function TotalCols(bs: seq<Matrix>): nat
  {
    Total(Widths(bs))
  }

  /** Every block is rectangular (all its rows as wide as its first). */
  predicate AllRect(bs: seq<Matrix>)
  {
    forall b :: 0 <= b < |bs| ==> Rect(bs[b], Width(bs[b]))
  }

  /** The rows of block `b`, padded with zeros to the left of its column range
      and to the right of it. */
  function Placed(bs: seq<Matrix>, b: nat): Matrix
    requires b < |bs|
  {
    seq(|bs[b]|, r requires 0 <= r < |bs[b]| =>
      Zeros(ColOffset(bs, b)) + bs[b][r] + Zeros(ColsFrom(bs, b + 1)))
  }

  /** scipy's block_diag: the blocks placed along the diagonal, each starting
      where the previous one ended in both rows and columns, zeros elsewhere. */
  function BlockDiag(bs: seq<Matrix>): Matrix
  {
    Concat(seq(|bs|, b requires 0 <= b < |bs| => Placed(bs, b)))
  }

  lemma {:induction false} BlockDiagRow(bs: seq<Matrix>, b: nat, r: nat)
    requires b < |bs| && r < |bs[b]|
    ensures RowOffset(bs, b) + r < |BlockDiag(bs)|
    ensures BlockDiag(bs)[RowOffset(bs, b) + r]
         == Zeros(ColOffset(bs, b)) + bs[b][r] + Zeros(ColsFrom(bs, b + 1))
  {
    var ps := seq(|bs|, b' requires 0 <= b' < |bs| => Placed(bs, b'));
    assert Lengths(ps) == Lengths(bs);
    ConcatIndex(ps, b, r);
  }

  /** Every row of a block-diagonal matrix is some block row, padded. */
  lemma {:induction false} BlockDiagLocate(bs: seq<Matrix>, i: nat) returns (b: nat, r: nat)
    requires i < |BlockDiag(bs)|
    ensures b < |bs| && r < |bs[b]|
    ensures i == RowOffset(bs, b) + r
    ensures BlockDiag(bs)[i] == Zeros(ColOffset(bs, b)) + bs[b][r] + Zeros(ColsFrom(bs, b + 1))
  {
    var ps := seq(|bs|, b' requires 0 <= b' < |bs| => Placed(bs, b'));
    assert Lengths(ps) == Lengths(bs);
    b, r := ConcatLocate(ps, i);
    BlockDiagRow(bs, b, r);
  }

  lemma {:induction false} BlockDiagShape(bs: seq<Matrix>)
    requires AllRect(bs)
    ensures Shape(BlockDiag(bs), Total(Lengths(bs)), TotalCols(bs))
  {
    var ps := seq(|bs|, b' requires 0 <= b' < |bs| => Placed(bs, b'));
    assert Lengths(ps) == Lengths(bs);
    ConcatLength(ps);
    forall b, r | 0 <= b < |ps| && 0 <= r < |ps[b]|
      ensures |ps[b][r]| == TotalCols(bs)
    {
      PlacedWidth(bs, b, r);
    }
    ConcatForall(ps, (row: Row) => |row| == TotalCols(bs));
  }

  lemma {:induction false} PlacedWidth(bs: seq<Matrix>, b: nat, r: nat)
    requires AllRect(bs)
    requires b < |bs| && r < |bs[b]|
    ensures |Placed(bs, b)[r]| == TotalCols(bs)
  {
    var ws := Widths(bs);
    assert |bs[b][r]| == Width(bs[b]) == ws[b];
    assert PrefixSum(ws, b + 1) == PrefixSum(ws, b) + ws[b];
    PrefixSuffix(ws, b + 1);
    var row := Placed(bs, b)[r];
    assert row == Zeros(ColOffset(bs, b)) + bs[b][r] + Zeros(ColsFrom(bs, b + 1));
    assert |row| == ColOffset(bs, b) + |bs[b][r]| + ColsFrom(bs, b + 1);
  }

  // ---------------------------------------------------------------------------
  // Removal of all-zero rows

  /** The rows of `m` that are not all zero, in their original order
      (numpy's boolean row selection by "not all zero"). */
  function StripZeroRows(m: Matrix): (s: Matrix)
    ensures |s| <= |m|
    ensures forall i :: 0 <= i < |s| ==> !IsZero(s[i])
    ensures forall i :: 0 <= i < |s| ==> s[i] in m
    ensures forall i :: 0 <= i < |m| && !IsZero(m[i]) ==> m[i] in s
  {
    if |m| == 0 then []
    else
      var n := |m| - 1;
      var kept := StripZeroRows(m[..n]);
      assert forall i :: 0 <= i < n ==> m[..n][i] == m[i];
      kept + (if IsZero(m[n]) then [] else [m[n]])
  }

  /** Which rows of `m` survive the removal of all-zero rows. */
  function Mask(m: Matrix): (keep: seq<bool>)
    ensures |keep| == |m|
  {
    seq(|m|, i requires 0 <= i < |m| => !IsZero(m[i]))
  }

  lemma {:induction false} StripCount(m: Matrix)
    ensures |StripZeroRows(m)| == CountTrue(Mask(m))
  {
    if |m| > 0 {
      var n := |m| - 1;
      StripCount(m[..n]);
      assert Mask(m)[..n] == Mask(m[..n]);
    }
  }

  lemma {:induction false} StripAppend(a: Matrix, b: Matrix)
    ensures StripZeroRows(a + b) == StripZeroRows(a) + StripZeroRows(b)
    decreases |b|
  {
    if |b| == 0 {
      assert a + b == a;
    } else {
      var n := |b| - 1;
      assert (a + b)[..|a + b| - 1] == a + b[..n];
      StripAppend(a, b[..n]);
    }
  }

  lemma {:induction false} HStackAppend(a: Matrix, b: Matrix, c: Matrix, d: Matrix)
    requires |a| == |c| && |b| == |d|
    ensures HStack(a + b, c + d) == HStack(a, c) + HStack(b, d)
  {
  }

  lemma {:induction false} HStackShape(a: Matrix, b: Matrix, ca: nat, cb: nat)
    requires |a| == |b| && Rect(a, ca) && Rect(b, cb)
    ensures Shape(HStack(a, b), |a|, ca + cb)
  {
  }

  /** A row with a non-zero left part is non-zero after anything is put
      beside it. */
  lemma {:induction false} HStackNoZeroRow(a: Matrix, b: Matrix)
    requires |a| == |b| && NoZeroRow(a)
    ensures NoZeroRow(HStack(a, b))
  {
    forall i | 0 <= i < |a|
      ensures !IsZero(HStack(a, b)[i])
    {
      var k :| 0 <= k < |a[i]| && a[i][k] != 0.0;
      assert HStack(a, b)[i][k] == a[i][k];
    }
  }

  /** Stacking matrices of one width gives a matrix of that width. */
  lemma {:induction false} ConcatRect(ms: seq<Matrix>, c: nat)
    requires forall b :: 0 <= b < |ms| ==> Rect(ms[b], c)
    ensures Rect(Concat(ms), c)
  {
    forall i | 0 <= i < |Concat(ms)|
      ensures |Concat(ms)[i]| == c
    {
      var b, r := ConcatLocate(ms, i);
      ConcatIndex(ms, b, r);
    }
  }

  /** Putting `w` zero columns in front of a matrix keeps its rows apart
      from the new zeros: the shape grows by `w` columns, the new columns
      are zero and a row is zero only when it was before. */
  lemma {:induction false} ZeroColumnsFront(w: nat, m: Matrix, c: nat)
    requires Rect(m, c)
    ensures Shape(HStack(ZeroMatrix(|m|, w), m), |m|, w + c)
    ensures forall i :: 0 <= i < |m| ==> HStack(ZeroMatrix(|m|, w), m)[i] == Zeros(w) + m[i]
    ensures forall i, k :: 0 <= i < |m| && 0 <= k < w ==> HStack(ZeroMatrix(|m|, w), m)[i][k] == 0.0
    ensures NoZeroRow(m) ==> NoZeroRow(HStack(ZeroMatrix(|m|, w), m))
  {
    var h := HStack(ZeroMatrix(|m|, w), m);
    if NoZeroRow(m) {
      forall i | 0 <= i < |m|
        ensures !IsZero(h[i])
      {
        var k :| 0 <= k < |m[i]| && m[i][k] != 0.0;
        assert h[i][w + k] == m[i][k];
      }
    }
  }

  /** Stripping a matrix keeps the stripped prefix and then its last row
      unless that row is zero. */
  lemma {:induction false} StripLast(m: Matrix)
    requires |m| > 0
    ensures StripZeroRows(m)
         == StripZeroRows(m[..|m| - 1]) + (if IsZero(m[|m| - 1]) then [] else [m[|m| - 1]])
  {
  }

  /** Joining two rows that are both zero or both non-zero gives a row that is
      zero exactly when they are. */
  lemma {:induction false} JoinedRowZero(x: Row, y: Row)
    requires IsZero(x) == IsZero(y)
    ensures IsZero(x + y) == IsZero(x)
  {
    if !IsZero(x) {
      var k :| 0 <= k < |x| && x[k] != 0.0;
      assert (x + y)[k] != 0.0;
    }
  }

  lemma {:induction false} HStackPrefix(a: Matrix, b: Matrix, k: nat)
    requires |a| == |b| && k <= |a|
    ensures HStack(a, b)[..k] == HStack(a[..k], b[..k])
  {
  }

  /** The step of StripPairs: if stripping commutes with placing side by
      side on all rows but the last, it commutes on all rows. */
  lemma {:induction false} StripPairsStep(a: Matrix, b: Matrix)
    requires |a| == |b| > 0
    requires IsZero(a[|a| - 1]) == IsZero(b[|b| - 1])
    requires |StripZeroRows(a[..|a| - 1])| == |StripZeroRows(b[..|b| - 1])|
    requires StripZeroRows(HStack(a[..|a| - 1], b[..|b| - 1]))
          == HStack(StripZeroRows(a[..|a| - 1]), StripZeroRows(b[..|b| - 1]))
    ensures |StripZeroRows(a)| == |StripZeroRows(b)|
    ensures StripZeroRows(HStack(a, b)) == HStack(StripZeroRows(a), StripZeroRows(b))
  {
    var n := |a| - 1;
    var h := HStack(a, b);
    HStackPrefix(a, b, n);
    StripLast(a);
    StripLast(b);
    StripLast(h);
    assert h[n] == a[n] + b[n];
    JoinedRowZero(a[n], b[n]);
    var sa, sb := StripZeroRows(a[..n]), StripZeroRows(b[..n]);
    if !IsZero(a[n]) {
      HStackAppend(sa, [a[n]], sb, [b[n]]);
      assert HStack([a[n]], [b[n]]) == [h[n]];
    }
  }

  /** Two matrices losing exactly the same rows: stripping each and placing the
      results side by side is stripping the side-by-side matrix. */
  lemma {:induction false} StripPairs(a: Matrix, b: Matrix)
    requires |a| == |b|
    requires Mask(a) == Mask(b)
    ensures |StripZeroRows(a)| == |StripZeroRows(b)|
    ensures StripZeroRows(HStack(a, b)) == HStack(StripZeroRows(a), StripZeroRows(b))
  {
    if |a| > 0 {
      var n := |a| - 1;
      assert Mask(a[..n]) == Mask(a)[..n];
      assert Mask(b[..n]) == Mask(b)[..n];
      StripPairs(a[..n], b[..n]);
      assert Mask(a)[n] == Mask(b)[n];
      StripPairsStep(a, b);
    }
  }

  // ---------------------------------------------------------------------------
  // Rows with one non-zero entry or one run of ones

  function Ones(n: nat): (o: Row)
    ensures |o| == n
    ensures forall k :: 0 <= k < n ==> o[k] == 1.0
  {
    seq(n, _ => 1.0)
  }

  predicate AllPositive(row: Row)
  {
    forall k :: 0 <= k < |row| ==> row[k] > 0.0
  }

  /** A concatenation of rows is positive exactly when every piece is. */
  lemma {:induction false} ConcatPositive(xs: seq<Row>)
    ensures AllPositive(Concat(xs)) <==> forall b :: 0 <= b < |xs| ==> AllPositive(xs[b])
  {
    if forall b :: 0 <= b < |xs| ==> AllPositive(xs[b]) {
      ConcatForall(xs, (x: real) => x > 0.0);
    }
    if AllPositive(Concat(xs)) {
      forall b, k | 0 <= b < |xs| && 0 <= k < |xs[b]|
        ensures xs[b][k] > 0.0
      {
        ConcatIndex(xs, b, k);
      }
    }
  }

  /** A row of `width` entries that is `v` at column `at` and zero elsewhere. */
  function Spike(width: nat, at: nat, v: real): (row: Row)
    requires at < width
    ensures |row| == width
    ensures row[at] == v
    ensures forall k :: 0 <= k < width && k != at ==> row[k] == 0.0
  {
    Zeros(at) + [v] + Zeros(width - at - 1)
  }

  /** A row of `width` entries holding ones in columns at, ..., at + len - 1
      and zeros elsewhere. */
  function Band(width: nat, at: nat, len: nat): (row: Row)
    requires at + len <= width
    ensures |row| == width
    ensures forall k :: 0 <= k < width ==> row[k] == if at <= k < at + len then 1.0 else 0.0
  {
    Zeros(at) + Ones(len) + Zeros(width - at - len)
  }

  /** A padded row placed inside more padding is one padded row. */
  lemma {:induction false} ZerosSandwich(a: nat, b: nat, x: Row, c: nat, d: nat)
    ensures Zeros(a) + (Zeros(b) + x + Zeros(c)) + Zeros(d) == Zeros(a + b) + x + Zeros(c + d)
  {
    ZerosJoin(a, b);
    ZerosJoin(c, d);
    assert Zeros(a) + (Zeros(b) + x + Zeros(c)) + Zeros(d) == (Zeros(a) + Zeros(b)) + x + (Zeros(c) + Zeros(d));
  }

  /** More zeros in front of a padded row widen its left padding. */
  lemma {:induction false} PadLeft(a: nat, b: nat, x: Row, c: nat)
    ensures Zeros(a) + (Zeros(b) + x + Zeros(c)) == Zeros(a + b) + x + Zeros(c)
  {
    ZerosJoin(a, b);
    assert Zeros(a) + (Zeros(b) + x + Zeros(c)) == (Zeros(a) + Zeros(b)) + x + Zeros(c);
  }

  /** A padded one-entry row is a spike. */
  lemma {:induction false} PaddedSpike(row: Row, a: nat, x: Row, c: nat, width: nat, v: real)
    requires row == Zeros(a) + x + Zeros(c)
    requires x == [v] && a + 1 + c == width
    ensures a < width && row == Spike(width, a, v)
  {
  }

  /** A padded empty row is all zeros. */
  lemma {:induction false} PaddedEmpty(row: Row, a: nat, x: Row, c: nat, width: nat)
    requires row == Zeros(a) + x + Zeros(c)
    requires x == [] && a + c == width
    ensures row == Zeros(width)
  {
    ZerosJoin(a, c);
    assert row == Zeros(a) + Zeros(c);
  }

  /** A negated padded one-entry row is a negated spike. */
  lemma {:induction false} NegPaddedSpike(s: Row, a: nat, x: Row, c: nat, width: nat, v: real)
    requires s == NegRow(Zeros(a) + x + Zeros(c))
    requires a + |x| + c == width && x == [v]
    ensures a < width && s == NegRow(Spike(width, a, v))
  {
    PaddedSpike(Zeros(a) + x + Zeros(c), a, x, c, width, v);
  }

  /** A padded run of ones is a band. */
  lemma {:induction false} PaddedBand(row: Row, a: nat, x: Row, c: nat, width: nat, len: nat)
    requires row == Zeros(a) + x + Zeros(c)
    requires a + |x| + c == width && x == Ones(len)
    ensures a + len <= width && row == Band(width, a, len)
  {
  }

  /** A negated padded empty row is all zeros. */
  lemma {:induction false} NegPaddedEmpty(s: Row, a: nat, x: Row, c: nat, width: nat)
    requires s == NegRow(Zeros(a) + x + Zeros(c))
    requires a + |x| + c == width && |x| == 0
    ensures s == Zeros(width)
  {
    PaddedEmpty(Zeros(a) + x + Zeros(c), a, x, c, width);
    NegZeros(width);
  }

  /** Negation keeps the shape. */
  lemma {:induction false} NegShape(m: Matrix, rows: nat, cols: nat)
    ensures Shape(Neg(m), rows, cols) <==> Shape(m, rows, cols)
  {
    assert forall i :: 0 <= i < |m| ==> |Neg(m)[i]| == |m[i]|;
  }

  lemma {:induction false} NegSpike(width: nat, at: nat, v: real)
    requires at < width
    ensures NegRow(Spike(width, at, v)) == Spike(width, at, -v)
  {
  }

  lemma {:induction false} NegZeros(n: nat)
    ensures NegRow(Zeros(n)) == Zeros(n)
  {
  }

  /** A negated spike of a positive value is non-positive and not zero. */
  lemma {:induction false} NegSpikeSign(width: nat, at: nat, v: real)
    requires at < width && v > 0.0
    ensures NonPos(NegRow(Spike(width, at, v))) && !IsZero(NegRow(Spike(width, at, v)))
  {
    assert NegRow(Spike(width, at, v))[at] == -v;
  }

  /** A non-empty band is non-negative and not zero. */
  lemma {:induction false} BandSign(width: nat, at: nat, len: nat)
    requires at + len <= width && len > 0
    ensures NonNeg(Band(width, at, len)) && !IsZero(Band(width, at, len))
  {
    assert Band(width, at, len)[at] == 1.0;
  }

  // ---------------------------------------------------------------------------
  // Block-diagonal of block-diagonals of one-row pieces

  /** The outer blocks: piece list `a` made block-diagonal. */
  function Outer(pieces: seq<seq<Matrix>>): (bs: seq<Matrix>)
    ensures |bs| == |pieces|
  {
    seq(|pieces|, a requires 0 <= a < |pieces| => BlockDiag(pieces[a]))
  }

  /** `rows` pieces per outer block, and every piece a single row. */
  predicate OneRowPieces(pieces: seq<seq<Matrix>>, rows: nat)
  {
    forall a :: 0 <= a < |pieces| ==>
      |pieces[a]| == rows && forall b :: 0 <= b < rows ==> |pieces[a][b]| == 1
  }

  /** A block-diagonal of one-row pieces has one row per piece, as wide as all
      the pieces together. */
  lemma {:induction false} OneRowBlockShape(ps: seq<Matrix>)
    requires forall b :: 0 <= b < |ps| ==> |ps[b]| == 1
    ensures Shape(BlockDiag(ps), |ps|, TotalCols(ps))
    ensures forall b :: 0 <= b < |ps| ==> RowOffset(ps, b) == b
  {
    assert AllRect(ps);
    BlockDiagShape(ps);
    PrefixSumConstant(Lengths(ps), 1, |ps|);
    forall b | 0 <= b <= |ps|
      ensures RowOffset(ps, b) == b
    {
      PrefixSumConstant(Lengths(ps), 1, b);
    }
  }

  lemma {:induction false} NestedShape(pieces: seq<seq<Matrix>>, rows: nat)
    requires OneRowPieces(pieces, rows)
    ensures Shape(BlockDiag(Outer(pieces)), |pieces| * rows, TotalCols(Outer(pieces)))
    ensures forall a :: 0 <= a <= |pieces| ==> RowOffset(Outer(pieces), a) == a * rows
    ensures rows > 0 ==> forall a :: 0 <= a < |pieces| ==> Widths(Outer(pieces))[a] == TotalCols(pieces[a])
  {
    var bs := Outer(pieces);
    forall a | 0 <= a < |pieces|
      ensures Shape(bs[a], rows, TotalCols(pieces[a]))
    {
      OneRowBlockShape(pieces[a]);
    }
    assert AllRect(bs);
    BlockDiagShape(bs);
    forall a | 0 <= a <= |pieces|
      ensures RowOffset(bs, a) == a * rows
    {
      PrefixSumConstant(Lengths(bs), rows, a);
    }
    PrefixSumConstant(Lengths(bs), rows, |pieces|);
  }

  /** Row `r` of block `b`, padded on the right up to the full width. */
  lemma {:induction false} BlockDiagRowWidth(bs: seq<Matrix>, b: nat, r: nat)
    requires b < |bs| && r < |bs[b]|
    requires |bs[b][r]| == Width(bs[b])
    ensures RowOffset(bs, b) + r < |BlockDiag(bs)|
    ensures ColOffset(bs, b) + |bs[b][r]| <= TotalCols(bs)
    ensures BlockDiag(bs)[RowOffset(bs, b) + r]
         == Zeros(ColOffset(bs, b)) + bs[b][r] + Zeros(TotalCols(bs) - ColOffset(bs, b) - |bs[b][r]|)
  {
    BlockDiagRow(bs, b, r);
    var ws := Widths(bs);
    assert ws[b] == |bs[b][r]|;
    assert PrefixSum(ws, b + 1) == PrefixSum(ws, b) + ws[b];
    PrefixSuffix(ws, b + 1);
  }

  /** Row `j` of outer block `i`, padded to the full width, carries piece
      (i, j) at the column where the outer block starts plus where the piece
      starts inside it, and zeros everywhere else. */
  lemma {:induction false} NestedRow(pieces: seq<seq<Matrix>>, rows: nat, i: nat, j: nat)
    requires OneRowPieces(pieces, rows)
    requires i < |pieces| && j < rows
    ensures j < |Placed(Outer(pieces), i)|
    ensures ColOffset(Outer(pieces), i) + ColOffset(pieces[i], j) + |pieces[i][j][0]| <= TotalCols(Outer(pieces))
    ensures Placed(Outer(pieces), i)[j]
         == Zeros(ColOffset(Outer(pieces), i) + ColOffset(pieces[i], j)) + pieces[i][j][0]
            + Zeros(TotalCols(Outer(pieces)) - ColOffset(Outer(pieces), i) - ColOffset(pieces[i], j) - |pieces[i][j][0]|)
  {
    var bs := Outer(pieces);
    var ps := pieces[i];
    OneRowBlockShape(ps);
    BlockDiagRowWidth(ps, j, 0);
    var inner := BlockDiag(ps)[j];
    var b := ColOffset(ps, j);
    var x := ps[j][0];
    var c := TotalCols(ps) - b - |x|;
    assert inner == Zeros(b) + x + Zeros(c);
    assert bs[i] == BlockDiag(ps);
    assert |inner| == Width(bs[i]) == TotalCols(ps);
    var ws := Widths(bs);
    assert PrefixSum(ws, i + 1) == PrefixSum(ws, i) + ws[i];
    PrefixSuffix(ws, i + 1);
    var a := ColOffset(bs, i);
    var d := ColsFrom(bs, i + 1);
    assert d == TotalCols(bs) - a - |inner|;
    assert Placed(bs, i)[j] == Zeros(a) + inner + Zeros(d);
    ZerosSandwich(a, b, x, c, d);
  }

  /** Every block with its padding, in block order. */
  function Placements(bs: seq<Matrix>): (ps: seq<Matrix>)
    ensures |ps| == |bs|
    ensures forall b :: 0 <= b < |bs| ==> ps[b] == Placed(bs, b)
  {
    seq(|bs|, b requires 0 <= b < |bs| => Placed(bs, b))
  }

  function NegAll(ms: seq<Matrix>): (ns: seq<Matrix>)
    ensures |ns| == |ms|
    ensures forall b :: 0 <= b < |ms| ==> ns[b] == Neg(ms[b])
  {
    seq(|ms|, b requires 0 <= b < |ms| => Neg(ms[b]))
  }

  /** Negating stacked matrices negates each of them. */
  lemma {:induction false} NegConcat(ms: seq<Matrix>)
    ensures Neg(Concat(ms)) == Concat(NegAll(ms))
  {
    if |ms| > 0 {
      var n := |ms| - 1;
      NegConcat(ms[..n]);
      assert NegAll(ms)[..n] == NegAll(ms[..n]);
      assert Neg(Concat(ms[..n]) + ms[n]) == Neg(Concat(ms[..n])) + Neg(ms[n]);
    }
  }

  /** Splitting a block-diagonal matrix of equally tall blocks into one slice
      per block gives back each block with its padding, and likewise after
      negation. */
  lemma {:induction false} SplitBlockDiag(bs: seq<Matrix>, k: nat)
    requires forall b :: 0 <= b < |bs| ==> |bs[b]| == k
    ensures |BlockDiag(bs)| == |bs| * k
    ensures Chunks(BlockDiag(bs), |bs|, k) == Placements(bs)
    ensures Chunks(Neg(BlockDiag(bs)), |bs|, k) == NegAll(Placements(bs))
  {
    var ps := Placements(bs);
    assert BlockDiag(bs) == Concat(ps);
    ChunksOfConcat(ps, k);
    NegConcat(ps);
    ChunksOfConcat(NegAll(ps), k);
  }

  // ---------------------------------------------------------------------------
  // Degeneracy

  predicate NoZeroRow(m: Matrix)
  {
    forall i :: 0 <= i < |m| ==> !IsZero(m[i])
  }

  /** Column `c` is zero in every row (vacuously so in a matrix without rows). */
  predicate ZeroColumn(m: Matrix, c: nat)
    requires forall i :: 0 <= i < |m| ==> c < |m[i]|
  {
    forall i :: 0 <= i < |m| ==> m[i][c] == 0.0
  }

  predicate NoZeroColumn(m: Matrix, cols: nat)
    requires Rect(m, cols)
  {
    forall c :: 0 <= c < cols ==> !ZeroColumn(m, c)
  }
}
