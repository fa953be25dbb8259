/** Rectangular grids of integer samples (one colour channel of a pixel
    buffer) and the block sums the box filter averages. */
module Grids {

  /** One channel of a pixel buffer, indexed [row][column]. */
  type Grid = seq<seq<int>>

  /** Number of columns: the length of the first row (0 for an empty grid). */
  function Width(g: Grid): nat {
    if |g| == 0 then 0 else |g[0]|
  }

  /** Every row has the same length, as in a NumPy array. */
  predicate IsGrid(g: Grid) {
    forall y :: 0 <= y < |g| ==> |g[y]| == Width(g)
  }

  /** `a` and `b` have the same number of rows and each row the same length. */
  predicate SameShape(a: Grid, b: Grid) {
    |a| == |b| && forall y :: 0 <= y < |a| ==> |a[y]| == |b[y]|
  }

  /** The sum of row[x1..x2), adding from the right. */
  function RowSum(row: seq<int>, x1: int, x2: int): int
    requires 0 <= x1 && x2 <= |row|
    decreases x2 - x1
  {
    if x2 <= x1 then 0 else RowSum(row, x1, x2 - 1) + row[x2 - 1]
  }

  /** Half-open block [y1, y2) x [x1, x2) lies inside g. */
  predicate BlockInside(g: Grid, y1: int, y2: int, x1: int, x2: int) {
    && 0 <= y1 <= y2 <= |g|
    && 0 <= x1 <= x2
    && forall y :: y1 <= y < y2 ==> x2 <= |g[y]|
  }

  /** The sum of the samples of the half-open block [y1, y2) x [x1, x2). */
  function BlockSum(g: Grid, y1: int, y2: int, x1: int, x2: int): int
    requires BlockInside(g, y1, y2, x1, x2)
    decreases y2 - y1
  {
    if y2 == y1 then 0
    else BlockSum(g, y1, y2 - 1, x1, x2) + RowSum(g[y2 - 1], x1, x2)
  }

  /** Rows [top, bottom) and columns [left, right) of g, re-indexed from 0:
      the NumPy slice g[top:bottom, left:right] of in-range bounds. */
  function SubGrid(g: Grid, top: int, bottom: int, left: int, right: int): (s: Grid)
    requires BlockInside(g, top, bottom, left, right)
    ensures |s| == bottom - top
    ensures forall i :: 0 <= i < |s| ==> |s[i]| == right - left
    ensures forall i, j :: 0 <= i < |s| && 0 <= j < right - left ==> s[i][j] == g[top + i][left + j]
  {
    seq(bottom - top, i requires 0 <= i < bottom - top => g[top + i][left..right])
  }

  /** A product n * k is monotone in its first factor when k >= 0. */
  lemma MulMono(a: int, b: int, k: int)
    requires a <= b && k >= 0
    ensures a * k <= b * k
  {
    assert b * k - a * k == (b - a) * k;
  }

  /** Cancelling a positive factor from an inequality. */
  lemma MulCancelLe(a: int, b: int, n: int)
    requires n > 0 && a * n <= b * n
    ensures a <= b
  {
    assert (a - b) * n == a * n - b * n;
    assert (a - b) * n <= 0;
  }

  lemma Distrib(a: int, b: int, c: int)
    ensures a * (b + c) == a * b + a * c
  {
  }

  /** If every sample of row[x1..x2) lies in [lo, hi], their sum lies
      between lo and hi times their number. */
  lemma {:induction false} RowSumBounds(row: seq<int>, x1: int, x2: int, lo: int, hi: int)
    requires 0 <= x1 <= x2 <= |row|
    requires forall x :: x1 <= x < x2 ==> lo <= row[x] <= hi
    ensures lo * (x2 - x1) <= RowSum(row, x1, x2) <= hi * (x2 - x1)
    decreases x2 - x1
  {
    if x2 > x1 {
      RowSumBounds(row, x1, x2 - 1, lo, hi);
      Distrib(lo, x2 - 1 - x1, 1);
      Distrib(hi, x2 - 1 - x1, 1);
    }
  }

  /** Summing part of a slice is summing the shifted part of the original row. */
  lemma {:induction false} RowSumShift(row: seq<int>, left: int, right: int, x1: int, x2: int)
    requires 0 <= left <= right <= |row| && 0 <= x1 <= x2 <= right - left
    ensures RowSum(row[left..right], x1, x2) == RowSum(row, left + x1, left + x2)
    decreases x2 - x1
  {
    if x2 > x1 {
      RowSumShift(row, left, right, x1, x2 - 1);
    }
  }

  /** If every sample of a block lies in [lo, hi], the block sum lies between
      lo and hi times the number of samples in the block. */
  lemma {:induction false} BlockSumBounds(g: Grid, y1: int, y2: int, x1: int, x2: int, lo: int, hi: int)
    requires BlockInside(g, y1, y2, x1, x2)
    requires forall y, x :: y1 <= y < y2 && x1 <= x < x2 ==> lo <= g[y][x] <= hi
    ensures lo * ((y2 - y1) * (x2 - x1)) <= BlockSum(g, y1, y2, x1, x2) <= hi * ((y2 - y1) * (x2 - x1))
    decreases y2 - y1
  {
    if y2 > y1 {
      var k := x2 - x1;
      BlockSumBounds(g, y1, y2 - 1, x1, x2, lo, hi);
      RowSumBounds(g[y2 - 1], x1, x2, lo, hi);
      var before := (y2 - 1 - y1) * k;
      assert (y2 - y1) * k == before + k;
      Distrib(lo, before, k);
      Distrib(hi, before, k);
    }
  }

  /** Summing a block of a sub-grid is summing the same block of the parent,
      shifted by the sub-grid's origin. */
  lemma {:induction false} BlockSumShift(g: Grid, top: int, bottom: int, left: int, right: int,
                                         y1: int, y2: int, x1: int, x2: int)
    requires BlockInside(g, top, bottom, left, right)
    requires 0 <= y1 <= y2 <= bottom - top && 0 <= x1 <= x2 <= right - left
    ensures BlockInside(SubGrid(g, top, bottom, left, right), y1, y2, x1, x2)
    ensures BlockInside(g, top + y1, top + y2, left + x1, left + x2)
    ensures BlockSum(SubGrid(g, top, bottom, left, right), y1, y2, x1, x2)
            == BlockSum(g, top + y1, top + y2, left + x1, left + x2)
    decreases y2 - y1
  {
    var s := SubGrid(g, top, bottom, left, right);
    if y2 > y1 {
      BlockSumShift(g, top, bottom, left, right, y1, y2 - 1, x1, x2);
      assert s[y2 - 1] == g[top + y2 - 1][left..right];
      RowSumShift(g[top + y2 - 1], left, right, x1, x2);
    }
  }
}
