/** How the filter fills its output: pixel by pixel into a separate buffer,
    reading only the unmodified input. Any visiting order gives the same
    result, and the row-major nested loops compute exactly `BoxFilter.Blur`. */
module Traversal {
  import opened Grids
  import opened BoxFilter

  /** A buffer of the same shape as g with every sample 0 (NumPy's zeros_like). */
  function ZerosLike(g: Grid): (z: Grid)
    ensures SameShape(z, g)
    ensures forall y, x :: 0 <= y < |z| && 0 <= x < |z[y]| ==> z[y][x] == 0
  {
    seq(|g|, y requires 0 <= y < |g| => seq(|g[y]|, x => 0))
  }

  /** Every listed pixel lies in g. */
  predicate CellsInGrid(g: Grid, cells: seq<(int, int)>) {
    forall k :: 0 <= k < |cells| ==> InGrid(g, cells[k].0, cells[k].1)
  }

  /** Visits `cells` in order, storing at each visited pixel the box mean of
      the INPUT g into the output buffer `out`; the input is never written. */
  function Paint(g: Grid, r: int, out: Grid, cells: seq<(int, int)>): (p: Grid)
    requires IsGrid(g) && r >= 0 && SameShape(out, g) && CellsInGrid(g, cells)
    ensures SameShape(p, g)
    decreases |cells|
  {
    if |cells| == 0 then out
    else
      var (y, x) := cells[0];
      Paint(g, r, out[y := out[y][x := BoxMean(g, r, y, x)]], cells[1..])
  }

  /** After painting, a visited pixel holds its box mean and an unvisited one
      keeps its initial value, whatever the visiting order or repetitions. */
  lemma {:induction false} PaintCell(g: Grid, r: int, out: Grid, cells: seq<(int, int)>, y: int, x: int)
    requires IsGrid(g) && r >= 0 && SameShape(out, g) && CellsInGrid(g, cells) && InGrid(g, y, x)
    ensures Paint(g, r, out, cells)[y][x] == if (y, x) in cells then BoxMean(g, r, y, x) else out[y][x]
    decreases |cells|
  {
    if |cells| > 0 {
      var (y0, x0) := cells[0];
      var out' := out[y0 := out[y0][x0 := BoxMean(g, r, y0, x0)]];
      assert CellsInGrid(g, cells[1..]) by {
        forall k | 0 <= k < |cells[1..]|
          ensures InGrid(g, cells[1..][k].0, cells[1..][k].1)
        {
          assert cells[1..][k] == cells[k + 1];
        }
      }
      PaintCell(g, r, out', cells[1..], y, x);
      assert (y, x) in cells <==> (y, x) == cells[0] || (y, x) in cells[1..] by {
        assert cells == [cells[0]] + cells[1..];
      }
    }
  }

  /** Order independence: painting any sequence of pixels that covers the
      region, starting from any buffer of the right shape, yields the blur. */
  lemma PaintAnyOrder(g: Grid, r: int, out: Grid, cells: seq<(int, int)>)
    requires IsGrid(g) && r >= 0 && SameShape(out, g) && CellsInGrid(g, cells)
    requires forall y, x :: InGrid(g, y, x) ==> (y, x) in cells
    ensures Paint(g, r, out, cells) == Blur(g, r)
  {
    var p := Paint(g, r, out, cells);
    var b := Blur(g, r);
    forall y | 0 <= y < |g|
      ensures p[y] == b[y]
    {
      forall x | 0 <= x < |g[y]|
        ensures p[y][x] == b[y][x]
      {
        PaintCell(g, r, out, cells, y, x);
      }
    }
  }

  /** The pixels of an h x w region, top to bottom and left to right. */
  function RowMajor(h: nat, w: nat): (cells: seq<(int, int)>)
    ensures |cells| == h * w
  {
    if h == 0 then [] else RowMajor(h - 1, w) + seq(w, x => (h - 1, x))
  }

  /** Row-major order lists exactly the pixels of the region. */
  lemma {:induction false} RowMajorCells(h: nat, w: nat)
    ensures forall k :: 0 <= k < |RowMajor(h, w)| ==>
              0 <= RowMajor(h, w)[k].0 < h && 0 <= RowMajor(h, w)[k].1 < w
    ensures forall y, x :: 0 <= y < h && 0 <= x < w ==> (y, x) in RowMajor(h, w)
  {
    if h > 0 {
      RowMajorCells(h - 1, w);
      var last := seq(w, x => (h - 1, x));
      assert RowMajor(h, w) == RowMajor(h - 1, w) + last;
      forall y, x | 0 <= y < h && 0 <= x < w
        ensures (y, x) in RowMajor(h, w)
      {
        if y == h - 1 {
          assert last[x] == (y, x);
        }
      }
    }
  }

  /** Row-major order visits pixel (y, x) at step y * w + x: row by row,
      and left to right within a row. */
  lemma {:induction false} RowMajorAt(h: nat, w: nat, y: int, x: int)
    requires 0 <= y < h && 0 <= x < w
    ensures y * w + x < |RowMajor(h, w)| && RowMajor(h, w)[y * w + x] == (y, x)
  {
    var prefix := RowMajor(h - 1, w);
    assert RowMajor(h, w) == prefix + seq(w, x => (h - 1, x));
    if y < h - 1 {
      RowMajorAt(h - 1, w, y, x);
    } else {
      assert |prefix| == y * w;
    }
  }

  /** The filter's own order, into a zeros_like buffer, gives the blur. */
  lemma SourceOrderIsBlur(g: Grid, r: int)
    requires IsGrid(g) && r >= 0
    ensures CellsInGrid(g, RowMajor(|g|, Width(g)))
    ensures Paint(g, r, ZerosLike(g), RowMajor(|g|, Width(g))) == Blur(g, r)
  {
    RowMajorCells(|g|, Width(g));
    PaintAnyOrder(g, r, ZerosLike(g), RowMajor(|g|, Width(g)));
  }

  /** Sums the window with two nested loops over rows and columns. */
  method WindowSumLoop(g: Grid, y1: int, y2: int, x1: int, x2: int) returns (s: int)
    requires WindowInside(g, Window(y1, y2, x1, x2))
    ensures s == WindowSum(g, Window(y1, y2, x1, x2))
  {
    s := 0;
    var y := y1;
    while y <= y2
      invariant y1 <= y <= y2 + 1
      invariant s == BlockSum(g, y1, y, x1, x2 + 1)
    {
      var rowSum := 0;
      var x := x1;
      while x <= x2
        invariant x1 <= x <= x2 + 1
        invariant rowSum == RowSum(g[y], x1, x)
      {
        rowSum := rowSum + g[y][x];
        x := x + 1;
      }
      s := s + rowSum;
      y := y + 1;
    }
  }

  /** One output sample as the filter computes it: clamp the window with
      max/min, sum it, and truncate the mean. */
  method BoxMeanLoop(g: Grid, radius: int, y: int, x: int) returns (m: int)
    requires IsGrid(g) && radius >= 0 && InGrid(g, y, x)
    ensures m == BoxMean(g, radius, y, x)
  {
    var height, width := |g|, Width(g);
    var x1 := Max(0, x - radius);
    var y1 := Max(0, y - radius);
    var x2 := Min(width - 1, x + radius);
    var y2 := Min(height - 1, y + radius);
    var win := Window(y1, y2, x1, x2);
    assert win == ClampedWindow(height, width, radius, y, x);
    assert WindowInside(g, win) && win.Count() > 0 by {
      MulMono(1, y2 - y1 + 1, x2 - x1 + 1);
    }
    var sum := WindowSumLoop(g, y1, y2, x1, x2);
    m := sum / win.Count();
    assert m == WindowSum(g, win) / win.Count();
  }

  /** The inner loop of the filter: writes output row y, sample by sample,
      into the buffer and leaves every other row as it was. */
  method BlurRowLoop(g: Grid, radius: int, y: int, buf: Grid) returns (out: Grid)
    requires IsGrid(g) && radius >= 0 && 0 <= y < |g| && SameShape(buf, g)
    ensures SameShape(out, g)
    ensures out[y] == Blur(g, radius)[y]
    ensures forall i :: 0 <= i < |g| && i != y ==> out[i] == buf[i]
  {
    out := buf;
    var x := 0;
    while x < Width(g)
      invariant 0 <= x <= Width(g)
      invariant SameShape(out, g)
      invariant forall i :: 0 <= i < |g| && i != y ==> out[i] == buf[i]
      invariant forall j :: 0 <= j < x ==> out[y][j] == BoxMean(g, radius, y, j)
    {
      var m := BoxMeanLoop(g, radius, y, x);
      out := out[y := out[y][x := m]];
      x := x + 1;
    }
    assert |out[y]| == |Blur(g, radius)[y]|;
    forall j | 0 <= j < |out[y]|
      ensures out[y][j] == Blur(g, radius)[y][j]
    {
      BlurAt(g, radius, y, j);
    }
  }

  /** The filter's outer loop over rows, writing into a zeros_like buffer. */
  method BlurLoop(g: Grid, radius: int) returns (b: Grid)
    requires IsGrid(g) && radius >= 0
    ensures b == Blur(g, radius)
  {
    b := ZerosLike(g);
    var y := 0;
    while y < |g|
      invariant 0 <= y <= |g|
      invariant SameShape(b, g)
      invariant forall i :: 0 <= i < y ==> b[i] == Blur(g, radius)[i]
    {
      b := BlurRowLoop(g, radius, y, b);
      y := y + 1;
    }
  }
}
