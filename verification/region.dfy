/** Filtering a selected rectangle of one channel: the rectangle is cut out
    with Python slice semantics, filtered on its own (so windows clamp to the
    rectangle's edges) and written back; everything else is kept. */
module Region {
  import opened Grids
  import opened BoxFilter
  import Traversal

  /** A half-open index range [lo, hi). */
  datatype Span = Span(lo: nat, hi: nat) {
    predicate Has(i: int) { lo <= i < hi }
    function Length(): int { hi - lo }
  }

  /** Python's normalisation of one slice bound against a length: a negative
      bound counts from the end, and an out-of-range bound is clamped. */
  function SliceBound(i: int, len: nat): (k: nat)
    ensures k <= len
    ensures 0 <= i <= len ==> k == i
    ensures i < 0 ==> k == Max(0, i + len)
    ensures i > len ==> k == len
  {
    if i < 0 then (if i + len < 0 then 0 else i + len)
    else if i > len then len
    else i
  }

  /** The index range selected by the slice [start:stop] of a sequence of
      length len: it never leaves the sequence, keeps in-range bounds, and
      is empty when the normalised stop does not exceed the start. */
  function ResolveSlice(start: int, stop: int, len: nat): (s: Span)
    ensures s.lo == SliceBound(start, len)
    ensures s.lo <= s.hi <= len
    ensures 0 <= start <= stop <= len ==> s == Span(start, stop)
    ensures s.Length() == Max(0, SliceBound(stop, len) - SliceBound(start, len))
  {
    var lo := SliceBound(start, len);
    var hi := SliceBound(stop, len);
    Span(lo, if hi < lo then lo else hi)
  }

  /** The resolved range holds exactly the valid indices k with
      start' <= k < stop', start' and stop' the normalised bounds: the
      indices Python's slice [start:stop] picks from range(len). */
  lemma ResolveSliceMembers(start: int, stop: int, len: nat, k: int)
    ensures ResolveSlice(start, stop, len).Has(k)
            <==> 0 <= k < len && SliceBound(start, len) <= k < SliceBound(stop, len)
  {
  }

  /** The rectangle lies inside g. */
  predicate SpansInside(g: Grid, rows: Span, cols: Span) {
    rows.lo <= rows.hi && cols.lo <= cols.hi && BlockInside(g, rows.lo, rows.hi, cols.lo, cols.hi)
  }

  /** The slice g[rows, cols], re-indexed from (0, 0). */
  function Cut(g: Grid, rows: Span, cols: Span): (s: Grid)
    requires SpansInside(g, rows, cols)
    ensures IsGrid(s) && |s| == rows.Length() && (|s| > 0 ==> Width(s) == cols.Length())
  {
    SubGrid(g, rows.lo, rows.hi, cols.lo, cols.hi)
  }

  /** The assignment g[rows, cols] = patch. */
  function Paste(g: Grid, rows: Span, cols: Span, patch: Grid): (out: Grid)
    requires SpansInside(g, rows, cols)
    requires |patch| == rows.Length() && forall i :: 0 <= i < |patch| ==> |patch[i]| == cols.Length()
    ensures SameShape(out, g)
  {
    seq(|g|, y requires 0 <= y < |g| =>
      seq(|g[y]|, x requires 0 <= x < |g[y]| =>
        if rows.Has(y) && cols.Has(x) then
          assert |patch[y - rows.lo]| == cols.Length();
          patch[y - rows.lo][x - cols.lo]
        else g[y][x]))
  }

  /** Filtering the selection [rows, cols] of g: blur the slice as a region
      of its own and write the result back over the slice. */
  function BlurRegion(g: Grid, r: int, rows: Span, cols: Span): (out: Grid)
    requires IsGrid(g) && r >= 0 && SpansInside(g, rows, cols)
    ensures SameShape(out, g)
  {
    Paste(g, rows, cols, BoxFilter.Blur(Cut(g, rows, cols), r))
  }

  /** The window of pixel (y, x) of a parent grid when only the region
      [top, bottom) x [left, right) is filtered: clamped to the region's edges. */
  function RegionWindow(top: int, bottom: int, left: int, right: int, r: int, y: int, x: int): (win: Window)
    requires r >= 0 && top <= y < bottom && left <= x < right
    ensures top <= win.y1 <= y <= win.y2 < bottom && left <= win.x1 <= x <= win.x2 < right
    ensures win.Count() > 0
  {
    var win := Window(Max(top, y - r), Min(bottom - 1, y + r), Max(left, x - r), Min(right - 1, x + r));
    CountPositive(win);
    win
  }

  /** A window of a sub-grid sums the same samples as that window moved by
      the sub-grid's origin sums in the parent. */
  lemma WindowSumShift(g: Grid, top: int, bottom: int, left: int, right: int, local: Window)
    requires BlockInside(g, top, bottom, left, right)
    requires 0 <= local.y1 <= local.y2 < bottom - top && 0 <= local.x1 <= local.x2 < right - left
    ensures WindowInside(SubGrid(g, top, bottom, left, right), local)
    ensures var win := Window(top + local.y1, top + local.y2, left + local.x1, left + local.x2);
            WindowInside(g, win) && WindowSum(SubGrid(g, top, bottom, left, right), local) == WindowSum(g, win)
  {
    BlockSumShift(g, top, bottom, left, right, local.y1, local.y2 + 1, local.x1, local.x2 + 1);
  }

  /** The sub-grid's own clamped window of a pixel holds the same samples
      as the parent's window clamped to the region, and as many of them. */
  lemma SubGridWindowSum(g: Grid, top: int, bottom: int, left: int, right: int, r: int, y: int, x: int)
    requires BlockInside(g, top, bottom, left, right) && r >= 0
    requires top <= y < bottom && left <= x < right
    ensures var local := ClampedWindow(bottom - top, right - left, r, y - top, x - left);
            var win := RegionWindow(top, bottom, left, right, r, y, x);
            && WindowInside(SubGrid(g, top, bottom, left, right), local) && WindowInside(g, win)
            && WindowSum(SubGrid(g, top, bottom, left, right), local) == WindowSum(g, win)
            && local.Count() == win.Count()
  {
    var local := ClampedWindow(bottom - top, right - left, r, y - top, x - left);
    RegionWindowShift(top, bottom, left, right, r, y, x);
    WindowSumShift(g, top, bottom, left, right, local);
  }

  /** Filtering a sub-grid on its own clamps every window to the sub-grid's
      edges: the box mean at a pixel of the sub-grid is the truncated mean of
      the parent's samples in the window clamped to the region. */
  lemma BoxMeanOfSubGrid(g: Grid, top: int, bottom: int, left: int, right: int, r: int, y: int, x: int)
    requires BlockInside(g, top, bottom, left, right) && r >= 0
    requires top <= y < bottom && left <= x < right
    ensures IsGrid(SubGrid(g, top, bottom, left, right))
    ensures InGrid(SubGrid(g, top, bottom, left, right), y - top, x - left)
    ensures WindowInside(g, RegionWindow(top, bottom, left, right, r, y, x))
    ensures BoxMean(SubGrid(g, top, bottom, left, right), r, y - top, x - left)
            == MeanOf(g, RegionWindow(top, bottom, left, right, r, y, x))
  {
    var s := SubGrid(g, top, bottom, left, right);
    assert |s| == bottom - top && Width(s) == right - left;
    SubGridWindowSum(g, top, bottom, left, right, r, y, x);
  }

  /** The region's window is the sub-grid's own clamped window moved by the
      region's origin, and has as many pixels. */
  lemma RegionWindowShift(top: int, bottom: int, left: int, right: int, r: int, y: int, x: int)
    requires r >= 0 && top <= y < bottom && left <= x < right
    ensures var local := ClampedWindow(bottom - top, right - left, r, y - top, x - left);
            var win := RegionWindow(top, bottom, left, right, r, y, x);
            && win == Window(top + local.y1, top + local.y2, left + local.x1, left + local.x2)
            && win.Count() == local.Count()
  {
    var local := ClampedWindow(bottom - top, right - left, r, y - top, x - left);
    var win := RegionWindow(top, bottom, left, right, r, y, x);
    var dy, dx := win.y2 - win.y1 + 1, win.x2 - win.x1 + 1;
    assert local.y2 - local.y1 + 1 == dy && local.x2 - local.x1 + 1 == dx;
    assert win.Count() == dy * dx;
    assert local.Count() == dy * dx;
  }

  /** Inside the pasted rectangle the patch shows through. */
  lemma PasteInside(g: Grid, rows: Span, cols: Span, patch: Grid, y: int, x: int)
    requires SpansInside(g, rows, cols)
    requires |patch| == rows.Length() && forall i :: 0 <= i < |patch| ==> |patch[i]| == cols.Length()
    requires rows.Has(y) && cols.Has(x)
    ensures Paste(g, rows, cols, patch)[y][x] == patch[y - rows.lo][x - cols.lo]
  {
  }

  /** Outside the pasted rectangle the original sample is kept. */
  lemma PasteOutside(g: Grid, rows: Span, cols: Span, patch: Grid, y: int, x: int)
    requires SpansInside(g, rows, cols)
    requires |patch| == rows.Length() && forall i :: 0 <= i < |patch| ==> |patch[i]| == cols.Length()
    requires 0 <= y < |g| && 0 <= x < |g[y]| && !(rows.Has(y) && cols.Has(x))
    ensures Paste(g, rows, cols, patch)[y][x] == g[y][x]
  {
  }

  /** Locality: every sample outside the selection keeps its value. */
  lemma RegionOutsideUnchanged(g: Grid, r: int, rows: Span, cols: Span, y: int, x: int)
    requires IsGrid(g) && r >= 0 && SpansInside(g, rows, cols)
    requires InGrid(g, y, x) && !(rows.Has(y) && cols.Has(x))
    ensures BlurRegion(g, r, rows, cols)[y][x] == g[y][x]
  {
    PasteOutside(g, rows, cols, BoxFilter.Blur(Cut(g, rows, cols), r), y, x);
  }

  /** Inside the selection the result is the whole-region blur of the slice,
      shifted to the selection's origin. */
  lemma RegionInsideIsSliceBlur(g: Grid, r: int, rows: Span, cols: Span, y: int, x: int)
    requires IsGrid(g) && r >= 0 && SpansInside(g, rows, cols)
    requires rows.Has(y) && cols.Has(x)
    ensures BlurRegion(g, r, rows, cols)[y][x] == BoxFilter.Blur(Cut(g, rows, cols), r)[y - rows.lo][x - cols.lo]
  {
    PasteInside(g, rows, cols, BoxFilter.Blur(Cut(g, rows, cols), r), y, x);
  }

  /** Clamping uses the selection's own edges: inside the selection each
      sample becomes the truncated mean of g over the window clamped to the
      selection, which never reaches outside it even when the selection lies
      in the interior of the grid. */
  lemma RegionClampsToOwnEdges(g: Grid, r: int, rows: Span, cols: Span, y: int, x: int)
    requires IsGrid(g) && r >= 0 && SpansInside(g, rows, cols)
    requires rows.Has(y) && cols.Has(x)
    ensures WindowInside(g, RegionWindow(rows.lo, rows.hi, cols.lo, cols.hi, r, y, x))
    ensures BlurRegion(g, r, rows, cols)[y][x] == MeanOf(g, RegionWindow(rows.lo, rows.hi, cols.lo, cols.hi, r, y, x))
  {
    RegionInsideIsSliceBlur(g, r, rows, cols, y, x);
    CutBlurAt(g, r, rows, cols, y, x);
  }

  /** A sample of the blurred slice, in the selection's own coordinates. */
  lemma CutBlurAt(g: Grid, r: int, rows: Span, cols: Span, y: int, x: int)
    requires IsGrid(g) && r >= 0 && SpansInside(g, rows, cols)
    requires rows.Has(y) && cols.Has(x)
    ensures WindowInside(g, RegionWindow(rows.lo, rows.hi, cols.lo, cols.hi, r, y, x))
    ensures BoxFilter.Blur(Cut(g, rows, cols), r)[y - rows.lo][x - cols.lo]
            == MeanOf(g, RegionWindow(rows.lo, rows.hi, cols.lo, cols.hi, r, y, x))
  {
    var c := Cut(g, rows, cols);
    var win := RegionWindow(rows.lo, rows.hi, cols.lo, cols.hi, r, y, x);
    assert InGrid(c, y - rows.lo, x - cols.lo) && WindowInside(g, win)
           && BoxMean(c, r, y - rows.lo, x - cols.lo) == MeanOf(g, win) by {
      assert c == SubGrid(g, rows.lo, rows.hi, cols.lo, cols.hi);
      BoxMeanOfSubGrid(g, rows.lo, rows.hi, cols.lo, cols.hi, r, y, x);
    }
    BlurAt(c, r, y - rows.lo, x - cols.lo);
  }

  /** Selecting every row and every column of a grid of width w is the same
      as blurring the whole grid. */
  lemma WholeRegionIsBlur(g: Grid, r: int, w: nat)
    requires r >= 0 && forall y :: 0 <= y < |g| ==> |g[y]| == w
    ensures SpansInside(g, Span(0, |g|), Span(0, w))
    ensures BlurRegion(g, r, Span(0, |g|), Span(0, w)) == BoxFilter.Blur(g, r)
  {
    var rows, cols := Span(0, |g|), Span(0, w);
    var c := Cut(g, rows, cols);
    forall y | 0 <= y < |g|
      ensures c[y] == g[y]
    {
      assert |c[y]| == |g[y]|;
    }
    assert c == g;
    var a := BlurRegion(g, r, rows, cols);
    var b := BoxFilter.Blur(g, r);
    forall y | 0 <= y < |g|
      ensures a[y] == b[y]
    {
      forall x | 0 <= x < |g[y]|
        ensures a[y][x] == b[y][x]
      {
        PasteInside(g, rows, cols, b, y, x);
      }
    }
  }

  /** With radius 0 blurring a selection changes nothing. */
  lemma RegionRadiusZero(g: Grid, rows: Span, cols: Span)
    requires IsGrid(g) && SpansInside(g, rows, cols)
    ensures BlurRegion(g, 0, rows, cols) == g
  {
    BlurRadiusZero(Cut(g, rows, cols));
    PasteOwnCut(g, rows, cols);
  }

  /** Writing a slice back where it was cut from changes nothing. */
  lemma PasteOwnCut(g: Grid, rows: Span, cols: Span)
    requires IsGrid(g) && SpansInside(g, rows, cols)
    ensures Paste(g, rows, cols, Cut(g, rows, cols)) == g
  {
    var c := Cut(g, rows, cols);
    var out := Paste(g, rows, cols, c);
    forall y | 0 <= y < |g|
      ensures out[y] == g[y]
    {
      forall x | 0 <= x < |g[y]|
        ensures out[y][x] == g[y][x]
      {
        if rows.Has(y) && cols.Has(x) {
          PasteInside(g, rows, cols, c, y, x);
        } else {
          PasteOutside(g, rows, cols, c, y, x);
        }
      }
    }
  }

  /** Samples stay within the input's range after filtering a selection. */
  lemma RegionKeepsRange(g: Grid, r: int, rows: Span, cols: Span, lo: int, hi: int)
    requires IsGrid(g) && r >= 0 && SpansInside(g, rows, cols) && AllWithin(g, lo, hi)
    ensures AllWithin(BlurRegion(g, r, rows, cols), lo, hi)
  {
    var c := Cut(g, rows, cols);
    assert AllWithin(c, lo, hi);
    BlurKeepsRange(c, r, lo, hi);
    PasteKeepsRange(g, rows, cols, BoxFilter.Blur(c, r), lo, hi);
  }

  /** Pasting a patch whose samples lie in [lo, hi] over a grid whose
      samples do keeps every sample in [lo, hi]. */
  lemma PasteKeepsRange(g: Grid, rows: Span, cols: Span, patch: Grid, lo: int, hi: int)
    requires SpansInside(g, rows, cols) && AllWithin(g, lo, hi) && AllWithin(patch, lo, hi)
    requires |patch| == rows.Length() && forall i :: 0 <= i < |patch| ==> |patch[i]| == cols.Length()
    ensures AllWithin(Paste(g, rows, cols, patch), lo, hi)
  {
    var out := Paste(g, rows, cols, patch);
    forall y, x | 0 <= y < |out| && 0 <= x < |out[y]|
      ensures lo <= out[y][x] <= hi
    {
      if rows.Has(y) && cols.Has(x) {
        PasteInside(g, rows, cols, patch, y, x);
      } else {
        PasteOutside(g, rows, cols, patch, y, x);
      }
    }
  }

  /** The selection branch as the editor runs it: slice out the selection,
      fill a fresh buffer with the nested loops over the slice, then assign
      the buffer back to the slice. */
  method BlurRegionLoop(g: Grid, radius: int, rows: Span, cols: Span) returns (out: Grid)
    requires IsGrid(g) && radius >= 0 && SpansInside(g, rows, cols)
    ensures out == BlurRegion(g, radius, rows, cols)
  {
    var sub := Cut(g, rows, cols);
    var blurred := Traversal.BlurLoop(sub, radius);
    out := Paste(g, rows, cols, blurred);
  }
}
