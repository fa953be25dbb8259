/** The box-average filter of one channel: every output sample is the
    truncated mean of the input samples in a square window of half-width
    `radius` around it, the window clamped to the edges of the region. */
module BoxFilter {
  import opened Grids

  /** An inclusive window [y1, y2] x [x1, x2], as the filter's x1, y1, x2, y2. */
  datatype Window = Window(y1: int, y2: int, x1: int, x2: int) {

    predicate Contains(y: int, x: int) {
      y1 <= y <= y2 && x1 <= x <= x2
    }

    /** Number of pixels in the window. */
    function Count(): int {
      (y2 - y1 + 1) * (x2 - x1 + 1)
    }
  }

  function Max(a: int, b: int): int { if a < b then b else a }
  function Min(a: int, b: int): int { if a < b then a else b }

  /** Distance between two coordinates along one axis. */
  function Dist(a: int, b: int): nat { if a < b then b - a else a - b }

  /** A window whose corners are in order holds at least one pixel. */
  lemma CountPositive(win: Window)
    requires win.y1 <= win.y2 && win.x1 <= win.x2
    ensures win.Count() > 0
  {
    MulMono(1, win.y2 - win.y1 + 1, win.x2 - win.x1 + 1);
  }

  /** The window of pixel (y, x) in an h x w region: the square of half-width
      r around it, clamped to the region's own edges. */
  function ClampedWindow(h: int, w: int, r: int, y: int, x: int): (win: Window)
    requires r >= 0 && 0 <= y < h && 0 <= x < w
    ensures 0 <= win.y1 <= y <= win.y2 < h && 0 <= win.x1 <= x <= win.x2 < w
    ensures win.Count() > 0
  {
    var win := Window(Max(0, y - r), Min(h - 1, y + r), Max(0, x - r), Min(w - 1, x + r));
    CountPositive(win);
    win
  }

  /** The clamped window holds exactly the pixels of the region within
      Chebyshev distance r of (y, x): it is non-empty, contains (y, x), and
      never reaches outside the region. */
  lemma ClampedWindowMembers(h: int, w: int, r: int, y: int, x: int)
    requires r >= 0 && 0 <= y < h && 0 <= x < w
    ensures forall y', x' :: ClampedWindow(h, w, r, y, x).Contains(y', x') <==>
              (0 <= y' < h && 0 <= x' < w && Dist(y', y) <= r && Dist(x', x) <= r)
  {
  }

  /** The window lies inside g, so its samples can be summed. */
  predicate WindowInside(g: Grid, win: Window) {
    && 0 <= win.y1 <= win.y2 < |g|
    && 0 <= win.x1 <= win.x2
    && forall y :: win.y1 <= y <= win.y2 ==> win.x2 < |g[y]|
  }

  /** Sum of the samples of g inside the window. */
  function WindowSum(g: Grid, win: Window): int
    requires WindowInside(g, win)
  {
    BlockSum(g, win.y1, win.y2 + 1, win.x1, win.x2 + 1)
  }

  /** Pixel (y, x) lies in the grid. */
  predicate InGrid(g: Grid, y: int, x: int) {
    0 <= y < |g| && 0 <= x < Width(g)
  }

  /** The mean of the samples in the window, truncated to an integer as
      storing a non-negative float mean into an integer array does. */
  function MeanOf(g: Grid, win: Window): int
    requires WindowInside(g, win) && win.Count() > 0
  {
    WindowSum(g, win) / win.Count()
  }

  /** The output sample at (y, x): the truncated mean of its clamped window,
      that is the unique integer m with m * n <= sum < (m + 1) * n, n the
      number of pixels in the window. */
  function BoxMean(g: Grid, r: int, y: int, x: int): (m: int)
    requires IsGrid(g) && r >= 0 && InGrid(g, y, x)
    ensures var win := ClampedWindow(|g|, Width(g), r, y, x);
            m * win.Count() <= WindowSum(g, win) < (m + 1) * win.Count()
  {
    MeanOf(g, ClampedWindow(|g|, Width(g), r, y, x))
  }

  /** The blurred channel: the box mean at every pixel, in a fresh grid of
      the same shape. */
  function Blur(g: Grid, r: int): (b: Grid)
    requires IsGrid(g) && r >= 0
    ensures IsGrid(b) && SameShape(b, g) && Width(b) == Width(g)
    ensures forall y, x :: InGrid(g, y, x) ==> b[y][x] == BoxMean(g, r, y, x)
  {
    seq(|g|, y requires 0 <= y < |g| =>
      seq(Width(g), x requires 0 <= x < Width(g) => BoxMean(g, r, y, x)))
  }

  /** One sample of the blur: the box mean at that pixel. */
  lemma BlurAt(g: Grid, r: int, y: int, x: int)
    requires IsGrid(g) && r >= 0 && InGrid(g, y, x)
    ensures Blur(g, r)[y][x] == BoxMean(g, r, y, x)
  {
  }

  /** Each output sample lies between any lower and upper bound of the samples
      in its window; taking the window's minimum and maximum as bounds, it lies
      between them. */
  lemma MeanWithinWindow(g: Grid, r: int, y: int, x: int, lo: int, hi: int)
    requires IsGrid(g) && r >= 0 && InGrid(g, y, x)
    requires forall y', x' :: ClampedWindow(|g|, Width(g), r, y, x).Contains(y', x') ==> lo <= g[y'][x'] <= hi
    ensures lo <= BoxMean(g, r, y, x) <= hi
  {
    var win := ClampedWindow(|g|, Width(g), r, y, x);
    var m := BoxMean(g, r, y, x);
    var n := win.Count();
    var s := WindowSum(g, win);
    assert forall y', x' :: win.y1 <= y' < win.y2 + 1 && win.x1 <= x' < win.x2 + 1 ==> lo <= g[y'][x'] <= hi by {
      forall y', x' | win.y1 <= y' < win.y2 + 1 && win.x1 <= x' < win.x2 + 1
        ensures lo <= g[y'][x'] <= hi
      {
        assert win.Contains(y', x');
      }
    }
    BlockSumBounds(g, win.y1, win.y2 + 1, win.x1, win.x2 + 1, lo, hi);
    assert lo * n <= s <= hi * n;
    assert m * n <= s < (m + 1) * n;
    MulCancelLe(m, hi, n);
    MulCancelLe(lo, m + 1, n);
    assert lo != m + 1;
  }

  /** Samples of the region are in [lo, hi]. */
  predicate AllWithin(g: Grid, lo: int, hi: int) {
    forall y, x :: 0 <= y < |g| && 0 <= x < |g[y]| ==> lo <= g[y][x] <= hi
  }

  /** Blurring never leaves the range of the input samples; in particular an
      8-bit channel stays within [0, 255]. */
  lemma BlurKeepsRange(g: Grid, r: int, lo: int, hi: int)
    requires IsGrid(g) && r >= 0 && AllWithin(g, lo, hi)
    ensures AllWithin(Blur(g, r), lo, hi)
  {
    forall y, x | InGrid(g, y, x)
      ensures lo <= BoxMean(g, r, y, x) <= hi
    {
      MeanWithinWindow(g, r, y, x, lo, hi);
    }
  }

  /** With radius 0 the window is the pixel itself, so the blur is the identity. */
  lemma BlurRadiusZero(g: Grid)
    requires IsGrid(g)
    ensures Blur(g, 0) == g
  {
    var b := Blur(g, 0);
    forall y | 0 <= y < |g|
      ensures b[y] == g[y]
    {
      forall x | 0 <= x < Width(g)
        ensures b[y][x] == g[y][x]
      {
        var win := ClampedWindow(|g|, Width(g), 0, y, x);
        assert win == Window(y, y, x, x);
        assert RowSum(g[y], x, x + 1) == g[y][x];
        assert BlockSum(g, y, y + 1, x, x + 1) == BlockSum(g, y, y, x, x + 1) + RowSum(g[y], x, x + 1);
        assert WindowSum(g, win) == g[y][x];
      }
    }
  }

  /** Every sample of g equals c. */
  predicate Uniform(g: Grid, c: int) {
    forall y, x :: 0 <= y < |g| && 0 <= x < |g[y]| ==> g[y][x] == c
  }

  /** A uniform region is a fixed point of the blur, for every radius. */
  lemma UniformIsFixed(g: Grid, r: int, c: int)
    requires IsGrid(g) && r >= 0 && Uniform(g, c)
    ensures Blur(g, r) == g
  {
    var b := Blur(g, r);
    forall y | 0 <= y < |g|
      ensures b[y] == g[y]
    {
      forall x | 0 <= x < Width(g)
        ensures b[y][x] == g[y][x]
      {
        MeanWithinWindow(g, r, y, x, c, c);
      }
    }
  }

  /** The truncated mean of the whole region. */
  function WholeMean(g: Grid): int
    requires IsGrid(g) && |g| > 0 && Width(g) > 0
  {
    BlockSum(g, 0, |g|, 0, Width(g)) / (|g| * Width(g))
  }

  /** The radius reaches every pixel from every pixel. */
  predicate CoversRegion(g: Grid, r: int) {
    r >= |g| - 1 && r >= Width(g) - 1
  }

  /** Once the radius reaches across the region, every window is the whole
      region and every output sample is the same truncated global mean. */
  lemma FullCoverageIsGlobalMean(g: Grid, r: int)
    requires IsGrid(g) && r >= 0 && CoversRegion(g, r)
    ensures forall y, x :: InGrid(g, y, x) ==> Blur(g, r)[y][x] == WholeMean(g)
  {
    forall y, x | InGrid(g, y, x)
      ensures BoxMean(g, r, y, x) == WholeMean(g)
    {
      var win := ClampedWindow(|g|, Width(g), r, y, x);
      assert win == Window(0, |g| - 1, 0, Width(g) - 1);
    }
  }

  /** Blurring a fully averaged region again, with any radius, changes nothing. */
  lemma FullCoverageIdempotent(g: Grid, r: int, r2: int)
    requires IsGrid(g) && r >= 0 && r2 >= 0 && CoversRegion(g, r)
    ensures Blur(Blur(g, r), r2) == Blur(g, r)
  {
    var b := Blur(g, r);
    if |g| > 0 && Width(g) > 0 {
      FullCoverageIsGlobalMean(g, r);
      assert Uniform(b, WholeMean(g));
      UniformIsFixed(b, r2, WholeMean(g));
    } else {
      BlurRadiusZero(b);
      assert Blur(b, r2) == b;
    }
  }
}
