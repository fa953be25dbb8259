/** The photo editor's blur operation on a whole image: a pixel buffer of
    height x width pixels with one or more 8-bit channels, filtered channel
    by channel, either everywhere or only inside a selection rectangle. */
module Editor {
  import opened Grids
  import opened BoxFilter
  import opened Region
  import Traversal

  datatype Option<T> = None | Some(value: T)

  /** A selection as the editor takes it: left, top, right, bottom, used as
      the slice bounds [top:bottom] of the rows and [left:right] of the
      columns. */
  datatype Rect = Rect(left: int, top: int, right: int, bottom: int)

  /** A pixel buffer: one plane per channel (a grayscale image has one, an
      RGB image three), each plane a grid indexed [row][column]. */
  datatype Image = Image(height: nat, width: nat, planes: seq<Grid>) {

    /** Plane p has the image's dimensions. */
    predicate PlaneShaped(p: Grid) {
      |p| == height && forall y :: 0 <= y < |p| ==> |p[y]| == width
    }

    /** Every plane has the image's dimensions and 8-bit samples. */
    predicate Valid() {
      forall c :: 0 <= c < |planes| ==> PlaneShaped(planes[c]) && AllWithin(planes[c], 0, 255)
    }
  }

  /** Rows selected by the rectangle, as NumPy resolves the slice. */
  function RowSpan(img: Image, sel: Rect): (s: Span)
    ensures s.hi <= img.height
  {
    ResolveSlice(sel.top, sel.bottom, img.height)
  }

  /** Columns selected by the rectangle, as NumPy resolves the slice. */
  function ColSpan(img: Image, sel: Rect): (s: Span)
    ensures s.hi <= img.width
  {
    ResolveSlice(sel.left, sel.right, img.width)
  }

  /** Blurs one plane: everywhere without a selection, otherwise only the
      selected rectangle, treated as a region of its own. */
  function BlurPlane(img: Image, p: Grid, radius: int, selection: Option<Rect>): (out: Grid)
    requires img.PlaneShaped(p) && radius >= 0
    ensures img.PlaneShaped(out)
  {
    assert IsGrid(p);
    match selection
    case None => BoxFilter.Blur(p, radius)
    case Some(sel) =>
      Region.BlurRegion(p, radius, RowSpan(img, sel), ColSpan(img, sel))
  }

  /** The editor's blur with radius `radius` and an optional selection. */
  function Blur(img: Image, radius: int, selection: Option<Rect>): (out: Image)
    requires img.Valid() && radius >= 0
    ensures out.height == img.height && out.width == img.width
    ensures |out.planes| == |img.planes|
    ensures forall c :: 0 <= c < |out.planes| ==> out.PlaneShaped(out.planes[c])
  {
    img.(planes := seq(|img.planes|, c requires 0 <= c < |img.planes| =>
                         BlurPlane(img, img.planes[c], radius, selection)))
  }

  /** The editor's blur run plane by plane with the filter's loops. */
  method BlurLoop(img: Image, radius: int, selection: Option<Rect>) returns (out: Image)
    requires img.Valid() && radius >= 0
    ensures out == Blur(img, radius, selection)
  {
    var planes: seq<Grid> := [];
    var c := 0;
    while c < |img.planes|
      invariant 0 <= c <= |img.planes|
      invariant |planes| == c
      invariant forall k :: 0 <= k < c ==> planes[k] == BlurPlane(img, img.planes[k], radius, selection)
    {
      var q := BlurPlaneLoop(img, img.planes[c], radius, selection);
      planes := planes + [q];
      c := c + 1;
    }
    out := img.(planes := planes);
  }

  /** One plane blurred with the filter's loops: the nested loops over the
      whole plane, or over the selection's slice only. */
  method BlurPlaneLoop(img: Image, p: Grid, radius: int, selection: Option<Rect>) returns (q: Grid)
    requires img.PlaneShaped(p) && radius >= 0
    ensures q == BlurPlane(img, p, radius, selection)
  {
    assert IsGrid(p);
    match selection {
      case None =>
        q := Traversal.BlurLoop(p, radius);
      case Some(sel) =>
        q := BlurRegionLoop(p, radius, RowSpan(img, sel), ColSpan(img, sel));
    }
  }

  /** A blurred image is again a valid 8-bit image of the same dimensions
      and channel count: every mean lies within [0, 255]. */
  lemma BlurKeepsValid(img: Image, radius: int, selection: Option<Rect>)
    requires img.Valid() && radius >= 0
    ensures Blur(img, radius, selection).Valid()
  {
    var out := Blur(img, radius, selection);
    forall c | 0 <= c < |img.planes|
      ensures AllWithin(out.planes[c], 0, 255)
    {
      var p := img.planes[c];
      match selection
      case None =>
        BlurKeepsRange(p, radius, 0, 255);
      case Some(sel) =>
        RegionKeepsRange(p, radius, RowSpan(img, sel), ColSpan(img, sel), 0, 255);
    }
  }

  /** Channels are filtered independently: an output plane depends only on
      the same input plane, never on the other channels. */
  lemma ChannelsIndependent(a: Image, b: Image, radius: int, selection: Option<Rect>, c: int)
    requires a.Valid() && b.Valid() && radius >= 0
    requires a.height == b.height && a.width == b.width
    requires 0 <= c < |a.planes| && 0 <= c < |b.planes| && a.planes[c] == b.planes[c]
    ensures Blur(a, radius, selection).planes[c] == Blur(b, radius, selection).planes[c]
  {
  }

  /** Without a selection every sample becomes the truncated mean of its
      channel over the window clamped to the image's edges. */
  lemma WholeImageSample(img: Image, radius: int, c: int, y: int, x: int)
    requires img.Valid() && radius >= 0 && 0 <= c < |img.planes|
    requires 0 <= y < img.height && 0 <= x < img.width
    ensures Blur(img, radius, None).planes[c][y][x]
            == MeanOf(img.planes[c], ClampedWindow(img.height, img.width, radius, y, x))
  {
    var p := img.planes[c];
    assert IsGrid(p) && Width(p) == img.width;
    BlurAt(p, radius, y, x);
  }

  /** With a selection, every sample outside the selected rectangle keeps its
      value, in every channel. */
  lemma SelectionOutsideUnchanged(img: Image, radius: int, sel: Rect, c: int, y: int, x: int)
    requires img.Valid() && radius >= 0 && 0 <= c < |img.planes|
    requires 0 <= y < img.height && 0 <= x < img.width
    requires !(RowSpan(img, sel).Has(y) && ColSpan(img, sel).Has(x))
    ensures Blur(img, radius, Some(sel)).planes[c][y][x] == img.planes[c][y][x]
  {
    var p := img.planes[c];
    assert IsGrid(p) && InGrid(p, y, x);
    RegionOutsideUnchanged(p, radius, RowSpan(img, sel), ColSpan(img, sel), y, x);
  }

  /** With a selection, every sample inside it becomes the truncated mean of
      its channel over the window clamped to the SELECTION's edges, so pixels
      outside the selection never contribute. */
  lemma SelectionInsideClampsToSelection(img: Image, radius: int, sel: Rect, c: int, y: int, x: int)
    requires img.Valid() && radius >= 0 && 0 <= c < |img.planes|
    requires RowSpan(img, sel).Has(y) && ColSpan(img, sel).Has(x)
    ensures var rows, cols := RowSpan(img, sel), ColSpan(img, sel);
            var win := RegionWindow(rows.lo, rows.hi, cols.lo, cols.hi, radius, y, x);
            && rows.lo <= win.y1 && win.y2 < rows.hi && cols.lo <= win.x1 && win.x2 < cols.hi
            && WindowInside(img.planes[c], win)
            && Blur(img, radius, Some(sel)).planes[c][y][x] == MeanOf(img.planes[c], win)
  {
    var p := img.planes[c];
    assert IsGrid(p);
    RegionClampsToOwnEdges(p, radius, RowSpan(img, sel), ColSpan(img, sel), y, x);
  }

  /** Selecting the whole image is the same as giving no selection. */
  lemma WholeSelectionIsNoSelection(img: Image, radius: int)
    requires img.Valid() && radius >= 0
    ensures Blur(img, radius, Some(Rect(0, 0, img.width, img.height))) == Blur(img, radius, None)
  {
    var sel := Rect(0, 0, img.width, img.height);
    var a := Blur(img, radius, Some(sel));
    var b := Blur(img, radius, None);
    forall c | 0 <= c < |img.planes|
      ensures a.planes[c] == b.planes[c]
    {
      WholeSelectionPlane(img, img.planes[c], radius);
    }
  }

  /** One plane of the previous lemma: the whole-image rectangle resolves to
      all rows and all columns. */
  lemma WholeSelectionPlane(img: Image, p: Grid, radius: int)
    requires img.PlaneShaped(p) && radius >= 0
    ensures BlurPlane(img, p, radius, Some(Rect(0, 0, img.width, img.height)))
            == BlurPlane(img, p, radius, None)
  {
    var sel := Rect(0, 0, img.width, img.height);
    assert RowSpan(img, sel) == Span(0, |p|);
    assert ColSpan(img, sel) == Span(0, img.width);
    WholeRegionIsBlur(p, radius, img.width);
  }

  /** With radius 0 the blur changes nothing, with or without a selection. */
  lemma RadiusZeroIsIdentity(img: Image, selection: Option<Rect>)
    requires img.Valid()
    ensures Blur(img, 0, selection) == img
  {
    var out := Blur(img, 0, selection);
    forall c | 0 <= c < |img.planes|
      ensures out.planes[c] == img.planes[c]
    {
      PlaneRadiusZero(img, img.planes[c], selection);
    }
  }

  /** Radius 0 leaves one plane unchanged, with or without a selection. */
  lemma PlaneRadiusZero(img: Image, p: Grid, selection: Option<Rect>)
    requires img.PlaneShaped(p)
    ensures BlurPlane(img, p, 0, selection) == p
  {
    assert IsGrid(p);
    match selection
    case None => BlurRadiusZero(p);
    case Some(sel) => RegionRadiusZero(p, RowSpan(img, sel), ColSpan(img, sel));
  }

  /** Once the radius reaches across the image, every sample of a channel
      becomes that channel's truncated global mean. */
  lemma WideRadiusFlattens(img: Image, radius: int, c: int, y: int, x: int)
    requires img.Valid() && radius >= 0 && 0 <= c < |img.planes|
    requires radius >= img.height - 1 && radius >= img.width - 1
    requires 0 <= y < img.height && 0 <= x < img.width
    ensures Blur(img, radius, None).planes[c][y][x]
            == BlockSum(img.planes[c], 0, img.height, 0, img.width) / (img.height * img.width)
  {
    var p := img.planes[c];
    assert IsGrid(p) && Width(p) == img.width && InGrid(p, y, x);
    FullCoverageIsGlobalMean(p, radius);
  }

  /** A 4 x 4 one-channel image, black except one white pixel at row 1,
      column 1. */
  function Speck(): Image {
    Image(4, 4, [[[0, 0, 0, 0], [0, 255, 0, 0], [0, 0, 0, 0], [0, 0, 0, 0]]])
  }

  /** The difference between the two modes at one pixel: with radius 1 the
      whole-image blur averages the white pixel with its 8 neighbours
      (255 / 9, truncated), while a selection of rows and columns 1..2 clamps
      the window to the selection's 2 x 2 block (255 / 4, truncated). */
  lemma SelectionEdgeExample()
    ensures Speck().Valid()
    ensures Blur(Speck(), 1, None).planes[0][1][1] == 28
    ensures Blur(Speck(), 1, Some(Rect(1, 1, 3, 3))).planes[0][1][1] == 63
  {
    var img := Speck();
    assert img.Valid();
    assert Blur(img, 1, None).planes[0][1][1] == 28 by {
      WholeImageSample(img, 1, 0, 1, 1);
      assert ClampedWindow(4, 4, 1, 1, 1) == Window(0, 2, 0, 2);
      SpeckSums();
    }
    assert Blur(img, 1, Some(Rect(1, 1, 3, 3))).planes[0][1][1] == 63 by {
      SelectionInsideClampsToSelection(img, 1, Rect(1, 1, 3, 3), 0, 1, 1);
      assert RegionWindow(1, 3, 1, 3, 1, 1, 1) == Window(1, 2, 1, 2);
      SpeckSums();
    }
  }

  /** The two window means of the example. */
  lemma SpeckSums()
    ensures WindowInside(Speck().planes[0], Window(0, 2, 0, 2))
    ensures MeanOf(Speck().planes[0], Window(0, 2, 0, 2)) == 28
    ensures MeanOf(Speck().planes[0], Window(1, 2, 1, 2)) == 63
  {
    var g := Speck().planes[0];
    assert RowSum(g[0], 0, 3) == 0 && RowSum(g[1], 0, 3) == 255 && RowSum(g[2], 0, 3) == 0;
    assert BlockSum(g, 0, 3, 0, 3) == 255;
    assert RowSum(g[1], 1, 3) == 255 && RowSum(g[2], 1, 3) == 0;
    assert BlockSum(g, 1, 3, 1, 3) == 255;
  }
}
