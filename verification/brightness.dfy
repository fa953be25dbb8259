/** The editor's brightness adjustment: add a signed integer to every sample
    of every channel and clip the result to the 8-bit range [0, 255]. */
module Brightness {
  import opened Grids
  import opened BoxFilter
  import opened Editor

  /** Clipping to the 8-bit range, as np.clip(v, 0, 255). */
  function Clip(v: int): (c: int)
    ensures 0 <= c <= 255
    ensures 0 <= v <= 255 ==> c == v
  {
    if v < 0 then 0 else if v > 255 then 255 else v
  }

  /** Clipping picks the 8-bit value nearest to v. */
  lemma ClipIsNearest(v: int, c: int)
    requires 0 <= c <= 255
    ensures Dist(Clip(v), v) <= Dist(c, v)
  {
  }

  /** Clipping is monotone. */
  lemma ClipMonotone(u: int, v: int)
    requires u <= v
    ensures Clip(u) <= Clip(v)
  {
  }

  /** One sample brightened (or darkened) by `value`: p + value when that
      is an 8-bit value, otherwise the bound it overshoots. */
  function AdjustSample(p: int, value: int): (q: int)
    ensures 0 <= q <= 255
    ensures 0 <= p + value <= 255 ==> q == p + value
    ensures p + value < 0 ==> q == 0
    ensures p + value > 255 ==> q == 255
  {
    Clip(p + value)
  }

  /** No 8-bit value is nearer to p + value than the adjusted sample. */
  lemma AdjustSampleIsNearest(p: int, value: int, c: int)
    requires 0 <= c <= 255
    ensures Dist(AdjustSample(p, value), p + value) <= Dist(c, p + value)
  {
    ClipIsNearest(p + value, c);
  }

  /** Two adjustments in the same direction add up: brightening by a and
      then by b is brightening by a + b, and likewise for darkening. */
  lemma AdjustSampleComposes(p: int, a: int, b: int)
    requires 0 <= p <= 255
    requires (a >= 0 && b >= 0) || (a <= 0 && b <= 0)
    ensures AdjustSample(AdjustSample(p, a), b) == AdjustSample(p, a + b)
  {
  }

  /** Adjusting by the opposite amount restores a sample the first
      adjustment did not clip. */
  lemma AdjustSampleUndo(p: int, value: int)
    requires 0 <= p <= 255 && 0 <= p + value <= 255
    ensures AdjustSample(AdjustSample(p, value), -value) == p
  {
  }

  /** One plane with every sample adjusted. */
  function AdjustPlane(g: Grid, value: int): (out: Grid)
    ensures SameShape(out, g)
    ensures AllWithin(out, 0, 255)
  {
    seq(|g|, y requires 0 <= y < |g| =>
      seq(|g[y]|, x requires 0 <= x < |g[y]| => AdjustSample(g[y][x], value)))
  }

  /** The image with every sample of every channel adjusted by `value`. */
  function AdjustBrightness(img: Image, value: int): (out: Image)
    requires img.Valid()
    ensures out.height == img.height && out.width == img.width
    ensures |out.planes| == |img.planes|
    ensures out.Valid()
  {
    img.(planes := seq(|img.planes|, c requires 0 <= c < |img.planes| => AdjustPlane(img.planes[c], value)))
  }

  /** Every sample of the adjusted image is the 8-bit value nearest to the
      original sample plus `value`. */
  lemma AdjustBrightnessSample(img: Image, value: int, c: int, y: int, x: int, v: int)
    requires img.Valid() && 0 <= c < |img.planes| && 0 <= y < img.height && 0 <= x < img.width
    requires 0 <= v <= 255
    ensures var q, p := AdjustBrightness(img, value).planes[c][y][x], img.planes[c][y][x];
            0 <= q <= 255 && Dist(q, p + value) <= Dist(v, p + value)
  {
    AdjustSampleIsNearest(img.planes[c][y][x], value, v);
  }

  /** Adding 0 leaves a valid image unchanged. */
  lemma AdjustZeroIsIdentity(img: Image)
    requires img.Valid()
    ensures AdjustBrightness(img, 0) == img
  {
    var out := AdjustBrightness(img, 0);
    forall c | 0 <= c < |img.planes|
      ensures out.planes[c] == img.planes[c]
    {
      var p, q := img.planes[c], out.planes[c];
      forall y | 0 <= y < |p|
        ensures q[y] == p[y]
      {
      }
    }
  }

  /** Two adjustments of an image in the same direction add up. */
  lemma AdjustBrightnessComposes(img: Image, a: int, b: int)
    requires img.Valid()
    requires (a >= 0 && b >= 0) || (a <= 0 && b <= 0)
    ensures AdjustBrightness(AdjustBrightness(img, a), b) == AdjustBrightness(img, a + b)
  {
    var once := AdjustBrightness(img, a);
    var twice := AdjustBrightness(once, b);
    var direct := AdjustBrightness(img, a + b);
    forall c | 0 <= c < |img.planes|
      ensures twice.planes[c] == direct.planes[c]
    {
      var p := img.planes[c];
      forall y | 0 <= y < |p|
        ensures twice.planes[c][y] == direct.planes[c][y]
      {
        forall x | 0 <= x < |p[y]|
          ensures twice.planes[c][y][x] == direct.planes[c][y][x]
        {
          AdjustSampleComposes(p[y][x], a, b);
        }
      }
    }
  }

  /** Brightening never darkens a sample and darkening never brightens one. */
  lemma AdjustMovesTowardValue(img: Image, value: int, c: int, y: int, x: int)
    requires img.Valid() && 0 <= c < |img.planes| && 0 <= y < img.height && 0 <= x < img.width
    ensures value >= 0 ==> AdjustBrightness(img, value).planes[c][y][x] >= img.planes[c][y][x]
    ensures value <= 0 ==> AdjustBrightness(img, value).planes[c][y][x] <= img.planes[c][y][x]
  {
  }

  /** The addition as written, an 8-bit array plus a Python int: a value
      that fits in 8 bits keeps the array's 8-bit type, so the sum wraps
      modulo 256 before the clip can act. Other values are added exactly. */
  function AddAsWritten(p: int, value: int): (s: int)
    ensures 0 <= value <= 255 ==> 0 <= s <= 255 && (s - (p + value)) % 256 == 0
    ensures 0 <= value <= 255 && 0 <= p <= 255 ==> s == if p + value <= 255 then p + value else p + value - 256
    ensures (value < 0 || value > 255) ==> s == p + value
  {
    if 0 <= value <= 255 then (p + value) % 256 else p + value
  }

  /** The brightness step of one sample as written: add, then clip. */
  function AdjustSampleAsWritten(p: int, value: int): (q: int)
    ensures 0 <= q <= 255
  {
    Clip(AddAsWritten(p, value))
  }

  /** The written code departs from the clip exactly when a value in
      [0, 255] pushes an 8-bit sample past 255. */
  lemma AsWrittenDiffersExactly(p: int, value: int)
    requires 0 <= p <= 255
    ensures AdjustSampleAsWritten(p, value) != AdjustSample(p, value) <==> 0 <= value <= 255 && p + value > 255
  {
    if 0 <= value <= 255 && p + value > 255 {
      assert (p + value) % 256 == p + value - 256;
    }
  }

  /** Brightening 250 by 10 gives 4 as written, where the clip intends 255. */
  lemma AsWrittenCounterexample()
    ensures AdjustSampleAsWritten(250, 10) == 4
    ensures AdjustSample(250, 10) == 255
  {
  }
}
