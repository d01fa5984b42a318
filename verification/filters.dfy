/** The stylistic filters of `filters.py`. Warm, cold and contrast stretching
    are modelled with exact arithmetic; median, greyscale and Sobel delegate to
    the `Library` kernels. */
module Filters {
  import opened Pixels
  import opened Images
  import opened Kernels

  /* ---------------- median_filter ---------------- */

  /** The kernel size `median_filter` hands to `cv2.medianBlur`: an even
      request is bumped to the next odd number. */
  function MedianKernelSize(k: int): (r: int)
    ensures r % 2 == 1
    ensures k % 2 == 1 ==> r == k
    ensures k % 2 == 0 ==> r == k + 1
  {
    if k % 2 == 0 then k + 1 else k
  }

  /** `median_filter`: `medianBlur` always receives an odd size, the request
      itself when it is odd and the next odd number otherwise. */
  function MedianFilter(lib: Library, im: Image, k: int): (r: Image)
    ensures lib.Valid() ==> SameShape(r, im)
    ensures k % 2 == 1 ==> r == lib.medianBlur(im, k)
    ensures k % 2 == 0 ==> r == lib.medianBlur(im, k + 1)
  {
    lib.medianBlur(im, MedianKernelSize(k))
  }

  /* ---------------- dark_colors_filter ---------------- */

  /** A grey level expanded back to three equal channels (`COLOR_GRAY2BGR`). */
  function Grey(level: Channel): Pixel
  {
    Pixel(level, level, level)
  }

  /** `dark_colors_filter`: desaturation that keeps three channels. */
  function DarkColors(lib: Library, im: Image): (r: Image)
    ensures SameShape(r, im)
    ensures forall i, j | 0 <= i < Height(r) && 0 <= j < Width(r) ::
      r[i][j].b == r[i][j].g == r[i][j].r == lib.luma(im[i][j])
  {
    var r := MapPixels(im, p => Grey(lib.luma(p)));
    assert forall i, j | 0 <= i < Height(r) && 0 <= j < Width(r) :: r[i][j] == Grey(lib.luma(im[i][j]));
    r
  }

  /* ---------------- warm_filter / cold_filter ---------------- */

  /** `np.clip(intensity, -255, 255)`. */
  function Intensity(v: int): int
  {
    Clamp(v, -255, 255)
  }

  /** `clip(c + tenths / 10, 0, 255).astype(uint8)` in exact arithmetic: the
      float sum is floored (Dafny's `/` by a positive divisor) and clipped. */
  function Shift(c: Channel, tenths: int): Channel
  {
    ClampChannel((10 * c + tenths) / 10)
  }

  /** Warm: red + 0.2 i, green + 0.1 i, blue - 0.1 i. */
  function WarmPixel(i: int, p: Pixel): Pixel
  {
    Pixel(Shift(p.b, -i), Shift(p.g, i), Shift(p.r, 2 * i))
  }

  /** Cold: red - 0.2 i, green - 0.1 i, blue + 0.2 i. */
  function ColdPixel(i: int, p: Pixel): Pixel
  {
    Pixel(Shift(p.b, 2 * i), Shift(p.g, -i), Shift(p.r, -2 * i))
  }

  /** `warm_filter(image, intensity)`. For a non-negative intensity red and
      green never fall and blue never rises. */
  function WarmFilter(im: Image, intensity: int): (r: Image)
    ensures SameShape(r, im)
    ensures forall i, j | 0 <= i < Height(r) && 0 <= j < Width(r) ::
      r[i][j] == WarmPixel(Intensity(intensity), im[i][j])
    ensures intensity >= 0 ==> forall i, j | 0 <= i < Height(r) && 0 <= j < Width(r) ::
      r[i][j].r >= im[i][j].r && r[i][j].g >= im[i][j].g && r[i][j].b <= im[i][j].b
  {
    var i := Intensity(intensity);
    MapPixels(im, p => WarmPixel(i, p))
  }

  /** `cold_filter(image, intensity)`. For a non-negative intensity red and
      green never rise and blue never falls. */
  function ColdFilter(im: Image, intensity: int): (r: Image)
    ensures SameShape(r, im)
    ensures forall i, j | 0 <= i < Height(r) && 0 <= j < Width(r) ::
      r[i][j] == ColdPixel(Intensity(intensity), im[i][j])
    ensures intensity >= 0 ==> forall i, j | 0 <= i < Height(r) && 0 <= j < Width(r) ::
      r[i][j].r <= im[i][j].r && r[i][j].g <= im[i][j].g && r[i][j].b >= im[i][j].b
  {
    var i := Intensity(intensity);
    MapPixels(im, p => ColdPixel(i, p))
  }

  /** At intensity 0 the warm filter returns its input unchanged. */
  lemma WarmIdentity(im: Image)
    ensures WarmFilter(im, 0) == im
  {
    Extensionality(WarmFilter(im, 0), im);
  }

  /** At intensity 0 the cold filter returns its input unchanged. */
  lemma ColdIdentity(im: Image)
    ensures ColdFilter(im, 0) == im
  {
    Extensionality(ColdFilter(im, 0), im);
  }

  /* ---------------- increase_contrast ---------------- */

  /** The least channel value among the first `n` pixels of a row. */
  function RowMin(row: seq<Pixel>, n: nat): (m: Channel)
    requires 0 < n <= |row|
    ensures forall j | 0 <= j < n :: m <= Least(row[j])
    ensures exists j | 0 <= j < n :: m == Least(row[j])
  {
    if n == 1 then Least(row[0])
    else
      var m := RowMin(row, n - 1);
      if Least(row[n - 1]) < m then Least(row[n - 1]) else m
  }

  /** The greatest channel value among the first `n` pixels of a row. */
  function RowMax(row: seq<Pixel>, n: nat): (m: Channel)
    requires 0 < n <= |row|
    ensures forall j | 0 <= j < n :: Most(row[j]) <= m
    ensures exists j | 0 <= j < n :: m == Most(row[j])
  {
    if n == 1 then Most(row[0])
    else
      var m := RowMax(row, n - 1);
      if Most(row[n - 1]) > m then Most(row[n - 1]) else m
  }

  /** The least channel value in the first `n` rows. */
  function RowsMin(im: Image, n: nat): (m: Channel)
    requires 0 < n <= Height(im)
    ensures forall i, j | 0 <= i < n && 0 <= j < Width(im) :: m <= Least(im[i][j])
    ensures exists i, j | 0 <= i < n && 0 <= j < Width(im) :: m == Least(im[i][j])
  {
    var last := RowMin(im[n - 1], Width(im));
    if n == 1 then last
    else
      var m := RowsMin(im, n - 1);
      if last < m then last else m
  }

  /** The greatest channel value in the first `n` rows. */
  function RowsMax(im: Image, n: nat): (m: Channel)
    requires 0 < n <= Height(im)
    ensures forall i, j | 0 <= i < n && 0 <= j < Width(im) :: Most(im[i][j]) <= m
    ensures exists i, j | 0 <= i < n && 0 <= j < Width(im) :: m == Most(im[i][j])
  {
    var last := RowMax(im[n - 1], Width(im));
    if n == 1 then last
    else
      var m := RowsMax(im, n - 1);
      if last > m then last else m
  }

  /** `np.min(image)`: over every channel of every pixel. */
  function ImageMin(im: Image): (m: Channel)
    ensures forall i, j | 0 <= i < Height(im) && 0 <= j < Width(im) :: m <= Least(im[i][j])
    ensures exists i, j | 0 <= i < Height(im) && 0 <= j < Width(im) :: m == Least(im[i][j])
  {
    RowsMin(im, Height(im))
  }

  /** `np.max(image)`: over every channel of every pixel. */
  function ImageMax(im: Image): (m: Channel)
    ensures forall i, j | 0 <= i < Height(im) && 0 <= j < Width(im) :: Most(im[i][j]) <= m
    ensures exists i, j | 0 <= i < Height(im) && 0 <= j < Width(im) :: m == Most(im[i][j])
  {
    RowsMax(im, Height(im))
  }

  /** The lower stretch bound `minimum + (maximum - minimum) * (p / 200)`. */
  function Lower(lo: int, hi: int, p: int): real
  {
    lo as real + (hi - lo) as real * (p as real / 200.0)
  }

  /** The upper stretch bound `maximum - (maximum - minimum) * (p / 200)`. */
  function Upper(lo: int, hi: int, p: int): real
  {
    hi as real - (hi - lo) as real * (p as real / 200.0)
  }

  /** One channel of `(image - lower) * 255 / (upper - lower)`, clipped and
      truncated. numpy does not raise on a zero divisor: a positive numerator
      gives +inf (clipped to 255), a negative one -inf (clipped to 0) and zero
      gives NaN, whose uint8 cast is the library's `nanToByte`. */
  function Stretch(v: int, lower: real, upper: real, nan: Channel): (r: Channel)
    ensures lower < upper && v as real <= lower ==> r == 0
    ensures lower < upper && v as real >= upper ==> r == 255
  {
    if upper == lower then
      (if v as real > lower then 255 else if v as real < lower then 0 else nan)
    else
      var x := (v as real - lower) * 255.0 / (upper - lower);
      var _ := if lower < upper then QuotientBounds((v as real - lower) * 255.0, upper - lower); 0 else 0;
      ClampChannel(x.Floor)
  }

  /** Sign and saturation of the stretch quotient for a positive divisor. */
  lemma QuotientBounds(n: real, d: real)
    requires d > 0.0
    ensures n <= 0.0 ==> n / d <= 0.0
    ensures n >= 255.0 * d ==> n / d >= 255.0
  {
    var q := n / d;
    assert q * d == n;
    if q > 0.0 {
      assert q * d > 0.0;
    }
    if q < 255.0 {
      assert q * d < 255.0 * d;
    }
  }

  function StretchPixel(p: Pixel, lower: real, upper: real, nan: Channel): Pixel
  {
    Pixel(Stretch(p.b, lower, upper, nan), Stretch(p.g, lower, upper, nan), Stretch(p.r, lower, upper, nan))
  }

  /** `increase_contrast(image, p)` with `nan` standing for the NaN cast. */
  function IncreaseContrast(im: Image, p: int, nan: Channel): (r: Image)
    ensures SameShape(r, im)
    ensures forall i, j | 0 <= i < Height(r) && 0 <= j < Width(r) ::
      r[i][j] == StretchPixel(im[i][j], Lower(ImageMin(im), ImageMax(im), p),
                              Upper(ImageMin(im), ImageMax(im), p), nan)
  {
    var lower := Lower(ImageMin(im), ImageMax(im), p);
    var upper := Upper(ImageMin(im), ImageMax(im), p);
    MapPixels(im, px => StretchPixel(px, lower, upper, nan))
  }

  /** For a buffer that is not uniform and a factor below 100 the bounds are
      ordered and lie within the buffer's own range, so the division is by a
      positive amount. */
  lemma ContrastBoundsOrdered(lo: int, hi: int, p: int)
    requires lo < hi && 0 <= p < 100
    ensures lo as real <= Lower(lo, hi, p) < Upper(lo, hi, p) <= hi as real
  {
    var d := (hi - lo) as real;
    var f := p as real / 200.0;
    var shift := d * f;
    assert Lower(lo, hi, p) == lo as real + shift;
    assert Upper(lo, hi, p) == hi as real - shift;
    assert 0.0 <= f < 0.5;
    assert 0.0 <= shift by {
      PositiveProduct(d, f);
    }
    assert d - 2.0 * shift == d * (1.0 - 2.0 * f);
    assert 0.0 < d * (1.0 - 2.0 * f) by {
      PositiveProduct(d, 1.0 - 2.0 * f);
    }
  }

  /** Products of non-negative reals are non-negative, of positive ones positive. */
  lemma PositiveProduct(a: real, b: real)
    requires a > 0.0 && b >= 0.0
    ensures a * b >= 0.0
    ensures b > 0.0 ==> a * b > 0.0
  {
  }

  /** The divisor of `(image - lower) * 255.0 / (upper - lower)` in `Stretch`
      is zero exactly when the buffer is uniform or the factor is 100. */
  lemma ContrastDividesByZero(lo: int, hi: int, p: int)
    ensures Lower(lo, hi, p) == Upper(lo, hi, p) <==> lo == hi || p == 100
  {
    var d := (hi - lo) as real;
    var f := p as real / 200.0;
    var e := 1.0 - 2.0 * f;
    assert Upper(lo, hi, p) - Lower(lo, hi, p) == d * e;
    if lo != hi && p != 100 {
      assert d != 0.0 && e != 0.0;
      assert d * e != 0.0 by {
        assert (d * e) / e == d;
      }
    }
  }

  /** Stretching never reverses the order of two input values. */
  lemma StretchMonotone(v1: int, v2: int, lower: real, upper: real, nan: Channel)
    requires lower < upper && v1 <= v2
    ensures Stretch(v1, lower, upper, nan) <= Stretch(v2, lower, upper, nan)
  {
    var d := upper - lower;
    var a := (v1 as real - lower) * 255.0;
    var b := (v2 as real - lower) * 255.0;
    assert a <= b;
    assert a / d <= b / d by {
      assert b / d - a / d == (b - a) / d;
    }
  }

  /** A uniform buffer stretches to NaN everywhere: every channel becomes the
      library's NaN byte, whatever the factor. */
  lemma ContrastUniform(im: Image, p: int, nan: Channel)
    requires ImageMin(im) == ImageMax(im)
    ensures forall i, j | 0 <= i < Height(im) && 0 <= j < Width(im) ::
      IncreaseContrast(im, p, nan)[i][j] == Grey(nan)
  {
    var lo := ImageMin(im);
    assert Lower(lo, lo, p) == lo as real;
    assert Upper(lo, lo, p) == lo as real;
    forall i, j | 0 <= i < Height(im) && 0 <= j < Width(im)
      ensures IncreaseContrast(im, p, nan)[i][j] == Grey(nan)
    {
      var px := im[i][j];
      assert lo <= Least(px) && Most(px) <= lo;
      assert px.b == lo && px.g == lo && px.r == lo;
    }
  }

  /** A pixel whose darkest channel is at or below the lower bound gets a 0 channel. */
  lemma StretchPixelFloor(px: Pixel, lower: real, upper: real, nan: Channel)
    requires lower < upper && Least(px) as real <= lower
    ensures Least(StretchPixel(px, lower, upper, nan)) == 0
  {
    assert px.b == Least(px) || px.g == Least(px) || px.r == Least(px);
  }

  /** A pixel whose brightest channel is at or above the upper bound gets a 255 channel. */
  lemma StretchPixelCeiling(px: Pixel, lower: real, upper: real, nan: Channel)
    requires lower < upper && Most(px) as real >= upper
    ensures Most(StretchPixel(px, lower, upper, nan)) == 255
  {
    assert px.b == Most(px) || px.g == Most(px) || px.r == Most(px);
  }

  /** For a non-uniform buffer and a factor below 100 the output spans the
      full byte range: the darkest input channel goes to 0, the brightest to 255. */
  lemma ContrastReachesExtremes(im: Image, p: int, nan: Channel)
    requires 0 <= p < 100
    ensures ImageMin(im) < ImageMax(im) ==>
      exists i, j | 0 <= i < Height(im) && 0 <= j < Width(im) :: Least(IncreaseContrast(im, p, nan)[i][j]) == 0
    ensures ImageMin(im) < ImageMax(im) ==>
      exists i, j | 0 <= i < Height(im) && 0 <= j < Width(im) :: Most(IncreaseContrast(im, p, nan)[i][j]) == 255
  {
    if ImageMin(im) < ImageMax(im) {
      ReachesExtremes(im, p, nan);
    }
  }

  lemma ReachesExtremes(im: Image, p: int, nan: Channel)
    requires 0 <= p < 100 && ImageMin(im) < ImageMax(im)
    ensures exists i, j | 0 <= i < Height(im) && 0 <= j < Width(im) :: Least(IncreaseContrast(im, p, nan)[i][j]) == 0
    ensures exists i, j | 0 <= i < Height(im) && 0 <= j < Width(im) :: Most(IncreaseContrast(im, p, nan)[i][j]) == 255
  {
    var lo, hi := ImageMin(im), ImageMax(im);
    var lower, upper := Lower(lo, hi, p), Upper(lo, hi, p);
    ContrastBoundsOrdered(lo, hi, p);
    var out := IncreaseContrast(im, p, nan);
    var i0, j0 :| 0 <= i0 < Height(im) && 0 <= j0 < Width(im) && lo == Least(im[i0][j0]);
    assert out[i0][j0] == StretchPixel(im[i0][j0], lower, upper, nan);
    StretchPixelFloor(im[i0][j0], lower, upper, nan);
    var i1, j1 :| 0 <= i1 < Height(im) && 0 <= j1 < Width(im) && hi == Most(im[i1][j1]);
    assert out[i1][j1] == StretchPixel(im[i1][j1], lower, upper, nan);
    StretchPixelCeiling(im[i1][j1], lower, upper, nan);
  }
}
