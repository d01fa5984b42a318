/** Images as pixel grids and the geometric operations the editor performs on
    them: 90-degree rotations and numpy slicing. */
module Images {
  import opened Pixels

  /** Rows of pixels, row-major: `g[y][x]`. */
  type Grid = seq<seq<Pixel>>

  predicate Rectangular(g: Grid)
  {
    forall i | 0 <= i < |g| :: |g[i]| == |g[0]|
  }

  /** A decoded colour image: at least one row and one column, all rows of one
      width. `cv2.imread` never yields an empty array. */
  type Image = g: Grid | |g| > 0 && |g[0]| > 0 && Rectangular(g)
    witness [[Pixel(0, 0, 0)]]

  function Height(im: Image): nat
  {
    |im|
  }

  function Width(im: Image): nat
  {
    |im[0]|
  }

  predicate SameShape(a: Image, b: Image)
  {
    Height(a) == Height(b) && Width(a) == Width(b)
  }

  /** Two images with the same shape and the same pixels are equal. */
  lemma Extensionality(a: Image, b: Image)
    requires SameShape(a, b)
    requires forall i, j | 0 <= i < Height(a) && 0 <= j < Width(a) :: a[i][j] == b[i][j]
    ensures a == b
  {
    forall i | 0 <= i < Height(a)
      ensures a[i] == b[i]
    {
      assert |a[i]| == |b[i]| == Width(a);
    }
  }

  /** The image obtained by applying `f` to every pixel. */
  function MapPixels(im: Image, f: Pixel -> Pixel): (r: Image)
    ensures SameShape(r, im)
    ensures forall i, j | 0 <= i < Height(im) && 0 <= j < Width(im) :: r[i][j] == f(im[i][j])
  {
    seq(Height(im), i requires 0 <= i < Height(im) =>
      seq(Width(im), j requires 0 <= j < Width(im) => f(im[i][j])))
  }

  /** `cv2.rotate(im, cv2.ROTATE_90_CLOCKWISE)`: the first column read bottom
      to top becomes the first row. */
  function RotateCW(im: Image): (r: Image)
    ensures Height(r) == Width(im) && Width(r) == Height(im)
    ensures forall i, j | 0 <= i < Height(r) && 0 <= j < Width(r) :: r[i][j] == im[Height(im) - 1 - j][i]
  {
    seq(Width(im), i requires 0 <= i < Width(im) =>
      seq(Height(im), j requires 0 <= j < Height(im) => im[Height(im) - 1 - j][i]))
  }

  /** `cv2.rotate(im, cv2.ROTATE_90_COUNTERCLOCKWISE)`: the last column read
      top to bottom becomes the first row. */
  function RotateCCW(im: Image): (r: Image)
    ensures Height(r) == Width(im) && Width(r) == Height(im)
    ensures forall i, j | 0 <= i < Height(r) && 0 <= j < Width(r) :: r[i][j] == im[j][Width(im) - 1 - i]
  {
    var g := seq(Width(im), i requires 0 <= i < Width(im) =>
      seq(Height(im), j requires 0 <= j < Height(im) => im[j][Width(im) - 1 - i]));
    assert forall i | 0 <= i < |g| :: |g[i]| == Height(im);
    g
  }

  /** A half turn, used to reason about repeated quarter turns. */
  function Rotate180(im: Image): (r: Image)
    ensures SameShape(r, im)
    ensures forall i, j | 0 <= i < Height(r) && 0 <= j < Width(r) ::
      r[i][j] == im[Height(im) - 1 - i][Width(im) - 1 - j]
  {
    var g := seq(Height(im), i requires 0 <= i < Height(im) =>
      seq(Width(im), j requires 0 <= j < Width(im) => im[Height(im) - 1 - i][Width(im) - 1 - j]));
    assert forall i | 0 <= i < |g| :: |g[i]| == Width(im);
    g
  }

  /** A counter-clockwise quarter turn undoes a clockwise one. */
  lemma CCWUndoesCW(im: Image)
    ensures RotateCCW(RotateCW(im)) == im
  {
    var r := RotateCCW(RotateCW(im));
    Extensionality(r, im);
  }

  /** A clockwise quarter turn undoes a counter-clockwise one. */
  lemma CWUndoesCCW(im: Image)
    ensures RotateCW(RotateCCW(im)) == im
  {
    var r := RotateCW(RotateCCW(im));
    Extensionality(r, im);
  }

  lemma TwoCWIsHalfTurn(im: Image)
    ensures RotateCW(RotateCW(im)) == Rotate180(im)
  {
    Extensionality(RotateCW(RotateCW(im)), Rotate180(im));
  }

  lemma HalfTurnTwice(im: Image)
    ensures Rotate180(Rotate180(im)) == im
  {
    Extensionality(Rotate180(Rotate180(im)), im);
  }

  /** Four clockwise quarter turns give back the image exactly. */
  lemma FourCWIsIdentity(im: Image)
    ensures RotateCW(RotateCW(RotateCW(RotateCW(im)))) == im
  {
    TwoCWIsHalfTurn(im);
    TwoCWIsHalfTurn(RotateCW(RotateCW(im)));
    HalfTurnTwice(im);
  }

  /** Four counter-clockwise quarter turns give back the image exactly. */
  lemma FourCCWIsIdentity(im: Image)
    ensures RotateCCW(RotateCCW(RotateCCW(RotateCCW(im)))) == im
  {
    var a := RotateCCW(im);
    var b := RotateCCW(a);
    var c := RotateCCW(b);
    var d := RotateCCW(c);
    FourCWIsIdentity(d);
    CWUndoesCCW(c);
    CWUndoesCCW(b);
    CWUndoesCCW(a);
    CWUndoesCCW(im);
  }

  /** Python's normalisation of one slice bound against a length `n`: a
      negative bound counts from the end, and the result is clipped to `[0, n]`. */
  function SliceBound(n: nat, s: int): (r: nat)
    ensures r <= n
    ensures 0 <= s <= n ==> r == s
    ensures s > n ==> r == n
    ensures s < 0 && 0 <= s + n ==> r == s + n
    ensures s + n < 0 ==> r == 0
  {
    if s < 0 then (if s + n < 0 then 0 else s + n) else if s > n then n else s
  }

  /** numpy's `im[y0:y1, x0:x1]`; the result may have no rows or no columns. */
  function Slice(im: Image, y0: int, y1: int, x0: int, x1: int): (g: Grid)
    ensures Rectangular(g)
    ensures |g| == (if SliceBound(Height(im), y1) > SliceBound(Height(im), y0)
                    then SliceBound(Height(im), y1) - SliceBound(Height(im), y0) else 0)
    ensures forall i | 0 <= i < |g| ::
      |g[i]| == (if SliceBound(Width(im), x1) > SliceBound(Width(im), x0)
                 then SliceBound(Width(im), x1) - SliceBound(Width(im), x0) else 0)
    ensures forall i, j | 0 <= i < |g| && 0 <= j < |g[i]| ::
      SliceBound(Height(im), y0) + i < Height(im) && SliceBound(Width(im), x0) + j < Width(im) &&
      g[i][j] == im[SliceBound(Height(im), y0) + i][SliceBound(Width(im), x0) + j]
  {
    var top := SliceBound(Height(im), y0);
    var bottom := SliceBound(Height(im), y1);
    var left := SliceBound(Width(im), x0);
    var right := SliceBound(Width(im), x1);
    var rows := if bottom > top then bottom - top else 0;
    var cols := if right > left then right - left else 0;
    seq(rows, i requires 0 <= i < rows =>
      seq(cols, j requires 0 <= j < cols => im[top + i][left + j]))
  }
}
