/** The editor window's image state and the slots of `main.py` as transitions
    over it. Dialog results, the region picked with `cv2.selectROI` and the
    images `cv2.imread` decodes are plain inputs; OpenCV kernels come from the
    `Library`. */
module Editor {
  import opened Wrappers
  import opened Pixels
  import opened Images
  import opened Kernels
  import opened Filters

  /** The value of `selected_filter`; `NoFilter` is Python's None. */
  datatype Label = NoFilter | Median | GreyScale | Cold | Laplacian | Sobal | Warm

  /** The window's image fields. */
  datatype State = State(
    base: Option<Image>,          // base_image
    working: Option<Image>,       // image_with_filters
    display: Option<Image>,       // modified_image
    selected: Label,              // selected_filter
    filterValue: int,             // filter_value
    originalPath: Option<string>, // original_path (unset until a load succeeds)
    addingText: bool)             // adding_text

  /** Exceptions that leave a slot uncaught; PyQt aborts the application then. */
  datatype Fault =
    | MissingAttribute  // image_with_filters read before any load
    | UnboundName       // resize with a width or height that `int()` rejected
    | OpenCvError       // cv2.resize / cvtColor refusing their input

  /** What a slot whose exceptions are not caught leads to. */
  datatype Outcome = Handled(state: State) | Escaped(fault: Fault)

  /** The fields as `__init__` leaves them. */
  function Init(): (r: State)
    ensures r.base.None? && r.working.None? && r.display.None?
    ensures r.originalPath.None? && !r.addingText
    ensures r.selected == NoFilter && r.filterValue == 0
  {
    State(None, None, None, NoFilter, 0, None, false)
  }

  /* ---------------- parameters ---------------- */

  /** `adjust_filter`'s normalisation of the slider value. */
  function NormalizeFilterValue(value: int): (r: int)
    ensures 3 <= r <= 99 && r % 2 == 1
    ensures 3 <= value <= 99 && value % 2 == 1 ==> r == value
    ensures 2 <= value <= 98 && value % 2 == 0 ==> r == value + 1
    ensures value <= 2 ==> r == 3
    ensures value >= 99 ==> r == 99
  {
    var odd := if value % 2 == 0 then value + 1 else value;
    Clamp(odd, 3, 99)
  }

  /** `change_blur`'s sigma: the slider value in tenths, clipped to [0.1, 5.0]. */
  function BlurSigma(value: int): (r: real)
    ensures 0.1 <= r <= 5.0
    ensures 1 <= value <= 50 ==> r == value as real / 10.0
    ensures value <= 1 ==> r == 0.1
    ensures value >= 50 ==> r == 5.0
  {
    var s := value as real / 10.0;
    var capped := if s < 5.0 then s else 5.0;
    if capped > 0.1 then capped else 0.1
  }

  /** One channel of `clip(base * (1 + v / 100), 0, 255).astype(uint8)`. */
  function BrightChannel(c: Channel, v: int): Channel
  {
    ClampChannel(c * (100 + v) / 100)
  }

  function BrightPixel(p: Pixel, v: int): Pixel
  {
    Pixel(BrightChannel(p.b, v), BrightChannel(p.g, v), BrightChannel(p.r, v))
  }

  /** `brightness_change`'s tonal scaling of the base image. */
  function Brighten(im: Image, v: int): (r: Image)
    ensures SameShape(r, im)
    ensures forall i, j | 0 <= i < Height(r) && 0 <= j < Width(r) :: r[i][j] == BrightPixel(im[i][j], v)
  {
    MapPixels(im, p => BrightPixel(p, v))
  }

  /* ---------------- filter selection ---------------- */

  /** The radio buttons' checked states, in the order `update_filter` tests them. */
  datatype Radios = Radios(
    median: bool, bilateral: bool, gaussian: bool,
    filter4: bool, filter5: bool, filter6: bool, noFilter: bool)

  /** Whether the `i`-th filter button in test order is checked. */
  function Checked(rs: Radios, i: int): bool
  {
    if i == 0 then rs.median
    else if i == 1 then rs.bilateral
    else if i == 2 then rs.gaussian
    else if i == 3 then rs.filter4
    else if i == 4 then rs.filter5
    else if i == 5 then rs.filter6
    else false
  }

  /** The position of the button a label belongs to; `NoFilter` comes last. */
  function Rank(l: Label): nat
  {
    match l
    case Median => 0
    case GreyScale => 1
    case Cold => 2
    case Laplacian => 3
    case Sobal => 4
    case Warm => 5
    case NoFilter => 6
  }

  /** `update_filter`'s choice: the first checked filter button wins, and with
      none of the six checked the selection is None. */
  function SelectedLabel(rs: Radios): (r: Label)
    ensures r == NoFilter <==> forall i | 0 <= i < 6 :: !Checked(rs, i)
    ensures r != NoFilter ==> Checked(rs, Rank(r))
    ensures forall i | 0 <= i < 6 && Checked(rs, i) :: Rank(r) <= i
  {
    assert Checked(rs, 0) == rs.median && Checked(rs, 1) == rs.bilateral && Checked(rs, 2) == rs.gaussian;
    assert Checked(rs, 3) == rs.filter4 && Checked(rs, 4) == rs.filter5 && Checked(rs, 5) == rs.filter6;
    if rs.median then Median
    else if rs.bilateral then GreyScale
    else if rs.gaussian then Cold
    else if rs.filter4 then Laplacian
    else if rs.filter5 then Sobal
    else if rs.filter6 then Warm
    else NoFilter
  }

  /* ---------------- apply_filter ---------------- */

  /** The kernel `apply_filter` runs for a label on a copy of the working image.
      The "Laplacian" label runs contrast stretching, not an edge filter. */
  function Render(lib: Library, sel: Label, value: int, im: Image): (r: Image)
    ensures lib.Valid() ==> SameShape(r, im)
    ensures sel == NoFilter ==> r == im
    ensures sel == Median ==> r == MedianFilter(lib, im, value)
    ensures sel == GreyScale ==> r == DarkColors(lib, im)
    ensures sel == Cold ==> r == ColdFilter(im, value)
    ensures sel == Laplacian ==> r == IncreaseContrast(im, value, lib.nanToByte)
    ensures sel == Sobal ==> r == lib.sobel(im)
    ensures sel == Warm ==> r == WarmFilter(im, value)
  {
    match sel
    case NoFilter => im
    case Median => MedianFilter(lib, im, value)
    case GreyScale => DarkColors(lib, im)
    case Cold => ColdFilter(im, value)
    case Laplacian => IncreaseContrast(im, value, lib.nanToByte)
    case Sobal => lib.sobel(im)
    case Warm => WarmFilter(im, value)
  }

  /** `apply_filter`: the display becomes the selected kernel applied to the
      working image; nothing else changes. */
  function ApplyFilter(lib: Library, s: State): (r: State)
    requires s.working.Some?
    ensures r.display == Some(Render(lib, s.selected, s.filterValue, s.working.value))
    ensures r.(display := s.display) == s
  {
    s.(display := Some(Render(lib, s.selected, s.filterValue, s.working.value)))
  }

  /* ---------------- slots ---------------- */

  /** `load_image`. A cancelled dialog changes nothing. When `imread` fails
      (`decoded` is None) `base_image` is already overwritten with None before
      the `.copy()` raises, and the exception is printed. */
  function Load(s: State, path: string, decoded: Option<Image>): (r: State)
    ensures path == "" ==> r == s
    ensures path != "" && decoded.None? ==> r == s.(base := None)
    ensures path != "" && decoded.Some? ==>
      && r.base == r.working == r.display == decoded
      && r.originalPath == Some(path)
      && r.selected == s.selected && r.filterValue == s.filterValue && r.addingText == s.addingText
  {
    if path == "" then s
    else match decoded
      case None => s.(base := None)
      case Some(im) => s.(base := Some(im), working := Some(im), display := Some(im), originalPath := Some(path))
  }

  /** `brightness_change`: the working image is recomputed from the base image
      and the filter reapplied. A missing image, or a display whose size
      differs from the base (cv2.addWeighted refuses it), raises inside the
      `try` and leaves the state as it was. */
  function Brightness(lib: Library, s: State, value: int): (r: State)
    ensures s.base.None? || s.display.None? ==> r == s
    ensures s.base.Some? && s.display.Some? && !SameShape(s.display.value, s.base.value) ==> r == s
    ensures s.base.Some? && s.display.Some? && SameShape(s.display.value, s.base.value) ==>
      && r.working == Some(Brighten(s.base.value, value))
      && r.display == Some(Render(lib, s.selected, s.filterValue, Brighten(s.base.value, value)))
      && r.(working := s.working, display := s.display) == s
  {
    if s.base.None? || s.display.None? || !SameShape(s.display.value, s.base.value) then s
    else
      var w := Brighten(s.base.value, value);
      ApplyFilter(lib, s.(working := Some(w)))
  }

  /** `change_blur`: the working image is the Gaussian blur of the base image
      and the filter is reapplied. Without a base image GaussianBlur raises
      inside the `try`. */
  function Blur(lib: Library, s: State, value: int): (r: State)
    ensures s.base.None? ==> r == s
    ensures s.base.Some? ==>
      && r.working == Some(lib.gaussianBlur(s.base.value, BlurSigma(value)))
      && r.display == Some(Render(lib, s.selected, s.filterValue, r.working.value))
      && r.(working := s.working, display := s.display) == s
  {
    if s.base.None? then s
    else
      var w := lib.gaussianBlur(s.base.value, BlurSigma(value));
      ApplyFilter(lib, s.(working := Some(w)))
  }

  /** `turnRight`: the working image becomes the clockwise rotation of what is
      displayed (already filtered), and the filter is applied to it again. */
  function RotateRight(lib: Library, s: State): (r: State)
    ensures s.display.None? ==> r == s
    ensures s.display.Some? ==>
      && r.working == Some(RotateCW(s.display.value))
      && r.display == Some(Render(lib, s.selected, s.filterValue, RotateCW(s.display.value)))
      && r.(working := s.working, display := s.display) == s
  {
    if s.display.None? then s
    else ApplyFilter(lib, s.(working := Some(RotateCW(s.display.value))))
  }

  /** `turnLeft`: as `RotateRight`, counter-clockwise. */
  function RotateLeft(lib: Library, s: State): (r: State)
    ensures s.display.None? ==> r == s
    ensures s.display.Some? ==>
      && r.working == Some(RotateCCW(s.display.value))
      && r.display == Some(Render(lib, s.selected, s.filterValue, RotateCCW(s.display.value)))
      && r.(working := s.working, display := s.display) == s
  {
    if s.display.None? then s
    else ApplyFilter(lib, s.(working := Some(RotateCCW(s.display.value))))
  }

  /** Whether a slice has at least one row and one column. */
  predicate NonEmpty(g: Grid)
  {
    |g| > 0 && |g[0]| > 0
  }

  /** The rectangle `cv2.selectROI` returns: all zeros when cancelled. */
  datatype Roi = Roi(x: int, y: int, w: int, h: int)

  /** `cropImage`: acts only when all four ROI numbers are nonzero. The slice
      of the displayed (already filtered) image becomes the working image and
      the filter is applied again. An empty slice makes `display_image` raise
      outside any `try`. */
  function Crop(lib: Library, s: State, roi: Roi): (r: Outcome)
    ensures s.display.None? || roi.x == 0 || roi.y == 0 || roi.w == 0 || roi.h == 0 ==> r == Handled(s)
    ensures s.display.Some? && roi.x != 0 && roi.y != 0 && roi.w != 0 && roi.h != 0 ==>
      var g := Slice(s.display.value, roi.y, roi.y + roi.h, roi.x, roi.x + roi.w);
      && (r.Escaped? <==> !NonEmpty(g))
      && (r.Handled? ==>
            && r.state.working.Some? && r.state.working.value == g
            && r.state.display == Some(Render(lib, s.selected, s.filterValue, r.state.working.value))
            && r.state.(working := s.working, display := s.display) == s)
  {
    if s.display.None? || roi.x == 0 || roi.y == 0 || roi.w == 0 || roi.h == 0 then Handled(s)
    else
      var g := Slice(s.display.value, roi.y, roi.y + roi.h, roi.x, roi.x + roi.w);
      if !NonEmpty(g) then Escaped(OpenCvError)
      else
        var cropped: Image := g;
        Handled(ApplyFilter(lib, s.(working := Some(cropped))))
  }

  /** `resize_image`: the display becomes the base image resized; the working
      image is untouched and no filter is applied. A cancelled dialog changes
      nothing; text `int()` rejects leaves a name unbound, and cv2.resize
      refuses a missing base or a non-positive size; neither is caught. */
  function Resize(lib: Library, s: State, confirmed: bool, width: Option<int>, height: Option<int>): (r: Outcome)
    ensures !confirmed ==> r == Handled(s)
    ensures confirmed && (width.None? || height.None?) ==> r == Escaped(UnboundName)
    ensures r.Handled? && confirmed ==>
      && s.base.Some? && width.Some? && height.Some? && width.value > 0 && height.value > 0
      && r.state == s.(display := Some(lib.resize(s.base.value, width.value, height.value)))
  {
    if !confirmed then Handled(s)
    else if width.None? || height.None? then Escaped(UnboundName)
    else if s.base.None? || width.value <= 0 || height.value <= 0 then Escaped(OpenCvError)
    else Handled(s.(display := Some(lib.resize(s.base.value, width.value, height.value))))
  }

  /** `undo`: with no successful load yet, reading `original_path` raises and
      the `except` swallows it. On confirmation only the display is replaced
      by the re-decoded original; a failed decode leaves it None. */
  function Undo(s: State, confirmed: bool, decoded: Option<Image>): (r: State)
    ensures s.originalPath.None? || !confirmed ==> r == s
    ensures r == s || r == s.(display := decoded)
    ensures s.originalPath.Some? && s.originalPath.value != "" && confirmed ==> r.display == decoded
  {
    if s.originalPath.None? || s.originalPath.value == "" || !confirmed then s
    else s.(display := decoded)
  }

  /** `update_filter`: records the selection, then reapplies the filter; before
      any load the missing working image raises inside the `try`, after the
      selection has been stored. */
  function UpdateFilter(lib: Library, s: State, rs: Radios): (r: State)
    ensures r.selected == SelectedLabel(rs)
    ensures s.working.None? ==> r == s.(selected := SelectedLabel(rs))
    ensures s.working.Some? ==> r == ApplyFilter(lib, s.(selected := SelectedLabel(rs)))
  {
    var t := s.(selected := SelectedLabel(rs));
    if t.working.None? then t else ApplyFilter(lib, t)
  }

  /** `adjust_filter`: stores the normalised value and reapplies the filter;
      before any load the missing working image raises outside any `try`. */
  function AdjustFilter(lib: Library, s: State, value: int): (r: Outcome)
    ensures s.working.None? <==> r.Escaped?
    ensures r.Escaped? ==> r.fault == MissingAttribute
    ensures r.Handled? ==>
      && r.state.filterValue == NormalizeFilterValue(value)
      && r.state.display == Some(Render(lib, s.selected, NormalizeFilterValue(value), s.working.value))
      && r.state.(filterValue := s.filterValue, display := s.display) == s
  {
    var t := s.(filterValue := NormalizeFilterValue(value));
    if t.working.None? then Escaped(MissingAttribute) else Handled(ApplyFilter(lib, t))
  }

  /** `addText`: arms text mode once an image is shown. */
  function AddText(s: State): (r: State)
    ensures s.display.None? ==> r == s
    ensures s.display.Some? ==> r == s.(addingText := true)
  {
    if s.display.None? then s else s.(addingText := true)
  }

  /** The answers of the text, colour and font dialogs and the click point. */
  datatype TextRequest = TextRequest(
    x: int, y: int,
    textOk: bool, text: string,
    colorValid: bool, red: Channel, green: Channel, blue: Channel,
    fontOk: bool, pointSize: int)

  /** Python's `str.isspace` for one character. */
  predicate IsSpace(c: char)
  {
    var n := c as int;
    || n == 32 || 9 <= n <= 13 || 28 <= n <= 31 || n == 0x85 || n == 0xA0 || n == 0x1680
    || 0x2000 <= n <= 0x200A || n == 0x2028 || n == 0x2029 || n == 0x202F || n == 0x205F || n == 0x3000
  }

  /** `not text.strip()`. */
  predicate IsBlank(text: string)
  {
    forall k | 0 <= k < |text| :: IsSpace(text[k])
  }

  /** The `cv2.putText` arguments a request produces. The colour triple is
      passed as (red, green, blue) while OpenCV reads it as (B, G, R), so the
      chosen red lands in the blue channel and vice versa. */
  function StampOf(req: TextRequest): (st: Stamp)
    ensures st.color.b == req.red && st.color.g == req.green && st.color.r == req.blue
    ensures st.text == req.text && st.x == req.x && st.y == req.y
  {
    Stamp(req.text, req.x, req.y, req.pointSize as real / 10.0, Pixel(req.red, req.green, req.blue), 2)
  }

  /** `mousePressEvent`: in text mode, with every dialog answered, the text is
      drawn into the display image only and text mode ends. Any cancelled or
      empty answer returns early, leaving text mode on. */
  function Click(lib: Library, s: State, req: TextRequest): (r: State)
    ensures !s.addingText || s.display.None? ==> r == s
    ensures !req.textOk || IsBlank(req.text) || !req.colorValid || !req.fontOk ==> r == s
    ensures s.addingText && s.display.Some? && req.textOk && !IsBlank(req.text) && req.colorValid && req.fontOk ==>
      r == s.(display := Some(lib.putText(s.display.value, StampOf(req))), addingText := false)
    ensures r != s ==>
      && s.addingText && s.display.Some?
      && r == s.(display := Some(lib.putText(s.display.value, StampOf(req))), addingText := false)
  {
    if !s.addingText || s.display.None? then s
    else if !req.textOk || IsBlank(req.text) || !req.colorValid || !req.fontOk then s
    else s.(display := Some(lib.putText(s.display.value, StampOf(req))), addingText := false)
  }
  /* ---------------- event sequences ---------------- */

  /** One user action and the inputs its dialogs and decoder supply. */
  datatype Event =
    | LoadImage(path: string, decoded: Option<Image>)
    | SetBrightness(bright: int)
    | SetBlur(blur: int)
    | TurnRight
    | TurnLeft
    | CropImage(roi: Roi)
    | ResizeImage(confirmed: bool, width: Option<int>, height: Option<int>)
    | UndoAll(undoConfirmed: bool, reloaded: Option<Image>)
    | SelectFilter(radios: Radios)
    | MoveFilterSlider(slider: int)
    | ArmText
    | ClickImage(request: TextRequest)

  function Step(lib: Library, s: State, ev: Event): Outcome
  {
    match ev
    case LoadImage(p, d) => Handled(Load(s, p, d))
    case SetBrightness(v) => Handled(Brightness(lib, s, v))
    case SetBlur(v) => Handled(Blur(lib, s, v))
    case TurnRight => Handled(RotateRight(lib, s))
    case TurnLeft => Handled(RotateLeft(lib, s))
    case CropImage(roi) => Crop(lib, s, roi)
    case ResizeImage(c, w, h) => Resize(lib, s, c, w, h)
    case UndoAll(c, d) => Handled(Undo(s, c, d))
    case SelectFilter(rs) => Handled(UpdateFilter(lib, s, rs))
    case MoveFilterSlider(v) => AdjustFilter(lib, s, v)
    case ArmText => Handled(AddText(s))
    case ClickImage(req) => Handled(Click(lib, s, req))
  }

  /** The events processed one at a time; an escaped exception ends the run. */
  function Run(lib: Library, s: State, evs: seq<Event>): Outcome
    decreases |evs|
  {
    if |evs| == 0 then Handled(s)
    else match Step(lib, s, evs[0])
      case Escaped(f) => Escaped(f)
      case Handled(t) => Run(lib, t, evs[1..])
  }
}
