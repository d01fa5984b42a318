/** Properties of the editor that relate several slots, or a slot and an
    independent description of what it should do. */
module Properties {
  import opened Wrappers
  import opened Pixels
  import opened Images
  import opened Kernels
  import opened Filters
  import opened Editor

  /* ---------------- apply_filter ---------------- */

  /** Reapplying the filter with nothing changed gives the same display: the
      working image is never overwritten by the filter. */
  lemma ApplyFilterIdempotent(lib: Library, s: State)
    requires s.working.Some?
    ensures ApplyFilter(lib, ApplyFilter(lib, s)) == ApplyFilter(lib, s)
    ensures ApplyFilter(lib, s).working == s.working
  {
  }

  /** The bilateral button (the first checked one being the second in the
      `elif` chain) shows a grey image: B = G = R at every pixel. */
  lemma BilateralButtonGreys(lib: Library, s: State, rs: Radios)
    requires s.working.Some?
    requires !rs.median && rs.bilateral
    ensures UpdateFilter(lib, s, rs).display.Some?
    ensures
      var d := UpdateFilter(lib, s, rs).display.value;
      forall i, j | 0 <= i < Height(d) && 0 <= j < Width(d) :: d[i][j].b == d[i][j].g == d[i][j].r
  {
    assert Checked(rs, 0) == rs.median && Checked(rs, 1) == rs.bilateral;
    assert SelectedLabel(rs) == GreyScale;
  }

  /* ---------------- rotation ---------------- */

  /** Without a filter, turning right then left puts the displayed image back
      and rebases the working image on it. */
  lemma RightThenLeft(lib: Library, s: State)
    requires s.display.Some? && s.selected == NoFilter
    ensures RotateLeft(lib, RotateRight(lib, s)) == s.(working := s.display)
  {
    CCWUndoesCW(s.display.value);
  }

  /** Without a filter, turning left then right puts the displayed image back. */
  lemma LeftThenRight(lib: Library, s: State)
    requires s.display.Some? && s.selected == NoFilter
    ensures RotateRight(lib, RotateLeft(lib, s)) == s.(working := s.display)
  {
    CWUndoesCCW(s.display.value);
  }

  /** Without a filter, four right turns put the displayed image back. */
  lemma FourRights(lib: Library, s: State)
    requires s.display.Some? && s.selected == NoFilter
    ensures RotateRight(lib, RotateRight(lib, RotateRight(lib, RotateRight(lib, s)))) == s.(working := s.display)
  {
    FourCWIsIdentity(s.display.value);
  }

  /** With a filter selected, a turn rebases the working image on the
      already-filtered display and filters it again: one black pixel under
      Warm at intensity 5 shows red 1, and after a right turn red 2. */
  lemma RotationFiltersTwice(lib: Library)
    ensures
      var black: Image := [[Pixel(0, 0, 0)]];
      var s := State(Some(black), Some(black), Some(WarmFilter(black, 5)), Warm, 5, Some("a.png"), false);
      && s.display.value[0][0].r == 1
      && RotateRight(lib, s).display.value[0][0].r == 2
  {
    var black: Image := [[Pixel(0, 0, 0)]];
    var once := WarmFilter(black, 5);
    assert once[0][0] == WarmPixel(5, black[0][0]);
    var turned := RotateCW(once);
    assert turned[0][0] == once[0][0];
    assert WarmFilter(turned, 5)[0][0] == WarmPixel(5, turned[0][0]);
  }

  /* ---------------- brightness and blur ---------------- */

  /** Brightness 0 reproduces the base image exactly. */
  lemma BrightenZero(im: Image)
    ensures Brighten(im, 0) == im
  {
    Extensionality(Brighten(im, 0), im);
  }

  /** A larger brightness value never gives a darker channel. */
  lemma BrightChannelMonotone(c: Channel, v1: int, v2: int)
    requires v1 <= v2
    ensures BrightChannel(c, v1) <= BrightChannel(c, v2)
  {
    assert c * (100 + v2) - c * (100 + v1) == c * (v2 - v1);
    assert c * (v2 - v1) >= 0;
  }

  /** A non-negative brightness value never darkens a channel, a non-positive
      one never brightens it. */
  lemma BrightChannelDirection(c: Channel, v: int)
    ensures v >= 0 ==> BrightChannel(c, v) >= c
    ensures v <= 0 ==> BrightChannel(c, v) <= c
  {
    assert BrightChannel(c, 0) == c;
    if v >= 0 {
      BrightChannelMonotone(c, 0, v);
    } else {
      BrightChannelMonotone(c, v, 0);
    }
  }

  /** With displays shaped like the base, brightness depends only on the base
      image, the slider value and the filter: earlier edits that kept the
      shape are discarded. A display of another shape makes brightness a
      silent no-op instead (`BrightnessKeepsReshapedDisplay`). */
  lemma BrightnessForgetsEdits(lib: Library, s1: State, s2: State, value: int)
    requires s1.base.Some? && s1.base == s2.base
    requires s1.display.Some? && SameShape(s1.display.value, s1.base.value)
    requires s2.display.Some? && SameShape(s2.display.value, s2.base.value)
    requires s1.selected == s2.selected && s1.filterValue == s2.filterValue
    ensures Brightness(lib, s1, value).working == Brightness(lib, s2, value).working
    ensures Brightness(lib, s1, value).display == Brightness(lib, s2, value).display
  {
  }

  /** Brightness 0 on an unfiltered, same-sized display rebases both buffers
      on the base image: earlier turns and crops of the same size are lost. */
  lemma BrightnessZeroResetsToBase(lib: Library, s: State)
    requires s.base.Some? && s.display.Some? && SameShape(s.display.value, s.base.value)
    requires s.selected == NoFilter
    ensures Brightness(lib, s, 0).working == s.base
    ensures Brightness(lib, s, 0).display == s.base
  {
    BrightenZero(s.base.value);
  }

  /** Blur depends only on the base image, the slider value and the filter. */
  lemma BlurForgetsEdits(lib: Library, s1: State, s2: State, value: int)
    requires s1.base.Some? && s1.base == s2.base
    requires s1.selected == s2.selected && s1.filterValue == s2.filterValue
    ensures Blur(lib, s1, value).working == Blur(lib, s2, value).working
    ensures Blur(lib, s1, value).display == Blur(lib, s2, value).display
  {
  }

  /* ---------------- crop ---------------- */

  /** A rectangle inside the displayed image with a nonzero corner crops to
      exactly h rows and w columns of the display, taken at (y, x). */
  lemma CropInBounds(lib: Library, s: State, roi: Roi)
    requires s.display.Some?
    requires 0 < roi.x && 0 < roi.y && 0 < roi.w && 0 < roi.h
    requires roi.x + roi.w <= Width(s.display.value) && roi.y + roi.h <= Height(s.display.value)
    ensures Crop(lib, s, roi).Handled?
    ensures Crop(lib, s, roi).state.working.Some?
    ensures
      var c := Crop(lib, s, roi).state.working.value;
      && Height(c) == roi.h && Width(c) == roi.w
      && forall i, j | 0 <= i < roi.h && 0 <= j < roi.w :: c[i][j] == s.display.value[roi.y + i][roi.x + j]
    ensures lib.Valid() ==>
      Height(Crop(lib, s, roi).state.display.value) == roi.h && Width(Crop(lib, s, roi).state.display.value) == roi.w
  {
    var d := s.display.value;
    assert SliceBound(Height(d), roi.y) == roi.y && SliceBound(Height(d), roi.y + roi.h) == roi.y + roi.h;
    assert SliceBound(Width(d), roi.x) == roi.x && SliceBound(Width(d), roi.x + roi.w) == roi.x + roi.w;
    var g := Slice(d, roi.y, roi.y + roi.h, roi.x, roi.x + roi.w);
    assert |g| == roi.h && |g[0]| == roi.w;
    assert NonEmpty(g);
    var c: Image := g;
    var r := Crop(lib, s, roi);
    assert r == Handled(ApplyFilter(lib, s.(working := Some(c))));
    assert r.state.display == Some(Render(lib, s.selected, s.filterValue, c));
  }

  /** Brightness after any handled in-bounds crop is a silent no-op: a
      nonzero corner always makes the crop narrower than the display, so
      `addWeighted` refuses the mismatched sizes inside the `try`, and the
      crop is kept rather than discarded. */
  lemma BrightnessKeepsReshapedDisplay(lib: Library, s: State, roi: Roi, value: int)
    requires lib.Valid()
    requires s.base.Some? && s.display.Some? && SameShape(s.display.value, s.base.value)
    requires 0 < roi.x && 0 < roi.y && 0 < roi.w && 0 < roi.h
    requires roi.x + roi.w <= Width(s.display.value) && roi.y + roi.h <= Height(s.display.value)
    ensures Crop(lib, s, roi).Handled?
    ensures Brightness(lib, Crop(lib, s, roi).state, value) == Crop(lib, s, roi).state
  {
    CropInBounds(lib, s, roi);
    var t := Crop(lib, s, roi).state;
    assert t.base == s.base;
    assert !SameShape(t.display.value, t.base.value);
  }

  /** An ROI running past the display's right or bottom edge is clamped, as
      numpy clamps slices: the crop keeps what lies inside the display. */
  lemma CropPastEdge(lib: Library, s: State, roi: Roi)
    requires s.display.Some?
    requires 0 < roi.x < Width(s.display.value) && 0 < roi.y < Height(s.display.value)
    requires 0 < roi.w && 0 < roi.h
    ensures Crop(lib, s, roi).Handled?
    ensures
      var c := Crop(lib, s, roi).state.working.value;
      && Height(c) == (if roi.y + roi.h <= Height(s.display.value) then roi.h else Height(s.display.value) - roi.y)
      && Width(c) == (if roi.x + roi.w <= Width(s.display.value) then roi.w else Width(s.display.value) - roi.x)
  {
    var d := s.display.value;
    assert SliceBound(Height(d), roi.y) == roi.y && SliceBound(Width(d), roi.x) == roi.x;
    var g := Slice(d, roi.y, roi.y + roi.h, roi.x, roi.x + roi.w);
    assert |g| > 0 && |g[0]| > 0;
    assert NonEmpty(g);
  }

  /* ---------------- text, undo, resize ---------------- */

  /** Text lives only in the display: the next filter selection shows exactly
      what it would have shown without the text. */
  lemma TextErasedByNextFilter(lib: Library, s: State, req: TextRequest, rs: Radios)
    requires s.working.Some?
    ensures UpdateFilter(lib, Click(lib, s, req), rs).display == UpdateFilter(lib, s, rs).display
    ensures UpdateFilter(lib, Click(lib, s, req), rs).working == s.working
  {
  }

  /** Undo replaces only the display, so the next slider move on the filter
      brings the edited working image back. */
  lemma UndoErasedByNextFilter(lib: Library, s: State, confirmed: bool, decoded: Option<Image>, value: int)
    requires s.working.Some?
    ensures AdjustFilter(lib, Undo(s, confirmed, decoded), value) == AdjustFilter(lib, s, value)
  {
  }

  /** Resize replaces only the display, so the next slider move on the filter
      discards the new size. */
  lemma ResizeErasedByNextFilter(lib: Library, s: State, w: int, h: int, value: int)
    requires s.working.Some? && s.base.Some? && w > 0 && h > 0
    ensures Resize(lib, s, true, Some(w), Some(h)).Handled?
    ensures AdjustFilter(lib, Resize(lib, s, true, Some(w), Some(h)).state, value) == AdjustFilter(lib, s, value)
  {
  }

  /** Undo before anything was loaded changes nothing. */
  lemma UndoBeforeLoad(confirmed: bool, decoded: Option<Image>)
    ensures Undo(Init(), confirmed, decoded) == Init()
  {
  }

  /* ---------------- the initial filter value ---------------- */

  /** The filter value starts at 0, outside [3, 99]: choosing Warm right after
      loading, before the slider is touched, shows the image unchanged. */
  lemma UntouchedSliderWarm(lib: Library, path: string, im: Image)
    requires path != ""
    ensures
      var s := UpdateFilter(lib, Load(Init(), path, Some(im)), Radios(false, false, false, false, false, true, false));
      && s.selected == Warm && s.filterValue == 0 && s.display == Some(im)
  {
    WarmIdentity(im);
  }

  /** Likewise Cold before the slider is touched. */
  lemma UntouchedSliderCold(lib: Library, path: string, im: Image)
    requires path != ""
    ensures
      var s := UpdateFilter(lib, Load(Init(), path, Some(im)), Radios(false, false, true, false, false, false, false));
      && s.selected == Cold && s.filterValue == 0 && s.display == Some(im)
  {
    ColdIdentity(im);
  }

  /* ---------------- event sequences ---------------- */

  /** The filter value is 0 until the slider first moves, and odd in [3, 99]
      afterwards. */
  predicate FilterValueOk(v: int)
  {
    v == 0 || (3 <= v <= 99 && v % 2 == 1)
  }

  /** The invariant every slot keeps, and which `Init` already meets: a
      displayed or remembered image, or a base image, implies a working image,
      and the filter value is as above. */
  predicate Consistent(s: State)
  {
    && (s.display.Some? ==> s.working.Some?)
    && (s.base.Some? ==> s.working.Some?)
    && (s.originalPath.Some? ==> s.working.Some?)
    && FilterValueOk(s.filterValue)
  }

  /** The state `__init__` leaves is consistent. */
  lemma InitConsistent()
    ensures Consistent(Init())
  {
  }

  /** Every slot keeps `Consistent`. */
  lemma StepKeepsConsistent(lib: Library, s: State, ev: Event)
    requires Consistent(s)
    ensures Step(lib, s, ev).Handled? ==> Consistent(Step(lib, s, ev).state)
  {
  }

  /** Every run from a consistent state that does not escape ends consistent. */
  lemma {:induction false} RunKeepsConsistent(lib: Library, s: State, evs: seq<Event>)
    requires Consistent(s)
    ensures Run(lib, s, evs).Handled? ==> Consistent(Run(lib, s, evs).state)
    decreases |evs|
  {
    if |evs| > 0 {
      StepKeepsConsistent(lib, s, evs[0]);
      match Step(lib, s, evs[0])
      case Escaped(f) =>
      case Handled(t) => RunKeepsConsistent(lib, t, evs[1..]);
    }
  }

  /** Once any image has been loaded, moving the filter slider never raises. */
  lemma SliderSafeAfterLoad(lib: Library, evs: seq<Event>, value: int)
    requires Run(lib, Init(), evs).Handled?
    requires Run(lib, Init(), evs).state.originalPath.Some?
    ensures AdjustFilter(lib, Run(lib, Init(), evs).state, value).Handled?
  {
    RunKeepsConsistent(lib, Init(), evs);
  }
}
