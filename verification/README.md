# Image editor: state machine and filter arithmetic

A Dafny model of a small PyQt/OpenCV photo editor. The model has two layers.

* **Pixel arithmetic** (`filters.py`, parts of `main.py`). Images are non-empty rectangular grids of
  BGR pixels with channels in `0..255`. The model covers the warm and cold colour shifts, contrast
  stretching over the buffer-wide minimum and maximum, the median kernel-size fix, greyscale
  expansion, brightness scaling, the blur sigma, 90° rotations and numpy's clamped slicing. Float
  products are computed exactly. Warm/cold are `clamp((10·c ± w·i) div 10, 0, 255)`, brightness is
  `clamp(c·(100+v) div 100, 0, 255)`, and contrast uses exact reals with `Floor`.
* **The editor window** (`main.py`). A `State` record holds `base` (`base_image`), `working`
  (`image_with_filters`), `display` (`modified_image`), `selected`, `filterValue`, `originalPath`
  and `addingText`. Each slot is a pure transition. Slots from which an exception can escape
  return an `Outcome`, which is either `Handled(state)` or `Escaped(fault)`. An escaped exception
  ends the run, because PyQt aborts when an exception leaves a slot.

The OpenCV routines whose arithmetic is not visible are fields of a `Library` value passed to every
transition that runs a kernel: `medianBlur`, `GaussianBlur`, `sobel_filter`, the BGR-to-grey luminance, `resize` and
`putText`. The predicate `Library.Valid()` states that each of them preserves the image's shape,
and that `resize` yields the requested size. `Library.nanToByte` is the byte that numpy's `uint8`
cast makes of a NaN.

The model follows the code's own behaviour, including its quirks:

* Rotate and crop rebase `working` on the already-filtered `display`, so the filter is applied
  twice (`RotationFiltersTwice`).
* Blur recomputes from `base`, which discards earlier crops, turns and resizes. Brightness does
  the same only while the display still has the base's shape. After a crop, a turn of a
  non-square image or a resize to another size, `addWeighted` raises inside the `try`, so
  brightness is a silent no-op (`BrightnessKeepsReshapedDisplay`).
* Undo, text and resize replace only `display`. The next filter call therefore erases them.
* `filter_value` starts at 0, outside `[3, 99]`.
* The "Laplacian" label runs contrast stretching, and "GreyScale" belongs to the bilateral button.
* `putText` is given the colour as (red, green, blue), but OpenCV reads it as (B, G, R).
* A failed `imread` on load sets `base_image` to None before the exception.

Places where the code behaves surprisingly, modelled as written:

* Text is not baked into the working image.
* Undo does not reset the working image, although its dialog asks to "undo all changes"
  (main.py:274); the next filter change brings the edits back.
* Resize changes only the displayed image, and it starts from the base image.
* Crop is a no-op when x or y is 0, not only when the area is zero.
* Contrast stretching of a uniform buffer divides by zero. numpy gives NaN in every channel
  here and does not raise an error.
* Adjusting the filter before any load, and resize with bad input, raise out of the slot. They
  are not recoverable no-ops.

## Model

| member | source | states |
|---|---|---|
| Images.RotateCW | main.py:294-296 | clockwise quarter turn: height and width swap, row i of the result is column i of the input read bottom to top |
| Images.RotateCCW | main.py:285-287 | counter-clockwise quarter turn: height and width swap, row i is the input's last-but-i column read top to bottom |
| Images.CCWUndoesCW | main.py:283-299 | a left turn exactly undoes a right turn |
| Images.CWUndoesCCW | main.py:283-299 | a right turn exactly undoes a left turn |
| Images.FourCWIsIdentity | main.py:292-299 | four right turns reproduce the image bit for bit |
| Images.FourCCWIsIdentity | main.py:283-290 | four left turns reproduce the image bit for bit |
| Images.SliceBound | main.py:136 | a Python slice bound lands in `[0, n]`: an in-range bound is kept, one past the end becomes n, a negative one counts from the end and stops at 0 |
| Images.Slice | main.py:136 | `im[y0:y1, x0:x1]` has the clamped row and column counts and pixel (i, j) is the input's pixel at the clamped corner plus (i, j) |
| Filters.MedianKernelSize | filters.py:5-8 | the size handed to `medianBlur` is always odd: odd requests pass unchanged, even ones become k+1 |
| Filters.MedianFilter | filters.py:5-8 | the median filter keeps the image's dimensions, and `medianBlur` receives an odd request unchanged and an even one as k+1 |
| Filters.DarkColors | filters.py:15-22 | greyscale keeps the dimensions and every output pixel has B = G = R, equal to the input pixel's luminance |
| Filters.WarmFilter | filters.py:75-92 | warm keeps dimensions, works pixel by pixel with intensity clipped to [-255,255], and for intensity ≥ 0 never lowers red or green nor raises blue |
| Filters.ColdFilter | filters.py:95-112 | cold keeps dimensions, works pixel by pixel, and for intensity ≥ 0 never raises red or green nor lowers blue |
| Filters.WarmIdentity | filters.py:83-89 | warm at intensity 0 returns the input exactly |
| Filters.ColdIdentity | filters.py:103-109 | cold at intensity 0 returns the input exactly |
| Filters.ImageMin | filters.py:32 | the minimum is at most every channel of every pixel and is attained by some pixel |
| Filters.ImageMax | filters.py:33 | the maximum is at least every channel of every pixel and is attained by some pixel |
| Filters.RowsMin | filters.py:32 | the minimum over the first n rows bounds and is attained in those rows |
| Filters.RowsMax | filters.py:33 | the maximum over the first n rows bounds and is attained in those rows |
| Filters.Stretch | filters.py:40-42 | with ordered bounds, a value at or below `lower` maps to 0 and one at or above `upper` maps to 255 |
| Filters.IncreaseContrast | filters.py:29-44 | contrast stretching keeps dimensions and stretches each channel between bounds taken from the whole buffer's min and max |
| Filters.ContrastBoundsOrdered | filters.py:36-37 | for max > min and 0 ≤ p < 100: min ≤ lower < upper ≤ max |
| Filters.ContrastDividesByZero | filters.py:36-40 | the divisor on line 40 is zero exactly when the buffer is uniform or p = 100 |
| Filters.StretchMonotone | filters.py:40-42 | stretching is monotone non-decreasing in the input value |
| Filters.ContrastUniform | filters.py:32-42 | a uniform buffer maps every channel to the NaN byte |
| Filters.ContrastReachesExtremes | filters.py:32-42 | a non-uniform buffer with p < 100 has some output channel 0 and some output channel 255 |
| Editor.Init | main.py:89-95 | the window starts with no base, working or displayed image and no path, text mode off (set at line 18), no filter selected and filter value 0, outside adjust_filter's [3,99] |
| Editor.NormalizeFilterValue | main.py:325-338 | the stored value is odd and in [3,99]; odd values in range are kept, even 2..98 become v+1, lower values give 3 and higher give 99 |
| Editor.BlurSigma | main.py:236-240 | sigma lies in [0.1, 5.0] and equals value/10 for values 1..50, saturating outside |
| Editor.Brighten | main.py:218-227 | brightness keeps dimensions and scales each channel of the base by (100+v)/100, clipped and truncated |
| Editor.SelectedLabel | main.py:303-320 | the label of the first checked filter button wins; None exactly when none of the six is checked |
| Editor.Render | main.py:343-367 | the selected kernel keeps dimensions; None is the identity, "Median" runs the median filter, "GreyScale" the greyscale filter, "Cold" and "Warm" the colour shifts, "Laplacian" contrast stretching and "Sobal" the Sobel filter, each with the stored filter value |
| Editor.ApplyFilter | main.py:343-369 | only the display changes, to the selected kernel applied to the working image |
| Editor.Load | main.py:189-208 | a cancelled dialog changes nothing; a failed decode clears only the base; a successful one sets base, working and display to the image and records the path, leaving the filter untouched |
| Editor.Brightness | main.py:213-234 | without images, or with a display sized unlike the base, nothing changes; otherwise working is the brightened base and display its filtered copy, nothing else changes |
| Editor.Blur | main.py:236-251 | without a base nothing changes; otherwise working is the base blurred with the clamped sigma and display its filtered copy |
| Editor.RotateRight | main.py:292-299 | without a display nothing changes; otherwise working is the clockwise turn of the display and display its filtered copy |
| Editor.RotateLeft | main.py:283-290 | without a display nothing changes; otherwise working is the counter-clockwise turn of the display and display its filtered copy |
| Editor.Crop | main.py:129-142 | no display or any zero ROI number is a no-op; an empty slice escapes; otherwise working is the slice of the display and display its filtered copy |
| Editor.Resize | main.py:112-125 | a cancelled dialog changes nothing, unparsed text escapes, and a successful resize replaces only the display with the resized base |
| Editor.Undo | main.py:268-281 | before any load, or unconfirmed, nothing changes; otherwise only the display is replaced by the re-decoded original |
| Editor.UpdateFilter | main.py:303-323 | the selection is stored even before a load; with a working image the display is recomputed |
| Editor.AdjustFilter | main.py:325-341 | escapes, and only with the missing-attribute fault, exactly when there is no working image; otherwise stores the normalised value and recomputes only the display |
| Editor.AddText | main.py:180-187 | text mode is armed only when an image is displayed |
| Editor.StampOf | main.py:167-175 | the colour reaches OpenCV with red in the blue slot and blue in the red slot |
| Editor.Click | main.py:144-178 | outside text mode or on any cancelled or blank dialog nothing changes; in text mode with every dialog answered the display gets the text and text mode ends, nothing else changes |
| Properties.ApplyFilterIdempotent | main.py:343-369 | reapplying the filter gives the same state and never touches the working image |
| Properties.BilateralButtonGreys | main.py:303-308 | choosing the bilateral button with a working image shows a grey image, B = G = R at every pixel |
| Properties.RightThenLeft | main.py:283-299 | with no filter, right then left restores the display and rebases working on it |
| Properties.LeftThenRight | main.py:283-299 | with no filter, left then right restores the display and rebases working on it |
| Properties.FourRights | main.py:292-299 | with no filter, four right turns restore the display |
| Properties.RotationFiltersTwice | main.py:294-298 | a turn re-filters the filtered display: Warm 5 on a black pixel shows red 1, then red 2 after a turn |
| Properties.BrightenZero | main.py:218-227 | brightness 0 reproduces the base exactly |
| Properties.BrightChannelMonotone | main.py:214-227 | a larger slider value never gives a darker channel |
| Properties.BrightChannelDirection | main.py:214-227 | non-negative values never darken, non-positive values never brighten |
| Properties.BrightnessForgetsEdits | main.py:218-230 | two states with the same base and filter, with displays shaped like the base, give the same working and display after brightness |
| Properties.BrightnessZeroResetsToBase | main.py:218-230 | brightness 0 with no filter, on a display shaped like the base, resets working and display to the base |
| Properties.BlurForgetsEdits | main.py:244-248 | two states with the same base and filter give the same working and display after blur |
| Properties.CropInBounds | main.py:134-142 | an in-bounds ROI with nonzero corner gives working of exactly h×w pixels copied from the display at (y, x), and a display of the same size |
| Properties.CropPastEdge | main.py:134-142 | an ROI with its corner inside the display but running past its edge is handled and clamped to min(h, H−y) rows and min(w, W−x) columns |
| Properties.BrightnessKeepsReshapedDisplay | main.py:213-234 | after any handled in-bounds crop of a display shaped like the base, brightness changes nothing: the crop is kept, not discarded |
| Properties.TextErasedByNextFilter | main.py:175-178 | after stamping text, the next filter selection shows what it would have shown without the text |
| Properties.UndoErasedByNextFilter | main.py:277-279 | after undo, the next filter-slider move gives the same outcome as without the undo |
| Properties.ResizeErasedByNextFilter | main.py:123-125 | after a resize, the next filter-slider move gives the same outcome as without the resize |
| Properties.UndoBeforeLoad | main.py:268-281 | undo on the initial state changes nothing |
| Properties.UntouchedSliderWarm | main.py:92 | selecting Warm right after load, before the slider moves, uses value 0 and shows the image unchanged |
| Properties.UntouchedSliderCold | main.py:92 | selecting Cold right after load, before the slider moves, uses value 0 and shows the image unchanged |
| Properties.InitConsistent | main.py:89-95 | the state `__init__` leaves meets the invariant below |
| Properties.StepKeepsConsistent | main.py:112-341 | every slot keeps: filter value 0 or odd in [3,99], and a display, base or path implies a working image |
| Properties.RunKeepsConsistent | main.py:112-341 | every non-escaping run from such a state ends in such a state |
| Properties.SliderSafeAfterLoad | main.py:340-344 | after any run that loaded an image, moving the filter slider never escapes |

## Left out

- Qt plumbing: window construction, widget lookup, signal wiring and `display_image`'s QImage conversion. Dialog answers, the ROI from `cv2.selectROI`, the click position and the images `cv2.imread` decodes are inputs to the transitions.
- Saving (`saveImage`, `cv2.imwrite`): file I/O.
- The arithmetic inside `medianBlur`, `GaussianBlur`, `sobel_filter` (Sobel, square root, normalisation), the grey luminance, `resize` interpolation and `putText` rasterisation: `Library` fields constrained only by shape.
- `laplacian_filter` and `gaussian_filter`: no slot calls them.
- IEEE rounding: the warm, cold, contrast and brightness float products are computed exactly. Floor differences at exact-integer boundaries are not modelled.
- Editor.Resize: Python's `int()` parsing of the dialog text is an input (`None` when it raises). A non-positive size is taken to make `cv2.resize` raise.
- Editor.Render: what `medianBlur` does with a kernel size OpenCV rejects is left to the library. The filter value is always 0 or odd in [3,99] (`Properties.RunKeepsConsistent`), so those sizes never arise.
- Editor.Click: `putText` draws in place into `modified_image`. Nothing else holds that array after a filter or transform, so drawing into a copy is the same.
- Editor.Crop: the state at the moment an empty slice escapes is not kept, because the run ends there.
- Debug prints and `test()`.
- Concurrency: the editor is single-threaded.
