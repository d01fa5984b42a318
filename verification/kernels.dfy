/** The OpenCV routines whose arithmetic is not part of this model. The editor
    only ever relies on their output having the right shape, so they are
    passed in as a `Library` value whose `Valid` predicate says exactly that. */
module Kernels {
  import opened Pixels
  import opened Images

  /** The arguments of one `cv2.putText` call: text, anchor, font scale,
      colour triple in the order OpenCV reads it (B, G, R) and thickness. */
  datatype Stamp = Stamp(text: string, x: int, y: int, scale: real, color: Pixel, thickness: int)

  datatype Library = Library(
    /** `cv2.medianBlur(image, ksize)` */
    medianBlur: (Image, int) -> Image,
    /** `cv2.GaussianBlur(image, (0, 0), sigma)` */
    gaussianBlur: (Image, real) -> Image,
    /** `sobel_filter`: 5-wide Sobel in x and y, magnitude, min-max normalised */
    sobel: Image -> Image,
    /** the grey level `cv2.cvtColor(_, COLOR_BGR2GRAY)` gives one pixel */
    luma: Pixel -> Channel,
    /** `cv2.resize(image, (width, height))` */
    resize: (Image, int, int) -> Image,
    /** `cv2.putText` drawn into a copy of the image */
    putText: (Image, Stamp) -> Image,
    /** the byte numpy's `astype(uint8)` makes of a NaN */
    nanToByte: Channel)
  {
    /** Every kernel keeps the image's dimensions; resize produces the
        requested ones when both are positive. */
    ghost predicate Valid()
    {
      && (forall im: Image, k: int :: SameShape(medianBlur(im, k), im))
      && (forall im: Image, sigma: real :: SameShape(gaussianBlur(im, sigma), im))
      && (forall im: Image :: SameShape(sobel(im), im))
      && (forall im: Image, st: Stamp :: SameShape(putText(im, st), im))
      && (forall im: Image, w: int, h: int | w > 0 && h > 0 ::
            Width(resize(im, w, h)) == w && Height(resize(im, w, h)) == h)
    }
  }
}
