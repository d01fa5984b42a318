/** Pixels of the editor's 8-bit, three-channel OpenCV buffers. */
module Pixels {

  /** One 8-bit channel value, as numpy's uint8 holds it. */
  type Channel = x: int | 0 <= x <= 255

  /** A pixel in OpenCV's channel order: blue, green, red. */
  datatype Pixel = Pixel(b: Channel, g: Channel, r: Channel)

  /** `numpy.clip` of an integer into `[lo, hi]`. */
  function Clamp(x: int, lo: int, hi: int): (r: int)
    requires lo <= hi
    ensures lo <= r <= hi
    ensures lo <= x <= hi ==> r == x
  {
    if x < lo then lo else if x > hi then hi else x
  }

  /** Clip into the uint8 range. Clipping to integer bounds commutes with
      flooring, so `astype(uint8)` after `clip` is this applied to the floor. */
  function ClampChannel(x: int): Channel
  {
    Clamp(x, 0, 255)
  }

  /** The smallest channel of a pixel. */
  function Least(p: Pixel): Channel
  {
    if p.b <= p.g && p.b <= p.r then p.b else if p.g <= p.r then p.g else p.r
  }

  /** The largest channel of a pixel. */
  function Most(p: Pixel): Channel
  {
    if p.b >= p.g && p.b >= p.r then p.b else if p.g >= p.r then p.g else p.r
  }
}
