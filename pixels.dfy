/**
 * Pixel values of the PIL images the pipeline handles (8-bit channels), and
 * the two numeric conversions the source relies on: Python's `int()` on a
 * float, which truncates toward zero, and the clipping of a lookup-table
 * entry to 0..255 that `Image.point` performs on an 8-bit band.
 */
module Pixels {

  /** One 8-bit channel. */
  type Byte = x: int | 0 <= x < 256

  /** A pixel of an "RGB" image, as `getpixel` returns it. */
  datatype Rgb = Rgb(r: Byte, g: Byte, b: Byte)

  /** A pixel of an "RGBA" image. */
  datatype Rgba = Rgba(r: Byte, g: Byte, b: Byte, a: Byte)

  /** `convert("RGB")` of one RGBA pixel: the alpha band is dropped. */
  function ToRgb(p: Rgba): (c: Rgb)
    ensures c.r == p.r && c.g == p.g && c.b == p.b
  {
    Rgb(p.r, p.g, p.b)
  }

  /** Python's `int(x)` on a float: truncation toward zero. */
  function TruncToInt(x: real): (n: int)
    ensures 0.0 <= x ==> 0 <= n && n as real <= x < n as real + 1.0
    ensures x < 0.0 ==> n <= 0 && n as real - 1.0 < x <= n as real
  {
    if 0.0 <= x then x.Floor else -((-x).Floor)
  }

  /** How an 8-bit band stores a lookup-table entry: clipped to 0..255. */
  function Clip8(n: int): (b: Byte)
    ensures 0 <= n < 256 ==> b == n
    ensures n < 0 ==> b == 0
    ensures 256 <= n ==> b == 255
  {
    if n < 0 then 0 else if n > 255 then 255 else n
  }
}
