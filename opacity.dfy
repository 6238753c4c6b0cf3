/**
 * `reduce_opacity`: the alpha band of an RGBA image is passed through the
 * lookup table `p -> int(p * factor)` and written back in place; the colour
 * bands are untouched.
 */
module Opacity {
  import opened Pixels

  /** The product `p * alpha_factor` the lookup table is built from. */
  function Product(a: real, factor: real): real
  {
    a * factor
  }

  /**
   * The new alpha of one pixel: the table entry `int(a * factor)`, as the
   * band stores it. Factor 1 leaves the alpha as it was.
   */
  function ScaledAlpha(a: Byte, factor: real): (r: Byte)
    ensures factor == 1.0 ==> r == a
  {
    Clip8(TruncToInt(Product(a as real, factor)))
  }

  /** For a factor in [0, 1] the new alpha is the floor of `a * factor`, so never more than `a`. */
  lemma ScaledAlphaFloor(a: Byte, factor: real)
    requires 0.0 <= factor <= 1.0
    ensures ScaledAlpha(a, factor) as real <= Product(a as real, factor) < ScaledAlpha(a, factor) as real + 1.0
    ensures ScaledAlpha(a, factor) <= a
  {
    ProductWithin(a as real, factor);
    TableEntry(a, Product(a as real, factor));
  }

  /** Factor 0, or any factor below it, makes the pixel fully transparent. */
  lemma ScaledAlphaTransparent(a: Byte, factor: real)
    requires factor <= 0.0
    ensures ScaledAlpha(a, factor) == 0
  {
    ProductNonPositive(a as real, factor);
    TableEntry(a, Product(a as real, factor));
  }

  /** A factor of 1 or more never lowers the alpha (the band clips at 255). */
  lemma ScaledAlphaNotLowered(a: Byte, factor: real)
    requires 1.0 <= factor
    ensures a <= ScaledAlpha(a, factor)
  {
    ProductAtLeast(a as real, factor);
    TableEntry(a, Product(a as real, factor));
  }

  /** How the stored entry relates to the product `x`, whatever the product is. */
  lemma TableEntry(a: Byte, x: real)
    ensures 0.0 <= x <= a as real ==> Clip8(TruncToInt(x)) as real <= x < Clip8(TruncToInt(x)) as real + 1.0
    ensures 0.0 <= x <= a as real ==> Clip8(TruncToInt(x)) <= a
    ensures x == a as real ==> Clip8(TruncToInt(x)) == a
    ensures x <= 0.0 ==> Clip8(TruncToInt(x)) == 0
    ensures a as real <= x ==> a <= Clip8(TruncToInt(x))
  {
  }

  lemma ProductWithin(a: real, f: real)
    requires 0.0 <= a && 0.0 <= f <= 1.0
    ensures 0.0 <= Product(a, f) <= a
  {
    assert 0.0 <= a * (1.0 - f);
  }

  lemma ProductNonPositive(a: real, f: real)
    requires 0.0 <= a && f <= 0.0
    ensures Product(a, f) <= 0.0
  {
    assert 0.0 <= a * -f;
  }

  lemma ProductAtLeast(a: real, f: real)
    requires 0.0 <= a && 1.0 <= f
    ensures a <= Product(a, f)
  {
    assert 0.0 <= a * (f - 1.0);
  }

  /**
   * The image is updated in place: every pixel keeps its colour and gets
   * the scaled alpha.
   */
  method ReduceOpacity(image: array2<Rgba>, factor: real)
    modifies image
    ensures forall y, x :: 0 <= y < image.Length0 && 0 <= x < image.Length1 ==>
              image[y, x] == old(image[y, x]).(a := ScaledAlpha(old(image[y, x]).a, factor))
  {
    forall y, x | 0 <= y < image.Length0 && 0 <= x < image.Length1 {
      image[y, x] := image[y, x].(a := ScaledAlpha(image[y, x].a, factor));
    }
  }
}
