/**
 * The palette quantizer of `prepare_for_epd`: every pixel of the composited
 * image is replaced by the entry of the six-colour e-paper palette nearest to
 * it in squared RGB distance, the earliest entry winning a tie.
 */
module Quantizer {
  import opened Pixels

  const White := Rgb(255, 255, 255)
  const Black := Rgb(0, 0, 0)
  const Red := Rgb(255, 0, 0)
  const Yellow := Rgb(255, 255, 0)
  const Green := Rgb(0, 255, 0)
  const Blue := Rgb(0, 0, 255)

  /** The display's palette, in declaration order. */
  const Palette: seq<Rgb> := [White, Black, Red, Yellow, Green, Blue]

  /** The square of one channel difference; zero only for a zero difference. */
  function Sq(d: int): (s: nat)
    ensures s == 0 <==> d == 0
  {
    if d == 0 then 0 else SqPositive(d); d * d
  }

  lemma SqPositive(d: int)
    requires d != 0
    ensures d * d > 0
  {
    if d > 0 {
      assert d * d >= d;
    } else {
      assert d * d == (-d) * (-d) >= -d;
    }
  }

  /**
   * The key of `closest`: the squared Euclidean distance of two colours,
   * zero exactly between equal colours.
   */
  function SqDist(c: Rgb, p: Rgb): (d: nat)
    ensures d == 0 <==> c == p
  {
    Sq(c.r - p.r) + Sq(c.g - p.g) + Sq(c.b - p.b)
  }

  /**
   * Python's `min(ps, key=...)`: a left-to-right scan that replaces the
   * current candidate only by a strictly smaller key. The result is the
   * index of the first entry of least distance.
   */
  function FirstMinIndex(c: Rgb, ps: seq<Rgb>): (k: nat)
    requires |ps| > 0
    ensures k < |ps|
    ensures forall j :: 0 <= j < |ps| ==> SqDist(c, ps[k]) <= SqDist(c, ps[j])
    ensures forall j :: 0 <= j < k ==> SqDist(c, ps[k]) < SqDist(c, ps[j])
    decreases |ps|
  {
    if |ps| == 1 then 0
    else
      var k := FirstMinIndex(c, ps[..|ps| - 1]);
      if SqDist(c, ps[|ps| - 1]) < SqDist(c, ps[k]) then |ps| - 1 else k
  }

  /**
   * `closest` over the list it closes over: the first entry of `ps` nearest
   * to `c`.
   */
  function ClosestIn(c: Rgb, ps: seq<Rgb>): (p: Rgb)
    requires |ps| > 0
    ensures p in ps
    ensures forall q :: q in ps ==> SqDist(c, p) <= SqDist(c, q)
  {
    ps[FirstMinIndex(c, ps)]
  }

  /** `closest(c)`: the colour of the display's palette nearest to `c`. */
  function Closest(c: Rgb): (p: Rgb)
    ensures p in Palette
    ensures forall q :: q in Palette ==> SqDist(c, p) <= SqDist(c, q)
  {
    ClosestIn(c, Palette)
  }

  /**
   * Ties go to the earliest palette entry: the entry `closest` returns is the
   * first one of least distance, whichever later entries tie with it.
   */
  lemma ClosestTieBreak(c: Rgb, i: nat)
    requires i < |Palette|
    requires forall j :: 0 <= j < |Palette| ==> SqDist(c, Palette[i]) <= SqDist(c, Palette[j])
    requires forall j :: 0 <= j < i ==> SqDist(c, Palette[i]) < SqDist(c, Palette[j])
    ensures Closest(c) == Palette[i]
  {
  }

  /** A colour already in the palette is its own nearest palette colour. */
  lemma PaletteFixedPoint(p: Rgb)
    requires p in Palette
    ensures Closest(p) == p
  {
    var q := Closest(p);
    assert SqDist(p, q) <= SqDist(p, p);
  }

  /** Quantizing an already quantized pixel changes nothing. */
  lemma ClosestIdempotent(c: Rgb)
    ensures Closest(Closest(c)) == Closest(c)
  {
    PaletteFixedPoint(Closest(c));
  }

  /** A dark grey is drawn black. */
  lemma DarkGreyIsBlack()
    ensures Closest(Rgb(10, 10, 10)) == Black
  {
    var c := Rgb(10, 10, 10);
    assert Sq(-245) == 60025 && Sq(10) == 100;
    assert SqDist(c, Black) == 300;
    assert SqDist(c, White) == 180075;
    assert SqDist(c, Red) == 60225 && SqDist(c, Green) == 60225 && SqDist(c, Blue) == 60225;
    assert SqDist(c, Yellow) == 120150;
    ClosestTieBreak(c, 1);
  }

  /**
   * `image.convert("RGB")` on an RGBA image: a new image of the same size
   * holding every pixel with its alpha dropped. Images are indexed [y, x]:
   * Length0 is the height, Length1 the width.
   */
  method ConvertToRgb(image: array2<Rgba>) returns (rgb: array2<Rgb>)
    ensures fresh(rgb)
    ensures rgb.Length0 == image.Length0 && rgb.Length1 == image.Length1
    ensures forall y, x :: 0 <= y < rgb.Length0 && 0 <= x < rgb.Length1 ==>
              rgb[y, x] == ToRgb(image[y, x])
  {
    rgb := new Rgb[image.Length0, image.Length1];
    forall y, x | 0 <= y < rgb.Length0 && 0 <= x < rgb.Length1 {
      rgb[y, x] := ToRgb(image[y, x]);
    }
  }

  /**
   * One pass of the inner loop of `prepare_for_epd`: every pixel of row `y`
   * is quantized against `palette`; no other row changes.
   */
  method QuantizeRow(rgb: array2<Rgb>, result: array2<Rgb>, y: nat, palette: seq<Rgb>)
    requires rgb != result
    requires result.Length0 == rgb.Length0 && result.Length1 == rgb.Length1
    requires y < rgb.Length0 && |palette| > 0
    modifies result
    ensures forall j :: 0 <= j < result.Length1 ==> result[y, j] == ClosestIn(rgb[y, j], palette)
    ensures forall i, j :: 0 <= i < result.Length0 && i != y && 0 <= j < result.Length1 ==>
              result[i, j] == old(result[i, j])
  {
    var x := 0;
    while x < result.Length1
      invariant 0 <= x <= result.Length1
      invariant forall j :: 0 <= j < x ==> result[y, j] == ClosestIn(rgb[y, j], palette)
      invariant forall i, j :: 0 <= i < result.Length0 && i != y && 0 <= j < result.Length1 ==>
                  result[i, j] == old(result[i, j])
    {
      result[y, x] := ClosestIn(rgb[y, x], palette);
      x := x + 1;
    }
  }

  /**
   * `prepare_for_epd` on an image that is already RGB, where `convert("RGB")`
   * is a copy: a new image of the same size whose pixel at every (x, y) is
   * the palette colour nearest to the input pixel at (x, y).
   */
  method PrepareRgbForEpd(rgb: array2<Rgb>) returns (result: array2<Rgb>)
    ensures fresh(result)
    ensures result.Length0 == rgb.Length0 && result.Length1 == rgb.Length1
    ensures forall y, x :: 0 <= y < result.Length0 && 0 <= x < result.Length1 ==>
              result[y, x] == Closest(rgb[y, x])
  {
    result := new Rgb[rgb.Length0, rgb.Length1];
    var y := 0;
    while y < rgb.Length0
      invariant 0 <= y <= rgb.Length0
      invariant forall i, j :: 0 <= i < y && 0 <= j < result.Length1 ==> result[i, j] == ClosestIn(rgb[i, j], Palette)
    {
      QuantizeRow(rgb, result, y, Palette);
      y := y + 1;
    }
  }

  /**
   * `prepare_for_epd` on the composited RGBA image: a new RGB image of the
   * same size whose pixel at every (x, y) is the palette colour nearest to
   * the input pixel at (x, y) with its alpha dropped.
   */
  method PrepareForEpd(image: array2<Rgba>) returns (result: array2<Rgb>)
    ensures fresh(result)
    ensures result.Length0 == image.Length0 && result.Length1 == image.Length1
    ensures forall y, x :: 0 <= y < result.Length0 && 0 <= x < result.Length1 ==>
              result[y, x] == Closest(ToRgb(image[y, x]))
  {
    var rgb := ConvertToRgb(image);
    result := PrepareRgbForEpd(rgb);
  }

  /**
   * Quantizing the prepared image a second time gives it back pixel for
   * pixel: the output of `prepare_for_epd` is a fixed point of it.
   */
  method PrepareForEpdIdempotent(image: array2<Rgba>) returns (once: array2<Rgb>, twice: array2<Rgb>)
    ensures once.Length0 == image.Length0 && once.Length1 == image.Length1
    ensures twice.Length0 == once.Length0 && twice.Length1 == once.Length1
    ensures forall y, x :: 0 <= y < once.Length0 && 0 <= x < once.Length1 ==>
              once[y, x] == Closest(ToRgb(image[y, x])) && twice[y, x] == once[y, x]
  {
    once := PrepareForEpd(image);
    twice := PrepareRgbForEpd(once);
    forall y, x | 0 <= y < once.Length0 && 0 <= x < once.Length1
      ensures twice[y, x] == once[y, x]
    {
      ClosestIdempotent(ToRgb(image[y, x]));
    }
  }
}
