/**
 * The annotation layout that the radar script's `main` computes before
 * drawing onto the transparent overlay: a crosshair on the projected centre
 * and a timestamp label in the bottom-left corner on a light background box.
 * Only the coordinates and colours handed to the drawing calls are modelled;
 * the text's bounding box is an input (it comes from the font).
 */
module Annotation {
  import opened Pixels
  import opened Geo

  /** Half the length of each crosshair arm, in pixels. */
  const CrosshairHalf: int := 10
  const CrosshairColor := Rgba(255, 0, 0, 255)
  const CrosshairWidth: nat := 2

  /** The size requested for the base map, which the overlay copies. */
  const ImageWidth: nat := 800
  const ImageHeight: nat := 480

  /** The label's distance from the left and bottom edges. */
  const Padding: int := 5
  /** How far the background box reaches beyond the text on every side. */
  const BoxMargin: int := 2
  const BoxFill := Rgba(255, 255, 255, 200)
  const TextColor := Rgba(255, 0, 0, 255)

  /** A `draw.line` call: from (x0, y0) to (x1, y1). */
  datatype Line = Line(x0: int, y0: int, x1: int, y1: int, color: Rgba, width: nat)

  /** A `draw.rectangle` call: corners (x0, y0) and (x1, y1). */
  datatype Rect = Rect(x0: int, y0: int, x1: int, y1: int, fill: Rgba)

  /** The bounding box `(left, top, right, bottom)` that `textbbox` reports for the text at (0, 0). */
  datatype TextBox = TextBox(left: int, top: int, right: int, bottom: int)

  /** Where the text goes, and the box drawn behind it. */
  datatype Label = Label(x: int, y: int, background: Rect, color: Rgba)

  /**
   * The two crosshair segments: a horizontal and a vertical one, each
   * 2·10 pixels long, both centred on the marker, in opaque red, 2 px wide.
   */
  function Crosshair(marker: Pixel): (lines: (Line, Line))
    ensures var h := lines.0;
            h.y0 == h.y1 == marker.y && h.x1 - h.x0 == 2 * CrosshairHalf && h.x0 + h.x1 == 2 * marker.x
    ensures var v := lines.1;
            v.x0 == v.x1 == marker.x && v.y1 - v.y0 == 2 * CrosshairHalf && v.y0 + v.y1 == 2 * marker.y
    ensures lines.0.color == lines.1.color == CrosshairColor
    ensures lines.0.width == lines.1.width == CrosshairWidth
  {
    (Line(marker.x - CrosshairHalf, marker.y, marker.x + CrosshairHalf, marker.y, CrosshairColor, CrosshairWidth),
     Line(marker.x, marker.y - CrosshairHalf, marker.x, marker.y + CrosshairHalf, CrosshairColor, CrosshairWidth))
  }

  /**
   * The timestamp label of an overlay `overlayHeight` pixels high: the text
   * anchor sits 5 px from the left, and the anchor's y plus the text height
   * is 5 px above the bottom; the background box runs from 2 px before the
   * anchor to 2 px past the anchor plus the text's width and height.
   */
  function TimestampLabel(overlayHeight: int, bbox: TextBox): (l: Label)
    ensures var tw, th := bbox.right - bbox.left, bbox.bottom - bbox.top;
            l.x == Padding && l.y + th == overlayHeight - Padding &&
            l.background.x0 == l.x - BoxMargin && l.background.x1 == l.x + tw + BoxMargin &&
            l.background.y0 == l.y - BoxMargin && l.background.y1 == l.y + th + BoxMargin
    ensures l.background.fill == BoxFill && l.color == TextColor
  {
    var textWidth := bbox.right - bbox.left;
    var textHeight := bbox.bottom - bbox.top;
    var tx := Padding;
    var ty := overlayHeight - textHeight - Padding;
    Label(tx, ty, Rect(tx - BoxMargin, ty - BoxMargin, tx + textWidth + BoxMargin, ty + textHeight + BoxMargin, BoxFill), TextColor)
  }

  /**
   * A text no larger than the image less the padding gets a background box
   * that lies inside the image, 3 px from its left and bottom edges.
   */
  lemma LabelBoxInsideImage(width: int, height: int, bbox: TextBox)
    requires 0 <= bbox.right - bbox.left <= width - 2 * Padding
    requires 0 <= bbox.bottom - bbox.top <= height - 2 * Padding
    ensures var r := TimestampLabel(height, bbox).background;
            0 < r.x0 <= r.x1 < width && 0 < r.y0 <= r.y1 < height
    ensures var r := TimestampLabel(height, bbox).background;
            r.x0 == Padding - BoxMargin && r.y1 == height - (Padding - BoxMargin)
  {
  }

  /**
   * With the fixed ±5° bounds centred on the configured point, the marker is
   * projected onto the middle pixel of the image.
   */
  lemma MarkerAtCentre(lat: real, lon: real, width: nat, height: nat)
    ensures LatLonToPixel(lat, lon, FixedDeltaBounds(lat, lon), width, height) == Pixel(width / 2, height / 2)
  {
    var b := FixedDeltaBounds(lat, lon);
    assert lon - b.minLon == 5.0 && b.maxLon - b.minLon == 10.0;
    assert b.maxLat - lat == 5.0 && b.maxLat - b.minLat == 10.0;
    HalfTruncates(width);
    HalfTruncates(height);
  }

  lemma HalfTruncates(n: nat)
    ensures 5.0 / 10.0 * n as real == n as real / 2.0
    ensures TruncToInt(n as real / 2.0) == n / 2
  {
    var q := n / 2;
    assert n == 2 * q || n == 2 * q + 1;
  }

  /** With the radar script's configuration the crosshair is centred on pixel (400, 240). */
  lemma ConfiguredCrosshair()
    ensures var m := LatLonToPixel(RadarLat, RadarLon, FixedDeltaBounds(RadarLat, RadarLon), ImageWidth, ImageHeight);
            m == Pixel(400, 240) && Crosshair(m).0 == Line(390, 240, 410, 240, CrosshairColor, CrosshairWidth)
  {
    MarkerAtCentre(RadarLat, RadarLon, ImageWidth, ImageHeight);
  }
}
