# Weather-radar e-paper renderer: verified model of its pixel and geometry core

The repository renders a NOAA radar image (or weather-alert polygons) over a
static basemap, marks the configured location with a crosshair, stamps the
update time in a corner and quantizes the result to the six colours of a
Waveshare 7.3" e-paper panel. Around a few pixel and geometry routines, the
code is HTTP fetches, PIL drawing calls and the display driver. This project
models those routines in Dafny and proves what they promise:

- `Quantizer` (`prepare_for_epd` and its `closest`, identical in `radar.py`
  and `radar_v7.py`). The palette is fixed: white, black, red, yellow, green,
  blue. `closest` is the first entry of least squared RGB distance, because
  Python's `min` keeps the first minimum. `prepare_for_epd` is a method that
  converts the image to RGB and then fills a new `array2` of the same size
  row by row, the inner loop being a method of its own.
- `Opacity` (`reduce_opacity`). Every alpha of an RGBA `array2` is
  rewritten in place as `int(a * factor)`, stored the way an 8-bit band stores
  a lookup-table entry (clipped to 0..255). The colour bands are unchanged.
- `Geo`. It holds the two `get_map_bounds` strategies: a fixed ±5° box, and
  ±0.05·(15 − zoom) degrees. It also holds the two equirectangular
  projections: `latlon_to_pixel`, which truncates toward zero like Python's
  `int()`, and `latlon_to_xy`, which does not truncate and reads a GeoJSON
  position's first number as the latitude.
- `Annotation`. This is the crosshair and timestamp-box arithmetic of
  `radar.py`'s `main`. The text's bounding box is an input.
- `Alerts` (`parse_alerts_and_severity`, `create_alert_overlay` of
  `radar_v6.py`). GeoJSON features are a datatype. The parser is a loop
  proved equal to an order-preserving filter. The overlay is the ordered
  list of `draw.polygon` fill commands issued on a transparent canvas. A
  polygon without rings gives the `IndexError` that the source raises.
- `Pixels` and `Wrappers` hold the shared value types: 8-bit channels,
  RGB/RGBA pixels, `int()` truncation, the 8-bit clip, Option and Result.

Coordinates and the opacity factor are `real`, an idealisation of Python
floats. A projection requires non-degenerate bounds: with equal minimum and
maximum on an axis the source raises `ZeroDivisionError`.

The model follows the code on these points:
- Bounds come only from the fixed-delta and zoom-delta formulas. There is no
  Web-Mercator derivation.
- Degenerate bounds are excluded by a precondition. The code raises
  `ZeroDivisionError`, not a dedicated geometry error.
- `latlon_to_xy` reads `coords[0]` as the latitude, although GeoJSON orders
  positions longitude first.
- Geometry types other than Polygon and MultiPolygon are skipped silently,
  not reported as errors.
- `reduce_opacity` accepts any factor. Outside [0, 1] the lookup-table entry
  is clipped.
- There is no raster-alignment step and no compositing formula of the
  project's own. Compositing is PIL's `alpha_composite`.

## Model

| member | source | states |
|---|---|---|
| `Quantizer.SqDist` | radar.py:69 | the key of `closest`, the squared RGB distance of two colours, is zero exactly when they are equal |
| `Quantizer.FirstMinIndex` | radar.py:69 | the index `min(..., key=...)` yields: in range, of least squared distance, and strictly nearer than every earlier entry |
| `Quantizer.ClosestIn` | radar.py:68-69 | `closest` over any non-empty list returns an entry of that list whose squared distance to `c` is at most that of every entry |
| `Quantizer.Closest` | radar.py:64-69 | `closest(c)` is a palette colour whose squared RGB distance to `c` is at most that of every palette colour |
| `Quantizer.ClosestTieBreak` | radar_v7.py:47-52 | on equal distances the earliest palette entry is returned (white, black, red, yellow, green, blue order) |
| `Quantizer.PaletteFixedPoint` | radar_v7.py:47-52 | every palette colour maps to itself |
| `Quantizer.ClosestIdempotent` | radar_v7.py:51-52 | quantizing a quantized pixel changes nothing |
| `Quantizer.DarkGreyIsBlack` | radar.py:64-69 | (10, 10, 10) maps to black (0, 0, 0) |
| `Quantizer.ConvertToRgb` | radar.py:70 | `image.convert("RGB")` gives an image of the same size holding, at every (x, y), the input pixel with its alpha dropped |
| `Quantizer.QuantizeRow` | radar.py:73-74 | one pass of the inner loop: every pixel of row y becomes `closest` of the RGB pixel at the same place; no other row changes |
| `Quantizer.PrepareRgbForEpd` | radar.py:63-75 | on an RGB image (where `convert("RGB")` is a copy) the output has the input's height and width, and every pixel (x, y) is `closest` of the input pixel at (x, y) |
| `Quantizer.PrepareForEpd` | radar.py:63-75 | on the composited RGBA image the output has the input's height and width, and every pixel (x, y) is `closest` of the input pixel at (x, y) with its alpha dropped |
| `Quantizer.PrepareForEpdIdempotent` | radar.py:63-75 | running `prepare_for_epd` again on its own output returns the same image, pixel for pixel |
| `Pixels.ToRgb` | radar.py:70 | `convert("RGB")` keeps the red, green and blue of an RGBA pixel |
| `Pixels.Clip8` | radar.py:52 | a lookup-table entry stored in an 8-bit band: below 0 it becomes 0, above 255 it becomes 255, otherwise it is kept |
| `Pixels.TruncToInt` | radar.py:61 | Python's `int()` on a float truncates toward zero: the result lies within 1 of x, on the zero side |
| `Opacity.ScaledAlphaFloor` | radar.py:52 | for a factor in [0, 1] the new alpha is floor(alpha·factor), hence never above the old alpha |
| `Opacity.ScaledAlpha` | radar.py:52 | the new alpha is the table entry `int(a * factor)` as the band stores it; factor 1 leaves the alpha unchanged |
| `Opacity.ScaledAlphaTransparent` | radar.py:52 | factor 0 (or below) makes the alpha 0 |
| `Opacity.ScaledAlphaNotLowered` | radar.py:52 | a factor of 1 or more never lowers the alpha |
| `Opacity.ReduceOpacity` | radar.py:47-54 | in place: each pixel keeps R, G, B and gets the scaled alpha |
| `Geo.FixedDeltaBounds` | radar.py:14-16 | the fixed ±5° bounds are ordered on both axes, 10° wide and centred on (lat, lon) |
| `Geo.V7BoundsFixed` | radar_v7.py:13-15 | radar_v7's configuration gives the box (24.68, -100.17, 34.68, -90.17) |
| `Geo.ZoomBounds` | radar_v6.py:63-70 | the zoom bounds are centred on (lat, lon) with equal spans; they are ordered exactly when zoom < 15 and non-degenerate exactly when zoom ≠ 15 |
| `Geo.ZoomSpanDecreasing` | radar_v6.py:65-69 | a larger zoom gives a strictly smaller span on both axes |
| `Geo.V6BoundsOrdered` | radar_v6.py:7-9 | the configured zoom 10 gives ordered bounds 0.5° tall |
| `Geo.LatLonToPixel` | radar.py:56-61 | each pixel coordinate is the interpolated x = (lon−min_lon)/(max_lon−min_lon)·width, y = (max_lat−lat)/(max_lat−min_lat)·height truncated toward zero |
| `Geo.NorthWestCornerIsOrigin` | radar.py:59-61 | (max_lat, min_lon) maps to pixel (0, 0) |
| `Geo.CentreOfTenDegreeBox` | radar.py:56-61 | bounds (0, 0, 10, 10) and a 100×100 image map (5, 5) to (50, 50) |
| `Geo.PixelXMonotone` | radar.py:59 | for ordered bounds, x is non-decreasing in the longitude |
| `Geo.PixelYAntitone` | radar.py:60 | for ordered bounds, y is non-increasing in the latitude |
| `Geo.LatLonToXy` | radar_v6.py:54-60 | the untruncated point of a position; truncating it gives `latlon_to_pixel` of (coords[0], coords[1]) as (lat, lon) |
| `Geo.LatLonToXyCorners` | radar_v6.py:58-59 | (max_lat, min_lon) maps to (0, 0) and (min_lat, max_lon) to (width, height) |
| `Geo.LatLonToXyRoundTrip` | radar_v6.py:58-60 | for a non-empty image, inverting the projection recovers the position exactly |
| `Annotation.Crosshair` | radar.py:100-102 | one horizontal and one vertical segment, each 2·10 px long, both centred on the marker, opaque red, 2 px wide |
| `Annotation.TimestampLabel` | radar.py:107-117 | the text anchor sits 5 px from the left, and the anchor's y plus the text height is 5 px above the bottom; the background box extends the text box by 2 px on every side; box fill (255, 255, 255, 200), text red |
| `Annotation.LabelBoxInsideImage` | radar.py:110-116 | a text that fits within the padding gets a background box inside the image, 3 px from its left and bottom edges |
| `Annotation.MarkerAtCentre` | radar.py:99 | with the ±5° bounds centred on the configured point, the marker lands on pixel (width/2, height/2) |
| `Annotation.ConfiguredCrosshair` | radar.py:8-11 | with the configured point and an 800×480 map the marker is (400, 240) and the horizontal arm runs from 390 to 410 |
| `Alerts.SeverityOf` | radar_v6.py:36 | a feature without a severity reads as 'Unknown', so only a severity the feature gives can ever get a colour |
| `Alerts.SeverityColor` | radar_v6.py:39-48 | a colour exists exactly for Minor, Moderate, Severe and Extreme, always at alpha 128 |
| `Alerts.SeverityTable` | radar_v6.py:36-46 | Minor→(0,255,0,128), Moderate→(255,255,0,128), Severe→(255,0,0,128), Extreme→(0,0,255,128); an absent severity ('Unknown') has none; distinct severities get distinct colours |
| `Alerts.EntryOf` | radar_v6.py:35-50 | a feature yields an entry exactly when its severity is known and its geometry is present; the entry carries that geometry and the table colour |
| `Alerts.Kept` | radar_v6.py:34-50 | the filter never returns more entries than there are features |
| `Alerts.KeptIsOrderedFilter` | radar_v6.py:34-50 | the k-th entry comes from the k-th selected feature, selected positions increase, and a feature is selected exactly when it yields an entry |
| `Alerts.ParsedAlerts` | radar_v6.py:30-51 | what the parser returns: nothing when `features` is absent, otherwise never more entries than features |
| `Alerts.ParseAlertsAndSeverity` | radar_v6.py:30-51 | the loop with `continue` returns exactly the ordered filter, and the empty list when `features` is absent |
| `Alerts.ProjectRing` | radar_v6.py:80 | every vertex of a ring is passed through `latlon_to_xy`, in order |
| `Alerts.PolygonFills` | radar_v6.py:82-85 | when it succeeds, a MultiPolygon issues one fill per member polygon, all in the alert's colour |
| `Alerts.AlertFills` | radar_v6.py:78-86 | when it succeeds, an alert issues `FillCount` fills (1 for a Polygon, one per member for a MultiPolygon, 0 otherwise), all in its colour |
| `Alerts.OverlayFills` | radar_v6.py:78-86 | when it succeeds, the overlay holds as many fills as the alerts' counts add up to |
| `Alerts.AlertOverlayImage` | radar_v6.py:75-88 | the overlay is the requested size and fully transparent (alpha 0), and exists exactly when no fill fails |
| `Alerts.PolygonFillsPerPolygon` | radar_v6.py:82-85 | a MultiPolygon issues one fill per member polygon, in order, of its first ring in the alert's colour, and fails exactly when a member has no ring |
| `Alerts.AlertFillsByGeometry` | radar_v6.py:78-86 | a Polygon issues one fill of ring 0, a MultiPolygon one per polygon, any other type nothing; each fill has the alert's colour and the projected ring |
| `Alerts.OverlayFillsAllAlerts` | radar_v6.py:78-86 | the overlay succeeds exactly when every alert does; it then holds as many fills as the alerts' counts add up to, each in some alert's colour |
| `Alerts.OverlayFillsPrefix` | radar_v6.py:78-86 | when the overlay succeeds, so does every prefix of the alert list, and its fills are the start of the overlay's fills |
| `Alerts.OverlayFillsInAlertOrder` | radar_v6.py:78-86 | the fills come alert after alert in list order: the i-th alert's fills are exactly the `FillCount` fills after those of the alerts before it |
| `Alerts.CreateAlertOverlay` | radar_v6.py:73-88 | the nested loops produce exactly the specified overlay, or the IndexError of a polygon without rings |
| `Alerts.NoFeaturesNoFills` | radar_v6.py:32-33 | a document without `features` yields a transparent overlay with no fills |
| `Alerts.SeverePolygonScenario` | radar_v6.py:39-81 | one Severe polygon plus one unknown-severity feature give a single (255, 0, 0, 128) fill of the projected outer ring |

## Left out

- HTTP fetching is not modelled: `get_static_map`, `get_noaa_radar` and `fetch_weather_alerts` are network I/O, and image and JSON decoding happen inside `requests` and PIL.
- The e-paper driver is not modelled: `EPD()`, `init`, `Clear`, `getbuffer`, `display` and `sleep` are hardware I/O.
- `Image.alpha_composite` is not modelled, because its rounding is PIL's. The layer order (base map, then radar, then annotation overlay, at radar.py:120-121) is not modelled either.
- Rasterisation is not modelled. PIL fills the pixels for `draw.polygon`, `draw.line` and `draw.rectangle`, loads the font and draws the text. The model keeps only the commands, coordinates and colours passed to those calls, and the text's bounding box is an input.
- The control flow of `main` is not modelled. This covers the try/except that prints errors, the repeated fetch at radar.py:91-92, the clock read for the timestamp, and the unfinished `main` of radar_v6.py.
- `Opacity.ReduceOpacity` takes an RGBA image. It does not model the `convert('RGBA')` branch for images of other modes (radar.py:49-50); every caller passes an RGBA image.
- `Quantizer.PrepareForEpd` takes an RGBA image, where `convert("RGB")` drops the alpha, and `Quantizer.PrepareRgbForEpd` an RGB image, where it is a copy. Other PIL modes are not modelled.
- Float behaviour is idealised: coordinates, spans and the opacity factor are exact reals, not IEEE-754 doubles. This changes some concrete alpha entries: the double nearest 0.7 lies slightly below 7/10, so `int(90 * 0.7)` is 62 in Python while `ScaledAlpha(90, 0.7)` is 63 (likewise 170 gives 118 against 119, and 180 gives 125 against 126). `Opacity.ScaledAlphaFloor` is a statement about exact reals, not about doubles. For the factor 0.3 the exact and double tables agree on all 256 entries.
- Some malformed GeoJSON is not modelled:
  - a feature without a `properties` or `geometry` key (KeyError in the source);
  - a non-empty geometry without a `type` or `coordinates` key (KeyError);
  - a position with fewer than two numbers (IndexError);
  - `"features": null` (TypeError when iterated);
  - `"properties": null` (AttributeError on `.get`);
  - a ring with fewer than two vertices, which Pillow may reject with a TypeError; the model returns Ok with a fill of those vertices.
  A position is modelled by its first two numbers, so altitudes are ignored.
- A non-string `severity` value is not modelled separately. Like any string outside the table, it compares unequal to the four known names.
- Degenerate bounds are excluded by a precondition instead of modelling the `ZeroDivisionError`. The precondition sits on the projections and on every member that projects: `Alerts.ProjectRing`, `Alerts.PolygonFills`, `Alerts.AlertFills`, `Alerts.OverlayFills`, `Alerts.AlertOverlayImage` and `Alerts.CreateAlertOverlay`. With degenerate bounds and no polygon to draw, the source returns an empty overlay without dividing; the model does not cover that case.
