/**
 * Geographic bounds and the equirectangular projection of a point into an
 * image of a given size. Floats are idealised as `real`.
 */
module Geo {
  import opened Pixels

  /** A bounds tuple `(min_lat, min_lon, max_lat, max_lon)`. */
  datatype Bounds = Bounds(minLat: real, minLon: real, maxLat: real, maxLon: real)

  /** Both spans are non-zero, so the projection does not divide by zero. */
  predicate NonDegenerate(b: Bounds)
  {
    b.minLat != b.maxLat && b.minLon != b.maxLon
  }

  /** Both spans are positive. */
  predicate Ordered(b: Bounds)
  {
    b.minLat < b.maxLat && b.minLon < b.maxLon
  }

  /** The configured centres of the two full-pipeline scripts. */
  const RadarLat: real := 29.6165
  const RadarLon: real := -95.1696
  const V7Lat: real := 29.68
  const V7Lon: real := -95.17
  /** The configured centre and zoom of the alert script. */
  const V6Lat: real := 29.68
  const V6Lon: real := -95.17
  const V6Zoom: real := 10.0

  /** The fixed half-span, in degrees, of the ±delta bounds strategy. */
  const FixedDelta: real := 5.0

  /** `get_map_bounds` of the radar scripts: the centre ± 5 degrees on both axes. */
  function FixedDeltaBounds(lat: real, lon: real): (b: Bounds)
    ensures Ordered(b)
    ensures b.maxLat - b.minLat == 10.0 && b.maxLon - b.minLon == 10.0
    ensures (b.minLat + b.maxLat) / 2.0 == lat && (b.minLon + b.maxLon) / 2.0 == lon
  {
    Bounds(lat - FixedDelta, lon - FixedDelta, lat + FixedDelta, lon + FixedDelta)
  }

  /** The radar_v7 configuration: a 10-degree box around (29.68, -95.17). */
  lemma V7BoundsFixed()
    ensures FixedDeltaBounds(V7Lat, V7Lon) == Bounds(24.68, -100.17, 34.68, -90.17)
  {
  }

  /** The half-span that the alert script derives from the zoom level. */
  function ZoomDelta(zoom: real): real
  {
    0.05 * (15.0 - zoom)
  }

  /** `get_map_bounds` of the alert script: the centre ± 0.05·(15 − zoom) degrees. */
  function ZoomBounds(lat: real, lon: real, zoom: real): (b: Bounds)
    ensures (b.minLat + b.maxLat) / 2.0 == lat && (b.minLon + b.maxLon) / 2.0 == lon
    ensures b.maxLat - b.minLat == b.maxLon - b.minLon
    ensures Ordered(b) <==> zoom < 15.0
    ensures NonDegenerate(b) <==> zoom != 15.0
  {
    var d := ZoomDelta(zoom);
    Bounds(lat - d, lon - d, lat + d, lon + d)
  }

  /** Zooming in strictly shrinks the span of the zoom-derived bounds. */
  lemma ZoomSpanDecreasing(lat: real, lon: real, z1: real, z2: real)
    requires z1 < z2
    ensures var b1, b2 := ZoomBounds(lat, lon, z1), ZoomBounds(lat, lon, z2);
            b2.maxLat - b2.minLat < b1.maxLat - b1.minLat &&
            b2.maxLon - b2.minLon < b1.maxLon - b1.minLon
  {
  }

  /** The alert script's configuration (zoom 10) gives ordered bounds 0.5 degrees wide. */
  lemma V6BoundsOrdered()
    ensures Ordered(ZoomBounds(V6Lat, V6Lon, V6Zoom))
    ensures ZoomBounds(V6Lat, V6Lon, V6Zoom).maxLat - ZoomBounds(V6Lat, V6Lon, V6Zoom).minLat == 0.5
  {
  }

  /** The untruncated horizontal position of a longitude. */
  function ProjectX(lon: real, b: Bounds, width: real): real
    requires NonDegenerate(b)
  {
    (lon - b.minLon) / (b.maxLon - b.minLon) * width
  }

  /** The untruncated vertical position of a latitude (rows grow southward). */
  function ProjectY(lat: real, b: Bounds, height: real): real
    requires NonDegenerate(b)
  {
    (b.maxLat - lat) / (b.maxLat - b.minLat) * height
  }

  /** A pixel coordinate. */
  datatype Pixel = Pixel(x: int, y: int)

  /** A point of the image plane with untruncated coordinates. */
  datatype Point = Point(x: real, y: real)

  /** `latlon_to_pixel`: the projected point, each coordinate truncated toward zero. */
  function LatLonToPixel(lat: real, lon: real, b: Bounds, width: nat, height: nat): (p: Pixel)
    requires NonDegenerate(b)
    ensures var x, y := ProjectX(lon, b, width as real), ProjectY(lat, b, height as real);
            (0.0 <= x ==> p.x as real <= x < p.x as real + 1.0) &&
            (x < 0.0 ==> p.x as real - 1.0 < x <= p.x as real) &&
            (0.0 <= y ==> p.y as real <= y < p.y as real + 1.0) &&
            (y < 0.0 ==> p.y as real - 1.0 < y <= p.y as real)
  {
    Pixel(TruncToInt(ProjectX(lon, b, width as real)), TruncToInt(ProjectY(lat, b, height as real)))
  }

  /** The north-west corner of the bounds is pixel (0, 0). */
  lemma NorthWestCornerIsOrigin(b: Bounds, width: nat, height: nat)
    requires NonDegenerate(b)
    ensures LatLonToPixel(b.maxLat, b.minLon, b, width, height) == Pixel(0, 0)
  {
    DivSelf(b.maxLon - b.minLon);
    DivSelf(b.maxLat - b.minLat);
    assert ProjectX(b.minLon, b, width as real) == 0.0;
    assert ProjectY(b.maxLat, b, height as real) == 0.0;
  }

  /** Bounds (0, 0, 10, 10) and a 100×100 image put (5, 5) at pixel (50, 50). */
  lemma CentreOfTenDegreeBox()
    ensures LatLonToPixel(5.0, 5.0, Bounds(0.0, 0.0, 10.0, 10.0), 100, 100) == Pixel(50, 50)
  {
    assert ProjectX(5.0, Bounds(0.0, 0.0, 10.0, 10.0), 100.0) == 50.0;
    assert ProjectY(5.0, Bounds(0.0, 0.0, 10.0, 10.0), 100.0) == 50.0;
  }

  lemma TruncMonotone(u: real, v: real)
    requires u <= v
    ensures TruncToInt(u) <= TruncToInt(v)
  {
  }

  lemma ScaleMonotone(u: real, v: real, lo: real, span: real, size: real)
    requires u <= v && 0.0 < span && 0.0 <= size
    ensures (u - lo) / span * size <= (v - lo) / span * size
  {
    assert (u - lo) / span <= (v - lo) / span;
  }

  /** Moving east never moves the pixel left. */
  lemma PixelXMonotone(lat: real, lon1: real, lon2: real, b: Bounds, width: nat, height: nat)
    requires Ordered(b) && lon1 <= lon2
    ensures LatLonToPixel(lat, lon1, b, width, height).x <= LatLonToPixel(lat, lon2, b, width, height).x
  {
    ScaleMonotone(lon1, lon2, b.minLon, b.maxLon - b.minLon, width as real);
    TruncMonotone(ProjectX(lon1, b, width as real), ProjectX(lon2, b, width as real));
  }

  /** Moving north never moves the pixel down. */
  lemma PixelYAntitone(lat1: real, lat2: real, lon: real, b: Bounds, width: nat, height: nat)
    requires Ordered(b) && lat1 <= lat2
    ensures LatLonToPixel(lat2, lon, b, width, height).y <= LatLonToPixel(lat1, lon, b, width, height).y
  {
    ScaleMonotone(-lat2, -lat1, -b.maxLat, b.maxLat - b.minLat, height as real);
    TruncMonotone(ProjectY(lat2, b, height as real), ProjectY(lat1, b, height as real));
  }

  /**
   * A GeoJSON position as the alert script reads it: the code takes its
   * first number as the latitude and its second as the longitude (GeoJSON
   * itself orders a position longitude first).
   */
  datatype Position = Position(first: real, second: real)

  /**
   * `latlon_to_xy`: the projected point of a position, not truncated;
   * truncating it gives what `latlon_to_pixel` gives for the same latitude
   * (first number) and longitude (second number).
   */
  function LatLonToXy(coords: Position, b: Bounds, width: nat, height: nat): (p: Point)
    requires NonDegenerate(b)
    ensures LatLonToPixel(coords.first, coords.second, b, width, height) == Pixel(TruncToInt(p.x), TruncToInt(p.y))
  {
    Point(ProjectX(coords.second, b, width as real), ProjectY(coords.first, b, height as real))
  }

  /**
   * The north-west corner (max_lat, min_lon) lands on (0, 0) and the
   * south-east corner (min_lat, max_lon) on (width, height).
   */
  lemma LatLonToXyCorners(b: Bounds, width: nat, height: nat)
    requires NonDegenerate(b)
    ensures LatLonToXy(Position(b.maxLat, b.minLon), b, width, height) == Point(0.0, 0.0)
    ensures LatLonToXy(Position(b.minLat, b.maxLon), b, width, height) == Point(width as real, height as real)
  {
    DivSelf(b.maxLon - b.minLon);
    DivSelf(b.maxLat - b.minLat);
    assert b.minLon - b.minLon == 0.0 && b.maxLat - b.maxLat == 0.0;
  }

  lemma DivSelf(d: real)
    requires d != 0.0
    ensures d / d == 1.0 && 0.0 / d == 0.0
  {
  }

  /** The inverse of the projection for a non-empty image: the position whose point is `p`. */
  function XyToPosition(p: Point, b: Bounds, width: nat, height: nat): Position
    requires width > 0 && height > 0
  {
    Position(b.maxLat - p.y / height as real * (b.maxLat - b.minLat),
             b.minLon + p.x / width as real * (b.maxLon - b.minLon))
  }

  /** Projecting a position and inverting the projection recovers the position. */
  lemma LatLonToXyRoundTrip(coords: Position, b: Bounds, width: nat, height: nat)
    requires NonDegenerate(b) && width > 0 && height > 0
    ensures XyToPosition(LatLonToXy(coords, b, width, height), b, width, height) == coords
  {
    var w, h := width as real, height as real;
    var dLon, dLat := b.maxLon - b.minLon, b.maxLat - b.minLat;
    var p := LatLonToXy(coords, b, width, height);
    assert p.x / w == (coords.second - b.minLon) / dLon;
    assert p.y / h == (b.maxLat - coords.first) / dLat;
  }
}
