/**
 * The weather-alert pipeline of the alert script: features of the alerts
 * GeoJSON are filtered and coloured by severity (`parse_alerts_and_severity`),
 * then every kept alert's polygons are projected and filled onto a
 * transparent overlay (`create_alert_overlay`). The overlay is modelled as
 * the ordered list of polygon fills issued on it.
 */
module Alerts {
  import opened Wrappers
  import opened Pixels
  import opened Geo

  /** A linear ring: the vertices of one polygon boundary. */
  type Ring = seq<Position>

  /**
   * A feature's geometry, by its `type` member: a Polygon holds its rings,
   * a MultiPolygon its polygons (each a list of rings); any other type is
   * carried by name only.
   */
  datatype Geometry =
    | Polygon(rings: seq<Ring>)
    | MultiPolygon(polygons: seq<seq<Ring>>)
    | OtherGeometry(kind: string)

  /**
   * One element of `features`: the `severity` entry of its properties (None
   * when absent) and its geometry (None when null or empty, i.e. falsy).
   */
  datatype Feature = Feature(severity: Option<string>, geometry: Option<Geometry>)

  /** The alerts document: its `features` list, None when the key is absent. */
  datatype AlertsJson = AlertsJson(features: Option<seq<Feature>>)

  /** An entry `(color, geometry)` of the list the parser returns. */
  datatype AlertOverlay = AlertOverlay(color: Rgba, geometry: Geometry)

  const MinorColor := Rgba(0, 255, 0, 128)
  const ModerateColor := Rgba(255, 255, 0, 128)
  const SevereColor := Rgba(255, 0, 0, 128)
  const ExtremeColor := Rgba(0, 0, 255, 128)

  const KnownSeverities: set<string> := {"Minor", "Moderate", "Severe", "Extreme"}

  /**
   * `properties.get('severity', 'Unknown')`: a feature without a severity
   * reads as "Unknown", so only a severity the feature gives can be coloured.
   */
  function SeverityOf(f: Feature): (s: string)
    ensures SeverityColor(s).Some? ==> f.severity == Some(s)
  {
    if f.severity.Some? then f.severity.value else "Unknown"
  }

  /** The severity-to-colour table; None for a severity that is skipped. */
  function SeverityColor(severity: string): (c: Option<Rgba>)
    ensures c.Some? <==> severity in KnownSeverities
    ensures c.Some? ==> c.value.a == 128
  {
    if severity == "Minor" then Some(MinorColor)
    else if severity == "Moderate" then Some(ModerateColor)
    else if severity == "Severe" then Some(SevereColor)
    else if severity == "Extreme" then Some(ExtremeColor)
    else None
  }

  /**
   * The table: Minor is green, Moderate yellow, Severe red, Extreme blue,
   * all at alpha 128; distinct severities get distinct colours, and an
   * absent severity ("Unknown") gets none.
   */
  lemma SeverityTable()
    ensures SeverityColor("Minor") == Some(Rgba(0, 255, 0, 128))
    ensures SeverityColor("Moderate") == Some(Rgba(255, 255, 0, 128))
    ensures SeverityColor("Severe") == Some(Rgba(255, 0, 0, 128))
    ensures SeverityColor("Extreme") == Some(Rgba(0, 0, 255, 128))
    ensures SeverityColor(SeverityOf(Feature(None, None))) == None
    ensures forall s, t :: SeverityColor(s).Some? && SeverityColor(s) == SeverityColor(t) ==> s == t
  {
    assert "Unknown" != "Minor" && "Unknown" != "Moderate" && "Unknown" != "Severe" && "Unknown" != "Extreme";
  }

  /**
   * What one feature contributes to the parser's list: an entry exactly when
   * its severity is known and its geometry is present, carrying the
   * feature's geometry and a half-transparent colour.
   */
  function EntryOf(f: Feature): (e: Option<AlertOverlay>)
    ensures e.Some? <==> SeverityOf(f) in KnownSeverities && f.geometry.Some?
    ensures e.Some? ==> Some(e.value.geometry) == f.geometry && Some(e.value.color) == SeverityColor(SeverityOf(f))
  {
    var color := SeverityColor(SeverityOf(f));
    if color.Some? && f.geometry.Some? then Some(AlertOverlay(color.value, f.geometry.value)) else None
  }

  /** The entries of a list of features, in feature order. */
  function Kept(features: seq<Feature>): (r: seq<AlertOverlay>)
    ensures |r| <= |features|
    decreases |features|
  {
    if features == [] then []
    else
      var last := features[|features| - 1];
      Kept(features[..|features| - 1]) + (if EntryOf(last).Some? then [EntryOf(last).value] else [])
  }

  /** What `parse_alerts_and_severity` returns for a document. */
  function ParsedAlerts(alertsJson: AlertsJson): (r: seq<AlertOverlay>)
    ensures alertsJson.features.None? ==> r == []
    ensures alertsJson.features.Some? ==> |r| <= |alertsJson.features.value|
  {
    if alertsJson.features.Some? then Kept(alertsJson.features.value) else []
  }

  /** The positions, in order, of the features that produce an entry. */
  ghost function SelectedIndices(features: seq<Feature>): seq<nat>
    decreases |features|
  {
    if features == [] then []
    else
      var n := |features| - 1;
      SelectedIndices(features[..n]) + (if EntryOf(features[n]).Some? then [n] else [])
  }

  lemma {:induction false} SelectedIndicesBounded(features: seq<Feature>)
    ensures forall k :: 0 <= k < |SelectedIndices(features)| ==> SelectedIndices(features)[k] < |features|
    ensures forall k, l :: 0 <= k < l < |SelectedIndices(features)| ==>
              SelectedIndices(features)[k] < SelectedIndices(features)[l]
    decreases |features|
  {
    if features != [] {
      var n := |features| - 1;
      var prev := SelectedIndices(features[..n]);
      SelectedIndicesBounded(features[..n]);
      var idx := SelectedIndices(features);
      assert idx == prev + (if EntryOf(features[n]).Some? then [n] else []);
      assert forall k :: 0 <= k < |prev| ==> prev[k] < n;
      assert forall k :: 0 <= k < |prev| ==> idx[k] == prev[k];
    }
  }

  lemma {:induction false} SelectedIndicesComplete(features: seq<Feature>)
    ensures forall i :: 0 <= i < |features| ==> (i in SelectedIndices(features) <==> EntryOf(features[i]).Some?)
    decreases |features|
  {
    if features != [] {
      var n := |features| - 1;
      var prev := SelectedIndices(features[..n]);
      SelectedIndicesComplete(features[..n]);
      SelectedIndicesBounded(features[..n]);
      assert forall k :: 0 <= k < |prev| ==> prev[k] < n;
      assert n !in prev;
      assert SelectedIndices(features) == prev + (if EntryOf(features[n]).Some? then [n] else []);
      forall i | 0 <= i < n
        ensures i in SelectedIndices(features) <==> EntryOf(features[i]).Some?
      {
        assert features[..n][i] == features[i];
      }
    }
  }

  lemma {:induction false} KeptAtSelected(features: seq<Feature>)
    ensures var r, idx := Kept(features), SelectedIndices(features);
            |r| == |idx| &&
            forall k :: 0 <= k < |idx| ==> 0 <= idx[k] < |features| && EntryOf(features[idx[k]]) == Some(r[k])
    decreases |features|
  {
    if features != [] {
      var n := |features| - 1;
      var prefix := features[..n];
      KeptAtSelected(prefix);
      SelectedIndicesBounded(prefix);
      var prevIdx, prevKept := SelectedIndices(prefix), Kept(prefix);
      assert SelectedIndices(features) == prevIdx + (if EntryOf(features[n]).Some? then [n] else []);
      assert Kept(features) == prevKept + (if EntryOf(features[n]).Some? then [EntryOf(features[n]).value] else []);
      forall k | 0 <= k < |prevIdx|
        ensures EntryOf(features[prevIdx[k]]) == Some(prevKept[k])
      {
        assert prefix[prevIdx[k]] == features[prevIdx[k]];
      }
    }
  }

  /**
   * The parser is an order-preserving filter: its k-th entry is the entry of
   * the k-th feature that produces one, the selected positions increase, and
   * a feature is selected exactly when it has a known severity and a geometry.
   */
  lemma KeptIsOrderedFilter(features: seq<Feature>)
    ensures var r, idx := Kept(features), SelectedIndices(features);
            |r| == |idx| &&
            (forall k :: 0 <= k < |idx| ==> idx[k] < |features| && EntryOf(features[idx[k]]) == Some(r[k])) &&
            (forall k, l :: 0 <= k < l < |idx| ==> idx[k] < idx[l]) &&
            (forall i :: 0 <= i < |features| ==> (i in idx <==> EntryOf(features[i]).Some?))
  {
    SelectedIndicesBounded(features);
    SelectedIndicesComplete(features);
    KeptAtSelected(features);
  }

  /**
   * `parse_alerts_and_severity`: walks the features in order, skips a
   * feature whose severity is not in the table, and appends
   * `(color, geometry)` when the geometry is present.
   */
  method ParseAlertsAndSeverity(alertsJson: AlertsJson) returns (severityOverlays: seq<AlertOverlay>)
    ensures severityOverlays == ParsedAlerts(alertsJson)
  {
    severityOverlays := [];
    if alertsJson.features.Some? {
      var features := alertsJson.features.value;
      for i := 0 to |features|
        invariant severityOverlays == Kept(features[..i])
      {
        assert features[..i + 1][..i] == features[..i];
        var feature := features[i];
        var color := SeverityColor(SeverityOf(feature));
        if color.None? {
          continue;
        }
        if feature.geometry.Some? {
          severityOverlays := severityOverlays + [AlertOverlay(color.value, feature.geometry.value)];
        }
      }
      assert features[..|features|] == features;
    }
  }

  /** A `draw.polygon` call: the projected vertices and the fill colour. */
  datatype Fill = Fill(color: Rgba, points: seq<Point>)

  /** The overlay canvas: its size, the colour it starts filled with, and the fills issued on it. */
  datatype Overlay = Overlay(width: nat, height: nat, background: Rgba, fills: seq<Fill>)

  /** `geom['coordinates'][0]` on a polygon without rings raises IndexError. */
  datatype OverlayError = MissingRing

  /** The canvas starts white with alpha 0: fully transparent. */
  const Transparent := Rgba(255, 255, 255, 0)

  /** The list comprehension projecting every vertex of a ring. */
  function ProjectRing(ring: Ring, b: Bounds, width: nat, height: nat): (points: seq<Point>)
    requires NonDegenerate(b)
    ensures |points| == |ring|
    ensures forall i :: 0 <= i < |ring| ==> points[i] == LatLonToXy(ring[i], b, width, height)
  {
    seq(|ring|, i requires 0 <= i < |ring| => LatLonToXy(ring[i], b, width, height))
  }

  /** The fills of the polygons of a MultiPolygon: one per polygon, of its first ring. */
  function PolygonFills(color: Rgba, polygons: seq<seq<Ring>>, b: Bounds, width: nat, height: nat): (r: Result<seq<Fill>, OverlayError>)
    requires NonDegenerate(b)
    ensures r.Ok? ==> |r.value| == |polygons|
    ensures r.Ok? ==> forall f :: f in r.value ==> f.color == color
    decreases |polygons|
  {
    if polygons == [] then Ok([])
    else
      var n := |polygons| - 1;
      match PolygonFills(color, polygons[..n], b, width, height)
      case Err(e) => Err(e)
      case Ok(fills) =>
        if polygons[n] == [] then Err(MissingRing)
        else Ok(fills + [Fill(color, ProjectRing(polygons[n][0], b, width, height))])
  }

  /** The fills one alert issues, by geometry type. */
  function AlertFills(alert: AlertOverlay, b: Bounds, width: nat, height: nat): (r: Result<seq<Fill>, OverlayError>)
    requires NonDegenerate(b)
    ensures r.Ok? ==> |r.value| == FillCount(alert)
    ensures r.Ok? ==> forall f :: f in r.value ==> f.color == alert.color
  {
    match alert.geometry
    case Polygon(rings) =>
      if rings == [] then Err(MissingRing) else Ok([Fill(alert.color, ProjectRing(rings[0], b, width, height))])
    case MultiPolygon(polygons) => PolygonFills(alert.color, polygons, b, width, height)
    case OtherGeometry(_) => Ok([])
  }

  /** The fills of a list of alerts: each alert's fills, in alert order. */
  function OverlayFills(alerts: seq<AlertOverlay>, b: Bounds, width: nat, height: nat): (r: Result<seq<Fill>, OverlayError>)
    requires NonDegenerate(b)
    ensures r.Ok? ==> |r.value| == TotalFillCount(alerts)
    decreases |alerts|
  {
    if alerts == [] then Ok([])
    else
      var n := |alerts| - 1;
      match OverlayFills(alerts[..n], b, width, height)
      case Err(e) => Err(e)
      case Ok(fills) =>
        match AlertFills(alerts[n], b, width, height)
        case Err(e) => Err(e)
        case Ok(more) => Ok(fills + more)
  }

  /**
   * What `create_alert_overlay` produces: a fully transparent canvas of the
   * requested size carrying the alerts' fills, or the IndexError.
   */
  function AlertOverlayImage(alerts: seq<AlertOverlay>, b: Bounds, width: nat, height: nat): (r: Result<Overlay, OverlayError>)
    requires NonDegenerate(b)
    ensures r.Ok? <==> OverlayFills(alerts, b, width, height).Ok?
    ensures r.Ok? ==> r.value.width == width && r.value.height == height && r.value.background.a == 0
  {
    match OverlayFills(alerts, b, width, height)
    case Err(e) => Err(e)
    case Ok(fills) => Ok(Overlay(width, height, Transparent, fills))
  }

  lemma {:induction false} PolygonFillsErrPersists(color: Rgba, polygons: seq<seq<Ring>>, i: nat, b: Bounds, width: nat, height: nat)
    requires NonDegenerate(b) && i <= |polygons|
    requires PolygonFills(color, polygons[..i], b, width, height).Err?
    ensures PolygonFills(color, polygons, b, width, height).Err?
    decreases |polygons|
  {
    if i < |polygons| {
      var n := |polygons| - 1;
      assert polygons[..n][..i] == polygons[..i];
      PolygonFillsErrPersists(color, polygons[..n], i, b, width, height);
    } else {
      assert polygons[..i] == polygons;
    }
  }

  lemma {:induction false} OverlayFillsErrPersists(alerts: seq<AlertOverlay>, i: nat, b: Bounds, width: nat, height: nat)
    requires NonDegenerate(b) && i <= |alerts|
    requires OverlayFills(alerts[..i], b, width, height).Err?
    ensures OverlayFills(alerts, b, width, height).Err?
    decreases |alerts|
  {
    if i < |alerts| {
      var n := |alerts| - 1;
      assert alerts[..n][..i] == alerts[..i];
      OverlayFillsErrPersists(alerts[..n], i, b, width, height);
    } else {
      assert alerts[..i] == alerts;
    }
  }

  /**
   * `create_alert_overlay`: starts from a transparent canvas and, alert by
   * alert, fills the first ring of a Polygon, or the first ring of every
   * polygon of a MultiPolygon, in the alert's colour; other geometry types
   * draw nothing. A polygon without rings raises (IndexError).
   */
  method CreateAlertOverlay(overlays: seq<AlertOverlay>, mapBounds: Bounds, width: nat, height: nat)
    returns (r: Result<Overlay, OverlayError>)
    requires NonDegenerate(mapBounds)
    ensures r == AlertOverlayImage(overlays, mapBounds, width, height)
  {
    var fills: seq<Fill> := [];
    for i := 0 to |overlays|
      invariant OverlayFills(overlays[..i], mapBounds, width, height) == Ok(fills)
    {
      assert overlays[..i + 1][..i] == overlays[..i] && overlays[..i + 1][i] == overlays[i];
      var color, geom := overlays[i].color, overlays[i].geometry;
      match geom {
        case Polygon(rings) =>
          if rings == [] {
            assert AlertFills(overlays[i], mapBounds, width, height).Err?;
            assert OverlayFills(overlays[..i + 1], mapBounds, width, height).Err?;
            OverlayFillsErrPersists(overlays, i + 1, mapBounds, width, height);
            assert OverlayFills(overlays, mapBounds, width, height).error.MissingRing?;
            return Err(MissingRing);
          }
          fills := fills + [Fill(color, ProjectRing(rings[0], mapBounds, width, height))];
          assert AlertFills(overlays[i], mapBounds, width, height) == Ok([fills[|fills| - 1]]);
        case MultiPolygon(polygons) =>
          ghost var before := fills;
          ghost var drawn: seq<Fill> := [];
          for j := 0 to |polygons|
            invariant fills == before + drawn
            invariant PolygonFills(color, polygons[..j], mapBounds, width, height) == Ok(drawn)
          {
            assert polygons[..j + 1][..j] == polygons[..j];
            if polygons[j] == [] {
              PolygonFillsErrPersists(color, polygons, j + 1, mapBounds, width, height);
              assert AlertFills(overlays[i], mapBounds, width, height).Err?;
              assert OverlayFills(overlays[..i + 1], mapBounds, width, height).Err?;
              OverlayFillsErrPersists(overlays, i + 1, mapBounds, width, height);
              assert OverlayFills(overlays, mapBounds, width, height).error.MissingRing?;
              return Err(MissingRing);
            }
            var fill := Fill(color, ProjectRing(polygons[j][0], mapBounds, width, height));
            fills := fills + [fill];
            drawn := drawn + [fill];
          }
          assert polygons[..|polygons|] == polygons;
          assert AlertFills(overlays[i], mapBounds, width, height) == Ok(drawn);
        case OtherGeometry(_) =>
          assert AlertFills(overlays[i], mapBounds, width, height) == Ok([]);
          assert fills + [] == fills;
      }
    }
    assert overlays[..|overlays|] == overlays;
    r := Ok(Overlay(width, height, Transparent, fills));
  }

  /**
   * A MultiPolygon issues one fill per member polygon, in order, each of
   * that polygon's first ring in the alert's colour; it fails exactly when
   * some member polygon has no ring.
   */
  lemma {:induction false} PolygonFillsPerPolygon(color: Rgba, polygons: seq<seq<Ring>>, b: Bounds, width: nat, height: nat)
    requires NonDegenerate(b)
    ensures var r := PolygonFills(color, polygons, b, width, height);
            r.Ok? <==> forall k :: 0 <= k < |polygons| ==> polygons[k] != []
    ensures var r := PolygonFills(color, polygons, b, width, height);
            r.Ok? ==> |r.value| == |polygons| &&
                      forall k :: 0 <= k < |polygons| ==> r.value[k] == Fill(color, ProjectRing(polygons[k][0], b, width, height))
    decreases |polygons|
  {
    if polygons != [] {
      var n := |polygons| - 1;
      PolygonFillsPerPolygon(color, polygons[..n], b, width, height);
      assert forall k :: 0 <= k < n ==> polygons[..n][k] == polygons[k];
    }
  }

  /** How many fills an alert issues when none of its polygons lacks a ring. */
  function FillCount(alert: AlertOverlay): nat
  {
    match alert.geometry
    case Polygon(_) => 1
    case MultiPolygon(polygons) => |polygons|
    case OtherGeometry(_) => 0
  }

  /** The ring whose projection the k-th fill of an alert draws. */
  function FilledRing(alert: AlertOverlay, k: nat): Ring
  {
    match alert.geometry
    case Polygon(rings) => if rings != [] then rings[0] else []
    case MultiPolygon(polygons) => if k < |polygons| && polygons[k] != [] then polygons[k][0] else []
    case OtherGeometry(_) => []
  }

  /**
   * The dispatch on geometry type: a Polygon issues one fill, a
   * MultiPolygon one per member polygon, any other type none; the k-th fill
   * projects the matching first ring and uses the alert's colour.
   */
  lemma AlertFillsByGeometry(alert: AlertOverlay, b: Bounds, width: nat, height: nat)
    requires NonDegenerate(b)
    ensures alert.geometry.OtherGeometry? ==> AlertFills(alert, b, width, height) == Ok([])
    ensures alert.geometry.Polygon? ==> (AlertFills(alert, b, width, height).Ok? <==> alert.geometry.rings != [])
    ensures alert.geometry.MultiPolygon? ==>
              (AlertFills(alert, b, width, height).Ok? <==> forall k :: 0 <= k < |alert.geometry.polygons| ==> alert.geometry.polygons[k] != [])
    ensures var r := AlertFills(alert, b, width, height);
            r.Ok? ==> |r.value| == FillCount(alert) &&
                      forall k :: 0 <= k < |r.value| ==>
                        r.value[k] == Fill(alert.color, ProjectRing(FilledRing(alert, k), b, width, height))
  {
    if alert.geometry.MultiPolygon? {
      PolygonFillsPerPolygon(alert.color, alert.geometry.polygons, b, width, height);
    }
  }

  /** The number of fills a list of alerts issues. */
  function TotalFillCount(alerts: seq<AlertOverlay>): nat
    decreases |alerts|
  {
    if alerts == [] then 0 else TotalFillCount(alerts[..|alerts| - 1]) + FillCount(alerts[|alerts| - 1])
  }

  /** Where the fills of the alert at position `i` start: the fills issued before it. */
  function FillStart(alerts: seq<AlertOverlay>, i: nat): nat
    requires i <= |alerts|
  {
    TotalFillCount(alerts[..i])
  }

  /**
   * The overlay succeeds exactly when every alert's fills do; it then holds
   * every alert's fills, alert after alert in list order (the i-th alert's
   * fills are the slice between the counts of the alerts before it and up
   * to it), so as many as the alerts' counts add up to, each in the colour
   * of one of the alerts.
   */
  lemma {:induction false} OverlayFillsAllAlerts(alerts: seq<AlertOverlay>, b: Bounds, width: nat, height: nat)
    requires NonDegenerate(b)
    ensures var r := OverlayFills(alerts, b, width, height);
            r.Ok? <==> forall i :: 0 <= i < |alerts| ==> AlertFills(alerts[i], b, width, height).Ok?
    ensures var r := OverlayFills(alerts, b, width, height);
            r.Ok? ==> |r.value| == TotalFillCount(alerts) &&
                      forall k :: 0 <= k < |r.value| ==> exists i :: 0 <= i < |alerts| && r.value[k].color == alerts[i].color
    decreases |alerts|
  {
    if alerts != [] {
      var n := |alerts| - 1;
      var last := alerts[n];
      OverlayFillsAllAlerts(alerts[..n], b, width, height);
      AlertFillsByGeometry(last, b, width, height);
      assert forall i :: 0 <= i < n ==> alerts[..n][i] == alerts[i];
      var r := OverlayFills(alerts, b, width, height);
      if r.Ok? {
        var prev := OverlayFills(alerts[..n], b, width, height).value;
        var more := AlertFills(last, b, width, height).value;
        assert r.value == prev + more;
        forall k | 0 <= k < |r.value|
          ensures exists i :: 0 <= i < |alerts| && r.value[k].color == alerts[i].color
        {
          if k < |prev| {
            var i :| 0 <= i < n && prev[k].color == alerts[..n][i].color;
            assert r.value[k].color == alerts[i].color;
          } else {
            assert r.value[k] == more[k - |prev|];
            assert r.value[k].color == alerts[n].color;
          }
        }
      }
    }
  }

  /**
   * When the overlay succeeds, so does every prefix of the alert list, and
   * its fills are the overlay's fills up to where the next alert's start.
   */
  lemma {:induction false} OverlayFillsPrefix(alerts: seq<AlertOverlay>, j: nat, b: Bounds, width: nat, height: nat)
    requires NonDegenerate(b) && j <= |alerts|
    requires OverlayFills(alerts, b, width, height).Ok?
    ensures OverlayFills(alerts[..j], b, width, height).Ok?
    ensures FillStart(alerts, j) <= |OverlayFills(alerts, b, width, height).value|
    ensures OverlayFills(alerts[..j], b, width, height).value == OverlayFills(alerts, b, width, height).value[..FillStart(alerts, j)]
    decreases |alerts|
  {
    var r := OverlayFills(alerts, b, width, height).value;
    if j == |alerts| {
      assert alerts[..j] == alerts;
    } else {
      var n := |alerts| - 1;
      var prev := OverlayFills(alerts[..n], b, width, height).value;
      assert r == prev + AlertFills(alerts[n], b, width, height).value;
      OverlayFillsPrefix(alerts[..n], j, b, width, height);
      assert alerts[..n][..j] == alerts[..j];
      assert FillStart(alerts[..n], j) == FillStart(alerts, j);
      assert prev[..FillStart(alerts, j)] == r[..FillStart(alerts, j)];
    }
  }

  /** The fills of the alert at position `i` are the `FillCount` fills from its start on. */
  lemma AlertFillsSlice(alerts: seq<AlertOverlay>, i: nat, b: Bounds, width: nat, height: nat)
    requires NonDegenerate(b) && i < |alerts|
    requires OverlayFills(alerts, b, width, height).Ok?
    ensures AlertFills(alerts[i], b, width, height).Ok?
    ensures FillStart(alerts, i) + FillCount(alerts[i]) <= |OverlayFills(alerts, b, width, height).value|
    ensures OverlayFills(alerts, b, width, height).value[FillStart(alerts, i)..FillStart(alerts, i) + FillCount(alerts[i])]
              == AlertFills(alerts[i], b, width, height).value
  {
    var r := OverlayFills(alerts, b, width, height).value;
    OverlayFillsPrefix(alerts, i, b, width, height);
    OverlayFillsPrefix(alerts, i + 1, b, width, height);
    assert alerts[..i + 1][..i] == alerts[..i] && alerts[..i + 1][i] == alerts[i];
    var before := OverlayFills(alerts[..i], b, width, height).value;
    var own := AlertFills(alerts[i], b, width, height).value;
    assert r[..FillStart(alerts, i + 1)] == before + own;
    assert r[FillStart(alerts, i)..FillStart(alerts, i + 1)] == (before + own)[|before|..];
  }

  /**
   * The fills come alert after alert, in list order: the fills of the alert
   * at position `i` are exactly the `FillCount` fills that follow the fills
   * of the alerts before it.
   */
  lemma OverlayFillsInAlertOrder(alerts: seq<AlertOverlay>, b: Bounds, width: nat, height: nat)
    requires NonDegenerate(b)
    ensures OverlayFills(alerts, b, width, height).Ok? ==>
              forall i :: 0 <= i < |alerts| ==>
                AlertFills(alerts[i], b, width, height).Ok? &&
                FillStart(alerts, i) + FillCount(alerts[i]) <= |OverlayFills(alerts, b, width, height).value| &&
                OverlayFills(alerts, b, width, height).value[FillStart(alerts, i)..FillStart(alerts, i) + FillCount(alerts[i])]
                  == AlertFills(alerts[i], b, width, height).value
  {
    if OverlayFills(alerts, b, width, height).Ok? {
      forall i | 0 <= i < |alerts|
        ensures AlertFills(alerts[i], b, width, height).Ok?
        ensures FillStart(alerts, i) + FillCount(alerts[i]) <= |OverlayFills(alerts, b, width, height).value|
        ensures OverlayFills(alerts, b, width, height).value[FillStart(alerts, i)..FillStart(alerts, i) + FillCount(alerts[i])]
                  == AlertFills(alerts[i], b, width, height).value
      {
        AlertFillsSlice(alerts, i, b, width, height);
      }
    }
  }

  /** A document without a `features` key produces a transparent overlay with no fills. */
  lemma NoFeaturesNoFills(b: Bounds, width: nat, height: nat)
    requires NonDegenerate(b)
    ensures AlertOverlayImage(ParsedAlerts(AlertsJson(None)), b, width, height) == Ok(Overlay(width, height, Transparent, []))
  {
  }

  /**
   * A single Severe polygon alert ends up as one red fill at alpha 128 of its
   * projected outer ring; a second feature with an unknown severity adds nothing.
   */
  lemma SeverePolygonScenario(ring: Ring, other: Geometry, b: Bounds, width: nat, height: nat)
    requires NonDegenerate(b)
    ensures var doc := AlertsJson(Some([Feature(Some("Severe"), Some(Polygon([ring]))), Feature(Some("Unknown"), Some(other))]));
            AlertOverlayImage(ParsedAlerts(doc), b, width, height) ==
              Ok(Overlay(width, height, Transparent, [Fill(Rgba(255, 0, 0, 128), ProjectRing(ring, b, width, height))]))
  {
    var features := [Feature(Some("Severe"), Some(Polygon([ring]))), Feature(Some("Unknown"), Some(other))];
    var alert := AlertOverlay(SevereColor, Polygon([ring]));
    assert "Unknown" !in KnownSeverities;
    assert EntryOf(features[1]) == None;
    assert EntryOf(features[0]) == Some(alert);
    assert features[..1][..0] == [];
    assert Kept(features[..1]) == [alert];
    assert Kept(features) == [alert];
    assert [alert][..0] == [];
    assert [Polygon([ring])][0] == Polygon([ring]) && [ring] != [] && [ring][0] == ring;
    assert AlertFills(alert, b, width, height) == Ok([Fill(SevereColor, ProjectRing(ring, b, width, height))]);
    assert OverlayFills([alert][..0], b, width, height) == Ok([]);
    var fill := Fill(SevereColor, ProjectRing(ring, b, width, height));
    assert [alert][|[alert]| - 1] == alert && [] + [fill] == [fill];
    assert OverlayFills([alert], b, width, height) == Ok([Fill(SevereColor, ProjectRing(ring, b, width, height))]);
  }
}
