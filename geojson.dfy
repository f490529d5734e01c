/**
 * The GeoJSON values (RFC 7946) the core passes around. Coordinates are
 * integers here; see README for what that leaves out.
 */
module GeoJson {
  import opened Wrappers

  /** A position: longitude, latitude, then any further coordinates such as altitude. */
  datatype Position = Position(x: int, y: int, more: seq<int>)

  datatype Geometry =
    | Point(position: Position)
    | MultiPoint(positions: seq<Position>)
    | LineString(line: seq<Position>)
    | MultiLineString(lines: seq<seq<Position>>)
    | Polygon(rings: seq<seq<Position>>)
    | MultiPolygon(polygons: seq<seq<seq<Position>>>)
  {
    /** The geometries a WKT polygon filter can be built from. */
    predicate IsSurface() { Polygon? || MultiPolygon? }
  }

  /** A JSON value held in a feature's `properties` or `id`. */
  datatype Value = Null | Bool(b: bool) | Num(n: int) | Str(s: string)

  type Properties = map<string, Value>

  /** A GeoJSON Feature; `geometry` and `properties` may be null. */
  datatype Feature = Feature(geometry: Option<Geometry>, properties: Option<Properties>, id: Option<Value>)

  predicate IsPolygonFeature(f: Feature)
  {
    f.geometry.Some? && f.geometry.value.Polygon?
  }

  predicate IsSurfaceFeature(f: Feature)
  {
    f.geometry.Some? && f.geometry.value.IsSurface()
  }

  /** The area of interest: a `Feature<Polygon>`. */
  type AOI = f: Feature | IsPolygonFeature(f) witness Feature(Some(Polygon([])), None, None)

  datatype FeatureCollection = FeatureCollection(features: seq<Feature>)
}
