/** The slice of GeoJSON (RFC 7946) the dashboard produces and the map consumes: a
    FeatureCollection of Polygon features with the hex properties the fill layer reads. */
module GeoJson {
  import opened Common

  /** A position is `[longitude, latitude]`, longitude first (section 3.1.1 of RFC 7946). */
  type Position = seq<real>

  /** A Polygon's coordinates are a list of linear rings; a ring is a list of positions. */
  datatype Geometry = Polygon(coordinates: seq<seq<Position>>)

  /** `density` is optional: the fill layer tests for its presence. */
  datatype Properties = Properties(density: Option<real>, hexId: string, coordinates: Position)

  datatype Feature = Feature(geometry: Geometry, properties: Properties)

  datatype FeatureCollection = FeatureCollection(features: seq<Feature>)

  const EmptyCollection: FeatureCollection := FeatureCollection([])

  /** A closed linear ring: at least four positions, the last equal to the first
      (section 3.1.6 of RFC 7946). */
  predicate ClosedRing(ring: seq<Position>) {
    |ring| >= 4 && ring[|ring| - 1] == ring[0]
  }
}
