/**
 The map's feature buffer (`vectorSourceRef.current`): an ordered collection
 of features that the editor clears and appends to.
 */
module Features {
  import opened Geometry

  /** A feature as the editor creates it. Endpoints and marker positions are entries read as points. */
  datatype Feature =
    | Marker(at: Slot, text: string)   // a Point geometry with its 'label' property
    | Area(ring: seq<Point>)           // a Polygon geometry
    | Line(from: Slot, to: Slot)       // a two-vertex LineString geometry

  class FeatureSource {
    var features: seq<Feature>

    constructor()
      ensures features == []
    {
      features := [];
    }

    /** `clear()`: removes every feature. */
    method Clear()
      modifies this
      ensures features == []
    {
      features := [];
    }

    /** `addFeature(f)`: appends one feature. */
    method AddFeature(f: Feature)
      modifies this
      ensures features == old(features) + [f]
    {
      features := features + [f];
    }
  }
}
