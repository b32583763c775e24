/** The professionals' dataset: GeoJSON point features with a flexible
    attribute set. */
module Features {
  import opened JsValues
  import opened FieldResolver

  /** A point `[lon, lat]`, in fixed-point degrees. */
  datatype Coord = Coord(lon: int, lat: int)

  /** One professional: `properties` may be missing or `null`. */
  datatype Feature = Feature(properties: Option<Props>, location: Coord)

  /** `f.properties || {}` */
  function PropsOf(f: Feature): Props {
    if f.properties.Some? then f.properties.value else map[]
  }

  /** `getProp(f.properties || {}, k)` */
  function FieldOf(f: Feature, k: string): string {
    Resolve(Some(PropsOf(f)), k)
  }
}
