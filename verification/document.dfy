/** A CityJSON document and a CityJSONFeature, the two shapes the library
    converts between. `CityObjects` is a `HashMap<String, CityObject>`;
    where an operation walks it, the walk order is an explicit parameter
    (`order`), an arbitrary listing of the map's keys. */
module Documents {
  import opened Wrappers
  import opened Json
  import opened Appearances
  import opened Geometries
  import opened CityObjects
  import opened Sequences

  /** A vertex: three integer coordinates. */
  datatype Vertex = Vertex(x: int, y: int, z: int)

  datatype Transform = Transform(scale: seq<real>, translate: seq<real>)

  /** `Transform::new` */
  const DefaultTransform: Transform := Transform([1.0, 1.0, 1.0], [0.0, 0.0, 0.0])

  datatype GeometryTemplates = GeometryTemplates(templates: seq<Geometry>, verticesTemplates: seq<seq<real>>)

  datatype Extension = Extension(url: string, version: string)

  /** `CityJSON`; `sortedIds` is the feature order of the split, which is
      not serialised. */
  datatype CityJSON = CityJSON(
    thetype: string,
    version: string,
    transform: Transform,
    cityObjects: map<string, CityObject>,
    vertices: seq<Vertex>,
    metadata: Option<Json>,
    appearance: Option<Appearance>,
    geometryTemplates: Option<GeometryTemplates>,
    extensions: Option<seq<(string, Extension)>>,
    other: Json,
    sortedIds: seq<string>)

  datatype CityJSONFeature = CityJSONFeature(
    thetype: string,
    id: string,
    cityObjects: map<string, CityObject>,
    vertices: seq<Vertex>,
    appearance: Option<Appearance>,
    extensions: Option<seq<(string, Extension)>>)

  /** `CityJSON::new` */
  const NewCityJSON: CityJSON :=
    CityJSON("CityJSON", "2.0", DefaultTransform, map[], [], None, None, None, None, JNull, [])

  /** `CityJSONFeature::new` */
  const NewFeature: CityJSONFeature :=
    CityJSONFeature("CityJSONFeature", "", map[], [], None, None)

  /** `order` lists every key of `m` exactly once. */
  predicate IsOrderOf<V>(order: seq<string>, m: map<string, V>) {
    && Distinct(order)
    && (forall i :: 0 <= i < |order| ==> order[i] in m)
    && (forall k :: k in m ==> k in order)
  }
}
