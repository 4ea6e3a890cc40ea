/** The appearance store of a CityJSON document: materials and textures
    deduplicated on insertion, texture (uv) vertices appended, and the
    range checks that gate every insertion. Floating-point values are
    modelled as reals. */
module Appearances {
  import opened Wrappers

  datatype Material = Material(
    name: string,
    ambientIntensity: Option<real>,
    diffuseColor: Option<seq<real>>,
    emissiveColor: Option<seq<real>>,
    specularColor: Option<seq<real>>,
    shininess: Option<real>,
    transparency: Option<real>,
    isSmooth: Option<bool>)

  datatype TextFormat = Png | Jpg
  datatype WrapMode = NoWrap | Wrap | Mirror | Clamp | Border
  datatype TextType = Unknown | Specific | Typical

  datatype Texture = Texture(
    format: TextFormat,
    image: string,
    wrapMode: Option<WrapMode>,
    textureType: Option<TextType>,
    borderColor: Option<seq<real>>)

  /** A texture vertex `[u, v]`. */
  datatype Uv = Uv(u: real, v: real)

  datatype Appearance = Appearance(
    materials: Option<seq<Material>>,
    textures: Option<seq<Texture>>,
    verticesTexture: Option<seq<Uv>>,
    defaultThemeTexture: Option<string>,
    defaultThemeMaterial: Option<string>)

  /** `Appearance::new`: every part absent. */
  const EmptyAppearance: Appearance := Appearance(None, None, None, None, None)

  /** `CjseqError::InvalidValue`, keeping the offending field's name. */
  datatype AppearanceError = InvalidValue(field: string)

  // ---------------------------------------------------------------------
  // Validation
  // ---------------------------------------------------------------------

  /** `(0.0..=1.0).contains(&x)` */
  predicate InUnit(x: real) {
    0.0 <= x <= 1.0
  }

  predicate OptInUnit(x: Option<real>) {
    x.None? || InUnit(x.value)
  }

  predicate OptColorInUnit(c: Option<seq<real>>) {
    c.None? || forall i :: 0 <= i < |c.value| ==> InUnit(c.value[i])
  }

  /** Every present intensity, colour component, shininess and transparency
      lies in [0, 1]. */
  predicate MaterialValid(m: Material) {
    && OptInUnit(m.ambientIntensity)
    && OptColorInUnit(m.diffuseColor)
    && OptColorInUnit(m.emissiveColor)
    && OptColorInUnit(m.specularColor)
    && OptInUnit(m.shininess)
    && OptInUnit(m.transparency)
  }

  /** `MaterialObject::validate`: the checks run in field order and the
      first that fails names its field. */
  function ValidateMaterial(m: Material): (r: Outcome<AppearanceError>)
    ensures r.Pass? <==> MaterialValid(m)
    ensures r.Fail? ==> (r.error.field in
      ["ambient_intensity", "diffuse_color", "emissive_color", "specular_color", "shininess", "transparency"])
    ensures r == Fail(InvalidValue("ambient_intensity")) <==> !OptInUnit(m.ambientIntensity)
    ensures r == Fail(InvalidValue("transparency")) <==>
      (OptInUnit(m.ambientIntensity) && OptColorInUnit(m.diffuseColor) && OptColorInUnit(m.emissiveColor)
       && OptColorInUnit(m.specularColor) && OptInUnit(m.shininess) && !OptInUnit(m.transparency))
  {
    if !OptInUnit(m.ambientIntensity) then Fail(InvalidValue("ambient_intensity"))
    else if !OptColorInUnit(m.diffuseColor) then Fail(InvalidValue("diffuse_color"))
    else if !OptColorInUnit(m.emissiveColor) then Fail(InvalidValue("emissive_color"))
    else if !OptColorInUnit(m.specularColor) then Fail(InvalidValue("specular_color"))
    else if !OptInUnit(m.shininess) then Fail(InvalidValue("shininess"))
    else if !OptInUnit(m.transparency) then Fail(InvalidValue("transparency"))
    else Pass
  }

  /** `TextureObject::validate`: every present border-colour component lies
      in [0, 1]. */
  function ValidateTexture(t: Texture): (r: Outcome<AppearanceError>)
    ensures r.Pass? <==> OptColorInUnit(t.borderColor)
    ensures r.Fail? ==> r.error == InvalidValue("border_color")
  {
    if OptColorInUnit(t.borderColor) then Pass else Fail(InvalidValue("border_color"))
  }

  // ---------------------------------------------------------------------
  // Dedup-on-insert
  // ---------------------------------------------------------------------

  /** The position of the first material called `name`, if any
      (`iter().position(|e| e.name == value.name)`). */
  function FindMaterial(ms: seq<Material>, name: string): (r: Option<nat>)
    ensures r.Some? ==> r.value < |ms| && ms[r.value].name == name
                        && forall j :: 0 <= j < r.value ==> ms[j].name != name
    ensures r.None? <==> forall j :: 0 <= j < |ms| ==> ms[j].name != name
  {
    if |ms| == 0 then None
    else if ms[0].name == name then Some(0)
    else match FindMaterial(ms[1..], name)
      case Some(k) => Some(k + 1)
      case None => None
  }

  /** The position of the first texture with image `image`, if any. */
  function FindTexture(ts: seq<Texture>, image: string): (r: Option<nat>)
    ensures r.Some? ==> r.value < |ts| && ts[r.value].image == image
                        && forall j :: 0 <= j < r.value ==> ts[j].image != image
    ensures r.None? <==> forall j :: 0 <= j < |ts| ==> ts[j].image != image
  {
    if |ts| == 0 then None
    else if ts[0].image == image then Some(0)
    else match FindTexture(ts[1..], image)
      case Some(k) => Some(k + 1)
      case None => None
  }

  /** `Appearance::add_material`: a material failing validation panics;
      otherwise the position of the first material with the same name is
      returned and nothing changes, or the material is appended and its
      position returned. An absent list starts as `[m]`. */
  function AddMaterial(a: Appearance, m: Material): (r: Result<(Appearance, nat), AppearanceError>)
    ensures r.Failure? <==> !MaterialValid(m)
    ensures r.Failure? ==> Fail(r.error) == ValidateMaterial(m)
    ensures r.Success? ==>
      var (a', k) := r.value;
      var ms := a.materials.GetOr([]);
      && a'.materials.Some?
      && k < |a'.materials.value|
      && a'.materials.value[k].name == m.name
      && (forall j :: 0 <= j < k ==> a'.materials.value[j].name != m.name)
      && |ms| <= |a'.materials.value|
      && a'.materials.value[..|ms|] == ms
      && (|a'.materials.value| == |ms| || (a'.materials.value == ms + [m] && k == |ms|))
      && a' == a.(materials := a'.materials)
  {
    match ValidateMaterial(m)
    case Fail(e) => Failure(e)
    case Pass =>
      match a.materials
      case None => Success((a.(materials := Some([m])), 0))
      case Some(ms) =>
        match FindMaterial(ms, m.name)
        case Some(k) => Success((a, k))
        case None => Success((a.(materials := Some(ms + [m])), |ms|))
  }

  /** `Appearance::add_texture`: as `AddMaterial`, keyed on `image`. */
  function AddTexture(a: Appearance, t: Texture): (r: Result<(Appearance, nat), AppearanceError>)
    ensures r.Failure? <==> !OptColorInUnit(t.borderColor)
    ensures r.Failure? ==> r.error == InvalidValue("border_color")
    ensures r.Success? ==>
      var (a', k) := r.value;
      var ts := a.textures.GetOr([]);
      && a'.textures.Some?
      && k < |a'.textures.value|
      && a'.textures.value[k].image == t.image
      && (forall j :: 0 <= j < k ==> a'.textures.value[j].image != t.image)
      && |ts| <= |a'.textures.value|
      && a'.textures.value[..|ts|] == ts
      && (|a'.textures.value| == |ts| || (a'.textures.value == ts + [t] && k == |ts|))
      && a' == a.(textures := a'.textures)
  {
    match ValidateTexture(t)
    case Fail(e) => Failure(e)
    case Pass =>
      match a.textures
      case None => Success((a.(textures := Some([t])), 0))
      case Some(ts) =>
        match FindTexture(ts, t.image)
        case Some(k) => Success((a, k))
        case None => Success((a.(textures := Some(ts + [t])), |ts|))
  }

  /** `Appearance::add_vertices_texture`: `vs` is appended after the
      existing uv vertices, in order. */
  function AddVerticesTexture(a: Appearance, vs: seq<Uv>): (r: Appearance)
    ensures r.verticesTexture.Some?
    ensures var prior := a.verticesTexture.GetOr([]);
      && |r.verticesTexture.value| == |prior| + |vs|
      && r.verticesTexture.value[..|prior|] == prior
      && r.verticesTexture.value[|prior|..] == vs
    ensures r == a.(verticesTexture := r.verticesTexture)
  {
    match a.verticesTexture
    case Some(x) => a.(verticesTexture := Some(x + vs))
    case None => a.(verticesTexture := Some(vs))
  }

  /** No two materials share a name. */
  predicate NamesDistinct(ms: seq<Material>) {
    forall i, j :: 0 <= i < j < |ms| ==> ms[i].name != ms[j].name
  }

  /** No two textures share an image. */
  predicate ImagesDistinct(ts: seq<Texture>) {
    forall i, j :: 0 <= i < j < |ts| ==> ts[i].image != ts[j].image
  }

  /** A store built by `AddMaterial` alone keeps names distinct. */
  lemma AddMaterialKeepsNamesDistinct(a: Appearance, m: Material)
    requires NamesDistinct(a.materials.GetOr([]))
    requires AddMaterial(a, m).Success?
    ensures NamesDistinct(AddMaterial(a, m).value.0.materials.value)
  {
    var ms := a.materials.GetOr([]);
    if a.materials.Some? && FindMaterial(ms, m.name).None? {
      var ms' := ms + [m];
      forall i, j | 0 <= i < j < |ms'| ensures ms'[i].name != ms'[j].name {
        if j == |ms| {
          assert ms'[i] == ms[i];
        } else {
          assert ms'[i] == ms[i] && ms'[j] == ms[j];
        }
      }
    }
  }

  /** A store built by `AddTexture` alone keeps images distinct. */
  lemma AddTextureKeepsImagesDistinct(a: Appearance, t: Texture)
    requires ImagesDistinct(a.textures.GetOr([]))
    requires AddTexture(a, t).Success?
    ensures ImagesDistinct(AddTexture(a, t).value.0.textures.value)
  {
    var ts := a.textures.GetOr([]);
    if a.textures.Some? && FindTexture(ts, t.image).None? {
      var ts' := ts + [t];
      forall i, j | 0 <= i < j < |ts'| ensures ts'[i].image != ts'[j].image {
        if j == |ts| {
          assert ts'[i] == ts[i];
        } else {
          assert ts'[i] == ts[i] && ts'[j] == ts[j];
        }
      }
    }
  }

  /** Inserting the same material twice: the second insertion changes
      nothing and returns the first insertion's position. */
  lemma AddMaterialIdempotent(a: Appearance, m: Material)
    requires AddMaterial(a, m).Success?
    ensures var (a1, k1) := AddMaterial(a, m).value;
      AddMaterial(a1, m) == Success((a1, k1))
  {
  }

  /** Inserting the same texture twice: the second insertion changes
      nothing and returns the first insertion's position. */
  lemma AddTextureIdempotent(a: Appearance, t: Texture)
    requires AddTexture(a, t).Success?
    ensures var (a1, k1) := AddTexture(a, t).value;
      AddTexture(a1, t) == Success((a1, k1))
  {
  }
}
