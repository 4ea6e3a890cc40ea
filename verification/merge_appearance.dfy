/** The appearance half of `CityJSON::add_cjfeature`: the feature's
    materials and textures are inserted into the document's, deduplicated
    by name and image, and its uv vertices are appended; the tables the
    insertions produce send each feature material and texture to the
    document's. */
module MergeAppearance {
  import opened Wrappers
  import opened Remap
  import opened NestedArrays
  import opened Appearances
  import opened Geometries
  import opened CityObjects
  import opened Documents
  import opened Sequences
  import opened ObjectRemap

  // ---------------------------------------------------------------------
  // The appearance lists of an optional appearance
  // ---------------------------------------------------------------------

  function MaterialsOf(oa: Option<Appearance>): seq<Material> {
    oa.GetOr(EmptyAppearance).materials.GetOr([])
  }

  function TexturesOf(oa: Option<Appearance>): seq<Texture> {
    oa.GetOr(EmptyAppearance).textures.GetOr([])
  }

  function UvsOf(oa: Option<Appearance>): seq<Uv> {
    oa.GetOr(EmptyAppearance).verticesTexture.GetOr([])
  }

  /** Feature material `v` is translated by `t` to a document material
      with the same name. */
  ghost predicate MaterialAt(t: Table, v: nat, m: Material, dms: seq<Material>) {
    v in t && t[v] < |dms| && dms[t[v]].name == m.name
  }

  /** Feature texture `v` is translated by `t` to a document texture with
      the same image. */
  ghost predicate TextureAt(t: Table, v: nat, x: Texture, dts: seq<Texture>) {
    v in t && t[v] < |dts| && dts[t[v]].image == x.image
  }

  /** Every feature material is translated to one of the same name. */
  ghost predicate MaterialsDenote(t: Table, fms: seq<Material>, dms: seq<Material>) {
    forall v :: 0 <= v < |fms| ==> MaterialAt(t, v, fms[v], dms)
  }

  /** Every feature texture is translated to one of the same image. */
  ghost predicate TexturesDenote(t: Table, fts: seq<Texture>, dts: seq<Texture>) {
    forall v :: 0 <= v < |fts| ==> TextureAt(t, v, fts[v], dts)
  }

  /** Feature uv vertex `x` becomes document uv vertex `t[x]`, the same
      point. */
  ghost predicate UvsDenote(t: Table, fuvs: seq<Uv>, duvs: seq<Uv>) {
    forall x :: 0 <= x < |fuvs| ==> x in t && t[x] < |duvs| && duvs[t[x]] == fuvs[x]
  }

  // ---------------------------------------------------------------------
  // Inserting the feature's appearance
  // ---------------------------------------------------------------------

  /** `m_oldnew.insert(i, self.add_material(m))` for the materials `ms`,
      the first at index `base`. The document's appearance is created on
      the first insertion; an invalid material panics. */
  function AddMaterials(oa: Option<Appearance>, ms: seq<Material>, base: nat): (r: Result<(Option<Appearance>, Table), AppearanceError>)
    decreases |ms|
  {
    if |ms| == 0 then Success((oa, map[]))
    else
      match AddMaterial(oa.GetOr(EmptyAppearance), ms[0])
      case Failure(e) => Failure(e)
      case Success(p) =>
        match AddMaterials(Some(p.0), ms[1..], base + 1)
        case Failure(e) => Failure(e)
        case Success(q) => Success((q.0, q.1[base := p.1]))
  }

  /** `t_oldnew.insert(i, self.add_texture(t))` for the textures `ts`. */
  function AddTextures(oa: Option<Appearance>, ts: seq<Texture>, base: nat): (r: Result<(Option<Appearance>, Table), AppearanceError>)
    decreases |ts|
  {
    if |ts| == 0 then Success((oa, map[]))
    else
      match AddTexture(oa.GetOr(EmptyAppearance), ts[0])
      case Failure(e) => Failure(e)
      case Success(p) =>
        match AddTextures(Some(p.0), ts[1..], base + 1)
        case Failure(e) => Failure(e)
        case Success(q) => Success((q.0, q.1[base := p.1]))
  }

  /** Inserting materials succeeds exactly when every one is valid. */
  lemma {:induction false} AddMaterialsSucceeds(oa: Option<Appearance>, ms: seq<Material>, base: nat)
    ensures AddMaterials(oa, ms, base).Success? <==> forall j :: 0 <= j < |ms| ==> MaterialValid(ms[j])
    decreases |ms|
  {
    if |ms| > 0 {
      var r1 := AddMaterial(oa.GetOr(EmptyAppearance), ms[0]);
      if r1.Success? {
        AddMaterialsSucceeds(Some(r1.value.0), ms[1..], base + 1);
        assert forall j :: 1 <= j < |ms| ==> ms[j] == ms[1..][j - 1];
      }
    }
  }

  /** The table of a successful insertion has exactly the keys
      `base .. base + |ms| - 1`. */
  lemma {:induction false} AddMaterialsKeys(oa: Option<Appearance>, ms: seq<Material>, base: nat)
    requires AddMaterials(oa, ms, base).Success?
    ensures forall k :: k in AddMaterials(oa, ms, base).value.1 <==> base <= k < base + |ms|
    decreases |ms|
  {
    if |ms| > 0 {
      AddMaterialsKeys(Some(AddMaterial(oa.GetOr(EmptyAppearance), ms[0]).value.0), ms[1..], base + 1);
    }
  }

  /** The document's existing materials keep their positions and nothing but
      the material list changes; the appearance is created by the first
      insertion. */
  lemma {:induction false} AddMaterialsKeepsPrefix(oa: Option<Appearance>, ms: seq<Material>, base: nat)
    requires AddMaterials(oa, ms, base).Success?
    ensures var oa' := AddMaterials(oa, ms, base).value.0;
      && |MaterialsOf(oa)| <= |MaterialsOf(oa')|
      && MaterialsOf(oa')[..|MaterialsOf(oa)|] == MaterialsOf(oa)
      && (|ms| == 0 ==> oa' == oa)
      && (|ms| > 0 ==> oa'.Some? && oa'.value == oa.GetOr(EmptyAppearance).(materials := oa'.value.materials))
    decreases |ms|
  {
    if |ms| > 0 {
      var a1 := AddMaterial(oa.GetOr(EmptyAppearance), ms[0]).value.0;
      AddMaterialsKeepsPrefix(Some(a1), ms[1..], base + 1);
      var mid := a1.materials.value;
      assert MaterialsOf(Some(a1)) == mid;
      var now := MaterialsOf(AddMaterials(oa, ms, base).value.0);
      assert now[..|MaterialsOf(oa)|] == now[..|mid|][..|MaterialsOf(oa)|];
    }
  }

  /** Each inserted material is found again through the table: feature index
      `base + j` names a document material with the name of `ms[j]`. */
  ghost predicate MaterialsFoundFrom(t: Table, base: nat, ms: seq<Material>, now: seq<Material>) {
    forall j :: 0 <= j < |ms| ==> MaterialAt(t, base + j, ms[j], now)
  }

  lemma {:induction false} AddMaterialsFound(oa: Option<Appearance>, ms: seq<Material>, base: nat)
    requires AddMaterials(oa, ms, base).Success?
    ensures MaterialsFoundFrom(AddMaterials(oa, ms, base).value.1, base, ms, MaterialsOf(AddMaterials(oa, ms, base).value.0))
    decreases |ms|
  {
    if |ms| > 0 {
      var r1 := AddMaterial(oa.GetOr(EmptyAppearance), ms[0]).value;
      var a1 := r1.0;
      var k := r1.1;
      assert k < |a1.materials.value| && a1.materials.value[k].name == ms[0].name;
      AddMaterialsFound(Some(a1), ms[1..], base + 1);
      AddMaterialsKeepsPrefix(Some(a1), ms[1..], base + 1);
      var rest := AddMaterials(Some(a1), ms[1..], base + 1).value;
      var now := MaterialsOf(rest.0);
      PrefixAt(now, MaterialsOf(Some(a1)), k);
      assert AddMaterials(oa, ms, base).value == (rest.0, rest.1[base := k]);
      MaterialsFoundStep(rest.1, k, base, ms, ms[1..], base + 1, now);
    }
  }

  /** An element of a prefix is the element of the whole sequence. */
  lemma PrefixAt<T>(s: seq<T>, p: seq<T>, k: nat)
    requires |p| <= |s| && s[..|p|] == p && k < |p|
    ensures s[k] == p[k]
  {
    assert s[..|p|][k] == s[k];
  }

  /** The induction step of `AddMaterialsFound`, on a table and list taken as
      given. */
  lemma MaterialsFoundStep(t2: Table, k: nat, base: nat, ms: seq<Material>, rest: seq<Material>, next: nat, now: seq<Material>)
    requires |ms| > 0 && rest == ms[1..] && next == base + 1
    requires k < |now| && now[k].name == ms[0].name
    requires MaterialsFoundFrom(t2, next, rest, now)
    ensures MaterialsFoundFrom(t2[base := k], base, ms, now)
  {
    forall j | 0 <= j < |ms| ensures MaterialAt(t2[base := k], base + j, ms[j], now) {
      if j > 0 {
        assert ms[j] == ms[1..][j - 1] && base + j == base + 1 + (j - 1);
        assert MaterialAt(t2, base + 1 + (j - 1), ms[1..][j - 1], now);
      }
    }
  }

  /** Inserting textures succeeds exactly when every one is valid. */
  lemma {:induction false} AddTexturesSucceeds(oa: Option<Appearance>, ts: seq<Texture>, base: nat)
    ensures AddTextures(oa, ts, base).Success? <==> forall j :: 0 <= j < |ts| ==> OptColorInUnit(ts[j].borderColor)
    decreases |ts|
  {
    if |ts| > 0 {
      var r1 := AddTexture(oa.GetOr(EmptyAppearance), ts[0]);
      if r1.Success? {
        AddTexturesSucceeds(Some(r1.value.0), ts[1..], base + 1);
        assert forall j :: 1 <= j < |ts| ==> ts[j] == ts[1..][j - 1];
      }
    }
  }

  /** The table of a successful insertion has exactly the keys
      `base .. base + |ts| - 1`. */
  lemma {:induction false} AddTexturesKeys(oa: Option<Appearance>, ts: seq<Texture>, base: nat)
    requires AddTextures(oa, ts, base).Success?
    ensures forall k :: k in AddTextures(oa, ts, base).value.1 <==> base <= k < base + |ts|
    decreases |ts|
  {
    if |ts| > 0 {
      AddTexturesKeys(Some(AddTexture(oa.GetOr(EmptyAppearance), ts[0]).value.0), ts[1..], base + 1);
    }
  }

  /** The document's existing textures keep their positions and nothing but
      the texture list changes; the appearance is created by the first
      insertion. */
  lemma {:induction false} AddTexturesKeepsPrefix(oa: Option<Appearance>, ts: seq<Texture>, base: nat)
    requires AddTextures(oa, ts, base).Success?
    ensures var oa' := AddTextures(oa, ts, base).value.0;
      && |TexturesOf(oa)| <= |TexturesOf(oa')|
      && TexturesOf(oa')[..|TexturesOf(oa)|] == TexturesOf(oa)
      && (|ts| == 0 ==> oa' == oa)
      && (|ts| > 0 ==> oa'.Some? && oa'.value == oa.GetOr(EmptyAppearance).(textures := oa'.value.textures))
    decreases |ts|
  {
    if |ts| > 0 {
      var a1 := AddTexture(oa.GetOr(EmptyAppearance), ts[0]).value.0;
      AddTexturesKeepsPrefix(Some(a1), ts[1..], base + 1);
      var mid := a1.textures.value;
      assert TexturesOf(Some(a1)) == mid;
      var now := TexturesOf(AddTextures(oa, ts, base).value.0);
      assert now[..|TexturesOf(oa)|] == now[..|mid|][..|TexturesOf(oa)|];
    }
  }

  /** Each inserted texture is found again through the table: feature index
      `base + j` names a document texture with the image of `ts[j]`. */
  ghost predicate TexturesFoundFrom(t: Table, base: nat, ts: seq<Texture>, now: seq<Texture>) {
    forall j :: 0 <= j < |ts| ==> TextureAt(t, base + j, ts[j], now)
  }

  lemma {:induction false} AddTexturesFound(oa: Option<Appearance>, ts: seq<Texture>, base: nat)
    requires AddTextures(oa, ts, base).Success?
    ensures TexturesFoundFrom(AddTextures(oa, ts, base).value.1, base, ts, TexturesOf(AddTextures(oa, ts, base).value.0))
    decreases |ts|
  {
    if |ts| > 0 {
      var r1 := AddTexture(oa.GetOr(EmptyAppearance), ts[0]).value;
      var a1 := r1.0;
      var k := r1.1;
      assert k < |a1.textures.value| && a1.textures.value[k].image == ts[0].image;
      AddTexturesFound(Some(a1), ts[1..], base + 1);
      AddTexturesKeepsPrefix(Some(a1), ts[1..], base + 1);
      var rest := AddTextures(Some(a1), ts[1..], base + 1).value;
      var now := TexturesOf(rest.0);
      PrefixAt(now, TexturesOf(Some(a1)), k);
      assert AddTextures(oa, ts, base).value == (rest.0, rest.1[base := k]);
      TexturesFoundStep(rest.1, k, base, ts, ts[1..], base + 1, now);
    }
  }

  /** The induction step of `AddTexturesFound`, on a table and list taken as
      given. */
  lemma TexturesFoundStep(t2: Table, k: nat, base: nat, ts: seq<Texture>, rest: seq<Texture>, next: nat, now: seq<Texture>)
    requires |ts| > 0 && rest == ts[1..] && next == base + 1
    requires k < |now| && now[k].image == ts[0].image
    requires TexturesFoundFrom(t2, next, rest, now)
    ensures TexturesFoundFrom(t2[base := k], base, ts, now)
  {
    forall j | 0 <= j < |ts| ensures TextureAt(t2[base := k], base + j, ts[j], now) {
      if j > 0 {
        assert ts[j] == ts[1..][j - 1] && base + j == base + 1 + (j - 1);
        assert TextureAt(t2, base + 1 + (j - 1), ts[1..][j - 1], now);
      }
    }
  }

  /** The document's appearance after the insertions, the two tables they
      filled, and `t_offset`. */
  datatype Imported = Imported(appearance: Option<Appearance>, materials: Table, textures: Table, uvOffset: nat)

  /** The material loop of `add_cjfeature`, skipped when the feature has
      no material list. */
  function ImportMaterials(oa: Option<Appearance>, f: Appearance): (r: Result<(Option<Appearance>, Table), AppearanceError>) {
    if f.materials.Some? then AddMaterials(oa, f.materials.value, 0) else Success((oa, map[]))
  }

  /** The texture loop of `add_cjfeature`, skipped when the feature has no
      texture list. */
  function ImportTextures(oa: Option<Appearance>, f: Appearance): (r: Result<(Option<Appearance>, Table), AppearanceError>) {
    if f.textures.Some? then AddTextures(oa, f.textures.value, 0) else Success((oa, map[]))
  }

  /** The appearance block of `add_cjfeature`: materials, then textures,
      then uv vertices, whose count becomes `t_offset`. */
  function ImportAppearance(oa: Option<Appearance>, fa: Option<Appearance>): (r: Result<Imported, AppearanceError>) {
    match fa
    case None => Success(Imported(oa, map[], map[], 0))
    case Some(f) =>
      match ImportMaterials(oa, f)
      case Failure(e) => Failure(e)
      case Success(mp) =>
        match ImportTextures(mp.0, f)
        case Failure(e) => Failure(e)
        case Success(tp) =>
          match f.verticesTexture
          case None => Success(Imported(tp.0, mp.1, tp.1, 0))
          case Some(vs) => Success(Imported(Some(AddVerticesTexture(tp.0.GetOr(EmptyAppearance), vs)), mp.1, tp.1, |vs|))
  }

  /** Every material of the feature is valid and every texture's border
      colour lies in [0, 1]: the condition under which no insertion
      panics. */
  predicate AppearanceInsertable(fa: Option<Appearance>) {
    && (forall j :: 0 <= j < |MaterialsOf(fa)| ==> MaterialValid(MaterialsOf(fa)[j]))
    && (forall j :: 0 <= j < |TexturesOf(fa)| ==> OptColorInUnit(TexturesOf(fa)[j].borderColor))
  }

  /** The import succeeds exactly when nothing panics. */
  lemma ImportAppearanceSucceeds(oa: Option<Appearance>, fa: Option<Appearance>)
    ensures ImportAppearance(oa, fa).Success? <==> AppearanceInsertable(fa)
  {
    if fa.Some? {
      var f := fa.value;
      assert MaterialsOf(fa) == f.materials.GetOr([]);
      assert TexturesOf(fa) == f.textures.GetOr([]);
      if f.materials.Some? {
        AddMaterialsSucceeds(oa, f.materials.value, 0);
      }
      var m := ImportMaterials(oa, f);
      if m.Success? && f.textures.Some? {
        AddTexturesSucceeds(m.value.0, f.textures.value, 0);
      }
    }
  }

  /** The material loop translates every feature material to a document
      material of the same name, keeps the document's materials in place
      and changes nothing else. */
  lemma ImportMaterialsSpec(oa: Option<Appearance>, f: Appearance)
    requires ImportMaterials(oa, f).Success?
    ensures var (oa', t) := ImportMaterials(oa, f).value;
      && MaterialsDenote(t, MaterialsOf(Some(f)), MaterialsOf(oa'))
      && |MaterialsOf(oa)| <= |MaterialsOf(oa')|
      && MaterialsOf(oa')[..|MaterialsOf(oa)|] == MaterialsOf(oa)
      && oa'.GetOr(EmptyAppearance) == oa.GetOr(EmptyAppearance).(materials := oa'.GetOr(EmptyAppearance).materials)
  {
    if f.materials.Some? {
      var ms := f.materials.value;
      AddMaterialsKeepsPrefix(oa, ms, 0);
      AddMaterialsFound(oa, ms, 0);
      var (oa', t) := ImportMaterials(oa, f).value;
      forall v | 0 <= v < |ms| ensures MaterialAt(t, v, ms[v], MaterialsOf(oa')) {
        assert MaterialAt(t, 0 + v, ms[v], MaterialsOf(oa'));
      }
      assert MaterialsOf(Some(f)) == ms;
    }
  }

  /** The texture loop translates every feature texture to a document
      texture of the same image, keeps the document's textures in place and
      changes nothing else. */
  lemma ImportTexturesSpec(oa: Option<Appearance>, f: Appearance)
    requires ImportTextures(oa, f).Success?
    ensures var (oa', t) := ImportTextures(oa, f).value;
      && TexturesDenote(t, TexturesOf(Some(f)), TexturesOf(oa'))
      && |TexturesOf(oa)| <= |TexturesOf(oa')|
      && TexturesOf(oa')[..|TexturesOf(oa)|] == TexturesOf(oa)
      && oa'.GetOr(EmptyAppearance) == oa.GetOr(EmptyAppearance).(textures := oa'.GetOr(EmptyAppearance).textures)
  {
    if f.textures.Some? {
      var ts := f.textures.value;
      AddTexturesKeepsPrefix(oa, ts, 0);
      AddTexturesFound(oa, ts, 0);
      var (oa', t) := ImportTextures(oa, f).value;
      forall v | 0 <= v < |ts| ensures TextureAt(t, v, ts[v], TexturesOf(oa')) {
        assert TextureAt(t, 0 + v, ts[v], TexturesOf(oa'));
      }
      assert TexturesOf(Some(f)) == ts;
    }
  }

  /** After the import the tables translate every feature material and
      texture to a document one of the same name or image; the document's
      lists keep their prefix; the uv vertices are appended; `t_offset` is
      the feature's uv count; the default themes stay the document's. */
  lemma ImportAppearanceSpec(oa: Option<Appearance>, fa: Option<Appearance>)
    requires ImportAppearance(oa, fa).Success?
    ensures var p := ImportAppearance(oa, fa).value;
      && MaterialsDenote(p.materials, MaterialsOf(fa), MaterialsOf(p.appearance))
      && TexturesDenote(p.textures, TexturesOf(fa), TexturesOf(p.appearance))
      && |MaterialsOf(oa)| <= |MaterialsOf(p.appearance)|
      && MaterialsOf(p.appearance)[..|MaterialsOf(oa)|] == MaterialsOf(oa)
      && |TexturesOf(oa)| <= |TexturesOf(p.appearance)|
      && TexturesOf(p.appearance)[..|TexturesOf(oa)|] == TexturesOf(oa)
      && UvsOf(p.appearance) == UvsOf(oa) + UvsOf(fa)
      && p.uvOffset == |UvsOf(fa)|
      && p.appearance.GetOr(EmptyAppearance).defaultThemeMaterial == oa.GetOr(EmptyAppearance).defaultThemeMaterial
      && p.appearance.GetOr(EmptyAppearance).defaultThemeTexture == oa.GetOr(EmptyAppearance).defaultThemeTexture
  {
    if fa.Some? {
      var f := fa.value;
      var mp := ImportMaterials(oa, f).value;
      ImportMaterialsSpec(oa, f);
      var tp := ImportTextures(mp.0, f).value;
      ImportTexturesSpec(mp.0, f);
      assert MaterialsOf(tp.0) == MaterialsOf(mp.0);
      assert TexturesOf(mp.0) == TexturesOf(oa);
      assert UvsOf(tp.0) == UvsOf(oa);
      if f.verticesTexture.Some? {
        var a' := AddVerticesTexture(tp.0.GetOr(EmptyAppearance), f.verticesTexture.value);
        assert a'.verticesTexture.value == UvsOf(tp.0) + f.verticesTexture.value;
        assert MaterialsOf(Some(a')) == MaterialsOf(tp.0) && TexturesOf(Some(a')) == TexturesOf(tp.0);
      } else {
        assert UvsOf(oa) + UvsOf(fa) == UvsOf(oa);
      }
    }
  }
}
