/** `ExtensionFile`: the schema of a CityJSON Extension, and the checks
    `validate` runs on it before it is used. */
module Extensions {
  import opened Wrappers
  import opened Json

  const ExtensionType: string := "CityJSONExtension"

  datatype ExtensionFile = ExtensionFile(
    thetype: string,
    name: string,
    description: string,
    url: string,
    version: string,
    versionCityJSON: string,
    extraAttributes: Json,
    extraCityObjects: Json,
    extraRootProperties: Json,
    extraSemanticSurfaces: Json)

  /** `CjseqError::InvalidValue`, naming the offending field as it is
      spelled in the JSON file. */
  datatype ExtensionError = InvalidValue(field: string, reason: string)

  /** `ExtensionFile::new`: an extension with empty schemas and
      `versionCityJSON` "2.0". */
  function NewExtensionFile(name: string, url: string, version: string): (r: ExtensionFile)
    ensures r.name == name && r.url == url && r.version == version
    ensures name != [] && url != [] && version != [] ==> Validate(r).Pass?
  {
    var r := ExtensionFile(ExtensionType, name, "", url, version, "2.0", JObj(map[]), JObj(map[]), JObj(map[]), JObj(map[]));
    ValidateSpec(r);
    r
  }

  /** `ExtensionFile::validate`: the type, then the four required strings,
      then the four schemas, first failure reported. */
  function Validate(e: ExtensionFile): (r: Outcome<ExtensionError>) {
    if e.thetype != ExtensionType then Fail(InvalidValue("thetype", "must be 'CityJSONExtension'"))
    else if e.name == [] then Fail(InvalidValue("name", "cannot be empty"))
    else if e.url == [] then Fail(InvalidValue("url", "cannot be empty"))
    else if e.version == [] then Fail(InvalidValue("version", "cannot be empty"))
    else if e.versionCityJSON == [] then Fail(InvalidValue("versionCityJSON", "cannot be empty"))
    else ValidateExtras([("extraAttributes", e.extraAttributes),
                         ("extraCityObjects", e.extraCityObjects),
                         ("extraRootProperties", e.extraRootProperties),
                         ("extraSemanticSurfaces", e.extraSemanticSurfaces)])
  }

  /** The loop over the named schemas: the first that is not an object
      fails. */
  function ValidateExtras(fields: seq<(string, Json)>): (r: Outcome<ExtensionError>)
    decreases |fields|
  {
    if |fields| == 0 then Pass
    else if !IsObject(fields[0].1) then Fail(InvalidValue(fields[0].0, "must be a JSON object"))
    else ValidateExtras(fields[1..])
  }

  /** The schemas loop passes exactly when every schema is an object, and
      otherwise names the first that is not. */
  lemma {:induction false} ValidateExtrasSpec(fields: seq<(string, Json)>)
    ensures ValidateExtras(fields).Pass? <==> forall i :: 0 <= i < |fields| ==> IsObject(fields[i].1)
    ensures ValidateExtras(fields).Fail? ==>
      exists i :: 0 <= i < |fields| && !IsObject(fields[i].1)
        && (forall j :: 0 <= j < i ==> IsObject(fields[j].1))
        && ValidateExtras(fields).error == InvalidValue(fields[i].0, "must be a JSON object")
    decreases |fields|
  {
    if |fields| > 0 && IsObject(fields[0].1) {
      ValidateExtrasSpec(fields[1..]);
      if ValidateExtras(fields).Fail? {
        var i :| 0 <= i < |fields[1..]| && !IsObject(fields[1..][i].1)
          && (forall j :: 0 <= j < i ==> IsObject(fields[1..][j].1))
          && ValidateExtras(fields[1..]).error == InvalidValue(fields[1..][i].0, "must be a JSON object");
        assert fields[i + 1] == fields[1..][i];
        forall j | 0 <= j < i + 1 ensures IsObject(fields[j].1) {
          if j > 0 {
            assert fields[j] == fields[1..][j - 1];
          }
        }
      }
    }
  }

  /** An extension file is well formed when it has the right type, all
      four required strings, and four object schemas. */
  predicate WellFormed(e: ExtensionFile) {
    && e.thetype == ExtensionType
    && e.name != [] && e.url != [] && e.version != [] && e.versionCityJSON != []
    && IsObject(e.extraAttributes) && IsObject(e.extraCityObjects)
    && IsObject(e.extraRootProperties) && IsObject(e.extraSemanticSurfaces)
  }

  /** The names of the checked fields, in the order `validate` checks
      them. */
  const CheckedFields: seq<string> := ["thetype", "name", "url", "version", "versionCityJSON",
    "extraAttributes", "extraCityObjects", "extraRootProperties", "extraSemanticSurfaces"]

  /** Whether check `k` of `CheckedFields` passes. */
  predicate CheckPasses(e: ExtensionFile, k: nat)
    requires k < 9
  {
    match k
    case 0 => e.thetype == ExtensionType
    case 1 => e.name != []
    case 2 => e.url != []
    case 3 => e.version != []
    case 4 => e.versionCityJSON != []
    case 5 => IsObject(e.extraAttributes)
    case 6 => IsObject(e.extraCityObjects)
    case 7 => IsObject(e.extraRootProperties)
    case _ => IsObject(e.extraSemanticSurfaces)
  }

  /** `validate` passes exactly on well-formed files; otherwise it names
      the first check, in `CheckedFields` order, that fails. */
  lemma ValidateSpec(e: ExtensionFile)
    ensures Validate(e).Pass? <==> WellFormed(e)
    ensures Validate(e).Fail? ==>
      exists k :: 0 <= k < 9 && !CheckPasses(e, k)
        && (forall j :: 0 <= j < k ==> CheckPasses(e, j))
        && Validate(e).error.field == CheckedFields[k]
  {
    var fields := [("extraAttributes", e.extraAttributes),
                   ("extraCityObjects", e.extraCityObjects),
                   ("extraRootProperties", e.extraRootProperties),
                   ("extraSemanticSurfaces", e.extraSemanticSurfaces)];
    ValidateExtrasSpec(fields);
    assert fields[0].1 == e.extraAttributes && fields[1].1 == e.extraCityObjects;
    assert fields[2].1 == e.extraRootProperties && fields[3].1 == e.extraSemanticSurfaces;
    if Validate(e).Fail? {
      if e.thetype != ExtensionType {
        assert !CheckPasses(e, 0);
      } else if e.name == [] {
        assert !CheckPasses(e, 1) && CheckPasses(e, 0);
      } else if e.url == [] {
        assert !CheckPasses(e, 2) && CheckPasses(e, 0) && CheckPasses(e, 1);
      } else if e.version == [] {
        assert !CheckPasses(e, 3) && CheckPasses(e, 0) && CheckPasses(e, 1) && CheckPasses(e, 2);
      } else if e.versionCityJSON == [] {
        assert !CheckPasses(e, 4) && CheckPasses(e, 0) && CheckPasses(e, 1) && CheckPasses(e, 2) && CheckPasses(e, 3);
      } else {
        var i :| 0 <= i < |fields| && !IsObject(fields[i].1)
          && (forall j :: 0 <= j < i ==> IsObject(fields[j].1))
          && ValidateExtras(fields).error == InvalidValue(fields[i].0, "must be a JSON object");
        forall j | 0 <= j < 5 + i ensures CheckPasses(e, j) {
          if j >= 5 {
            assert IsObject(fields[j - 5].1);
          }
        }
        assert !CheckPasses(e, 5 + i);
      }
    }
  }
}
