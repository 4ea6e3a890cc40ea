# cjseq in Dafny

A model of `cjseq`, the converter between CityJSON documents and
CityJSONSeq streams, and of the operations built on it:

- **cat** splits a CityJSON document into a first "metadata" line and one
  feature per top-level city object. Each feature holds the object, its
  direct children, and the document's vertices and appearance, sliced and
  renumbered for that feature.
- **collect** merges a stream back into one document. It then drops
  duplicate vertices and moves the translation so that every coordinate is
  non-negative.
- **filter** keeps or drops feature lines: at random, by city object type,
  by centroid inside a box, or by centroid within a circle.
- **export** writes a document as Wavefront OBJ, using the highest level of
  detail of each object.

The model covers both code paths of the repository:

- the library in `src/lib.rs`;
- the older snapshot in `src/cityjson.rs`, which works on raw JSON values
  and carries its own `add_one_cjf`.

Every operation is a pure function on immutable datatypes. Each one is
paired with lemmas that state what it promises:
- renumbering tables grow and stay dense;
- every vertex reference still denotes the same coordinates after a split,
  a merge or a deduplication;
- `from_url` reads back what `to_url` writes;
- a filter and its `--exclude` twin divide the stream between them.

Several modelling choices recur throughout:

- **Map order.** A `HashMap`'s iteration order is an explicit `order`
  argument, which must list the map's keys once each.
- **Panics.** A panic (`unwrap` on a missing child, an index past the end,
  a slice out of range) is a `Failure` of a `Result`.
- **Unbounded integers.** Integers are unbounded. Where the source's
  casts matter (`as u32`, a negative `i64` read as `usize`), the wrap is
  written out.

Modules, one per file:

| file | module | models |
|---|---|---|
| wrappers.dfy | Wrappers | `Option`, `Result`, `Outcome` |
| json.dfy | Json | the `serde_json::Value` shapes the code inspects |
| text.dfy | Text | `str::find`, `contains`, `split`, `join` |
| strings.dfy | Strings | the ordering of `String` and `Vec<String>::sort` |
| sequences.dfy | Sequences | repetition-free sequences |
| remap.dfy | Remap | the `HashMap<usize, usize>` old→new tables and the "slice" loops |
| nested_array.dfy | NestedArrays | `NestedArray<T>`, its JSON codec, the recursive index passes |
| boundary_examples.dfy | BoundaryExamples | the boundary-parsing unit tests of `src/lib.rs` |
| appearance.dfy | Appearances | materials, textures, uv vertices |
| geometry.dfy | Geometries | `Geometry` and its boundary, material and texture passes |
| city_object.dfy | CityObjects | `CityObject`, types and extension types |
| document.dfy | Documents | `CityJSON`, `CityJSONFeature`, `Transform` |
| object_remap.dfy | ObjectRemap | renumbering a whole object through the four tables |
| feature_order.dfy | FeatureOrder | `sort_cjfeatures`, `number_of_city_objects` |
| split.dfy | Split | `get_cjfeature`, `get_metadata` |
| merge_appearance.dfy | MergeAppearance | the materials, textures and uv vertices `add_cjfeature` inserts |
| merge.dfy | Merge | `add_cjfeature` |
| merge_uvs.dfy | MergeUvs | the uv vertices of `add_cjfeature`, and the merge with their offset corrected |
| vertices.dfy | VertexCleanup | `remove_duplicate_vertices`, `update_transform` |
| reference_system.dfy | ReferenceSystems | `ReferenceSystem` and its URL form |
| extension.dfy | Extensions | `ExtensionFile::new` and `validate` |
| snapshot.dfy | Snapshot | `src/cityjson.rs` |
| driver.dfy | Driver | the `cat`, `filter` and `collect` commands of `src/main.rs` |
| obj_export.dfy | ObjExport | `src/conv/obj.rs` |

## Model

| member | source | states |
|---|---|---|
| Text.FindFromSpec | src/lib.rs:1127-1150 | the substring search from a position returns an occurrence with none before it, or `None` exactly when there is none |
| Text.FindSpec | src/lib.rs:1127-1150 | `find` returns the first occurrence, and `None` only when the pattern occurs nowhere |
| Text.ContainsAt | src/lib.rs:1128 | an occurrence at any position makes `contains` hold |
| Text.FindAppend | src/lib.rs:1127-1150 | an occurrence that lies inside a prefix is still the first one after text is appended |
| Text.Split | src/lib.rs:1139 | `split('/')` always yields at least one piece, even for empty text |
| Text.JoinSplit | src/lib.rs:1117-1122 | joining the pieces of a split with the separator gives the text back |
| Text.SplitJoin | src/lib.rs:1117-1122 | splitting a join of separator-free pieces gives the pieces back |
| Strings.LexLeTotal | src/lib.rs:421 | the string order that `sort` uses is total |
| Strings.LexLeTransitive | src/lib.rs:421 | the string order is transitive |
| Strings.LexLeAntisymmetric | src/lib.rs:421 | the string order is antisymmetric |
| Strings.Sort | src/lib.rs:421 | `sort` returns a permutation of its input |
| Strings.SortSorted | src/lib.rs:421 | the output of `sort` is in ascending order |
| Strings.SortedUnique | src/lib.rs:421 | two ordered permutations of the same strings are equal, so the sorted feature order does not depend on the input order |
| Sequences.DistinctCardinality | src/lib.rs:338-371 | a repetition-free sequence has as many elements as its set |
| Sequences.DistinctPermutation | src/lib.rs:405-425 | a permutation of a repetition-free sequence is repetition-free |
| Remap.Resolve | src/lib.rs:808-812 | one `entry(old).or_insert(len)` step: a recorded id keeps its value; an unseen id gets the table's size plus the offset and is recorded |
| Remap.ResolveKeepsDense | src/lib.rs:808-812 | a table whose values are exactly `offset .. offset + size - 1` keeps that property after a step |
| Remap.AddNextKeepsDense | src/lib.rs:808-812 | adding a fresh key with the next value keeps a table dense |
| Remap.ResolveList | src/lib.rs:805-814 | the leaf loop resolves a list of ids from left to right, keeping its length |
| Remap.ResolveListSpec | src/lib.rs:805-814 | after the leaf loop every id is recorded, no other id is added, recorded ids keep their value, and each output holds the final table's value for its input |
| Remap.ResolveListFixed | src/lib.rs:338-371 | a table that maps every id of the list to itself leaves the list and itself unchanged |
| Remap.ResolveListKeepsDense | src/lib.rs:805-814 | the leaf loop keeps a dense table dense |
| Remap.ResolveListAppend | src/lib.rs:815-819 | resolving a concatenation is resolving its two halves in turn |
| Remap.ResolveOptList | src/lib.rs:941-956 | the material leaf loop keeps the list's length |
| Remap.ResolveOptListSpec | src/lib.rs:941-956 | in the material leaf loop, `None` stays `None`, every present id is recorded and replaced by its value, and nothing else is added |
| Remap.ResolveOptListKeepsDense | src/lib.rs:941-956 | the material leaf loop keeps a dense table dense |
| Remap.SliceBy | src/lib.rs:251-255 | the slice loop gives a list as long as the table, whose position `t[id]` holds `src[id]` for every recorded id |
| Remap.SliceChecked | src/lib.rs:251-255 | the slice fails exactly when an old id is past the end of the source, where `src[old]` panics |
| Remap.SliceIdentity | src/lib.rs:251-255 | slicing through the identity renumbering of `0 .. n-1` returns the prefix of length n |
| NestedArrays.FoldLists | src/lib.rs:803-821 | the flat reference for the recursive walk keeps the number of leaf lists |
| NestedArrays.WalkIsFold | src/lib.rs:803-821 | the recursive walk rewrites the leaf lists and threads the state exactly as a flat fold over them |
| NestedArrays.WalkKeepsShape | src/lib.rs:803-821 | a walk whose step keeps lengths keeps the nesting shape |
| NestedArrays.WalkKeepsDepth | src/lib.rs:803-821 | a length-keeping walk keeps a uniform nesting depth |
| NestedArrays.WalkFixed | src/lib.rs:803-821 | a walk whose step changes nothing changes nothing |
| NestedArrays.RenumberIsFlat | src/lib.rs:803-821 | renumbering a nested array is renumbering its flat leaf sequence, with the same final table |
| NestedArrays.Renumber | src/lib.rs:803-821 | the boundary renumbering walk; its contract is `NestedArrays.RenumberSpec` and `NestedArrays.RenumberIsFlat` |
| NestedArrays.RenumberSpec | src/lib.rs:803-821 | renumbering keeps the shape; maps every leaf through the final table; keeps recorded ids; records exactly the leaves; keeps a dense table dense |
| NestedArrays.RenumberFixed | src/lib.rs:803-821 | a table mapping every leaf to itself leaves both the array and the table unchanged |
| NestedArrays.OffsetSpec | src/lib.rs:822-835 | the offset pass keeps the shape and adds the offset to every leaf, position by position |
| NestedArrays.Offset | src/lib.rs:822-835 | the offset walk; `NestedArrays.OffsetSpec` states that it keeps the shape and adds the offset to every leaf |
| NestedArrays.OffsetTwice | src/lib.rs:822-835 | offsetting by j and then by k is offsetting by j + k |
| NestedArrays.RenumberMaterialValuesSpec | src/lib.rs:936-965 | material values keep their shape, `None` stays `None`, every present id becomes the final table's value for it, and a dense table stays dense |
| NestedArrays.TextureList | src/lib.rs:991-1017 | in a texture leaf list, position 0 renumbers through the texture table and later positions through the uv table with the offset; the length is kept |
| NestedArrays.TextureListSpec | src/lib.rs:991-1017 | one texture leaf list: both tables only grow, every leaf is remapped through the table its position selects, and dense tables stay dense |
| NestedArrays.RenumberTextureValuesSpec | src/lib.rs:983-1033 | texture values keep their shape; in each leaf list position 0 maps through the final texture table and later positions through the final uv table; `None` stays `None`; dense tables stay dense |
| NestedArrays.ParseLeaves | src/lib.rs:766-775 | the leaf parse skips what the codec rejects, so it yields no more leaves than it reads |
| NestedArrays.Parse | src/lib.rs:751-785 | `parse_nested_array`: an array of arrays is read level by level, any other array as leaves through the leaf codec, anything else as an empty list; what it reads back is stated by `NestedArrays.RoundTrip` and `NestedArrays.ParseKeepsDepth` |
| NestedArrays.ToValue | src/lib.rs:786-800 | `nested_array_to_value`: one JSON array per level, each leaf through the codec; `NestedArrays.RoundTrip` states that `parse_nested_array` reads it back |
| NestedArrays.FromU32 | src/lib.rs:631-641 | `u32::from_value` accepts exactly the integers and keeps their low 32 bits |
| NestedArrays.FromUsize | src/lib.rs:673-682 | `usize::from_value` accepts exactly the integers, and a negative one wraps to 64 bits |
| NestedArrays.FromOptU32 | src/lib.rs:651-663 | `Option<u32>::from_value` reads `null` as `None` and integers as in `u32` |
| NestedArrays.FromOptUsize | src/lib.rs:689-700 | `Option<usize>::from_value` reads `null` as `None` and integers as in `usize` |
| NestedArrays.RoundTrip | src/lib.rs:751-800 | serialising and then parsing gives back every nested array whose levels are non-empty and whose leaves the codec round-trips |
| NestedArrays.BoundariesRoundTrip | src/lib.rs:631-646 | boundaries with ids below 2^32 round-trip through JSON |
| NestedArrays.SemanticsRoundTrip | src/lib.rs:651-671 | semantic values round-trip through JSON |
| NestedArrays.OptUsizeSerialisationAddsLevel | src/lib.rs:702-704 | as written, `Option<usize>::to_value` writes a leaf as an array, so `Some(3)` and `None` both come back one level deeper |
| NestedArrays.OptUsizeRoundTrip | src/lib.rs:689-704 | with a leaf written as a number or `null`, material and texture values round-trip |
| NestedArrays.ParseKeepsDepth | src/lib.rs:751-781 | parsing keeps the depth of a uniformly nested JSON array |
| BoundaryExamples.MultiPointParses | src/lib.rs:1669-1673 | `[2, 44, 0, 7]` parses to the flat list of those ids |
| BoundaryExamples.MultiLineStringParses | src/lib.rs:1678-1688 | a list of two linestrings parses to two index lists |
| BoundaryExamples.MultiSurfaceParses | src/lib.rs:1694-1705 | a list of three one-ring surfaces parses to three nested lists of one ring each |
| BoundaryExamples.SolidParses | src/lib.rs:1713-1745 | a Solid of an outer and an inner shell of four one-ring surfaces each parses to two shells of four surfaces |
| BoundaryExamples.CompositeSolidParses | src/lib.rs:1758-1808 | a CompositeSolid of that Solid and a one-shell Solid parses to two solids |
| BoundaryExamples.ShellParses | src/lib.rs:1713-1745 | a shell of one-ring surfaces parses to one nested ring list per surface |
| BoundaryExamples.OneRingSurfaceParses | src/lib.rs:1694-1705 | a surface of one ring parses one level above the ring |
| BoundaryExamples.IdsParse | src/lib.rs:751-781 | a non-empty list of in-range ids parses to exactly that list |
| Appearances.ValidateMaterial | src/lib.rs:1223-1269 | material validation passes exactly when every checked field is in range, and otherwise names the first field that fails |
| Appearances.ValidateTexture | src/lib.rs:1317-1329 | texture validation passes exactly when every present border-colour component lies in [0, 1] |
| Appearances.FindMaterial | src/lib.rs:1377-1398 | the position returned names a material with that name, and no earlier material has it; `None` exactly when there is none |
| Appearances.FindTexture | src/lib.rs:1400-1421 | the position returned names a texture with that image, and no earlier texture has it; `None` exactly when there is none |
| Appearances.AddMaterial | src/lib.rs:1377-1398 | a material failing validation is an error naming its field; otherwise the returned position is the first holding that name, the list keeps its prefix and grows by that material at most, and nothing else changes |
| Appearances.AddTexture | src/lib.rs:1400-1421 | a texture failing validation is an error; otherwise the returned position names a texture of that image, and the list grows by at most that texture |
| Appearances.AddVerticesTexture | src/lib.rs:1423-1432 | the new uv vertices follow the existing ones, in order |
| Appearances.AddMaterialKeepsNamesDistinct | src/lib.rs:1377-1398 | inserting keeps the material names distinct |
| Appearances.AddTextureKeepsImagesDistinct | src/lib.rs:1400-1421 | inserting keeps the texture images distinct |
| Appearances.AddMaterialIdempotent | src/lib.rs:1377-1398 | inserting the same material twice changes nothing the second time and returns the same position |
| Appearances.AddTextureIdempotent | src/lib.rs:1400-1421 | inserting the same texture twice changes nothing the second time and returns the same position |
| Geometries.BoundaryDepth | src/lib.rs:608-617 | the boundary nesting per geometry type: none for points and instances, four levels exactly for MultiSolid and CompositeSolid |
| Geometries.UpdateBoundariesSpec | src/lib.rs:876-908 | the boundary pass renumbers every leaf through the final table; keeps the shape and every other field; records exactly the leaves it met; keeps a dense table dense |
| Geometries.UpdateBoundaries | src/lib.rs:876-908 | `update_geometry_boundaries`; `Geometries.UpdateBoundariesSpec` states that only the boundaries change, each leaf through the final table |
| Geometries.OffsetBoundaries | src/lib.rs:910-912 | `offset_geometry_boundaries` changes only the boundaries, by `NestedArrays.Offset`; `Merge.MergeGeometrySpec` states the offset per leaf |
| Geometries.UpdateMaterialRefSpec | src/lib.rs:917-966 | one material theme: `value` or `values` is renumbered through a table that extends the old one and stays dense |
| Geometries.UpdateMaterialThemesSpec | src/lib.rs:914-972 | every material theme is renumbered through the final table, which extends the starting one and stays dense |
| Geometries.UpdateMaterialSpec | src/lib.rs:914-972 | the material pass renumbers every theme through the final table and changes nothing else of the geometry |
| Geometries.UpdateMaterial | src/lib.rs:914-972 | `update_material`; `Geometries.UpdateMaterialSpec` states that every theme is renumbered and nothing else changes |
| Geometries.UpdateTextureThemesSpec | src/lib.rs:979-1034 | every texture theme is renumbered through the final tables, which extend the starting ones and stay dense |
| Geometries.UpdateTextureSpec | src/lib.rs:973-1038 | the texture pass renumbers every theme through the final tables and changes nothing else of the geometry |
| Geometries.UpdateTexture | src/lib.rs:973-1038 | `update_texture`; `Geometries.UpdateTextureSpec` states that every theme is renumbered and nothing else changes |
| CityObjects.ChildrenKeys | src/lib.rs:593-604 | the children listed by the object, in order, and none when it lists none |
| CityObjects.IsToplevel | src/lib.rs:581-592 | `is_toplevel` holds exactly when `parents` is absent or empty; `FeatureOrder.ToplevelIdsSpec` uses it to pick the features |
| CityObjects.GetExtensionType | src/lib.rs:568-579 | an extension type gives the name between its leading `+` characters and the next `+` or `.`; any other type gives nothing |
| CityObjects.ExtensionTypeOfName | src/lib.rs:563-579 | a name written after one or more `+` and ended by nothing or by a `+` or `.` is read back exactly |
| ObjectRemap.RemapRefsSpec | src/lib.rs:224-225 | the material and texture passes renumber both kinds of reference through the final tables and leave the vertex table alone |
| ObjectRemap.RemapGeometrySpec | src/lib.rs:222-226 | one geometry: boundaries and references are renumbered through the final tables, and the vertex table gains only the geometry's own leaves |
| ObjectRemap.RemapGeometriesSpec | src/lib.rs:220-229 | every geometry of a list is renumbered through tables that only grow and stay dense |
| ObjectRemap.RemapTemplates | src/lib.rs:159-162 | the template pass keeps the number of templates |
| ObjectRemap.RemapTemplatesSpec | src/lib.rs:159-162 | every template's material and texture references are renumbered; the vertex table is untouched; the tables stay dense |
| ObjectRemap.RemapObjectSpec | src/lib.rs:215-229 | one city object: its geometries are renumbered and nothing else changes |
| FeatureOrder.ToplevelIds | src/lib.rs:409-413 | the loop collects no more ids than the map order lists |
| FeatureOrder.ToplevelIdsSpec | src/lib.rs:409-413 | the collected keys are exactly the top-level objects, without repetition |
| FeatureOrder.NumberOfCityObjects | src/lib.rs:396-404 | the count of top-level objects, whatever order the map is walked in |
| FeatureOrder.CountToplevelIsLength | src/lib.rs:396-425 | the count equals the number of ids the sort collects |
| FeatureOrder.SortCJFeatures | src/lib.rs:405-425 | the Random and Alphabetical strategies rebuild the feature order; the others are not implemented and fail |
| FeatureOrder.SortCJFeaturesSpec | src/lib.rs:405-425 | after sorting, the feature order lists every top-level object once and nothing else, ascending for Alphabetical; nothing else changes |
| FeatureOrder.AlphabeticalIgnoresOrder | src/lib.rs:415-422 | the alphabetical order does not depend on the map's iteration order |
| Split.SliceOpt | src/lib.rs:263-289 | slicing an absent list gives nothing; slicing a present one fails exactly when an old id is past its end |
| Split.RemapChildren | src/lib.rs:234-248 | a child listed but absent from the document makes the children loop fail |
| Split.RemapChildrenKeys | src/lib.rs:234-248 | the children loop inserts exactly the listed children |
| Split.RemapChildrenMapped | src/lib.rs:234-248 | every child the loop inserts is renumbered through its final tables, which extend the starting ones and stay dense |
| Split.RemapChildrenBelow | src/lib.rs:234-256 | with every leaf of every child below n, every key of the final vertex table is below n |
| Split.FeatureObjectsSpec | src/lib.rs:208-248 | the feature's objects are the object and its listed children, each renumbered; this fails exactly when a child is missing |
| Split.FeatureObjects | src/lib.rs:208-248 | the object loop of `get_cjfeature`; `Split.FeatureObjectsSpec` states which objects it returns and when it fails |
| Split.GetCJFeature | src/lib.rs:203-293 | past the end of the feature order, or for an id without an object, there is no feature; otherwise the feature carries the id |
| Split.GetCJFeatureSpec | src/lib.rs:203-293 | a feature holds the object and its direct children only, renumbered through the feature's tables, with the document's vertices and appearance sliced through the same tables |
| Split.FeatureKeepsCoordinates | src/lib.rs:223-256 | every boundary leaf of a feature indexes the feature's vertices and denotes the same coordinates as the leaf it came from |
| Split.GetCJFeatureSucceeds | src/lib.rs:203-293 | with every child present, every leaf in range and no appearance, the split of a listed object succeeds |
| Split.GetCJFeatureMissingChild | src/lib.rs:234-235 | a child listed by the object but absent from the document makes the split panic |
| Split.GetMetadata | src/lib.rs:134-202 | as written: it fails only when templates and an appearance are both present; the line is the header with no objects, vertices or feature order, still holding the original templates, with an appearance exactly when the document has templates and an appearance |
| Split.GetMetadataCorrected | src/lib.rs:134-202 | as intended: the same header line, but the templates may be replaced (by their renumbered form), present exactly when the document has them |
| Split.GetMetadataSpec | src/lib.rs:153-200 | the metadata line's appearance holds exactly what the templates reference, re-indexed through the template tables |
| Split.MetadataTemplatesIndexMaterials | src/lib.rs:153-200 | in the corrected metadata line, every template material `value` indexes the sliced materials and denotes the material it denoted in the document |
| Split.TemplateDocument | src/lib.rs:153-176 | a document whose one template uses material 1 of two |
| Split.MetadataTemplatesStale | src/lib.rs:146 | as written, the metadata line keeps material 1 at position 0, while its template still refers to 1, past the end of the list; the corrected line refers to 0 |
| MergeAppearance.AddMaterialsSucceeds | src/lib.rs:301-305 | inserting the feature's materials succeeds exactly when every one is valid |
| MergeAppearance.AddMaterialsKeys | src/lib.rs:301-305 | the material table has exactly the feature's material positions as keys |
| MergeAppearance.AddMaterialsKeepsPrefix | src/lib.rs:301-305 | the document's existing materials keep their positions and nothing but the material list changes |
| MergeAppearance.AddMaterialsFound | src/lib.rs:301-305 | feature material j is translated to a document material of the same name |
| MergeAppearance.AddTexturesSucceeds | src/lib.rs:306-310 | inserting the feature's textures succeeds exactly when every one is valid |
| MergeAppearance.AddTexturesKeys | src/lib.rs:306-310 | the texture table has exactly the feature's texture positions as keys |
| MergeAppearance.AddTexturesKeepsPrefix | src/lib.rs:306-310 | the document's existing textures keep their positions and nothing but the texture list changes |
| MergeAppearance.AddTexturesFound | src/lib.rs:306-310 | feature texture j is translated to a document texture of the same image |
| MergeAppearance.ImportAppearanceSucceeds | src/lib.rs:300-315 | the appearance import succeeds exactly when no material or texture fails validation |
| MergeAppearance.ImportMaterialsSpec | src/lib.rs:301-305 | every feature material is translated to a document material of the same name; the document's materials stay in place and nothing else changes |
| MergeAppearance.ImportTexturesSpec | src/lib.rs:306-310 | every feature texture is translated to a document texture of the same image; the document's textures stay in place and nothing else changes |
| MergeAppearance.ImportAppearanceSpec | src/lib.rs:300-315 | after the import the tables translate every material and texture by name or image; the document's lists keep their prefix; the uv vertices are appended; the uv offset is the feature's uv count |
| Merge.MergeGeometries | src/lib.rs:320-328 | the geometry loop keeps the number of geometries |
| Merge.MergeGeometrySpec | src/lib.rs:320-328 | one geometry: boundaries are offset by the vertex count, references renumbered through tables that only grow, and the vertex table is untouched |
| Merge.MergeGeometriesSpec | src/lib.rs:319-329 | every geometry of an object is merged through tables that only grow |
| Merge.MergeObjectSpec | src/lib.rs:317-332 | one city object: only its geometries change |
| Merge.MergeObjectsKeys | src/lib.rs:317-332 | the object loop inserts exactly the feature's keys and leaves every other document object alone |
| Merge.MergeObjectsMapped | src/lib.rs:317-332 | every inserted object is moved through the loop's final tables, which extend the initial ones |
| Merge.AddCJFeature | src/lib.rs:294-337 | `add_cjfeature` fails exactly when a material or texture is invalid |
| Merge.MergeWithSpec | src/lib.rs:294-337 | the document gains the feature's vertices after its own and the feature's id at the end of the feature order; its objects are the old ones plus the feature's; the transform is unchanged |
| Merge.MergeWith | src/lib.rs:294-337 | the body of `add_cjfeature` once the appearance is imported; `Merge.MergeWithSpec` and `Merge.MergeKeepsCoordinates` state what it keeps |
| Merge.AddCJFeatureAppearance | src/lib.rs:294-337 | after a merge, every material and texture reference of a feature object names a document material or texture with the name or image it named in the feature |
| Merge.MergeKeepsCoordinates | src/lib.rs:322 | a vertex reference of a merged object is the old reference plus the document's former vertex count, and denotes the same coordinates |
| MergeUvs.UvShift | src/lib.rs:311-313 | the corrected uv table sends feature uv vertex x to document uv vertex prior + x, where the appended copy lies |
| MergeUvs.AddCJFeatureCorrected | src/lib.rs:294-337 | the corrected merge fails exactly when a material or texture is invalid |
| MergeUvs.AddCJFeatureCorrectedUvs | src/lib.rs:311-327 | in the corrected merge every feature uv vertex is translated to the document uv vertex holding the same point |
| MergeUvs.UvRingAsWritten | src/lib.rs:1006-1011 | with an empty uv table and a uv offset of 2, uv 0 becomes 2 and uv 1 becomes 3 |
| MergeUvs.UvRingCorrected | src/lib.rs:1006-1011 | with the corrected uv table, every uv keeps its number |
| MergeUvs.UvOffsetAsWritten | src/lib.rs:311-313 | merged into an empty document, the as-written merge numbers the uv references 2, 3, 3, although the document holds only two uv vertices |
| MergeUvs.UvOffsetCorrected | src/lib.rs:311-313 | the corrected merge keeps the references 0, 1, 1, which name the same two points in the document |
| VertexCleanup.DedupKept | src/lib.rs:343-356 | the kept vertices are distinct, are exactly the input's vertices as a set, are no more than the input, and the lookup indexes them |
| VertexCleanup.Dedup | src/lib.rs:343-356 | the dedup loop as a function of its input; `VertexCleanup.DedupKept`, `VertexCleanup.DedupFirstOccurrence` and `VertexCleanup.DedupIds` state its result |
| VertexCleanup.DedupFirstOccurrence | src/lib.rs:343-356 | the kept vertices are listed in the order of their first occurrence in the input, so the k-th kept vertex is the k-th distinct input vertex |
| VertexCleanup.DedupIds | src/lib.rs:343-356 | `newids` has an entry for every input index and no other, each naming a kept copy of that vertex |
| VertexCleanup.DedupVertices | src/lib.rs:343-356 | the dedup loop keeps each distinct input vertex once, in order of first occurrence, and `newids` maps every input index to the kept copy of its vertex |
| VertexCleanup.DedupDistinct | src/lib.rs:343-356 | a list without repeats is kept as it is, every index naming itself |
| VertexCleanup.UpdateBoundariesCovered | src/lib.rs:876-908 | with every leaf already in the table, the boundary pass renumbers through it and adds nothing |
| VertexCleanup.RenumberObjectsSpec | src/lib.rs:358-368 | the object loop with a table that covers every leaf leaves the table unchanged, keeps the keys, and renumbers each object through the table |
| VertexCleanup.RenumberObjectsFixed | src/lib.rs:358-368 | with a table mapping every leaf to itself, the object loop changes nothing |
| VertexCleanup.RemoveDuplicateVertices | src/lib.rs:338-371 | the new vertex list holds each old vertex once, in order of first occurrence, so it gets no longer; the object keys stay the same |
| VertexCleanup.RemoveDuplicateVerticesSpec | src/lib.rs:338-371 | afterwards the vertices are the old ones, each once, in the order of their first occurrence; the objects are the same with every vertex reference renumbered through `newids`; nothing else changes |
| VertexCleanup.RenumberObjectsGrows | src/lib.rs:356-368 | with any table, the object loop renumbers every listed object through its final table, which keeps `newids`'s entries and numbers every reference it had not seen from the table's size on |
| VertexCleanup.RemoveDuplicateVerticesReferences | src/lib.rs:338-371 | for every reference, in range or not: it is in the new list exactly when it was in the old one, an in-range reference names the same vertex, and a reference past the old list gets a number past it too |
| VertexCleanup.RemoveDuplicateVerticesKeepsCoordinates | src/lib.rs:338-371 | every renumbered reference is in range and denotes the same coordinates as before |
| VertexCleanup.RemoveDuplicateVerticesFixesDistinct | src/lib.rs:338-371 | a document whose vertices are already distinct and whose references are in range is left as it is |
| VertexCleanup.RemoveDuplicateVerticesIdempotent | src/lib.rs:338-371 | removing duplicates twice is removing them once |
| VertexCleanup.MinCoordSpec | src/lib.rs:374-382 | each minimum bounds its axis from below and is either one of its coordinates or `i64::MAX` |
| VertexCleanup.MinCoord | src/lib.rs:374-382 | the per-axis minimum, starting at `i64::MAX`; `VertexCleanup.MinCoordSpec` states it |
| VertexCleanup.Shifted | src/lib.rs:384-387 | each vertex minus the minima, axis by axis |
| VertexCleanup.UpdateTransform | src/lib.rs:372-395 | the transform pass succeeds exactly when scale and translate have three entries each; otherwise the indexing panics |
| VertexCleanup.UpdateTransformShape | src/lib.rs:372-395 | the pass changes only the vertices and the translation; the vertex count and the scale stay |
| VertexCleanup.UpdateTransformNonNegative | src/lib.rs:384-387 | every coordinate becomes non-negative |
| VertexCleanup.UpdateTransformKeepsWorld | src/lib.rs:391-394 | every vertex keeps its real-world position |
| VertexCleanup.UpdateTransformTouchesZero | src/lib.rs:372-395 | on a non-empty list of 64-bit vertices, each axis has a vertex at zero afterwards |
| VertexCleanup.UpdateTransformIdempotent | src/lib.rs:372-395 | on a non-empty list of 64-bit vertices the pass is idempotent |
| VertexCleanup.UpdateTransformEmpty | src/lib.rs:374-394 | on an empty vertex list the minima stay at `i64::MAX`, and the translation still moves by `i64::MAX` times the scale |
| ReferenceSystems.NewReferenceSystem | src/lib.rs:1107-1115 | without a base URL the OGC default is used, which `from_url` can read back |
| ReferenceSystems.FromUrl | src/lib.rs:1127-1150 | only a URL holding the OGC marker is accepted |
| ReferenceSystems.MarkerHasCrs | src/lib.rs:1128-1134 | a URL holding the marker holds a `crs` that leaves room for the slice after it |
| ReferenceSystems.DefaultBaseWellFormed | src/lib.rs:1107-1115 | the default base holds the marker and ends at its first `crs` |
| ReferenceSystems.FromUrlAfterBase | src/lib.rs:1127-1150 | after a well-formed base, `from_url` skips one character and splits the rest into the three parts |
| ReferenceSystems.UrlRoundTrip | src/lib.rs:1117-1150 | `from_url` reads back what `to_url` writes, for a well-formed base and parts free of `/` |
| ReferenceSystems.ToUrl | src/lib.rs:1117-1122 | `to_url` joins base, authority, version and code with `/`; `ReferenceSystems.UrlRoundTrip` states that `from_url` reads it back |
| ReferenceSystems.DefaultUrlRoundTrip | src/lib.rs:1107-1150 | with the default base, every `/`-free authority, version and code round-trips |
| ReferenceSystems.FromUrlSpec | src/lib.rs:1127-1150 | what `from_url` accepts has `/`-free parts and a base ending in `crs`, and `to_url` restores the URL exactly when the skipped character is `/` |
| ReferenceSystems.SplitFree | src/lib.rs:1139 | every piece of a split is free of the separator |
| ReferenceSystems.FromUrlRejectsForeign | src/lib.rs:1128-1130 | a URL lacking the OGC marker is an invalid reference system URL |
| ReferenceSystems.FromUrlBaseOnly | src/lib.rs:1136 | a URL that stops right after its base panics on the slice |
| Extensions.NewExtensionFile | src/lib.rs:1475-1488 | a new extension file carries the given name, URL and version, and passes validation when they are non-empty |
| Extensions.ValidateExtrasSpec | src/lib.rs:1620-1645 | the schema checks pass exactly when every schema is an object, and otherwise name the first that is not |
| Extensions.ValidateSpec | src/lib.rs:1593-1645 | validation passes exactly on well-formed files, and otherwise names the first failing check in source order |
| Extensions.Validate | src/lib.rs:1593-1645 | `ExtensionFile::validate`; `Extensions.ValidateSpec` states when it passes and which check it names |
| Snapshot.SnapChildrenKeys | src/cityjson.rs:212-223 | the children listed by the object, in order |
| Snapshot.SnapIsToplevel | src/cityjson.rs:200-211 | the snapshot's `is_toplevel` holds exactly when `parents` is absent or empty |
| Snapshot.GetEmptyCopy | src/cityjson.rs:49-64 | the empty copy has no objects, no vertices and no appearance, and keeps every other member |
| Snapshot.GetEmptyCopySpec | src/cityjson.rs:49-64 | two documents with the same header have the same empty copy, and copying twice is copying once |
| Snapshot.BoundaryLevels | src/cityjson.rs:246-346 | boundaries are read at most five levels deep |
| Snapshot.SolidRing | src/cityjson.rs:306-318 | the Solid ring loop keeps the ring's length or panics |
| Snapshot.SurfaceRings | src/cityjson.rs:329-341 | the MultiSolid surface loop keeps the surface's shape or panics |
| Snapshot.SnapUpdateBoundaries | src/cityjson.rs:240-347 | the boundary pass as written changes only the boundaries, and panics on boundaries not nested to the type's depth |
| Snapshot.SnapUpdateBoundariesSpec | src/cityjson.rs:246-298 | for points, lines and surfaces every leaf becomes the final table's value for it, the shape is kept, recorded ids keep their value, and a table dense from the offset stays dense |
| Snapshot.SolidBranchPanics | src/cityjson.rs:310-312 | as written, an ordinary Solid panics: its fourth distinct vertex gets id 3 and is written at position 3 of a ring of three |
| Snapshot.MultiSolidBranchPanics | src/cityjson.rs:333-335 | as written, a MultiSolid surface of one ring panics: its second distinct vertex is written into ring 1, which does not exist |
| Snapshot.SnapUpdateBoundariesCorrected | src/cityjson.rs:240-347 | the corrected pass changes only the boundaries, and fails exactly on boundaries not nested to the type's depth |
| Snapshot.SnapUpdateBoundariesCorrectedAgrees | src/cityjson.rs:246-298 | the corrected pass agrees with the snapshot wherever the snapshot is right |
| Snapshot.SnapUpdateBoundariesCorrectedSpec | src/cityjson.rs:299-346 | for every type, Solid and MultiSolid included, the corrected pass succeeds on well-shaped boundaries, keeps the shape, maps every leaf through the final table, and keeps density |
| Snapshot.SolidRenumberedWhenCorrected | src/cityjson.rs:299-321 | the Solid on which the snapshot panics is renumbered by the corrected pass |
| Snapshot.MaterialLevels | src/cityjson.rs:366-432 | `values` is read at most three levels deep |
| Snapshot.SnapUpdateMaterialRef | src/cityjson.rs:353-432 | one theme panics exactly when it has no `value` and its `values` do not fit the type's depth |
| Snapshot.SnapUpdateMaterial | src/cityjson.rs:348-439 | the material pass keeps every field but the material |
| Snapshot.SnapUpdateMaterialRefAgrees | src/cityjson.rs:353-432 | on a theme it can parse, the snapshot's material pass does what the library's does |
| Snapshot.SnapUpdateMaterialThemesAgrees | src/cityjson.rs:348-439 | the theme loop fails exactly when some theme cannot be parsed, and otherwise agrees with the library's |
| Snapshot.SnapUpdateMaterialSpec | src/cityjson.rs:348-439 | for the types whose values it parses, the material pass fails exactly on a theme of the wrong depth; otherwise every theme is renumbered through the final table |
| Snapshot.SnapTextureList | src/cityjson.rs:456-480 | one texture ring keeps its length |
| Snapshot.SnapUpdateTextureThemes | src/cityjson.rs:447-486 | the texture theme loop keeps the number of themes |
| Snapshot.SnapUpdateTexture | src/cityjson.rs:440-490 | only surface geometries are touched, and only their texture |
| Snapshot.SnapTextureListAgrees | src/cityjson.rs:456-480 | with no uv offset the snapshot's ring pass is the library's |
| Snapshot.WalkSameSteps | src/cityjson.rs:454-483 | walks with pointwise equal steps are equal |
| Snapshot.SnapUpdateTextureThemesSpec | src/cityjson.rs:447-486 | without an offset, the theme loop fails exactly when some theme cannot be parsed; otherwise every ring is renumbered through the final tables, which only grow and stay dense |
| Snapshot.SnapTextureWritesTwoIds | src/cityjson.rs:470-478 | as written, with a uv offset of 2, a ring naming uv vertex 5 twice writes 0 and then 2 for it |
| Snapshot.TextureListWritesOneId | src/lib.rs:1006-1011 | the library's ring pass writes one id for the repeated uv vertex |
| Sequences.FirstIndex | src/cityjson.rs:540-557 | the first position holding the value, with no copy before it |
| Sequences.FirstIndexUnique | src/cityjson.rs:540-557 | a value's first position is the only position with no copy before it |
| Snapshot.AddToStore | src/cityjson.rs:81-104 | an equal stored value gives its first position; otherwise the value is appended and its position returned |
| Snapshot.AddToStoreIgnoresMemberOrder | src/cityjson.rs:540-575 | a stored material `{"name": "a", "value": 1}` is found at position 0 when the feature writes `{"value": 1, "name": "a"}`, and nothing is appended: JSON objects compare member by member, whatever their order |
| Snapshot.AddToStoreIdempotent | src/cityjson.rs:540-575 | adding a stored value again changes nothing and gives the same position |
| Snapshot.AddToStoreKeeps | src/cityjson.rs:540-575 | one insertion keeps the list's prefix and the rest of the appearance |
| Snapshot.ImportStoreSpec | src/cityjson.rs:114-124 | every imported value is named by the table at a position holding it, and the document's list keeps its prefix |
| Snapshot.SnapImportAppearanceSpec | src/cityjson.rs:112-129 | every feature material and texture names a document one holding the same value; the document's own stay put; the feature's uv vertices follow the document's |
| Snapshot.SnapMergeGeometry | src/cityjson.rs:137-141 | one geometry: boundaries, then material, then texture; nothing else changes |
| Snapshot.SnapMergeObjectsKeys | src/cityjson.rs:131-146 | the object loop inserts exactly the feature's keys, leaves every other object alone, and changes only the geometry of what it inserts |
| Snapshot.AddOneCjfSpec | src/cityjson.rs:105-149 | a successful merge appends the feature's vertices after the document's and adds the feature's objects, which differ only in their geometry |
| Snapshot.AddOneCjf | src/cityjson.rs:105-149 | `add_one_cjf` as written; `Snapshot.AddOneCjfSpec` and `Snapshot.AddOneCjfMovesPoints` state what it does |
| Snapshot.AddOneCjfCorrected | src/cityjson.rs:105-149 | `add_one_cjf` with every reference offset by the document's vertex count; `Snapshot.AddOneCjfCorrectedKeepsCoordinates` states that references keep their coordinates |
| Snapshot.AddOneCjfCorrectedKeepsCoordinates | src/cityjson.rs:105-149 | in `add_one_cjf` with every reference offset by the document's vertex count, each reference of a feature object names the coordinates it named in the feature |
| Snapshot.AddOneCjfMovesPoints | src/cityjson.rs:105-149 | as written, a feature's point naming vertex (2, 2, 2) is sent to document vertex (1, 1, 1): ids follow first-seen order but vertices are appended in their own order |
| Driver.EmitSpec | src/main.rs:321-326 | item k of the write loop is what `get_cjfeature(i + k)` returns, and the loop stops at the first `None` or failure |
| Driver.Emit | src/main.rs:321-326 | the `while let Some(cjf) = get_cjfeature(i)` loop; `Driver.EmitSpec` states what it writes and where it stops |
| Driver.Cat | src/main.rs:305-328 | `cat` writes nothing when the type or version check fails or the sort strategy is not implemented; otherwise the first line is the metadata `get_metadata` builds, as written, and every later line a feature |
| Driver.CatSpec | src/main.rs:305-328 | a valid document is written whole. The first line is the document without objects, vertices or feature order, keeping its original templates; its appearance is present exactly when the document has templates and an appearance, and is what the templates reference, sliced through the template tables. Nothing is written exactly when that slicing fails. Unless a child is missing, each top-level object follows exactly once, ascending for Alphabetical |
| Driver.CatUnfold | src/main.rs:316-326 | past its checks, `cat` writes the line `get_metadata` returns, as written, and then the features; the error is the feature loop's |
| Driver.EmitFeaturesIds | src/main.rs:321-326 | with every id naming an object, the loop writes the features in feature order, all of them unless a child is missing |
| Driver.FilterFromSpec | src/main.rs:151-165 | the filter loop reads to the end exactly when no line raises an error, and writes only input lines whose selection, xor `exclude`, holds |
| Driver.FilterFrom | src/main.rs:151-165 | the shared read-select-write loop of the filters; `Driver.FilterFromSpec` states which lines it writes and when it stops |
| Driver.FilterFromComplement | src/main.rs:161-163 | a line is written by the filter or by its `--exclude` twin, never both, and the two stop alike |
| Driver.FilterAfterHeader | src/main.rs:154-156 | line 0 is written as it is, and the rest go through the loop |
| Driver.FilterComplement | src/main.rs:148-238 | a filter and its `--exclude` twin split the feature lines between them |
| Driver.ParsedFeature | src/main.rs:177 | a selection that first parses the line as a feature fails on a line that is not one |
| Driver.FilterRandom | src/main.rs:148-167 | line 0 is written first, and the filter never fails because it does not parse lines |
| Driver.FilterRandomFactorOne | src/main.rs:157-160 | with a factor of 1 every line is kept, or with `exclude` only line 0 |
| Driver.OfType | src/main.rs:178 | the type of the feature's own object; a feature without an object under its id panics |
| Driver.FilterCotype | src/main.rs:169-187 | the cotype filter writes line 0 first |
| Driver.FilterCotypeSpec | src/main.rs:169-187 | every feature line written has an object of the wanted type under its id, or of another type with `exclude` |
| Driver.Centroid | src/lib.rs:501-512 | a centroid exists exactly when the feature has vertices |
| Driver.SumBounds | src/lib.rs:501-512 | the sum of n coordinates lies between n times their minimum and n times their maximum |
| Driver.CentroidWithin | src/lib.rs:501-512 | the centroid lies within the vertices' extent on each axis |
| Driver.CentroidOfOne | src/lib.rs:501-512 | the centroid of a lone vertex is that vertex |
| Driver.WorldCentroid | src/main.rs:200-202 | the centroid in real-world coordinates fails exactly when the transform has fewer than two entries |
| Driver.InBbox | src/main.rs:203 | selected exactly when the centroid lies strictly inside the box |
| Driver.InCircle | src/main.rs:228-229 | selected exactly when the centroid's squared distance is at most r² |
| Driver.FilterBbox | src/main.rs:189-212 | line 0 is written first; a line 0 that is not a document stops the filter |
| Driver.FilterRadius | src/main.rs:214-238 | line 0 is written first; a line 0 that is not a document stops the filter |
| Driver.FilterBboxSpec | src/main.rs:189-212 | without `exclude` every feature written has its centroid strictly inside the box; with it, none has |
| Driver.FilterRadiusSpec | src/main.rs:214-238 | without `exclude` every feature written has its centroid within the circle; with it, none has |
| Driver.AddKeysSpec | src/main.rs:249 | adding new keys to an order keeps it repetition-free and holds exactly the keys of both |
| Driver.MergedOrder | src/lib.rs:331 | appending a feature's new keys to the document's order gives an order of the merged map |
| Driver.AddCJFeatureMerges | src/lib.rs:294-337 | `add_cjfeature` appends the feature's vertices and id, its keys are the union, and the transform is kept |
| Driver.CollectFeatures | src/main.rs:243-251 | the collect loop, merging with `add_cjfeature` as written, returns a key order that lists the merged objects' keys once each |
| Driver.CollectFeaturesSpec | src/main.rs:243-251 | the loop of `add_cjfeature` calls succeeds exactly when every appearance can be inserted; it holds the document's vertices and then every feature's, the feature ids in order, the keys of all, and the document's transform |
| Driver.CollectFeaturesStep | src/main.rs:243-251 | one turn of the loop merges the first feature with `add_cjfeature`, appending its vertices, id and keys, and goes on with the rest |
| Driver.ShiftedDistinct | src/lib.rs:384-387 | moving every vertex by the same amount keeps distinct vertices distinct |
| Driver.CollectSpec | src/main.rs:240-256 | `collect` succeeds exactly when every appearance can be inserted and the transform has three entries per axis; the result holds all keys and the feature ids, with distinct non-negative vertices no more than were read |
| Driver.MovedOrigin | src/lib.rs:372-395 | the `update_transform` step of `collect` keeps the objects and the feature order and the number of vertices, keeps distinct vertices distinct, and leaves every coordinate non-negative |
| Driver.Collect | src/main.rs:240-256 | `collect`: merge every feature, drop duplicate vertices, move the origin; `Driver.CollectSpec` states the result and its failures |
| ObjExport.WriteObjFace | src/conv/obj.rs:202-215 | nothing for an empty list; otherwise one face with every index plus one, in order |
| ObjExport.NonEmpty | src/conv/obj.rs:172-190 | every index list kept is non-empty and one of the boundary's |
| ObjExport.Faces | src/conv/obj.rs:202-215 | one line per index list |
| ObjExport.ConvertGeometrySpec | src/conv/obj.rs:172-190 | a boundary gives one face per non-empty index list, in order, each face the list's indices plus one |
| ObjExport.ConvertGeometry | src/conv/obj.rs:172-190 | `convert_geometry_to_obj`; `ObjExport.ConvertGeometrySpec` and `ObjExport.ConvertGeometryIndices` state its faces |
| ObjExport.ConvertGeometryIndices | src/conv/obj.rs:172-215 | every number of every face is one of the boundary's vertex indices plus one |
| ObjExport.QuadFace | src/conv/tests.rs:1-101 | a ring `0 1 2 3` becomes the face `1 2 3 4`, and an empty ring beside it writes nothing |
| ObjExport.MaxLodFromSpec | src/conv/obj.rs:130-146 | the loop's maximum is the running maximum or a parsed LOD, bounds both, and is absent only when nothing parsed |
| ObjExport.MaxLodSpec | src/conv/obj.rs:130-146 | the maximum is absent exactly when no LOD parses; otherwise it is a parsed LOD that no parsed LOD exceeds |
| ObjExport.KeepAtLodSpec | src/conv/obj.rs:148-159 | exactly the geometries within the epsilon of the maximum are kept, in their original order and with their repeats: the result reads the input at the ascending positions that pass the test |
| ObjExport.KeepAtLodInOrder | src/conv/obj.rs:148-159 | the `filter` reads the input at the positions its test lists, in order |
| ObjExport.LodIndicesAscending | src/conv/obj.rs:148-159 | the positions the test passes are listed ascending, each within the input |
| ObjExport.LodIndicesPass | src/conv/obj.rs:150-157 | every listed position holds a geometry whose LOD parses within the epsilon of the maximum |
| ObjExport.LodIndicesComplete | src/conv/obj.rs:150-157 | every position whose geometry passes the test is listed |
| ObjExport.HighestLodSpec | src/conv/obj.rs:130-160 | with no parsable LOD every geometry is kept; otherwise exactly those within the epsilon of the maximum, in their original order with their repeats, at least one, and every one at the maximum |
| ObjExport.HighestLod | src/conv/obj.rs:130-160 | `find_highest_lod_geometry`; `ObjExport.HighestLodSpec` states which geometries it keeps and in what order |
| ObjExport.HighestLodExact | src/conv/obj.rs:130-160 | when parsed LODs are equal or at least the epsilon apart, the geometries kept are exactly those at the maximum LOD, in their original order with their repeats |
| ObjExport.VertexLines | src/conv/obj.rs:57-63 | one `v` line per vertex |
| ObjExport.GeometriesFacesSpec | src/conv/obj.rs:74-76 | the geometries write only faces, and with every index below n every face number is at most n |
| ObjExport.ObjectFacesSpec | src/conv/obj.rs:69-77 | an object writes only faces, from its highest-LOD geometries, within range when its indices are |
| ObjExport.ObjectsFacesSpec | src/conv/obj.rs:68-78 | the object loop writes only faces, within range when every object's indices are |
| ObjExport.ToObjSpec | src/conv/obj.rs:46-81 | `to_obj` fails exactly when there are vertices and the transform is short; otherwise it writes the two comments, a blank, one `v` line per vertex at its real-world position, a blank, then only faces, each naming a vertex when the boundaries do |
| ObjExport.ToObj | src/conv/obj.rs:46-81 | `to_obj`; `ObjExport.ToObjSpec` states its failure and the lines it writes |

## Left out

- Reading and writing files, standard input and output, and the command-line parser are left out: lines arrive already parsed, and each command's output is a sequence of values.
- JSON text, `from_str` and `serde` (de)serialisation of whole documents are left out; the boundary codec (`parse_nested_array`, `nested_array_to_value`, `JsonIndex`) is modelled on a JSON value type.
- `ExtensionFile::fetch_from_url`, `fetch_from_url_async` and `Extension::fetch_extension_file` are left out, because they do HTTP.
- `ExtensionFile::get_city_object_types` is left out; it lists a schema's keys.
- The Python and WebAssembly bindings (`python/src/lib.rs`, `src/wasm.rs`) and the examples are wrappers around the library and are not part of this model.
- Floating point is modelled with reals: no rounding, no NaN or infinity. `Driver.Centroid` gives `None` for a feature without vertices, where the source divides by zero and then compares NaN, which selects nothing.
- The text form of OBJ numbers (`{}` of an `f64`) and of the LOD strings is left out. Parsing a LOD string is a parameter `parse`.
- Random numbers in `filter_random` are a parameter: one draw per line.
- A `HashMap`'s iteration order is a parameter. Collect's merged map is taken to iterate in insertion order; the actual order of a Rust `HashMap` is unspecified.
- Wrap-around of `u32` and `usize` arithmetic is left out of the renumbering passes: `new_idx as u32`, `*index += offset as u32`, and the `idx + 1` of `write_obj_face` are unbounded. The codec's `as u32` and `as usize` casts are modelled.
- `i64` overflow in `update_transform` is left out. `VertexCleanup.UpdateTransformTouchesZero` and `VertexCleanup.UpdateTransformIdempotent` assume 64-bit coordinates.
- The Morton and Hilbert sort strategies reach `todo!()` and are modelled as a failure.
- `from_url` slices the URL by bytes. The model indexes characters, which agrees on ASCII URLs.
- The deduplication key `"{} {} {}"` of a vertex is modelled as the vertex itself; distinct integer triples give distinct keys.
- VertexCleanup.RemoveDuplicateVerticesSpec: states the renumbering through `newids` only for documents whose references are all in range, because a reference past the vertex list is added to the table by `or_insert_with(len)`. `VertexCleanup.RemoveDuplicateVerticesReferences` states what happens to every reference, in range or not.
- The snapshot's `CityJSON::new`, `CityJSONFeature::new` and `add_co` are plain constructors and are not modelled separately. The snapshot's `Vertex` struct is a triple.
- The snapshot's `Geometry` holds `boundaries`, and its `Material` and `Texture` hold `values`, as `serde_json::Value`. They are read with `serde_json::from_value(..).unwrap()` (src/cityjson.rs:247-324 for boundaries, 370-452 for material and texture values). The model holds them already typed, as nested arrays of `nat` or `Option<nat>`, so a leaf that is not an unsigned integer cannot be written: a negative or fractional number, a string, or `null` inside boundaries. The panic such a leaf causes is not modelled; `SnapError.ShapeMismatch` stands only for a value of the wrong depth.
- The library's vertices are `Vec<Vec<i64>>`; the model's `Vertex` is a triple of integers. A vertex with fewer than three coordinates, which panics at `v[1]` or `v[2]` in `remove_duplicate_vertices`, `update_transform` and `to_obj`, cannot be written. A vertex with more than three is not modelled either: the source dedups it on its first three coordinates and `update_transform` drops the rest.
- Snapshot.SnapUpdateBoundariesSpec: the corrected pass is specified for all types, the as-written one only for the types it gets right.
- Snapshot.AddOneCjfSpec: does not characterise when `add_one_cjf` succeeds, because its boundary pass panics on ordinary Solids.
- Snapshot.SnapUpdateTextureThemesSpec: states renumbering only for a uv offset of 0, because with another offset the pass writes ids that do not match its table.
- ObjExport.HighestLodSpec: compares LODs with the source's `f64::EPSILON` tolerance as written; `ObjExport.HighestLodExact` needs LODs to be equal or at least that far apart.
- `to_obj_string`, `to_obj_file` and `jsonseq_file_to_obj` only direct `to_obj`'s output to a string or a file.
- `src/error.rs` only defines the error type; errors are modelled by failure kinds.

## Findings

The `cat` and `collect` commands in `Driver` are built on the library as written; each corrected member below stands beside its as-written one and is used by no command.

| source | as written | input that shows it | evidently intended | confidence | as-written member | corrected member |
|---|---|---|---|---|---|---|
| src/lib.rs:702-704 | `Option<usize>::to_value` writes `Some(3)` as `[3]` and `None` as `[]` | material values `Indices([Some(3)])` serialise to `[[3]]` and parse back as `Nested([Indices([Some(3)])])` | a leaf written as the number or `null`, so values round-trip | not executed | NestedArrays.OptUsizeSerialisationAddsLevel | NestedArrays.OptUsizeRoundTrip |
| src/lib.rs:146 | the metadata line stores the original templates, while its appearance is sliced through the renumbered ones | a template using material 1 of two: the line keeps one material, at position 0, but the template still says 1 | store the renumbered templates | not executed | Split.MetadataTemplatesStale | Split.MetadataTemplatesIndexMaterials |
| src/lib.rs:311-313 | the uv offset is the feature's own uv count, added to fresh uv ids | a feature with two uv vertices merged into an empty document gets uv references 2, 3, 3 for a document holding two | offset by the document's former uv count | not executed | MergeUvs.UvOffsetAsWritten | MergeUvs.UvOffsetCorrected |
| src/cityjson.rs:310-312 | the new id `l` shadows the ring loop index, so an unseen vertex is written at position `l` | a Solid whose fourth distinct vertex sits in a ring of three panics | write each id at its own position | not executed | Snapshot.SolidBranchPanics | Snapshot.SolidRenumberedWhenCorrected |
| src/cityjson.rs:333-335 | the new id `l` shadows the ring index of a MultiSolid surface | a MultiSolid surface of one ring with two distinct vertices panics | write each id at its own ring and position | not executed | Snapshot.MultiSolidBranchPanics | Snapshot.SnapUpdateBoundariesCorrectedSpec |
| src/cityjson.rs:105-149 | vertex ids are handed out in first-seen order, but the feature's vertices are appended in their own order | a feature whose point lists vertex 1 before vertex 0: the point that was (2, 2, 2) names (1, 1, 1) | offset every reference by the document's vertex count, as `add_cjfeature` does | not executed | Snapshot.AddOneCjfMovesPoints | Snapshot.AddOneCjfCorrectedKeepsCoordinates |
| src/cityjson.rs:470-478 | an unseen uv vertex is recorded as `l + offset` but written as `l` | with a uv offset of 2, a ring naming uv vertex 5 twice gets 0 and then 2 | write the recorded id | not executed | Snapshot.SnapTextureWritesTwoIds | Snapshot.TextureListWritesOneId |
