# Incremental schema inference for GML and PDF vector layers

This project models two schema-inference routines of GDAL/OGR in Dafny and proves properties of them.

- **GML property definitions** (`ogr/ogrsf_frmts/gml/gmlpropertydefn.cpp`). `GMLPropertyDefn::AnalysePropertyValue` widens a property's type and string width as its raw text sub-values arrive. `GMLGeometryPropertyDefn::MergeSRSName` tracks whether every geometry of a geometry property names the same spatial reference system.
- **PDF layer filling** (`frmts/pdf/ogrpdflayer.cpp`). `OGRPDFLayer::Fill` reads structured records. It grows the layer schema from each record's "N"/"V" pairs (pass 1) before it writes the values into a new feature (pass 2). It attaches the geometry found through the record's marked-content id "K", emits one feature per well-formed record, and tracks whether the layer's geometries share one type.

Both source files change state in place, so each is modelled twice:

- a class whose fields and methods mirror the source (`GmlPropertyDefn.PropertyDefn`, `GmlGeometryPropertyDefn.GeometryPropertyDefn`, `PdfLayer.Layer`), with loops that follow the source's loops;
- pure functions giving the same behaviour as a fold over the input (`Step`/`Analyse`, `MergedSrs`/`MergeAll`, `SchemaPass`, `Writes`, `Observe`, `FillEntry`/`FillAll`).

The generality order `Generalizes` is given by listing, for each type, the types at least as general as it (`WiderOrEqual`). Each class method's postcondition equates the new state with the function applied to the old state, and the properties are proved as lemmas about the functions.

Files:

- `wrappers.dfy`: `Option`.
- `gml_property_type.dfy`: the type lattice, the one-step transition, and lemmas.
- `gml_property_defn.dfy`: the `PropertyDefn` class.
- `gml_geometry_property_defn.dfy`: the SRS-name tracker and the `GeometryPropertyDefn` class.
- `pdf_object.dfy`: PDF objects.
- `pdf_schema.dfy`: the pass-1 schema merge and the pass-2 writes.
- `pdf_geometry_tracker.dfy`: the geometry-type flags.
- `pdf_layer.dfy`: the record loop and the `Layer` class.

Collaborators whose code is not part of this model are parameters:

- `CPLGetValueType` and `CPLAtoGIntBig` are the two functions of a `Classifier`.
- `PDFDataset::GetGeometryFromMCID` is a function from an MCID to an optional geometry type.
- `ICreateFeature` appends to the recorded sequence `emitted`.
- `CreateField`/`AlterFieldDefn` are updates of the field sequence.

Three behaviours of the code are easy to misread, and the model keeps them as written:

- An Integer64List property that meets a real token becomes RealList (gmlpropertydefn.cpp:203-207). Only an integer token leaves Integer64List unchanged.
- A later sub-value never promotes Untyped. So an occurrence whose first sub-value is empty can end with a scalar type (`ScenarioLeadingEmptyStaysScalar`). This is the source's behaviour and it is kept.
- `bIsReal` is declared outside the sub-value loop, so a stale value survives a string token. `StepIgnoresStaleIsReal` proves it never affects the result.

## Model

| member | source | states |
|---|---|---|
| GmlPropertyType.Utf8Length | ogr/ogrsf_frmts/gml/gmlpropertydefn.cpp:77 | the byte length strlen reports for a text in UTF-8: at least its number of characters, at most four times it, and equal to it for ASCII text |
| GmlPropertyType.Promote | ogr/ogrsf_frmts/gml/gmlpropertydefn.cpp:115-136 | the list promotion before a later sub-value: the result generalizes the old type, keeps bIsReal, and is a list type for every typed property; its cases are stated by PromoteToList |
| GmlPropertyType.TextType | ogr/ogrsf_frmts/gml/gmlpropertydefn.cpp:151-172 | the type after a token CPLGetValueType calls a string: never Untyped, more general than the old type unless that is StringList, and a list whenever a list type other than StringList was; its cases are stated by StepTextToken |
| GmlPropertyType.NoteValueType | ogr/ogrsf_frmts/gml/gmlpropertydefn.cpp:145-177 | the first half of classifying a token: the width is kept and the type only generalizes; a numeric token sets bIsReal to whether it is real and touches nothing else; a retyped property keeps bIsReal |
| GmlPropertyType.RefineType | ogr/ogrsf_frmts/gml/gmlpropertydefn.cpp:179-214 | the second half: bIsReal is kept, the type only generalizes and is never Untyped, and the width is kept unless the property is String, widths are tracked and the token has more UTF-8 bytes, which then become the width |
| GmlPropertyType.Classify | ogr/ogrsf_frmts/gml/gmlpropertydefn.cpp:145-214 | one non-empty token: the two halves in order; the type generalizes the old one and is not Untyped, and the width changes only by growing a String property to the token byte length |
| GmlPropertyType.Step | ogr/ogrsf_frmts/gml/gmlpropertydefn.cpp:115-214 | one iteration of the sub-value loop: the type moves to an equal or more general one; a non-empty sub-value leaves the property typed, and an empty one leaves it Untyped exactly when it was; its cases are stated by the Step lemmas below |
| GmlPropertyType.Analyse | ogr/ogrsf_frmts/gml/gmlpropertydefn.cpp:113-215 | the whole sub-value loop as a fold of Step: the property stays Untyped exactly when it was Untyped and every sub-value is empty; AnalyseWidens and AnalyseMonotone state the widening |
| GmlPropertyType.PromoteToList | ogr/ogrsf_frmts/gml/gmlpropertydefn.cpp:115-136 | before a later sub-value, each scalar type becomes its list type, String becomes StringList with width 0, Untyped and list types are untouched, and only String has its width changed |
| GmlPropertyType.StepEmptyToken | ogr/ogrsf_frmts/gml/gmlpropertydefn.cpp:142-143 | an empty sub-value changes nothing beyond the list promotion |
| GmlPropertyType.StepTextToken | ogr/ogrsf_frmts/gml/gmlpropertydefn.cpp:147-173 | a string-classified token on a non-String type: "true"/"false" keep Untyped/Boolean Boolean; BooleanList stays only for "true"/"false", else StringList; numeric lists become StringList; every other type becomes String |
| GmlPropertyType.StepStringAbsorbs | ogr/ogrsf_frmts/gml/gmlpropertydefn.cpp:147-214 | StringList is never left; String is left only for StringList by promotion at a later sub-value |
| GmlPropertyType.StepNumericToken | ogr/ogrsf_frmts/gml/gmlpropertydefn.cpp:174-214 | a numeric token leaves Boolean, BooleanList, Real, RealList, String, StringList unchanged; a real makes Untyped/Integer/Integer64 Real and IntegerList/Integer64List RealList; an integer makes Untyped/Integer Integer or Integer64 by the int32 range, keeps Integer64 and Integer64List, and makes IntegerList Integer64List only out of int32 range |
| GmlPropertyType.StepWidth | ogr/ogrsf_frmts/gml/gmlpropertydefn.cpp:179-188 | the width becomes the token length in UTF-8 bytes only when the type ends String, widths are tracked and the token is longer; otherwise it is the old width (0 after String to StringList); a String result never has a smaller width |
| GmlPropertyType.StepListStaysList | ogr/ogrsf_frmts/gml/gmlpropertydefn.cpp:115-214 | list types stay list types, and any typed property is a list type after a later sub-value |
| GmlPropertyType.StepIdempotent | ogr/ogrsf_frmts/gml/gmlpropertydefn.cpp:142-214 | classifying the same token twice as the first sub-value (j = 0) gives the same type and width as once; at a later index the promotion makes it differ |
| GmlPropertyType.StepIgnoresStaleIsReal | ogr/ogrsf_frmts/gml/gmlpropertydefn.cpp:111-177 | the bIsReal left from the previous sub-value never changes the type or width |
| GmlPropertyType.AnalyseMonotone | ogr/ogrsf_frmts/gml/gmlpropertydefn.cpp:113-215 | over a whole occurrence the type after any prefix of the sub-values is generalized by the final type |
| GmlPropertyType.AnalyseWidens | ogr/ogrsf_frmts/gml/gmlpropertydefn.cpp:113-215 | a whole occurrence moves the type to an equal or more general one |
| GmlPropertyType.AnalyseKeepsStringList | ogr/ogrsf_frmts/gml/gmlpropertydefn.cpp:113-215 | a StringList property stays StringList whatever sub-values follow |
| GmlPropertyType.AnalyseListAfterSecondValue | ogr/ogrsf_frmts/gml/gmlpropertydefn.cpp:113-136 | an occurrence of two or more sub-values whose first one types the property ends with a list type |
| GmlPropertyType.ScenarioScalarWidening | ogr/ogrsf_frmts/gml/gmlpropertydefn.cpp:189-201 | occurrences "12" then "3.5" give Integer then Real |
| GmlPropertyType.ScenarioListPromotion | ogr/ogrsf_frmts/gml/gmlpropertydefn.cpp:115-120 | one occurrence "1", "2" gives Integer, then IntegerList |
| GmlPropertyType.ScenarioNonAsciiWidth | ogr/ogrsf_frmts/gml/gmlpropertydefn.cpp:179-188 | the occurrence "Zürich" gives a String property of width 7, its UTF-8 byte count, not its 6 characters |
| GmlPropertyType.ScenarioLeadingEmptyStaysScalar | ogr/ogrsf_frmts/gml/gmlpropertydefn.cpp:115-143 | the occurrence "", "1" ends Integer, not IntegerList |
| GmlPropertyDefn.SourceLength | ogr/ogrsf_frmts/gml/gmlpropertydefn.cpp:75-83 | the stored length of a source element: 0 for a null one, otherwise its strlen, the UTF-8 byte length, at least its number of characters |
| GmlPropertyDefn.PropertyDefn.constructor | ogr/ogrsf_frmts/gml/gmlpropertydefn.cpp:43-53 | a new definition is Untyped with width and precision 0, nullable, and records the source element and its length in UTF-8 bytes (0 when null) |
| GmlPropertyDefn.PropertyDefn.SetSrcElement | ogr/ogrsf_frmts/gml/gmlpropertydefn.cpp:71-85 | the source element and its length in UTF-8 bytes are replaced, length 0 for null |
| GmlPropertyDefn.PropertyDefn.AnalysePropertyValue | ogr/ogrsf_frmts/gml/gmlpropertydefn.cpp:104-216 | the loop leaves type and width equal to the fold of the transition over the sub-values; the new type generalizes the old one and StringList is kept |
| GmlPropertyDefn.PropertyDefn.PromoteToListType | ogr/ogrsf_frmts/gml/gmlpropertydefn.cpp:115-136 | the promotion block leaves type and width equal to Promote of the old ones |
| GmlPropertyDefn.PropertyDefn.ClassifyValue | ogr/ogrsf_frmts/gml/gmlpropertydefn.cpp:145-214 | the classification block leaves type, width and the returned bIsReal equal to Classify of the old ones and the incoming bIsReal |
| GmlGeometryPropertyDefn.MergedSrs | ogr/ogrsf_frmts/gml/gmlpropertydefn.cpp:249-267 | no change once inconsistent; an empty name adopts the candidate; a stored name stays consistent exactly when the candidate equals it; the cleared-name invariant is kept |
| GmlGeometryPropertyDefn.MergeAll | ogr/ogrsf_frmts/gml/gmlpropertydefn.cpp:249-267 | a fold of MergedSrs over the names of a property's geometries, from a new property: the cleared-name invariant holds and a stored name is one of the names; MergeAllCharacterization states the result |
| GmlGeometryPropertyDefn.MergeAllCharacterization | ogr/ogrsf_frmts/gml/gmlpropertydefn.cpp:249-267 | after merging a sequence of names, the property is consistent exactly when every name after a non-empty one equals it; its name is then the common non-empty name (or ""), and "" once inconsistent |
| GmlGeometryPropertyDefn.ScenarioSrs | ogr/ogrsf_frmts/gml/gmlpropertydefn.cpp:249-267 | EPSG:4326 twice stays consistent; EPSG:3857 makes it inconsistent with no name; EPSG:4326 again keeps it so |
| GmlGeometryPropertyDefn.GeometryPropertyName | ogr/ogrsf_frmts/gml/gmlpropertydefn.cpp:227-228 | the name is the source element when the given name is null or empty, else the given name |
| GmlGeometryPropertyDefn.GeometryPropertyDefn.constructor | ogr/ogrsf_frmts/gml/gmlpropertydefn.cpp:222-233 | the fields take the given values, with the defaulted name, and the SRS state starts consistent with no name |
| GmlGeometryPropertyDefn.GeometryPropertyDefn.MergeSRSName | ogr/ogrsf_frmts/gml/gmlpropertydefn.cpp:249-267 | the method leaves the SRS state equal to MergedSrs of the old one, and keeps inconsistent implying an empty name |
| PdfSchema.ObservedType | frmts/pdf/ogrpdflayer.cpp:92-96 | a value asks for Integer exactly when it is an Int, Real exactly when it is a Real, String otherwise |
| PdfSchema.MergedType | frmts/pdf/ogrpdflayer.cpp:102-107 | the merged type is the existing type or String, and the observed type or String; it is the existing type exactly when the two agree or the existing one is String |
| PdfSchema.FieldIndex | frmts/pdf/ogrpdflayer.cpp:91 | the index of the first field with the name, and none exactly when no field has it |
| PdfSchema.AttributeOf | frmts/pdf/ogrpdflayer.cpp:84-89 | an entry of P is used exactly when it is a dictionary with a String "N" and some "V", and then the pair is the text of "N" and the object "V" |
| PdfSchema.ValueOf | frmts/pdf/ogrpdflayer.cpp:126-131 | a value is written exactly when it is a String, an Int or a Real, and then it is that string, integer or real, whose type is the one pass 1 observed |
| PdfSchema.ApplyAttribute | frmts/pdf/ogrpdflayer.cpp:84-107 | pass 1 on one entry: an unusable entry changes nothing, and one field is added exactly when the entry is usable and its name is new; ApplyAttributeCases and ApplyAttributeExtends state the rest |
| PdfSchema.SchemaPass | frmts/pdf/ogrpdflayer.cpp:79-111 | pass 1 as a fold of ApplyAttribute over P: at most one new field per entry; SchemaPassExtends, SchemaPassFirstSeenOrder and EveryUsableNameHasField state the result |
| PdfSchema.Writes | frmts/pdf/ogrpdflayer.cpp:113-135 | pass 2 as the sequence of SetField calls, at most one per entry of P; WritesFromAttributes shows every write comes from a usable entry, WritesComplete that every usable entry with a String, Int or Real value is written, and WritesAccepted where |
| PdfSchema.ApplyAttributeCases | frmts/pdf/ogrpdflayer.cpp:84-107 | pass 1 on one entry: unusable entries change nothing; a new name appends a field of the observed type; an existing field becomes String only when its type differs and is not String |
| PdfSchema.ApplyAttributeExtends | frmts/pdf/ogrpdflayer.cpp:91-107 | pass 1 on one entry keeps names unique, keeps every field's name and position with the same type or String, adds at most one field, and leaves a field that accepts the entry's value |
| PdfSchema.ApplyAttributeKeepsAccepts | frmts/pdf/ogrpdflayer.cpp:91-107 | a field that accepts a type still accepts it after pass 1 on any further entry |
| PdfSchema.SchemaPassExtends | frmts/pdf/ogrpdflayer.cpp:79-111 | the whole of pass 1 keeps names unique and keeps every old field at its place under its name, with its type or String |
| PdfSchema.SchemaPassFirstSeenOrder | frmts/pdf/ogrpdflayer.cpp:84-101 | the names after pass 1 are the old names followed by each new name of a usable entry once, in the order of its first entry |
| PdfSchema.EveryUsableNameHasField | frmts/pdf/ogrpdflayer.cpp:84-107 | after pass 1 every usable entry of P, written in pass 2 or not, has a field of its name whose type is that of its value or String |
| PdfSchema.WritesAccepted | frmts/pdf/ogrpdflayer.cpp:79-135 | after pass 1 over all of P, every SetField of pass 2 names a field whose type is the value's type or String |
| PdfSchema.WritesFromAttributes | frmts/pdf/ogrpdflayer.cpp:113-135 | every SetField of pass 2 comes from a usable entry of P with that name and value, and there are no more writes than entries |
| PdfSchema.WritesComplete | frmts/pdf/ogrpdflayer.cpp:116-134 | every usable entry of P whose V is a String, an Int or a Real gives a SetField of its name with that value |
| PdfSchema.ScenarioStructuredConflict | frmts/pdf/ogrpdflayer.cpp:88-107 | X = 5 creates an Integer field, X = 2.5 turns it String, X = "hi" keeps it String |
| PdfGeometryTracker.InitialTracker | frmts/pdf/ogrpdflayer.cpp:44-45 | a new layer has its declared geometry type and neither flag set, which satisfies the tracker invariant |
| PdfGeometryTracker.Observe | frmts/pdf/ogrpdflayer.cpp:147-160 | a feature without geometry, or any feature once mixed, changes nothing; the first geometry sets the type; a differing later one sets mixed and wkbUnknown; mixed implies set and wkbUnknown is kept |
| PdfGeometryTracker.ObserveAll | frmts/pdf/ogrpdflayer.cpp:147-160 | the tracker after a sequence of geometries: the invariant is kept, and a set type or the mixed flag is never cleared; ObserveAllCharacterization states the result |
| PdfGeometryTracker.ObserveAllCharacterization | frmts/pdf/ogrpdflayer.cpp:147-160 | from a new layer, the type is set exactly when some geometry was seen and mixed exactly when two differ; the type otherwise is that of every geometry seen, or the declared one if none |
| PdfGeometryTracker.MixedIsFinal | frmts/pdf/ogrpdflayer.cpp:148 | once mixed, no further feature changes the tracker |
| PdfGeometryTracker.ScenarioGeometry | frmts/pdf/ogrpdflayer.cpp:147-160 | Point, Point, LineString: Point, Point, then mixed with wkbUnknown |
| PdfLayer.IsFeatureEntry | frmts/pdf/ogrpdflayer.cpp:56-63 | a record is used exactly when it is a dictionary whose lookup of "A" finds a dictionary |
| PdfLayer.AttributeArray | frmts/pdf/ogrpdflayer.cpp:65-72 | the record has attributes exactly when its "A" holds an array "P", and they are that array's items |
| PdfLayer.Mcid | frmts/pdf/ogrpdflayer.cpp:74-77 | "K" as an integer when it is an Int, and -1 otherwise |
| PdfLayer.GeometryOf | frmts/pdf/ogrpdflayer.cpp:137-145 | a geometry is attached exactly when "K" is an Int of at least 0 and the MCID lookup finds one, and it is that geometry |
| PdfLayer.FeatureWrites | frmts/pdf/ogrpdflayer.cpp:113-135 | a record without a "P" array gets no SetField; otherwise its SetField calls are those of pass 2 over P, at most one per entry |
| PdfLayer.EntryFeature | frmts/pdf/ogrpdflayer.cpp:113-145 | a record yields a feature exactly when it is used, with the SetField calls of pass 2 and the geometry found through "K" |
| PdfLayer.FillEntry | frmts/pdf/ogrpdflayer.cpp:54-164 | one record: a malformed one changes nothing; a well-formed one appends its feature; the tracker sees its geometry; FillEntryEmitsOne states the schema |
| PdfLayer.FillAll | frmts/pdf/ogrpdflayer.cpp:54-164 | the record loop as a fold of FillEntry: at most one feature per record is appended; FillAllEmitsInOrder and FillAllKeepsSchema state the result |
| PdfLayer.MalformedEntrySkipped | frmts/pdf/ogrpdflayer.cpp:57-63 | a record that is not a dictionary, or whose "A" is missing or not a dictionary, changes nothing and yields no feature |
| PdfLayer.EntryWithoutAttributes | frmts/pdf/ogrpdflayer.cpp:65-114 | a record without a "P" array leaves the schema unchanged and still yields one feature, with no field written |
| PdfLayer.FillEntryEmitsOne | frmts/pdf/ogrpdflayer.cpp:54-163 | a well-formed record appends exactly its feature, extends the schema, has every SetField accepted by the new schema, and feeds its geometry to the tracker |
| PdfLayer.FillAllEmitsInOrder | frmts/pdf/ogrpdflayer.cpp:54-164 | Fill appends one feature per well-formed record in array order, and the tracker sees those features' geometries in order |
| PdfLayer.FillAllKeepsSchema | frmts/pdf/ogrpdflayer.cpp:79-111 | Fill keeps names unique and the tracker invariant, and keeps every old field at its place with its type or String |
| PdfLayer.FillTracksGeometryTypes | frmts/pdf/ogrpdflayer.cpp:147-160 | for a new layer, the geometry type is set once a feature has a geometry, mixed exactly when two emitted features' geometries differ, and then wkbUnknown |
| PdfLayer.FeatureValues | frmts/pdf/ogrpdflayer.cpp:113-135 | the pass-2 loop returns exactly the SetField calls of Writes, one per usable entry of P with a String, Int or Real value, in order |
| PdfLayer.Layer.MergeAttributes | frmts/pdf/ogrpdflayer.cpp:79-111 | the pass-1 loop leaves the fields equal to SchemaPass of the old fields and keeps names unique |
| PdfLayer.Layer.TrackGeometry | frmts/pdf/ogrpdflayer.cpp:147-160 | the flags and layer type after a feature equal Observe of the old ones |
| PdfLayer.Layer.constructor | frmts/pdf/ogrpdflayer.cpp:38-46 | a new layer has no fields, no features, declares the given geometry type, and both flags are false |
| PdfLayer.Layer.Fill | frmts/pdf/ogrpdflayer.cpp:52-165 | the record loop, with the two passes and the tracking it calls, leaves the layer equal to FillAll of the old state, and keeps names unique and the tracker invariant |

## Left out

- `CPLGetValueType` and `CPLAtoGIntBig` are not part of this model. They are the abstract functions of a `Classifier`.
- The GMLPT_* values set only from schema files (Complex, DateTime, Short, Float, and others) are not modelled. `gmlreader.h` is not part of this model.
- The starting values of `m_osSRSName` ("") and `m_bSRSNameConsistent` (true) are taken from the class declaration in `gmlreader.h`, which is not shown.
- `GMLPropertyDefn::SetCondition`, `TestCapability`, `OGRPDFWritableLayer`, and all destructors and `CPLStrdup`/`CPLFree` calls are left out. They are trivial setters, thin wrappers or memory management.
- `GeometryPropertyDefn.constructor`: a null `pszSrcElement` is not modelled. The source element is a plain string, because `CPLStrdup` of null yields an empty string.
- `PropertyDefn.AnalysePropertyValue`: the `int` cast of `strlen` is not modelled as a 32-bit wrap. Widths are unbounded integers.
- `Utf8Length`: strings are sequences of Unicode characters, and `strlen` is taken as the length of their UTF-8 encoding. Byte strings that are not valid UTF-8 are not modelled.
- PDF parsing is not modelled. A `PdfObject` stands for a resolved PDF object, and an array element that resolves to null is read as `Other`, which Fill treats the same way at every use.
- `GetGeometryFromMCID`, geometry objects and `assignSpatialReference` are not modelled. A geometry is represented only by its OGR geometry type code.
- `OGRFeatureDefn::GetFieldIndex` compares names without regard to case. The model compares them exactly.
- `OGRMemLayer` storage is not modelled: field storage, conversion of stored features by `AlterFieldDefn`, feature ids, and the result of `ICreateFeature`. `OGRFeature::SetField` coercion of a number written to a String field is also left out.
- Real values are exact reals, not doubles. Only their kind affects the schema.
