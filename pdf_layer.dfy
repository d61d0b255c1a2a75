/**
 * OGRPDFLayer (frmts/pdf/ogrpdflayer.cpp): a layer read back from the
 * structured records of a PDF file. Fill turns each record into one feature,
 * growing the layer's schema and tracking whether its geometries share a type.
 */
module PdfLayer {
  import opened Wrappers
  import opened PdfObjects
  import opened PdfSchema
  import opened PdfGeometryTracker

  /** A feature handed to ICreateFeature: its SetField calls and its geometry's type. */
  datatype Feature = Feature(writes: seq<FieldWrite>, geometry: Option<GeometryType>)

  /** What Fill reads and changes: the schema, the geometry tracker and the features emitted so far. */
  datatype LayerState = LayerState(fields: seq<FieldDefn>, tracker: Tracker, emitted: seq<Feature>)

  predicate LayerValid(s: LayerState) {
    UniqueNames(s.fields) && TrackerValid(s.tracker)
  }

  /** ogrpdflayer.cpp:56-63: a record that is a dictionary whose "A" is a dictionary. */
  predicate IsFeatureEntry(e: PdfObject)
    ensures IsFeatureEntry(e) <==> e.Dictionary? && Get(e, "A").Some? && Get(e, "A").value.Dictionary?
  {
    e.Dictionary? && "A" in e.entries && e.entries["A"].Dictionary?
  }

  /** ogrpdflayer.cpp:65-72: the "P" array of the record, if "P" is an array. */
  function AttributeArray(e: PdfObject): (r: Option<seq<PdfObject>>)
    requires IsFeatureEntry(e)
    ensures var a := e.entries["A"];
            r.Some? <==> "P" in a.entries && a.entries["P"].Array?
    ensures r.Some? ==> r.value == e.entries["A"].entries["P"].items
  {
    var a := e.entries["A"];
    if "P" in a.entries && a.entries["P"].Array? then Some(a.entries["P"].items) else None
  }

  /** ogrpdflayer.cpp:74-77: the marked-content id "K", or -1 when it is not an integer. */
  function Mcid(e: PdfObject): (k: int)
    requires e.Dictionary?
    ensures "K" in e.entries && e.entries["K"].Int? ==> k == e.entries["K"].intValue
    ensures !("K" in e.entries && e.entries["K"].Int?) ==> k == -1
  {
    if "K" in e.entries && e.entries["K"].Int? then e.entries["K"].intValue else -1
  }

  /**
   * ogrpdflayer.cpp:137-145: the type of the geometry attached to the feature.
   * `geometryFromMcid` stands for PDFDataset::GetGeometryFromMCID.
   */
  function GeometryOf(e: PdfObject, geometryFromMcid: int -> Option<GeometryType>): (g: Option<GeometryType>)
    requires e.Dictionary?
    ensures g.Some? <==>
              && "K" in e.entries && e.entries["K"].Int? && e.entries["K"].intValue >= 0
              && geometryFromMcid(e.entries["K"].intValue).Some?
    ensures g.Some? ==> g == geometryFromMcid(e.entries["K"].intValue)
  {
    var k := Mcid(e);
    if k >= 0 then geometryFromMcid(k) else None
  }

  /** ogrpdflayer.cpp:113-135: the SetField calls made on the record's feature. */
  function FeatureWrites(e: PdfObject): (r: seq<FieldWrite>)
    requires IsFeatureEntry(e)
    ensures AttributeArray(e).None? ==> r == []
    ensures AttributeArray(e).Some? ==> r == Writes(AttributeArray(e).value) && |r| <= |AttributeArray(e).value|
  {
    var ps := AttributeArray(e);
    if ps.Some? then Writes(ps.value) else []
  }

  /** The feature a record yields; none for a malformed record. */
  function EntryFeature(e: PdfObject, geometryFromMcid: int -> Option<GeometryType>): (r: Option<Feature>)
    ensures r.Some? <==> IsFeatureEntry(e)
    ensures r.Some? ==> r.value.writes == FeatureWrites(e) && r.value.geometry == GeometryOf(e, geometryFromMcid)
  {
    if IsFeatureEntry(e) then Some(Feature(FeatureWrites(e), GeometryOf(e, geometryFromMcid))) else None
  }

  /** One iteration of the loop of Fill (ogrpdflayer.cpp:54-164). */
  function FillEntry(s: LayerState, e: PdfObject, geometryFromMcid: int -> Option<GeometryType>): (r: LayerState)
    ensures !IsFeatureEntry(e) ==> r == s
    ensures IsFeatureEntry(e) ==> r.emitted == s.emitted + [EntryFeature(e, geometryFromMcid).value]
    ensures r.tracker == Observe(s.tracker, if IsFeatureEntry(e) then GeometryOf(e, geometryFromMcid) else None)
  {
    if !IsFeatureEntry(e) then s
    else
      var ps := AttributeArray(e);
      var fields := if ps.Some? then SchemaPass(s.fields, ps.value) else s.fields;
      var feature := Feature(FeatureWrites(e), GeometryOf(e, geometryFromMcid));
      LayerState(fields, Observe(s.tracker, feature.geometry), s.emitted + [feature])
  }

  /** OGRPDFLayer::Fill (ogrpdflayer.cpp:52-165) on the records of the array, in order. */
  function FillAll(s: LayerState, entries: seq<PdfObject>, geometryFromMcid: int -> Option<GeometryType>): (r: LayerState)
    ensures |s.emitted| <= |r.emitted| <= |s.emitted| + |entries|
    decreases |entries|
  {
    if entries == [] then s
    else
      var n := |entries| - 1;
      FillEntry(FillAll(s, entries[..n], geometryFromMcid), entries[n], geometryFromMcid)
  }

  /** The features of the well-formed records, in record order. */
  function FeaturesOf(entries: seq<PdfObject>, geometryFromMcid: int -> Option<GeometryType>): seq<Feature>
    decreases |entries|
  {
    if entries == [] then []
    else
      var f := EntryFeature(entries[0], geometryFromMcid);
      (if f.Some? then [f.value] else []) + FeaturesOf(entries[1..], geometryFromMcid)
  }

  /** The geometry types of a sequence of features. */
  function Geometries(features: seq<Feature>): (gs: seq<Option<GeometryType>>)
    ensures |gs| == |features| && forall i | 0 <= i < |gs| :: gs[i] == features[i].geometry
  {
    seq(|features|, i requires 0 <= i < |features| => features[i].geometry)
  }

  // Lemmas

  /** ogrpdflayer.cpp:57-63: a malformed record is skipped and changes nothing. */
  lemma MalformedEntrySkipped(s: LayerState, e: PdfObject, geometryFromMcid: int -> Option<GeometryType>)
    requires !IsFeatureEntry(e)
    ensures FillEntry(s, e, geometryFromMcid) == s
    ensures EntryFeature(e, geometryFromMcid).None?
  {
  }

  /**
   * ogrpdflayer.cpp:65-72, 79, 113-114: a record without a "P" array still
   * yields one feature, with no field written and the schema unchanged.
   */
  lemma EntryWithoutAttributes(s: LayerState, e: PdfObject, geometryFromMcid: int -> Option<GeometryType>)
    requires IsFeatureEntry(e) && AttributeArray(e).None?
    ensures var r := FillEntry(s, e, geometryFromMcid);
            r.fields == s.fields && r.emitted == s.emitted + [Feature([], GeometryOf(e, geometryFromMcid))]
  {
  }

  /**
   * One well-formed record: one feature is appended after the earlier ones, the
   * schema is extended, every SetField of that feature names a field whose type
   * is the value's type or String, and the tracker sees the feature's geometry.
   */
  lemma FillEntryEmitsOne(s: LayerState, e: PdfObject, geometryFromMcid: int -> Option<GeometryType>)
    requires LayerValid(s) && IsFeatureEntry(e)
    ensures var r := FillEntry(s, e, geometryFromMcid);
            && LayerValid(r)
            && |r.emitted| == |s.emitted| + 1
            && r.emitted[..|s.emitted|] == s.emitted
            && r.emitted[|s.emitted|] == EntryFeature(e, geometryFromMcid).value
            && Extends(s.fields, r.fields)
            && (forall w | w in r.emitted[|s.emitted|].writes :: FieldAccepts(r.fields, w.name, KindOf(w.value)))
            && r.tracker == Observe(s.tracker, GeometryOf(e, geometryFromMcid))
  {
    var ps := AttributeArray(e);
    if ps.Some? {
      SchemaPassExtends(s.fields, ps.value);
      WritesAccepted(s.fields, ps.value);
    }
  }

  /** FeaturesOf over a longer sequence of records. */
  lemma {:induction false} FeaturesOfSnoc(entries: seq<PdfObject>, e: PdfObject, geometryFromMcid: int -> Option<GeometryType>)
    ensures FeaturesOf(entries + [e], geometryFromMcid) ==
              FeaturesOf(entries, geometryFromMcid) + FeaturesOf([e], geometryFromMcid)
    decreases |entries|
  {
    if entries == [] {
      assert entries + [e] == [e];
    } else {
      var longer := entries + [e];
      assert longer[0] == entries[0];
      assert longer[1..] == entries[1..] + [e];
      FeaturesOfSnoc(entries[1..], e, geometryFromMcid);
      var f := EntryFeature(entries[0], geometryFromMcid);
      var head := if f.Some? then [f.value] else [];
      assert FeaturesOf(longer, geometryFromMcid) == head + FeaturesOf(entries[1..] + [e], geometryFromMcid);
      assert FeaturesOf(entries, geometryFromMcid) == head + FeaturesOf(entries[1..], geometryFromMcid);
    }
  }

  /**
   * ogrpdflayer.cpp:54, 161-163: Fill emits exactly one feature per well-formed
   * record, in array order, after those already emitted, and the tracker sees
   * the geometries of those features in order.
   */
  lemma {:induction false} FillAllEmitsInOrder(s: LayerState, entries: seq<PdfObject>, geometryFromMcid: int -> Option<GeometryType>)
    ensures var r := FillAll(s, entries, geometryFromMcid);
            && r.emitted == s.emitted + FeaturesOf(entries, geometryFromMcid)
            && r.tracker == ObserveAll(s.tracker, Geometries(FeaturesOf(entries, geometryFromMcid)))
    decreases |entries|
  {
    if entries == [] {
      assert Geometries([]) == [];
    } else {
      var n := |entries| - 1;
      var mid := FillAll(s, entries[..n], geometryFromMcid);
      var e := entries[n];
      assert FillAll(s, entries, geometryFromMcid) == FillEntry(mid, e, geometryFromMcid);
      FillAllEmitsInOrder(s, entries[..n], geometryFromMcid);
      assert entries == entries[..n] + [e];
      FeaturesOfSnoc(entries[..n], e, geometryFromMcid);
      assert [e][1..] == [];
      var before := FeaturesOf(entries[..n], geometryFromMcid);
      if IsFeatureEntry(e) {
        var f := EntryFeature(e, geometryFromMcid).value;
        assert FeaturesOf(entries, geometryFromMcid) == before + [f];
        assert FillAll(s, entries, geometryFromMcid).emitted == (s.emitted + before) + [f];
        assert (s.emitted + before) + [f] == s.emitted + (before + [f]);
        var gs := Geometries(before + [f]);
        assert gs[..|before|] == Geometries(before) && gs[|before|] == f.geometry;
      } else {
        assert FeaturesOf(entries, geometryFromMcid) == before;
        assert FillAll(s, entries, geometryFromMcid) == mid;
      }
    }
  }

  /** ogrpdflayer.cpp:79-111, 147-160: Fill keeps names unique and the tracker valid, and extends the schema. */
  lemma {:induction false} FillAllKeepsSchema(s: LayerState, entries: seq<PdfObject>, geometryFromMcid: int -> Option<GeometryType>)
    requires LayerValid(s)
    ensures var r := FillAll(s, entries, geometryFromMcid);
            LayerValid(r) && Extends(s.fields, r.fields)
    decreases |entries|
  {
    if entries != [] {
      var n := |entries| - 1;
      var mid := FillAll(s, entries[..n], geometryFromMcid);
      var e := entries[n];
      var r := FillAll(s, entries, geometryFromMcid);
      assert r == FillEntry(mid, e, geometryFromMcid);
      FillAllKeepsSchema(s, entries[..n], geometryFromMcid);
      if IsFeatureEntry(e) {
        FillEntryEmitsOne(mid, e, geometryFromMcid);
        forall i | 0 <= i < |s.fields|
          ensures r.fields[i].name == s.fields[i].name && Accepts(r.fields[i].fieldType, s.fields[i].fieldType)
        {
          assert mid.fields[i].name == s.fields[i].name;
        }
      }
    }
  }

  /**
   * For a new layer, the layer's geometry type after Fill: set once a feature
   * has a geometry, mixed exactly when two features' geometries differ in
   * type, and then wkbUnknown for good.
   */
  lemma FillTracksGeometryTypes(layerType: GeometryType, entries: seq<PdfObject>, geometryFromMcid: int -> Option<GeometryType>)
    ensures var r := FillAll(LayerState([], InitialTracker(layerType), []), entries, geometryFromMcid);
            var gs := Geometries(r.emitted);
            && (r.tracker.typeSet <==> !NoneSeen(gs))
            && (r.tracker.typeMixed <==> !SameType(gs))
            && (NoneSeen(gs) ==> r.tracker.geomType == layerType)
            && (r.tracker.typeMixed ==> r.tracker.geomType == Unknown)
            && (!r.tracker.typeMixed ==> forall i | 0 <= i < |gs| && gs[i].Some? :: gs[i].value == r.tracker.geomType)
  {
    var s := LayerState([], InitialTracker(layerType), []);
    var r := FillAll(s, entries, geometryFromMcid);
    var features := FeaturesOf(entries, geometryFromMcid);
    FillAllEmitsInOrder(s, entries, geometryFromMcid);
    assert [] + features == features;
    assert r.emitted == features && r.tracker == ObserveAll(InitialTracker(layerType), Geometries(features));
    ObserveAllCharacterization(layerType, Geometries(features));
  }

  /** ogrpdflayer.cpp:113-135: pass 2, the SetField calls made on the record's feature, in order. */
  method FeatureValues(ps: seq<PdfObject>) returns (writes: seq<FieldWrite>)
    ensures writes == Writes(ps)
  {
    writes := [];
    var j := 0;
    while j < |ps|
      invariant 0 <= j <= |ps|
      invariant writes == Writes(ps[..j])
    {
      var kv := ps[j];
      if kv.Dictionary? {
        var n := Get(kv, "N");
        var v := Get(kv, "V");
        if n.Some? && n.value.String? && v.Some? {
          var name := n.value.text;
          if v.value.String? {
            writes := writes + [FieldWrite(name, StringValue(v.value.text))];
          } else if v.value.Int? {
            writes := writes + [FieldWrite(name, IntegerValue(v.value.intValue))];
          } else if v.value.Real? {
            writes := writes + [FieldWrite(name, RealValue(v.value.realValue))];
          }
        }
      }
      assert ps[..j + 1][..j] == ps[..j];
      j := j + 1;
    }
    assert ps[..j] == ps;
  }

  class Layer {
    var fields: seq<FieldDefn>
    var geomType: GeometryType
    var geomTypeSet: bool
    var geomTypeMixed: bool
    var emitted: seq<Feature>

    function State(): LayerState
      reads this
    {
      LayerState(fields, Tracker(geomType, geomTypeSet, geomTypeMixed), emitted)
    }

    ghost predicate Valid()
      reads this
    {
      LayerValid(State())
    }

    /** ogrpdflayer.cpp:38-46: an empty layer declaring `geomType`. */
    constructor (geomType: GeometryType)
      ensures Valid()
      ensures State() == LayerState([], InitialTracker(geomType), [])
    {
      fields := [];
      this.geomType := geomType;
      geomTypeSet := false;
      geomTypeMixed := false;
      emitted := [];
    }

    /** ogrpdflayer.cpp:79-111: pass 1, the schema takes in every attribute of the record. */
    method MergeAttributes(ps: seq<PdfObject>)
      requires UniqueNames(fields)
      modifies this`fields
      ensures UniqueNames(fields)
      ensures fields == SchemaPass(old(fields), ps)
    {
      var j := 0;
      while j < |ps|
        invariant 0 <= j <= |ps|
        invariant UniqueNames(fields)
        invariant fields == SchemaPass(old(fields), ps[..j])
      {
        ghost var prev := fields;
        var kv := ps[j];
        if kv.Dictionary? {
          var n := Get(kv, "N");
          var v := Get(kv, "V");
          if n.Some? && n.value.String? && v.Some? {
            var name := n.value.text;
            var idx := FieldIndex(fields, name);
            var eType := StringField;
            if v.value.Int? {
              eType := IntegerField;
            } else if v.value.Real? {
              eType := RealField;
            }
            if idx.None? {
              fields := fields + [FieldDefn(name, eType)];
            } else if fields[idx.value].fieldType != eType && fields[idx.value].fieldType != StringField {
              fields := fields[idx.value := fields[idx.value].(fieldType := StringField)];
            }
          }
        }
        ApplyAttributeExtends(prev, kv);
        assert ps[..j + 1][..j] == ps[..j];
        j := j + 1;
      }
      assert ps[..j] == ps;
    }

    /** ogrpdflayer.cpp:147-160: the geometry-type flags after a feature with geometry `geometry`. */
    method TrackGeometry(geometry: Option<GeometryType>)
      modifies this`geomType, this`geomTypeSet, this`geomTypeMixed
      ensures State().tracker == Observe(old(State().tracker), geometry)
    {
      if !geomTypeMixed && geometry.Some? {
        if !geomTypeSet {
          geomTypeSet := true;
          geomType := geometry.value;
        } else if geomType != geometry.value {
          geomTypeMixed := true;
          geomType := Unknown;
        }
      }
    }

    /** ogrpdflayer.cpp:52-165 */
    method Fill(entries: seq<PdfObject>, geometryFromMcid: int -> Option<GeometryType>)
      requires Valid()
      modifies this
      ensures Valid()
      ensures State() == FillAll(old(State()), entries, geometryFromMcid)
    {
      var i := 0;
      while i < |entries|
        invariant 0 <= i <= |entries|
        invariant Valid()
        invariant State() == FillAll(old(State()), entries[..i], geometryFromMcid)
      {
        ghost var before := State();
        var featureObj := entries[i];
        var a := if featureObj.Dictionary? then Get(featureObj, "A") else None;
        if featureObj.Dictionary? && a.Some? && a.value.Dictionary? {
          // P is optional: older writers produced records without attributes
          var p := Get(a.value, "P");
          var pArray: Option<seq<PdfObject>> := None;
          if p.Some? && p.value.Array? {
            pArray := Some(p.value.items);
          }
          var k := Get(featureObj, "K");
          var nK := -1;
          if k.Some? && k.value.Int? {
            nK := k.value.intValue;
          }

          var writes: seq<FieldWrite> := [];
          if pArray.Some? {
            MergeAttributes(pArray.value);
            writes := FeatureValues(pArray.value);
          }

          var geometry: Option<GeometryType> := None;
          if nK >= 0 {
            var g := geometryFromMcid(nK);
            if g.Some? {
              geometry := g;
            }
          }

          TrackGeometry(geometry);
          emitted := emitted + [Feature(writes, geometry)];
        }
        assert entries[..i + 1][..i] == entries[..i];
        i := i + 1;
      }
      assert entries[..i] == entries;
    }
  }
}
