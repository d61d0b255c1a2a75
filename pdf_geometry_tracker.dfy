/**
 * The geometry-type bookkeeping of OGRPDFLayer::Fill
 * (frmts/pdf/ogrpdflayer.cpp:44-45, 147-160): the layer's geometry type, and
 * the flags bGeomTypeSet and bGeomTypeMixed.
 */
module PdfGeometryTracker {
  import opened Wrappers

  /** An OGRwkbGeometryType code. */
  type GeometryType = int

  /** wkbUnknown */
  const Unknown: GeometryType := 0

  datatype Tracker = Tracker(geomType: GeometryType, typeSet: bool, typeMixed: bool)

  /** ogrpdflayer.cpp:38-46: a new layer declares `layerType` and has seen no geometry. */
  function InitialTracker(layerType: GeometryType): (r: Tracker)
    ensures r.geomType == layerType && !r.typeSet && !r.typeMixed
    ensures TrackerValid(r)
  {
    Tracker(layerType, false, false)
  }

  /** Mixed is reached only after a first geometry, and then the layer type is wkbUnknown. */
  predicate TrackerValid(t: Tracker) {
    t.typeMixed ==> t.typeSet && t.geomType == Unknown
  }

  /** ogrpdflayer.cpp:147-160: the update for one feature, with or without a geometry. */
  function Observe(t: Tracker, g: Option<GeometryType>): (r: Tracker)
    ensures g.None? || t.typeMixed ==> r == t
    ensures g.Some? && !t.typeSet && !t.typeMixed ==> r == Tracker(g.value, true, false)
    ensures g.Some? && t.typeSet && !t.typeMixed ==>
              r == if g.value == t.geomType then t else Tracker(Unknown, true, true)
    ensures TrackerValid(t) ==> TrackerValid(r)
  {
    if !t.typeMixed && g.Some? then
      if !t.typeSet then t.(typeSet := true, geomType := g.value)
      else if t.geomType != g.value then t.(typeMixed := true, geomType := Unknown)
      else t
    else t
  }

  /** The tracker after the features' geometries, in order. */
  function ObserveAll(t: Tracker, gs: seq<Option<GeometryType>>): (r: Tracker)
    ensures TrackerValid(t) ==> TrackerValid(r)
    ensures t.typeSet ==> r.typeSet
    ensures t.typeMixed ==> r.typeMixed
    decreases |gs|
  {
    if gs == [] then t
    else
      var n := |gs| - 1;
      Observe(ObserveAll(t, gs[..n]), gs[n])
  }

  /** No geometry was seen. */
  predicate NoneSeen(gs: seq<Option<GeometryType>>) {
    forall i | 0 <= i < |gs| :: gs[i].None?
  }

  /** All the geometries seen have the same type. */
  predicate SameType(gs: seq<Option<GeometryType>>) {
    forall i, j | 0 <= i < |gs| && 0 <= j < |gs| && gs[i].Some? && gs[j].Some? :: gs[i].value == gs[j].value
  }

  /**
   * Starting from a new layer: the type is set exactly when a geometry was
   * seen, mixed exactly when two of those differ in type; while not mixed, the
   * layer type is the type of every geometry seen (or the declared one when
   * none was); once mixed, it is wkbUnknown.
   */
  lemma {:induction false} ObserveAllCharacterization(layerType: GeometryType, gs: seq<Option<GeometryType>>)
    ensures var r := ObserveAll(InitialTracker(layerType), gs);
            && (r.typeSet <==> !NoneSeen(gs))
            && (r.typeMixed <==> !SameType(gs))
            && (NoneSeen(gs) ==> r.geomType == layerType)
            && (!r.typeMixed ==> forall i | 0 <= i < |gs| && gs[i].Some? :: gs[i].value == r.geomType)
            && TrackerValid(r)
    decreases |gs|
  {
    if gs != [] {
      var n := |gs| - 1;
      var prefix := gs[..n];
      ObserveAllCharacterization(layerType, prefix);
      var p := ObserveAll(InitialTracker(layerType), prefix);
      var r := ObserveAll(InitialTracker(layerType), gs);
      assert forall i | 0 <= i < n :: gs[i] == prefix[i];
      if gs[n].None? {
        assert NoneSeen(gs) <==> NoneSeen(prefix);
        assert SameType(gs) <==> SameType(prefix);
      } else if !p.typeSet {
        assert NoneSeen(prefix);
        assert SameType(gs);
      } else if !p.typeMixed {
        var i :| 0 <= i < n && prefix[i].Some?;
        assert gs[i].Some? && gs[i].value == p.geomType;
        if gs[n].value == p.geomType {
          assert SameType(gs);
        } else {
          assert !SameType(gs);
        }
      } else {
        var i, j :| 0 <= i < n && 0 <= j < n && prefix[i].Some? && prefix[j].Some? && prefix[i].value != prefix[j].value;
        assert gs[i] == prefix[i] && gs[j] == prefix[j];
      }
    }
  }

  /** Once mixed, the tracker never changes again. */
  lemma {:induction false} MixedIsFinal(t: Tracker, gs: seq<Option<GeometryType>>)
    requires t.typeMixed
    ensures ObserveAll(t, gs) == t
    decreases |gs|
  {
    if gs != [] {
      MixedIsFinal(t, gs[..|gs| - 1]);
    }
  }

  /** Example: Point, Point, LineString. */
  lemma ScenarioGeometry(layerType: GeometryType)
    ensures var point, line := 1, 2;
            && ObserveAll(InitialTracker(layerType), [Some(point)]) == Tracker(point, true, false)
            && ObserveAll(InitialTracker(layerType), [Some(point), Some(point)]) == Tracker(point, true, false)
            && ObserveAll(InitialTracker(layerType), [Some(point), Some(point), Some(line)]) == Tracker(Unknown, true, true)
  {
    var gs: seq<Option<GeometryType>> := [Some(1), Some(1), Some(2)];
    assert gs[..2][..1] == gs[..1] && gs[..1][..0] == [];
    assert [Some(1), Some(1)] == gs[..2] && [Some(1)] == gs[..1];
  }
}
