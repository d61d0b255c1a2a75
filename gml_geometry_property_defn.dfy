/**
 * GMLGeometryPropertyDefn (ogr/ogrsf_frmts/gml/gmlpropertydefn.cpp): a geometry
 * property of a GML feature class, which tracks whether all its geometries
 * carry the same spatial reference system name.
 */
module GmlGeometryPropertyDefn {
  import opened Wrappers

  /** m_bSRSNameConsistent and m_osSRSName. */
  datatype SrsState = SrsState(consistent: bool, name: string)

  /** The state of a new geometry property: consistent, with no name yet. */
  const InitialSrs: SrsState := SrsState(true, "")

  /** Once the names disagree, the name is cleared. */
  predicate SrsValid(s: SrsState) {
    !s.consistent ==> s.name == ""
  }

  /** gmlpropertydefn.cpp:249-267 */
  function MergedSrs(s: SrsState, candidate: string): (r: SrsState)
    ensures !s.consistent ==> r == s
    ensures s.consistent && s.name == "" ==> r == SrsState(true, candidate)
    ensures s.consistent && s.name != "" ==> (r.consistent <==> candidate == s.name)
    ensures r.consistent ==> s.consistent && r.name == (if s.name == "" then candidate else s.name)
    ensures SrsValid(s) ==> SrsValid(r)
  {
    if !s.consistent then s
    else if s.name == "" then s.(name := candidate)
    else if candidate == s.name then s
    else SrsState(false, "")
  }

  /** The state after merging the names of all geometries, in order, into a new property. */
  function MergeAll(candidates: seq<string>): (r: SrsState)
    ensures SrsValid(r)
    ensures r.name == "" || r.name in candidates
    decreases |candidates|
  {
    if candidates == [] then InitialSrs
    else
      var n := |candidates| - 1;
      MergedSrs(MergeAll(candidates[..n]), candidates[n])
  }

  /** Every name that follows a non-empty name equals it. */
  predicate Agree(candidates: seq<string>) {
    forall i, j | 0 <= i < j < |candidates| :: candidates[i] != "" ==> candidates[j] == candidates[i]
  }

  /**
   * A geometry property stays consistent exactly when the names agree; its name
   * is then the name every non-empty candidate carries ("" when there is none),
   * and it is "" once inconsistent.
   */
  lemma {:induction false} MergeAllCharacterization(candidates: seq<string>)
    ensures var r := MergeAll(candidates);
            && (r.consistent <==> Agree(candidates))
            && (r.consistent ==> forall i | 0 <= i < |candidates| :: candidates[i] != "" ==> candidates[i] == r.name)
            && (r.name != "" ==> r.name in candidates)
            && SrsValid(r)
    decreases |candidates|
  {
    if candidates != [] {
      var n := |candidates| - 1;
      var prefix := candidates[..n];
      var c := candidates[n];
      MergeAllCharacterization(prefix);
      var p := MergeAll(prefix);
      var r := MergeAll(candidates);
      assert forall i | 0 <= i < n :: candidates[i] == prefix[i];
      if r.consistent {
        assert p.consistent;
        forall i, j | 0 <= i < j < |candidates| && candidates[i] != ""
          ensures candidates[j] == candidates[i]
        {
          if j < n {
            assert prefix[i] != "";
          } else {
            assert prefix[i] != "";
            assert prefix[i] == p.name;
          }
        }
      } else if p.consistent {
        // the last candidate clashes with the name gathered so far
        assert p.name != "" && c != p.name;
        var i :| 0 <= i < n && prefix[i] == p.name;
        assert candidates[i] != "" && candidates[n] != candidates[i];
      } else {
        assert !Agree(prefix);
        var i, j :| 0 <= i < j < n && prefix[i] != "" && prefix[j] != prefix[i];
        assert candidates[i] != "" && candidates[j] != candidates[i];
      }
      if r.name != "" {
        if r.name == p.name {
          assert p.name in prefix;
          var i :| 0 <= i < n && prefix[i] == p.name;
          assert candidates[i] == r.name;
        } else {
          assert candidates[n] == r.name;
        }
      }
    }
  }

  /** Example: two equal names, then a different one, then the first again. */
  lemma ScenarioSrs()
    ensures MergeAll(["EPSG:4326", "EPSG:4326"]) == SrsState(true, "EPSG:4326")
    ensures MergeAll(["EPSG:4326", "EPSG:4326", "EPSG:3857"]) == SrsState(false, "")
    ensures MergeAll(["EPSG:4326", "EPSG:4326", "EPSG:3857", "EPSG:4326"]) == SrsState(false, "")
  {
    assert ["EPSG:4326", "EPSG:4326"][..1] == ["EPSG:4326"];
    assert ["EPSG:4326"][..0] == [];
    assert ["EPSG:4326", "EPSG:4326", "EPSG:3857"][..2] == ["EPSG:4326", "EPSG:4326"];
    assert ["EPSG:4326", "EPSG:4326", "EPSG:3857", "EPSG:4326"][..3] == ["EPSG:4326", "EPSG:4326", "EPSG:3857"];
  }

  /**
   * gmlpropertydefn.cpp:227-228: the name of a geometry property, which falls
   * back to its source element when no name is given.
   */
  function GeometryPropertyName(name: Option<string>, srcElement: string): (r: string)
    ensures name.None? || name.value == "" ==> r == srcElement
    ensures name.Some? && name.value != "" ==> r == name.value
  {
    if name.None? || name.value == "" then srcElement else name.value
  }

  class GeometryPropertyDefn {
    var name: string
    var srcElement: string
    var geometryType: int
    var attributeIndex: int
    var nullable: bool
    var srsName: string
    var srsNameConsistent: bool

    function Srs(): SrsState
      reads this
    {
      SrsState(srsNameConsistent, srsName)
    }

    /** gmlpropertydefn.cpp:222-233 */
    constructor (name: Option<string>, srcElement: string, geometryType: int, attributeIndex: int, nullable: bool)
      ensures this.name == GeometryPropertyName(name, srcElement)
      ensures this.srcElement == srcElement && this.geometryType == geometryType
      ensures this.attributeIndex == attributeIndex && this.nullable == nullable
      ensures Srs() == InitialSrs
    {
      this.name := GeometryPropertyName(name, srcElement);
      this.srcElement := srcElement;
      this.geometryType := geometryType;
      this.attributeIndex := attributeIndex;
      this.nullable := nullable;
      srsName := "";
      srsNameConsistent := true;
    }

    /** gmlpropertydefn.cpp:249-267 */
    method MergeSRSName(candidate: string)
      requires SrsValid(Srs())
      modifies this`srsName, this`srsNameConsistent
      ensures Srs() == MergedSrs(old(Srs()), candidate)
      ensures SrsValid(Srs())
    {
      if !srsNameConsistent {
        return;
      }
      if srsName == "" {
        srsName := candidate;
      } else {
        srsNameConsistent := candidate == srsName;
        if !srsNameConsistent {
          srsName := "";
        }
      }
    }
  }
}
