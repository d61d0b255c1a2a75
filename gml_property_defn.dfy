/**
 * GMLPropertyDefn (ogr/ogrsf_frmts/gml/gmlpropertydefn.cpp): the definition of
 * one attribute of a GML feature class, whose type and width are inferred from
 * the values seen.
 */
module GmlPropertyDefn {
  import opened Wrappers
  import opened GmlPropertyType

  /** strlen of an optional source element in UTF-8 bytes, 0 for a null one. */
  function SourceLength(srcElement: Option<string>): (r: nat)
    ensures srcElement.None? ==> r == 0
    ensures srcElement.Some? ==> r == Utf8Length(srcElement.value) && |srcElement.value| <= r
  {
    if srcElement.Some? then Utf8Length(srcElement.value) else 0
  }

  class PropertyDefn {
    var name: string
    var eType: PropertyType
    var width: int
    var precision: int
    var srcElement: Option<string>
    var srcElementLen: nat
    var nullable: bool

    /** gmlpropertydefn.cpp:43-53 */
    constructor (name: string, srcElement: Option<string>)
      ensures this.name == name && eType == Untyped && width == 0 && precision == 0
      ensures this.srcElement == srcElement && srcElementLen == SourceLength(srcElement)
      ensures nullable
    {
      this.name := name;
      eType := Untyped;
      width := 0;
      precision := 0;
      this.srcElement := srcElement;
      srcElementLen := SourceLength(srcElement);
      nullable := true;
    }

    /** gmlpropertydefn.cpp:71-85 */
    method SetSrcElement(src: Option<string>)
      modifies this`srcElement, this`srcElementLen
      ensures srcElement == src && srcElementLen == SourceLength(src)
    {
      if src.Some? {
        srcElementLen := Utf8Length(src.value);
        srcElement := src;
      } else {
        srcElementLen := 0;
        srcElement := None;
      }
    }

    /**
     * gmlpropertydefn.cpp:104-216: fold the sub-values of one property occurrence
     * into the type and the width.
     */
    method AnalysePropertyValue(c: Classifier, subValues: seq<string>, setWidth: bool)
      modifies this`eType, this`width
      ensures var r := Analyse(c, Analysis(old(eType), old(width), false), subValues, setWidth);
              eType == r.eType && width == r.width
      ensures Generalizes(eType, old(eType))
      ensures old(eType) == StringList ==> eType == StringList
    {
      ghost var start := Analysis(eType, width, false);
      var isReal := false;
      var j := 0;
      while j < |subValues|
        invariant 0 <= j <= |subValues|
        invariant Analysis(eType, width, isReal) == Analyse(c, start, subValues[..j], setWidth)
      {
        ghost var before := Analysis(eType, width, isReal);
        if j > 0 {
          PromoteToListType(isReal);
        }
        var value := subValues[j];
        if value != "" {
          isReal := ClassifyValue(c, value, setWidth, isReal);
        }
        assert Analysis(eType, width, isReal) == Step(c, before, j, value, setWidth);
        assert subValues[..j + 1][..j] == subValues[..j];
        j := j + 1;
      }
      assert subValues[..j] == subValues;
      AnalyseWidens(c, start, subValues, setWidth);
      if start.eType == StringList {
        AnalyseKeepsStringList(c, start, subValues, setWidth);
      }
    }

    /** gmlpropertydefn.cpp:115-136: a later sub-value turns a scalar type into its list type. */
    method PromoteToListType(ghost isReal: bool)
      modifies this`eType, this`width
      ensures Analysis(eType, width, isReal) == Promote(Analysis(old(eType), old(width), isReal))
    {
      if eType == Integer {
        eType := IntegerList;
      } else if eType == Integer64 {
        eType := Integer64List;
      } else if eType == Real {
        eType := RealList;
      } else if eType == String {
        eType := StringList;
        width := 0;
      } else if eType == Boolean {
        eType := BooleanList;
      }
    }

    /**
     * gmlpropertydefn.cpp:145-214: classify one non-empty sub-value, given the
     * bIsReal left by the previous one; returns the new bIsReal.
     */
    method ClassifyValue(c: Classifier, value: string, setWidth: bool, isReal: bool) returns (isRealAfter: bool)
      modifies this`eType, this`width
      ensures Analysis(eType, width, isRealAfter) == Classify(c, Analysis(old(eType), old(width), isReal), value, setWidth)
    {
      isRealAfter := isReal;
      var valueType := c.getValueType(value);
      if valueType == StringValue && eType != String && eType != StringList {
        if (eType == Untyped || eType == Boolean) && (value == "true" || value == "false") {
          eType := Boolean;
        } else if eType == BooleanList {
          if !(value == "true" || value == "false") {
            eType := StringList;
          }
        } else if eType == IntegerList || eType == Integer64List || eType == RealList {
          eType := StringList;
        } else {
          eType := String;
        }
      } else {
        isRealAfter := valueType == RealValue;
      }

      if eType == String {
        if setWidth {
          var n := Utf8Length(value);
          if width < n {
            width := n;
          }
        }
      } else if eType == Untyped || eType == Integer || eType == Integer64 {
        if isRealAfter {
          eType := Real;
        } else if eType != Integer64 {
          var n := c.atoGIntBig(value);
          if !FitsOnInt32(n) {
            eType := Integer64;
          } else {
            eType := Integer;
          }
        }
      } else if (eType == IntegerList || eType == Integer64List) && isRealAfter {
        eType := RealList;
      } else if eType == IntegerList && valueType == IntegerValue {
        var n := c.atoGIntBig(value);
        if !FitsOnInt32(n) {
          eType := Integer64List;
        }
      }
    }
  }
}
