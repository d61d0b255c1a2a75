/**
 * The field types that GML property analysis infers from raw text values, and
 * the transition applied to one sub-value by GMLPropertyDefn::AnalysePropertyValue
 * (ogr/ogrsf_frmts/gml/gmlpropertydefn.cpp).
 */
module GmlPropertyType {

  /** The GMLPT_* states that analysis of raw values can produce. */
  datatype PropertyType =
    | Untyped
    | Boolean | Integer | Integer64 | Real | String
    | BooleanList | IntegerList | Integer64List | RealList | StringList

  predicate IsList(t: PropertyType) {
    t.BooleanList? || t.IntegerList? || t.Integer64List? || t.RealList? || t.StringList?
  }

  /** Every type at least as general as `t`: the generality order of the inferred types. */
  function WiderOrEqual(t: PropertyType): set<PropertyType> {
    match t
    case Untyped =>
      {Untyped, Boolean, Integer, Integer64, Real, String,
       BooleanList, IntegerList, Integer64List, RealList, StringList}
    case Boolean => {Boolean, String, BooleanList, StringList}
    case Integer =>
      {Integer, Integer64, Real, String, IntegerList, Integer64List, RealList, StringList}
    case Integer64 => {Integer64, Real, String, Integer64List, RealList, StringList}
    case Real => {Real, String, RealList, StringList}
    case String => {String, StringList}
    case BooleanList => {BooleanList, StringList}
    case IntegerList => {IntegerList, Integer64List, RealList, StringList}
    case Integer64List => {Integer64List, RealList, StringList}
    case RealList => {RealList, StringList}
    case StringList => {StringList}
  }

  predicate Generalizes(wide: PropertyType, narrow: PropertyType) {
    wide in WiderOrEqual(narrow)
  }

  /** Generalizes is a partial order. */
  lemma GeneralizesOrder(a: PropertyType, b: PropertyType, c: PropertyType)
    ensures Generalizes(a, a)
    ensures Generalizes(a, b) && Generalizes(b, a) ==> a == b
    ensures Generalizes(c, b) && Generalizes(b, a) ==> Generalizes(c, a)
  {
  }

  /** What CPLGetValueType reports for a non-empty token. */
  datatype ValueType = IntegerValue | RealValue | StringValue

  /**
   * The two helpers the analysis depends on and whose code is not part of this
   * model: CPLGetValueType and CPLAtoGIntBig.
   */
  datatype Classifier = Classifier(getValueType: string -> ValueType, atoGIntBig: string -> int)

  const Int32Min: int := -0x8000_0000
  const Int32Max: int := 0x7FFF_FFFF

  /** CPL_INT64_FITS_ON_INT32 */
  predicate FitsOnInt32(n: int) {
    Int32Min <= n <= Int32Max
  }

  /**
   * The state the loop of AnalysePropertyValue works on: the fields m_eType and
   * m_nWidth, and the local bIsReal, which is declared outside the loop and so
   * survives from one sub-value to the next.
   */
  datatype Analysis = Analysis(eType: PropertyType, width: int, isReal: bool)

  /** The number of bytes of the UTF-8 encoding of a character. */
  function Utf8Bytes(ch: char): nat {
    if ch as int < 0x80 then 1
    else if ch as int < 0x800 then 2
    else if ch as int < 0x1_0000 then 3
    else 4
  }

  /**
   * strlen of a text held in UTF-8: the length of its encoding in bytes, which
   * is the number of characters only for ASCII text.
   */
  function Utf8Length(text: string): (r: nat)
    ensures |text| <= r <= 4 * |text|
    ensures (forall i | 0 <= i < |text| :: text[i] as int < 0x80) ==> r == |text|
    decreases |text|
  {
    if text == [] then 0
    else Utf8Length(text[..|text| - 1]) + Utf8Bytes(text[|text| - 1])
  }

  /** gmlpropertydefn.cpp:115-136: a later sub-value turns a scalar type into its list type. */
  function Promote(s: Analysis): (r: Analysis)
    ensures Generalizes(r.eType, s.eType) && r.isReal == s.isReal
    ensures s.eType != Untyped ==> IsList(r.eType)
  {
    match s.eType
    case Integer => s.(eType := IntegerList)
    case Integer64 => s.(eType := Integer64List)
    case Real => s.(eType := RealList)
    case String => s.(eType := StringList, width := 0)
    case Boolean => s.(eType := BooleanList)
    case _ => s
  }

  predicate IsBooleanText(token: string) {
    token == "true" || token == "false"
  }

  /** gmlpropertydefn.cpp:151-172: the type after a token CPLGetValueType calls a string. */
  function TextType(t: PropertyType, token: string): (r: PropertyType)
    ensures r != Untyped
    ensures t != StringList ==> Generalizes(r, t)
    ensures IsList(t) && t != StringList ==> IsList(r)
  {
    if (t == Untyped || t == Boolean) && IsBooleanText(token) then Boolean
    else if t == BooleanList then
      (if IsBooleanText(token) then BooleanList else StringList)
    else if t == IntegerList || t == Integer64List || t == RealList then StringList
    else String
  }

  /**
   * gmlpropertydefn.cpp:145-177: the first half of classifying a non-empty
   * token. A string token retypes the property, and any other token sets bIsReal.
   */
  function NoteValueType(c: Classifier, s: Analysis, token: string): (r: Analysis)
    ensures r.width == s.width && Generalizes(r.eType, s.eType)
    ensures c.getValueType(token) != StringValue ==> r == s.(isReal := c.getValueType(token) == RealValue)
    ensures r.eType != s.eType ==> r.isReal == s.isReal
  {
    var valueType := c.getValueType(token);
    if valueType == StringValue && s.eType != String && s.eType != StringList
    then s.(eType := TextType(s.eType, token))
    else s.(isReal := valueType == RealValue)
  }

  /**
   * gmlpropertydefn.cpp:179-214: the second half. A String property grows its
   * width, and a numeric property is widened by the value.
   */
  function RefineType(c: Classifier, s: Analysis, token: string, setWidth: bool): (r: Analysis)
    ensures r.isReal == s.isReal && Generalizes(r.eType, s.eType) && r.eType != Untyped
    ensures r.width == s.width || (r.eType == String && setWidth && s.width < r.width == Utf8Length(token))
  {
    if s.eType == String then
      (if setWidth && s.width < Utf8Length(token) then s.(width := Utf8Length(token)) else s)
    else if s.eType == Untyped || s.eType == Integer || s.eType == Integer64 then
      (if s.isReal then s.(eType := Real)
       else if s.eType != Integer64 then
         s.(eType := if FitsOnInt32(c.atoGIntBig(token)) then Integer else Integer64)
       else s)
    else if (s.eType == IntegerList || s.eType == Integer64List) && s.isReal then
      s.(eType := RealList)
    else if s.eType == IntegerList && c.getValueType(token) == IntegerValue && !FitsOnInt32(c.atoGIntBig(token)) then
      s.(eType := Integer64List)
    else s
  }

  /** gmlpropertydefn.cpp:145-214: classification of one non-empty token. */
  function Classify(c: Classifier, s: Analysis, token: string, setWidth: bool): (r: Analysis)
    ensures r.eType != Untyped && Generalizes(r.eType, s.eType)
    ensures r.width == s.width || (r.eType == String && setWidth && s.width < r.width == Utf8Length(token))
  {
    var noted := NoteValueType(c, s, token);
    var r := RefineType(c, noted, token, setWidth);
    GeneralizesOrder(r.eType, noted.eType, s.eType);
    r
  }

  /** One iteration of the loop of AnalysePropertyValue: sub-value number `j`. */
  function Step(c: Classifier, s: Analysis, j: nat, token: string, setWidth: bool): (r: Analysis)
    ensures Generalizes(r.eType, s.eType)
    ensures token != "" ==> r.eType != Untyped
    ensures token == "" ==> (r.eType == Untyped <==> s.eType == Untyped)
  {
    var p := if j > 0 then Promote(s) else s;
    if token == "" then p else Classify(c, p, token, setWidth)
  }

  /** The whole loop of AnalysePropertyValue over the sub-values of one property occurrence. */
  function Analyse(c: Classifier, s: Analysis, subValues: seq<string>, setWidth: bool): (r: Analysis)
    ensures r.eType == Untyped <==> s.eType == Untyped && forall i | 0 <= i < |subValues| :: subValues[i] == ""
    decreases |subValues|
  {
    if subValues == [] then s
    else
      var n := |subValues| - 1;
      var prev := Analyse(c, s, subValues[..n], setWidth);
      assert forall i | 0 <= i < n :: subValues[..n][i] == subValues[i];
      Step(c, prev, n, subValues[n], setWidth)
  }

  // Facts about one step.

  /** gmlpropertydefn.cpp:115-136: the promotion applied before a later sub-value is looked at. */
  lemma PromoteToList(s: Analysis)
    ensures s.eType == Integer ==> Promote(s).eType == IntegerList
    ensures s.eType == Integer64 ==> Promote(s).eType == Integer64List
    ensures s.eType == Real ==> Promote(s).eType == RealList
    ensures s.eType == Boolean ==> Promote(s).eType == BooleanList
    ensures s.eType == String ==> Promote(s).eType == StringList && Promote(s).width == 0
    ensures s.eType != String ==> Promote(s).width == s.width
    ensures s.eType == Untyped || IsList(s.eType) ==> Promote(s) == s
  {
  }

  /** gmlpropertydefn.cpp:142-143: an empty sub-value changes nothing beyond the promotion. */
  lemma StepEmptyToken(c: Classifier, s: Analysis, j: nat, setWidth: bool)
    ensures Step(c, s, j, "", setWidth) == (if j > 0 then Promote(s) else s)
  {
  }

  /** gmlpropertydefn.cpp:147-173: a token classified as a string, on a type other than String/StringList. */
  lemma StepTextToken(c: Classifier, s: Analysis, j: nat, token: string, setWidth: bool)
    requires token != "" && c.getValueType(token) == StringValue
    ensures var p := if j > 0 then Promote(s) else s;
            var r := Step(c, s, j, token, setWidth);
            p.eType != String && p.eType != StringList ==>
              && ((p.eType == Untyped || p.eType == Boolean) && IsBooleanText(token) ==> r.eType == Boolean)
              && (p.eType == BooleanList ==> r.eType == if IsBooleanText(token) then BooleanList else StringList)
              && (p.eType == IntegerList || p.eType == Integer64List || p.eType == RealList ==> r.eType == StringList)
              && ((p.eType == Untyped || p.eType == Boolean) && !IsBooleanText(token) ==> r.eType == String)
              && (p.eType == Integer || p.eType == Integer64 || p.eType == Real ==> r.eType == String)
  {
  }

  /** gmlpropertydefn.cpp:147-214: String and StringList are left only by list promotion. */
  lemma StepStringAbsorbs(c: Classifier, s: Analysis, j: nat, token: string, setWidth: bool)
    ensures s.eType == StringList ==> Step(c, s, j, token, setWidth).eType == StringList
    ensures s.eType == String ==> Step(c, s, j, token, setWidth).eType == if j > 0 then StringList else String
  {
  }

  /** gmlpropertydefn.cpp:174-214: the effect of a numeric token on the (promoted) type. */
  lemma StepNumericToken(c: Classifier, s: Analysis, j: nat, token: string, setWidth: bool)
    requires token != "" && c.getValueType(token) != StringValue
    ensures var p := if j > 0 then Promote(s) else s;
            var r := Step(c, s, j, token, setWidth);
            var isReal := c.getValueType(token) == RealValue;
            var fits := FitsOnInt32(c.atoGIntBig(token));
            && (p.eType in {Boolean, BooleanList, Real, RealList, String, StringList} ==> r.eType == p.eType)
            && (p.eType in {Untyped, Integer, Integer64} && isReal ==> r.eType == Real)
            && (p.eType in {Untyped, Integer} && !isReal ==> r.eType == if fits then Integer else Integer64)
            && (p.eType == Integer64 && !isReal ==> r.eType == Integer64)
            && (p.eType in {IntegerList, Integer64List} && isReal ==> r.eType == RealList)
            && (p.eType == IntegerList && !isReal ==> r.eType == if fits then IntegerList else Integer64List)
            && (p.eType == Integer64List && !isReal ==> r.eType == Integer64List)
  {
    var p := if j > 0 then Promote(s) else s;
    assert Step(c, s, j, token, setWidth) == Classify(c, p, token, setWidth);
    match p.eType
    case String =>
    case StringList =>
    case _ =>
  }

  /**
   * gmlpropertydefn.cpp:132, 179-188: the width changes only when the type ends up
   * String and widths are tracked, and then it grows to the token's length in
   * UTF-8 bytes; it is
   * reset only by the String to StringList promotion.
   */
  lemma StepWidth(c: Classifier, s: Analysis, j: nat, token: string, setWidth: bool)
    ensures var pw := if j > 0 && s.eType == String then 0 else s.width;
            var r := Step(c, s, j, token, setWidth);
            r.width == if r.eType == String && setWidth && token != "" && pw < Utf8Length(token) then Utf8Length(token) else pw
    ensures Step(c, s, j, token, setWidth).eType == String ==> Step(c, s, j, token, setWidth).width >= s.width
  {
  }

  /** List types stay list types, and a typed property becomes a list at its second sub-value. */
  lemma StepListStaysList(c: Classifier, s: Analysis, j: nat, token: string, setWidth: bool)
    ensures IsList(s.eType) ==> IsList(Step(c, s, j, token, setWidth).eType)
    ensures j > 0 && s.eType != Untyped ==> IsList(Step(c, s, j, token, setWidth).eType)
  {
  }

  /**
   * Classifying the same token twice as the first sub-value (j = 0) gives the
   * same type and width as classifying it once. At a later index it does not:
   * the promotion turns Integer into IntegerList.
   */
  lemma StepIdempotent(c: Classifier, s: Analysis, token: string, setWidth: bool)
    ensures var r := Step(c, s, 0, token, setWidth);
            var r2 := Step(c, r, 0, token, setWidth);
            r2.eType == r.eType && r2.width == r.width
  {
    if token != "" {
      var r := RefineType(c, NoteValueType(c, s, token), token, setWidth);
      assert Step(c, s, 0, token, setWidth) == r;
      assert Step(c, r, 0, token, setWidth) == RefineType(c, NoteValueType(c, r, token), token, setWidth);
      if c.getValueType(token) == StringValue {
        assert r.eType in {Boolean, BooleanList, String, StringList};
      } else {
        assert NoteValueType(c, r, token) == r;
      }
    }
  }

  /** The value bIsReal carries over from the previous sub-value never influences the type or width. */
  lemma StepIgnoresStaleIsReal(c: Classifier, s: Analysis, j: nat, token: string, setWidth: bool, stale: bool)
    ensures var r := Step(c, s, j, token, setWidth);
            var r2 := Step(c, s.(isReal := stale), j, token, setWidth);
            r2.eType == r.eType && r2.width == r.width
  {
    if token != "" {
      var p := if j > 0 then Promote(s) else s;
      var q := p.(isReal := stale);
      assert (if j > 0 then Promote(s.(isReal := stale)) else s.(isReal := stale)) == q;
      var valueType := c.getValueType(token);
      if valueType == StringValue && p.eType != String && p.eType != StringList {
        // the stale value is kept, but only the numeric branch reads it, and a text type is never numeric
        var t := TextType(p.eType, token);
        assert t == Boolean || t == BooleanList || t == StringList || t == String;
      } else {
        // a numeric token overwrites the stale value
        assert q.(isReal := valueType == RealValue) == p.(isReal := valueType == RealValue);
      }
    }
  }

  // Facts about a whole property occurrence.

  /** The type after any prefix of the sub-values is generalized by the type at the end. */
  lemma {:induction false} AnalyseMonotone(c: Classifier, s: Analysis, subValues: seq<string>, k: nat, setWidth: bool)
    requires k <= |subValues|
    ensures Generalizes(Analyse(c, s, subValues, setWidth).eType, Analyse(c, s, subValues[..k], setWidth).eType)
    decreases |subValues|
  {
    if k == |subValues| {
      assert subValues[..k] == subValues;
      GeneralizesOrder(Analyse(c, s, subValues, setWidth).eType, s.eType, s.eType);
    } else {
      var n := |subValues| - 1;
      var prev := Analyse(c, s, subValues[..n], setWidth);
      assert subValues[..n][..k] == subValues[..k];
      AnalyseMonotone(c, s, subValues[..n], k, setWidth);
      GeneralizesOrder(Analyse(c, s, subValues[..k], setWidth).eType, prev.eType,
                       Analyse(c, s, subValues, setWidth).eType);
    }
  }

  /** A whole occurrence moves the type to an equal or more general one. */
  lemma AnalyseWidens(c: Classifier, s: Analysis, subValues: seq<string>, setWidth: bool)
    ensures Generalizes(Analyse(c, s, subValues, setWidth).eType, s.eType)
  {
    AnalyseMonotone(c, s, subValues, 0, setWidth);
    assert subValues[..0] == [];
  }

  /** A property that has become a list of strings stays one, whatever sub-values follow. */
  lemma {:induction false} AnalyseKeepsStringList(c: Classifier, s: Analysis, subValues: seq<string>, setWidth: bool)
    requires s.eType == StringList
    ensures Analyse(c, s, subValues, setWidth).eType == StringList
    decreases |subValues|
  {
    if subValues != [] {
      var n := |subValues| - 1;
      AnalyseKeepsStringList(c, s, subValues[..n], setWidth);
      StepStringAbsorbs(c, Analyse(c, s, subValues[..n], setWidth), n, subValues[n], setWidth);
    }
  }

  /**
   * An occurrence with two or more sub-values whose first sub-value leaves the
   * property typed ends with a list type.
   */
  lemma {:induction false} AnalyseListAfterSecondValue(c: Classifier, s: Analysis, subValues: seq<string>, setWidth: bool)
    requires |subValues| >= 2
    requires Analyse(c, s, subValues[..1], setWidth).eType != Untyped
    ensures IsList(Analyse(c, s, subValues, setWidth).eType)
    decreases |subValues|
  {
    var n := |subValues| - 1;
    var prev := Analyse(c, s, subValues[..n], setWidth);
    if n > 1 {
      assert subValues[..n][..1] == subValues[..1];
      AnalyseListAfterSecondValue(c, s, subValues[..n], setWidth);
    }
    assert prev.eType != Untyped;
    StepListStaysList(c, prev, n, subValues[n], setWidth);
  }

  // Example occurrences, for any classifier that reads the tokens as a number parser would.

  const Fresh: Analysis := Analysis(Untyped, 0, false)

  /** Two single-valued occurrences "12" and "3.5": Integer, then Real. */
  lemma ScenarioScalarWidening(c: Classifier)
    requires c.getValueType("12") == IntegerValue && c.atoGIntBig("12") == 12
    requires c.getValueType("3.5") == RealValue
    ensures Analyse(c, Fresh, ["12"], true).eType == Integer
    ensures Analyse(c, Analyse(c, Fresh, ["12"], true).(isReal := false), ["3.5"], true).eType == Real
  {
    assert ["12"][..0] == [];
    assert ["3.5"][..0] == [];
  }

  /** One occurrence with sub-values "1" and "2": IntegerList. */
  lemma ScenarioListPromotion(c: Classifier)
    requires c.getValueType("1") == IntegerValue && c.atoGIntBig("1") == 1
    requires c.getValueType("2") == IntegerValue && c.atoGIntBig("2") == 2
    ensures Analyse(c, Fresh, ["1"], true).eType == Integer
    ensures Analyse(c, Fresh, ["1", "2"], true).eType == IntegerList
  {
    assert ["1"][..0] == [];
    assert ["1", "2"][..1] == ["1"];
  }

  /** The width counts bytes: "Zürich" is six characters and seven UTF-8 bytes. */
  lemma ScenarioNonAsciiWidth(c: Classifier)
    requires c.getValueType("Zürich") == StringValue
    ensures Analyse(c, Fresh, ["Zürich"], true).eType == String
    ensures Analyse(c, Fresh, ["Zürich"], true).width == 7
  {
    assert ["Zürich"][..0] == [];
    assert Utf8Bytes('ü') == 2;
    assert "Zürich"[..5] == "Züric" && "Züric"[..4] == "Züri" && "Züri"[..3] == "Zür";
    assert "Zür"[..2] == "Zü" && "Zü"[..1] == "Z" && "Z"[..0] == "";
  }

  /** A leading empty sub-value postpones typing, so the occurrence "", "1" stays scalar. */
  lemma ScenarioLeadingEmptyStaysScalar(c: Classifier)
    requires c.getValueType("1") == IntegerValue && c.atoGIntBig("1") == 1
    ensures Analyse(c, Fresh, ["", "1"], true).eType == Integer
  {
    assert ["", "1"][..1] == [""];
    assert [""][..0] == [];
  }
}
