/**
 * The attribute schema that OGRPDFLayer::Fill (frmts/pdf/ogrpdflayer.cpp:79-135)
 * grows from the "P" array of a structured record, and the values it writes.
 */
module PdfSchema {
  import opened Wrappers
  import opened PdfObjects

  /** The OGR field types Fill creates: OFTInteger, OFTReal and OFTString. */
  datatype FieldType = IntegerField | RealField | StringField

  datatype FieldDefn = FieldDefn(name: string, fieldType: FieldType)

  /** A value passed to OGRFeature::SetField. */
  datatype FieldValue = StringValue(text: string) | IntegerValue(intValue: int) | RealValue(realValue: real)

  /** One SetField call of pass 2: the field is named, as in the source. */
  datatype FieldWrite = FieldWrite(name: string, value: FieldValue)

  /** One "N"/"V" pair of the P array. */
  datatype Attribute = Attribute(name: string, value: PdfObject)

  predicate UniqueNames(fields: seq<FieldDefn>) {
    forall i, j | 0 <= i < j < |fields| :: fields[i].name != fields[j].name
  }

  /** ogrpdflayer.cpp:92-96: the field type a value asks for. */
  function ObservedType(v: PdfObject): (t: FieldType)
    ensures t == IntegerField <==> v.Int?
    ensures t == RealField <==> v.Real?
  {
    if v.Int? then IntegerField else if v.Real? then RealField else StringField
  }

  /**
   * ogrpdflayer.cpp:102-107: the type of an existing field after a value of
   * type `observed`. Any disagreement goes straight to String.
   */
  function MergedType(existing: FieldType, observed: FieldType): (t: FieldType)
    ensures t == existing || t == StringField
    ensures t == observed || t == StringField
    ensures t == existing <==> (existing == observed || existing == StringField)
  {
    if existing == observed || existing == StringField then existing else StringField
  }

  /** `wide` can hold every value a field of type `narrow` holds. */
  predicate Accepts(wide: FieldType, narrow: FieldType) {
    wide == narrow || wide == StringField
  }

  /** OGRFeatureDefn::GetFieldIndex, with names compared exactly: the first field of that name. */
  function FieldIndex(fields: seq<FieldDefn>, name: string): (r: Option<nat>)
    ensures r.None? <==> forall i | 0 <= i < |fields| :: fields[i].name != name
    ensures r.Some? ==> r.value < |fields| && fields[r.value].name == name
    ensures r.Some? ==> forall i | 0 <= i < r.value :: fields[i].name != name
    decreases |fields|
  {
    if fields == [] then None
    else if fields[0].name == name then Some(0)
    else match FieldIndex(fields[1..], name)
      case None => None
      case Some(k) => Some(k + 1)
  }

  /** ogrpdflayer.cpp:84-89: the pair of an entry of P, when it has the shape Fill uses. */
  function AttributeOf(kv: PdfObject): (r: Option<Attribute>)
    ensures r.Some? <==> kv.Dictionary? && "N" in kv.entries && kv.entries["N"].String? && "V" in kv.entries
    ensures r.Some? ==> r.value == Attribute(kv.entries["N"].text, kv.entries["V"])
  {
    if kv.Dictionary? && "N" in kv.entries && kv.entries["N"].String? && "V" in kv.entries
    then Some(Attribute(kv.entries["N"].text, kv.entries["V"]))
    else None
  }

  /** Pass 1 on one entry of P: create the field, or widen it. */
  function ApplyAttribute(fields: seq<FieldDefn>, kv: PdfObject): (r: seq<FieldDefn>)
    ensures AttributeOf(kv).None? ==> r == fields
    ensures |r| == |fields| + 1 <==> AttributeOf(kv).Some? && FieldIndex(fields, AttributeOf(kv).value.name).None?
    ensures |fields| <= |r| <= |fields| + 1
  {
    match AttributeOf(kv)
    case None => fields
    case Some(a) =>
      var observed := ObservedType(a.value);
      match FieldIndex(fields, a.name)
      case None => fields + [FieldDefn(a.name, observed)]
      case Some(i) => fields[i := fields[i].(fieldType := MergedType(fields[i].fieldType, observed))]
  }

  /** Pass 1 over the entries of P (ogrpdflayer.cpp:79-111). */
  function SchemaPass(fields: seq<FieldDefn>, ps: seq<PdfObject>): (r: seq<FieldDefn>)
    ensures |fields| <= |r| <= |fields| + |ps|
    decreases |ps|
  {
    if ps == [] then fields
    else
      var n := |ps| - 1;
      ApplyAttribute(SchemaPass(fields, ps[..n]), ps[n])
  }

  /** ogrpdflayer.cpp:126-131: the value written for an attribute; others are not written. */
  function ValueOf(v: PdfObject): (r: Option<FieldValue>)
    ensures r.Some? <==> v.String? || v.Int? || v.Real?
    ensures r.Some? ==> KindOf(r.value) == ObservedType(v)
    ensures v.String? ==> r == Some(StringValue(v.text))
    ensures v.Int? ==> r == Some(IntegerValue(v.intValue))
    ensures v.Real? ==> r == Some(RealValue(v.realValue))
  {
    match v
    case String(s) => Some(StringValue(s))
    case Int(n) => Some(IntegerValue(n))
    case Real(x) => Some(RealValue(x))
    case _ => None
  }

  function KindOf(v: FieldValue): FieldType {
    match v
    case StringValue(_) => StringField
    case IntegerValue(_) => IntegerField
    case RealValue(_) => RealField
  }

  /** Pass 2 over the entries of P (ogrpdflayer.cpp:113-135): the SetField calls, in order. */
  function Writes(ps: seq<PdfObject>): (r: seq<FieldWrite>)
    ensures |r| <= |ps|
    decreases |ps|
  {
    if ps == [] then []
    else
      var n := |ps| - 1;
      var a := AttributeOf(ps[n]);
      var more := if a.Some? && ValueOf(a.value.value).Some?
                  then [FieldWrite(a.value.name, ValueOf(a.value.value).value)] else [];
      Writes(ps[..n]) + more
  }

  /** The schema has a field of that name whose type accepts values of type `t`. */
  predicate FieldAccepts(fields: seq<FieldDefn>, name: string, t: FieldType) {
    var i := FieldIndex(fields, name);
    i.Some? && Accepts(fields[i.value].fieldType, t)
  }

  /**
   * `after` keeps the fields of `before` in their order, under the same names,
   * with the same type or String; new fields come after them.
   */
  predicate Extends(before: seq<FieldDefn>, after: seq<FieldDefn>) {
    && |before| <= |after|
    && forall i | 0 <= i < |before| ::
         after[i].name == before[i].name && Accepts(after[i].fieldType, before[i].fieldType)
  }

  // Lemmas

  /** ogrpdflayer.cpp:84-107: the cases of pass 1 on one entry. */
  lemma ApplyAttributeCases(fields: seq<FieldDefn>, kv: PdfObject)
    ensures AttributeOf(kv).None? ==> ApplyAttribute(fields, kv) == fields
    ensures AttributeOf(kv).Some? ==>
      var a := AttributeOf(kv).value;
      var t := ObservedType(a.value);
      match FieldIndex(fields, a.name)
      case None => ApplyAttribute(fields, kv) == fields + [FieldDefn(a.name, t)]
      case Some(i) =>
        if fields[i].fieldType != t && fields[i].fieldType != StringField
        then ApplyAttribute(fields, kv) == fields[i := FieldDefn(fields[i].name, StringField)]
        else ApplyAttribute(fields, kv) == fields
  {
    if AttributeOf(kv).Some? {
      var a := AttributeOf(kv).value;
      match FieldIndex(fields, a.name)
      case None =>
      case Some(i) =>
        if fields[i].fieldType == ObservedType(a.value) || fields[i].fieldType == StringField {
          assert fields[i := fields[i]] == fields;
        }
    }
  }

  /** Pass 1 on one entry keeps names unique, extends the schema, and makes the field accept the value. */
  lemma ApplyAttributeExtends(fields: seq<FieldDefn>, kv: PdfObject)
    requires UniqueNames(fields)
    ensures UniqueNames(ApplyAttribute(fields, kv))
    ensures Extends(fields, ApplyAttribute(fields, kv))
    ensures |ApplyAttribute(fields, kv)| <= |fields| + 1
    ensures AttributeOf(kv).Some? ==>
      FieldAccepts(ApplyAttribute(fields, kv), AttributeOf(kv).value.name, ObservedType(AttributeOf(kv).value.value))
  {
    var r := ApplyAttribute(fields, kv);
    if AttributeOf(kv).Some? {
      var a := AttributeOf(kv).value;
      match FieldIndex(fields, a.name)
      case None =>
        assert r[|fields|].name == a.name;
        assert FieldIndex(r, a.name) == Some(|fields|);
      case Some(i) =>
        assert r[i].name == a.name;
        assert FieldIndex(r, a.name) == Some(i);
    }
  }

  /** A field that accepts a type still does after pass 1 on another entry. */
  lemma ApplyAttributeKeepsAccepts(fields: seq<FieldDefn>, kv: PdfObject, name: string, t: FieldType)
    requires UniqueNames(fields) && FieldAccepts(fields, name, t)
    ensures FieldAccepts(ApplyAttribute(fields, kv), name, t)
  {
    var r := ApplyAttribute(fields, kv);
    ApplyAttributeExtends(fields, kv);
    var i := FieldIndex(fields, name).value;
    assert r[i].name == name;
    assert FieldIndex(r, name) == Some(i);
  }

  /** Pass 1 keeps names unique and extends the schema. */
  lemma {:induction false} SchemaPassExtends(fields: seq<FieldDefn>, ps: seq<PdfObject>)
    requires UniqueNames(fields)
    ensures UniqueNames(SchemaPass(fields, ps))
    ensures Extends(fields, SchemaPass(fields, ps))
    decreases |ps|
  {
    if ps != [] {
      var n := |ps| - 1;
      var mid := SchemaPass(fields, ps[..n]);
      SchemaPassExtends(fields, ps[..n]);
      ApplyAttributeExtends(mid, ps[n]);
    }
  }

  /** The names of the fields, in order. */
  function Names(fields: seq<FieldDefn>): (r: seq<string>)
    ensures |r| == |fields| && forall i | 0 <= i < |r| :: r[i] == fields[i].name
  {
    seq(|fields|, i requires 0 <= i < |fields| => fields[i].name)
  }

  /**
   * The names of the usable entries of P that `fields` does not already have,
   * each once, in the order of their first entry.
   */
  function FirstSeenNames(fields: seq<FieldDefn>, ps: seq<PdfObject>): seq<string>
    decreases |ps|
  {
    if ps == [] then []
    else
      var n := |ps| - 1;
      var earlier := FirstSeenNames(fields, ps[..n]);
      var a := AttributeOf(ps[n]);
      if a.Some? && a.value.name !in Names(fields) && a.value.name !in earlier
      then earlier + [a.value.name] else earlier
  }

  lemma NameInNames(fields: seq<FieldDefn>, name: string)
    ensures name in Names(fields) <==> FieldIndex(fields, name).Some?
  {
    if FieldIndex(fields, name).Some? {
      assert Names(fields)[FieldIndex(fields, name).value] == name;
    }
  }

  /**
   * Pass 1 appends one field per new name, in the order the names first occur
   * in P, after the fields that were already there.
   */
  lemma {:induction false} SchemaPassFirstSeenOrder(fields: seq<FieldDefn>, ps: seq<PdfObject>)
    ensures Names(SchemaPass(fields, ps)) == Names(fields) + FirstSeenNames(fields, ps)
    decreases |ps|
  {
    if ps != [] {
      var n := |ps| - 1;
      var mid := SchemaPass(fields, ps[..n]);
      var r := SchemaPass(fields, ps);
      SchemaPassFirstSeenOrder(fields, ps[..n]);
      var a := AttributeOf(ps[n]);
      if a.Some? {
        var name := a.value.name;
        NameInNames(mid, name);
        assert name in Names(mid) <==> name in Names(fields) || name in FirstSeenNames(fields, ps[..n]);
        match FieldIndex(mid, name)
        case None =>
          assert Names(r) == Names(mid) + [name];
        case Some(i) =>
          assert Names(r) == Names(mid);
      }
    }
  }

  /**
   * Every usable entry of P, whether pass 2 writes its value or not, ends pass 1
   * with a field of its name that accepts the type of its value.
   */
  lemma {:induction false} EveryUsableNameHasField(fields: seq<FieldDefn>, ps: seq<PdfObject>)
    requires UniqueNames(fields)
    ensures forall j | 0 <= j < |ps| && AttributeOf(ps[j]).Some? ::
              FieldAccepts(SchemaPass(fields, ps), AttributeOf(ps[j]).value.name, ObservedType(AttributeOf(ps[j]).value.value))
    decreases |ps|
  {
    if ps != [] {
      var n := |ps| - 1;
      var mid := SchemaPass(fields, ps[..n]);
      EveryUsableNameHasField(fields, ps[..n]);
      SchemaPassExtends(fields, ps[..n]);
      ApplyAttributeExtends(mid, ps[n]);
      forall j | 0 <= j < |ps| && AttributeOf(ps[j]).Some?
        ensures FieldAccepts(SchemaPass(fields, ps), AttributeOf(ps[j]).value.name, ObservedType(AttributeOf(ps[j]).value.value))
      {
        if j < n {
          assert ps[..n][j] == ps[j];
          ApplyAttributeKeepsAccepts(mid, ps[n], AttributeOf(ps[j]).value.name, ObservedType(AttributeOf(ps[j]).value.value));
        }
      }
    }
  }

  /**
   * The schema converges before any value is written: after pass 1 over the
   * whole of P, every SetField of pass 2 names a field whose type is that of
   * the value, or String.
   */
  lemma {:induction false} WritesAccepted(fields: seq<FieldDefn>, ps: seq<PdfObject>)
    requires UniqueNames(fields)
    ensures forall w | w in Writes(ps) :: FieldAccepts(SchemaPass(fields, ps), w.name, KindOf(w.value))
    decreases |ps|
  {
    if ps != [] {
      var n := |ps| - 1;
      var mid := SchemaPass(fields, ps[..n]);
      WritesAccepted(fields, ps[..n]);
      SchemaPassExtends(fields, ps[..n]);
      ApplyAttributeExtends(mid, ps[n]);
      forall w | w in Writes(ps)
        ensures FieldAccepts(SchemaPass(fields, ps), w.name, KindOf(w.value))
      {
        if w in Writes(ps[..n]) {
          ApplyAttributeKeepsAccepts(mid, ps[n], w.name, KindOf(w.value));
        }
      }
    }
  }

  /** `w` is the SetField call pass 2 makes for the entry `kv` of P. */
  predicate WriteFor(kv: PdfObject, w: FieldWrite) {
    var a := AttributeOf(kv);
    a.Some? && a.value.name == w.name && ValueOf(a.value.value) == Some(w.value)
  }

  /** Every SetField comes from a well-formed pair of P with a String, Int or Real value. */
  lemma {:induction false} WritesFromAttributes(ps: seq<PdfObject>)
    ensures forall w | w in Writes(ps) :: exists j | 0 <= j < |ps| :: WriteFor(ps[j], w)
    decreases |ps|
  {
    if ps != [] {
      var n := |ps| - 1;
      WritesFromAttributes(ps[..n]);
      forall w | w in Writes(ps)
        ensures exists j | 0 <= j < |ps| :: WriteFor(ps[j], w)
      {
        if w in Writes(ps[..n]) {
          var j :| 0 <= j < n && WriteFor(ps[..n][j], w);
          assert ps[..n][j] == ps[j];
        } else {
          assert WriteFor(ps[n], w);
        }
      }
    }
  }

  /** Every usable pair of P with a String, Int or Real value is written, under its name. */
  lemma {:induction false} WritesComplete(ps: seq<PdfObject>)
    ensures forall j | 0 <= j < |ps| && AttributeOf(ps[j]).Some? && ValueOf(AttributeOf(ps[j]).value.value).Some? ::
              FieldWrite(AttributeOf(ps[j]).value.name, ValueOf(AttributeOf(ps[j]).value.value).value) in Writes(ps)
    decreases |ps|
  {
    if ps != [] {
      var n := |ps| - 1;
      WritesComplete(ps[..n]);
      forall j | 0 <= j < |ps| && AttributeOf(ps[j]).Some? && ValueOf(AttributeOf(ps[j]).value.value).Some?
        ensures FieldWrite(AttributeOf(ps[j]).value.name, ValueOf(AttributeOf(ps[j]).value.value).value) in Writes(ps)
      {
        if j < n {
          assert ps[..n][j] == ps[j];
        }
      }
    }
  }

  /** Example: X = 5, then X = 2.5, then X = "hi" leaves X a String field. */
  lemma ScenarioStructuredConflict()
    ensures var f1 := SchemaPass([], [Dictionary(map["N" := String("X"), "V" := Int(5)])]);
            var f2 := SchemaPass(f1, [Dictionary(map["N" := String("X"), "V" := Real(2.5)])]);
            var f3 := SchemaPass(f2, [Dictionary(map["N" := String("X"), "V" := String("hi")])]);
            f1 == [FieldDefn("X", IntegerField)] && f2 == [FieldDefn("X", StringField)] && f3 == f2
  {
    var kv1 := Dictionary(map["N" := String("X"), "V" := Int(5)]);
    var kv2 := Dictionary(map["N" := String("X"), "V" := Real(2.5)]);
    var kv3 := Dictionary(map["N" := String("X"), "V" := String("hi")]);
    assert [kv1][..0] == [] && [kv2][..0] == [] && [kv3][..0] == [];
    assert AttributeOf(kv1) == Some(Attribute("X", Int(5)));
    assert AttributeOf(kv2) == Some(Attribute("X", Real(2.5)));
    assert AttributeOf(kv3) == Some(Attribute("X", String("hi")));
    assert FieldIndex([FieldDefn("X", IntegerField)], "X") == Some(0);
    assert FieldIndex([FieldDefn("X", StringField)], "X") == Some(0);
  }
}
