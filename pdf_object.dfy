/**
 * The PDF objects that OGRPDFLayer::Fill reads (frmts/pdf/ogrpdflayer.cpp),
 * reduced to the kinds it distinguishes. A null object returned by an array
 * lookup is read as `Other`, which Fill treats the same way.
 */
module PdfObjects {
  import opened Wrappers

  datatype PdfObject =
    | Dictionary(entries: map<string, PdfObject>)
    | Array(items: seq<PdfObject>)
    | Int(intValue: int)
    | Real(realValue: real)
    | String(text: string)
    | Other

  /** GDALPDFDictionary::Get: the value under `key`, None when it is missing. */
  function Get(dict: PdfObject, key: string): (r: Option<PdfObject>)
    requires dict.Dictionary?
    ensures r.Some? <==> key in dict.entries
    ensures r.Some? ==> r.value == dict.entries[key]
  {
    if key in dict.entries then Some(dict.entries[key]) else None
  }
}
