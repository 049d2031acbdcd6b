/** The two halves of the metadata mapping: validating and flattening the
    caller's metadata dict into the flat record the engine stores
    (`add_document`), and rebuilding a typed `DocumentMetadata` from a stored
    record (`search_similar`, `get_document`). */
module MetadataAdapter {
  import opened Wrappers
  import opened FileTypes
  import opened Values
  import opened Schemas

  /** Why `add_document` gives up before it reaches the engine. */
  datatype StoreError =
    | InvalidFileType(lowered: string)
    | MissingField(field: string)

  /** `str(e)` of the `ValueError` raised for each failure. */
  function ErrorText(e: StoreError): (r: string)
    ensures |r| > 0
  {
    match e
    case InvalidFileType(v) => "'" + v + "' is not a valid FileType"
    case MissingField(f) => "Required metadata field '" + f + "' is missing"
  }

  /** The fields `add_document` insists on, in the order it checks them. */
  const RequiredFields: seq<string> := ["filename", "file_type", "content_length", "upload_timestamp"]

  /** The keys every flat record starts from. */
  const StandardKeys: set<string> := {"doc_id", "filename", "content_length", "upload_timestamp", "file_type"}

  /** A `file_type` given as a plain string that names no member. */
  predicate BadFileTypeString(md: Record)
  {
    "file_type" in md && md["file_type"].Str? && Parse(md["file_type"].s).None?
  }

  /** First step of `add_document`: a plain-string `file_type` becomes the
      member its lower-cased form names; an unknown name raises. Any other
      `file_type` (absent, a member already, or not a string) is left alone. */
  function CoerceFileType(md: Record): (r: Result<Record, StoreError>)
    ensures r.Err? <==> BadFileTypeString(md)
    ensures r.Err? ==> r.error == InvalidFileType(Lower(md["file_type"].s))
    ensures r.Ok? ==> r.value.Keys == md.Keys
    ensures r.Ok? ==> forall k :: k in md && k != "file_type" ==> r.value[k] == md[k]
    ensures r.Ok? && "file_type" in md && md["file_type"].Str? ==>
              r.value["file_type"].Enum? && Lower(md["file_type"].s) == FileTypes.Value(r.value["file_type"].ft)
    ensures r.Ok? && !("file_type" in md && md["file_type"].Str?) ==> r.value == md
  {
    if "file_type" in md && md["file_type"].Str? then
      match Parse(md["file_type"].s)
      case Some(ft) => Ok(md["file_type" := Enum(ft)])
      case None => Err(InvalidFileType(Lower(md["file_type"].s)))
    else
      Ok(md)
  }

  /** Second step: an absent `content_length` becomes the length of the text.
      A supplied one, of whatever kind, is kept. */
  function DefaultContentLength(md: Record, text: string): (r: Record)
    ensures r.Keys == md.Keys + {"content_length"}
    ensures forall k :: k in md ==> r[k] == md[k]
    ensures "content_length" !in md ==> r["content_length"] == Int(|text|)
  {
    if "content_length" in md then md else md["content_length" := Int(|text|)]
  }

  /** The first of `fields` missing from `md`, if any. */
  function FirstMissing(md: Record, fields: seq<string>): (r: Option<string>)
    ensures r.None? <==> forall i :: 0 <= i < |fields| ==> fields[i] in md
    ensures r.Some? ==>
              exists i :: 0 <= i < |fields| && fields[i] == r.value && r.value !in md &&
                          forall j :: 0 <= j < i ==> fields[j] in md
  {
    if |fields| == 0 then None
    else if fields[0] !in md then Some(fields[0])
    else
      var rest := FirstMissing(md, fields[1..]);
      if rest.Some? then
        ghost var i :| 0 <= i < |fields[1..]| && fields[1..][i] == rest.value && rest.value !in md &&
                      forall j :: 0 <= j < i ==> fields[1..][j] in md;
        assert fields[i + 1] == rest.value;
        rest
      else
        rest
  }

  /** Every required field is present. */
  predicate HasRequiredFields(md: Record)
  {
    "filename" in md && "file_type" in md && "content_length" in md && "upload_timestamp" in md
  }

  /** The required-field check reports the first absent field in the order
      `filename`, `file_type`, `content_length`, `upload_timestamp`. */
  lemma FirstMissingRequired(md: Record)
    ensures FirstMissing(md, RequiredFields).None? <==> HasRequiredFields(md)
    ensures "filename" !in md ==> FirstMissing(md, RequiredFields) == Some("filename")
    ensures "filename" in md && "file_type" !in md ==> FirstMissing(md, RequiredFields) == Some("file_type")
    ensures "filename" in md && "file_type" in md && "content_length" !in md ==>
              FirstMissing(md, RequiredFields) == Some("content_length")
    ensures "filename" in md && "file_type" in md && "content_length" in md && "upload_timestamp" !in md ==>
              FirstMissing(md, RequiredFields) == Some("upload_timestamp")
  {
    var f4: seq<string> := ["upload_timestamp"];
    var f3: seq<string> := ["content_length"] + f4;
    var f2: seq<string> := ["file_type"] + f3;
    assert RequiredFields == ["filename"] + f2;
    assert f4[1..] == [];
    assert f3[1..] == f4;
    assert f2[1..] == f3;
    assert RequiredFields[1..] == f2;
    assert FirstMissing(md, f4) == (if "upload_timestamp" in md then None else Some("upload_timestamp"));
    assert FirstMissing(md, f3) == (if "content_length" in md then FirstMissing(md, f4) else Some("content_length"));
    assert FirstMissing(md, f2) == (if "file_type" in md then FirstMissing(md, f3) else Some("file_type"));
  }

  /** The validation part of `add_document`: coerce `file_type`, default
      `content_length`, then check the required fields in order. Success
      yields the updated metadata dict. */
  function Validate(md: Record, text: string): (r: Result<Record, StoreError>)
    ensures r.Err? <==> BadFileTypeString(md) || "filename" !in md || "file_type" !in md || "upload_timestamp" !in md
    ensures BadFileTypeString(md) ==> r == Err(InvalidFileType(Lower(md["file_type"].s)))
    ensures !BadFileTypeString(md) && "filename" !in md ==> r == Err(MissingField("filename"))
    ensures !BadFileTypeString(md) && "filename" in md && "file_type" !in md ==> r == Err(MissingField("file_type"))
    ensures !BadFileTypeString(md) && "filename" in md && "file_type" in md && "upload_timestamp" !in md ==>
              r == Err(MissingField("upload_timestamp"))
    ensures r.Ok? ==> HasRequiredFields(r.value)
    ensures r.Ok? ==> r.value.Keys == md.Keys + {"content_length"}
    ensures r.Ok? ==> forall k :: k in md && k != "file_type" ==> r.value[k] == md[k]
    ensures r.Ok? && "content_length" !in md ==> r.value["content_length"] == Int(|text|)
    ensures r.Ok? && md["file_type"].Str? ==>
              r.value["file_type"].Enum? && Lower(md["file_type"].s) == FileTypes.Value(r.value["file_type"].ft)
    ensures r.Ok? && !md["file_type"].Str? ==> r.value["file_type"] == md["file_type"]
  {
    match CoerceFileType(md)
    case Err(e) => Err(e)
    case Ok(coerced) =>
      var filled := DefaultContentLength(coerced, text);
      FirstMissingRequired(filled);
      match FirstMissing(filled, RequiredFields)
      case Some(f) => Err(MissingField(f))
      case None => Ok(filled)
  }

  /** The text stored under `file_type`: a member's value, otherwise `str()`
      of whatever was supplied. A member reads back as itself; a boolean,
      `None` or an integer reads back as no member (so as `TXT`). */
  function FileTypeText(v: Value): (r: string)
    ensures v.Enum? ==> Parse(r) == Some(v.ft)
    ensures v.Bool? || v.NoneValue? || v.Int? ==> Parse(r) == None
  {
    if v.Enum? then
      ParseValue(v.ft);
      FileTypes.Value(v.ft)
    else if v.Int? then
      DecimalNamesNoMember(v.i);
      PyStr(v)
    else
      WordsNameNoMember();
      PyStr(v)
  }

  /** The `str()` texts of the booleans and of `None` name no file type. */
  lemma WordsNameNoMember()
    ensures Parse("True") == None && Parse("False") == None && Parse("None") == None
  {
    assert Lower("True") == "true";
    assert Lower("False") == "false";
    assert Lower("None") == "none";
  }

  /** The decimal text of an integer starts with a digit or a minus sign, so
      it names no file type, whatever its case. */
  lemma DecimalNamesNoMember(i: int)
    ensures Parse(IntToDecimal(i)) == None
  {
    var t := IntToDecimal(i);
    assert t[0] == '-' || '0' <= t[0] <= '9';
    assert Lower(t)[0] == LowerChar(t[0]) == t[0];
    forall ft: FileType
      ensures Lower(t) != FileTypes.Value(ft)
    {
      assert FileTypes.Value(ft)[0] in {'p', 'd', 't'};
    }
  }

  /** The entries of `additional_metadata` when it is a dict; none otherwise. */
  function Extras(md: Record): map<string, Value>
  {
    if "additional_metadata" in md && md["additional_metadata"].Dict? then md["additional_metadata"].entries else map[]
  }

  /** The extras that survive flattening: exactly the scalar-valued ones. */
  function ScalarExtras(md: Record): (r: Record)
    ensures forall k :: k in r <==> k in Extras(md) && IsScalar(Extras(md)[k])
    ensures forall k :: k in r ==> r[k] == Extras(md)[k]
  {
    map k | k in Extras(md) && IsScalar(Extras(md)[k]) :: Extras(md)[k]
  }

  /** The flat record `add_document` hands to the engine: the five standard
      keys, then the scalar extras, which win on a key collision. */
  function Flatten(docId: string, md: Record): (r: Record)
    requires HasRequiredFields(md)
    ensures r.Keys == StandardKeys + ScalarExtras(md).Keys
    ensures forall k :: k in ScalarExtras(md) ==> r[k] == ScalarExtras(md)[k]
    ensures "doc_id" !in ScalarExtras(md) ==> r["doc_id"] == Str(docId)
    ensures "filename" !in ScalarExtras(md) ==> r["filename"] == md["filename"]
    ensures "content_length" !in ScalarExtras(md) ==> r["content_length"] == md["content_length"]
    ensures "upload_timestamp" !in ScalarExtras(md) ==> r["upload_timestamp"] == md["upload_timestamp"]
    ensures "file_type" !in ScalarExtras(md) ==> r["file_type"] == Str(FileTypeText(md["file_type"]))
  {
    var standard := map[
      "doc_id" := Str(docId),
      "filename" := md["filename"],
      "content_length" := md["content_length"],
      "upload_timestamp" := md["upload_timestamp"],
      "file_type" := Str(FileTypeText(md["file_type"]))];
    standard + ScalarExtras(md)
  }

  /** The fields `DocumentMetadata` checks the type of, when present. */
  predicate WellTyped(rec: Record)
  {
    && ("filename" in rec ==> rec["filename"].Str?)
    && ("content_length" in rec ==> rec["content_length"].Int?)
    && ("upload_timestamp" in rec ==> rec["upload_timestamp"].Str?)
  }

  /** The file type read back from a record: the member a string value names
      case-insensitively, and `TXT` for anything else (absent, not a string,
      or an unknown name). */
  function ReadFileType(rec: Record): (ft: FileType)
    ensures forall m :: m != TXT ==>
              (ft == m <==> "file_type" in rec && IsStr(rec["file_type"]) && Lower(StrValue(rec["file_type"])) == FileTypes.Value(m))
  {
    if "file_type" in rec && IsStr(rec["file_type"]) then
      match Parse(StrValue(rec["file_type"]))
      case Some(m) => m
      case None => TXT
    else
      TXT
  }

  /** Rebuild typed metadata from a stored record and its page text. Never
      fails on a well-typed record: every absent field gets a default, and
      the whole record is kept as `additional_metadata`. */
  function Unflatten(rec: Record, pageContent: string): (r: DocumentMetadata)
    requires WellTyped(rec)
    ensures "filename" in rec ==> Str(r.filename) == rec["filename"]
    ensures "filename" !in rec ==> r.filename == "unknown.txt"
    ensures r.fileType == ReadFileType(rec)
    ensures "content_length" in rec ==> Int(r.contentLength) == rec["content_length"]
    ensures "content_length" !in rec ==> r.contentLength == |pageContent|
    ensures "upload_timestamp" in rec ==> Str(r.uploadTimestamp) == rec["upload_timestamp"]
    ensures "upload_timestamp" !in rec ==> r.uploadTimestamp == ""
    ensures r.additionalMetadata == Some(rec)
  {
    DocumentMetadata(
      filename := if "filename" in rec then rec["filename"].s else "unknown.txt",
      fileType := ReadFileType(rec),
      contentLength := if "content_length" in rec then rec["content_length"].i else |pageContent|,
      uploadTimestamp := if "upload_timestamp" in rec then rec["upload_timestamp"].s else "",
      additionalMetadata := Some(rec))
  }

  /** An empty record reads back as all defaults. */
  lemma UnflattenEmpty(pageContent: string)
    ensures Unflatten(map[], pageContent) ==
            DocumentMetadata("unknown.txt", TXT, |pageContent|, "", Some(map[]))
  {
  }

  /** The standard metadata fields have the types `DocumentMetadata` wants. */
  predicate InputTyped(md: Record)
  {
    && ("filename" in md ==> md["filename"].Str?)
    && ("content_length" in md ==> md["content_length"].Int?)
    && ("upload_timestamp" in md ==> md["upload_timestamp"].Str?)
  }

  /** No scalar extra overwrites one of the metadata fields. */
  predicate NoFieldCollision(md: Record)
  {
    forall k :: k in ScalarExtras(md) ==> k !in RequiredFields
  }

  /** Flatten then unflatten: for validated, well-typed metadata whose extras
      do not overwrite a metadata field, the record reads back with the same
      filename, timestamp and length (the text length when none was given),
      the file type the caller named, and every scalar extra; the document id
      is kept unless an extra named `doc_id` replaced it. */
  lemma {:induction false} FlattenUnflatten(docId: string, md: Record, text: string)
    requires Validate(md, text).Ok?
    requires InputTyped(md)
    requires NoFieldCollision(md)
    ensures WellTyped(Flatten(docId, Validate(md, text).value))
    ensures var m := Unflatten(Flatten(docId, Validate(md, text).value), text);
            && Str(m.filename) == md["filename"]
            && Str(m.uploadTimestamp) == md["upload_timestamp"]
            && ("content_length" in md ==> Int(m.contentLength) == md["content_length"])
            && ("content_length" !in md ==> m.contentLength == |text|)
            && (md["file_type"].Str? ==> Lower(md["file_type"].s) == FileTypes.Value(m.fileType))
            && (md["file_type"].Enum? ==> m.fileType == md["file_type"].ft)
            && m.additionalMetadata.Some?
            && (forall k :: k in ScalarExtras(md) ==> k in m.additionalMetadata.value && m.additionalMetadata.value[k] == Extras(md)[k])
            && ("doc_id" !in ScalarExtras(md) ==> m.additionalMetadata.value["doc_id"] == Str(docId))
  {
    var v := Validate(md, text).value;
    assert Extras(v) == Extras(md);
    assert ScalarExtras(v) == ScalarExtras(md);
    assert forall k :: k in ScalarExtras(md) ==> k != "filename" && k != "file_type" && k != "content_length" && k != "upload_timestamp" by {
      forall k | k in ScalarExtras(md)
        ensures k != "filename" && k != "file_type" && k != "content_length" && k != "upload_timestamp"
      {
        assert k !in RequiredFields;
      }
    }
    var rec := Flatten(docId, v);
    var ft := v["file_type"];
    if IsStr(md["file_type"]) {
      assert ft.Enum?;
      assert rec["file_type"] == Str(FileTypes.Value(ft.ft));
      ParseValue(ft.ft);
      assert ReadFileType(rec) == ft.ft;
    }
  }
}
