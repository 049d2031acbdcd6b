/** The document-store facade: the public store, search, delete and get
    operations over an abstract engine that keeps, per id, a text and its
    flat metadata record. The engine's failures, its similarity ranking and
    the uuid generator are parameters. */
module VectorStore {
  import opened Wrappers
  import opened FileTypes
  import opened Values
  import opened Schemas
  import opened MetadataAdapter

  /** What the engine keeps for one id: the page text and its record. */
  datatype Entry = Entry(text: string, record: Record)

  /** The engine's collection, id to entry. */
  type Engine = map<string, Entry>

  /** The arguments of one `add_texts` call. */
  datatype AddTextsCall = AddTextsCall(texts: seq<string>, metadatas: seq<Record>, ids: seq<string>)

  /** The collection after an `add_texts` call, which upserts each
      (id, text, record) triple in order. */
  function AddTexts(engine: Engine, call: AddTextsCall): Engine
    requires |call.texts| == |call.metadatas| == |call.ids|
    decreases |call.ids|
  {
    var n := |call.ids|;
    if n == 0 then engine
    else
      var init := AddTextsCall(call.texts[..n - 1], call.metadatas[..n - 1], call.ids[..n - 1]);
      AddTexts(engine, init)[call.ids[n - 1] := Entry(call.texts[n - 1], call.metadatas[n - 1])]
  }

  /** An `add_texts` call adds its ids and leaves the others alone; an
      existing id is overwritten, and of two equal ids in one batch the later
      wins. */
  lemma {:induction false} AddTextsUpserts(engine: Engine, call: AddTextsCall)
    requires |call.texts| == |call.metadatas| == |call.ids|
    ensures forall k :: k in AddTexts(engine, call) <==> k in engine || k in call.ids
    ensures forall k :: k in engine && k !in call.ids ==> AddTexts(engine, call)[k] == engine[k]
    ensures forall i :: 0 <= i < |call.ids| && call.ids[i] !in call.ids[i + 1..] ==>
              AddTexts(engine, call)[call.ids[i]] == Entry(call.texts[i], call.metadatas[i])
    decreases |call.ids|
  {
    var n := |call.ids|;
    if n > 0 {
      var init := AddTextsCall(call.texts[..n - 1], call.metadatas[..n - 1], call.ids[..n - 1]);
      var last := call.ids[n - 1];
      var before := AddTexts(engine, init);
      var r := AddTexts(engine, call);
      assert r == before[last := Entry(call.texts[n - 1], call.metadatas[n - 1])];
      AddTextsUpserts(engine, init);
      assert call.ids == init.ids + [last];
      assert forall k :: k in call.ids <==> k in init.ids || k == last;
      forall i | 0 <= i < n && call.ids[i] !in call.ids[i + 1..]
        ensures r[call.ids[i]] == Entry(call.texts[i], call.metadatas[i])
      {
        if i < n - 1 {
          assert last in call.ids[i + 1..];
          assert init.ids[i + 1..] == call.ids[i + 1..n - 1];
          assert init.ids[i] == call.ids[i] && init.texts[i] == call.texts[i] && init.metadatas[i] == call.metadatas[i];
        }
      }
    }
  }

  /** What `add_document` did: the collection afterwards, the `add_texts`
      call it made (none when validation failed) and its response. */
  datatype AddOutcome = AddOutcome(engine: Engine, call: Option<AddTextsCall>, response: VectorStoreResponse)

  /** `add_document(text, metadata)`. `freshId` is the uuid it generates;
      `fault` is `Some(message)` when the engine raises. It never raises
      itself: every failure is a response with `success == false`. */
  function AddDocument(engine: Engine, text: string, md: Record, freshId: string, fault: Option<string>): (r: AddOutcome)
    ensures r.response.success <==> Validate(md, text).Ok? && fault.None?
    ensures r.call.None? <==> Validate(md, text).Err?
    ensures r.call.None? ==> r.response.error == Some(ErrorText(Validate(md, text).error))
    ensures r.call.Some? ==>
              && r.call.value.texts == [text]
              && r.call.value.ids == [freshId]
              && r.call.value.metadatas == [Flatten(freshId, Validate(md, text).value)]
    ensures r.call.Some? && fault.Some? ==> r.response.error == fault
    ensures !r.response.success ==> r.engine == engine && r.response.documentIds.None? && r.response.error.Some?
    ensures r.response.success ==>
              && r.response.documentIds == Some([freshId])
              && r.response.error.None?
              && r.engine == AddTexts(engine, r.call.value)
  {
    match Validate(md, text)
    case Err(e) =>
      AddOutcome(engine, None, VectorStoreResponse(false, "Failed to add document to vector store", error := Some(ErrorText(e))))
    case Ok(valid) =>
      var call := AddTextsCall([text], [Flatten(freshId, valid)], [freshId]);
      match fault
      case Some(msg) =>
        AddOutcome(engine, Some(call), VectorStoreResponse(false, "Failed to add document to vector store", error := Some(msg)))
      case None =>
        AddOutcome(AddTexts(engine, call), Some(call), VectorStoreResponse(true, "Document added successfully", documentIds := Some([freshId])))
  }

  /** A successful store adds exactly one entry, under the fresh id, and
      leaves every other id as it was. */
  lemma AddDocumentInsertsOne(engine: Engine, text: string, md: Record, freshId: string)
    requires AddDocument(engine, text, md, freshId, None).response.success
    ensures var out := AddDocument(engine, text, md, freshId, None);
            && out.engine.Keys == engine.Keys + {freshId}
            && out.engine[freshId] == Entry(text, Flatten(freshId, Validate(md, text).value))
            && forall k :: k in engine && k != freshId ==> out.engine[k] == engine[k]
  {
    var out := AddDocument(engine, text, md, freshId, None);
    AddTextsUpserts(engine, out.call.value);
    assert forall k :: k in out.call.value.ids <==> k == freshId;
    assert out.call.value.ids[1..] == [];
  }

  /** On success the generated id appears in three places: the engine id of
      the `add_texts` call, the response's `document_ids`, and the record's
      `doc_id`, the last unless a scalar extra named `doc_id` overwrote it
      with something else. */
  lemma FreshIdInThreePlaces(engine: Engine, text: string, md: Record, freshId: string)
    requires AddDocument(engine, text, md, freshId, None).response.success
    ensures var out := AddDocument(engine, text, md, freshId, None);
            && out.call.Some?
            && out.call.value.ids == [freshId]
            && out.response.documentIds == Some([freshId])
            && (out.call.value.metadatas[0]["doc_id"] == Str(freshId) <==>
                ("doc_id" !in ScalarExtras(md) || ScalarExtras(md)["doc_id"] == Str(freshId)))
  {
  }

  /** What `delete_document` did: the collection afterwards and its response. */
  datatype DeleteOutcome = DeleteOutcome(engine: Engine, response: VectorStoreResponse)

  /** `delete_document(id)`: removes that id from the collection. It reports
      success whenever the engine does not raise, whether or not the id was
      stored; `fault` is `Some(message)` when the engine raises. */
  function DeleteDocument(engine: Engine, id: string, fault: Option<string>): (r: DeleteOutcome)
    ensures r.response.success <==> fault.None?
    ensures r.response.success ==>
              && r.engine.Keys == engine.Keys - {id}
              && (forall k :: k in r.engine ==> r.engine[k] == engine[k])
              && r.response.error.None?
    ensures !r.response.success ==> r.engine == engine && r.response.error == fault
    ensures r.response.documentIds.None?
  {
    match fault
    case Some(msg) =>
      DeleteOutcome(engine, VectorStoreResponse(false, "Failed to delete document " + id, error := Some(msg)))
    case None =>
      DeleteOutcome(engine - {id}, VectorStoreResponse(true, "Document " + id + " deleted successfully"))
  }

  /** Deleting an id that was never stored succeeds and changes nothing, and
      a second delete of the same id is the same as one. */
  lemma DeleteIdempotent(engine: Engine, id: string)
    ensures id !in engine ==> DeleteDocument(engine, id, None) == DeleteOutcome(engine, DeleteDocument(engine, id, None).response)
    ensures DeleteDocument(engine, id, None).response.success
    ensures var once := DeleteDocument(engine, id, None).engine;
            DeleteDocument(once, id, None).engine == once
  {
  }

  /** A stored entry whose `doc_id` equals `id`, by Python equality. */
  predicate Matches(e: Entry, id: string)
  {
    "doc_id" in e.record && PyEq(e.record["doc_id"], id)
  }

  /** The position of the first hit that matches `id`, if any. */
  function FirstMatch(hits: seq<Entry>, id: string): (r: Option<nat>)
    ensures r.None? <==> forall i :: 0 <= i < |hits| ==> !Matches(hits[i], id)
    ensures r.Some? ==>
              && r.value < |hits|
              && Matches(hits[r.value], id)
              && forall j :: 0 <= j < r.value ==> !Matches(hits[j], id)
  {
    if |hits| == 0 then None
    else if Matches(hits[0], id) then Some(0)
    else
      match FirstMatch(hits[1..], id)
      case None => None
      case Some(i) => Some(i + 1)
  }

  /** The number of results the filtered lookup asks the engine for. */
  const GetLimit: nat := 100

  /** What the engine's filtered search may return for `get_document(id)`:
      at most `GetLimit` stored entries, each of whose `doc_id` is `id`, and
      at least one when some stored entry matches. */
  predicate FilteredSearch(engine: Engine, id: string, hits: seq<Entry>)
  {
    && |hits| <= GetLimit
    && (forall i :: 0 <= i < |hits| ==> hits[i] in engine.Values && Matches(hits[i], id))
    && ((exists k :: k in engine && Matches(engine[k], id)) ==> |hits| > 0)
  }

  /** `get_document(id)` over the entries `hits` the filtered search
      returned: the first entry whose `doc_id` is `id`, rebuilt as a chunk
      whose `id` and `embedding_id` are both `id`; `None` exactly when no
      entry matches. */
  function GetDocument(hits: seq<Entry>, id: string): (r: Option<DocumentChunk>)
    requires FirstMatch(hits, id).Some? ==> WellTyped(hits[FirstMatch(hits, id).value].record)
    ensures r.None? <==> forall i :: 0 <= i < |hits| ==> !Matches(hits[i], id)
    ensures r.Some? ==>
              && r.value.id == id
              && r.value.embeddingId == Some(id)
              && exists i :: && 0 <= i < |hits|
                             && Matches(hits[i], id)
                             && (forall j :: 0 <= j < i ==> !Matches(hits[j], id))
                             && r.value.text == hits[i].text
                             && r.value.metadata == Unflatten(hits[i].record, hits[i].text)
  {
    match FirstMatch(hits, id)
    case None => None
    case Some(i) =>
      Some(DocumentChunk(id, hits[i].text, Unflatten(hits[i].record, hits[i].text), Some(id)))
  }

  /** Looking up an id that no stored entry carries finds nothing. */
  lemma GetUnknownId(engine: Engine, id: string, hits: seq<Entry>)
    requires forall k :: k in engine ==> !Matches(engine[k], id)
    requires FilteredSearch(engine, id, hits)
    ensures GetDocument(hits, id) == None
  {
  }

  /** The store's invariant: every entry's record carries a `doc_id` equal to
      the id it is stored under. */
  predicate Consistent(engine: Engine)
  {
    forall k :: k in engine ==> "doc_id" in engine[k].record && engine[k].record["doc_id"] == Str(k)
  }

  /** In a consistent collection only the entry stored under `id` matches `id`. */
  lemma ConsistentMatch(engine: Engine, id: string)
    requires Consistent(engine)
    ensures forall k :: k in engine ==> (Matches(engine[k], id) <==> k == id)
  {
  }

  /** A successful store keeps the collection consistent, unless a scalar
      extra named `doc_id` overwrote the record's id with another value. */
  lemma AddPreservesConsistent(engine: Engine, text: string, md: Record, freshId: string, fault: Option<string>)
    requires Consistent(engine)
    requires "doc_id" !in ScalarExtras(md) || ScalarExtras(md)["doc_id"] == Str(freshId)
    ensures Consistent(AddDocument(engine, text, md, freshId, fault).engine)
  {
    if AddDocument(engine, text, md, freshId, fault).response.success {
      AddDocumentInsertsOne(engine, text, md, freshId);
      FreshIdInThreePlaces(engine, text, md, freshId);
    }
  }

  /** Deleting keeps the collection consistent. */
  lemma DeletePreservesConsistent(engine: Engine, id: string, fault: Option<string>)
    requires Consistent(engine)
    ensures Consistent(DeleteDocument(engine, id, fault).engine)
  {
  }

  /** Store then get: after a successful store into a consistent collection,
      looking up the generated id finds the stored text, and its metadata
      reads back with the caller's filename, timestamp, file type and
      content length (the text length when none was given). */
  lemma {:induction false} StoreThenGet(engine: Engine, text: string, md: Record, freshId: string, hits: seq<Entry>)
    requires Consistent(engine)
    requires AddDocument(engine, text, md, freshId, None).response.success
    requires InputTyped(md) && NoFieldCollision(md)
    requires "doc_id" !in ScalarExtras(md)
    requires FilteredSearch(AddDocument(engine, text, md, freshId, None).engine, freshId, hits)
    ensures FirstMatch(hits, freshId) == Some(0)
    ensures WellTyped(hits[0].record)
    ensures var got := GetDocument(hits, freshId);
            && got.Some?
            && got.value.id == freshId
            && got.value.text == text
            && Str(got.value.metadata.filename) == md["filename"]
            && Str(got.value.metadata.uploadTimestamp) == md["upload_timestamp"]
            && (md["file_type"].Str? ==> Lower(md["file_type"].s) == FileTypes.Value(got.value.metadata.fileType))
            && (md["file_type"].Enum? ==> got.value.metadata.fileType == md["file_type"].ft)
            && ("content_length" in md ==> Int(got.value.metadata.contentLength) == md["content_length"])
            && ("content_length" !in md ==> got.value.metadata.contentLength == |text|)
  {
    var out := AddDocument(engine, text, md, freshId, None);
    var stored := Entry(text, Flatten(freshId, Validate(md, text).value));
    AddDocumentInsertsOne(engine, text, md, freshId);
    AddPreservesConsistent(engine, text, md, freshId, None);
    ConsistentMatch(out.engine, freshId);
    assert Matches(out.engine[freshId], freshId);
    assert |hits| > 0;
    assert hits[0] in out.engine.Values;
    var k :| k in out.engine && out.engine[k] == hits[0];
    assert k == freshId;
    assert hits[0] == stored;
    FlattenUnflatten(freshId, md, text);
  }

  /** Delete then get: after a successful delete from a consistent
      collection, looking the id up finds nothing. */
  lemma DeleteThenGet(engine: Engine, id: string, hits: seq<Entry>)
    requires Consistent(engine)
    requires FilteredSearch(DeleteDocument(engine, id, None).engine, id, hits)
    ensures GetDocument(hits, id) == None
  {
  }

  /** A search result also needs a string `doc_id`, when it has one, for
      `DocumentChunk` to accept it. */
  predicate DocIdTyped(rec: Record)
  {
    "doc_id" in rec ==> rec["doc_id"].Str?
  }

  /** What the engine's similarity search may return for `k` results: at
      most `k` stored entries, in the engine's ranking order. */
  predicate SimilarHits(engine: Engine, k: int, hits: seq<Entry>)
  {
    && |hits| <= (if k < 0 then 0 else k)
    && forall i :: 0 <= i < |hits| ==> hits[i] in engine.Values
  }

  /** One search hit rebuilt as a chunk; `freshId` stands in when the record
      has no `doc_id`. */
  function ChunkOf(e: Entry, freshId: string): (c: DocumentChunk)
    requires WellTyped(e.record) && DocIdTyped(e.record)
    ensures c.text == e.text
    ensures c.embeddingId == Some(c.id)
    ensures c.metadata == Unflatten(e.record, e.text)
    ensures "doc_id" in e.record ==> Str(c.id) == e.record["doc_id"]
    ensures "doc_id" !in e.record ==> c.id == freshId
  {
    var id := if "doc_id" in e.record then e.record["doc_id"].s else freshId;
    DocumentChunk(id, e.text, Unflatten(e.record, e.text), Some(id))
  }

  /** `search_similar(query, k)` over the hits the engine returned, relevance
      scores dropped: one chunk per hit, in the engine's order. `freshIds`
      holds the uuid generated for each hit. */
  function SearchSimilar(hits: seq<Entry>, freshIds: seq<string>): (r: seq<DocumentChunk>)
    requires |freshIds| == |hits|
    requires forall i :: 0 <= i < |hits| ==> WellTyped(hits[i].record) && DocIdTyped(hits[i].record)
    ensures |r| == |hits|
    ensures forall i :: 0 <= i < |hits| ==>
              && r[i].text == hits[i].text
              && r[i].embeddingId == Some(r[i].id)
              && r[i].metadata == Unflatten(hits[i].record, hits[i].text)
              && ("doc_id" in hits[i].record ==> Str(r[i].id) == hits[i].record["doc_id"])
              && ("doc_id" !in hits[i].record ==> r[i].id == freshIds[i])
  {
    var r := seq(|hits|, i requires 0 <= i < |hits| => ChunkOf(hits[i], freshIds[i]));
    assert forall i :: 0 <= i < |hits| ==> r[i] == ChunkOf(hits[i], freshIds[i]);
    r
  }

  /** Against a consistent collection, every search result names a stored
      id whose entry is the hit, and there are at most `k` of them. */
  lemma SearchResultsAreStored(engine: Engine, k: int, hits: seq<Entry>, freshIds: seq<string>)
    requires Consistent(engine)
    requires SimilarHits(engine, k, hits)
    requires |freshIds| == |hits|
    requires forall i :: 0 <= i < |hits| ==> WellTyped(hits[i].record) && DocIdTyped(hits[i].record)
    ensures var r := SearchSimilar(hits, freshIds);
            && |r| <= (if k < 0 then 0 else k)
            && forall i :: 0 <= i < |r| ==> r[i].id in engine && engine[r[i].id] == hits[i]
  {
  }

  /** The metadata of the worked example: a text file with a timestamp. */
  function ExampleMetadata(): Record
  {
    map["filename" := Str("a.txt"), "file_type" := Str("txt"), "upload_timestamp" := Str("2024-01-01T00:00:00Z")]
  }

  /** Worked example: store "hello world" into an empty collection under the
      generated id "d1", look it up, delete it, look it up again. */
  lemma {:induction false} HelloWorldExample(hits1: seq<Entry>, hits2: seq<Entry>)
    ensures AddDocument(map[], "hello world", ExampleMetadata(), "d1", None).response.success
    ensures FilteredSearch(AddDocument(map[], "hello world", ExampleMetadata(), "d1", None).engine, "d1", hits1) ==>
              && FirstMatch(hits1, "d1") == Some(0)
              && WellTyped(hits1[0].record)
              && var got := GetDocument(hits1, "d1");
                 got.Some? && got.value.text == "hello world" && got.value.metadata.fileType == TXT
    ensures FilteredSearch(DeleteDocument(AddDocument(map[], "hello world", ExampleMetadata(), "d1", None).engine, "d1", None).engine, "d1", hits2) ==>
              GetDocument(hits2, "d1") == None
  {
    var md := ExampleMetadata();
    assert Lower("txt") == "txt";
    assert !BadFileTypeString(md);
    assert Extras(md) == map[];
    assert ScalarExtras(md) == map[];
    var engine: Engine := map[];
    var stored := AddDocument(engine, "hello world", md, "d1", None).engine;
    if FilteredSearch(stored, "d1", hits1) {
      StoreThenGet(engine, "hello world", md, "d1", hits1);
      var got := GetDocument(hits1, "d1");
      assert Lower(md["file_type"].s) == FileTypes.Value(got.value.metadata.fileType);
    }
    AddPreservesConsistent(engine, "hello world", md, "d1", None);
    if FilteredSearch(DeleteDocument(stored, "d1", None).engine, "d1", hits2) {
      DeleteThenGet(stored, "d1", hits2);
    }
  }
}
