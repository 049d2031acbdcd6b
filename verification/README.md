# Document vector store: metadata adapter and store facade

This project models, in Dafny, the one component of the document API that
holds original logic: the `VectorStore` service. It sits between the typed
document model (`FileType`, `DocumentMetadata`, `DocumentChunk`,
`VectorStoreResponse`) and a vector database that keeps, for each id, a text
and a flat key-to-scalar metadata record.

The model has three parts.

- **Flatten and validate** (`MetadataAdapter.Validate`, `MetadataAdapter.Flatten`,
  `VectorStore.AddDocument`). This is `add_document`. It turns a string
  `file_type` into a `FileType` member, ignoring case. It defaults
  `content_length` to the text length and checks the required fields in order.
  It then builds a flat record from the five standard keys plus the
  scalar-valued `additional_metadata` entries. It never raises: every failure
  becomes a response with `success == false`.
- **Unflatten** (`MetadataAdapter.Unflatten`). This is the reconstruction that
  `search_similar` and `get_document` both perform. It is total on well-typed
  records and fills in defaults: `unknown.txt`, `TXT`, the page length and `""`.
- **Facade over an abstract engine** (`VectorStore`). The engine is a map from
  id to `Entry(text, record)`.
  - `add_texts` upserts into that map.
  - `delete` removes one id.
  - Lookup by id is a filtered search followed by a scan for the first exact
    `doc_id` match.

Several things the real program gets from outside are parameters instead:
- the uuid generator (`freshId`, `freshIds`);
- an engine exception (`fault: Option<string>`);
- the engine's search results (`hits`).

The predicates `FilteredSearch` and `SimilarHits` state what the model assumes
those search results look like.

Python values in the caller's metadata dict are `Values.Value`:
- strings, integers and booleans;
- floats and other objects, which are opaque and carry only the text `str()`
  gives for them;
- `FileType` members;
- `None`;
- dicts.

`FileType` subclasses `str`, so a member counts as a string and as a scalar,
exactly as `isinstance` sees it.

Modules, leaf first:
- `Wrappers` (`wrappers.dfy`): `Option`, `Result`.
- `FileTypes` (`file_types.dfy`): the enumeration and case-insensitive lookup.
- `Values` (`values.dfy`): Python values, `isinstance` and `str()`.
- `Schemas` (`schemas.dfy`): the records. Their optional fields default to
  `None`, as in the schema module.
- `MetadataAdapter` (`metadata_adapter.dfy`): validate, flatten and unflatten.
- `VectorStore` (`vector_store.dfy`): the engine, the four operations and the
  invariant `Consistent`. `Consistent` says every record's `doc_id` equals the
  id it is stored under.

Three facts about the code shape the model.
- The store route (app/api/v1/routes.py:20) calls a `store_document` that
  `VectorStore` does not define. `add_document(text, metadata)`, with one
  generated id, is therefore the only store operation modelled.
- Scalar extras are written after the standard keys
  (app/services/vector_store.py:73, 86-90). An extra named `doc_id` therefore
  replaces the generated id in the stored record. `FreshIdInThreePlaces` and
  `AddPreservesConsistent` state exactly when "every record's `doc_id` equals
  the id it is stored under" survives.
- Rebuilding the metadata (app/services/vector_store.py:142-148) raises when
  a stored `filename`, `content_length` or `upload_timestamp` does not have
  the type the schema wants. `Unflatten` therefore requires `WellTyped`.

## Model

| member | source | states |
|---|---|---|
| FileTypes.FromValue | app/models/schemas.py:6-9 | `FileType(s)` succeeds exactly when `s` is the value of some member, and yields that member |
| FileTypes.Parse | app/services/vector_store.py:54-56 | case-insensitive lookup finds member `ft` exactly when the lower-cased string equals `ft`'s value |
| FileTypes.ParseValue | app/models/schemas.py:6-9 | a member written as its value parses back to the same member |
| FileTypes.ExactlyThreeMembers | app/models/schemas.py:6-9 | three distinct members with values `pdf`, `docx`, `txt`; lookup succeeds for exactly those strings |
| FileTypes.ParseUpperCase | app/services/vector_store.py:56 | `"PDF"` and `"Docx"` are accepted; `"text"` is not a file type |
| MetadataAdapter.ErrorText | app/services/vector_store.py:66 | every validation failure has a non-empty error text |
| MetadataAdapter.CoerceFileType | app/services/vector_store.py:54-56 | a plain-string `file_type` is replaced by the member it names; an unknown name is an error carrying the lower-cased name; nothing else changes |
| MetadataAdapter.DefaultContentLength | app/services/vector_store.py:58-60 | an absent `content_length` becomes the text length; a supplied one and every other key are kept |
| MetadataAdapter.FirstMissing | app/services/vector_store.py:63-66 | reports the earliest absent field of the list, and none exactly when all are present |
| MetadataAdapter.FirstMissingRequired | app/services/vector_store.py:63-66 | the required fields are checked in the order filename, file_type, content_length, upload_timestamp |
| MetadataAdapter.Validate | app/services/vector_store.py:53-66 | fails exactly on an unknown file-type string or a missing filename, file_type or upload_timestamp, naming the cause in that priority; on success every required field is present, the length is defaulted, file_type is a member and other keys are unchanged |
| MetadataAdapter.FileTypeText | app/services/vector_store.py:78-82 | the stored text of a member parses back to that member; the stored text of a boolean, `None` or an integer parses to no member, so it reads back as TXT |
| MetadataAdapter.ScalarExtras | app/services/vector_store.py:84-90 | exactly the scalar-valued entries of a dict `additional_metadata` survive; a non-dict contributes nothing |
| MetadataAdapter.Flatten | app/services/vector_store.py:68-90 | the record's keys are the five standard keys plus the scalar extras; extras win on collision; otherwise doc_id is the new id and the fields are copied |
| MetadataAdapter.ReadFileType | app/services/vector_store.py:130-139 | the file type read back is the member a string value names case-insensitively, and TXT for anything else |
| MetadataAdapter.Unflatten | app/services/vector_store.py:141-148 | every present field is read back unchanged; absent ones default to `unknown.txt`, the page length and `""`; the whole record becomes additional_metadata |
| MetadataAdapter.UnflattenEmpty | app/services/vector_store.py:205-223 | an empty record reads back as all defaults with file type TXT |
| MetadataAdapter.FlattenUnflatten | app/services/vector_store.py:70-148 | flatten then unflatten keeps filename, timestamp, length or text length, the named file type, every scalar extra, and the doc id unless an extra replaced it |
| VectorStore.AddTextsUpserts | app/services/vector_store.py:93-97 | an add_texts batch adds its ids, leaves other ids alone, and stores each triple unless a later one in the batch reuses the id |
| VectorStore.AddDocument | app/services/vector_store.py:49-109 | success exactly when validation passes and the engine does not raise; a validation failure makes no add_texts call and leaves the collection unchanged; every failure has an error and no document ids |
| VectorStore.AddDocumentInsertsOne | app/services/vector_store.py:93-103 | a successful store adds exactly the fresh id, holding the text and flattened record, and changes no other id |
| VectorStore.FreshIdInThreePlaces | app/services/vector_store.py:51-102 | the generated id is the engine id and the sole document id, and the record's doc_id unless a different scalar extra `doc_id` replaced it |
| VectorStore.DeleteDocument | app/services/vector_store.py:171-182 | success exactly when the engine does not raise; then only that id leaves the collection; on failure nothing changes and the error is the engine's message |
| VectorStore.DeleteIdempotent | app/services/vector_store.py:171-176 | deleting an unknown id succeeds and changes nothing; deleting twice equals deleting once |
| VectorStore.FirstMatch | app/services/vector_store.py:202-204 | finds the earliest hit whose doc_id equals the id, and none exactly when no hit matches |
| VectorStore.GetDocument | app/services/vector_store.py:196-232 | None exactly when no hit matches; otherwise the first match's text and metadata, with id and embedding_id both the requested id |
| VectorStore.GetUnknownId | app/services/vector_store.py:196-232 | looking up an id no stored record carries returns None |
| VectorStore.ConsistentMatch | app/services/vector_store.py:73 | in a consistent collection only the entry stored under an id matches that id |
| VectorStore.AddPreservesConsistent | app/services/vector_store.py:70-97 | storing keeps every record's doc_id equal to its engine id unless an extra replaced doc_id with another value |
| VectorStore.DeletePreservesConsistent | app/services/vector_store.py:171-176 | deleting keeps the collection consistent |
| VectorStore.StoreThenGet | app/services/vector_store.py:196-232 | after a successful store, looking up the new id returns the stored text with the caller's filename, timestamp, file type (named by a string or given as a member) and content length (the text length when none was given) |
| VectorStore.DeleteThenGet | app/services/vector_store.py:171-204 | after a successful delete, looking up the id returns None |
| VectorStore.ChunkOf | app/services/vector_store.py:126-156 | a hit becomes a chunk with its text, unflattened metadata, its doc_id (or the fresh id when absent) as both id and embedding_id |
| VectorStore.SearchSimilar | app/services/vector_store.py:121-160 | one chunk per hit, in the engine's order, each carrying the hit's text, metadata and doc_id |
| VectorStore.SearchResultsAreStored | app/services/vector_store.py:121-160 | against a consistent collection every result names a stored id whose entry is the hit; the bound of at most k results is the engine's promise, assumed by `SimilarHits` and carried through |
| VectorStore.HelloWorldExample | app/services/vector_store.py:49-232 | storing "hello world" as a txt file under "d1" reads back with that text and file type TXT, and after deleting "d1" the lookup returns None |

## Left out

- HTTP layer (`app/main.py`, `app/api/v1/routes.py`): routing, CORS, health endpoints and the exception handler are glue. The route's call to `store_document` names an operation the service does not define, so no contract is invented for it.
- `StoreDocumentResponse` (app/models/schemas.py:12-18): only the HTTP layer uses it.
- Configuration (`app/core/config.py`) and `VectorStore.__init__`: environment variables, directory creation and model loading are I/O.
- Embeddings, similarity ranking, relevance scores and persistence belong to the engine. Search results are parameters, and relevance scores are dropped, as the code drops them. Engine exceptions are a `fault` parameter of `AddDocument` and `DeleteDocument` only, the two operations that turn them into a failed response.
- VectorStore.GetDocument and VectorStore.SearchSimilar: `get_document` (app/services/vector_store.py:196-200) and `search_similar` (app/services/vector_store.py:121) catch nothing, so an engine error reaches their caller as an exception. The model leaves that path out: these two operations cannot fail. This is the one place where the code does not report failures as data.
- uuid generation: the ids are parameters. One id per search hit is passed in, because the code evaluates the default argument for every hit.
- Chroma's own check of metadata value types (for example a non-scalar `filename` copied verbatim): it is folded into the `fault` parameter.
- Floats and other opaque objects: only their `str()` text is kept; no arithmetic is modelled.
- Python dict insertion order and non-string dict keys: `additional_metadata` is a map keyed by strings. Its scalar entries have distinct keys, so the order in which they are written does not change the record.
- The in-place update of the caller's metadata dict (file type and content length): the updated dict is returned by `Validate` but is not written back to the caller.
- Concurrency: the model is sequential.
- FileTypes.Parse: lower-casing covers ASCII letters only. For the three lower-case values this accepts the same strings as Unicode `str.lower()`, but the error text for non-ASCII input may differ.
- MetadataAdapter.ErrorText: `repr` quoting of the rejected file type is modelled as plain single quotes; escaping of quotes and control characters is not modelled.
- MetadataAdapter.Unflatten: requires `WellTyped` instead of modelling the schema library's coercion (for example the string `"5"` accepted as an integer) or its validation error on ill-typed stored fields.
- VectorStore.GetDocument: requires the first matching record to be `WellTyped`, for the same reason.
- VectorStore.SearchSimilar: requires every hit to be `WellTyped` with a string `doc_id`, for the same reason.
- VectorStore.ChunkOf: requires its hit to be `WellTyped` with a string `doc_id`, for the same reason.
- VectorStore.StoreThenGet: assumes the engine's filtered search returns at least one hit when a stored record matches, and that no scalar extra overwrites a standard key.
