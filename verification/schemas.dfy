/** The records the API exchanges. Fields without a default are required;
    the optional ones default to `None`, as in the schema module. */
module Schemas {
  import opened Wrappers
  import opened FileTypes
  import opened Values

  /** Metadata of one stored document. */
  datatype DocumentMetadata = DocumentMetadata(
    filename: string,
    fileType: FileType,
    contentLength: int,
    uploadTimestamp: string,
    additionalMetadata: Option<Record> := None)

  /** One chunk of text with its metadata. */
  datatype DocumentChunk = DocumentChunk(
    id: string,
    text: string,
    metadata: DocumentMetadata,
    embeddingId: Option<string> := None)

  /** What a store or delete operation reports. */
  datatype VectorStoreResponse = VectorStoreResponse(
    success: bool,
    message: string,
    documentIds: Option<seq<string>> := None,
    error: Option<string> := None)
}
