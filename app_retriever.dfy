/**
 * The service's retriever (`app/retriever.py`): a Gemini embedding client, a FAISS index
 * and the metadata list, loaded once and then only read by `query`.
 */
module AppRetriever {
  import opened Wrappers
  import opened Records
  import opened Retrieval

  /** `client.models.embed_content` on a single text at the given output dimensionality. */
  type EmbedContent = (string, nat) -> Result<Vector, string>

  class Retriever {
    const embeddingDim: nat
    const model: EmbedContent
    const index: IndexSearch
    const docMetadata: seq<Record>

    /** The fields `__init__` sets once the client, the index and the metadata have all loaded. */
    constructor (embeddingDim: nat, model: EmbedContent, index: IndexSearch, docMetadata: seq<Record>)
      ensures this.embeddingDim == embeddingDim && this.model == model
      ensures this.index == index && this.docMetadata == docMetadata
    {
      this.embeddingDim := embeddingDim;
      this.model := model;
      this.index := index;
      this.docMetadata := docMetadata;
    }

    /**
     * `query(text, k)`: embed the text (a failure is re-raised), search the index (a
     * failure is re-raised), then keep the usable positions' records in search order.
     * Nothing is modified.
     */
    method Query(text: string, k: int) returns (r: Result<seq<Record>, QueryError>)
      ensures r == QueryOutcome(model(text, embeddingDim), index, k, docMetadata)
    {
      var embedding := model(text, embeddingDim);
      if embedding.Failure? {
        return Failure(EmbedFailed(embedding.error));
      }
      var found := index(embedding.value, k);
      if found.Failure? {
        return Failure(SearchFailed(found.error));
      }
      var positions := found.value;
      var results: seq<Record> := [];
      for j := 0 to |positions|
        invariant results + KeptRecords(docMetadata, positions[j..]) == KeptRecords(docMetadata, positions)
      {
        var i := positions[j];
        assert positions[j..] == [i] + positions[j + 1..];
        if 0 <= i < |docMetadata| {
          var doc := docMetadata[i];
          if ContentKey in doc {
            results := results + [doc];
          }
          // else: "missing 'content' field" is logged and the entry skipped
        }
        // else: "Invalid index" is logged and the position skipped
      }
      assert positions[|positions|..] == [];
      assert results == KeptRecords(docMetadata, positions);
      assert QueryOutcome(embedding, index, k, docMetadata) == Success(results);
      return Success(results);
    }
  }

  /**
   * `Retriever(index_path, metadata_path, api_key, embedding_dim)`: the client, the index
   * and the metadata are loaded in this order, and the first failure is raised, so no
   * half-loaded retriever exists.
   */
  method Initialize(embeddingDim: nat, client: Result<EmbedContent, string>,
                    index: Result<IndexSearch, string>, metadata: Result<seq<Record>, string>)
    returns (r: Result<Retriever, InitError>)
    ensures client.Failure? ==> r == Failure(ModelInitFailed(client.error))
    ensures client.Success? && index.Failure? ==> r == Failure(IndexLoadFailed(index.error))
    ensures client.Success? && index.Success? && metadata.Failure? ==> r == Failure(MetadataLoadFailed(metadata.error))
    ensures r.Success? <==> client.Success? && index.Success? && metadata.Success?
    ensures r.Success? ==>
      && r.value.embeddingDim == embeddingDim && r.value.model == client.value
      && r.value.index == index.value && r.value.docMetadata == metadata.value
  {
    if client.Failure? {
      return Failure(ModelInitFailed(client.error));
    }
    if index.Failure? {
      return Failure(IndexLoadFailed(index.error));
    }
    if metadata.Failure? {
      return Failure(MetadataLoadFailed(metadata.error));
    }
    var retriever := new Retriever(embeddingDim, client.value, index.value, metadata.value);
    return Success(retriever);
  }
}
