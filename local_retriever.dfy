/**
 * The earlier retriever (`retriever.py`): a local sentence-transformer model instead of
 * the Gemini client, the same FAISS index and metadata list, the same result filtering.
 */
module LocalRetriever {
  import opened Wrappers
  import opened Records
  import opened Retrieval

  /** `model.encode([text], normalize_embeddings=True)` on a single text. */
  type Encode = string -> Result<Vector, string>

  class Retriever {
    const model: Encode
    const index: IndexSearch
    const docMetadata: seq<Record>

    constructor (model: Encode, index: IndexSearch, docMetadata: seq<Record>)
      ensures this.model == model && this.index == index && this.docMetadata == docMetadata
    {
      this.model := model;
      this.index := index;
      this.docMetadata := docMetadata;
    }

    /**
     * `query(text, k)`: encode, search, then keep the usable positions' records in search
     * order. No handler surrounds the calls, so their failures reach the caller as they are.
     */
    method Query(text: string, k: int) returns (r: Result<seq<Record>, QueryError>)
      ensures r == QueryOutcome(model(text), index, k, docMetadata)
    {
      var embedding := model(text);
      if embedding.Failure? {
        return Failure(EmbedFailed(embedding.error));
      }
      var found := index(embedding.value, k);
      if found.Failure? {
        return Failure(SearchFailed(found.error));
      }
      var positions := found.value;
      var results: seq<Record> := [];
      for j := 0 to |positions|
        invariant results + KeptRecords(docMetadata, positions[j..]) == KeptRecords(docMetadata, positions)
      {
        var i := positions[j];
        assert positions[j..] == [i] + positions[j + 1..];
        if i < |docMetadata| && i >= 0 {
          var doc := docMetadata[i];
          if ContentKey in doc {
            results := results + [doc];
          }
        }
      }
      assert positions[|positions|..] == [];
      assert results == KeptRecords(docMetadata, positions);
      assert QueryOutcome(embedding, index, k, docMetadata) == Success(results);
      return Success(results);
    }
  }

  /**
   * `Retriever(index_path, metadata_path)`: the model, then the index, then the metadata;
   * the first failure is raised.
   */
  method Initialize(model: Result<Encode, string>, index: Result<IndexSearch, string>,
                    metadata: Result<seq<Record>, string>)
    returns (r: Result<Retriever, InitError>)
    ensures model.Failure? ==> r == Failure(ModelInitFailed(model.error))
    ensures model.Success? && index.Failure? ==> r == Failure(IndexLoadFailed(index.error))
    ensures model.Success? && index.Success? && metadata.Failure? ==> r == Failure(MetadataLoadFailed(metadata.error))
    ensures r.Success? <==> model.Success? && index.Success? && metadata.Success?
    ensures r.Success? ==>
      r.value.model == model.value && r.value.index == index.value && r.value.docMetadata == metadata.value
  {
    if model.Failure? {
      return Failure(ModelInitFailed(model.error));
    }
    if index.Failure? {
      return Failure(IndexLoadFailed(index.error));
    }
    if metadata.Failure? {
      return Failure(MetadataLoadFailed(metadata.error));
    }
    var retriever := new Retriever(model.value, index.value, metadata.value);
    return Success(retriever);
  }
}
