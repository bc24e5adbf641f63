/** The values the index and the metadata store hold. */
module Records {

  /** An embedding vector; its float32 entries are modelled as reals. */
  type Vector = seq<real>

  /** A metadata record: a dictionary from string keys to string values. */
  type Record = map<string, string>

  const ContentKey: string := "content"
  const SourceFileKey: string := "source_file"

  /** The dimension the ingestion pipeline asks the embedding model for (EMBEDDING_DIM). */
  const EmbeddingDim: nat := 768
}
