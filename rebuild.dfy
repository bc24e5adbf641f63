/**
 * `scripts/rebuild_index_from_jsonl.py`: embed a list of texts in batches of 100 and
 * rebuild the index and the metadata list from them. Unlike the ingestion pipeline, a
 * failed batch aborts the whole rebuild.
 */
module Rebuild {
  import opened Wrappers
  import opened Windowing
  import opened Records

  const RebuildBatchSize: nat := 100

  /** One `embed_content` call: a vector per text, or the error it raises. */
  type Embedder = seq<string> -> Result<seq<Vector>, string>

  /** The embedder keeps its promise: a successful call returns one vector per text. */
  ghost predicate OneVectorPerText(embed: Embedder)
  {
    forall batch :: embed(batch).Success? ==> |embed(batch).value| == |batch|
  }

  /** The consecutive slices `texts[i:i+100]`, i = 0, 100, 200, ... */
  function Batches(texts: seq<string>): seq<seq<string>>
  {
    Windows(texts, RebuildBatchSize, RebuildBatchSize)
  }

  /**
   * The batches cover all texts in order, each holds 1 to 100 texts, and batch j is the
   * one reported as the range j * 100 -> j * 100 + its length.
   */
  lemma BatchesPartition(texts: seq<string>)
    ensures Flatten(Batches(texts)) == texts
    ensures forall j :: 0 <= j < |Batches(texts)| ==>
      && 0 < |Batches(texts)[j]| <= RebuildBatchSize
      && j * RebuildBatchSize + |Batches(texts)[j]| <= |texts|
      && Batches(texts)[j] == texts[j * RebuildBatchSize .. j * RebuildBatchSize + |Batches(texts)[j]|]
  {
    BatchesFromFlatten(texts, RebuildBatchSize, 0);
    WindowsShape(texts, RebuildBatchSize, RebuildBatchSize);
    forall j | 0 <= j < |Batches(texts)|
      ensures 0 < |Batches(texts)[j]| <= RebuildBatchSize
    {
      WindowLengths(texts, RebuildBatchSize, RebuildBatchSize, j);
    }
  }

  /** The vectors of the batches in order, or the error of the first batch that fails. */
  function EmbedAll(batches: seq<seq<string>>, embed: Embedder): Result<seq<Vector>, string>
  {
    if batches == [] then Success([])
    else
      match embed(batches[0])
      case Failure(e) => Failure(e)
      case Success(v) =>
        match EmbedAll(batches[1..], embed)
        case Failure(e) => Failure(e)
        case Success(w) => Success(v + w)
  }

  /** The vectors a successful call contributes. */
  function VectorsOf(embed: Embedder): seq<string> -> seq<Vector>
  {
    batch => if embed(batch).Success? then embed(batch).value else []
  }

  /** Embedding succeeds exactly when every batch does, and then yields each batch's vectors in order. */
  lemma {:induction false} EmbedAllSucceeds(batches: seq<seq<string>>, embed: Embedder)
    ensures EmbedAll(batches, embed).Success? <==> forall j :: 0 <= j < |batches| ==> embed(batches[j]).Success?
    ensures EmbedAll(batches, embed).Success? ==> EmbedAll(batches, embed).value == ConcatMap(batches, VectorsOf(embed))
  {
    if batches != [] {
      var b, rest := batches[0], batches[1..];
      assert batches == [b] + rest;
      EmbedAllSucceeds(rest, embed);
      ConcatMapCons(b, rest, VectorsOf(embed));
      if forall j :: 0 <= j < |rest| ==> embed(rest[j]).Success? {
        assert forall j :: 0 < j < |batches| ==> batches[j] == rest[j - 1];
      } else {
        var j :| 0 <= j < |rest| && !embed(rest[j]).Success?;
        assert batches[j + 1] == rest[j];
      }
    }
  }

  /** A failure is the error of the first failing batch: no skipping, the rebuild aborts there. */
  lemma {:induction false} EmbedAllFirstFailure(batches: seq<seq<string>>, embed: Embedder)
    requires EmbedAll(batches, embed).Failure?
    ensures exists j ::
      && 0 <= j < |batches| && embed(batches[j]).Failure?
      && EmbedAll(batches, embed).error == embed(batches[j]).error
      && (forall i :: 0 <= i < j ==> embed(batches[i]).Success?)
  {
    var b, rest := batches[0], batches[1..];
    if embed(b).Success? {
      EmbedAllFirstFailure(rest, embed);
      var j :| 0 <= j < |rest| && embed(rest[j]).Failure?
        && EmbedAll(rest, embed).error == embed(rest[j]).error
        && forall i :: 0 <= i < j ==> embed(rest[i]).Success?;
      assert batches[j + 1] == rest[j];
      assert forall i :: 0 < i < j + 1 ==> batches[i] == rest[i - 1];
    } else {
      assert embed(batches[0]).Failure?;
    }
  }

  /** With an embedder that keeps its promise, a successful embedding has one vector per text. */
  lemma {:induction false} EmbedAllCount(batches: seq<seq<string>>, embed: Embedder)
    requires OneVectorPerText(embed)
    requires EmbedAll(batches, embed).Success?
    ensures |EmbedAll(batches, embed).value| == |Flatten(batches)|
  {
    if batches != [] {
      EmbedAllCount(batches[1..], embed);
    }
  }

  /** The outcome of the remaining batches, continuing an accumulator that already holds `done`. */
  function AfterAccumulated(done: seq<Vector>, rest: Result<seq<Vector>, string>): Result<seq<Vector>, string>
  {
    if rest.Success? then Success(done + rest.value) else rest
  }

  /**
   * `embed_texts` with its accumulator started at `[]` and the embedder passed in: the
   * loop over offsets 0, 100, 200, ... extends the accumulator batch by batch and stops at
   * the first batch that fails.
   */
  method EmbedTexts(texts: seq<string>, embed: Embedder) returns (r: Result<seq<Vector>, string>)
    ensures r == EmbedAll(Batches(texts), embed)
  {
    var n := |texts|;
    var embeddings: seq<Vector> := [];
    var i := 0;
    assert AfterAccumulated([], EmbedAll(Batches(texts), embed)) == EmbedAll(Batches(texts), embed) by {
      if EmbedAll(Batches(texts), embed).Success? {
        assert [] + EmbedAll(Batches(texts), embed).value == EmbedAll(Batches(texts), embed).value;
      }
    }
    while i < n
      invariant AfterAccumulated(embeddings, EmbedAll(WindowsFrom(texts, RebuildBatchSize, RebuildBatchSize, i), embed))
             == EmbedAll(Batches(texts), embed)
      decreases n - i
    {
      var batch := texts[i .. Min(i + RebuildBatchSize, n)];
      ghost var rest := WindowsFrom(texts, RebuildBatchSize, RebuildBatchSize, i + RebuildBatchSize);
      ghost var here := WindowsFrom(texts, RebuildBatchSize, RebuildBatchSize, i);
      assert here == [batch] + rest;
      assert here[0] == batch && here[1..] == rest;
      var response := embed(batch);
      if response.Failure? {
        assert EmbedAll(here, embed) == Failure(response.error);
        return Failure(response.error);
      }
      assert EmbedAll(here, embed) == AfterAccumulated(response.value, EmbedAll(rest, embed));
      if EmbedAll(rest, embed).Success? {
        var later := EmbedAll(rest, embed).value;
        assert (embeddings + response.value) + later == embeddings + (response.value + later);
      }
      embeddings := embeddings + response.value;
      i := i + RebuildBatchSize;
    }
    assert WindowsFrom(texts, RebuildBatchSize, RebuildBatchSize, i) == [];
    assert embeddings + [] == embeddings;
    r := Success(embeddings);
  }

  /** The exception `embed_texts` raises as written. */
  datatype NameError = NameError(name: string)

  /**
   * `embed_texts` as written: the loop body reads `client`, which is never defined, and an
   * empty list skips the loop only to return the undefined `embeddings`.
   */
  function EmbedTextsAsWritten(texts: seq<string>): (r: Result<seq<Vector>, NameError>)
    ensures r.Failure?
    ensures r.error.name == (if |Batches(texts)| > 0 then "client" else "embeddings")
  {
    if |texts| > 0 then
      assert Batches(texts) != [];
      Failure(NameError("client"))
    else Failure(NameError("embeddings"))
  }

  /** Even with an embedder that never fails, the script as written raises where the corrected loop succeeds. */
  lemma AsWrittenFailsWhereCorrectedSucceeds(texts: seq<string>, embed: Embedder)
    requires forall batch :: embed(batch).Success?
    ensures EmbedTextsAsWritten(texts).Failure?
    ensures EmbedAll(Batches(texts), embed).Success?
  {
    EmbedAllSucceeds(Batches(texts), embed);
  }

  // ---- rebuilding ----

  datatype RebuildError =
    | EmbedFailed(reason: string)  // a batch call raised
    | NoFirstEmbedding             // `embeddings[0]` of an empty list
    | RaggedVectors                // `np.array` / `index.add` refuse vectors of another length

  /** The index (its dimension and vectors) and the metadata list, as written to disk. */
  datatype Rebuilt = Rebuilt(dim: nat, index: seq<Vector>, metadata: seq<Record>)

  /** `[{"content": text} for text in texts]`. */
  function ContentRecords(texts: seq<string>): (records: seq<Record>)
    ensures |records| == |texts|
    ensures forall i :: 0 <= i < |texts| ==> records[i] == map[ContentKey := texts[i]]
  {
    seq(|texts|, i requires 0 <= i < |texts| => map[ContentKey := texts[i]])
  }

  /** What `rebuild_index` produces from the embedding outcome. */
  function RebuildOutcome(texts: seq<string>, embedded: Result<seq<Vector>, string>): Result<Rebuilt, RebuildError>
  {
    match embedded
    case Failure(e) => Failure(EmbedFailed(e))
    case Success(embeddings) =>
      if embeddings == [] then Failure(NoFirstEmbedding)
      else if exists v :: v in embeddings && |v| != |embeddings[0]| then Failure(RaggedVectors)
      else Success(Rebuilt(|embeddings[0]|, embeddings, ContentRecords(texts)))
  }

  /** `rebuild_index` on the texts read from the JSONL file. */
  method RebuildIndex(texts: seq<string>, embed: Embedder) returns (r: Result<Rebuilt, RebuildError>)
    ensures r == RebuildOutcome(texts, EmbedAll(Batches(texts), embed))
  {
    var embedded := EmbedTexts(texts, embed);
    if embedded.Failure? {
      return Failure(EmbedFailed(embedded.error));
    }
    var embeddings := embedded.value;
    if |embeddings| == 0 {
      return Failure(NoFirstEmbedding);
    }
    var dim := |embeddings[0]|;
    if exists v :: v in embeddings && |v| != dim {
      return Failure(RaggedVectors);
    }
    r := Success(Rebuilt(dim, embeddings, ContentRecords(texts)));
  }

  /** An empty text list never reaches the index: the dimension pick fails first. */
  lemma EmptyTextsFail(embed: Embedder)
    ensures RebuildOutcome([], EmbedAll(Batches([]), embed)) == Failure(NoFirstEmbedding)
  {
    assert Batches([]) == [];
  }

  /**
   * A successful rebuild has one metadata record per text, in order, one vector per text
   * when the embedder keeps its promise, and every vector of the dimension it picked.
   */
  lemma RebuildAligned(texts: seq<string>, embed: Embedder)
    requires OneVectorPerText(embed)
    ensures var r := RebuildOutcome(texts, EmbedAll(Batches(texts), embed));
      r.Success? ==>
        && |r.value.metadata| == |texts| == |r.value.index|
        && (forall i :: 0 <= i < |texts| ==> r.value.metadata[i][ContentKey] == texts[i])
        && (forall v :: v in r.value.index ==> |v| == r.value.dim)
        && texts != []
  {
    var embedded := EmbedAll(Batches(texts), embed);
    if embedded.Success? {
      EmbedAllCount(Batches(texts), embed);
      BatchesPartition(texts);
    }
  }
}
