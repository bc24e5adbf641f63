# UALR chatbot backend — a verified model of its core

The backend is a retrieval-augmented chatbot. An offline ingestion pipeline (`pipeline.py`)
reads the `.txt` and `.xlsx` files of a data directory and cuts them into overlapping
character chunks. It embeds the chunks in batches of 32, skipping any batch whose call
fails, and writes a vector index with a metadata list of `{"source_file", "content"}`
records. A rebuild script (`scripts/rebuild_index_from_jsonl.py`) does the same from a JSONL
file, in batches of 100 that abort on the first failure.

At query time a retriever (`app/retriever.py`, and the older `retriever.py`) embeds the
question and searches the index. It keeps the metadata records at valid positions that carry
"content". The HTTP service (`app/main.py`) joins these into a context and builds the prompt.
It sends the prompt to Gemini (`llm.py`), whose JSON response is classified into text or a
specific error. Feedback is forwarded to LangSmith under a run id normalised to its UUID.

The model is split into these modules:

- `Windowing`: the fixed-size, fixed-step windows that both `chunk_text` and every
  `range(0, n, B)` batch loop compute, plus `ConcatMap` and `Flatten`.
- `Strings`: `str.join`, Python's whitespace set, and substrings.
- `Chunking`: `chunk_text` as a loop proved equal to the windows, with their closed form,
  lengths, coverage and substring properties.
- `Ingestion`: `read_xlsx`, the directory walk, the skip-on-failure embedding loop and the
  persisting of `main` in `pipeline.py`. Files, spreadsheets and the embedder are parameters.
- `Retrieval`: the result filter shared by both retrievers, and the failure propagation of a query.
- `AppRetriever` and `LocalRetriever`: the two `Retriever` classes, with fail-fast loading and
  `query` loops proved against the shared filter.
- `ChatApi`: `extract_uuid_from_run_id`, the LangSmith score and comment, and the context
  and prompt of `handle_query`.
- `Gemini`: the request payload and the response decision tree of `call_gemini`.
- `Rebuild`: the rebuild script, corrected as described under Findings.

## Model

| member | source | states |
|---|---|---|
| Chunking.ChunkText | pipeline.py:19-26 | the cursor loop yields exactly the windows of width `size` every `size - overlap` characters: ceil(n / step) chunks, chunk j = text[j*step : min(j*step+size, n)], none for empty text |
| Chunking.ChunksShape | pipeline.py:19-26 | closed form of the chunks: their number and each chunk's slice bounds |
| Chunking.ChunkLengths | pipeline.py:24-25 | every chunk is 1..size characters long; a shorter one ends at the end of the text |
| Chunking.ChunksCoverText | pipeline.py:23-26 | with non-negative overlap every character of the text lies in some chunk |
| Chunking.ChunksAreInfixes | pipeline.py:24-25 | every chunk is a substring of the text |
| Chunking.ShortTextIsOneChunk | pipeline.py:19-26 | a non-empty text no longer than the step (and the size) is one chunk, itself |
| Windowing.WindowsShape | pipeline.py:83-84 | the windows number ceil(n / step), window j being the slice at j*step clipped to n |
| Windowing.WindowLengths | pipeline.py:84 | each window (batch) is non-empty, at most `size` long, and shorter only at the end |
| Windowing.WindowsCover | pipeline.py:23-26 | with step <= size every position lies in some window |
| Windowing.BatchesFromFlatten | pipeline.py:83-84 | non-overlapping windows concatenated give the sequence back |
| Windowing.ConcatMapMember | pipeline.py:57-78 | an element of a concatenation of per-item results comes from some item |
| Windowing.ConcatMapContains | pipeline.py:57-78 | every element of any item's result is in the concatenation |
| Windowing.ConcatMapSkip | pipeline.py:78 | an item that contributes nothing can be dropped without changing the concatenation |
| Strings.JoinLength | app/main.py:203 | `sep.join(parts)` is as long as the parts plus one separator between each two |
| Strings.JoinPartAt | app/main.py:203 | part k stands in the joined string at its offset |
| Strings.JoinSeparatorAt | pipeline.py:37 | the separator stands right after every part but the last |
| Ingestion.ReadXlsx | pipeline.py:32-40 | the nested sheet/row loop returns the chunks of the rendered non-blank rows, sheet by sheet, row by row |
| Ingestion.EmptyRowDropped | pipeline.py:37-38 | a row whose cells are all missing renders as "" and contributes no line |
| Ingestion.WorkbookLinesSound | pipeline.py:37-38 | every chunked line is non-blank and is the " \| " rendering of some row |
| Ingestion.WorkbookLinesComplete | pipeline.py:37-39 | every row whose rendering is non-blank is chunked |
| Ingestion.XlsxChunksWithinRows | pipeline.py:37-39 | every spreadsheet chunk is a substring of one row's line: chunks never span rows |
| Ingestion.AppendFileChunks | pipeline.py:64-77 | each chunk of a file is appended to `all_chunks` and a `{source_file, content}` record to `all_metadata` |
| Ingestion.CollectChunks | pipeline.py:57-78 | the directory loop yields the per-file chunks and records, file by file, in listing order |
| Ingestion.RecordsForAligned | pipeline.py:66-69 | one record per chunk of a file, with that chunk as content |
| Ingestion.MetadataAligned | pipeline.py:57-78 | metadata and chunks are equally long; record i has chunk i as content and a listed, supported file as source |
| Ingestion.UnsupportedFileContributesNothing | pipeline.py:62-78 | a file that is neither `.txt` nor `.xlsx` adds neither chunks nor metadata |
| Ingestion.EmbedChunks | pipeline.py:80-90 | the batch loop collects the vectors of the batches that succeed, in order, skipping failed batches |
| Ingestion.VectorsAndSkipped | pipeline.py:85-90 | vectors plus chunks of failed batches account for all chunks |
| Ingestion.EmbeddedCount | pipeline.py:80-90 | the vectors number the chunks minus those of failed batches |
| Ingestion.EmbedBatchesPartition | pipeline.py:81-84 | the batches are consecutive slices of 1 to 32 chunks covering all chunks in order |
| Ingestion.RunPipeline | pipeline.py:53-102 | a missing API key fails first; otherwise the outcome is persisting the collected metadata with the embedded vectors |
| Ingestion.BuildAlignment | pipeline.py:80-102 | on success the metadata keeps one record per chunk while the index holds only the vectors of successful batches; the two agree in length exactly when no batch failed; every vector is 768 long |
| Ingestion.MetadataIndependentOfFailures | pipeline.py:99-101 | the persisted metadata is the full list whatever the embedding outcome |
| Retrieval.KeptRecordsOrigins | app/retriever.py:65-77 | each result is the metadata record of a usable position, in increasing search order |
| Retrieval.KeptRecordsHaveContent | app/retriever.py:69-70 | every returned record has "content" |
| Retrieval.KeptRecordsComplete | app/retriever.py:66-70 | every in-range position whose record has "content" is returned |
| Retrieval.KeptRecordsCount | app/retriever.py:65-77 | at most as many results as positions, exactly as many iff all are usable |
| Retrieval.QueryFailures | app/retriever.py:46-63 | a failed embedding or search is re-raised; the query succeeds iff both succeed |
| AppRetriever.Retriever.constructor | app/retriever.py:15-42 | the loaded client, index, metadata and dimension become the fields |
| AppRetriever.Retriever.Query | app/retriever.py:44-77 | embeds the text, searches k neighbours and keeps the usable records in order; failures propagate |
| AppRetriever.Initialize | app/retriever.py:15-42 | client, index, metadata load in this order; the first failure is raised; success iff all three load |
| LocalRetriever.Retriever.constructor | retriever.py:12-27 | the model, index and metadata become the fields |
| LocalRetriever.Retriever.Query | retriever.py:29-46 | encodes the text, searches and keeps the usable records in order |
| LocalRetriever.Initialize | retriever.py:12-27 | model, index, metadata load in this order; the first failure is raised |
| ChatApi.FindUuid | app/main.py:70-71 | the scan returns the first offset at or after `from` where the 8-4-4-4-12 hex pattern matches, or none if there is none |
| ChatApi.ExtractUuid | app/main.py:59-80 | empty input is returned as is; otherwise the leftmost UUID match; the input itself when none matches |
| ChatApi.ExtractUuidShape | app/main.py:66-80 | the result is a substring of the run id, and a 36-character UUID whenever the run id contains one |
| ChatApi.ExtractUuidIdempotent | app/main.py:59-80 | normalising a normalised run id changes nothing |
| ChatApi.CleanUuidIsFixed | app/main.py:64 | a clean UUID is returned unchanged |
| ChatApi.DocumentedExample | app/main.py:63 | "run--9f67587f-11c2-4a3f-aef1-1b57a8d5a31d-0" gives "9f67587f-11c2-4a3f-aef1-1b57a8d5a31d" |
| ChatApi.FeedbackScore | app/main.py:144-148 | the score is 1.0 exactly for a thumbs-up and 0.0 otherwise, corrections included |
| ChatApi.FeedbackComment | app/main.py:145-148 | the comment is the correction text for a correction, else the reason matching the type, "No comment" when that is missing or empty; never empty |
| ChatApi.LangSmithFeedback | app/main.py:139-155 | feedback is submitted iff a client exists and the run id is non-empty, under the normalised run id, key "user_rating", with that score and comment |
| ChatApi.PromptLayout | app/main.py:206 | the prompt is "Question: ", the query, "\n\nContext:\n", the context and "\n\nAnswer:" at fixed offsets, so both can be read back |
| ChatApi.ContextOfRetrieved | app/main.py:202-203 | every retrieved document's content stands in the context at its join offset; the "" default never applies |
| Gemini.ApiUrlRecoversModel | llm.py:26 | the endpoint is the fixed prefix, the model name and ":generateContent" |
| Gemini.ApiUrlInjective | llm.py:26 | distinct models give distinct endpoints |
| Gemini.BuildPayload | llm.py:29-45 | one "user" content holding the prompt as its only part; `system_instruction` present iff the system prompt is truthy, holding it |
| Gemini.PayloadRoundTrip | llm.py:29-45 | both prompts can be read back from the payload |
| Gemini.ClassifyResponse | llm.py:58-86 | an "error" key fails first; then missing/empty candidates fail as blocked or missing; then a first candidate without parts fails; text is returned iff everything is present, and it is the first part's text |
| Gemini.FailureKinds | llm.py:59-84 | missing candidates without block reason and a missing text raise KeyError, the other failures ValueError |
| Gemini.OnlyFirstCandidateMatters | llm.py:72 | appending candidates never changes the outcome |
| Rebuild.BatchesPartition | scripts/rebuild_index_from_jsonl.py:11-14 | batches of 1 to 100 texts cover all texts in order; batch j spans j*100 to j*100 + its length |
| Rebuild.EmbedAllSucceeds | scripts/rebuild_index_from_jsonl.py:12-21 | embedding succeeds iff every batch does, yielding each batch's vectors in order |
| Rebuild.EmbedAllFirstFailure | scripts/rebuild_index_from_jsonl.py:12-21 | a failure is the error of the first failing batch, all earlier batches having succeeded |
| Rebuild.EmbedAllCount | scripts/rebuild_index_from_jsonl.py:20-21 | with one vector per text, a successful embedding has one vector per text |
| Rebuild.EmbedTexts | scripts/rebuild_index_from_jsonl.py:9-22 | the batch loop, with its accumulator starting at [], produces the in-order vectors or the first batch failure |
| Rebuild.EmbedTextsAsWritten | scripts/rebuild_index_from_jsonl.py:9-22 | as written the function always raises NameError: "client" when there are texts, "embeddings" otherwise |
| Rebuild.AsWrittenFailsWhereCorrectedSucceeds | scripts/rebuild_index_from_jsonl.py:15-21 | with an embedder that never fails the script as written raises while the corrected loop succeeds |
| Rebuild.ContentRecords | scripts/rebuild_index_from_jsonl.py:38 | one `{"content": text}` record per text, in order |
| Rebuild.RebuildIndex | scripts/rebuild_index_from_jsonl.py:24-42 | the rebuild is the outcome of embedding the batches, picking the dimension from the first vector and building the metadata |
| Rebuild.EmptyTextsFail | scripts/rebuild_index_from_jsonl.py:30 | an empty text list fails at the dimension pick |
| Rebuild.RebuildAligned | scripts/rebuild_index_from_jsonl.py:29-38 | on success there are as many vectors and records as texts, record i holds text i, all vectors have the picked dimension |

## Left out

- File, pickle, JSONL and index I/O: the files read, the listing order of the data directory,
  the loaded index and metadata are inputs, and the written files are the returned values.
- FAISS: the index is modelled as its vectors in insertion order, and `search` as a function
  from a vector and k to positions, with -1 or out-of-range positions possible. Distances
  and the nearest-neighbour order are not modelled.
- Floating point: vectors are `seq<real>`. float32 conversion, `np.stack` and `reshape` are
  not modelled beyond the length checks they imply.
- Embedding and model calls (Gemini `embed_content`, `SentenceTransformer.encode`,
  `genai.Client`): these are function parameters that return vectors or a failure. The
  model name "text-embedding-004" and the requested dimension are not modelled.
- Ingestion.OneVectorPerText: the promise that an embedding call returns one vector per text
  is a hypothesis of the count lemmas, not a checked property of the service.
- Rebuild.OneVectorPerText: the same hypothesis for the rebuild script.
- Spreadsheet cells are modelled as already rendered by `str(cell)`, with None for an
  `isna` cell. pandas' rendering of numbers and dates is not modelled.
- Chunking.ChunkText: requires 0 < size and overlap < size. A non-positive step makes the
  source loop forever, and a negative size relies on Python's negative slicing.
- Chunking.ChunksCoverText: stated only for a non-negative overlap. A negative overlap
  leaves gaps between chunks.
- `str.strip` is modelled through the whitespace set of `str.isspace`. Unicode normalisation
  is not modelled.
- The HTTP layer of `app/main.py` and `main.py` is not modelled: routing, request validation,
  CORS, exception-to-status mapping, the health and root endpoints, and the LangSmith client
  construction.
- The feedback JSON file, its timestamps and its other fields are not modelled.
- ChatApi.ExtractUuid: takes a string, so a `None` run id (returned unchanged by the source)
  is not modelled.
- The `call_gemini` HTTP request, `raise_for_status`, and the logging and re-raising of
  errors are not modelled. The exact error message texts are also left out: the safety
  ratings in them are rendered with Python's `repr`.
- `call_ollama` is a plain HTTP call with no decisions beyond its payload.
- Progress output (`print`, `tqdm`, logging) is not modelled.
- The `handle_query` flow after the prompt (calling Gemini and reading its reply) is not
  modelled; it is web plumbing.
- `drive_pipeline.py` (a download and a subprocess launch) and `tests/test_main.py` (a
  manual script against a live server) are not part of this model.

## Findings

| source | as written | input that shows it | evidently intended | confidence | as-written member | corrected member |
|---|---|---|---|---|---|---|
| scripts/rebuild_index_from_jsonl.py:15,21 | `embed_texts` calls `client.models.embed_content` and extends `embeddings`, and neither name is defined in the function or the module, so every call raises NameError | any non-empty text list, e.g. ["a"], with an embedder that never fails: NameError on `client`; an empty list: NameError on `embeddings` | a client built from `api_key` and an accumulator `embeddings = []`, returning the batch vectors in order | high (not executed) | Rebuild.EmbedTextsAsWritten, Rebuild.AsWrittenFailsWhereCorrectedSucceeds | Rebuild.EmbedTexts, Rebuild.EmbedAllSucceeds |
