/**
 * The ingestion pipeline (`pipeline.py`): spreadsheet rows flattened into lines, every
 * supported file chunked with one metadata record per chunk, chunks embedded in batches
 * of 32 with failed batches skipped, and the index and metadata persisted.
 */
module Ingestion {
  import opened Wrappers
  import opened Strings
  import opened Windowing
  import opened Chunking
  import opened Records

  /** A spreadsheet cell: None when pandas reports it missing, otherwise Some(str(cell)). */
  type Cell = Option<string>
  type Row = seq<Cell>
  type Sheet = seq<Row>

  const CellSeparator: string := " | "

  /** The rendered values of the non-missing cells of a row, in column order. */
  function PresentCells(row: Row): seq<string>
  {
    if row == [] then [] else PresentCells(row[..|row| - 1]) + CellText(row[|row| - 1])
  }

  function CellText(cell: Cell): seq<string>
  {
    if cell.Some? then [cell.value] else []
  }

  /** `" | ".join(str(cell) for cell in row if not pd.isna(cell))`. */
  function RowLine(row: Row): string
  {
    Join(CellSeparator, PresentCells(row))
  }

  /** The line a row contributes: none when its joined text is blank. */
  function RowLines(row: Row): seq<string>
  {
    if IsBlank(RowLine(row)) then [] else [RowLine(row)]
  }

  /** The kept lines of a sheet, in row order. */
  function SheetLines(sheet: Sheet): seq<string>
  {
    ConcatMap(sheet, RowLines)
  }

  /** The kept lines of a workbook, sheet after sheet. */
  function WorkbookLines(sheets: seq<Sheet>): seq<string>
  {
    ConcatMap(sheets, SheetLines)
  }

  /** A line chunked with the default chunk size and overlap of `chunk_text`. */
  function LineChunks(line: string): seq<string>
  {
    Chunks(line, ChunkSize, ChunkOverlap)
  }

  /** What `read_xlsx` returns for a workbook: every kept line chunked on its own, in line order. */
  function XlsxChunks(sheets: seq<Sheet>): seq<string>
  {
    ConcatMap(WorkbookLines(sheets), LineChunks)
  }

  /** `read_xlsx`: sheets in order, rows in order, each non-blank row line chunked separately. */
  method ReadXlsx(sheets: seq<Sheet>) returns (chunks: seq<string>)
    ensures chunks == XlsxChunks(sheets)
  {
    chunks := [];
    for s := 0 to |sheets|
      invariant chunks == ConcatMap(WorkbookLines(sheets[..s]), LineChunks)
    {
      var sheet := sheets[s];
      ghost var done := WorkbookLines(sheets[..s]);
      assert sheet[..0] == [];
      assert done + SheetLines(sheet[..0]) == done;
      for r := 0 to |sheet|
        invariant chunks == ConcatMap(done + SheetLines(sheet[..r]), LineChunks)
      {
        var line := RowLine(sheet[r]);
        RowStep(done, sheet, r);
        if !IsBlank(line) {
          var rowChunks := ChunkText(line, ChunkSize, ChunkOverlap);
          chunks := chunks + rowChunks;
        } else {
          assert chunks + [] == chunks;
        }
      }
      SheetStep(sheets, s);
    }
    assert sheets[..|sheets|] == sheets;
  }

  /** One row of the inner loop: a non-blank row adds the chunks of its line, a blank one nothing. */
  lemma RowStep(done: seq<string>, sheet: Sheet, r: nat)
    requires r < |sheet|
    ensures ConcatMap(done + SheetLines(sheet[..r + 1]), LineChunks)
         == ConcatMap(done + SheetLines(sheet[..r]), LineChunks)
            + (if IsBlank(RowLine(sheet[r])) then [] else LineChunks(RowLine(sheet[r])))
  {
    assert sheet[..r + 1] == sheet[..r] + [sheet[r]];
    ConcatMapSnoc(sheet[..r], sheet[r], RowLines);
    var before := done + SheetLines(sheet[..r]);
    assert done + SheetLines(sheet[..r + 1]) == before + RowLines(sheet[r]);
    if !IsBlank(RowLine(sheet[r])) {
      ConcatMapSnoc(before, RowLine(sheet[r]), LineChunks);
    } else {
      assert before + RowLines(sheet[r]) == before;
    }
  }

  /** One sheet of the outer loop: its lines follow those of the sheets before it. */
  lemma SheetStep(sheets: seq<Sheet>, s: nat)
    requires s < |sheets|
    ensures WorkbookLines(sheets[..s + 1]) == WorkbookLines(sheets[..s]) + SheetLines(sheets[s][..|sheets[s]|])
  {
    assert sheets[s][..|sheets[s]|] == sheets[s];
    assert sheets[..s + 1] == sheets[..s] + [sheets[s]];
    ConcatMapSnoc(sheets[..s], sheets[s], SheetLines);
  }

  /** A row without any present cell yields the empty line, and so no chunk. */
  lemma {:induction false} EmptyRowDropped(row: Row)
    requires forall i :: 0 <= i < |row| ==> row[i].None?
    ensures RowLine(row) == "" && RowLines(row) == []
  {
    if row != [] {
      EmptyRowDropped(row[..|row| - 1]);
    }
  }

  /** Every kept line is non-blank and is the line of some row of some sheet. */
  lemma WorkbookLinesSound(sheets: seq<Sheet>, l: string)
    requires l in WorkbookLines(sheets)
    ensures !IsBlank(l)
    ensures exists s, r :: 0 <= s < |sheets| && 0 <= r < |sheets[s]| && l == RowLine(sheets[s][r])
  {
    ConcatMapMember(sheets, SheetLines, l);
    var s :| 0 <= s < |sheets| && l in SheetLines(sheets[s]);
    ConcatMapMember(sheets[s], RowLines, l);
    var r :| 0 <= r < |sheets[s]| && l in RowLines(sheets[s][r]);
  }

  /** Every row whose line is not blank is kept. */
  lemma WorkbookLinesComplete(sheets: seq<Sheet>, s: nat, r: nat)
    requires s < |sheets| && r < |sheets[s]|
    requires !IsBlank(RowLine(sheets[s][r]))
    ensures RowLine(sheets[s][r]) in WorkbookLines(sheets)
  {
    ConcatMapContains(sheets[s], RowLines, r, RowLine(sheets[s][r]));
    ConcatMapContains(sheets, SheetLines, s, RowLine(sheets[s][r]));
  }

  /** No chunk spans two rows: every chunk `read_xlsx` returns is a substring of one kept row line. */
  lemma XlsxChunksWithinRows(sheets: seq<Sheet>, c: string)
    requires c in XlsxChunks(sheets)
    ensures exists l :: l in WorkbookLines(sheets) && IsInfix(c, l)
  {
    var lines := WorkbookLines(sheets);
    ConcatMapMember(lines, LineChunks, c);
    var k :| 0 <= k < |lines| && c in LineChunks(lines[k]);
    ChunksAreInfixes(lines[k], ChunkSize, ChunkOverlap);
  }

  // ---- collecting chunks and metadata over the data directory ----

  datatype SourceKind = PlainText | Spreadsheet | Unsupported

  /** The extension test of `main`: `.txt` first, then `.xlsx`; anything else is skipped. */
  function KindOf(name: string): SourceKind
  {
    if EndsWith(name, ".txt") then PlainText
    else if EndsWith(name, ".xlsx") then Spreadsheet
    else Unsupported
  }

  /**
   * The chunks one directory entry contributes; `readText` and `readSheets` stand for
   * `read_txt` and `pd.read_excel` on that entry.
   */
  function FileChunks(name: string, readText: string -> string, readSheets: string -> seq<Sheet>): seq<string>
  {
    match KindOf(name)
    case PlainText => Chunks(readText(name), ChunkSize, ChunkOverlap)
    case Spreadsheet => XlsxChunks(readSheets(name))
    case Unsupported => []
  }

  function ChunkRecord(name: string, chunk: string): Record
  {
    map[SourceFileKey := name, ContentKey := chunk]
  }

  function RecordsFor(name: string, chunks: seq<string>): seq<Record>
  {
    if chunks == [] then [] else RecordsFor(name, chunks[..|chunks| - 1]) + [ChunkRecord(name, chunks[|chunks| - 1])]
  }

  function FileChunker(readText: string -> string, readSheets: string -> seq<Sheet>): string -> seq<string>
  {
    name => FileChunks(name, readText, readSheets)
  }

  function FileRecorder(readText: string -> string, readSheets: string -> seq<Sheet>): string -> seq<Record>
  {
    name => RecordsFor(name, FileChunks(name, readText, readSheets))
  }

  /** `all_chunks` after the directory loop. */
  function AllChunks(names: seq<string>, readText: string -> string, readSheets: string -> seq<Sheet>): seq<string>
  {
    ConcatMap(names, FileChunker(readText, readSheets))
  }

  /** `all_metadata` after the directory loop. */
  function AllMetadata(names: seq<string>, readText: string -> string, readSheets: string -> seq<Sheet>): seq<Record>
  {
    ConcatMap(names, FileRecorder(readText, readSheets))
  }

  /** The inner loops of `main`: each chunk appended with its record `{source_file, content}`. */
  method AppendFileChunks(name: string, chunks: seq<string>, allChunks: seq<string>, allMetadata: seq<Record>)
    returns (allChunks': seq<string>, allMetadata': seq<Record>)
    ensures allChunks' == allChunks + chunks
    ensures allMetadata' == allMetadata + RecordsFor(name, chunks)
  {
    allChunks', allMetadata' := allChunks, allMetadata;
    for c := 0 to |chunks|
      invariant allChunks' == allChunks + chunks[..c]
      invariant allMetadata' == allMetadata + RecordsFor(name, chunks[..c])
    {
      assert chunks[..c + 1][..c] == chunks[..c];
      allChunks' := allChunks' + [chunks[c]];
      allMetadata' := allMetadata' + [ChunkRecord(name, chunks[c])];
    }
    assert chunks[..|chunks|] == chunks;
  }

  /** One iteration of the directory loop: entry f adds its chunks and their records. */
  lemma CollectStep(names: seq<string>, f: nat, readText: string -> string, readSheets: string -> seq<Sheet>)
    requires f < |names|
    ensures AllChunks(names[..f + 1], readText, readSheets)
         == AllChunks(names[..f], readText, readSheets) + FileChunks(names[f], readText, readSheets)
    ensures AllMetadata(names[..f + 1], readText, readSheets)
         == AllMetadata(names[..f], readText, readSheets) + RecordsFor(names[f], FileChunks(names[f], readText, readSheets))
  {
    assert names[..f + 1] == names[..f] + [names[f]];
    ConcatMapSnoc(names[..f], names[f], FileChunker(readText, readSheets));
    ConcatMapSnoc(names[..f], names[f], FileRecorder(readText, readSheets));
  }

  /** The directory loop of `main`, over the entries in the order the directory listing gives them. */
  method CollectChunks(names: seq<string>, readText: string -> string, readSheets: string -> seq<Sheet>)
    returns (allChunks: seq<string>, allMetadata: seq<Record>)
    ensures allChunks == AllChunks(names, readText, readSheets)
    ensures allMetadata == AllMetadata(names, readText, readSheets)
  {
    allChunks, allMetadata := [], [];
    for f := 0 to |names|
      invariant allChunks == AllChunks(names[..f], readText, readSheets)
      invariant allMetadata == AllMetadata(names[..f], readText, readSheets)
    {
      var fname := names[f];
      CollectStep(names, f, readText, readSheets);
      if EndsWith(fname, ".txt") {
        var text := readText(fname);
        var chunks := ChunkText(text, ChunkSize, ChunkOverlap);
        allChunks, allMetadata := AppendFileChunks(fname, chunks, allChunks, allMetadata);
      } else if EndsWith(fname, ".xlsx") {
        var xlsxChunks := ReadXlsx(readSheets(fname));
        allChunks, allMetadata := AppendFileChunks(fname, xlsxChunks, allChunks, allMetadata);
      } else {
        assert allChunks + [] == allChunks && allMetadata + [] == allMetadata;
      }
    }
    assert names[..|names|] == names;
  }

  lemma {:induction false} RecordsForAligned(name: string, chunks: seq<string>)
    ensures |RecordsFor(name, chunks)| == |chunks|
    ensures forall i :: 0 <= i < |chunks| ==> RecordsFor(name, chunks)[i] == ChunkRecord(name, chunks[i])
  {
    if chunks != [] {
      RecordsForAligned(name, chunks[..|chunks| - 1]);
    }
  }

  /**
   * One record per chunk, in chunk order: record i has content chunk i and names a
   * listed `.txt` or `.xlsx` file as its source.
   */
  lemma {:induction false} MetadataAligned(names: seq<string>, readText: string -> string, readSheets: string -> seq<Sheet>)
    ensures |AllMetadata(names, readText, readSheets)| == |AllChunks(names, readText, readSheets)|
    ensures forall i :: 0 <= i < |AllMetadata(names, readText, readSheets)| ==>
      var rec := AllMetadata(names, readText, readSheets)[i];
      && ContentKey in rec && rec[ContentKey] == AllChunks(names, readText, readSheets)[i]
      && SourceFileKey in rec && rec[SourceFileKey] in names
      && KindOf(rec[SourceFileKey]) != Unsupported
  {
    if names != [] {
      var init := names[..|names| - 1];
      var name := names[|names| - 1];
      var fc := FileChunks(name, readText, readSheets);
      MetadataAligned(init, readText, readSheets);
      RecordsForAligned(name, fc);
      var m0 := AllMetadata(init, readText, readSheets);
      var c0 := AllChunks(init, readText, readSheets);
      forall i | 0 <= i < |AllMetadata(names, readText, readSheets)|
        ensures var rec := AllMetadata(names, readText, readSheets)[i];
          && ContentKey in rec && rec[ContentKey] == AllChunks(names, readText, readSheets)[i]
          && SourceFileKey in rec && rec[SourceFileKey] in names
          && KindOf(rec[SourceFileKey]) != Unsupported
      {
        if i < |m0| {
          assert m0[i][SourceFileKey] in init;
        } else {
          assert AllMetadata(names, readText, readSheets)[i] == ChunkRecord(name, fc[i - |m0|]);
          assert fc != [];
        }
      }
    }
  }

  /** A directory entry that is neither `.txt` nor `.xlsx` changes neither list. */
  lemma UnsupportedFileContributesNothing(names: seq<string>, k: nat, readText: string -> string, readSheets: string -> seq<Sheet>)
    requires k < |names| && KindOf(names[k]) == Unsupported
    ensures AllChunks(names, readText, readSheets) == AllChunks(names[..k] + names[k + 1..], readText, readSheets)
    ensures AllMetadata(names, readText, readSheets) == AllMetadata(names[..k] + names[k + 1..], readText, readSheets)
  {
    ConcatMapSkip(names, k, FileChunker(readText, readSheets));
    assert FileChunks(names[k], readText, readSheets) == [];
    ConcatMapSkip(names, k, FileRecorder(readText, readSheets));
  }

  // ---- embedding in batches of 32, skipping failed batches ----

  const EmbedBatchSize: nat := 32

  /** One call of `embed_batch`: a vector per text, or None when the call raises. */
  type BatchEmbedder = seq<string> -> Option<seq<Vector>>

  /** The embedder keeps its promise: a successful call returns one vector per text. */
  ghost predicate OneVectorPerText(embed: BatchEmbedder)
  {
    forall batch :: embed(batch).Some? ==> |embed(batch).value| == |batch|
  }

  /** The vectors a batch adds to `embeddings`: none when its call failed. */
  function BatchVectors(embed: BatchEmbedder): seq<string> -> seq<Vector>
  {
    batch => if embed(batch).Some? then embed(batch).value else []
  }

  /** The chunks of a batch whose call failed, so that are left without a vector. */
  function SkippedBatch(embed: BatchEmbedder): seq<string> -> seq<string>
  {
    batch => if embed(batch).Some? then [] else batch
  }

  /** The consecutive slices `all_chunks[i:i+32]`, i = 0, 32, 64, ... */
  function EmbedBatches(chunks: seq<string>): seq<seq<string>>
  {
    Windows(chunks, EmbedBatchSize, EmbedBatchSize)
  }

  /** `embeddings` after the batch loop. */
  function Embedded(chunks: seq<string>, embed: BatchEmbedder): seq<Vector>
  {
    ConcatMap(EmbedBatches(chunks), BatchVectors(embed))
  }

  /** The chunks that end up without a vector. */
  function Skipped(chunks: seq<string>, embed: BatchEmbedder): seq<string>
  {
    ConcatMap(EmbedBatches(chunks), SkippedBatch(embed))
  }

  /** The vectors the batches from offset `start` on will add. */
  function PendingVectors(chunks: seq<string>, embed: BatchEmbedder, start: nat): seq<Vector>
  {
    ConcatMap(WindowsFrom(chunks, EmbedBatchSize, EmbedBatchSize, start), BatchVectors(embed))
  }

  /** One iteration of the batch loop: the batch at `start` adds its vectors, if its call succeeded. */
  lemma PendingVectorsStep(chunks: seq<string>, embed: BatchEmbedder, start: nat)
    requires start < |chunks|
    ensures var batch := chunks[start .. Min(start + EmbedBatchSize, |chunks|)];
      PendingVectors(chunks, embed, start)
      == (if embed(batch).Some? then embed(batch).value else []) + PendingVectors(chunks, embed, start + EmbedBatchSize)
  {
    var batch := chunks[start .. Min(start + EmbedBatchSize, |chunks|)];
    var rest := WindowsFrom(chunks, EmbedBatchSize, EmbedBatchSize, start + EmbedBatchSize);
    assert WindowsFrom(chunks, EmbedBatchSize, EmbedBatchSize, start) == [batch] + rest;
    ConcatMapCons(batch, rest, BatchVectors(embed));
  }

  /** The batch loop of `main`: a failed batch is reported and skipped, the loop goes on. */
  method EmbedChunks(chunks: seq<string>, embed: BatchEmbedder) returns (embeddings: seq<Vector>)
    ensures embeddings == Embedded(chunks, embed)
  {
    var n := |chunks|;
    embeddings := [];
    var i := 0;
    while i < n
      invariant embeddings + PendingVectors(chunks, embed, i) == Embedded(chunks, embed)
      decreases n - i
    {
      var batch := chunks[i .. Min(i + EmbedBatchSize, n)];
      PendingVectorsStep(chunks, embed, i);
      var batchEmb := embed(batch);
      i := i + EmbedBatchSize;
      if batchEmb.None? {
        continue;
      }
      embeddings := embeddings + batchEmb.value;
    }
    assert PendingVectors(chunks, embed, i) == [];
  }

  lemma {:induction false} VectorsAndSkipped(batches: seq<seq<string>>, embed: BatchEmbedder)
    requires OneVectorPerText(embed)
    ensures |ConcatMap(batches, BatchVectors(embed))| + |ConcatMap(batches, SkippedBatch(embed))| == |Flatten(batches)|
  {
    if batches != [] {
      var b, rest := batches[0], batches[1..];
      assert batches == [b] + rest;
      VectorsAndSkipped(rest, embed);
      ConcatMapCons(b, rest, BatchVectors(embed));
      ConcatMapCons(b, rest, SkippedBatch(embed));
    }
  }

  /**
   * With an embedder that returns a vector per text, the vectors number the chunks
   * minus the chunks of the failed batches.
   */
  lemma EmbeddedCount(chunks: seq<string>, embed: BatchEmbedder)
    requires OneVectorPerText(embed)
    ensures |Embedded(chunks, embed)| == |chunks| - |Skipped(chunks, embed)|
  {
    VectorsAndSkipped(EmbedBatches(chunks), embed);
    BatchesFromFlatten(chunks, EmbedBatchSize, 0);
  }

  /** The batches are consecutive slices of 1 to 32 chunks that together give all chunks back, in order. */
  lemma EmbedBatchesPartition(chunks: seq<string>)
    ensures Flatten(EmbedBatches(chunks)) == chunks
    ensures forall j :: 0 <= j < |EmbedBatches(chunks)| ==> 0 < |EmbedBatches(chunks)[j]| <= EmbedBatchSize
  {
    BatchesFromFlatten(chunks, EmbedBatchSize, 0);
    forall j | 0 <= j < |EmbedBatches(chunks)|
      ensures 0 < |EmbedBatches(chunks)[j]| <= EmbedBatchSize
    {
      WindowLengths(chunks, EmbedBatchSize, EmbedBatchSize, j);
    }
  }

  // ---- building and persisting the index ----

  datatype PipelineError =
    | MissingApiKey      // `assert API_KEY` fails
    | NoEmbeddings       // `np.stack` of an empty list raises
    | DimensionMismatch  // vectors of differing lengths, or not EMBEDDING_DIM long, are refused

  /** The FAISS index (its vectors in insertion order) and the metadata list, as written to disk. */
  datatype Build = Build(index: seq<Vector>, metadata: seq<Record>)

  predicate ApiKeySet(apiKey: Option<string>)
  {
    apiKey.Some? && apiKey.value != ""
  }

  /** Stacking the vectors, adding them to the index and writing both files. */
  function Persist(embeddings: seq<Vector>, metadata: seq<Record>): Result<Build, PipelineError>
  {
    if embeddings == [] then Failure(NoEmbeddings)
    else if exists v :: v in embeddings && |v| != EmbeddingDim then Failure(DimensionMismatch)
    else Success(Build(embeddings, metadata))
  }

  /**
   * `main`: collect the chunks of the listed files, embed them batch by batch, and persist
   * the index and the full metadata list.
   */
  method RunPipeline(apiKey: Option<string>, names: seq<string>, readText: string -> string,
                     readSheets: string -> seq<Sheet>, embed: BatchEmbedder)
    returns (r: Result<Build, PipelineError>)
    ensures !ApiKeySet(apiKey) ==> r == Failure(MissingApiKey)
    ensures ApiKeySet(apiKey) ==>
      r == Persist(Embedded(AllChunks(names, readText, readSheets), embed), AllMetadata(names, readText, readSheets))
  {
    if !ApiKeySet(apiKey) {
      return Failure(MissingApiKey);
    }
    var allChunks, allMetadata := CollectChunks(names, readText, readSheets);
    var embeddings := EmbedChunks(allChunks, embed);
    r := Persist(embeddings, allMetadata);
  }

  /**
   * A successful build keeps one metadata record per chunk, but only the vectors of the
   * batches that succeeded: the index is shorter than the metadata exactly when some
   * batch failed, and every vector has the configured dimension.
   */
  lemma BuildAlignment(names: seq<string>, readText: string -> string, readSheets: string -> seq<Sheet>, embed: BatchEmbedder)
    requires OneVectorPerText(embed)
    ensures var chunks := AllChunks(names, readText, readSheets);
      var r := Persist(Embedded(chunks, embed), AllMetadata(names, readText, readSheets));
      r.Success? ==>
        && |r.value.metadata| == |chunks|
        && |r.value.index| == |chunks| - |Skipped(chunks, embed)|
        && (|r.value.index| == |r.value.metadata| <==> Skipped(chunks, embed) == [])
        && forall v :: v in r.value.index ==> |v| == EmbeddingDim
  {
    MetadataAligned(names, readText, readSheets);
    EmbeddedCount(AllChunks(names, readText, readSheets), embed);
  }

  /** The persisted metadata is the full list, whichever embedding batches failed. */
  lemma MetadataIndependentOfFailures(embeddings1: seq<Vector>, embeddings2: seq<Vector>, metadata: seq<Record>)
    requires Persist(embeddings1, metadata).Success? && Persist(embeddings2, metadata).Success?
    ensures Persist(embeddings1, metadata).value.metadata == Persist(embeddings2, metadata).value.metadata == metadata
  {
  }
}
