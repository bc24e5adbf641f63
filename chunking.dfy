/**
 * The chunker of the ingestion pipeline (`chunk_text`): fixed-size character windows
 * whose start advances by chunk_size - overlap, the last one cut at the end of the text.
 */
module Chunking {
  import opened Windowing
  import opened Strings

  /** CHUNK_SIZE and CHUNK_OVERLAP, also the defaults of `chunk_text`. */
  const ChunkSize: int := 500
  const ChunkOverlap: int := 100

  /**
   * The generator only advances while chunk_size - overlap > 0; with overlap >= chunk_size
   * `start` never moves and the loop does not end. A positive chunk_size keeps every
   * slice bound non-negative (Python's negative slice bounds are not modelled).
   */
  predicate ValidChunking(size: int, overlap: int)
  {
    0 < size && overlap < size
  }

  /** How far `start` advances after each chunk. */
  function Step(size: int, overlap: int): nat
    requires ValidChunking(size, overlap)
  {
    size - overlap
  }

  /** The chunks `chunk_text(text, size, overlap)` yields, in order. */
  function Chunks(text: string, size: int, overlap: int): seq<string>
    requires ValidChunking(size, overlap)
  {
    Windows(text, size, Step(size, overlap))
  }

  /**
   * `chunk_text`, collected into a list: chunk j is
   * text[j * step .. min(j * step + size, n)] with step = size - overlap, and there are
   * ceil(n / step) of them (none for the empty text).
   */
  method ChunkText(text: string, size: int, overlap: int) returns (chunks: seq<string>)
    requires ValidChunking(size, overlap)
    ensures chunks == Chunks(text, size, overlap)
    ensures |chunks| == CeilDiv(|text|, Step(size, overlap))
    ensures |text| == 0 ==> chunks == []
    ensures forall j :: 0 <= j < |chunks| ==>
      j * Step(size, overlap) < |text| && chunks[j] == text[j * Step(size, overlap) .. Min(j * Step(size, overlap) + size, |text|)]
  {
    var step := Step(size, overlap);
    var n := |text|;
    var start := 0;
    chunks := [];
    while start < n
      invariant 0 <= start
      invariant chunks + WindowsFrom(text, size, step, start) == Windows(text, size, step)
      decreases n - start
    {
      var end := Min(start + size, n);
      assert WindowsFrom(text, size, step, start) == [text[start..end]] + WindowsFrom(text, size, step, start + step);
      chunks := chunks + [text[start..end]];
      start := start + step;
    }
    ChunksShape(text, size, overlap);
  }

  lemma ChunksShape(text: string, size: int, overlap: int)
    requires ValidChunking(size, overlap)
    ensures |Chunks(text, size, overlap)| == CeilDiv(|text|, Step(size, overlap))
    ensures forall j :: 0 <= j < |Chunks(text, size, overlap)| ==>
      j * Step(size, overlap) < |text| && Chunks(text, size, overlap)[j] == text[j * Step(size, overlap) .. Min(j * Step(size, overlap) + size, |text|)]
  {
    WindowsShape(text, size, Step(size, overlap));
  }

  /** No chunk is longer than chunk_size, none is empty, and only one that reaches the end of the text is shorter. */
  lemma ChunkLengths(text: string, size: int, overlap: int, j: nat)
    requires ValidChunking(size, overlap)
    requires j < |Chunks(text, size, overlap)|
    ensures 0 < |Chunks(text, size, overlap)[j]| <= size
    ensures |Chunks(text, size, overlap)[j]| < size ==>
      j * Step(size, overlap) + |Chunks(text, size, overlap)[j]| == |text|
  {
    WindowLengths(text, size, Step(size, overlap), j);
  }

  /** With a non-negative overlap every character of the text lies in some chunk. */
  lemma ChunksCoverText(text: string, size: int, overlap: int, p: nat)
    requires ValidChunking(size, overlap) && 0 <= overlap
    requires p < |text|
    ensures exists j ::
      && 0 <= j < |Chunks(text, size, overlap)|
      && j * Step(size, overlap) <= p < j * Step(size, overlap) + |Chunks(text, size, overlap)[j]|
  {
    var step := Step(size, overlap);
    WindowsCover(text, size, step, p);
    var j :| 0 <= j < |Windows(text, size, step)| && j * step <= p < Min(j * step + size, |text|);
    WindowsShape(text, size, step);
    assert |Chunks(text, size, overlap)[j]| == Min(j * step + size, |text|) - j * step;
  }

  /** Every chunk is a substring of the text it was cut from. */
  lemma ChunksAreInfixes(text: string, size: int, overlap: int)
    requires ValidChunking(size, overlap)
    ensures forall c :: c in Chunks(text, size, overlap) ==> IsInfix(c, text)
  {
    var step := Step(size, overlap);
    WindowsShape(text, size, step);
    forall c | c in Chunks(text, size, overlap)
      ensures IsInfix(c, text)
    {
      var j :| 0 <= j < |Chunks(text, size, overlap)| && Chunks(text, size, overlap)[j] == c;
      assert text[j * step .. Min(j * step + size, |text|)] == c;
    }
  }

  /**
   * A non-empty text no longer than one step is a single chunk: itself. (A text longer
   * than the step but no longer than chunk_size gets a second, trailing chunk that lies
   * inside the first.)
   */
  lemma ShortTextIsOneChunk(text: string, size: int, overlap: int)
    requires ValidChunking(size, overlap)
    requires 0 < |text| <= size && |text| <= size - overlap
    ensures Chunks(text, size, overlap) == [text]
  {
    var step := Step(size, overlap);
    assert WindowsFrom(text, size, step, step) == [];
    assert text[0 .. Min(size, |text|)] == text;
  }
}
