/**
 * The pure decisions of the HTTP service (`app/main.py`): normalising a LangChain run id
 * to its UUID, choosing the score and comment of a feedback submission, and building the
 * context and the prompt of a query.
 */
module ChatApi {
  import opened Wrappers
  import opened Strings
  import opened Records
  import opened Retrieval

  // ---- run ids ----

  const UuidLength: nat := 36

  /** `[0-9a-f]` matched with `re.IGNORECASE`. */
  predicate IsHexDigit(c: char)
  {
    '0' <= c <= '9' || 'a' <= c <= 'f' || 'A' <= c <= 'F'
  }

  /** The offsets of the hyphens in the 8-4-4-4-12 layout. */
  predicate IsHyphenSlot(k: int)
  {
    k == 8 || k == 13 || k == 18 || k == 23
  }

  /** The UUID pattern matches s at offset i. */
  predicate UuidAt(s: string, i: nat)
  {
    && i + UuidLength <= |s|
    && forall k :: 0 <= k < UuidLength ==>
         if IsHyphenSlot(k) then s[i + k] == '-' else IsHexDigit(s[i + k])
  }

  /** i is where `re.search` finds the pattern: a match, with none further left. */
  predicate LeftmostUuid(s: string, i: nat)
  {
    UuidAt(s, i) && forall j: nat :: j < i ==> !UuidAt(s, j)
  }

  /** The scan of `re.search` from offset `from`: the first offset where the pattern matches. */
  function FindUuid(s: string, from: nat): (r: Option<nat>)
    ensures r.Some? ==> from <= r.value && UuidAt(s, r.value)
    ensures r.Some? ==> forall j: nat :: from <= j < r.value ==> !UuidAt(s, j)
    ensures r.None? ==> forall j: nat :: from <= j ==> !UuidAt(s, j)
    decreases |s| - from
  {
    if from + UuidLength > |s| then None
    else if UuidAt(s, from) then Some(from)
    else FindUuid(s, from + 1)
  }

  /**
   * `extract_uuid_from_run_id`: the leftmost 8-4-4-4-12 hex substring, in either case;
   * the run id itself when it is empty or holds no such substring.
   */
  function ExtractUuid(runId: string): (r: string)
    ensures runId == "" ==> r == ""
    ensures forall i: nat :: LeftmostUuid(runId, i) ==> r == runId[i .. i + UuidLength]
    ensures (forall i: nat :: !UuidAt(runId, i)) ==> r == runId
  {
    if runId == "" then runId
    else
      match FindUuid(runId, 0)
      case Some(i) => runId[i .. i + UuidLength]
      case None => runId
  }

  /** The result is always a substring of the run id, and a UUID whenever the run id contains one. */
  lemma ExtractUuidShape(runId: string)
    ensures IsInfix(ExtractUuid(runId), runId)
    ensures (exists i: nat :: UuidAt(runId, i)) ==> |ExtractUuid(runId)| == UuidLength && UuidAt(ExtractUuid(runId), 0)
  {
    var r := ExtractUuid(runId);
    if runId == "" {
      assert runId[0..0] == r;
    } else {
      match FindUuid(runId, 0)
      case Some(i) => {
        assert runId[i .. i + UuidLength] == r;
        forall k | 0 <= k < UuidLength
          ensures if IsHyphenSlot(k) then r[k] == '-' else IsHexDigit(r[k])
        {
          assert r[k] == runId[i + k];
        }
      }
      case None => {
        assert runId[0..|runId|] == r;
      }
    }
  }

  /** Normalising twice is normalising once: a clean UUID maps to itself. */
  lemma ExtractUuidIdempotent(runId: string)
    ensures ExtractUuid(ExtractUuid(runId)) == ExtractUuid(runId)
  {
    var r := ExtractUuid(runId);
    ExtractUuidShape(runId);
    if exists i: nat :: UuidAt(runId, i) {
      CleanUuidIsFixed(r);
    } else {
      assert r == runId;
    }
  }

  /** A string that is exactly one UUID is returned unchanged. */
  lemma CleanUuidIsFixed(uuid: string)
    requires |uuid| == UuidLength && UuidAt(uuid, 0)
    ensures ExtractUuid(uuid) == uuid
  {
    assert LeftmostUuid(uuid, 0);
  }

  /** The example of the docstring: "run--<uuid>-0" gives <uuid>. */
  lemma DocumentedExample()
    ensures ExtractUuid("run--9f67587f-11c2-4a3f-aef1-1b57a8d5a31d-0") == "9f67587f-11c2-4a3f-aef1-1b57a8d5a31d"
  {
    var s := "run--9f67587f-11c2-4a3f-aef1-1b57a8d5a31d-0";
    var uuid := "9f67587f-11c2-4a3f-aef1-1b57a8d5a31d";
    forall k | 0 <= k < UuidLength
      ensures s[5 + k] == uuid[k]
    {
    }
    assert s[5 .. 5 + UuidLength] == uuid;
    ExampleUuidMatches();
    UuidAtSlice(s, 5);
    forall j: nat | j < 5
      ensures !UuidAt(s, j)
    {
      NoUuidAtNonHex(s, j);
    }
    assert LeftmostUuid(s, 5);
  }

  /** The pattern opens with a hex digit, so it cannot match where none stands. */
  lemma NoUuidAtNonHex(s: string, i: nat)
    requires i < |s| && !IsHexDigit(s[i])
    ensures !UuidAt(s, i)
  {
    assert !IsHyphenSlot(0) && s[i + 0] == s[i];
  }

  lemma ExampleUuidMatches()
    ensures UuidAt("9f67587f-11c2-4a3f-aef1-1b57a8d5a31d", 0)
  {
    var uuid := "9f67587f-11c2-4a3f-aef1-1b57a8d5a31d";
    forall k | 0 <= k < UuidLength
      ensures if IsHyphenSlot(k) then uuid[k] == '-' else IsHexDigit(uuid[k])
    {
    }
  }

  /** The pattern matches at i exactly when it matches the 36 characters from i on their own. */
  lemma UuidAtSlice(s: string, i: nat)
    requires i + UuidLength <= |s|
    ensures UuidAt(s, i) <==> UuidAt(s[i .. i + UuidLength], 0)
  {
    var w := s[i .. i + UuidLength];
    assert forall k :: 0 <= k < UuidLength ==> w[k] == s[i + k];
  }

  // ---- feedback ----

  const ThumbsUp: string := "thumbs_up"
  const CorrectionSuggestion: string := "correction_suggestion"

  /** The fields of a feedback request that decide what is sent to LangSmith. */
  datatype FeedbackItem = FeedbackItem(
    feedbackType: string,
    thumbsUpReason: Option<string>,
    thumbsDownReason: Option<string>,
    correctedQuestion: Option<string>,
    correctAnswer: Option<string>,
    runId: Option<string>)

  /** A value as an f-string renders it: None becomes "None". */
  function Rendered(value: Option<string>): string
  {
    if value.Some? then value.value else "None"
  }

  /** `comment or "No comment"`. */
  function OrNoComment(comment: Option<string>): string
  {
    if comment.Some? && comment.value != "" then comment.value else "No comment"
  }

  /** The score: 1.0 for a thumbs-up, 0.0 for everything else, a correction included. */
  function FeedbackScore(feedbackType: string): (score: real)
    ensures score == 1.0 <==> feedbackType == ThumbsUp
    ensures score == 0.0 <==> feedbackType != ThumbsUp
  {
    var score := if feedbackType == ThumbsUp then 1.0 else 0.0;
    if feedbackType == CorrectionSuggestion then 0.0 else score
  }

  /** The comment: the reason matching the feedback type, or the correction text; never empty. */
  function FeedbackComment(item: FeedbackItem): (comment: string)
    ensures comment != ""
    ensures item.feedbackType == CorrectionSuggestion ==>
      comment == "Correction: Q: " + Rendered(item.correctedQuestion) + ", A: " + Rendered(item.correctAnswer)
    ensures item.feedbackType == ThumbsUp ==> comment == OrNoComment(item.thumbsUpReason)
    ensures item.feedbackType != ThumbsUp && item.feedbackType != CorrectionSuggestion ==>
      comment == OrNoComment(item.thumbsDownReason)
  {
    var chosen := if item.feedbackType == ThumbsUp then item.thumbsUpReason else item.thumbsDownReason;
    var chosen' :=
      if item.feedbackType == CorrectionSuggestion
      then Some("Correction: Q: " + Rendered(item.correctedQuestion) + ", A: " + Rendered(item.correctAnswer))
      else chosen;
    OrNoComment(chosen')
  }

  /** The arguments of `create_feedback`. */
  datatype Submission = Submission(runId: string, key: string, score: real, comment: string)

  /**
   * What `store_feedback` sends to LangSmith: nothing unless the item has a non-empty run
   * id and a client is configured; otherwise the normalised run id with the score and comment.
   */
  function LangSmithFeedback(item: FeedbackItem, clientConfigured: bool): (s: Option<Submission>)
    ensures s.Some? <==> clientConfigured && item.runId.Some? && item.runId.value != ""
    ensures s.Some? ==>
      && s.value.runId == ExtractUuid(item.runId.value) && IsInfix(s.value.runId, item.runId.value)
      && s.value.key == "user_rating"
      && s.value.score == FeedbackScore(item.feedbackType)
      && s.value.comment == FeedbackComment(item)
  {
    if item.runId.Some? && item.runId.value != "" && clientConfigured then
      ExtractUuidShape(item.runId.value);
      Some(Submission(ExtractUuid(item.runId.value), "user_rating", FeedbackScore(item.feedbackType), FeedbackComment(item)))
    else None
  }

  // ---- context and prompt ----

  /** `doc.get("content", "")`. */
  function DocContent(doc: Record): string
  {
    if ContentKey in doc then doc[ContentKey] else ""
  }

  function DocContents(docs: seq<Record>): (contents: seq<string>)
    ensures |contents| == |docs|
    ensures forall j :: 0 <= j < |docs| ==> contents[j] == DocContent(docs[j])
  {
    seq(|docs|, j requires 0 <= j < |docs| => DocContent(docs[j]))
  }

  /** The context: the documents' contents joined by newlines. */
  function Context(docs: seq<Record>): string
  {
    Join("\n", DocContents(docs))
  }

  const QuestionLabel: string := "Question: "
  const ContextLabel: string := "\n\nContext:\n"
  const AnswerLabel: string := "\n\nAnswer:"

  /** `f"Question: {query}\n\nContext:\n{context}\n\nAnswer:"`. */
  function Prompt(query: string, context: string): string
  {
    QuestionLabel + query + ContextLabel + context + AnswerLabel
  }

  /** The prompt lays out the question and the context at fixed places, so both can be read back. */
  lemma PromptLayout(query: string, context: string)
    ensures var p := Prompt(query, context);
      var q, c := |QuestionLabel|, |QuestionLabel| + |query| + |ContextLabel|;
      && |p| == |QuestionLabel| + |query| + |ContextLabel| + |context| + |AnswerLabel|
      && p[..q] == QuestionLabel
      && p[q .. q + |query|] == query
      && p[q + |query| .. c] == ContextLabel
      && p[c .. c + |context|] == context
      && p[c + |context|..] == AnswerLabel
  {
    var p := Prompt(query, context);
    var q, c := |QuestionLabel|, |QuestionLabel| + |query| + |ContextLabel|;
    assert p == QuestionLabel + query + ContextLabel + context + AnswerLabel;
    assert p[q .. q + |query|] == query;
    assert p[c .. c + |context|] == context;
  }

  /**
   * Retrieved documents all carry "content", so the default never applies: document j's
   * content stands in the context at its join offset.
   */
  lemma ContextOfRetrieved(metadata: seq<Record>, positions: seq<int>, j: nat)
    requires j < |KeptRecords(metadata, positions)|
    ensures var docs := KeptRecords(metadata, positions);
      var at := PartOffset("\n", DocContents(docs), j);
      && ContentKey in docs[j]
      && at + |docs[j][ContentKey]| <= |Context(docs)|
      && Context(docs)[at .. at + |docs[j][ContentKey]|] == docs[j][ContentKey]
  {
    var docs := KeptRecords(metadata, positions);
    KeptRecordsHaveContent(metadata, positions);
    assert docs[j] in docs;
    JoinPartAt("\n", DocContents(docs), j);
  }
}
