/**
 * The Gemini `generateContent` call of `llm.py`: the request payload it sends and the
 * decision tree that turns the decoded JSON response into the generated text or an error.
 * The HTTP request itself is not modelled; the response is an input.
 */
module Gemini {
  import opened Wrappers

  const DefaultModel: string := "gemini-1.5-flash-latest"
  const UrlPrefix: string := "https://generativelanguage.googleapis.com/v1beta/models/"
  const UrlSuffix: string := ":generateContent"

  /** The endpoint of a model. */
  function ApiUrl(model: string): string
  {
    UrlPrefix + model + UrlSuffix
  }

  /** The model name can be read back from the endpoint, so distinct models hit distinct URLs. */
  lemma ApiUrlRecoversModel(model: string)
    ensures var url := ApiUrl(model);
      && |url| == |UrlPrefix| + |model| + |UrlSuffix|
      && url[..|UrlPrefix|] == UrlPrefix
      && url[|UrlPrefix| .. |UrlPrefix| + |model|] == model
      && url[|UrlPrefix| + |model|..] == UrlSuffix
  {
    var url := ApiUrl(model);
    assert url == UrlPrefix + model + UrlSuffix;
    assert url[|UrlPrefix| .. |UrlPrefix| + |model|] == model;
  }

  lemma ApiUrlInjective(model1: string, model2: string)
    requires ApiUrl(model1) == ApiUrl(model2)
    ensures model1 == model2
  {
    ApiUrlRecoversModel(model1);
    ApiUrlRecoversModel(model2);
  }

  // ---- request ----

  /** `{"role": role, "parts": [{"text": t} for t in parts]}`. */
  datatype Content = Content(role: string, parts: seq<string>)

  /** `{"contents": ..., "system_instruction": {"parts": [...]}}`, the latter key optional. */
  datatype Payload = Payload(contents: seq<Content>, systemInstruction: Option<seq<string>>)

  /** Python truthiness of an optional string: present and non-empty. */
  predicate Truthy(s: Option<string>)
  {
    s.Some? && s.value != ""
  }

  function BuildPayload(prompt: string, systemPrompt: Option<string>): (p: Payload)
    ensures p.contents == [Content("user", [prompt])]
    ensures p.systemInstruction.Some? <==> Truthy(systemPrompt)
    ensures p.systemInstruction.Some? ==> p.systemInstruction.value == [systemPrompt.value]
  {
    var payload := Payload([Content("user", [prompt])], None);
    if Truthy(systemPrompt) then payload.(systemInstruction := Some([systemPrompt.value]))
    else payload
  }

  /** Both prompts can be read back from the payload: the request loses nothing but an empty system prompt. */
  lemma PayloadRoundTrip(prompt: string, systemPrompt: Option<string>)
    ensures var p := BuildPayload(prompt, systemPrompt);
      && |p.contents| == 1 && |p.contents[0].parts| == 1
      && p.contents[0].parts[0] == prompt
      && (if p.systemInstruction.Some? then Some(p.systemInstruction.value[0]) else None)
         == (if Truthy(systemPrompt) then systemPrompt else None)
  {
  }

  // ---- response ----

  /** One part of a candidate's content; `text` absent or null is None. */
  datatype Part = Part(text: Option<string>)

  /** A candidate's `content`, whose `parts` key may be absent. */
  datatype CandidateContent = CandidateContent(parts: Option<seq<Part>>)

  datatype Candidate = Candidate(content: Option<CandidateContent>, finishReason: Option<string>)

  datatype ApiErrorBody = ApiErrorBody(message: Option<string>)

  datatype PromptFeedback = PromptFeedback(blockReason: Option<string>)

  /** The decoded response; each Option says whether its key is present. */
  datatype Response = Response(
    error: Option<ApiErrorBody>,
    candidates: Option<seq<Candidate>>,
    promptFeedback: Option<PromptFeedback>)

  /** The Python exception class each failure is raised as. */
  datatype ErrorKind = ValueError | KeyError

  datatype GeminiError =
    | ApiError(message: string)
    | Blocked(blockReason: string)
    | MissingCandidates
    | MissingContent(finishReason: string)
    | MissingText

  function Kind(e: GeminiError): ErrorKind
  {
    match e
    case ApiError(_) => ValueError
    case Blocked(_) => ValueError
    case MissingCandidates => KeyError
    case MissingContent(_) => ValueError
    case MissingText => KeyError
  }

  predicate HasCandidates(r: Response)
  {
    r.candidates.Some? && |r.candidates.value| > 0
  }

  predicate IsBlocked(r: Response)
  {
    r.promptFeedback.Some? && r.promptFeedback.value.blockReason.Some?
  }

  /** The first candidate carries a content with a non-empty `parts` list. */
  predicate HasParts(c: Candidate)
  {
    c.content.Some? && c.content.value.parts.Some? && |c.content.value.parts.value| > 0
  }

  /** The response decision tree of `call_gemini`, each check in the order the code makes it. */
  function ClassifyResponse(r: Response): (out: Result<string, GeminiError>)
    ensures r.error.Some? ==>
      out == Failure(ApiError(if r.error.value.message.Some? then r.error.value.message.value else "Unknown error"))
    ensures r.error.None? && !HasCandidates(r) ==>
      out == (if IsBlocked(r) then Failure(Blocked(r.promptFeedback.value.blockReason.value)) else Failure(MissingCandidates))
    ensures r.error.None? && HasCandidates(r) && !HasParts(r.candidates.value[0]) ==>
      out.Failure? && out.error.MissingContent?
    ensures out.Success? <==>
      && r.error.None? && HasCandidates(r) && HasParts(r.candidates.value[0])
      && r.candidates.value[0].content.value.parts.value[0].text.Some?
    ensures out.Success? ==> out.value == r.candidates.value[0].content.value.parts.value[0].text.value
  {
    if r.error.Some? then
      Failure(ApiError(if r.error.value.message.Some? then r.error.value.message.value else "Unknown error"))
    else if !HasCandidates(r) then
      if IsBlocked(r) then Failure(Blocked(r.promptFeedback.value.blockReason.value))
      else Failure(MissingCandidates)
    else
      var candidate := r.candidates.value[0];
      if !HasParts(candidate) then
        Failure(MissingContent(if candidate.finishReason.Some? then candidate.finishReason.value else "UNKNOWN"))
      else
        var text := candidate.content.value.parts.value[0].text;
        if text.None? then Failure(MissingText) else Success(text.value)
  }

  /** Which exception class each way of failing raises. */
  lemma FailureKinds(r: Response)
    ensures var out := ClassifyResponse(r);
      out.Failure? ==>
        (Kind(out.error) == KeyError <==>
          r.error.None? && ((!HasCandidates(r) && !IsBlocked(r)) || (HasCandidates(r) && HasParts(r.candidates.value[0]))))
  {
  }

  /** Only the first candidate and its first part matter: later ones never change the outcome. */
  lemma OnlyFirstCandidateMatters(r: Response, extra: seq<Candidate>)
    requires HasCandidates(r)
    ensures ClassifyResponse(r.(candidates := Some(r.candidates.value + extra))) == ClassifyResponse(r)
  {
    var r' := r.(candidates := Some(r.candidates.value + extra));
    assert r'.candidates.value[0] == r.candidates.value[0];
  }
}
