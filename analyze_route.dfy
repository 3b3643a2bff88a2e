/** The `POST /api/analyze` handler: early exits for a missing file, a
    missing query and oversized content, then the analysis, and the mapping of
    any thrown error to a status by substrings of its message.

    The file system and the analysis are parameters: `readFile` joins the
    upload's path under the backend directory and reads it, and its `Err`
    covers a throw from either step (the join throws when the upload has no
    path); `analyzeDocument` is the service call and `unlink` deletes the
    upload. */
module AnalyzeRoute {
  import opened Prelude
  import opened Text
  import AiService

  const NoFileMessage := "No file uploaded"
  const NoQueryMessage := "No query provided"
  const TooLargeMessage := "File size exceeds the maximum limit of 10MB. Please upload a smaller file."
  const TooComplexMessage := "The document is too large or complex to process. Please try a smaller document, a more specific query, or break your document into smaller parts."
  const BusyMessage := "We're experiencing high demand. Please try again in a few minutes."
  const UnexpectedMessage := "An unexpected error occurred during analysis. Please try again later or contact support if the problem persists."

  /** Content is refused when its length in mebibytes exceeds 10, that is,
      when it is longer than this many characters. */
  const MaxContentLength := 10 * 1024 * 1024

  /** A message that points at the model's context window. */
  predicate TooComplex(message: string)
  {
    Contains(message, "context length") || Contains(message, "tokens")
  }

  predicate RateLimited(message: string)
  {
    Contains(message, "rate limit")
  }

  /** The `catch` block: the response for an error with message `message`.
      Every error gets exactly one of 413, 429 and 500; the context-length
      test takes precedence over the rate-limit test, and each status comes
      with its fixed message. */
  function ErrorResponse(message: string): (r: Response)
    ensures r.status == 413 <==> TooComplex(message)
    ensures r.status == 429 <==> !TooComplex(message) && RateLimited(message)
    ensures r.status == 500 <==> !TooComplex(message) && !RateLimited(message)
    ensures r.status == 413 ==> r.body == ErrorBody(TooComplexMessage)
    ensures r.status == 429 ==> r.body == ErrorBody(BusyMessage)
    ensures r.status == 500 ==> r.body == ErrorBody(UnexpectedMessage)
  {
    if TooComplex(message) then Response(413, ErrorBody(TooComplexMessage))
    else if RateLimited(message) then Response(429, ErrorBody(BusyMessage))
    else Response(500, ErrorBody(UnexpectedMessage))
  }

  /** The handler, for an upload stored at `file` (absent when no file was
      uploaded) and the `query` field of the body (absent when not sent). */
  function Handle(file: Option<string>, query: Option<string>, readFile: string -> Result<string>,
                  analyzeDocument: (string, string) -> Result<string>, unlink: string -> Result<()>): (r: Response)
    ensures r.status in {200, 400, 413, 429, 500}
    ensures r.status == 200 <==>
      && file.Some? && query.Some? && query.value != ""
      && readFile(file.value).Ok? && |readFile(file.value).value| <= MaxContentLength
      && analyzeDocument(readFile(file.value).value, query.value).Ok?
      && unlink(file.value).Ok?
    ensures r.status == 200 ==> r.body == ResultBody(analyzeDocument(readFile(file.value).value, query.value).value)
  {
    if file.None? then
      Response(400, ErrorBody(NoFileMessage))
    else if query.None? || query.value == "" then
      Response(400, ErrorBody(NoQueryMessage))
    else
      match readFile(file.value)
      case Err(m) => ErrorResponse(m)
      case Ok(content) =>
        if |content| > MaxContentLength then
          Response(413, ErrorBody(TooLargeMessage))
        else
          match analyzeDocument(content, query.value)
          case Err(m) => ErrorResponse(m)
          case Ok(result) =>
            match unlink(file.value)
            case Err(m) => ErrorResponse(m)
            case Ok(_) => Response(200, ResultBody(result))
  }

  /** The file is checked first: without one the answer is 400 whatever the
      query and nothing else is consulted. */
  lemma MissingFile(query: Option<string>, readFile: string -> Result<string>,
                    analyzeDocument: (string, string) -> Result<string>, unlink: string -> Result<()>)
    ensures Handle(None, query, readFile, analyzeDocument, unlink) == Response(400, ErrorBody(NoFileMessage))
  {
  }

  /** With a file but a missing or empty query the answer is 400, before the
      file is read. */
  lemma MissingQuery(file: string, query: Option<string>, readFile: string -> Result<string>,
                     analyzeDocument: (string, string) -> Result<string>, unlink: string -> Result<()>)
    requires query.None? || query == Some("")
    ensures Handle(Some(file), query, readFile, analyzeDocument, unlink) == Response(400, ErrorBody(NoQueryMessage))
  {
  }

  /** Oversized content is refused with 413 and the analysis is never run:
      the response is the same whatever `analyzeDocument` and `unlink` do. */
  lemma OversizedNeverAnalysed(file: string, query: string, readFile: string -> Result<string>,
                               a1: (string, string) -> Result<string>, a2: (string, string) -> Result<string>,
                               u1: string -> Result<()>, u2: string -> Result<()>)
    requires query != "" && readFile(file).Ok? && |readFile(file).value| > MaxContentLength
    ensures Handle(Some(file), Some(query), readFile, a1, u1) == Handle(Some(file), Some(query), readFile, a2, u2)
    ensures Handle(Some(file), Some(query), readFile, a1, u1) == Response(413, ErrorBody(TooLargeMessage))
  {
  }

  /** An error thrown by `analyzeDocument` is classified exactly like the
      error it wraps: the prefix added by the service holds none of the
      searched substrings, not even across its end. */
  lemma {:induction false} WrappedErrorKeepsStatus(m: string)
    ensures ErrorResponse(AiService.FailurePrefix + m) == ErrorResponse(m)
  {
    PrefixHidesContextLength(m);
    PrefixHidesTokens(m);
    PrefixHidesRateLimit(m);
  }

  /** A failed analysis reaches the client with the status of the underlying
      error. */
  lemma AnalysisFailureStatus(file: string, query: string, readFile: string -> Result<string>,
                              analyzeDocument: (string, string) -> Result<string>, unlink: string -> Result<()>, m: string)
    requires query != "" && readFile(file).Ok? && |readFile(file).value| <= MaxContentLength
    requires analyzeDocument(readFile(file).value, query) == Err(AiService.FailurePrefix + m)
    ensures Handle(Some(file), Some(query), readFile, analyzeDocument, unlink) == ErrorResponse(m)
  {
    WrappedErrorKeepsStatus(m);
  }

  lemma {:induction false} PrefixHidesTokens(m: string)
    ensures Contains(AiService.FailurePrefix + m, "tokens") <==> Contains(m, "tokens")
  {
    var t := "t" + ("o analyze documen" + ("t" + (": " + m)));
    assert AiService.FailurePrefix + m == "Failed " + t;
    ContainsSkip("Failed ", t, "tokens");
    TokensAfterTo(m);
  }

  /** "to analyze document: " hides "tokens". */
  lemma {:induction false} TokensAfterTo(m: string)
    ensures Contains("t" + ("o analyze documen" + ("t" + (": " + m))), "tokens") <==> Contains(m, "tokens")
  {
    var t2 := "t" + (": " + m);
    var t3 := "o analyze documen" + t2;
    assert ("t" + t3)[2] == ' ';
    ContainsStep('t', t3, "tokens");
    ContainsSkip("o analyze documen", t2, "tokens");
    TokensAfterT(m);
  }

  /** "t: " hides "tokens". */
  lemma {:induction false} TokensAfterT(m: string)
    ensures Contains("t" + (": " + m), "tokens") <==> Contains(m, "tokens")
  {
    assert ("t" + (": " + m))[1] == ':';
    ContainsStep('t', ": " + m, "tokens");
    ContainsSkip(": ", m, "tokens");
  }

  lemma {:induction false} PrefixHidesContextLength(m: string)
    ensures Contains(AiService.FailurePrefix + m, "context length") <==> Contains(m, "context length")
  {
    var p := "context length";
    var t1 := "ument: " + m;
    var t2 := "c" + t1;
    assert AiService.FailurePrefix + m == "Failed to analyze do" + t2;
    ContainsSkip("ument: ", m, p);
    assert t2[1] == 'u';
    ContainsStep('c', t1, p);
    ContainsSkip("Failed to analyze do", t2, p);
  }

  lemma {:induction false} PrefixHidesRateLimit(m: string)
    ensures Contains(AiService.FailurePrefix + m, "rate limit") <==> Contains(m, "rate limit")
  {
    ContainsSkip(AiService.FailurePrefix, m, "rate limit");
  }
}
