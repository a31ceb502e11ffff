/** The request handler (internal/handler/handler.go): validation, the
    empty-input shortcut, the pair check, chunking, routing and flattening of
    the translated batches. Creating the router is abstracted to its outcome:
    `routerErr` is the error router construction reported, if any. */
module Handler {
  import opened Wrappers
  import opened Chunker
  import opened Router

  /** An inbound request; `texts` is None when the field was absent (nil),
      which is not the same as an empty list. */
  datatype Request = Request(texts: Option<seq<Text>>, sourceLang: string, targetLang: string)

  /** Why a request failed. */
  datatype HandleError =
    | Invalid(message: string)
    | RouterUnavailable(cause: string)
    | NoTranslator(source: string, target: string)
    | TranslationFailed(reason: RouteError)

  /** The reply: the translations and the number of chunks on success, or an error. */
  datatype Response = Response(translations: seq<Text>, chunksProcessed: nat, error: Option<HandleError>)

  /** The first failing check, in order: source language present, target
      language present, the two different, texts present. */
  function ValidateRequest(req: Request): (r: Option<string>)
    ensures r.None? <==>
      req.sourceLang != "" && req.targetLang != "" && req.sourceLang != req.targetLang && req.texts.Some?
    ensures req.sourceLang == "" ==> r == Some("sourceLang is required")
    ensures req.sourceLang != "" && req.targetLang == "" ==> r == Some("targetLang is required")
    ensures req.sourceLang != "" && req.targetLang != "" && req.sourceLang == req.targetLang ==>
      r == Some("sourceLang and targetLang must be different")
    ensures req.sourceLang != "" && req.targetLang != "" && req.sourceLang != req.targetLang && req.texts.None? ==>
      r == Some("texts is required")
  {
    if req.sourceLang == "" then Some("sourceLang is required")
    else if req.targetLang == "" then Some("targetLang is required")
    else if req.sourceLang == req.targetLang then Some("sourceLang and targetLang must be different")
    else if req.texts.None? then Some("texts is required")
    else None
  }

  /** A response carrying only an error. */
  function Failed(error: HandleError): Response
  {
    Response([], 0, Some(error))
  }

  /** What Handle answers. */
  function HandleSpec(respond: Invocation -> Result<seq<Batch>, string>, routerErr: Option<string>, req: Request): Response
  {
    match ValidateRequest(req)
    case Some(message) => Failed(Invalid(message))
    case None =>
      var texts := req.texts.value;
      if |texts| == 0 then Response([], 0, None)
      else if routerErr.Some? then Failed(RouterUnavailable(routerErr.value))
      else if !IsValidPair(req.sourceLang, req.targetLang) then Failed(NoTranslator(req.sourceLang, req.targetLang))
      else
        var chunks := ChunkSpec(texts, DefaultMaxTokens);
        match TranslateSpec(respond, req.sourceLang, req.targetLang, chunks)
        case Failure(e) => Failed(TranslationFailed(e))
        case Success(results) => Response(Flatten(results), |chunks|, None)
  }

  /** The requests Handle sends to the translators. */
  function HandleCalls(respond: Invocation -> Result<seq<Batch>, string>, routerErr: Option<string>, req: Request)
    : seq<Invocation>
  {
    if ValidateRequest(req).Some? || |req.texts.value| == 0 || routerErr.Some?
       || !IsValidPair(req.sourceLang, req.targetLang)
    then []
    else TranslateCalls(respond, req.sourceLang, req.targetLang, ChunkSpec(req.texts.value, DefaultMaxTokens))
  }

  /** Handles one translation request. */
  method Handle(client: LambdaClient, routerErr: Option<string>, req: Request) returns (resp: Response)
    modifies client
    ensures resp == HandleSpec(client.respond, routerErr, req)
    ensures client.log == old(client.log) + HandleCalls(client.respond, routerErr, req)
  {
    var invalid := ValidateRequest(req);
    if invalid.Some? {
      return Failed(Invalid(invalid.value));
    }
    var texts := req.texts.value;
    if |texts| == 0 {
      return Response([], 0, None);
    }
    if routerErr.Some? {
      return Failed(RouterUnavailable(routerErr.value));
    }
    if !IsValidPair(req.sourceLang, req.targetLang) {
      return Failed(NoTranslator(req.sourceLang, req.targetLang));
    }
    var chunks := ChunkByTokens(texts, DefaultMaxTokens);
    assert HandleCalls(client.respond, routerErr, req)
        == TranslateCalls(client.respond, req.sourceLang, req.targetLang, chunks);
    assert HandleSpec(client.respond, routerErr, req) ==
      match TranslateSpec(client.respond, req.sourceLang, req.targetLang, chunks)
      case Failure(e) => Failed(TranslationFailed(e))
      case Success(results) => Response(Flatten(results), |chunks|, None);
    var chunkResults := TranslateChunks(client, req.sourceLang, req.targetLang, chunks);
    if chunkResults.Failure? {
      return Failed(TranslationFailed(chunkResults.error));
    }
    var allTranslations := FlattenResults(chunkResults.value);
    return Response(allTranslations, |chunks|, None);
  }

  /** Concatenates the translated batches in order: the loop that builds the
      translations of a successful response. */
  method FlattenResults(results: seq<Batch>) returns (allTranslations: seq<Text>)
    ensures allTranslations == Flatten(results)
  {
    allTranslations := [];
    for i := 0 to |results|
      invariant allTranslations == Flatten(results[..i])
    {
      assert results[..i + 1] == results[..i] + [results[i]];
      FlattenAppend(results[..i], results[i]);
      allTranslations := allTranslations + results[i];
    }
    assert results[..|results|] == results;
  }

  // ---------------------------------------------------------------------------
  // What handling a request promises

  /** The checks of the handler's tests: a complete request passes, and each
      defect gets its own message, the first one found winning; an empty but
      present text list is valid. */
  lemma ValidateExamples(hello: seq<Text>)
    ensures ValidateRequest(Request(Some(hello), "es", "fr")) == None
    ensures ValidateRequest(Request(Some(hello), "", "fr")) == Some("sourceLang is required")
    ensures ValidateRequest(Request(Some(hello), "es", "")) == Some("targetLang is required")
    ensures ValidateRequest(Request(Some(hello), "es", "es")) == Some("sourceLang and targetLang must be different")
    ensures ValidateRequest(Request(None, "es", "fr")) == Some("texts is required")
    ensures ValidateRequest(Request(Some([]), "es", "fr")) == None
    ensures ValidateRequest(Request(None, "", "")) == Some("sourceLang is required")
  {
  }

  /** An invalid request gets only its validation message, and nothing is sent. */
  lemma HandleRejectsInvalid(respond: Invocation -> Result<seq<Batch>, string>, routerErr: Option<string>, req: Request)
    requires ValidateRequest(req).Some?
    ensures HandleSpec(respond, routerErr, req) == Response([], 0, Some(Invalid(ValidateRequest(req).value)))
    ensures HandleCalls(respond, routerErr, req) == []
  {
  }

  /** A valid request with an empty text list succeeds with no translations
      and no chunks, sending nothing. */
  lemma HandleEmptyTexts(respond: Invocation -> Result<seq<Batch>, string>, routerErr: Option<string>, req: Request)
    requires ValidateRequest(req).None? && req.texts == Some([])
    ensures HandleSpec(respond, routerErr, req) == Response([], 0, None)
    ensures HandleCalls(respond, routerErr, req) == []
  {
  }

  /** A valid request for a pair the router rejects names the pair, and
      nothing is chunked or sent. */
  lemma HandleNoTranslator(respond: Invocation -> Result<seq<Batch>, string>, req: Request)
    requires ValidateRequest(req).None? && req.texts.value != []
    requires !IsValidPair(req.sourceLang, req.targetLang)
    ensures HandleSpec(respond, None, req) == Response([], 0, Some(NoTranslator(req.sourceLang, req.targetLang)))
    ensures HandleCalls(respond, None, req) == []
  {
  }

  /** Requests are sent only for a valid, non-empty request on a valid pair;
      the first carries the texts chunked with DefaultMaxTokens, and at most
      two are sent. */
  lemma HandleSendsChunks(respond: Invocation -> Result<seq<Batch>, string>, routerErr: Option<string>, req: Request)
    requires HandleCalls(respond, routerErr, req) != []
    ensures ValidateRequest(req).None? && req.texts.value != [] && routerErr.None?
    ensures IsValidPair(req.sourceLang, req.targetLang)
    ensures HandleCalls(respond, routerErr, req)[0].chunks == ChunkSpec(req.texts.value, DefaultMaxTokens)
    ensures |HandleCalls(respond, routerErr, req)| <= 2
  {
    var chunks := ChunkSpec(req.texts.value, DefaultMaxTokens);
    RouteComplete(req.sourceLang, req.targetLang);
    ChunkNonEmpty(req.texts.value, DefaultMaxTokens);
    ChunkConcat(req.texts.value, DefaultMaxTokens);
    assert chunks != [];
    TranslateInOrder(respond, req.sourceLang, req.targetLang, chunks);
  }

  /** A response that carries an error carries nothing else, and a
      translation failure is always a failing hop, never an unsupported
      pair. */
  lemma HandleErrorOnly(respond: Invocation -> Result<seq<Batch>, string>, routerErr: Option<string>, req: Request)
    ensures var resp := HandleSpec(respond, routerErr, req);
      && (resp.error.Some? ==> resp.translations == [] && resp.chunksProcessed == 0)
      && (resp.error.Some? && resp.error.value.TranslationFailed? ==> resp.error.value.reason.StepFailed?)
  {
    if ValidateRequest(req).None? && req.texts.value != [] && routerErr.None?
       && IsValidPair(req.sourceLang, req.targetLang) {
      var chunks := ChunkSpec(req.texts.value, DefaultMaxTokens);
      RouteComplete(req.sourceLang, req.targetLang);
      assert TranslateSpec(respond, req.sourceLang, req.targetLang, chunks).Failure? ==>
        TranslateSpec(respond, req.sourceLang, req.targetLang, chunks).error.StepFailed? by {
        if chunks != [] {
          TranslateOutcome(respond, req.sourceLang, req.targetLang, GetRoute(req.sourceLang, req.targetLang).value, chunks);
        }
      }
    }
  }

  /** A response without an error carries the count of the initial chunks,
      whatever the translators return, and the in-order concatenation of the
      last translator's batches. */
  lemma HandleOutcome(respond: Invocation -> Result<seq<Batch>, string>, routerErr: Option<string>, req: Request)
    ensures var resp := HandleSpec(respond, routerErr, req);
      resp.error.None? ==>
        && req.texts.Some?
        && resp.chunksProcessed == |ChunkSpec(req.texts.value, DefaultMaxTokens)| <= |req.texts.value|
        && (req.texts.value != [] ==>
              var calls := HandleCalls(respond, routerErr, req);
              && calls != []
              && respond(calls[|calls| - 1]).Success?
              && resp.translations == Flatten(respond(calls[|calls| - 1]).value))
  {
    if ValidateRequest(req).Some? || routerErr.Some? {
    } else if req.texts.value == [] {
      ChunkEmptyInput(DefaultMaxTokens);
    } else if IsValidPair(req.sourceLang, req.targetLang) {
      var texts := req.texts.value;
      var chunks := ChunkSpec(texts, DefaultMaxTokens);
      RouteComplete(req.sourceLang, req.targetLang);
      ChunkNonEmpty(texts, DefaultMaxTokens);
      ChunkConcat(texts, DefaultMaxTokens);
      assert chunks != [];
      assert HandleCalls(respond, routerErr, req) == TranslateCalls(respond, req.sourceLang, req.targetLang, chunks);
      assert HandleSpec(respond, routerErr, req) ==
        match TranslateSpec(respond, req.sourceLang, req.targetLang, chunks)
        case Failure(e) => Failed(TranslationFailed(e))
        case Success(results) => Response(Flatten(results), |chunks|, None);
      TranslateOutcome(respond, req.sourceLang, req.targetLang, GetRoute(req.sourceLang, req.targetLang).value, chunks);
    } else {
      assert HandleSpec(respond, routerErr, req) == Failed(NoTranslator(req.sourceLang, req.targetLang));
    }
  }

  /** With translators that hand their input back, a request on a valid pair
      is answered with its own texts, in order. */
  lemma HandleEcho(respond: Invocation -> Result<seq<Batch>, string>, req: Request)
    requires Echoes(respond)
    requires ValidateRequest(req).None? && IsValidPair(req.sourceLang, req.targetLang)
    ensures HandleSpec(respond, None, req) ==
      Response(req.texts.value, |ChunkSpec(req.texts.value, DefaultMaxTokens)|, None)
  {
    var texts := req.texts.value;
    if texts != [] {
      var chunks := ChunkSpec(texts, DefaultMaxTokens);
      RouteComplete(req.sourceLang, req.targetLang);
      ChunkNonEmpty(texts, DefaultMaxTokens);
      ChunkConcat(texts, DefaultMaxTokens);
      RunHopsEcho(respond, GetRoute(req.sourceLang, req.targetLang).value, 0, chunks);
    }
  }

  /** With translators that keep the shape of what they are sent, a
      successful response has exactly one translation per text. */
  lemma HandleOnePerText(respond: Invocation -> Result<seq<Batch>, string>, routerErr: Option<string>, req: Request)
    requires KeepsShape(respond)
    requires HandleSpec(respond, routerErr, req).error.None?
    ensures |HandleSpec(respond, routerErr, req).translations| == |req.texts.value|
  {
    var texts := req.texts.value;
    if texts != [] {
      var chunks := ChunkSpec(texts, DefaultMaxTokens);
      RouteComplete(req.sourceLang, req.targetLang);
      ChunkConcat(texts, DefaultMaxTokens);
      RunHopsShape(respond, GetRoute(req.sourceLang, req.targetLang).value, 0, chunks);
      var results := TranslateSpec(respond, req.sourceLang, req.targetLang, chunks).value;
      FlattenSameShape(results, chunks);
    }
  }
}
