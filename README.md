# Translation manager: routing and chunking engine

A Dafny model of the routing-and-chunking core of the translation manager, a
Go service that takes a batch of texts with a source and a target language,
cuts the texts into chunks under a token budget, sends the chunks through one
or two translator Lambdas (pivoting through English when neither end is
English), and flattens the last translator's batches into one ordered list.

- `wrappers.dfy` (module `Wrappers`): `Option` and `Result`.
- `chunker.dfy` (module `Chunker`, for `internal/chunker/chunker.go`): texts are
  byte sequences, because Go's `len` on a string counts bytes. `EstimateTokens`
  is a function. `ChunkByTokens` is a method with the source's loop, proved
  equal to `ChunkSpec`, a fold of one loop step over the texts. Lemmas about
  `ChunkSpec` state what every chunking promises. `ChunkUnique` shows that
  these promises pin the result down: no other list of chunks meets them.
- `router.dfy` (module `Router`, for `internal/router/router.go`): the
  language sets, `IsValidPair`, `GetRoute`, and the translator Lambdas as a
  `LambdaClient`. The client has a fixed answer function `respond`, which
  gives the batches or an error for each request, and a `log` of the requests
  sent. `TranslateChunks` and `Translate` are methods with the source's loop
  and early returns. Their results and the requests they send are tied to the
  functions `TranslateSpec`/`TranslateCalls` (through `RunHops`/`HopCalls`).
- `handler.dfy` (module `Handler`, for `internal/handler/handler.go`):
  `Request`, `Response`, `ValidateRequest`, and `Handle` as a method with the
  source's early returns and flattening loop, tied to `HandleSpec` and
  `HandleCalls`. Router construction is reduced to its outcome, a parameter
  `routerErr` that holds the error `router.New` reported, if any.

Notes on the source:
- `Handle` calls `r.HasDirectPair` (internal/handler/handler.go:47), which
  `router.go` does not define. The model uses `IsValidPair`
  (internal/router/router.go:105-107) for that check.
- `EstimateTokens` floors the byte length divided by 4 and returns 0 for an
  empty text. It does not round up. The test comment at
  internal/chunker/chunker_test.go:32 speaks of 75/4 rounded up to 19. But the
  text is 76 bytes long (three accented letters take two bytes each), and
  76/4 = 19 exactly. `EstimateTokensExamples` checks the value on the bytes.
- `getRoute` does not compare the two languages. A romance language paired
  with itself gets a two-hop route, while English or German paired with itself
  gets none. `IsValidPair` rejects all three pairs, so `Handle` never reaches
  the router for them.
- `internal/router/router_test.go` tests another router API (`HasDirectPair`,
  `GetFunctionName`, with English unsupported) that `router.go` does not have.
  Only its `TestTranslate_EmptyInput` matches this router, and it is modelled.

## Model

| member | source | states |
|---|---|---|
| `Chunker.EstimateTokens` | internal/chunker/chunker.go:10-20 | 0 exactly for the empty text, 1 for 1 to 3 bytes, otherwise the n with 4n <= byte length < 4n+4 (byte length divided by 4, rounded down) |
| `Chunker.EffectiveMax` | internal/chunker/chunker.go:30-32 | the budget used is positive; a requested budget <= 0 becomes DefaultMaxTokens = 3000, a positive one is kept |
| `Chunker.ChunkByTokens` | internal/chunker/chunker.go:25-72 | the loop (flush before an oversized text, oversized text alone, flush when the budget would be exceeded, final flush) returns exactly ChunkSpec, the step-by-step fold |
| `Chunker.ChunkEmptyInput` | internal/chunker/chunker.go:26-28 | no texts give zero chunks, not one empty chunk |
| `Chunker.ChunkDefaultBudget` | internal/chunker/chunker.go:30-32 | any maxTokens <= 0 chunks exactly as DefaultMaxTokens does |
| `Chunker.ChunkConcat` | internal/chunker/chunker.go:38-69 | concatenating the chunks gives back the input: nothing lost, repeated, reordered or split |
| `Chunker.ChunkNonEmpty` | internal/chunker/chunker.go:42-69 | every chunk is non-empty, so there are at most as many chunks as texts |
| `Chunker.ChunkWithinBudget` | internal/chunker/chunker.go:42-63 | every chunk's token total is within the effective budget, or the chunk is one text over budget on its own |
| `Chunker.ChunkOversizedAlone` | internal/chunker/chunker.go:42-51 | a text whose estimate exceeds the budget is the only text of its chunk |
| `Chunker.ChunkGreedy` | internal/chunker/chunker.go:55-59 | a chunk is closed only when the next text would take it over budget: its total plus the next chunk's first estimate exceeds the budget |
| `Chunker.ChunkUnique` | internal/chunker/chunker.go:22-72 | a list of chunks laying out the texts in order, each fitting and closed greedily, is exactly ChunkByTokens' result (both directions) |
| `Chunker.EstimateTokensExamples` | internal/chunker/chunker_test.go:14-33 | "" costs 0, "Hi" costs 1, the 28-byte title 7, the 76-byte description 19 |
| `Chunker.ChunkExampleOneChunk` | internal/chunker/chunker_test.go:71-76 | three short texts under budget 100 form one chunk |
| `Chunker.ChunkExampleThreeTexts` | internal/chunker/chunker_test.go:77-86 | three 10-token texts under budget 15 give 3 chunks |
| `Chunker.ChunkExampleExactFit` | internal/chunker/chunker_test.go:87-95 | two 10-token texts under budget 10 give 2 chunks |
| `Chunker.ChunkExampleOversized` | internal/chunker/chunker_test.go:96-105 | a 50-token text under budget 20 sits alone between the two small texts it separates |
| `Chunker.ChunkExampleDefaultBudget` | internal/chunker/chunker_test.go:151-158 | with maxTokens 0 a short text gives one chunk |
| `Router.InitSupported` | internal/router/router.go:60-66 | the initialiser's loop yields exactly the romance languages plus de and en |
| `Router.HubsNotRomance` | internal/router/router.go:18-53 | en, de and the empty code are not in the romance set |
| `Router.LambdaNamesDistinct` | internal/router/router.go:132-160 | the four translator function names are pairwise distinct, so the name in a step error identifies the failing hop |
| `Router.GetRoute` | internal/router/router.go:121-199 | no route has fewer than 1 or more than 2 hops |
| `Router.IsValidPair` | internal/router/router.go:105-107 | a pair is valid iff both codes are in romance ∪ {de, en} and differ, which is exactly when they differ and getRoute finds a route |
| `Router.RouteUndefined` | internal/router/router.go:121-199 | there is no route iff a code is unsupported, or en/de is paired with itself; a romance code paired with itself is routed |
| `Router.RouteShape` | internal/router/router.go:121-199 | a route has 1 hop iff English is an end, else 2; the first translator reads the source, the last writes the target, two hops meet in English; only en-romance hops carry a target, and it is the requested one |
| `Router.RouteComplete` | internal/router/router.go:105-199 | every valid pair has a route of 1 or 2 hops |
| `Router.RouteIntoEnglish` | internal/router/router.go:125-143 | romance to en is the single hop romance-en, de to en the single hop de-en, both without target |
| `Router.RouteOutOfEnglish` | internal/router/router.go:145-163 | en to romance is the single hop en-romance with the target; en to de is en-de without target |
| `Router.RouteViaEnglish` | internal/router/router.go:165-196 | romance/de to romance/de (not de to de) is the hop into English followed by the hop out of it |
| `Router.LambdaClient.Invoke` | internal/router/router.go:227-263 | one request is logged and answered with the translator's batches or error |
| `Router.TranslateChunks` | internal/router/router.go:203-224 | the loop's result and the requests it sends are TranslateSpec and TranslateCalls |
| `Router.HopTrace` | internal/router/router.go:214-223 | hops run in route order, each on the previous output; the first failure stops the run with a step error carrying that hop's 1-based number and Lambda function name; otherwise the result is the last output |
| `Router.TranslateNoChunks` | internal/router/router.go:204-206 | no chunks: empty success and no request, before the route is looked up |
| `Router.TranslateUnsupported` | internal/router/router.go:208-211 | chunks but no route: unsupported-pair error and no request |
| `Router.TranslateInOrder` | internal/router/router.go:213-220 | with chunks and a route: 1 to 2 requests following the route, the first carrying the chunks and each later one its predecessor's answer |
| `Router.TranslateOutcome` | internal/router/router.go:213-223 | with chunks and a route: success iff every hop ran and the last answered, with that answer as result; a failure is the step error (1-based number, Lambda name, cause) of the last request |
| `Router.Translate` | internal/router/router.go:266-281 | the method's result and requests are TranslateTextsSpec and TranslateTextsCalls |
| `Router.TranslateEmptyInput` | internal/router/router.go:267-269 | no texts: empty result, no request |
| `Router.TranslateOneChunk` | internal/router/router.go:271-280 | texts are sent as one chunk to the first hop; the result is the first batch of the last answer, or empty if it has none; failures come from a hop |
| `Router.RunHopsShape` | internal/router/router.go:214-223 | translators that keep the shape of their input make the whole route keep it |
| `Handler.ValidateRequest` | internal/handler/handler.go:76-90 | no error iff both languages are present and differ and texts are present; otherwise the message of the first failing check, in the order source language, target language, equal languages, texts |
| `Handler.ValidateExamples` | internal/handler/handler_test.go:14-71 | the test requests get their exact messages, the first failing check wins, and an empty but present text list is valid |
| `Handler.Handle` | internal/handler/handler.go:29-73 | the method's response and requests are HandleSpec and HandleCalls |
| `Handler.FlattenResults` | internal/handler/handler.go:63-67 | the loop over the translated batches yields their in-order concatenation, Flatten(results), which ChunkConcat and HandleEcho relate back to the texts |
| `Handler.HandleRejectsInvalid` | internal/handler/handler.go:31-33 | an invalid request gets only its validation message, and nothing is sent |
| `Handler.HandleEmptyTexts` | internal/handler/handler.go:36-38 | a valid request with an empty text list gets no translations and 0 chunks, and nothing is sent |
| `Handler.HandleNoTranslator` | internal/handler/handler.go:47-51 | a pair the pair check rejects gets a no-translator error naming it, and nothing is sent |
| `Handler.HandleSendsChunks` | internal/handler/handler.go:53-58 | requests go out only for a valid non-empty request on a valid pair; the first carries the texts chunked with DefaultMaxTokens; at most two go out |
| `Handler.HandleErrorOnly` | internal/handler/handler.go:29-61 | every error response carries an error and nothing else (no translations, ChunksProcessed 0), and a translation failure is always a failed hop of the route |
| `Handler.HandleOutcome` | internal/handler/handler.go:53-72 | a response without error comes from a request with texts; its ChunksProcessed is the number of initial chunks (at most the texts) and, for non-empty texts, its translations are the in-order concatenation of the batches the last translator answered with |
| `Handler.HandleEcho` | internal/handler/handler.go:53-72 | with translators that hand their input back, a valid request gets its own texts back in order |
| `Handler.HandleOnePerText` | internal/handler/handler.go:63-67 | with translators that keep batch shape, a successful response has one translation per text |

## Left out

- Router construction (`router.New`, internal/router/router.go:87-102): AWS configuration loading and the `ENVIRONMENT` lookup are I/O. `Handle` gets only the outcome, as `routerErr`.
- `invokeLambda` (internal/router/router.go:227-263): JSON encoding, the AWS `Invoke` call and its decoding are remote I/O. They are the answer function of `LambdaClient`. Transport errors, Lambda function errors and translator errors are one error string.
- Router.LambdaClient.Invoke: states only what the client logs and returns, because the translator's behaviour is an unknown parameter.
- `GetSupportedLanguages` (internal/router/router.go:110-116): its order comes from Go map iteration, which is not deterministic. The model keeps the supported languages as a set.
- Error texts other than the validation messages: the unsupported-pair, step-failure, router-creation, no-translator and translation-failed errors are tagged values. They carry the pair, the 1-based step number, the Lambda function name or the cause, but not the formatted Go string.
- JSON shape of `Response` (`omitempty`) and the `context.Context` argument: encoding and cancellation are not part of the logic.
- Go's 64-bit `int`: byte lengths and token totals are unbounded integers. A sum of estimates cannot overflow for inputs that fit in memory.
- `cmd/lambda/warmup.go` (concurrent keep-warm fan-out), `cmd/lambda/main.go` (Lambda bootstrap) and `internal/domain/models.go` (declarations only) are not part of this model.
- The five-language direct-pair router that `internal/router/router_test.go` targets is not part of this model: `router.go` does not have it.
