/** Language-pair validation, route resolution and hop sequencing
    (internal/router/router.go). The remote translator Lambdas are an
    abstract client whose answers are a fixed function of the request. */
module Router {
  import opened Wrappers
  import opened Chunker

  // ---------------------------------------------------------------------------
  // The language sets

  /** Spanish and its regional variants. */
  const Spanish: set<string> := {
    "es", "es_AR", "es_CL", "es_CO", "es_CR", "es_DO", "es_EC", "es_ES", "es_GT", "es_HN",
    "es_MX", "es_NI", "es_PA", "es_PE", "es_PR", "es_SV", "es_UY", "es_VE"
  }

  /** French, its variants, Walloon, Franco-Provencal and Occitan. */
  const French: set<string> := {"fr", "fr_BE", "fr_CA", "fr_FR", "wa", "frp", "oc"}

  /** Italian, Corsican, Neapolitan, Sicilian and Venetian. */
  const Italian: set<string> := {"it", "co", "nap", "scn", "vec"}

  /** Portuguese, its variants, Galician and Mirandese. */
  const Portuguese: set<string> := {"pt", "pt_BR", "pt_PT", "gl", "mwl"}

  /** Catalan, Aragonese and Ladino. */
  const Catalan: set<string> := {"ca", "an", "lad"}

  /** Romanian, Latin, Romansh, Ladin, Friulian, Ligurian, Lombard and Sardinian. */
  const OtherRomance: set<string> := {"ro", "la", "rm", "lld", "fur", "lij", "lmo", "sc"}

  /** Languages served by the romance-en and en-romance translators. */
  const Romance: set<string> := Spanish + French + Italian + Portuguese + Catalan + OtherRomance

  /** Every language a request may name. */
  const Supported: set<string> := Romance + {"de", "en"}

  /** Builds the supported set the way the package initialiser does: every
      romance language, then German and English. */
  method InitSupported() returns (supported: set<string>)
    ensures supported == Supported
  {
    supported := {};
    var pending := Romance;
    while pending != {}
      invariant pending <= Romance
      invariant supported == Romance - pending
      decreases pending
    {
      var lang :| lang in pending;
      supported := supported + {lang};
      pending := pending - {lang};
    }
    supported := supported + {"de"};
    supported := supported + {"en"};
  }

  /** Whether a language pair can be translated at all: exactly when the two
      languages differ and the router knows a route between them. */
  function IsValidPair(source: string, target: string): (valid: bool)
    ensures valid <==> source != target && GetRoute(source, target).Some?
  {
    HubsNotRomance();
    source in Supported && target in Supported && source != target
  }

  // ---------------------------------------------------------------------------
  // Routes

  /** The four translator Lambdas. */
  datatype Service = RomanceEn | DeEn | EnRomance | EnDe {

    /** The deployed function name. */
    function LambdaName(): string
    {
      match this
      case RomanceEn => "pricofy-translator-romance-en"
      case DeEn => "pricofy-translator-de-en"
      case EnRomance => "pricofy-translator-en-romance"
      case EnDe => "pricofy-translator-en-de"
    }

    /** The languages the translator reads. */
    function From(): set<string>
    {
      match this
      case RomanceEn => Romance
      case DeEn => {"de"}
      case EnRomance => {"en"}
      case EnDe => {"en"}
    }

    /** The languages the translator writes. */
    function To(): set<string>
    {
      match this
      case RomanceEn => {"en"}
      case DeEn => {"en"}
      case EnRomance => Romance
      case EnDe => {"de"}
    }
  }

  /** Distinct translators have distinct function names, so the name in a
      step error identifies the hop that failed. */
  lemma LambdaNamesDistinct(a: Service, b: Service)
    ensures a.LambdaName() == b.LambdaName() <==> a == b
  {
    if a != b {
      assert a.LambdaName()[19..] != b.LambdaName()[19..];
    }
  }

  /** One translator call; `targetLang` is "" when the translator needs none. */
  datatype Hop = Hop(service: Service, targetLang: string)

  type Route = seq<Hop>

  /** The translators to call, in order, for a pair; None when there is no way. */
  function GetRoute(source: string, target: string): (r: Option<Route>)
    ensures r.Some? ==> 1 <= |r.value| <= 2
  {
    if target == "en" && source in Romance then Some([Hop(RomanceEn, "")])
    else if target == "en" && source == "de" then Some([Hop(DeEn, "")])
    else if source == "en" && target in Romance then Some([Hop(EnRomance, target)])
    else if source == "en" && target == "de" then Some([Hop(EnDe, "")])
    else if source in Romance && target in Romance then Some([Hop(RomanceEn, ""), Hop(EnRomance, target)])
    else if source in Romance && target == "de" then Some([Hop(RomanceEn, ""), Hop(EnDe, "")])
    else if source == "de" && target in Romance then Some([Hop(DeEn, ""), Hop(EnRomance, target)])
    else None
  }

  /** A route of one or two hops that carries `source` to `target`: the first
      translator reads the source, the last writes the target, and two
      translators meet in English. */
  predicate IsPath(route: Route, source: string, target: string)
  {
    && 1 <= |route| <= 2
    && source in route[0].service.From()
    && target in route[|route| - 1].service.To()
    && (|route| == 2 ==> route[0].service.To() == {"en"} && route[1].service.From() == {"en"})
  }

  /** Only en-romance hops name a target language, and it is the requested one. */
  predicate TargetsRequested(route: Route, target: string)
  {
    forall k :: 0 <= k < |route| ==>
      (route[k].targetLang != "" <==> route[k].service == EnRomance)
      && (route[k].service == EnRomance ==> route[k].targetLang == target)
  }

  /** The two hubs, and the empty code, are not romance languages. */
  lemma HubsNotRomance()
    ensures "en" !in Romance && "de" !in Romance && "" !in Romance
  {
    NotRomance("en");
    NotRomance("de");
    NotRomance("");
  }

  /** A code of the form en, de or "" is in none of the romance families. */
  lemma NotRomance(code: string)
    requires code == "en" || code == "de" || code == ""
    ensures code !in Romance
  {
    assert code !in Spanish;
    assert code !in French;
    assert code !in Italian;
    assert code !in Portuguese;
    assert code !in Catalan;
    assert code !in OtherRomance;
  }

  /** There is no route exactly when a language is unknown, or when English or
      German is paired with itself (a romance language paired with itself does
      get a route). */
  lemma RouteUndefined(source: string, target: string)
    ensures GetRoute(source, target).None? <==>
      source !in Supported || target !in Supported || (source == target && source !in Romance)
  {
    HubsNotRomance();
  }

  /** Every route has one or two hops, one exactly when English is one end;
      it is a path from source to target and only its en-romance hop names a
      target language. */
  lemma RouteShape(source: string, target: string)
    requires GetRoute(source, target).Some?
    ensures var route := GetRoute(source, target).value;
      && 1 <= |route| <= 2
      && (|route| == 1 <==> source == "en" || target == "en")
      && IsPath(route, source, target)
      && TargetsRequested(route, target)
  {
    HubsNotRomance();
    var route := GetRoute(source, target).value;
    if target == "en" {
      assert |route| == 1 && route[0].targetLang == "";
    } else if source == "en" {
      assert |route| == 1 && route[0].service in {EnRomance, EnDe};
    } else {
      assert |route| == 2 && route[0].service in {RomanceEn, DeEn} && route[1].service in {EnRomance, EnDe};
    }
  }

  /** Every valid pair has a route of one or two hops. */
  lemma RouteComplete(source: string, target: string)
    requires IsValidPair(source, target)
    ensures GetRoute(source, target).Some? && 1 <= |GetRoute(source, target).value| <= 2
  {
    RouteShape(source, target);
  }

  /** Into English: one hop, no target language. */
  lemma RouteIntoEnglish(source: string)
    requires source in Romance || source == "de"
    ensures GetRoute(source, "en") == Some([Hop(if source == "de" then DeEn else RomanceEn, "")])
  {
    HubsNotRomance();
  }

  /** Out of English: one hop; en-romance is told the target. */
  lemma RouteOutOfEnglish(target: string)
    requires target in Romance || target == "de"
    ensures GetRoute("en", target) ==
      Some([if target == "de" then Hop(EnDe, "") else Hop(EnRomance, target)])
  {
    HubsNotRomance();
  }

  /** Between two non-English languages: into English, then out of it. */
  lemma RouteViaEnglish(source: string, target: string)
    requires source in Romance || source == "de"
    requires target in Romance || target == "de"
    requires !(source == "de" && target == "de")
    ensures GetRoute(source, target) == Some([
      Hop(if source == "de" then DeEn else RomanceEn, ""),
      if target == "de" then Hop(EnDe, "") else Hop(EnRomance, target)])
  {
    HubsNotRomance();
  }

  // ---------------------------------------------------------------------------
  // Running a route against the translator Lambdas

  /** One request to a translator Lambda: its chunks and, for en-romance, the
      target language. */
  datatype Invocation = Invocation(service: Service, targetLang: string, chunks: seq<Batch>)

  /** Why a translation did not happen; `step` counts hops from 1 and
      `lambdaName` is the function name of the failing hop. */
  datatype RouteError =
    | UnsupportedPair(source: string, target: string)
    | StepFailed(step: nat, lambdaName: string, cause: string)

  /** The translator Lambdas as the router sees them: `respond` is what a
      translator answers to a request (its translated chunks, or an error,
      whether the call or the translator failed) and `log` holds the requests
      sent so far. */
  class LambdaClient {
    const respond: Invocation -> Result<seq<Batch>, string>
    var log: seq<Invocation>

    constructor (respond: Invocation -> Result<seq<Batch>, string>)
      ensures this.respond == respond && log == []
    {
      this.respond := respond;
      log := [];
    }

    /** Sends one request and returns the translator's answer. */
    method Invoke(service: Service, targetLang: string, chunks: seq<Batch>)
      returns (result: Result<seq<Batch>, string>)
      modifies this
      ensures log == old(log) + [Invocation(service, targetLang, chunks)]
      ensures result == respond(Invocation(service, targetLang, chunks))
    {
      var call := Invocation(service, targetLang, chunks);
      log := log + [call];
      result := respond(call);
    }
  }

  /** The outcome of running the hops of `route` from hop `i` on `current`. */
  function RunHops(respond: Invocation -> Result<seq<Batch>, string>, route: Route, i: nat, current: seq<Batch>)
    : Result<seq<Batch>, RouteError>
    requires i <= |route|
    decreases |route| - i
  {
    if i == |route| then Success(current)
    else
      match respond(Invocation(route[i].service, route[i].targetLang, current))
      case Failure(cause) => Failure(StepFailed(i + 1, route[i].service.LambdaName(), cause))
      case Success(next) => RunHops(respond, route, i + 1, next)
  }

  /** The requests sent while running the hops of `route` from hop `i`. */
  function HopCalls(respond: Invocation -> Result<seq<Batch>, string>, route: Route, i: nat, current: seq<Batch>)
    : seq<Invocation>
    requires i <= |route|
    decreases |route| - i
  {
    if i == |route| then []
    else
      var call := Invocation(route[i].service, route[i].targetLang, current);
      match respond(call)
      case Failure(_) => [call]
      case Success(next) => [call] + HopCalls(respond, route, i + 1, next)
  }

  /** What TranslateChunks returns. */
  function TranslateSpec(respond: Invocation -> Result<seq<Batch>, string>, source: string, target: string, chunks: seq<Batch>)
    : Result<seq<Batch>, RouteError>
  {
    if |chunks| == 0 then Success([])
    else
      match GetRoute(source, target)
      case None => Failure(UnsupportedPair(source, target))
      case Some(route) => RunHops(respond, route, 0, chunks)
  }

  /** The requests TranslateChunks sends. */
  function TranslateCalls(respond: Invocation -> Result<seq<Batch>, string>, source: string, target: string, chunks: seq<Batch>)
    : seq<Invocation>
  {
    if |chunks| == 0 then []
    else
      match GetRoute(source, target)
      case None => []
      case Some(route) => HopCalls(respond, route, 0, chunks)
  }

  /** Translates all chunks along the route for the pair: each hop gets the
      previous hop's output, and the first failing hop ends the run. */
  method TranslateChunks(client: LambdaClient, source: string, target: string, chunks: seq<Batch>)
    returns (result: Result<seq<Batch>, RouteError>)
    modifies client
    ensures result == TranslateSpec(client.respond, source, target, chunks)
    ensures client.log == old(client.log) + TranslateCalls(client.respond, source, target, chunks)
  {
    if |chunks| == 0 {
      return Success([]);
    }
    var route := GetRoute(source, target);
    if route.None? {
      return Failure(UnsupportedPair(source, target));
    }
    var steps := route.value;
    assert TranslateSpec(client.respond, source, target, chunks) == RunHops(client.respond, steps, 0, chunks);
    assert TranslateCalls(client.respond, source, target, chunks) == HopCalls(client.respond, steps, 0, chunks);
    var currentChunks := chunks;
    for i := 0 to |steps|
      invariant RunHops(client.respond, steps, i, currentChunks) == RunHops(client.respond, steps, 0, chunks)
      invariant old(client.log) + HopCalls(client.respond, steps, 0, chunks)
             == client.log + HopCalls(client.respond, steps, i, currentChunks)
    {
      var step := steps[i];
      var answer := client.Invoke(step.service, step.targetLang, currentChunks);
      assert answer == client.respond(Invocation(step.service, step.targetLang, currentChunks));
      if answer.Failure? {
        assert HopCalls(client.respond, steps, i, currentChunks) == [Invocation(step.service, step.targetLang, currentChunks)];
        return Failure(StepFailed(i + 1, step.service.LambdaName(), answer.error));
      }
      currentChunks := answer.value;
    }
    return Success(currentChunks);
  }

  /** What Translate returns. */
  function TranslateTextsSpec(respond: Invocation -> Result<seq<Batch>, string>, source: string, target: string, texts: seq<Text>)
    : Result<seq<Text>, RouteError>
  {
    if |texts| == 0 then Success([])
    else
      match TranslateSpec(respond, source, target, [texts])
      case Failure(e) => Failure(e)
      case Success(results) => if |results| == 0 then Success([]) else Success(results[0])
  }

  /** The requests Translate sends. */
  function TranslateTextsCalls(respond: Invocation -> Result<seq<Batch>, string>, source: string, target: string, texts: seq<Text>)
    : seq<Invocation>
  {
    if |texts| == 0 then [] else TranslateCalls(respond, source, target, [texts])
  }

  /** Translates one batch of texts without chunking. */
  method Translate(client: LambdaClient, source: string, target: string, texts: seq<Text>)
    returns (result: Result<seq<Text>, RouteError>)
    modifies client
    ensures result == TranslateTextsSpec(client.respond, source, target, texts)
    ensures client.log == old(client.log) + TranslateTextsCalls(client.respond, source, target, texts)
  {
    if |texts| == 0 {
      return Success([]);
    }
    var results := TranslateChunks(client, source, target, [texts]);
    if results.Failure? {
      return Failure(results.error);
    }
    if |results.value| == 0 {
      return Success([]);
    }
    return Success(results.value[0]);
  }

  // ---------------------------------------------------------------------------
  // What running a route promises

  /** The requests follow the route in order, each carrying the previous
      answer (the first carries the input; the answer to request k is the
      chunks of request k + 1); the run stops at the first error,
      which names that hop; otherwise its result is the last answer. */
  lemma {:induction false} HopTrace(respond: Invocation -> Result<seq<Batch>, string>, route: Route, i: nat, current: seq<Batch>)
    requires i <= |route|
    decreases |route| - i
    ensures var calls, outcome := HopCalls(respond, route, i, current), RunHops(respond, route, i, current);
      && |calls| <= |route| - i
      && (i < |route| ==> 1 <= |calls|)
      && (forall k :: 0 <= k < |calls| ==>
            calls[k].service == route[i + k].service && calls[k].targetLang == route[i + k].targetLang)
      && (|calls| > 0 ==> calls[0].chunks == current)
      // l is k + 1, named separately so that no trigger chains from one request to the next
      && (forall k, l :: 0 <= k && l == k + 1 && l < |calls| ==> respond(calls[k]) == Success(calls[l].chunks))
      && (outcome.Success? <==> |calls| == |route| - i && (|calls| == 0 || respond(calls[|calls| - 1]).Success?))
      && (outcome.Success? ==>
            outcome.value == if |calls| == 0 then current else respond(calls[|calls| - 1]).value)
      && (outcome.Failure? ==>
            && |calls| > 0
            && respond(calls[|calls| - 1]).Failure?
            && outcome.error == StepFailed(i + |calls|, calls[|calls| - 1].service.LambdaName(), respond(calls[|calls| - 1]).error))
  {
    if i < |route| {
      var call := Invocation(route[i].service, route[i].targetLang, current);
      match respond(call)
      case Failure(_) =>
      case Success(next) =>
        HopTrace(respond, route, i + 1, next);
        var rest := HopCalls(respond, route, i + 1, next);
        var calls := [call] + rest;
        assert HopCalls(respond, route, i, current) == calls;
        forall k | 0 < k < |calls|
          ensures calls[k].service == route[i + k].service && calls[k].targetLang == route[i + k].targetLang
        {
          assert calls[k] == rest[k - 1];
        }
        forall k, l | 0 <= k && l == k + 1 && l < |calls|
          ensures respond(calls[k]) == Success(calls[l].chunks)
        {
          assert calls[l] == rest[k];
          if k > 0 {
            assert calls[k] == rest[k - 1];
          }
        }
    }
  }

  /** No chunks: an empty success before the route is even looked up, so even
      for an unsupported pair, and no request is sent. */
  lemma TranslateNoChunks(respond: Invocation -> Result<seq<Batch>, string>, source: string, target: string)
    ensures TranslateSpec(respond, source, target, []) == Success([])
    ensures TranslateCalls(respond, source, target, []) == []
  {
  }

  /** Chunks for a pair without a route: an unsupported-pair error and no request. */
  lemma TranslateUnsupported(respond: Invocation -> Result<seq<Batch>, string>, source: string, target: string, chunks: seq<Batch>)
    requires chunks != [] && GetRoute(source, target).None?
    ensures TranslateSpec(respond, source, target, chunks) == Failure(UnsupportedPair(source, target))
    ensures TranslateCalls(respond, source, target, chunks) == []
  {
  }

  /** With chunks and a route: the hops are invoked in route order, the first
      with the chunks and each later one with its predecessor's output. */
  lemma TranslateInOrder(respond: Invocation -> Result<seq<Batch>, string>, source: string, target: string, chunks: seq<Batch>)
    requires chunks != [] && GetRoute(source, target).Some?
    ensures var route, calls := GetRoute(source, target).value, TranslateCalls(respond, source, target, chunks);
      && 1 <= |calls| <= |route|
      && (forall k :: 0 <= k < |calls| ==>
            calls[k].service == route[k].service && calls[k].targetLang == route[k].targetLang)
      && calls[0].chunks == chunks
      && (forall k, l :: 0 <= k && l == k + 1 && l < |calls| ==> respond(calls[k]) == Success(calls[l].chunks))
  {
    var route := GetRoute(source, target).value;
    assert TranslateCalls(respond, source, target, chunks) == HopCalls(respond, route, 0, chunks);
    HopTrace(respond, route, 0, chunks);
  }

  /** With chunks and a route: the run succeeds exactly when every hop was
      invoked and the last answered, and then returns that answer; a failing
      hop `n` ends the run with a step-`n` error naming its Lambda. */
  lemma TranslateOutcome(respond: Invocation -> Result<seq<Batch>, string>, source: string, target: string,
                          route: Route, chunks: seq<Batch>)
    requires chunks != [] && GetRoute(source, target) == Some(route)
    ensures var calls, outcome := TranslateCalls(respond, source, target, chunks), TranslateSpec(respond, source, target, chunks);
      && 1 <= |calls|
      && (outcome.Success? <==> |calls| == |route| && respond(calls[|calls| - 1]).Success?)
      && (outcome.Success? ==> outcome.value == respond(calls[|calls| - 1]).value)
      && (outcome.Failure? ==>
            && respond(calls[|calls| - 1]).Failure?
            && outcome.error == StepFailed(|calls|, calls[|calls| - 1].service.LambdaName(), respond(calls[|calls| - 1]).error))
  {
    assert TranslateCalls(respond, source, target, chunks) == HopCalls(respond, route, 0, chunks);
    assert TranslateSpec(respond, source, target, chunks) == RunHops(respond, route, 0, chunks);
    HopTrace(respond, route, 0, chunks);
  }

  /** Translate of no texts is empty and sends nothing. */
  lemma TranslateEmptyInput(respond: Invocation -> Result<seq<Batch>, string>, source: string, target: string)
    ensures TranslateTextsSpec(respond, source, target, []) == Success([])
    ensures TranslateTextsCalls(respond, source, target, []) == []
  {
  }

  /** Translate of some texts along a route sends them as one chunk to the
      first hop and returns the first batch of the last answer (nothing when
      that answer has no batch); it fails only at a hop. */
  lemma {:induction false} TranslateOneChunk(respond: Invocation -> Result<seq<Batch>, string>, source: string, target: string, texts: seq<Text>)
    requires texts != [] && GetRoute(source, target).Some?
    ensures var calls, outcome := TranslateTextsCalls(respond, source, target, texts), TranslateTextsSpec(respond, source, target, texts);
      && |calls| >= 1
      && calls[0].chunks == [texts]
      && (outcome.Success? ==>
            && respond(calls[|calls| - 1]).Success?
            && var last := respond(calls[|calls| - 1]).value;
               outcome.value == if last == [] then [] else last[0])
      && (outcome.Failure? ==> outcome.error.StepFailed?)
  {
    TranslateInOrder(respond, source, target, [texts]);
    TranslateOutcome(respond, source, target, GetRoute(source, target).value, [texts]);
    var calls := TranslateCalls(respond, source, target, [texts]);
    var outcome := TranslateSpec(respond, source, target, [texts]);
    assert TranslateTextsCalls(respond, source, target, texts) == calls;
    if outcome.Success? {
      assert outcome.value == respond(calls[|calls| - 1]).value;
    }
  }

  /** Translators that answer every request with its own chunks. */
  ghost predicate Echoes(respond: Invocation -> Result<seq<Batch>, string>)
  {
    forall call :: respond(call) == Success(call.chunks)
  }

  /** Translators whose successful answers have the shape of the request:
      as many batches, each as long as the one it translates. */
  ghost predicate KeepsShape(respond: Invocation -> Result<seq<Batch>, string>)
  {
    forall call :: respond(call).Success? ==> SameShape(respond(call).value, call.chunks)
  }

  /** With echoing translators a route hands back its input unchanged. */
  lemma {:induction false} RunHopsEcho(respond: Invocation -> Result<seq<Batch>, string>, route: Route, i: nat, current: seq<Batch>)
    requires Echoes(respond) && i <= |route|
    decreases |route| - i
    ensures RunHops(respond, route, i, current) == Success(current)
  {
    if i < |route| {
      assert respond(Invocation(route[i].service, route[i].targetLang, current)) == Success(current);
      RunHopsEcho(respond, route, i + 1, current);
    }
  }

  /** With shape-keeping translators a successful run has the input's shape. */
  lemma {:induction false} RunHopsShape(respond: Invocation -> Result<seq<Batch>, string>, route: Route, i: nat, current: seq<Batch>)
    requires KeepsShape(respond) && i <= |route|
    decreases |route| - i
    ensures RunHops(respond, route, i, current).Success? ==> SameShape(RunHops(respond, route, i, current).value, current)
  {
    if i < |route| {
      var call := Invocation(route[i].service, route[i].targetLang, current);
      if respond(call).Success? {
        var next := respond(call).value;
        RunHopsShape(respond, route, i + 1, next);
        if RunHops(respond, route, i + 1, next).Success? {
          var out := RunHops(respond, route, i + 1, next).value;
          assert SameShape(next, current);
          assert forall j :: 0 <= j < |out| ==> |out[j]| == |next[j]| == |current[j]|;
        }
      }
    }
  }
}
