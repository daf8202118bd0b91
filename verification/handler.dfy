/** The `POST /api/generate` endpoint, in both of its forms: the Express
    route and the Vercel serverless handler. Both run the same ordered
    validation chain, compose the four prompts, generate the images
    all-or-nothing, and turn the outcome into a JSON response. */
module GenerateHandler {
  import opened Text
  import opened Json
  import opened Results
  import opened Catalog
  import opened Prompts
  import opened Replicate

  /** The three body fields the handlers read; an absent field is
      `JUndefined`. */
  datatype GenerateRequest = GenerateRequest(prompt: Json, styleId: Json, colors: Json)

  /** What a request that passes validation carries on: the trimmed
      prompt, the resolved preset, and the colour list handed to the
      composer. */
  datatype ValidRequest = ValidRequest(theme: string, style: StylePreset, colors: seq<string>)

  datatype ResponseBody =
    | NoBody
    | ErrorBody(error: string)
    | FailureBody(error: string, message: string)
    | SuccessBody(success: bool, images: seq<string>, prompt: string, style: string)

  datatype Response = Response(status: int, body: ResponseBody)

  const PromptRequired := "Prompt is required"
  const StyleIdRequired := "Style ID is required"
  const InvalidStyleId := "Invalid style ID"
  const ColorsNotArray := "Colors must be an array"
  const GenerationFailed := "Failed to generate icons"
  const MethodNotAllowed := "Method not allowed"

  /** The prompt is a string with at least one non-white-space character. */
  predicate HasPrompt(req: GenerateRequest) {
    req.prompt.JStr? && exists i :: 0 <= i < |req.prompt.s| && !IsWhitespace(req.prompt.s[i])
  }

  /** The style id is a non-zero number. */
  predicate HasStyleId(req: GenerateRequest) {
    req.styleId.JNum? && req.styleId.n != 0
  }

  /** `colors` is absent, falsy, or an array. */
  predicate ColorsAcceptable(req: GenerateRequest) {
    !Truthy(req.colors) || req.colors.JArr?
  }

  /** The colour list the composer receives: the array's elements as text,
      or nothing when `colors` is falsy. */
  function ColorList(colors: Json): (r: seq<string>)
    ensures colors.JArr? ==> |r| == |colors.items|
    ensures colors.JArr? ==> forall i :: 0 <= i < |r| ==> colors.items[i].JStr? ==> r[i] == colors.items[i].s
    ensures !colors.JArr? ==> r == []
  {
    match colors
    case JArr(items) => seq(|items|, i requires 0 <= i < |items| => JoinText(items[i]))
    case _ => []
  }

  /** The validation chain: prompt, style id, style lookup, colours. The
      first failing check decides the error. */
  function Validate(req: GenerateRequest): (r: Result<ValidRequest>)
    ensures !HasPrompt(req) ==> r == Err(PromptRequired)
    ensures HasPrompt(req) && !HasStyleId(req) ==> r == Err(StyleIdRequired)
    ensures HasPrompt(req) && HasStyleId(req) && !(1 <= req.styleId.n <= 5) ==> r == Err(InvalidStyleId)
    ensures HasPrompt(req) && HasStyleId(req) && 1 <= req.styleId.n <= 5 && !ColorsAcceptable(req)
            ==> r == Err(ColorsNotArray)
    ensures r.Ok? <==> HasPrompt(req) && HasStyleId(req) && 1 <= req.styleId.n <= 5 && ColorsAcceptable(req)
    ensures r.Ok? ==> && r.value.theme == Trim(req.prompt.s)
                      && r.value.theme != []
                      && r.value.style == Presets[req.styleId.n - 1]
                      && r.value.colors == ColorList(req.colors)
  {
    if !Truthy(req.prompt) || !req.prompt.JStr? then Err(PromptRequired)
    else if (TrimEmptyIffBlank(req.prompt.s); Trim(req.prompt.s) == []) then Err(PromptRequired)
    else if !Truthy(req.styleId) || !req.styleId.JNum? then
      Err(StyleIdRequired)
    else
      match GetStyleById(req.styleId.n)
      case None => Err(InvalidStyleId)
      case Some(style) =>
        if Truthy(req.colors) && !req.colors.JArr? then Err(ColorsNotArray)
        else Ok(ValidRequest(Trim(req.prompt.s), style, ColorList(req.colors)))
  }

  /** A request that passes validation carries on as its trimmed prompt,
      the preset its id names, and its colour list. */
  lemma ValidatedFields(req: GenerateRequest)
    requires Validate(req).Ok?
    ensures Validate(req) == Ok(ValidRequest(Trim(req.prompt.s), Presets[req.styleId.n - 1], ColorList(req.colors)))
  {
  }

  /** The four prompts of a validated request. */
  function PromptsFor(v: ValidRequest): seq<string> {
    GenerateIconPrompts(v.theme, v.style, v.colors)
  }

  /** The response for a validated request once generation has settled. */
  function Respond(v: ValidRequest, images: Result<seq<string>>): Response {
    match images
    case Ok(urls) => Response(200, SuccessBody(true, urls, v.theme, v.style.name))
    case Err(m) => Response(500, FailureBody(GenerationFailed, m))
  }

  /** The Express route: a 400 with the first validation error, a 200 with
      exactly the generated list, the trimmed prompt and the style's name,
      or a 500 carrying the underlying failure message. */
  function HandleGenerate(req: GenerateRequest, provider: Provider): (r: Response)
    ensures Validate(req).Err? ==> r == Response(400, ErrorBody(Validate(req).msg))
    ensures r.status == 200 <==>
      Validate(req).Ok? && GenerateMultipleImages(PromptsFor(Validate(req).value), None, provider).Ok?
    ensures r.status == 200 ==>
      && GenerateMultipleImages(PromptsFor(Validate(req).value), None, provider).Ok?
      && r.body == SuccessBody(true, GenerateMultipleImages(PromptsFor(Validate(req).value), None, provider).value,
                               Trim(req.prompt.s), Presets[req.styleId.n - 1].name)
    ensures r.status == 500 ==>
      && Validate(req).Ok?
      && GenerateMultipleImages(PromptsFor(Validate(req).value), None, provider).Err?
      && r.body == FailureBody(GenerationFailed, GenerateMultipleImages(PromptsFor(Validate(req).value), None, provider).msg)
    ensures r.status in {200, 400, 500}
  {
    match Validate(req)
    case Err(m) => Response(400, ErrorBody(m))
    case Ok(v) => Respond(v, GenerateMultipleImages(PromptsFor(v), None, provider))
  }

  /** A request that fails validation is answered without consulting the
      model: the response is the same whatever the model would do. */
  lemma ValidationPrecedesGeneration(req: GenerateRequest, p1: Provider, p2: Provider)
    requires Validate(req).Err?
    ensures HandleGenerate(req, p1) == HandleGenerate(req, p2)
    ensures HandleGenerate(req, p1).status == 400
  {
  }

  /** On success the Express route returns one image per prompt, that is
      four. */
  lemma SuccessHasFourImages(req: GenerateRequest, provider: Provider)
    requires HandleGenerate(req, provider).status == 200
    ensures |HandleGenerate(req, provider).body.images| == 4
  {
    var v := Validate(req).value;
    GenerateMultipleImagesSpec(PromptsFor(v), None, provider);
  }

  /** The Vercel handler: OPTIONS and non-POST methods are answered before
      any validation; POST runs the same chain, then the retrying,
      time-limited fan-out with per-prompt seeds. */
  function VercelHandle(httpMethod: string, req: GenerateRequest, now: nat -> int, provider: Provider,
                        timedOut: nat -> bool): (r: Response)
    ensures httpMethod == "OPTIONS" ==> r == Response(200, NoBody)
    ensures httpMethod != "OPTIONS" && httpMethod != "POST" ==> r == Response(405, ErrorBody(MethodNotAllowed))
    ensures httpMethod == "POST" && Validate(req).Err? ==> r == Response(400, ErrorBody(Validate(req).msg))
    ensures httpMethod == "POST" && Validate(req).Ok? ==>
      var v := Validate(req).value;
      r == Respond(v, VercelGenerateAll(PromptsFor(v), now, provider, timedOut))
  {
    if httpMethod == "OPTIONS" then Response(200, NoBody)
    else if httpMethod != "POST" then Response(405, ErrorBody(MethodNotAllowed))
    else
      match Validate(req)
      case Err(m) => Response(400, ErrorBody(m))
      case Ok(v) => Respond(v, VercelGenerateAll(PromptsFor(v), now, provider, timedOut))
  }

  /** The two handlers reject exactly the same POST requests with exactly
      the same 400 response. */
  lemma HandlersAgreeOnValidation(req: GenerateRequest, now: nat -> int, provider: Provider, timedOut: nat -> bool)
    ensures (HandleGenerate(req, provider).status == 400) <==> (VercelHandle("POST", req, now, provider, timedOut).status == 400)
    ensures HandleGenerate(req, provider).status == 400 ==>
      HandleGenerate(req, provider) == VercelHandle("POST", req, now, provider, timedOut)
  {
  }

  /** A request that fails validation is answered with a 400 carrying
      the validation message. */
  lemma RejectedWith(req: GenerateRequest, provider: Provider, m: string)
    requires Validate(req) == Err(m)
    ensures HandleGenerate(req, provider) == Response(400, ErrorBody(m))
  {
  }

  /** The rejection of a missing prompt, whatever else the body holds. */
  lemma MissingPromptRejected(styleId: Json, colors: Json, provider: Provider)
    ensures HandleGenerate(GenerateRequest(JUndefined, styleId, colors), provider)
         == Response(400, ErrorBody("Prompt is required"))
  {
    RejectedWith(GenerateRequest(JUndefined, styleId, colors), provider, PromptRequired);
  }

  /** The rejection of an unknown style (such as 6), for every prompt with a
      visible character. */
  lemma UnknownStyleRejected(prompt: string, n: int, colors: Json, provider: Provider)
    requires !Blank(prompt) && n != 0 && !(1 <= n <= 5)
    ensures HandleGenerate(GenerateRequest(JStr(prompt), JNum(n), colors), provider)
         == Response(400, ErrorBody("Invalid style ID"))
  {
    RejectedWith(GenerateRequest(JStr(prompt), JNum(n), colors), provider, InvalidStyleId);
  }

  /** The rejection of a `colors` that is a non-empty string (such as
      "#FF0000") rather than an array, for every prompt with a visible
      character and every catalog style. */
  lemma StringColorsRejected(prompt: string, n: int, s: string, provider: Provider)
    requires !Blank(prompt) && 1 <= n <= 5 && s != []
    ensures HandleGenerate(GenerateRequest(JStr(prompt), JNum(n), JStr(s)), provider)
         == Response(400, ErrorBody("Colors must be an array"))
  {
    var req := GenerateRequest(JStr(prompt), JNum(n), JStr(s));
    PromptPresent(prompt, JNum(n), JStr(s));
    ColorsChecked(req);
    RejectedWith(req, provider, ColorsNotArray);
  }

  /** A prompt with a visible character passes the prompt check. */
  lemma PromptPresent(prompt: string, styleId: Json, colors: Json)
    requires !Blank(prompt)
    ensures HasPrompt(GenerateRequest(JStr(prompt), styleId, colors))
  {
  }

  /** With prompt and style accepted, a truthy non-array `colors` is the
      first failing check. */
  lemma ColorsChecked(req: GenerateRequest)
    requires HasPrompt(req) && HasStyleId(req) && 1 <= req.styleId.n <= 5 && !ColorsAcceptable(req)
    ensures Validate(req) == Err(ColorsNotArray)
  {
  }

  /** Once validated, a model that always yields an image makes the
      response a 200 with four images, the theme and the style's name. */
  lemma RespondWhenModelAnswers(v: ValidRequest, provider: Provider)
    requires AlwaysAnswers(provider)
    ensures var r := Respond(v, GenerateMultipleImages(PromptsFor(v), None, provider));
      && r.status == 200 && |r.body.images| == 4
      && r.body.prompt == v.theme && r.body.style == v.style.name
  {
    AnsweredAllSucceed(PromptsFor(v), None, provider);
  }

  /** A valid request answered by a model that always yields an image
      succeeds with four images. */
  lemma SuccessWhenModelAnswers(req: GenerateRequest, provider: Provider)
    requires Validate(req).Ok?
    requires AlwaysAnswers(provider)
    ensures var r := HandleGenerate(req, provider);
      && r.status == 200 && |r.body.images| == 4
      && r.body.prompt == Trim(req.prompt.s) && r.body.style == Presets[req.styleId.n - 1].name
  {
    ServedWhenModelAnswers(req, provider);
    ValidatedFields(req);
  }

  /** The same, stated against the validated request itself. */
  lemma ServedWhenModelAnswers(req: GenerateRequest, provider: Provider)
    requires Validate(req).Ok?
    requires AlwaysAnswers(provider)
    ensures var r := HandleGenerate(req, provider);
      && r.status == 200 && |r.body.images| == 4
      && r.body.prompt == Validate(req).value.theme && r.body.style == Validate(req).value.style.name
  {
    RespondWhenModelAnswers(Validate(req).value, provider);
    HandleValid(req, provider);
  }

  /** A request that passes validation gets the response for its four
      prompts. */
  lemma HandleValid(req: GenerateRequest, provider: Provider)
    requires Validate(req).Ok?
    ensures var v := Validate(req).value;
      HandleGenerate(req, provider) == Respond(v, GenerateMultipleImages(PromptsFor(v), None, provider))
  {
  }

  /** The well-formed request "Toys" in style 1 without colours
      passes validation as theme "Toys", the "Gradient Line Art" preset and
      no colours; by `SuccessWhenModelAnswers` it then yields four images. */
  lemma AcceptedExample()
    ensures Validate(GenerateRequest(JStr("Toys"), JNum(1), JUndefined))
         == Ok(ValidRequest("Toys", GradientLineArt, []))
    ensures GradientLineArt.name == "Gradient Line Art"
  {
    var toys := "Toys";
    var req := GenerateRequest(JStr(toys), JNum(1), JUndefined);
    assert toys[0] == 'T' && toys[|toys| - 1] == 's';
    assert HasPrompt(req) by {
      assert !IsWhitespace(toys[0]);
    }
    assert HasStyleId(req) && ColorsAcceptable(req);
    TrimOfTrimmed(toys);
  }
}
