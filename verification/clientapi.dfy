/** The client's HTTP helpers: the request body `generateIcons` sends
    (with blank colours filtered out), how it turns an error response into
    the message it throws, `fetchStyles`, and the proxy URL format. The
    network round trip is a parameter: `send` says which response the body
    receives. */
module ClientApi {
  import opened Text
  import opened Json
  import opened Results
  import opened Catalog
  import opened GenerateHandler
  import opened Replicate

  const GenerateFailedFallback := "Failed to generate icons"
  const FetchStylesFailed := "Failed to fetch styles"
  const ProxyPrefix := "/api/proxy-image?url="

  /** `c.trim() !== ''`. */
  predicate KeepColor(c: string) {
    Trim(c) != []
  }

  /** `filter(c => c.trim() !== '')` on a list. */
  function FilterBlank(colors: seq<string>): (r: seq<string>)
    ensures |r| <= |colors|
    ensures forall c :: c in r <==> c in colors && KeepColor(c)
    decreases |colors|
  {
    if colors == [] then []
    else
      var rest := FilterBlank(colors[1..]);
      assert forall c :: c in colors <==> c == colors[0] || c in colors[1..];
      if KeepColor(colors[0]) then [colors[0]] + rest else rest
  }

  /** The `colors` field `generateIcons` sends: `colors?.filter(...)`, so an
      absent list stays absent. */
  function FilterColors(colors: Option<seq<string>>): (r: Option<seq<string>>)
    ensures r.None? <==> colors.None?
    ensures r.Some? ==> r.value == FilterBlank(colors.value)
  {
    match colors
    case None => None
    case Some(cs) => Some(FilterBlank(cs))
  }

  /** Filtering splits over concatenation, so the kept colours keep their
      relative order. */
  lemma {:induction false} FilterBlankAppend(a: seq<string>, b: seq<string>)
    ensures FilterBlank(a + b) == FilterBlank(a) + FilterBlank(b)
    decreases |a|
  {
    if a == [] {
      assert a + b == b;
    } else {
      assert (a + b)[1..] == a[1..] + b;
      FilterBlankAppend(a[1..], b);
    }
  }

  /** A list without blank entries passes through unchanged; hence
      filtering twice is filtering once. */
  lemma {:induction false} FilterBlankKeepsClean(colors: seq<string>)
    requires forall i :: 0 <= i < |colors| ==> KeepColor(colors[i])
    ensures FilterBlank(colors) == colors
    decreases |colors|
  {
    if colors != [] {
      var tail := colors[1..];
      assert forall i :: 0 <= i < |tail| ==> tail[i] == colors[i + 1];
      FilterBlankKeepsClean(tail);
      assert KeepColor(colors[0]);
      assert FilterBlank(colors) == [colors[0]] + FilterBlank(tail);
      assert [colors[0]] + tail == colors;
    }
  }

  lemma FilterBlankIdempotent(colors: seq<string>)
    ensures FilterBlank(FilterBlank(colors)) == FilterBlank(colors)
  {
    var r := FilterBlank(colors);
    forall i | 0 <= i < |r|
      ensures KeepColor(r[i])
    {
      assert r[i] in r;
    }
    FilterBlankKeepsClean(r);
  }

  /** The JSON body `generateIcons` posts. `colors` is omitted when absent
      (`JSON.stringify` drops undefined fields). */
  datatype ClientBody = ClientBody(prompt: string, styleId: int, colors: Option<seq<string>>)

  function BuildBody(prompt: string, styleId: int, colors: Option<seq<string>>): (r: ClientBody)
    ensures r.prompt == prompt && r.styleId == styleId
    ensures r.colors == FilterColors(colors)
  {
    ClientBody(prompt, styleId, FilterColors(colors))
  }

  /** The same body as the server reads it. */
  function AsServerRequest(body: ClientBody): (r: GenerateRequest)
    ensures r.prompt == JStr(body.prompt) && r.styleId == JNum(body.styleId)
    ensures body.colors.None? ==> r.colors == JUndefined
    ensures body.colors.Some? ==>
      && r.colors.JArr? && |r.colors.items| == |body.colors.value|
      && (forall i :: 0 <= i < |body.colors.value| ==> r.colors.items[i] == JStr(body.colors.value[i]))
  {
    GenerateRequest(
      JStr(body.prompt),
      JNum(body.styleId),
      match body.colors
      case None => JUndefined
      case Some(cs) => JArr(seq(|cs|, i requires 0 <= i < |cs| => JStr(cs[i]))))
  }

  /** The body's fields `message` and `error` as the client reads them. */
  function MessageField(body: ResponseBody): Json {
    match body
    case FailureBody(_, m) => JStr(m)
    case _ => JUndefined
  }

  function ErrorField(body: ResponseBody): Json {
    match body
    case ErrorBody(e) => JStr(e)
    case FailureBody(e, _) => JStr(e)
    case _ => JUndefined
  }

  /** `error.message || error.error || 'Failed to generate icons'`, as the
      text of the thrown `Error`. */
  function ErrorMessage(message: Json, error: Json): (r: string)
    ensures Truthy(message) && message.JStr? ==> r == message.s
    ensures !Truthy(message) && Truthy(error) && error.JStr? ==> r == error.s
    ensures !Truthy(message) && !Truthy(error) ==> r == GenerateFailedFallback
  {
    if Truthy(message) then ToText(message)
    else if Truthy(error) then ToText(error)
    else GenerateFailedFallback
  }

  /** `response.ok`: a 2xx status. */
  predicate IsOk(status: int) {
    200 <= status < 300
  }

  /** `generateIcons(prompt, styleId, colors)`: post the filtered body and
      return the parsed success body, or fail with the chosen message. */
  function GenerateIcons(prompt: string, styleId: int, colors: Option<seq<string>>,
                         send: ClientBody -> Response): (r: Result<ResponseBody>)
    ensures IsOk(send(BuildBody(prompt, styleId, colors)).status) <==> r.Ok?
    ensures r.Ok? ==> r.value == send(BuildBody(prompt, styleId, colors)).body
    ensures r.Err? ==> r.msg == ErrorMessage(MessageField(send(BuildBody(prompt, styleId, colors)).body),
                                             ErrorField(send(BuildBody(prompt, styleId, colors)).body))
  {
    var response := send(BuildBody(prompt, styleId, colors));
    if IsOk(response.status) then Ok(response.body)
    else Err(ErrorMessage(MessageField(response.body), ErrorField(response.body)))
  }

  /** The messages the client shows for the server's error responses: the
      400 error text, and for a 500 the underlying failure message, falling
      back to "Failed to generate icons" when that message is empty. */
  lemma ServerErrorMessages(e: string, m: string)
    ensures e != [] ==> ErrorMessage(MessageField(ErrorBody(e)), ErrorField(ErrorBody(e))) == e
    ensures ErrorMessage(MessageField(FailureBody(GenerationFailed, m)), ErrorField(FailureBody(GenerationFailed, m)))
         == if m != [] then m else GenerationFailed
  {
  }

  /** The client talking to the Express route. */
  function ExpressSend(provider: Provider): ClientBody -> Response {
    (body: ClientBody) => HandleGenerate(AsServerRequest(body), provider)
  }

  /** The colour list the server composes with is exactly the client's
      filtered list. */
  lemma ServerSeesFilteredColors(prompt: string, styleId: int, colors: seq<string>)
    ensures ColorList(AsServerRequest(BuildBody(prompt, styleId, Some(colors))).colors) == FilterBlank(colors)
  {
  }

  /** End to end against the Express route, a blank prompt comes back as
      "Prompt is required" (the client itself does not check). */
  lemma BlankPromptRejected(prompt: string, styleId: int, colors: seq<string>, provider: Provider)
    requires Blank(prompt)
    ensures GenerateIcons(prompt, styleId, Some(colors), ExpressSend(provider)) == Err(PromptRequired)
  {
    var req := AsServerRequest(BuildBody(prompt, styleId, Some(colors)));
    assert !HasPrompt(req);
    RejectedWith(req, provider, PromptRequired);
    assert ExpressSend(provider)(BuildBody(prompt, styleId, Some(colors))) == HandleGenerate(req, provider);
  }

  /** The body the client builds for a prompt with a visible character and
      a non-zero style id passes each of the server's field checks. */
  lemma BuiltBodyPassesChecks(prompt: string, styleId: int, colors: seq<string>)
    requires !Blank(prompt) && styleId != 0
    ensures var req := AsServerRequest(BuildBody(prompt, styleId, Some(colors)));
      HasPrompt(req) && HasStyleId(req) && ColorsAcceptable(req)
  {
  }

  /** A prompt with a visible character and a style id from 1 to 5 passes
      the server's validation as the trimmed prompt, that preset, and the
      filtered colours. */
  lemma WellFormedBodyValidates(prompt: string, styleId: int, colors: seq<string>)
    requires !Blank(prompt) && 1 <= styleId <= 5
    ensures Validate(AsServerRequest(BuildBody(prompt, styleId, Some(colors))))
         == Ok(ValidRequest(Trim(prompt), Presets[styleId - 1], FilterBlank(colors)))
  {
    var req := AsServerRequest(BuildBody(prompt, styleId, Some(colors)));
    BuiltBodyPassesChecks(prompt, styleId, colors);
    ServerSeesFilteredColors(prompt, styleId, colors);
    ValidatedFields(req);
  }

  /** ... and with a model that always answers, the client receives four
      images, the trimmed prompt and the style's name. */
  lemma WellFormedBodySucceeds(prompt: string, styleId: int, colors: seq<string>, provider: Provider)
    requires !Blank(prompt) && 1 <= styleId <= 5
    requires AlwaysAnswers(provider)
    ensures var r := GenerateIcons(prompt, styleId, Some(colors), ExpressSend(provider));
      && r.Ok? && r.value.SuccessBody? && |r.value.images| == 4
      && r.value.prompt == Trim(prompt) && r.value.style == Presets[styleId - 1].name
  {
    var req := AsServerRequest(BuildBody(prompt, styleId, Some(colors)));
    WellFormedBodyValidates(prompt, styleId, colors);
    SuccessWhenModelAnswers(req, provider);
    assert ExpressSend(provider)(BuildBody(prompt, styleId, Some(colors))) == HandleGenerate(req, provider);
  }

  /** `fetchStyles`: the catalog on a 2xx response, otherwise the fixed
      failure message. */
  function FetchStyles(status: int, body: seq<StylePreset>): (r: Result<seq<StylePreset>>)
    ensures r.Ok? <==> IsOk(status)
    ensures r.Ok? ==> r.value == body
    ensures r.Err? ==> r.msg == FetchStylesFailed
  {
    if !IsOk(status) then Err(FetchStylesFailed) else Ok(body)
  }

  /** `getProxyImageUrl(u)`, with `encodeURIComponent` as a parameter. */
  function ProxyImageUrl(imageUrl: string, encode: string -> string): (r: string)
    ensures |ProxyPrefix| <= |r| && r[..|ProxyPrefix|] == ProxyPrefix
    ensures r[|ProxyPrefix|..] == encode(imageUrl)
  {
    ProxyPrefix + encode(imageUrl)
  }

  /** Distinct image URLs get distinct proxy URLs whenever the encoding is
      injective, as URI-component encoding is. */
  lemma ProxyUrlInjective(u: string, v: string, encode: string -> string)
    requires forall a, b :: encode(a) == encode(b) ==> a == b
    requires ProxyImageUrl(u, encode) == ProxyImageUrl(v, encode)
    ensures u == v
  {
    var r := ProxyImageUrl(u, encode);
    assert r[|ProxyPrefix|..] == encode(u);
    assert ProxyImageUrl(v, encode)[|ProxyPrefix|..] == encode(v);
  }
}
