/** Image generation against the hosted model: one prompt to one image URL
    (`generateImage`), and all prompts of a request to all their URLs,
    all-or-nothing (`generateMultipleImages`, and the Vercel handler's
    fan-out with retry and timeout). The hosted model itself is a
    parameter: `Provider` says what it answers to each call. */
module Replicate {
  import opened Results
  import opened Retry

  const ModelId := "black-forest-labs/flux-schnell"

  const DefaultSize := 512

  const NoImageMessage := "No image generated"

  const TimeoutMessage := "Image generation timed out. Please try again."

  /** The overall per-prompt deadline of the Vercel handler, in ms. */
  const ApiTimeoutMs := 90000

  /** The `input` object sent to the model. */
  datatype ModelInput = ModelInput(
    prompt: string,
    width: int,
    height: int,
    numOutputs: int,
    aspectRatio: string,
    outputFormat: string,
    outputQuality: int,
    seed: Option<int>)

  /** What a successful model call resolves to: an array of output URLs, or
      some value that is not an array (such as `null`). */
  datatype ModelOutput = Outputs(urls: seq<string>) | NotAnArray

  /** The hosted model: for an input and the number of the attempt (0 for
      the first call with that input), the value the call resolves to or
      the message it rejects with. */
  type Provider = (ModelInput, nat) -> Result<ModelOutput>

  /** `GenerateImageParams`: absent width, height and seed are `None`. */
  datatype ImageParams = ImageParams(prompt: string, width: Option<int>, height: Option<int>, seed: Option<int>)

  /** The model input `generateImage` sends: width and height default to
      512, the seed key is present exactly when a seed is given, and the
      remaining settings are fixed. */
  function BuildInput(params: ImageParams): (r: ModelInput)
    ensures r.prompt == params.prompt
    ensures params.width.None? ==> r.width == DefaultSize
    ensures params.height.None? ==> r.height == DefaultSize
    ensures params.width.Some? ==> r.width == params.width.value
    ensures params.height.Some? ==> r.height == params.height.value
    ensures r.seed == params.seed
  {
    ModelInput(
      params.prompt,
      match params.width case Some(w) => w case None => DefaultSize,
      match params.height case Some(h) => h case None => DefaultSize,
      1, "1:1", "png", 90,
      params.seed)
  }

  /** The output check: a non-empty array yields its first element,
      anything else fails with "No image generated". */
  function FirstImage(output: ModelOutput): (r: Result<string>)
    ensures r.Ok? <==> output.Outputs? && |output.urls| > 0
    ensures r.Ok? ==> r.value == output.urls[0]
    ensures r.Err? ==> r.msg == NoImageMessage
  {
    match output
    case Outputs(urls) => if |urls| > 0 then Ok(urls[0]) else Err(NoImageMessage)
    case NotAnArray => Err(NoImageMessage)
  }

  /** "No image generated" mentions neither "Invalid" nor "required", so the
      retry wrapper treats it as transient. */
  lemma NoImageIsTransient()
    ensures !IsValidationError(NoImageMessage)
  {
    MessageWithoutMarkers(NoImageMessage);
  }

  /** The `k`-th model call on `input` followed by the output check: a
      rejected call propagates its message, an answer goes through
      `FirstImage`. */
  function ImageAttempt(input: ModelInput, provider: Provider, k: nat): (r: Result<string>)
    ensures provider(input, k).Ok? ==> r == FirstImage(provider(input, k).value)
    ensures provider(input, k).Err? ==> r == Err(provider(input, k).msg)
  {
    match provider(input, k)
    case Err(m) => Err(m)
    case Ok(output) => FirstImage(output)
  }

  /** `generateImage(params)` of the Express server: one model call, whose
      rejection propagates unchanged. */
  function GenerateImage(params: ImageParams, provider: Provider): (r: Result<string>)
    ensures r.Ok? ==> provider(BuildInput(params), 0).Ok?
                      && FirstImage(provider(BuildInput(params), 0).value) == r
    ensures provider(BuildInput(params), 0).Ok? ==> r == FirstImage(provider(BuildInput(params), 0).value)
    ensures provider(BuildInput(params), 0).Err? ==> r == Err(provider(BuildInput(params), 0).msg)
  {
    ImageAttempt(BuildInput(params), provider, 0)
  }

  /** `baseSeed ? baseSeed + index * 1000 : undefined`. */
  function SeedFor(baseSeed: Option<int>, index: nat): Option<int> {
    if baseSeed.Some? && baseSeed.value != 0 then Some(baseSeed.value + index * 1000) else None
  }

  /** With a non-zero base seed every prompt gets its own seed; with no
      base seed, or base seed 0, no prompt gets one. */
  lemma SeedsDistinct(baseSeed: Option<int>, i: nat, j: nat)
    ensures (baseSeed.None? || baseSeed.value == 0) ==> SeedFor(baseSeed, i).None?
    ensures baseSeed.Some? && baseSeed.value != 0 && i != j ==>
      SeedFor(baseSeed, i).Some? && SeedFor(baseSeed, i) != SeedFor(baseSeed, j)
  {
  }

  /** The parameters `generateMultipleImages` hands to `generateImage`, one
      per prompt, in prompt order. */
  function ImageRequests(prompts: seq<string>, baseSeed: Option<int>): (r: seq<ImageParams>)
    ensures |r| == |prompts|
    ensures forall i :: 0 <= i < |r| ==> r[i] == ImageParams(prompts[i], None, None, SeedFor(baseSeed, i))
  {
    seq(|prompts|, i requires 0 <= i < |prompts| => ImageParams(prompts[i], None, None, SeedFor(baseSeed, i)))
  }

  /** `Promise.all` over already-settled outcomes: every value in order when
      all succeed, otherwise the first failure (in index order). */
  function CollectAll<T>(rs: seq<Result<T>>): (r: Result<seq<T>>)
    ensures r.Ok? <==> forall i :: 0 <= i < |rs| ==> rs[i].Ok?
    ensures r.Ok? ==> |r.value| == |rs| && forall i :: 0 <= i < |rs| ==> r.value[i] == rs[i].value
    ensures r.Err? ==> exists i :: 0 <= i < |rs| && rs[i] == Err(r.msg) && forall j :: 0 <= j < i ==> rs[j].Ok?
    decreases |rs|
  {
    if rs == [] then Ok([])
    else match rs[0]
      case Err(m) => Err(m)
      case Ok(v) =>
        var rest := CollectAll(rs[1..]);
        assert forall i :: 1 <= i < |rs| ==> rs[i] == rs[1..][i - 1];
        match rest
        case Err(m) => Err(m)
        case Ok(vs) => Ok([v] + vs)
  }

  /** `generateMultipleImages(prompts, baseSeed)`. */
  function GenerateMultipleImages(prompts: seq<string>, baseSeed: Option<int>, provider: Provider): (r: Result<seq<string>>)
  {
    var requests := ImageRequests(prompts, baseSeed);
    CollectAll(seq(|prompts|, i requires 0 <= i < |prompts| => GenerateImage(requests[i], provider)))
  }

  /** All-or-nothing in prompt order: on success there is one URL per
      prompt, URL i coming from the call for prompt i with seed
      `SeedFor(baseSeed, i)`; the whole call fails exactly when some prompt's
      generation fails, with the message of such a failure. */
  lemma GenerateMultipleImagesSpec(prompts: seq<string>, baseSeed: Option<int>, provider: Provider)
    ensures var r := GenerateMultipleImages(prompts, baseSeed, provider);
      && (r.Ok? <==> forall i :: 0 <= i < |prompts| ==>
            GenerateImage(ImageParams(prompts[i], None, None, SeedFor(baseSeed, i)), provider).Ok?)
      && (r.Ok? ==> |r.value| == |prompts| && forall i :: 0 <= i < |prompts| ==>
            r.value[i] == GenerateImage(ImageParams(prompts[i], None, None, SeedFor(baseSeed, i)), provider).value)
      && (r.Err? ==>
            (exists i :: 0 <= i < |prompts|
               && GenerateImage(ImageParams(prompts[i], None, None, SeedFor(baseSeed, i)), provider) == Err(r.msg)))
  {
    var requests := ImageRequests(prompts, baseSeed);
    var rs := seq(|prompts|, i requires 0 <= i < |prompts| => GenerateImage(requests[i], provider));
    assert forall i :: 0 <= i < |prompts| ==>
      rs[i] == GenerateImage(ImageParams(prompts[i], None, None, SeedFor(baseSeed, i)), provider);
  }

  /** A model that resolves every call to a non-empty array of URLs. */
  ghost predicate AlwaysAnswers(provider: Provider) {
    forall input, k :: provider(input, k).Ok? && provider(input, k).value.Outputs?
                       && |provider(input, k).value.urls| > 0
  }

  /** Against such a model every prompt yields an image, so the whole call
      succeeds with one URL per prompt. */
  lemma AnsweredAllSucceed(prompts: seq<string>, baseSeed: Option<int>, provider: Provider)
    requires AlwaysAnswers(provider)
    ensures GenerateMultipleImages(prompts, baseSeed, provider).Ok?
    ensures |GenerateMultipleImages(prompts, baseSeed, provider).value| == |prompts|
  {
    GenerateMultipleImagesSpec(prompts, baseSeed, provider);
  }

  /** The model inputs `generateMultipleImages` submits: one per prompt, in
      prompt order, each 512 by 512 and carrying the derived seed. An empty
      prompt list submits nothing and yields an empty list. */
  lemma GenerateMultipleImagesInputs(prompts: seq<string>, baseSeed: Option<int>, provider: Provider)
    ensures var inputs := seq(|prompts|, i requires 0 <= i < |prompts| => BuildInput(ImageRequests(prompts, baseSeed)[i]));
      && |inputs| == |prompts|
      && forall i :: 0 <= i < |prompts| ==>
           && inputs[i].prompt == prompts[i]
           && inputs[i].width == 512 && inputs[i].height == 512
           && inputs[i].seed == SeedFor(baseSeed, i)
    ensures prompts == [] ==> GenerateMultipleImages(prompts, baseSeed, provider) == Ok([])
  {
  }

  /** The model input the Vercel handler sends for one prompt: always
      512 by 512 and always with a seed. */
  function VercelInput(prompt: string, seed: int): (r: ModelInput)
    ensures r == BuildInput(ImageParams(prompt, None, None, Some(seed)))
  {
    ModelInput(prompt, 512, 512, 1, "1:1", "png", 90, Some(seed))
  }

  /** The run of `withRetry(generateFn, 2, 2000)` in the Vercel
      `generateImage`: attempt `k` is the `k`-th model call on the Vercel
      input, with the output check. */
  function VercelRun(prompt: string, seed: int, provider: Provider): RetryRun<string> {
    WithRetry(VercelCalls(prompt, seed, provider), 2, 2000)
  }

  /** The Vercel `generateFn` as a sequence of attempts. */
  function VercelCalls(prompt: string, seed: int, provider: Provider): nat -> Result<string> {
    (k: nat) => ImageAttempt(VercelInput(prompt, seed), provider, k)
  }

  /** The Vercel `generateImage`: the model call with the output check,
      retried by `withRetry(generateFn, 2, 2000)`, raced against the
      90-second deadline. `timedOut` says whether the deadline fired first. */
  function VercelGenerateImage(prompt: string, seed: int, provider: Provider, timedOut: bool): (r: Result<string>)
    ensures timedOut ==> r == Err(TimeoutMessage)
    ensures !timedOut && r.Ok? ==>
      exists k :: 0 <= k < 2 && provider(VercelInput(prompt, seed), k).Ok?
                  && FirstImage(provider(VercelInput(prompt, seed), k).value) == r
  {
    if timedOut then Err(TimeoutMessage)
    else
      var run := VercelRun(prompt, seed, provider);
      assert run.outcome.Ok? ==>
        ImageAttempt(VercelInput(prompt, seed), provider, run.attempts - 1) == run.outcome;
      run.outcome
  }

  /** Before the deadline, the Vercel result is the outcome of its retry
      run. */
  lemma VercelOutcome(prompt: string, seed: int, provider: Provider)
    ensures VercelGenerateImage(prompt, seed, provider, false) == VercelRun(prompt, seed, provider).outcome
  {
  }

  /** A first attempt that yields an image, or that is rejected with a
      message containing "Invalid" or "required", is the answer: one call,
      no wait. */
  lemma VercelFirstDecides(prompt: string, seed: int, provider: Provider)
    requires !Transient(ImageAttempt(VercelInput(prompt, seed), provider, 0))
    ensures VercelRun(prompt, seed, provider)
         == RetryRun(ImageAttempt(VercelInput(prompt, seed), provider, 0), 1, [])
  {
    RetryStopsAtFirstDecisive(VercelCalls(prompt, seed, provider), 2, 2000, 0);
    assert Backoff(2000, 0) == [];
  }

  /** Any other first failure is retried once after 2000 ms, and the second
      attempt's outcome is the answer, whatever it is. */
  lemma VercelSecondDecides(prompt: string, seed: int, provider: Provider)
    requires Transient(ImageAttempt(VercelInput(prompt, seed), provider, 0))
    ensures VercelRun(prompt, seed, provider)
         == RetryRun(ImageAttempt(VercelInput(prompt, seed), provider, 1), 2, [2000])
  {
    var calls := VercelCalls(prompt, seed, provider);
    if Transient(calls(1)) {
      ImageRetrySchedule(calls);
    } else {
      RetryStopsAtFirstDecisive(calls, 2, 2000, 1);
      assert Backoff(2000, 1) == [2000];
    }
  }

  /** The four ways a Vercel image request ends before the deadline, with
      `a0` and `a1` the outcomes of the first and second attempt:
      - a first attempt that yields an image is the answer, after one call;
      - a first attempt rejected with a message containing "Invalid" or
        "required" is the answer, after one call and no wait;
      - any other first failure, "No image generated" included, is retried
        once after 2000 ms, and the second attempt's image is the answer;
      - if that second attempt fails too, its error is the answer. */
  lemma VercelGenerateImageCases(prompt: string, seed: int, provider: Provider)
    ensures var a0 := ImageAttempt(VercelInput(prompt, seed), provider, 0);
            a0.Ok? ==> VercelGenerateImage(prompt, seed, provider, false) == a0
                       && VercelRun(prompt, seed, provider).attempts == 1
    ensures var a0 := ImageAttempt(VercelInput(prompt, seed), provider, 0);
            a0.Err? && IsValidationError(a0.msg) ==>
              VercelGenerateImage(prompt, seed, provider, false) == a0
              && VercelRun(prompt, seed, provider) == RetryRun(a0, 1, [])
    ensures var a0 := ImageAttempt(VercelInput(prompt, seed), provider, 0);
            var a1 := ImageAttempt(VercelInput(prompt, seed), provider, 1);
            Transient(a0) && a1.Ok? ==>
              VercelGenerateImage(prompt, seed, provider, false) == a1
              && VercelRun(prompt, seed, provider) == RetryRun(a1, 2, [2000])
    ensures var a0 := ImageAttempt(VercelInput(prompt, seed), provider, 0);
            var a1 := ImageAttempt(VercelInput(prompt, seed), provider, 1);
            Transient(a0) && a1.Err? ==>
              VercelGenerateImage(prompt, seed, provider, false) == Err(a1.msg)
              && VercelRun(prompt, seed, provider) == RetryRun(a1, 2, [2000])
    ensures provider(VercelInput(prompt, seed), 0).Ok?
            && FirstImage(provider(VercelInput(prompt, seed), 0).value).Err? ==>
              Transient(ImageAttempt(VercelInput(prompt, seed), provider, 0))
  {
    NoImageIsTransient();
    VercelOutcome(prompt, seed, provider);
    if Transient(ImageAttempt(VercelInput(prompt, seed), provider, 0)) {
      VercelSecondDecides(prompt, seed, provider);
    } else {
      VercelFirstDecides(prompt, seed, provider);
    }
  }

  /** The Vercel seed of prompt `index`: the clock reading taken while
      mapping that prompt (`now(index)`, standing for `Date.now()`) plus
      `index * 1000`. */
  function VercelSeed(now: nat -> int, index: nat): int {
    now(index) + index * 1000
  }

  /** As long as the clock does not run backwards while the prompts are
      mapped, the four Vercel seeds are pairwise distinct. */
  lemma VercelSeedsDistinct(now: nat -> int, i: nat, j: nat)
    requires forall a: nat, b: nat :: a <= b ==> now(a) <= now(b)
    requires i < j
    ensures VercelSeed(now, i) < VercelSeed(now, j)
  {
    assert now(i) <= now(j);
  }

  /** The Vercel fan-out: every prompt through `VercelGenerateImage` with its
      own seed, joined all-or-nothing. */
  function VercelGenerateAll(prompts: seq<string>, now: nat -> int, provider: Provider,
                             timedOut: nat -> bool): (r: Result<seq<string>>)
    ensures r.Ok? ==> |r.value| == |prompts| && forall i :: 0 <= i < |prompts| ==>
      VercelGenerateImage(prompts[i], VercelSeed(now, i), provider, timedOut(i)).Ok? &&
      r.value[i] == VercelGenerateImage(prompts[i], VercelSeed(now, i), provider, timedOut(i)).value
    ensures r.Err? <==>
      exists i :: 0 <= i < |prompts| && VercelGenerateImage(prompts[i], VercelSeed(now, i), provider, timedOut(i)).Err?
  {
    var rs := seq(|prompts|, i requires 0 <= i < |prompts| =>
                VercelGenerateImage(prompts[i], VercelSeed(now, i), provider, timedOut(i)));
    assert forall i :: 0 <= i < |prompts| ==>
      rs[i] == VercelGenerateImage(prompts[i], VercelSeed(now, i), provider, timedOut(i));
    CollectAll(rs)
  }
}
