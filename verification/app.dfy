/** The page component: its state, the guarded submit, how a settled
    request updates the state, the style list loaded on start, and the two
    display predicates (button disabled, grid shown). */
module App {
  import opened Text
  import opened Results
  import opened Catalog
  import opened GenerateHandler
  import opened Replicate
  import opened ClientApi

  const EnterPrompt := "Please enter a prompt"
  const SelectStyle := "Please select a style"
  const GenerateFailed := "Failed to generate icons"
  const StylesLoadFailed := "Failed to load styles. Please refresh the page."

  /** The component state. `selectedStyle` is `null` (None) or a number;
      `result` is the parsed success body. */
  datatype AppState = AppState(
    styles: seq<StylePreset>,
    prompt: string,
    selectedStyle: Option<int>,
    colors: seq<string>,
    loading: bool,
    error: Option<string>,
    result: Option<ResponseBody>)

  const Initial := AppState([], "", None, [], false, None, None)

  /** `!selectedStyle` is false: a style is selected and its id is not 0. */
  predicate StyleChosen(selected: Option<int>) {
    selected.Some? && selected.value != 0
  }

  /** The arguments `generateIcons` is called with. */
  datatype Call = Call(prompt: string, styleId: int, colors: seq<string>)

  /** What pressing "Generate Icons" does: either only an error is set and
      nothing is sent, or the request starts with the state reset for it. */
  datatype SubmitOutcome =
    | Rejected(state: AppState)
    | Started(state: AppState, call: Call)

  /** `handleSubmit` up to the request: the prompt check, then the style
      check, then loading on, error and result cleared, and the call made with
      the untrimmed prompt and the colour list as they stand. */
  function Submit(st: AppState): (r: SubmitOutcome)
    ensures Blank(st.prompt) ==> r == Rejected(st.(error := Some(EnterPrompt)))
    ensures !Blank(st.prompt) && !StyleChosen(st.selectedStyle) ==> r == Rejected(st.(error := Some(SelectStyle)))
    ensures r.Started? <==> !Blank(st.prompt) && StyleChosen(st.selectedStyle)
    ensures r.Started? ==>
      && r.state == st.(loading := true, error := None, result := None)
      && r.call == Call(st.prompt, st.selectedStyle.value, st.colors)
  {
    TrimEmptyIffBlank(st.prompt);
    if Trim(st.prompt) == [] then Rejected(st.(error := Some(EnterPrompt)))
    else if st.selectedStyle.None? || st.selectedStyle.value == 0 then Rejected(st.(error := Some(SelectStyle)))
    else Started(st.(loading := true, error := None, result := None),
                 Call(st.prompt, st.selectedStyle.value, st.colors))
  }

  /** How the awaited `generateIcons` settled. */
  datatype Settled =
    | Resolved(body: ResponseBody)
    | ThrewError(message: string)
    | ThrewOther

  /** The `try`/`catch`/`finally` after the call: the result on success, the
      thrown message (or the fixed fallback for a non-`Error`) on failure, and
      loading off either way. */
  function Complete(st: AppState, settled: Settled): (r: AppState)
    ensures !r.loading
    ensures settled.Resolved? ==> r.result == Some(settled.body) && r.error == st.error
    ensures settled.ThrewError? ==> r.error == Some(settled.message) && r.result == st.result
    ensures settled.ThrewOther? ==> r.error == Some(GenerateFailed) && r.result == st.result
    ensures r.prompt == st.prompt && r.selectedStyle == st.selectedStyle && r.colors == st.colors
    ensures r.styles == st.styles
  {
    match settled
    case Resolved(body) => st.(result := Some(body), loading := false)
    case ThrewError(m) => st.(error := Some(m), loading := false)
    case ThrewOther => st.(error := Some(GenerateFailed), loading := false)
  }

  /** The outcome of `generateIcons` as the component sees it settle. */
  function SettledFrom(r: Result<ResponseBody>): Settled {
    match r
    case Ok(body) => Resolved(body)
    case Err(m) => ThrewError(m)
  }

  /** The style list fetched on mount: stored on success, otherwise the
      reload hint becomes the error. */
  function LoadStyles(st: AppState, fetched: Result<seq<StylePreset>>): (r: AppState)
    ensures fetched.Ok? ==> r == st.(styles := fetched.value)
    ensures fetched.Err? ==> r == st.(error := Some(StylesLoadFailed))
  {
    match fetched
    case Ok(list) => st.(styles := list)
    case Err(_) => st.(error := Some(StylesLoadFailed))
  }

  /** On start the page fetches the styles and stores them: exactly a 2xx
      response stores its list and leaves the error as it was; any other
      status keeps the old list and shows the reload hint. */
  lemma StylesOnStart(st: AppState, status: int, body: seq<StylePreset>)
    ensures var r := LoadStyles(st, FetchStyles(status, body));
      && (IsOk(status) ==> r.styles == body && r.error == st.error)
      && (!IsOk(status) ==> r.styles == st.styles && r.error == Some(StylesLoadFailed))
      && r.prompt == st.prompt && r.selectedStyle == st.selectedStyle && r.colors == st.colors
      && r.loading == st.loading && r.result == st.result
    ensures LoadStyles(Initial, FetchStyles(status, body)).error.None? <==> IsOk(status)
  {
  }

  /** `loading || !prompt.trim() || !selectedStyle`. */
  predicate ButtonDisabled(st: AppState) {
    st.loading || Trim(st.prompt) == [] || !StyleChosen(st.selectedStyle)
  }

  /** `result && !loading`. */
  predicate GridVisible(st: AppState) {
    st.result.Some? && !st.loading
  }

  /** While nothing is loading, a submit goes out exactly when the button is
      enabled; and the prompt check comes first, so a blank prompt without a
      style reports the prompt. */
  lemma SubmitMatchesButton(st: AppState)
    ensures !st.loading ==> (Submit(st).Started? <==> !ButtonDisabled(st))
    ensures Blank(st.prompt) && !StyleChosen(st.selectedStyle) ==> Submit(st).state.error == Some(EnterPrompt)
  {
    TrimEmptyIffBlank(st.prompt);
  }

  /** During a request the grid is hidden and the button disabled; once it
      succeeds the grid shows the new result with no error, and once it
      fails the grid stays hidden and the error is shown. */
  lemma RequestLifecycle(st: AppState, settled: Settled)
    requires Submit(st).Started?
    ensures var s := Submit(st).state; !GridVisible(s) && ButtonDisabled(s)
    ensures settled.Resolved? ==>
      var s := Complete(Submit(st).state, settled);
      GridVisible(s) && s.result == Some(settled.body) && s.error.None?
    ensures !settled.Resolved? ==>
      var s := Complete(Submit(st).state, settled);
      !GridVisible(s) && s.error.Some?
  {
  }

  /** End to end against the Express route with a model that always
      answers: submitting a prompt with a visible character and a catalog
      style shows a grid of four images with no error. */
  lemma SubmitShowsFourIcons(st: AppState, provider: Provider)
    requires !Blank(st.prompt) && st.selectedStyle.Some? && 1 <= st.selectedStyle.value <= 5
    requires AlwaysAnswers(provider)
    ensures Submit(st).Started?
    ensures var c := Submit(st).call;
      var s := Complete(Submit(st).state, SettledFrom(GenerateIcons(c.prompt, c.styleId, Some(c.colors), ExpressSend(provider))));
      && GridVisible(s) && s.error.None?
      && s.result.value.SuccessBody? && |s.result.value.images| == 4
      && s.result.value.style == Presets[st.selectedStyle.value - 1].name
  {
    TrimEmptyIffBlank(st.prompt);
    var c := Submit(st).call;
    assert c == Call(st.prompt, st.selectedStyle.value, st.colors);
    WellFormedBodySucceeds(c.prompt, c.styleId, c.colors, provider);
    var r := GenerateIcons(c.prompt, c.styleId, Some(c.colors), ExpressSend(provider));
    assert SettledFrom(r) == Resolved(r.value);
  }

  /** On first render the button is disabled and no grid is shown. */
  lemma InitialView()
    ensures ButtonDisabled(Initial) && !GridVisible(Initial)
  {
  }

  /** End to end with a blank prompt: nothing is sent and the prompt error
      is shown. */
  lemma BlankSubmitSendsNothing(st: AppState)
    requires Blank(st.prompt)
    ensures Submit(st).Rejected? && Submit(st).state.error == Some(EnterPrompt)
    ensures Submit(st).state.loading == st.loading && Submit(st).state.result == st.result
  {
  }
}
