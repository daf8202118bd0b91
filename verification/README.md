# Icon set generator — a Dafny model

The icon set generator takes a theme ("Toys"), one of five style presets and
up to four optional brand colours. It turns them into four text prompts and
has a hosted text-to-image model (flux-schnell) draw one icon per prompt. This
project models the generator's logic as pure Dafny functions and proves what
that logic promises.

What is modelled:

- the preset catalog and its lookup by id;
- the prompt composer, including the seven colour-phrase substitutions;
- the retry policy with exponential backoff;
- the all-or-nothing image fan-out, with its seed rules and the output check;
- the `/api/generate` request validation and responses, in both the Express
  route and the Vercel serverless function;
- the client's colour editor, its request helper, the file names and alt
  texts of the result grid, and the page's submit state machine.

Modules, one file each:

| file | module | models |
|---|---|---|
| results.dfy | `Results` | `Option` and `Result` (a value, or the message of a thrown `Error`) |
| text.dfy | `Text` | JavaScript `trim`, `includes`, `join`, global literal `replace`, ASCII `toUpperCase`, number rendering |
| json.dfy | `Json` | request-body values, JavaScript truthiness, `String()`/`join` text conversion |
| catalog.dfy | `Catalog` | `STYLE_PRESETS`, `getStyleById` |
| prompts.dfy | `Prompts` | `getIconVariations`, `generateIconPrompts` |
| retry.dfy | `Retry` | `withRetry` as a fold over per-attempt outcomes |
| replicate.dfy | `Replicate` | `generateImage`, `generateMultipleImages`, and the Vercel `generateImage` with its seed fan-out |
| handler.dfy | `GenerateHandler` | the Express route and the Vercel handler for `/api/generate` |
| colorinput.dfy | `ColorInput` | `isValidHexColor`, `normalizeHexColor`, `handleColorChange`, `addColor`, `removeColor` |
| clientapi.dfy | `ClientApi` | `generateIcons`, `fetchStyles`, `getProxyImageUrl` |
| icongrid.dfy | `IconGrid` | download file name, alt text, "Download All" order |
| app.dfy | `App` | `handleSubmit`, the settle step, the style load, the button and grid predicates |
| recolor.dfy | `Recolor` | the colour rewriting of each preset's modifier, phrase by phrase |

Things outside the program are parameters:

- The hosted model is `Provider`. It gives the answer to a model input on the
  n-th attempt with that input.
- The Vercel function's clock is `now`. It gives the `Date.now()` reading taken
  for prompt i.
- Whether the 90-second deadline fires first is `timedOut`.
- The client's network round trip is `send`.
- `encodeURIComponent` is `encode`.

`Promise.all` is modelled as a sequential all-or-nothing join.

The catalog and composer appear twice in the repository: `server/src/styles.ts`,
and a verbatim copy in `api/generate.ts:11-77`. They are modelled once, from
`styles.ts`. Likewise the validation chain is modelled once; both handlers use
it, and `HandlersAgreeOnValidation` relates them.

Where the code's own comments and tests promise more than the code does, the
model follows the code:

- `server/src/replicate.ts:59` says every image gets a different seed, and
  `server/src/__tests__/replicate.test.ts:173-182` checks four distinct seeds
  for the base seed 1000. The seed is `baseSeed + index * 1000` only when the
  base seed is truthy (`server/src/replicate.ts:60`), so a base seed of 0 sends
  no seed, and the Express route (`server/src/index.ts:65`) passes no base seed
  at all, so its calls carry no seed. `SeedsDistinct` proves distinct seeds for
  every non-zero base. The Vercel seeds `Date.now() + index * 1000` are
  distinct only while the clock does not run backwards; `VercelSeedsDistinct`
  proves exactly that.
- The style names are those of the catalog ("Gradient Line Art" and so on).
  `server/src/__tests__/styles.test.ts:43-63` expects other names for four of
  the five presets.

## Model

| member | source | states |
|---|---|---|
| Catalog.PresetIds | server/src/styles.ts:9-40 | the catalog has five presets whose ids are 1 to 5 in order, so ids are pairwise distinct |
| Catalog.Find | server/src/styles.ts:43 | `find` yields nothing exactly when no preset in the list has the id, and otherwise a preset of the list that carries it |
| Catalog.GetStyleById | server/src/styles.ts:42-44 | a preset is found exactly for ids 1 to 5, and it is the preset with that id; 0, 6, -1 and every other id find nothing |
| Prompts.IconVariations | server/src/styles.ts:82-90 | the reference list the prompt lemmas are stated against: one prompt per variation phrase, in first-to-fourth order, each the theme, " icon design, " and its phrase; `PromptsDistinct` shows the four differ |
| Prompts.GenerateIconPrompts | server/src/styles.ts:47-79 | exactly four prompts are produced |
| Prompts.PromptsDifferOnlyInVariation | server/src/styles.ts:53-88 | all four prompts share one head and one tail and differ only in the variation phrase, which appears in first-to-fourth order |
| Prompts.PromptsDistinct | server/src/styles.ts:84-89 | the four prompts are pairwise distinct for every theme, style and colour list |
| Prompts.PromptsContainThemeAndSize | server/src/styles.ts:74-77 | every prompt contains the theme, the token "512x512" and the modifier in use |
| Prompts.PromptsWithoutColors | server/src/styles.ts:55-77 | without colours a prompt is exactly the variation, ", ", the unmodified preset modifier and ", single icon, 512x512, high quality, isolated on background" |
| Prompts.PromptsWithColors | server/src/styles.ts:59-74 | with colours every prompt starts with "IMPORTANT: Use only these brand colors: " plus the " and "-joined colours and ". ", ends with "strictly use colors: " plus the same join, and contains every colour |
| Prompts.EmptyFirstColorKeepsPhrases | server/src/styles.ts:68-72 | with an empty first colour the `|| fallback` leaves the bubble and badge colour phrases unchanged |
| Prompts.ReplaceEachAbsent | server/src/styles.ts:65-72 | a text containing none of the patterns passes the whole substitution chain unchanged |
| Prompts.RecolorWithoutPatterns | server/src/styles.ts:65-72 | a modifier containing none of the seven colour phrases is not rewritten |
| Prompts.ReplaceEachThrough | server/src/styles.ts:65-72 | in a chain of global replacements where only step h finds its pattern, and the text it produces holds none of the later patterns, the chain gives that one step's result |
| Recolor.RecolorThrough | server/src/styles.ts:65-72 | recolouring a modifier in which only colour step h finds its phrase gives that step's rewrite |
| Recolor.RecolorAt | server/src/styles.ts:65-72 | a ", "-joined modifier whose only coloured item holds one colour phrase h once (h neither the plastic-material phrase nor "cyan and blue gradient") is recoloured by rewriting that item alone, when the item holds no earlier phrase and its rewrite no later one |
| Recolor.PlasticFacts | server/src/styles.ts:65-72 | when items j and j + 1, with the ", " between them, end in "blue plastic material, cyan and blue gradient" and no other item holds a colour phrase, the four earlier steps find nothing, the plastic step merges the two items into one, and the two later steps find nothing in the result |
| Recolor.RecolorGradientLineArt | server/src/styles.ts:14-72 | for colours whose join holds none of the seven phrases, the Gradient Line Art modifier keeps every item except "soft pastel gradient fill from lavender purple to soft pink to cream yellow", which becomes "soft pastel gradient fill from " and the join |
| Recolor.RecolorPlayfulBubble | server/src/styles.ts:20-72 | for such colours, the Playful Bubble modifier keeps every item except the bubble, which becomes "soft ", the first colour (or "purple-blue" when it is missing or empty) and " circular bubble background" |
| Recolor.RecolorWhimsicalClouds | server/src/styles.ts:26-72 | for such colours, the Whimsical Clouds modifier keeps every item except "soft pastel mint and pink colors", which becomes "soft ", the join and " colors" |
| Recolor.RecolorGlossy3D | server/src/styles.ts:32-72 | for such colours, the Glossy 3D items "shiny blue plastic material" and "cyan and blue gradient" merge into one item "shiny plastic material in " and the join, so the later "cyan and blue gradient" step finds nothing; every other item is kept |
| Recolor.RecolorCircleBadge | server/src/styles.ts:38-72 | for such colours, the Circle Badge modifier keeps every item except the badge, which becomes "white silhouette on ", the first colour (or "dark teal green" when it is missing or empty) and " circular background" |
| Text.ReplaceAllAbsent | server/src/styles.ts:65-72 | a global replace of a pattern that does not occur changes nothing |
| Text.ReplaceAllSelf | server/src/styles.ts:68 | replacing a pattern by itself changes nothing |
| Text.ReplaceAllFirstMatch | server/src/styles.ts:65-72 | the leftmost occurrence decides: the text before it is kept, it becomes the replacement, and replacing resumes right after it, so matches never overlap (`ReplaceAllNonOverlapping`: "aaa" with "aa" to "b" gives "ba") |
| Text.ReplaceOnce | server/src/styles.ts:65-72 | a pattern that occurs once, after a prefix that neither holds it nor ends in a beginning of it, is replaced there and nowhere else |
| Text.JoinReplaceAt | server/src/styles.ts:65-72 | in a joined list whose separator no occurrence can straddle, a pattern held once by a single element is replaced inside that element only |
| Text.JoinReplaceAcross | server/src/styles.ts:65-72 | a pattern that occurs once, across the separator between two neighbouring elements, is replaced by merging the two elements around the replacement |
| Text.JoinContainsEach | server/src/styles.ts:60 | the joined colour string contains every colour |
| Json.JoinText | server/src/styles.ts:60 | `join` renders a string element as itself |
| Text.TrimStart | server/src/index.ts:37 | leading trim removes exactly a blank prefix and stops at a non-white-space character |
| Text.TrimEnd | server/src/index.ts:37 | trailing trim removes exactly a blank suffix and stops at a non-white-space character |
| Text.Trim | server/src/index.ts:37 | `trim()` leaves no white space at either end and never lengthens |
| Text.TrimIsMiddle | server/src/index.ts:60 | the trimmed prompt is a contiguous slice of the prompt |
| Text.TrimEmptyIffBlank | server/src/index.ts:37 | `prompt.trim().length === 0` exactly when the prompt is all white space |
| Text.TrimIdempotent | server/src/index.ts:70 | trimming twice is trimming once |
| Retry.MessageWithoutMarkers | api/generate.ts:102 | a message without a capital 'I' and without a 'q' contains neither "Invalid" nor "required" |
| Retry.Backoff | api/generate.ts:106-110 | the reference schedule of n waits, the k-th being `baseDelay * 2^k`, against which `RetryStopsAtFirstDecisive` and `RetryExhausted` state the waits the loop records |
| Retry.RetryLoop | api/generate.ts:95-114 | attempts never exceed `maxRetries`; a success is the value of the last attempt; every earlier attempt failed transiently; waits are only appended |
| Retry.WithRetry | api/generate.ts:88-115 | at most `maxRetries` calls; with `maxRetries <= 0` no call and "Max retries exceeded"; a success is the last call's value; all earlier calls failed transiently |
| Retry.RetryStopsAtFirstDecisive | api/generate.ts:95-104 | the first success or validation failure ends the run with that outcome after k+1 calls and the waits `base * 2^j` for j < k |
| Retry.RetryExhausted | api/generate.ts:106-114 | when every attempt fails transiently, all attempts run, the last error is thrown, and there is no wait after the final attempt |
| Retry.ImageRetrySchedule | api/generate.ts:146-150 | with `(2, 2000)` two transient failures cost exactly one 2000 ms wait and the second error is thrown |
| Retry.LoopStops | api/generate.ts:95-110 | the loop from attempt a on stops at the first decisive attempt k with the backoff waits up to k |
| Retry.LoopExhausts | api/generate.ts:95-114 | the loop from attempt a on runs out after all transient failures with the waits up to the last but one attempt |
| Replicate.BuildInput | server/src/replicate.ts:22-37 | width and height default to 512, the prompt is passed through, and the seed is sent exactly when one is given; `VercelInput` shows the Vercel input is this one with the seed always present |
| Replicate.FirstImage | server/src/replicate.ts:42-46 | a non-empty array yields its first element; anything else fails with "No image generated" |
| Replicate.NoImageIsTransient | api/generate.ts:138-142 | "No image generated" mentions neither marker, so it is retried |
| Replicate.GenerateImage | server/src/replicate.ts:21-51 | one model call decides: an answer gives its first image, or "No image generated" through `FirstImage`, and a success always comes from such an answer; a rejected call's message propagates unchanged |
| Replicate.SeedsDistinct | server/src/replicate.ts:60 | with a non-zero base seed the per-prompt seeds are pairwise distinct; with none or 0 no seed is sent |
| Replicate.ImageRequests | server/src/replicate.ts:58-62 | one request per prompt, in order, each with seed `base + index * 1000` when the base is truthy; `SeedsDistinct` shows these seeds differ pairwise and `GenerateMultipleImagesInputs` that these are the inputs submitted |
| Replicate.CollectAll | server/src/replicate.ts:64 | all values in order when every outcome succeeds; otherwise fails with the message of the first failure |
| Replicate.GenerateMultipleImagesSpec | server/src/replicate.ts:53-66 | success exactly when every prompt's generation succeeds, with URL i coming from prompt i; otherwise the message of a failing prompt and no partial list |
| Replicate.GenerateMultipleImagesInputs | server/src/replicate.ts:58-64 | the submitted inputs are 512 by 512 and carry the derived seeds in prompt order; an empty prompt list yields an empty list |
| Replicate.AnsweredAllSucceed | server/src/replicate.ts:53-66 | when the model always returns a non-empty array, every prompt yields an image and the call succeeds with one URL per prompt |
| Replicate.VercelInput | api/generate.ts:125-134 | the Vercel input equals the server's input for the prompt with the seed always present |
| Replicate.VercelGenerateImage | api/generate.ts:120-151 | a fired deadline fails with the timeout message; otherwise a success is the first output of one of the two attempts |
| Replicate.VercelGenerateImageCases | api/generate.ts:88-151 | an image on the first attempt is the answer after one call; a first rejection mentioning "Invalid" or "required" is the answer after one call and no wait; any other first failure, "No image generated" included, is retried once after 2000 ms, and the second attempt's image or error is the answer |
| Replicate.VercelSeedsDistinct | api/generate.ts:194-197 | while the clock does not run backwards, `Date.now() + index * 1000` is strictly increasing in the index |
| Replicate.VercelGenerateAll | api/generate.ts:194-199 | success gives one URL per prompt in order; failure exactly when some prompt's generation fails |
| GenerateHandler.ColorList | server/src/index.ts:54-60 | an array of colours reaches the composer element by element; a falsy `colors` reaches it as no colours |
| GenerateHandler.Validate | server/src/index.ts:37-57 | the first failing check decides: prompt ("Prompt is required"), style id ("Style ID is required"), lookup ("Invalid style ID"), colours ("Colors must be an array"); success carries the trimmed prompt, the preset and the colours |
| GenerateHandler.HandleGenerate | server/src/index.ts:32-80 | 400 with the validation error, or 200 with exactly the generated list, trimmed prompt and style name, or 500 with "Failed to generate icons" and the underlying message |
| GenerateHandler.ValidationPrecedesGeneration | server/src/index.ts:37-65 | a request that fails validation gets the same 400 whatever the model would do |
| GenerateHandler.SuccessHasFourImages | server/src/index.ts:60-72 | a 200 response carries four images |
| GenerateHandler.ValidatedFields | server/src/index.ts:37-60 | a validated request carries on as its trimmed prompt, the preset its id names and its colour list |
| GenerateHandler.HandleValid | server/src/index.ts:59-72 | a validated request gets the response for its four composed prompts |
| GenerateHandler.RespondWhenModelAnswers | server/src/index.ts:60-72 | once validated, a model that always answers gives 200 with four images, the theme and the style's name |
| GenerateHandler.ServedWhenModelAnswers | server/src/index.ts:59-72 | the same for the whole route, stated against the validated request |
| GenerateHandler.SuccessWhenModelAnswers | server/src/index.ts:59-72 | a valid request with a model that always yields an image gets 200, four images, the trimmed prompt and the preset's name |
| GenerateHandler.RejectedWith | server/src/index.ts:37-57 | a request failing validation is answered with 400 and the validation message |
| GenerateHandler.MissingPromptRejected | server/src/index.ts:37-40 | a body without a prompt gets 400 "Prompt is required", whatever else it holds |
| GenerateHandler.UnknownStyleRejected | server/src/index.ts:47-51 | a visible prompt with a non-zero style id outside 1 to 5 (such as 6) gets 400 "Invalid style ID" |
| GenerateHandler.StringColorsRejected | server/src/index.ts:53-57 | a visible prompt, a catalog style and a non-empty string as `colors` (such as "#FF0000") get 400 "Colors must be an array" |
| GenerateHandler.ColorsChecked | server/src/index.ts:53-57 | with prompt and style accepted, a truthy non-array `colors` is the error |
| GenerateHandler.AcceptedExample | server/src/index.ts:37-60 | "Toys" with style 1 and no colours validates as "Toys", "Gradient Line Art" and no colours |
| GenerateHandler.VercelHandle | api/generate.ts:153-214 | OPTIONS gives 200 and any other non-POST gives 405 "Method not allowed", both before validation; POST validates, then answers from the retrying fan-out |
| GenerateHandler.HandlersAgreeOnValidation | api/generate.ts:170-185 | the Express route and the Vercel handler reject the same POST requests with the same 400 |
| ColorInput.CheckHexColor | client/src/components/ColorInput.tsx:5-7 | a one-pass scan accepts exactly "#" followed by 3 or 6 hex digits of either case |
| ColorInput.NormalizeForm | client/src/components/ColorInput.tsx:10-16 | the normalised colour is one '#' followed by the upper-cased trimmed input without its own leading '#' |
| ColorInput.NormalizeShape | client/src/components/ColorInput.tsx:10-16 | the result starts with '#', has no surrounding white space and no lower-case ASCII letter, and is one longer than the trimmed input exactly when that lacks a '#' |
| ColorInput.NormalizePrefixed | client/src/components/ColorInput.tsx:10-16 | a trimmed value that already starts with '#' only has its rest upper-cased |
| ColorInput.NormalizedValidIff | client/src/components/ColorInput.tsx:5-16 | a value normalises to a valid colour exactly when, trimmed and without a leading '#', it is three or six hex digits |
| ColorInput.NormalizeIdempotent | client/src/components/ColorInput.tsx:10-16 | normalising twice is normalising once |
| ColorInput.ValidColorNotFlagged | client/src/components/ColorInput.tsx:34 | a value that is already a valid colour never gets an error |
| ColorInput.WrongLengthFlagged | client/src/components/ColorInput.tsx:5-16 | a trimmed non-empty value without '#' whose length is neither 3 nor 6 is always flagged |
| ColorInput.DefaultColorValid | client/src/components/ColorInput.tsx:46 | the new-row colour "#667eea" is never flagged |
| ColorInput.HandleColorChange | client/src/components/ColorInput.tsx:28-42 | the list keeps its length, entry i becomes the value, the others are unchanged; the error for i is set exactly for a non-empty value that does not normalise to a valid colour; other errors are untouched |
| ColorInput.AddColor | client/src/components/ColorInput.tsx:44-48 | the list changes exactly when fewer than four colours are present, by appending "#667eea" |
| ColorInput.RepeatedAddCapped | client/src/components/ColorInput.tsx:44-48 | any number of adds keeps the existing colours and stops at four |
| ColorInput.RemoveColor | client/src/components/ColorInput.tsx:50-53 | exactly entry i is removed and the others keep their order; an index outside the list removes nothing |
| ColorInput.InitialErrorsMatch | client/src/components/ColorInput.tsx:26 | the empty error map matches the empty colour list |
| ColorInput.ChangeMatches | client/src/components/ColorInput.tsx:28-42 | for any flag test, replacing one row and setting or deleting its error by the new value keeps the error map matching the rows |
| ColorInput.AppendMatches | client/src/components/ColorInput.tsx:44-48 | for any flag test, appending an unflagged row keeps the error map matching |
| ColorInput.ChangeKeepsErrorsMatching | client/src/components/ColorInput.tsx:28-42 | editing a row keeps the errors in step with the flagged rows |
| ColorInput.AddKeepsErrorsMatching | client/src/components/ColorInput.tsx:44-48 | adding a row keeps the errors in step with the flagged rows |
| ColorInput.RemoveColorAsWritten | client/src/components/ColorInput.tsx:50-53 | removal as written drops the row but leaves the error map untouched; `RemoveAsWrittenMisplaces` shows this breaks the invariant that errors mark exactly the flagged rows |
| ColorInput.StaleEntryMismatch | client/src/components/ColorInput.tsx:50-53 | for any flag test, a flagged row before an unflagged one matches the map holding only row 0, and the unflagged row alone does not |
| ColorInput.RemoveAsWrittenMisplaces | client/src/components/ColorInput.tsx:50-53 | removing a flagged row in front of an unflagged one, as written, leaves an error on the unflagged row |
| ColorInput.ShortValueFlagged | client/src/components/ColorInput.tsx:34 | "x" gets the error |
| ColorInput.ShortHexNotFlagged | client/src/components/ColorInput.tsx:34 | "#FFF" gets no error |
| ColorInput.RemoveAsWrittenMisplacesError | client/src/components/ColorInput.tsx:50-53 | removing a flagged "x" before "#FFF" leaves "#FFF" marked invalid |
| ColorInput.ShiftErrors | client/src/components/ColorInput.tsx:50-53 | the re-indexed error map drops the removed row's entry and moves later entries down by one |
| ColorInput.ShiftMatches | client/src/components/ColorInput.tsx:50-53 | for any flag test, removing a row and re-indexing the errors keeps the map matching |
| ColorInput.RemoveReindexedKeepsErrorsMatching | client/src/components/ColorInput.tsx:50-53 | removal with re-indexed errors keeps the errors in step with the flagged rows |
| ClientApi.FilterBlank | client/src/api.ts:26 | a colour is kept exactly when it is not blank after trim; the result is never longer |
| ClientApi.FilterColors | client/src/api.ts:26 | an absent colour list stays absent; a present one is filtered |
| ClientApi.FilterBlankAppend | client/src/api.ts:26 | filtering splits over concatenation, so kept colours keep their order |
| ClientApi.FilterBlankKeepsClean | client/src/api.ts:26 | a list without blank entries is sent unchanged |
| ClientApi.FilterBlankIdempotent | client/src/api.ts:26 | filtering twice is filtering once |
| ClientApi.AsServerRequest | client/src/api.ts:23-27 | the server reads the posted prompt, style id and colours as sent, and no `colors` when none were sent |
| ClientApi.ErrorMessage | client/src/api.ts:30-33 | the thrown message is `message` if truthy, else `error` if truthy, else "Failed to generate icons" |
| ClientApi.ServerErrorMessages | client/src/api.ts:30-33 | the client shows the 400 error text, and for a 500 the underlying message (or the fallback when it is empty) |
| ClientApi.GenerateIcons | client/src/api.ts:13-36 | a 2xx response yields its body; any other yields the chosen error message |
| ClientApi.ServerSeesFilteredColors | client/src/api.ts:26 | the server composes with exactly the client's filtered colour list |
| ClientApi.BlankPromptRejected | client/src/api.ts:18-33 | a blank prompt sent to the Express route comes back as "Prompt is required" |
| ClientApi.BuiltBodyPassesChecks | client/src/api.ts:23-27 | the body built for a visible prompt and a non-zero style id passes the server's prompt, style-id and colours checks |
| ClientApi.WellFormedBodyValidates | client/src/api.ts:23-27 | a visible prompt with style 1 to 5 validates on the server as the trimmed prompt, that preset and the filtered colours |
| ClientApi.WellFormedBodySucceeds | client/src/api.ts:13-36 | with a model that always answers, the client receives four images, the trimmed prompt and the style's name |
| ClientApi.FetchStyles | client/src/api.ts:5-11 | the catalog on a 2xx response, otherwise "Failed to fetch styles" |
| ClientApi.ProxyImageUrl | client/src/api.ts:38-40 | the proxy URL is "/api/proxy-image?url=" followed by exactly the encoded image URL; `ProxyUrlInjective` shows distinct images keep distinct proxy URLs |
| ClientApi.ProxyUrlInjective | client/src/api.ts:38-40 | with an injective encoding, distinct image URLs give distinct proxy URLs |
| IconGrid.Dashify | client/src/components/IconGrid.tsx:20 | the dashified prompt has no white space and is never longer |
| IconGrid.DashifyKeepsLetters | client/src/components/IconGrid.tsx:20 | every character other than white space and '-' survives, unchanged and in order |
| IconGrid.DashifyWithoutWhitespace | client/src/components/IconGrid.tsx:20 | a prompt without white space is kept as it is |
| IconGrid.DashifyRun | client/src/components/IconGrid.tsx:20 | any run of white space between two words becomes exactly one '-' |
| IconGrid.DownloadFileName | client/src/components/IconGrid.tsx:20 | the file name has no white space and ends in ".png" |
| IconGrid.DownloadFileNameOfWord | client/src/components/IconGrid.tsx:20 | a prompt without white space is saved as itself, "-icon-", the 1-based number and ".png" (a single digit below 10), so "Toys" at index 0 becomes "Toys-icon-1.png" |
| IconGrid.DownloadFileNamesDistinct | client/src/components/IconGrid.tsx:20 | two indices of one prompt never share a file name |
| IconGrid.AltText | client/src/components/IconGrid.tsx:55 | the alt text is the prompt followed by exactly " icon " and the 1-based number; `AltTextsDistinct` shows different images get different alt texts |
| IconGrid.AltTextsDistinct | client/src/components/IconGrid.tsx:55 | different images of one grid have different alt texts |
| IconGrid.DownloadAll | client/src/components/IconGrid.tsx:31-36 | one download per image, in index order, each through the proxy under its file name with the original URL as fallback |
| IconGrid.DownloadAllNamesDistinct | client/src/components/IconGrid.tsx:31-36 | the files saved by "Download All" have pairwise distinct names |
| Text.ToUpper | client/src/components/ColorInput.tsx:15 | same length, each character upper-cased |
| Text.UpperCharFacts | client/src/components/ColorInput.tsx:15 | an upper-cased character is not a lower-case ASCII letter, is white space exactly when the original was, and upper-casing it again changes nothing |
| Text.ToUpperFacts | client/src/components/ColorInput.tsx:15 | after upper-casing no lower-case ASCII letter remains, white space stays where it was, and upper-casing again changes nothing |
| Text.NatToString | client/src/components/IconGrid.tsx:20 | the rendered index is a non-empty string of decimal digits |
| Text.ParseNatToString | client/src/components/IconGrid.tsx:20 | reading the rendered number back gives the number |
| Text.NatToStringInjective | client/src/components/IconGrid.tsx:55 | distinct numbers render differently |
| App.Submit | client/src/App.tsx:28-46 | a blank prompt only sets "Please enter a prompt"; otherwise a falsy style only sets "Please select a style"; otherwise loading on, error and result cleared, and the call carries the untrimmed prompt, the id and the colours |
| App.Complete | client/src/App.tsx:45-52 | success stores the result; an `Error` sets its message, anything else "Failed to generate icons"; loading is off and the inputs are untouched |
| App.LoadStyles | client/src/App.tsx:19-26 | the fetched styles are stored, or the reload hint becomes the error |
| App.StylesOnStart | client/src/App.tsx:19-26 | on start exactly a 2xx styles response (`client/src/api.ts:5-11`) stores its list and leaves the error alone; any other status keeps the old list and shows "Failed to load styles. Please refresh the page."; nothing else in the state changes |
| App.SubmitMatchesButton | client/src/App.tsx:31-98 | while idle a submit goes out exactly when the button is enabled; a blank prompt without a style reports the prompt |
| App.RequestLifecycle | client/src/App.tsx:41-107 | during a request the grid is hidden and the button disabled; success shows the grid with no error, failure hides it and shows an error |
| App.SubmitShowsFourIcons | client/src/App.tsx:28-53 | against the Express route with a model that always answers, a visible prompt and a catalog style end with a grid of four icons and no error |
| App.BlankSubmitSendsNothing | client/src/App.tsx:31-34 | a blank prompt sends nothing and leaves loading and result as they were |
| App.InitialView | client/src/App.tsx:12-17 | on first render the button is disabled and no grid is shown |

## Left out

- Text.ToUpper: upper-cases ASCII letters only. JavaScript also upper-cases other scripts, and some characters expand into several (such as 'ß' to "SS" and 'ﬀ' to "FF"). So "ﬀf" normalises in JavaScript to the valid "#FFF", while the model keeps 'ﬀ' and flags the value.
- ColorInput.NormalizedValidIff: holds for the ASCII upper-casing of `Text.ToUpper`. With JavaScript's full upper-casing a value such as "ﬀf", which is not three hex digits, normalises to a valid colour.
- ColorInput.WrongLengthFlagged: holds for the ASCII upper-casing. In JavaScript the two-character "ﬀf" normalises to "#FFF" and is not flagged.
- ColorInput.NormalizeShape: the length relation holds for the ASCII upper-casing. JavaScript's expanding upper-casing can make the result longer.
- Text.ReplaceAll: the replacement is inserted literally. JavaScript interprets `$&`, `$1` and `$$` in a replacement string, so a colour containing '$' would come out differently.
- GenerateHandler.ColorList: every array element reaches the composer as its `join` text, and `FirstOr` tests that text. JavaScript tests the element itself in `colors[0] || fallback`. The two differ for a first element `0` or `false`, which is falsy but renders as "0" or "false", and for a first element that is an array, which is truthy even when it renders as the empty string.
- GenerateHandler.HandleGenerate: every failure of the model call is an `Error` with a message. A rejection with a non-`Error` value, which both handlers answer with the message "Unknown error", is not modelled.
- GenerateHandler.Validate: numbers are integers. A fractional or NaN style id, and a body that is not an object (destructuring throws, then 500), are not modelled.
- Replicate.GenerateMultipleImagesSpec: on failure the message is that of the lowest-index failing prompt. `Promise.all` reports whichever failure settles first in time.
- Replicate.VercelGenerateImage: the 90-second deadline is a flag given per prompt. The model does not reproduce the timer race, nor the retry that keeps running after the deadline fires.
- Replicate.VercelSeedsDistinct: the clock is a parameter. `Date.now()` is not modelled.
- ColorInput.HandleColorChange: requires the index to be a row of the list. The component only calls it from a rendered row; JavaScript would extend the array with holes.
- ClientApi.GenerateIcons: a response body that is not JSON, and a fetch that rejects before any response, are not modelled; an empty `OPTIONS` body is never parsed by the client.
- Logging, `dotenv`, `app.listen`, the health route and the CORS headers are left out, being I/O with no logic.
- The image proxy endpoints (`api/proxy-image.ts`, the Express proxy route) are left out: they are network fetch and byte streaming.
- `api/styles.ts` and the Express styles route return the catalog verbatim, and the catalog is modelled.
- `StyleSelector` and `LoadingSpinner` only render.
- The blob, object URL and anchor mechanics of a download, and the 300 ms pause between downloads, are left out; the order of downloads is modelled.
- The hosted model call, `fetch` and `encodeURIComponent` are foreign calls, passed in as parameters.

- Recolor.RecolorGradientLineArt: stated for colours whose join holds none of the seven colour phrases. A colour that is itself such a phrase (for instance "pink to purple to yellow") is rewritten again by a later step, and that case is not stated per preset.
- Recolor.RecolorPlayfulBubble: stated for colours whose join holds none of the seven colour phrases, for the same reason.
- Recolor.RecolorWhimsicalClouds: stated for colours whose join holds none of the seven colour phrases, for the same reason.
- Recolor.RecolorGlossy3D: stated for colours whose join holds none of the seven colour phrases, for the same reason.
- Recolor.RecolorCircleBadge: stated for colours whose join holds none of the seven colour phrases, for the same reason.

## Findings

| source | as written | input that shows it | evidently intended | confidence | as-written member | corrected member |
|---|---|---|---|---|---|---|
| client/src/components/ColorInput.tsx:50-53 | `removeColor` filters the colour list but leaves the index-keyed error map as it was | colours ["x", "#FFF"] with the error on row 0, then remove row 0 | the errors move with their rows: the removed row's error goes, later errors shift down by one | medium, not executed | ColorInput.RemoveAsWrittenMisplacesError | ColorInput.RemoveReindexedKeepsErrorsMatching |

After that removal, "#FFF" sits in row 0 and is shown as "Invalid HEX format"
although it is valid. `ColorInput.RemoveColorAsWritten` is the removal as
written, and `ColorInput.RemoveAsWrittenMisplaces` shows the mismatch for
every flagged row followed by an unflagged one. `ColorInput.RemoveColorReindexed` re-indexes the errors with
`ColorInput.ShiftErrors`. `ColorInput.ErrorsMatch` is the invariant that the
error map records exactly the flagged rows. It holds initially, editing and
adding rows preserve it, and the corrected removal preserves it.
