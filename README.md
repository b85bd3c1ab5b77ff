# Forced-choice image-quality survey, modelled in Dafny

This project models the core of a forced-choice image-quality survey. A
respondent goes through a deck of slides:

- information slides;
- form slides, with required, anonymous, dependent and date fields;
- comparison slides, where the respondent picks the better of two images of a scene.

An interactive binary-insertion sorter turns those picks into a ranking of
each scene's images. The application shell assembles the deck from a survey
configuration and an image manifest. It derives a respondent identity, writes
session documents with a merge, and stores the cleaned result without
overwriting an earlier one.

The project has six modules:

- `Sorter` (`sorter.dfy`): the class `BinarySorter` from `src/utils/sorter.js`.
  - Its fields and methods are those of the source.
  - The tail recursion of `step`/`nextPair` is a `while` loop.
  - `Valid()` is the invariant kept between calls.
  - `RankBy` drives a sorter with the answers of a respondent who follows a fixed strict order. Its contract states three things:
    - the result is a permutation of the items, ranked best first;
    - each item after the first costs between 1 and ceil(log2(k + 2)) comparisons;
    - those costs add up to the answers the sorter recorded, counted by its ghost field `asked`, which only `record` increments.
  - The lemma `RankingIsUnique` adds that such a ranking is the only one, so the result is the respondent's order itself.
- `App` (`app.dfy`): the functions of `src/App.js` and its component state, as the class `AppState`.
  - Firestore's `sessions` and `results` collections are two map fields.
  - Identity derivation, the session merge, `deepClean`, the survey selector and deck assembly are functions.
  - The Fisher–Yates shuffle, the scene-prefix expansion and the push-by-push deck assembly are loops.
  - `saveWithRetry`, `handleStart`, `handleComplete` and `init` are methods that update the store.
  - `Mount` runs the load effect as React does on first render: once with the initial surveyId and, when the URL names another survey, once more.
- `Renderer` (`renderer.dfy`): the slide flow of `src/components/SlideRenderer.js`, as the class `Controller`.
  - Its fields are the component's state and refs.
  - Each handler is a method.
  - The effects React runs after a change of slide are the method `Enter`. A ghost flag, `entryPending`, marks the states in which they are due.
- `Survey` (`survey.dfy`): the shared values: slides, fields, answers, conditions, the comparison log, the result and a JSON value type.
- `Strings` (`strings.dfy`): `trim`, `toLowerCase`, `startsWith`, and the SHA-256 wrapper of `src/utils/hash.js`.
- `Wrappers` (`wrappers.dfy`): `Option`.

Clock readings, `Math.random` draws, `uuidv4` values and the SHA-256 digest
are parameters. The digest is an arbitrary `string -> string` function.

The model follows the code where it behaves differently from what a reader
of the surrounding code would expect:

- **Hidden required fields.** `handleFormNext` checks every field of the slide, including a required dependent field hidden by its `dependsOn` condition. Such a field blocks the form while its answer is falsy (`HiddenRequiredBlocks`). The browser already stops the submit while a shown required field is empty (`SubmitBlockedIff`), so the alert can only ever name a hidden field (`AlertOnlyForHidden`). A reader would expect a field the form does not show to be exempt, since the respondent has no way to fill it in.
- **Any winner is accepted.** `record` accepts any value as the winner. Anything other than the current item counts as a win for the pivot. A reader would expect a value outside the pair to be refused, since it is not an answer to the question asked.
- **Comparison slides with fewer than two images.** `start` reports completion immediately. The controller then has no pair to show, and no handler can leave the slide (`StalledOnShortScene`). A reader would expect the scene to count as ranked and the survey to move on.
- **Letter case of names.** The hash wrapper trims and lower-cases every input. So the name path of `deriveBaseId` is case-insensitive (`SameNameSameId`), although only the e-mail is lower-cased at the call site.
- **Checkbox answers.** An e-mail or name answer that is a checkbox value makes `deriveBaseId` throw (`None`), because booleans have no `trim`. The function has no error handling of its own, and its callers expect it to return an id.
- **The first load uses survey1.** The load effect stores the survey the URL names, but `init` fetches the configuration of the surveyId the effect closed over, which is survey1 on first render. Only the re-run that the state change triggers fetches the named survey. When that second fetch fails, survey1's deck stays while surveyId names the other survey, and the result is later saved under the respondent's id (or a fresh one if that is taken), with its `surveyId` field naming the other survey (`Mount`).

## Model

| member | source | states |
|---|---|---|
| Sorter.Insert | src/utils/sorter.js:43 | `splice(k, 0, x)`: x is at k, entries before k are unchanged, entries from k move one to the right, and the multiset grows by x |
| Sorter.BinarySorter.constructor | src/utils/sorter.js:15-22 | a new sorter holds the items, an empty `sorted`, and zero indices |
| Sorter.BinarySorter.Start | src/utils/sorter.js:25-29 | seeds `sorted` with items[0]; with one item it returns no pair and `sorted == items`; otherwise it returns the pair (items[1], items[0]) over the window [0, 1) |
| Sorter.BinarySorter.NextPair | src/utils/sorter.js:32-37 | returns no pair exactly when every item is placed; otherwise opens the full window and returns the sorter's outstanding pair |
| Sorter.BinarySorter.Step | src/utils/sorter.js:40-49 | a non-empty window yields the pair at its midpoint with nothing changed; an empty one splices the item in at `lo` and opens the next item's window, or completes with `sorted` a permutation of the items |
| Sorter.BinarySorter.Record | src/utils/sorter.js:52-60 | a win for the new item keeps [lo, mid) and any other value keeps [mid + 1, hi); the window strictly shrinks or the item is placed; `Valid()` is kept; the count of answers grows by one |
| Sorter.AnsweredNarrows | src/utils/sorter.js:52-60 | the state record leaves is the narrowed window, or the item spliced in where that window closed, stated on the field values |
| Sorter.BinarySorter.Current | src/utils/sorter.js:47-48 | the outstanding pair is (items[i], sorted[mid]) with lo <= mid < hi: the new item on the left, the pivot on the right |
| Sorter.RankBy | src/utils/sorter.js:25-60 | driving the sorter with a fixed strict order yields a permutation of the items, ranked best first, in the returned sorter's `sorted`; item k + 1 costs between 1 and BitLength(k + 1) comparisons, and the costs sum to the answers that sorter recorded |
| Sorter.AnswerBy | src/utils/sorter.js:52-59 | one answer is one recorded comparison: it keeps RankBy's progress invariant (ranked prefix, window facts, cost budget); a shrunk window adds it to the current item's count, and a placed item files that count plus it as the item's cost |
| Sorter.AnswerKeepsProgress | src/utils/sorter.js:52-59 | the state after a truthful answer keeps the progress invariant, shows the sorter's next pair, and either advances the cursor or strictly shrinks the window |
| Sorter.PlacedKeepsProgress | src/utils/sorter.js:43-45 | splicing the item in where its window closed keeps the ranked prefix, and its cost, within the budget, is filed with the next item's window opened |
| Sorter.SumAppend | src/utils/sorter.js:52-59 | filing one more cost adds it to the total |
| Sorter.OneAnswer | src/utils/sorter.js:52-59 | under a consistent respondent, a record step keeps the window facts, at least halves the window, and splices the placed item between the entries it loses to and those it beats |
| Sorter.Narrow | src/utils/sorter.js:54-58 | by transitivity, a truthful answer about the pivot extends the window facts to the half that is dropped |
| Sorter.HalvedWindow | src/utils/sorter.js:47-58 | either half left after a comparison is at most half the window, so its BitLength drops by at least one |
| Sorter.InsertKeepsRanked | src/utils/sorter.js:43 | splicing x in after everything preferred to it and before everything it is preferred to keeps `sorted` ranked |
| Sorter.NewItemIsNotPlaced | src/utils/sorter.js:43-44 | with distinct items, the item being placed is none of those already in `sorted` |
| Sorter.RankingIsUnique | src/utils/sorter.js:25-60 | two rankings of the same items by the same strict order are equal, so RankBy's result is the order itself |
| Sorter.TotalCostBounds | src/utils/sorter.js:34-47 | per-item costs within [1, BitLength(k + 1)] total between n - 1 and (n - 1) * ceil(log2 n) comparisons for n items |
| Sorter.BitLengthIsLog2 | src/utils/sorter.js:47 | BitLength(n) is the b with 2^(b-1) <= n < 2^b, the ceiling of log2(n + 1) |
| Strings.IsSpace | src/App.js:16 | the whitespace that `trim()` cuts includes space, tab, line feed and carriage return, and never a letter or a digit |
| Strings.StartsWith | src/App.js:114 | `startsWith(prefix)` holds exactly when the prefix fits and agrees with the string position by position, so the string is the prefix followed by a rest |
| Strings.TrimStart | src/utils/hash.js:10 | the result is a suffix of the input, everything removed is whitespace, and it does not start with whitespace |
| Strings.TrimEnd | src/utils/hash.js:10 | the result is a prefix of the input, everything removed is whitespace, and it does not end with whitespace |
| Strings.Trim | src/utils/hash.js:10 | `trim()`: the result is no longer than the input and neither starts nor ends with whitespace |
| Strings.TrimIsSlice | src/utils/hash.js:10 | `trim()` returns a contiguous part of the input, and everything cut on either side is whitespace |
| Strings.Lower | src/utils/hash.js:10 | `toLowerCase()`: same length, each character folded by LowerChar |
| Strings.Sha256 | src/utils/hash.js:9-10 | the hash of a string equals the hash of its trimmed lower-cased form, so normalising before the call changes nothing |
| Strings.LowerChar | src/utils/hash.js:10 | A-Z map to a-z, every other character is unchanged, and whitespace is preserved both ways |
| Strings.TrimIdempotent | src/utils/hash.js:10 | trimming twice is trimming once |
| Strings.TrimLowerCommute | src/utils/hash.js:10 | trimming and lower-casing commute |
| Strings.NormalizeIdempotent | src/utils/hash.js:9-10 | the wrapper's normalisation is idempotent, so pre-normalising its input changes no hash |
| Strings.Sha256CaseInsensitive | src/utils/hash.js:9-10 | inputs that agree after lower-casing hash alike |
| App.DeriveBaseId | src/App.js:14-22 | a truthy e-mail gives the hash of its trimmed lower-cased form; otherwise a truthy name gives the hash of its trimmed form; otherwise the uuid; a checkbox value throws |
| App.SameEmailSameId | src/App.js:15-17 | e-mails equal up to surrounding whitespace and letter case give the same id, whatever the names and uuids |
| App.SameNameSameId | src/App.js:18-20 | without e-mails, names equal up to letter case give the same id |
| App.SessionPayload | src/App.js:27-33 | the payload has userId = baseId, the status, and timestampStart exactly when the status is started, otherwise timestampEnd; nothing else |
| App.Merge | src/App.js:34-35 | a merge write keeps every stored key, and the payload's fields overwrite the stored ones |
| App.SessionLifecycle | src/App.js:25-36 | writing started and then completed leaves userId, status completed, and both time stamps |
| App.AppState.WriteSession | src/App.js:25-36 | only the session document of baseId changes, to the merge of the stored document and the payload |
| App.Draw | src/App.js:42 | `Math.floor(x * n)` for x in [0, 1) is an index below n |
| App.SwapPermutes | src/App.js:43 | exchanging two entries keeps the multiset |
| App.Shuffle | src/App.js:39-46 | the result has the input's length and is a permutation of it; the input is a value and stays as it was |
| App.ShuffledDistinct | src/App.js:117 | a permutation of the duplicate-free scene set is duplicate-free |
| App.DeepClean | src/App.js:49-59 | no undefined is left at any depth; undefined and null become null; array lengths and object key sets are kept; other primitives are unchanged |
| App.DeepCleanReplacesUndefined | src/App.js:49-59 | deepClean replaces undefined by null at every depth, element by element and key by key, and changes nothing else |
| App.NullForUndefinedIsDeepClean | src/App.js:49-59 | any value that is the input with every undefined replaced by null is deepClean's result, so that replacement characterises deepClean |
| App.CleanIsFixpoint | src/App.js:49-59 | a value without undefined is returned exactly as it is |
| App.DeepCleanIdempotent | src/App.js:49-59 | cleaning twice is cleaning once |
| App.ResultJson | src/components/SlideRenderer.js:253-263 | the result object has exactly the keys responses, anonymous, rankings, timings and comparisons, and holds no undefined |
| App.CleanPayload | src/App.js:190 | cleaning { surveyId, device, ...rest } with a clean rest changes only the device |
| App.ResultPayload | src/App.js:190 | the payload is a clean object with surveyId, the cleaned device, and every result field unchanged |
| App.AppState.SaveWithRetry | src/App.js:62-74 | a free baseId receives the payload; otherwise a fresh id not in the store does; no stored result changes |
| App.FreshKeyExists | src/App.js:70-72 | a store always has an id not yet used, so the generated id exists |
| App.SelectSurvey | src/App.js:97-98 | the id is survey1, survey2 or survey3; a known parameter is taken; anything else, including a missing or empty one, gives survey1 |
| App.FilesOf | src/App.js:125 | the fallback of `manifest[sceneId]` to the empty list: the manifest's file list for a listed scene, the empty list for any other |
| App.ExpandScenes | src/App.js:110-116 | a scene is listed exactly when it is a manifest key that starts with a configured prefix, and none is listed twice |
| App.CompareSlide | src/App.js:136-144 | a comparison slide for the scene with one condition per manifest file, named by the file, at /images/scene/file; a missing entry gives no conditions |
| App.CompareSlideDistinct | src/App.js:142 | distinct file names give distinct conditions |
| App.Deck | src/App.js:121-146 | the assembled deck exists exactly when the configuration has both pre- and post-slides; otherwise the spread throws |
| App.DeckLayout | src/App.js:120-146 | the deck opens with the pre-slides and closes with the post-slides, right after the selected scenes' comparison slides in order; its length is the sum of the six parts |
| App.DeckPractice | src/App.js:121-133 | right after the pre-slides come the practice intro, one practice comparison slide per practice scene in order, and the practice outro |
| App.AssembleDeck | src/App.js:121-146 | the pushes build pre, practice intro, practice comparisons, practice outro, scene comparisons and post slides, in that order; a missing pre or post list throws |
| App.WithoutCompare | src/App.js:150 | no comparison slide is left and the deck does not grow |
| App.WithoutCompareAppend | src/App.js:150 | the filter distributes over concatenation |
| App.WithoutCompareDropsOne | src/App.js:150 | a comparison slide on its own is filtered out, so with WithoutCompareAppend every configured comparison slide in the pre- or post-slides is dropped too |
| App.WithoutCompareKeeps | src/App.js:150 | a list without comparison slides passes unchanged |
| App.WithoutCompareDropsGenerated | src/App.js:150 | every generated comparison slide is removed |
| App.SkipCompareDeck | src/App.js:148-152 | with skipCompare the deck is the configured non-comparison slides, in their order |
| App.AppState.constructor | src/App.js:88-91 | the initial state: survey1, no slides, empty footer, no session id |
| App.AppState.Init | src/App.js:94-156 | stores the survey the URL names, but builds from the configuration of the surveyId the run started with; the scene order is exactly the prefix-matching manifest scenes without repeats; the footer is set; the slides are the deck, filtered under skipCompare; a failed fetch or a throwing assembly leaves the slides; a re-run is due exactly when surveyId changed |
| App.AppState.Mount | src/App.js:94-156 | after the first run and its re-run, surveyId is the named survey and the slides are its deck; when only survey1 loads, survey1's deck stays although surveyId names another survey; without a manifest nothing loads |
| App.AppState.HandleStart | src/App.js:159-168 | the derived id becomes the session id and its session is marked started; a throwing derivation writes nothing |
| App.AppState.HandleComplete | src/App.js:171-200 | with a session id, the session is marked completed and the cleaned payload is saved under a fresh or the base id; without one nothing is written |
| Survey.Truthy | src/components/SlideRenderer.js:228 | JavaScript truthiness of `responses[name]`: a missing answer, "" and false are falsy, every other answer is truthy |
| Survey.AnswerString | src/components/SlideRenderer.js:249 | `String(v)`: a text answer is itself, a checkbox gives "true" or "false", and only the empty text gives "" |
| Survey.Hidden | src/components/SlideRenderer.js:361 | a field without dependsOn is always shown; a dependent field is shown exactly when the answer it depends on is present with the declared value, and hidden when that answer is missing or has any other value |
| Survey.TotalDuration | src/components/SlideRenderer.js:259 | the reduce over the log: 0 for an empty log, and with non-negative durations a non-negative total no smaller than any one duration |
| Survey.TotalDurationAppend | src/components/SlideRenderer.js:259 | the summed durations of two logs add up |
| Renderer.DisplayOrder | src/components/SlideRenderer.js:118-121 | no pair shows nothing; otherwise the pair or its swap is shown |
| Renderer.ShownIsOffered | src/components/SlideRenderer.js:118-121 | a condition clicked on screen is one of the engine's pair |
| Renderer.DateDefaults | src/components/SlideRenderer.js:102-115 | today's date is added exactly for the form's date fields that default to today and have a falsy answer; every other answer is kept |
| Renderer.DateDefaultsIdempotent | src/components/SlideRenderer.js:102-115 | a second run of the effect changes nothing |
| Renderer.ApplyDateDefaults | src/components/SlideRenderer.js:103-113 | the loop over the fields computes DateDefaults |
| Renderer.FirstMissing | src/components/SlideRenderer.js:227-231 | no alert means no required field is falsy; a falsy required first field is the one the alert names |
| Renderer.SubmitBlockedIff | src/components/SlideRenderer.js:359-438 | the browser stops the form's submit exactly when some shown field is required and its answer is falsy |
| Renderer.AlertOnlyForHidden | src/components/SlideRenderer.js:226-233 | once the browser lets the submit through, an alert from handleFormNext can only name a required field that the form hides |
| Renderer.FirstMissingIsFirst | src/components/SlideRenderer.js:227-231 | no alert exactly when no required field is falsy; an alert names the first such field |
| Renderer.HiddenRequiredBlocks | src/components/SlideRenderer.js:227-231 | a required field hidden by its dependsOn condition still blocks the form while falsy |
| Renderer.MissingRequired | src/components/SlideRenderer.js:227-231 | the loop returns the label of the first missing required field, or none |
| Renderer.CollectAnonFields | src/components/SlideRenderer.js:239-246 | a name is collected exactly when some form slide has an anonymous field of that name |
| Renderer.Anonymize | src/components/SlideRenderer.js:247-251 | every answer lands on exactly one side: an anonymous one as the hash of its string form, any other unchanged |
| Renderer.BuildResult | src/components/SlideRenderer.js:247-263 | the result splits the responses by anonymity, passes on the rankings and log, and sums the logged durations |
| Renderer.RecordAnswer | src/components/SlideRenderer.js:212 | the chosen condition is the winner: choosing the new item keeps the lower half of the window, anything else the upper half, and an emptied window splices the item in; the answer is counted; a returned pair is the sorter's outstanding one, and no pair means every condition is placed |
| Renderer.Controller.constructor | src/components/SlideRenderer.js:40-66 | the initial state: first slide, no answers, no pair, empty log and rankings, with the slide effects due |
| Renderer.Controller.Enter | src/components/SlideRenderer.js:72-267 | after a change of slide: the gate, the date defaults, a fresh sorter and first pair for a comparison slide, onStart at most once, and finalize at most once |
| Renderer.Controller.SetGate | src/components/SlideRenderer.js:72-80 | the buttons are enabled exactly when the slide has no timer |
| Renderer.Controller.EnterForm | src/components/SlideRenderer.js:102-115 | on a form slide the responses become DateDefaults; otherwise they are unchanged |
| Renderer.Controller.EnterCompare | src/components/SlideRenderer.js:180-187 | a comparison slide gets a new sorter over its conditions, the first pair (conditions[1], conditions[0]) or none, its display order and a restarted trial clock |
| Renderer.Controller.FireStart | src/components/SlideRenderer.js:191-200 | onStart fires, with the current responses, exactly on the first non-practice comparison slide, and never again |
| Renderer.Controller.Finalize | src/components/SlideRenderer.js:236-267 | past the last slide and not yet completed, the result is built and handed over once |
| Renderer.Controller.Choose | src/components/SlideRenderer.js:203-220 | appends exactly one log entry in engine order; the sorter narrows its window by the chosen condition or places the item, as RecordAnswer states; a further pair replaces the pair on the same slide; otherwise the ranking is stored under the scene and the slide advances by one |
| Renderer.Controller.Answer | src/components/SlideRenderer.js:212-219 | the sorter's part of a choice: the window narrows by the chosen condition and the answer is counted, then the next pair shows or the scene's ranking, a permutation of its conditions, is stored and the slide advances; the responses and the log are untouched |
| Renderer.Controller.Follow | src/components/SlideRenderer.js:213-219 | a pair from the sorter is shown on the same slide; without one the scene's ranking is stored and the next slide follows |
| Renderer.Controller.ShowPair | src/components/SlideRenderer.js:213-215 | the next pair is shown in a random order with the trial clock restarted |
| Renderer.Controller.CloseSlide | src/components/SlideRenderer.js:216-218 | the ranking is stored under the scene and the next slide follows |
| Renderer.Controller.FieldChange | src/components/SlideRenderer.js:223-224 | the one answer changes, then the date defaults apply; nothing else changes |
| Renderer.Controller.FormNext | src/components/SlideRenderer.js:226-233 | the browser's required check on the shown fields stops the submit with nothing changed; past it, an alert naming the first missing required field keeps the slide, and with no alert the slide advances by one |
| Renderer.Controller.Next | src/components/SlideRenderer.js:490 | an enabled Next button advances by one slide |
| Renderer.Controller.CanBack | src/components/SlideRenderer.js:483-486 | Back is never offered on the first slide or right after a comparison slide, and it is offered wherever Next is enabled on an information slide that follows a non-comparison slide |
| Renderer.Controller.Back | src/components/SlideRenderer.js:483-489 | Back is offered only on an information slide past the first whose predecessor is not a comparison, and not during a running timer; it goes back by one to a non-comparison slide |
| Renderer.Controller.TimerElapsed | src/components/SlideRenderer.js:88-89 | when the timer runs out, the buttons are enabled |
| Renderer.StalledOnShortScene | src/components/SlideRenderer.js:180-187 | a comparison slide with fewer than two conditions enables no handler, so the survey cannot leave it |

## Left out

- Renderer.Controller.FormNext: of the browser's checks on submit, only `required` on the shown fields is modelled. The `min` and `max` of number inputs, the number step, e-mail syntax, and values the browser discards (non-numeric text in a number input) can also stop the submit before handleFormNext runs; they would need number and address parsing, and are not modelled.

- Sorter.BinarySorter.Start: requires at least one item. On an empty list the source pushes `undefined` into `sorted`, which has no counterpart among the model's values.
- Renderer.Controller.EnterCompare: does not call `Start` on a comparison slide without conditions. The source's `undefined` entry is not modelled, and the observable outcome is the same: no pair is shown.
- Strings.Lower: folds only the ASCII letters A–Z. The full Unicode case mapping of `toLowerCase` is not modelled.
- App.Shuffle: states that the result is a permutation, not which permutation a given sequence of draws produces.
- App.AppState.SaveWithRetry: the id `addDoc` generates is an arbitrary id not yet in the store. Firestore's id format is not modelled.
- Renderer.Controller.SetGate: the timer is abstract. `TimerElapsed` enables the buttons. The `requestAnimationFrame` ticks, the progress bar and the blink are not modelled.
- Renderer.Controller.Enter: each effect runs once per change of slide. React's re-runs of the date and start effects on later renders are not modelled. Those re-runs change nothing: the date effect is idempotent (`DateDefaultsIdempotent`), and the start effect fires once.
- Renderer.Controller.Choose: conditions are compared by value. The source's identity test `===` on objects agrees when, as generated, the conditions of a slide are distinct (`CompareSlideDistinct`).
- Renderer.Controller.CloseSlide: stores the ranking by value. In the source the rankings map aliases the sorter's `sorted` array, which no later step changes.
- Time stamps are integers (milliseconds) or opaque strings. The ISO-8601 rendering by `toISOString` is not modelled.
- The device information of `handleComplete` is a JSON parameter. The browser's `window.screen` and `navigator` are not modelled.
- The `result.error === 'duplicate'` guard of `handleComplete` is dead code: the result built by the renderer has no `error` field. It is not modelled.
- Network fetches of the configuration, the manifest and the scene descriptions are inputs: `configs`, `manifest`, with None for a failed fetch. The description text, which is display only, is not modelled.
- App.AppState.Mount: applies the first run of the load effect and its re-run in the order they start. If the first run's fetches finish after the second's, the source ends with the first survey's deck, which the model does not capture.
- Async interleaving between effects and handlers is not modelled. Each operation runs to completion.
- Firestore failures, which the source catches and logs, are not modelled. Writes always succeed, except that a missing session id makes `handleComplete` write nothing.
- Brightness normalisation is not modelled. It is floating-point luminance over canvas pixels, with async image loading.
- Rendering is not modelled: the JSX, the animations, Markdown, the progress bar, and the component in src/components/PairwiseCompare.js.
- crypto-js's SHA-256 is not part of this model. It is the parameter `digest`.
- The build scripts under scripts/ are not part of this model.
- A form slide without a `fields` list makes the source throw. In the model every slide has a (possibly empty) field list.
