# KluMap core, modelled in Dafny

KluMap is a single-page tool for O-Ring assumption mapping. A founder frames a
venture, writes assumptions on three rings (opportunity, offering, operation),
sorts them on an importance/evidence matrix whose "clueless corner" holds the
important assumptions without evidence, and exports a Markdown validation
brief with a ready-made AI prompt for each of them.

This project models the sequential logic under that interface and proves what
it promises:

- `domain.dfy` (`Domain`): the venture and assumption records, JavaScript
  truthiness and `||` fallbacks, and the shallow merge `{ ...a, ...updates }`.
- `strings.dfy` (`Strings`): the JavaScript string operations the core relies
  on: `join`, `split` on one character, `trim`, ASCII `toLowerCase`, the
  `/\s+/g` replacement and `String(n)` for the id counter.
- `reducer.dfy` (`StateReducer`): the application state, every arm of the
  reducer as the function `Transition`, and the class `Reducer` that owns the
  module-level id counter.
- `prompt_engine.dfy` (`PromptEngine`): `generatePrompt`, the ring context
  table and the global replacement of the `{{assumption}}` placeholder,
  including the `$` patterns of the replacement string.
- `export_markdown.dfy` (`ExportMarkdown`): the Markdown brief and the file
  name of the download.
- `clueless_corner.dfy` (`CluelessCorner`): the matrix screen's collision
  ranking, drop target, tap-to-select and tap-to-assign, the partition of the
  list into the sidebar and the four quadrants, and the class `MatrixBoard`
  holding `activeId` and `selectedCardId`.
- `assumption_card.dfy` (`AssumptionCard`): a card's edit mode as functions on
  its three fields, and the class `CardEditor` whose handlers update them in
  place.
- `hash.dfy` (`Hash`): the 32-bit string hash over UTF-16 code units, as a
  loop, and the card rotation derived from it.
- `journey_animation.dfy` (`JourneyAnimation`): the greedy word wrap of the
  landing animation, as a loop, with the corrected wrap beside it.

Where the code and the written description of the product disagree, the model
follows the code:

- `SET_SCREEN` stores its argument without clamping. Only `NEXT_SCREEN` and
  `PREV_SCREEN` clamp to [0, 4].
- `ADD_ASSUMPTION` appends whatever text it is given. The non-empty trimmed
  text is the caller's business, not the reducer's.

The reducer does not forbid an update that writes an `id` field. The id
invariant is proved for every action sequence without such an update.

## Model

| member | source | states |
|---|---|---|
| Domain.Merge | src/state/reducer.js:57 | every field present in the patch overrides the assumption's field and every absent one is kept; the empty patch changes nothing |
| Domain.MergeIdempotent | src/state/reducer.js:57 | merging a patch twice equals merging it once; a `{ quadrant }` or `{ text }` patch changes that one field and nothing else |
| Strings.Trim | src/components/AssumptionCard.jsx:57 | `trim()` starts and ends with a non-space character and is empty exactly when the input is all white space |
| Strings.TrimShape | src/components/AssumptionCard.jsx:57 | the input is the trimmed text with white space only on either side |
| Strings.JoinSplit | src/components/JourneyAnimation.jsx:305 | joining the pieces of `split(c)` with `c` gives the text back |
| Strings.SplitWithout | src/components/JourneyAnimation.jsx:305 | a text without the separator splits into itself alone |
| Strings.CollapseSpacedText | src/utils/exportMarkdown.js:54 | words separated by whitespace runs of any length come out of the `/\s+/g` replacement separated by exactly one dash, and a leading or trailing run becomes one dash |
| Strings.CollapseBlank | src/utils/exportMarkdown.js:54 | a text of whitespace only becomes one dash, the empty text stays empty |
| Strings.CollapseLower | src/utils/exportMarkdown.js:54 | lower-casing before or after the replacement gives the same result |
| Strings.CollapseNoCapitals | src/utils/exportMarkdown.js:54 | the replacement keeps a text free of ASCII capitals |
| Strings.ParseDecimalOfDecimal | src/state/reducer.js:41 | `String(n)` reads back as `n`, so counter values and ids correspond one to one |
| Strings.DecimalInjective | src/state/reducer.js:41 | two different counter values give two different ids |
| StateReducer.SetField | src/state/reducer.js:26-30 | `SET_VENTURE_FIELD` writes the named venture attribute (the stage as a non-null value) |
| StateReducer.UpdateWhere | src/state/reducer.js:56-58 | the mapped list has the same length, and element i is merged exactly when its id matches |
| StateReducer.Without | src/state/reducer.js:64 | an assumption is in the filtered list exactly when it was in the list and has another id |
| StateReducer.NextScreenClamps | src/state/reducer.js:20-21 | `NEXT_SCREEN` yields `min(screen + 1, 4)`, so 4 stays 4, and changes nothing else |
| StateReducer.PrevScreenClamps | src/state/reducer.js:23-24 | `PREV_SCREEN` yields `max(screen - 1, 0)`, so 0 stays 0, and changes nothing else |
| StateReducer.ScreenStaysInRange | src/state/reducer.js:17-24 | the screen stays in [0, 4] under every action except a `SET_SCREEN` outside that range, which is stored as given |
| StateReducer.SetVentureFieldOverwritesOne | src/state/reducer.js:26-30 | one venture attribute is overwritten and the rest of the state is unchanged |
| StateReducer.SetActiveRingOverwritesOne | src/state/reducer.js:32-33 | the active ring becomes the given ring and the rest of the state is unchanged |
| StateReducer.HelpPanelAndUnknown | src/state/reducer.js:67-74 | toggling twice restores the flag, closing is idempotent and closes, an unknown action returns the state unchanged |
| StateReducer.AddAppendsOne | src/state/reducer.js:35-51 | exactly one record is appended at the end with id `String(n)`, the action's text and ring, null quadrant, position and approach, style `'focused'` and the clock's time; the earlier records and the rest of the state are unchanged |
| StateReducer.UpdateMergesMatching | src/state/reducer.js:53-59 | length and order are kept, records with the id are merged with the updates, all others are unchanged, nothing else changes |
| StateReducer.UpdateUnknownIdIsNoOp | src/state/reducer.js:56-58 | an update for an id not in the list leaves the list value-identical |
| StateReducer.WithoutConcat | src/state/reducer.js:64 | the filter distributes over concatenation, so the survivors keep their order |
| StateReducer.WithoutAbsent | src/state/reducer.js:64 | deleting an absent id returns the list unchanged |
| StateReducer.DeleteRemovesId | src/state/reducer.js:61-65 | no record with the id survives, every other record does, an absent id is a no-op, nothing else changes |
| StateReducer.FreshIdIsNew | src/state/reducer.js:41 | the id the counter issues differs from every id issued before |
| StateReducer.AddKeepsIdsWf | src/state/reducer.js:35-51 | appending the record with the counter's id keeps all ids distinct and below the advanced counter |
| StateReducer.UpdateKeepsIdsWf | src/state/reducer.js:53-59 | an update that does not write `id` keeps the ids distinct and issued |
| StateReducer.WithoutKeepsIdsWf | src/state/reducer.js:61-65 | deleting keeps the ids distinct and issued |
| StateReducer.TransitionKeepsIdsWf | src/state/reducer.js:15-76 | every action keeps the ids distinct and below the counter it leaves behind |
| StateReducer.RunKeepsIdsWf | src/state/reducer.js:13-76 | for any sequence of actions, however adds and deletes interleave, the ids stay distinct and below the counter, and the counter never decreases |
| StateReducer.Dispatch | src/state/reducer.js:13-51 | one dispatch in which the reducer runs several times and one run is kept: with a single run it is exactly one reducer step; the counter never goes back |
| StateReducer.DispatchKeepsIdsWf | src/state/reducer.js:13-51 | however many times the reducer runs in one dispatch, and whichever run is kept, the ids stay distinct and below the counter |
| StateReducer.RunRepeatedKeepsIdsWf | src/state/reducer.js:13-76 | over any sequence of dispatches with repeated reducer runs, the ids stay distinct and below the counter, and the counter never decreases |
| StateReducer.InitialStateWf | src/state/reducer.js:1-13 | the initial state has an empty list and screen 0, within the invariants |
| StateReducer.Reducer.constructor | src/state/reducer.js:13 | the counter starts at 1 |
| StateReducer.Reducer.Reduce | src/state/reducer.js:15-76 | the new state is the transition's; the counter advances by one on `ADD_ASSUMPTION` only; the id invariant is kept |
| PromptEngine.GeneratePrompt | src/utils/promptEngine.js:14-38 | `""` for an unknown approach and for a style without variant; otherwise the eleven lines joined by newlines |
| PromptEngine.PromptEmptyIff | src/utils/promptEngine.js:15-19 | the prompt is empty exactly when the approach or its variant for the style is missing |
| PromptEngine.PromptLayout | src/utils/promptEngine.js:23-35 | a non-empty prompt is the six sections in fixed order, context, assumption, evidence status, template, constraints, kill signal, with one blank line between each two |
| PromptEngine.SixSections | src/utils/promptEngine.js:23-35 | eleven lines alternating with empty ones, joined by newlines, are the six sections joined by blank lines |
| PromptEngine.JoinWithBlankLines | src/utils/promptEngine.js:35 | interleaving empty lines and joining by newline equals joining by a blank line |
| PromptEngine.ContextLineFallbacks | src/utils/promptEngine.js:24 | the context line uses "my venture" for a missing name and "early" for a missing stage, and has " — description" only when there is a description |
| PromptEngine.AssumptionLineContents | src/utils/promptEngine.js:26 | the assumption line holds the literal assumption text right after its lead-in, the ring's label right after ". This is an ", and the ring's context phrase right before the final full stop |
| PromptEngine.ReplaceIsLiteral | src/utils/promptEngine.js:30 | with no `$` in the assumption text, the global replacement equals the literal replacement of every placeholder |
| PromptEngine.SubstitutionLiteral | src/utils/promptEngine.js:30 | a replacement string without `$` is inserted as it is |
| PromptEngine.LiteralReplaceNoMatch | src/utils/promptEngine.js:30 | a template without placeholder comes back unchanged |
| PromptEngine.LiteralReplaceFirst | src/utils/promptEngine.js:30 | the first placeholder is replaced, the inserted text is not scanned again and the scan resumes after the placeholder |
| ExportMarkdown.Clueless | src/utils/exportMarkdown.js:6 | the filter keeps only assumptions in the clueless quadrant with an approach chosen |
| ExportMarkdown.CluelessMembers | src/utils/exportMarkdown.js:6 | an assumption survives the filter exactly when it qualifies |
| ExportMarkdown.CluelessConcat | src/utils/exportMarkdown.js:6 | the filter distributes over concatenation and keeps list order |
| ExportMarkdown.HeaderIsJoin | src/utils/exportMarkdown.js:9-18 | the header is the title, the description line, the attribution and the rule, each followed by an empty line, joined by newlines |
| ExportMarkdown.ApproachName | src/utils/exportMarkdown.js:33 | the catalogue's name for a known approach with a non-empty name, and "N/A" when the approach is unknown or its name is empty |
| ExportMarkdown.SectionIsJoin | src/utils/exportMarkdown.js:30-41 | a section is its ten lines joined by newlines: heading, metadata line, the prompt between code fences, and the rule |
| ExportMarkdown.NumberedAt | src/utils/exportMarkdown.js:20 | the k-th mapped element is made from the k-th assumption with the number `start + k` |
| ExportMarkdown.Export | src/utils/exportMarkdown.js:5-45 | `""` when nothing qualifies; otherwise the header followed by the concatenated sections numbered from 1 |
| ExportMarkdown.ExportEmptyIff | src/utils/exportMarkdown.js:6-7 | the brief is empty exactly when no assumption qualifies, and otherwise starts with the header |
| ExportMarkdown.SectionNumbering | src/utils/exportMarkdown.js:20-31 | section k is about the k-th qualifying assumption and numbered k + 1 |
| ExportMarkdown.SectionHeading | src/utils/exportMarkdown.js:31 | section n starts with `## n. text` |
| ExportMarkdown.ExportSnoc | src/utils/exportMarkdown.js:20-44 | one more qualifying assumption at the end of the list appends one section, numbered after the others, and changes nothing before it |
| ExportMarkdown.Slug | src/utils/exportMarkdown.js:54 | the slug is non-empty and holds neither white space nor ASCII capitals |
| ExportMarkdown.SlugOfSpacedWords | src/utils/exportMarkdown.js:54 | a name of words separated by whitespace runs of any length becomes the lower-cased words joined by single dashes, with one dash for a leading and one for a trailing run |
| ExportMarkdown.SlugOfBlankName | src/utils/exportMarkdown.js:54 | the empty name gives `venture`, a name of whitespace only gives `-` |
| CluelessCorner.FirstQuadrantHit | src/screens/CluelessCorner.jsx:31-33 | the index of the first quadrant hit, with none before it, or none when there is no quadrant hit |
| CluelessCorner.CollisionRanking | src/screens/CluelessCorner.jsx:26-43 | the first quadrant hit alone if the pointer is over one, else all pointer hits, else the rectangle hits, else the closest centres |
| CluelessCorner.DropTarget | src/screens/CluelessCorner.jsx:103-114 | a quadrant zone gives its key, a card gives its quadrant (possibly null), anything else null, and the sidebar forces null |
| CluelessCorner.DragEndActions | src/screens/CluelessCorner.jsx:95-123 | nothing without `over` or assumption data; one update of the quadrant exactly when the target differs from the current quadrant |
| CluelessCorner.DropIsStable | src/screens/CluelessCorner.jsx:116-123 | after the move is written back, the same drop writes nothing |
| CluelessCorner.Toggled | src/screens/CluelessCorner.jsx:145-147 | selecting the selected card clears the selection, any other card replaces it |
| CluelessCorner.ToggleTwice | src/screens/CluelessCorner.jsx:145-147 | from no selection or that card's selection, selecting the same card twice restores it; selecting a card while another is selected selects it |
| CluelessCorner.TapActions | src/screens/CluelessCorner.jsx:149-160 | no dispatch without a selection; with one, always one quadrant update, even to the same quadrant |
| CluelessCorner.Unmapped | src/screens/CluelessCorner.jsx:62-65 | the sidebar holds exactly the assumptions without quadrant |
| CluelessCorner.InQuadrant | src/screens/CluelessCorner.jsx:69 | a quadrant holds exactly the assumptions with that key |
| CluelessCorner.MappedPlusUnmapped | src/screens/CluelessCorner.jsx:74-75 | the mapped count plus the sidebar count is the total |
| CluelessCorner.PartitionCounts | src/screens/CluelessCorner.jsx:62-77 | with every quadrant null or one of the four keys, the sidebar and the four quadrants hold every assumption exactly once |
| CluelessCorner.MappedByQuadrant | src/screens/CluelessCorner.jsx:66-72 | the loop builds a map with exactly the four keys, each holding that quadrant's assumptions |
| CluelessCorner.CanProceedIff | src/screens/CluelessCorner.jsx:76-77 | proceeding is allowed exactly when some assumption is in the clueless quadrant |
| CluelessCorner.MatrixBoard.constructor | src/screens/CluelessCorner.jsx:49-50 | nothing is dragged or selected |
| CluelessCorner.MatrixBoard.HandleDragStart | src/screens/CluelessCorner.jsx:85-88 | the dragged id is recorded and the selection cleared |
| CluelessCorner.MatrixBoard.HandleDragEnd | src/screens/CluelessCorner.jsx:90-126 | the drag is over, the selection is kept, and the dispatches are `DragEndActions` |
| CluelessCorner.MatrixBoard.HandleDragCancel | src/screens/CluelessCorner.jsx:128-130 | the drag is over and nothing else changes |
| CluelessCorner.MatrixBoard.HandleUnmap | src/screens/CluelessCorner.jsx:132-142 | one update to a null quadrant, and the selection is cleared |
| CluelessCorner.MatrixBoard.HandleSelectCard | src/screens/CluelessCorner.jsx:145-147 | the selection becomes `Toggled` of the old one |
| CluelessCorner.MatrixBoard.HandleQuadrantTap | src/screens/CluelessCorner.jsx:149-160 | the dispatches are `TapActions` of the old selection, which is cleared when there was one |
| AssumptionCard.SaveActions | src/components/AssumptionCard.jsx:56-60 | one update carrying the trimmed text exactly when it is non-empty and differs from the stored text, nothing otherwise |
| AssumptionCard.SaveLeavesEditing | src/components/AssumptionCard.jsx:56-62 | saving always leaves editing mode, and the text it dispatches has no white space at either end |
| AssumptionCard.SaveIsStable | src/components/AssumptionCard.jsx:56-62 | once the saved text is stored, saving the same typed text again dispatches nothing |
| AssumptionCard.CancelRestores | src/components/AssumptionCard.jsx:72-84 | cancel, and Escape, restore the stored text, leave editing, raise the flag and dispatch nothing |
| AssumptionCard.CancelThenBlur | src/components/AssumptionCard.jsx:64-84 | Escape followed by the blur it causes saves nothing and clears the flag again |
| AssumptionCard.BlurSavesUnlessCancelling | src/components/AssumptionCard.jsx:64-70 | a blur without the flag is a save; with it, it dispatches nothing and clears the flag |
| AssumptionCard.KeysOtherThanEnterAndEscape | src/components/AssumptionCard.jsx:78-85 | Enter saves, and keys other than Enter and Escape change nothing |
| AssumptionCard.DeleteAndStartEdit | src/components/AssumptionCard.jsx:87-89 | delete dispatches `DELETE_ASSUMPTION` with the card's own id; the edit button enters editing with the stored text |
| AssumptionCard.OnlyOwnActions | src/components/AssumptionCard.jsx:56-89 | whatever the events, a card only ever dispatches updates or deletes of its own assumption |
| AssumptionCard.CardEditor.constructor | src/components/AssumptionCard.jsx:29-32 | a mounted card is not editing, holds the stored text and no pending cancel |
| AssumptionCard.CardEditor.HandleSave | src/components/AssumptionCard.jsx:56-62 | the fields and the dispatches are those of `Save` |
| AssumptionCard.CardEditor.HandleBlur | src/components/AssumptionCard.jsx:64-70 | the fields and the dispatches are those of `Blur` |
| AssumptionCard.CardEditor.HandleCancel | src/components/AssumptionCard.jsx:72-76 | the fields become those of `Cancel` |
| AssumptionCard.CardEditor.HandleKeyDown | src/components/AssumptionCard.jsx:78-85 | the fields and the dispatches are those of `KeyDown` |
| AssumptionCard.CardEditor.HandleDelete | src/components/AssumptionCard.jsx:87-89 | the fields are unchanged and the dispatch is that of `Delete` |
| AssumptionCard.CardEditor.HandleEditClick | src/components/AssumptionCard.jsx:161-163 | the fields become those of `StartEdit` |
| AssumptionCard.CardEditor.HandleChange | src/components/AssumptionCard.jsx:133 | the typed text becomes the input's value |
| Hash.ToInt32 | src/utils/hash.js:8 | the result is a signed 32-bit integer congruent to the input modulo 2^32, and the input itself when it is one |
| Hash.CodeUnits | src/utils/hash.js:8 | a character is one code unit below 0x10000 and a surrogate pair otherwise |
| Hash.CodeUnitsDecode | src/utils/hash.js:8 | the surrogate pair decodes back to the character |
| Hash.Utf16Bmp | src/utils/hash.js:7-8 | for characters below 0x10000, `length` and `charCodeAt` are the characters' codes |
| Hash.HashAppendChar | src/utils/hash.js:7-9 | one more character appends its code units, a single unit, its code, below 0x10000 |
| Hash.StepIsPoly | src/utils/hash.js:8 | `((h << 5) - h + code) \| 0` equals `ToInt32(31 * h + code)` |
| Hash.HashSnoc | src/utils/hash.js:7-9 | one more code unit turns the hash h into `ToInt32(31 * h + code)` |
| Hash.HashIsPoly | src/utils/hash.js:5-11 | the 32-bit loop computes the exact polynomial hash reduced to 32 bits |
| Hash.HashCode | src/utils/hash.js:5-11 | the loop's result is the hash of the code units, a signed 32-bit integer, 0 for the empty string |
| Hash.JsRem1000 | src/utils/hash.js:18 | `h % 1000` truncates toward zero: within (-1000, 1000), with the sign of h, and differs from h by a multiple of 1000 |
| Hash.ScaleBounds | src/utils/hash.js:18-19 | the scaled factor lies within ±0.999 of the maximum, with the sign of the hash |
| Hash.RotationBounds | src/utils/hash.js:16-20 | every rotation lies within [-maxDeg, maxDeg], strictly inside (-4, 4) for the default |
| JourneyAnimation.SplitIntoLines | src/components/JourneyAnimation.jsx:304-318 | the loop returns the lines of the greedy wrap `SplitLines` |
| JourneyAnimation.LongLinesAreWords | src/components/JourneyAnimation.jsx:309-313 | every line holding a space is at most `maxLen` long; a longer line is one of the words, or empty |
| JourneyAnimation.EmptyText | src/components/JourneyAnimation.jsx:305-316 | the empty text gives no line when `maxLen >= 1`, one empty line otherwise; the corrected wrap gives none |
| JourneyAnimation.NoTrailingEmptyLine | src/components/JourneyAnimation.jsx:316 | with `maxLen >= 1` the last line is never empty |
| JourneyAnimation.EmptyLinesNeedLongWords | src/components/JourneyAnimation.jsx:309-311 | an empty line appears only when some word's length + 1 exceeds `maxLen`; for `maxLen >= 1`, every empty line is immediately followed by a line that is one such word |
| JourneyAnimation.LeadingEmptyLine | src/components/JourneyAnimation.jsx:309-311 | when the first word's length + 1 exceeds `maxLen`, the first line is empty |
| JourneyAnimation.BlankFirstLine | src/components/JourneyAnimation.jsx:309-311 | `splitIntoLines("ab", 2)` is `["", "ab"]`, the corrected wrap gives `["ab"]` |
| JourneyAnimation.CorrectedHasNoEmptyLines | src/components/JourneyAnimation.jsx:309-311 | the corrected wrap never yields an empty line |
| JourneyAnimation.KeepsWords | src/components/JourneyAnimation.jsx:305-317 | for a non-empty text with single spaces and no space at either end, the non-empty lines joined by spaces are the text |
| JourneyAnimation.CorrectedKeepsWords | src/components/JourneyAnimation.jsx:305-317 | for the same texts, the corrected wrap's lines joined by spaces are the text |

## Left out

- The React rendering, styling, animation timers and `randomChar` of the
  landing animation: only the word wrap is logic.
- `downloadMarkdown`'s Blob, URL and anchor I/O: only the file name is
  modelled (`ExportMarkdown.FileName`).
- The PDF export: foreign library calls, floating-point layout and locale
  dates.
- The drag-and-drop library's detectors (`pointerWithin`,
  `rectIntersection`, `closestCenter`) and sensors: their result lists are
  inputs of `CustomCollision`, and the drag events' `active` and `over` are
  inputs of the handlers.
- The data catalogues (approaches with their prompt variants, ring labels,
  quadrant configuration) are not part of this model: they are the
  `Catalog` argument. A variant is represented by its template string.
- `Date.now()` is the `now` argument of `Transition` and `Reduce`.
- The React context that wires the reducer to the screens.
- `getRotation` is computed on exact reals, not on IEEE doubles.
- The copies of `hashCode` and `getRotation` inside the card components are
  the same code as `src/utils/hash.js`. The card's copy defaults to 2.5
  degrees, which `RotationBounds` covers through its `maxDeg` argument. The
  entry swing of ±8 degrees is not modelled.
- `toLowerCase` is modelled on ASCII letters only. Other letters pass
  through unchanged.
- SplitIntoLines: word and line lengths are counted in characters, while
  JavaScript's `length` counts UTF-16 code units. The two differ only for
  characters above U+FFFF, which then count once instead of twice.
- StateReducer.Reducer.Reduce: models one run of the reducer per dispatch.
  React's `StrictMode` (`src/main.jsx:8-12`) runs the reducer twice in
  development, which advances the module-level counter twice. That case is
  `Dispatch` and `RunRepeated`, for which the id invariant is proved as well.
- EmptyText: `splitIntoLines("", n)` is `[]` only for `n >= 1`. For
  `n < 1` the code yields `[""]`, and the lemma states that case as it is.
- NoTrailingEmptyLine: requires `maxLen >= 1`, because for smaller widths
  the code does push an empty last line.
- ExportMarkdown.ChosenApproach: an assumption without an approach maps to
  the id `""`. This only matters for assumptions that do not qualify, and
  those never reach a section.

## Findings

| source | as written | input that shows it | evidently intended | confidence | as-written member | corrected member |
|---|---|---|---|---|---|---|
| src/components/JourneyAnimation.jsx:309-311 | the length test counts a separating space even when the current line is empty, so a first word of length `maxLen` or more pushes an empty line before it | `splitIntoLines("ab", 2)` gives `["", "ab"]` | no empty line: the space only counts when the current line is non-empty | not executed | JourneyAnimation.BlankFirstLine | JourneyAnimation.CorrectedHasNoEmptyLines |
