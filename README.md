# DiagnoVET report editor, modelled in Dafny

This project models the logic inside the DiagnoVET veterinary report editor, a React single-page application.

- **The report.** It holds a patient record, one diagnosis (a list of short statements), AI-generated findings (one per organ) and the study images.
- **What the veterinarian can do.**
  - Accept, edit or regenerate each finding and the diagnosis.
  - Add a finding by hand and delete findings.
  - Filter findings by status.
  - Browse and zoom the images.
- **What the editor shows.** Each finding's measurements are highlighted inside its text, and coloured by whether they lie outside their normal range.

The model keeps the source's own structure: one Dafny module per source file.

| module | source file | form |
|---|---|---|
| `ReportData` | `lib/mock-report-data.ts` (types, `getConfidenceColor`, `getStatusColor`) | datatypes and functions |
| `MockReport` | `lib/mock-report-data.ts` (the `mockReport` fixture) | constants and lemmas about them |
| `Page` | `app/page.tsx` | pure next-report functions: merge-by-id, append, filter-delete |
| `FindingCard` | `components/report/finding-card.tsx` | patch builders (functions); the three flags as a class |
| `DiagnosisSection` | `components/report/diagnosis-section.tsx` | serialiser and parser, patch builders; the two flags as a class |
| `FindingsSection` | `components/report/findings-section.tsx` | filter, counters, validation; the dialog state as a class |
| `InlineEditor` | `components/report/inline-editor.tsx` | a class whose `Format` method follows `formatText` step by step |
| `RegenerateDialog` | `components/report/regenerateDialog.tsx` | the toggle as a function; the form state as a class |
| `ImageGallery` | `components/report/image-gallery.tsx` | a class with the selection and zoom fields |
| `ConfidenceBadge` | `components/report/confidence-badge.tsx` | a branch-ordered classification |
| `HighlightedText` | `components/report/highlighted-text.tsx` | two loops as methods, the two sorts as specified stable insertion sorts |

Three support modules model what the JavaScript standard library does for this code:
- `Wrappers`: `Option`.
- `Seqs`: `Array.prototype.filter`, counting, and no duplicates.
- `Text`: `indexOf`, `includes`, `trim`, `split('\n')`, `join('\n')` and decimal rendering.

The modelling choices:

- **Strings.** A string is a `seq<char>`.
- **Numbers.** Confidence, measured values and normal ranges are `real`, because the source only compares them. The zoom factor is a `real` that a ghost counter keeps on the quarter grid.
- **Patches.** `Partial<AIFinding>` and `Partial<Diagnosis>` are records of `Option` fields.
  - A field that is itself optional (`editedBy`, `editedAt`, `originalItems`, `regenerationContext`) is an `Option<Option<T>>`, because spreading `{ key: undefined }` overwrites the key.
  - Merging is JavaScript's `{ ...a, ...b }`: a `Some` field of the patch wins.
- **Truthiness.** JavaScript truthiness is written out wherever the source relies on it:
  - `!selectedImageId` holds for `null` and for `""`;
  - `originalItems || items` keeps even an empty recorded array.
- **Clock and ids.** Clock readings (`toLocaleString`, `toISOString`, `Date.now()`) are parameters.
- **React state.** A component's `useState` cells are the fields of a class.
  - Each event handler is a method that states the complete new state.
  - The buttons a component disables become preconditions. For example, regenerate is disabled while a regeneration runs.
- **Regeneration.** The source awaits a timer between its two halves, so regeneration is split into a `BeginRegenerate` method and a `FinishRegenerate` method.
- **The fixture.** The texts in `MockReport` are the same characters as in the source. Each long text is written as a concatenation of short string literals, and each measurement quoted in a text is a literal of its own.

Behaviour of the code a reader may not expect, modelled as written:
- Adding a linked finding only checks that an image id is selected, not that it names an existing image.
- Updating or deleting an id that no finding has does nothing; there is no error.
- A finding's edit is compared with `originalText`, not with the text before the edit. Editing back to the original therefore keeps the previous status and signature.
- After a regeneration the text differs from the original while `isEdited` is false.
- A diagnosis edit always sets status `edited` and signs the diagnosis, even when the items are unchanged.
- While a finding regenerates, only the regenerate button is disabled; accept and edit stay available.

## Model

| member | source | states |
|---|---|---|
| `ReportData.WithId` | app/page.tsx:60-63 | the draft with the given id added: the finding carries that id and every other field exactly as the draft has it |
| `ReportData.ConfidenceTone` | lib/mock-report-data.ts:305-324 | emerald exactly from 0.9 up, amber exactly in [0.6, 0.9), red exactly below 0.6; never blue |
| `ReportData.ConfidenceToneMonotone` | lib/mock-report-data.ts:305-324 | a higher confidence never gets a lower tier |
| `ReportData.StatusTone` | lib/mock-report-data.ts:326-337 | each of the four statuses has its own colour, pending taking the default branch (each direction of the iff) |
| `Page.MergeFinding` | app/page.tsx:26 | id and status come from the patch when it names them; id, both texts and confidence are kept when it does not |
| `Page.MergeNoFindingChanges` | app/page.tsx:26 | merging the empty patch gives the finding back |
| `Page.MergeFindingIdempotent` | app/page.tsx:26 | merging the same patch twice equals merging it once |
| `Page.MergeFindingThen` | app/page.tsx:26 | two merges in a row equal one merge of the combined patch, where the later patch wins |
| `Page.MapUpdate` | app/page.tsx:25-27 | same length; every finding with the id is merged with the patch, every other is unchanged at its index |
| `Page.UpdateFinding` | app/page.tsx:22-28 | report id, patient, diagnosis and images are untouched; findings keep length and order, only those with the id are merged |
| `Page.UpdateAbsentId` | app/page.tsx:25-27 | an id no finding has leaves the report equal to the old one |
| `Page.UpdateNoChanges` | app/page.tsx:22-28 | an empty patch leaves the report equal to the old one |
| `Page.MergeDiagnosis` | app/page.tsx:44 | the status comes from the patch when it names one; status, items and baseline are kept when the patch does not name them |
| `Page.MergeDiagnosisStatusOk` | app/page.tsx:44 | a patch that does not set `rejected` keeps the diagnosis status among pending, accepted and edited |
| `Page.MergeDiagnosisIdempotent` | app/page.tsx:44 | merging the same diagnosis patch twice equals merging it once |
| `Page.UpdateDiagnosis` | app/page.tsx:41-45 | only the diagnosis changes, and it becomes the merge of the old diagnosis and the patch |
| `Page.NewFindingId` | app/page.tsx:62 | the id starts with `finding-manual-` and has at least one more character |
| `Page.NewFindingIdInjective` | app/page.tsx:62 | two different counter values never give the same id |
| `Page.AddFinding` | app/page.tsx:59-68 | one more finding; the old findings are the unchanged prefix; the last is the draft with the new id; everything else is untouched |
| `Page.DeleteFinding` | app/page.tsx:76-80 | a finding is kept exactly when it was there and does not have the id; no new findings; the other parts are untouched |
| `Page.DeleteCount` | app/page.tsx:79 | the number removed is exactly the number of findings with the id |
| `Page.DeleteAbsentId` | app/page.tsx:76-80 | deleting an id no finding has leaves the report equal to the old one |
| `Page.DeleteAfterAdd` | app/page.tsx:59-80 | deleting a freshly added finding by its new id restores the report, when no older finding had that id |
| `FindingCard.AcceptPatch` | components/report/finding-card.tsx:39-41 | the accept patch sets status `accepted` |
| `FindingCard.AcceptOnlyStatus` | components/report/finding-card.tsx:39-41 | after accepting, the finding differs from before only in its status |
| `FindingCard.EditPatch` | components/report/finding-card.tsx:47-62 | the edit patch sets the new text and `isEdited` to whether it differs from the original; it never names id, original text or confidence |
| `FindingCard.EditMarksDifference` | components/report/finding-card.tsx:47-50 | right after an edit, `isEdited` holds exactly when the current text differs from the original text |
| `FindingCard.EditThatChanges` | components/report/finding-card.tsx:51-60 | an edit that changes the text gives exactly: new text, edited, status `edited`, signed by `Dr. Usuario` at the given time |
| `FindingCard.EditBackToOriginal` | components/report/finding-card.tsx:51-61 | an edit back to the original text keeps status and signature and clears `isEdited` |
| `FindingCard.RegeneratedText` | components/report/finding-card.tsx:82-90 | the original text is a strict prefix, followed at once by ` [Regenerado por AI]` |
| `FindingCard.RegeneratedTextBare` | components/report/finding-card.tsx:82-90 | with no context and no images, the text is the original plus the AI mark and nothing else |
| `FindingCard.RegeneratedTextEnding` | components/report/finding-card.tsx:82-90 | with images the text ends with ` Analizadas N imÃ¡genes adicionales.` for the image count N; without images it ends with the `...` after a quoted context, or with the AI mark when there is no context |
| `FindingCard.RegeneratedTextQuotesContext` | components/report/finding-card.tsx:84-86 | a non-empty context appears, cut to its first 50 characters, right after the mark and the ` Considerando: ` lead-in |
| `FindingCard.RegeneratePatch` | components/report/finding-card.tsx:92-102 | the regenerate patch sets the current text to the regenerated text, `isEdited` false, status `pending` and records context, image ids and timestamp; it never names id, original text or confidence |
| `FindingCard.RegenerateLeavesUnmarkedDifference` | components/report/finding-card.tsx:82-102 | after regenerating, the current text is the regenerated text built from the original, differs from the original, and `isEdited` is false; original text, id and confidence are kept |
| `FindingCard.BgColor` | components/report/finding-card.tsx:108-113 | the card background when history is off or the finding is accepted; emerald exactly for edited; blue exactly for pending or rejected (each direction) |
| `FindingCard.Card.constructor` | components/report/finding-card.tsx:33-35 | all three flags start false |
| `FindingCard.Card.Accept` | components/report/finding-card.tsx:39-41 | a finding not yet accepted sends its own id and the accept patch |
| `FindingCard.Card.Edit` | components/report/finding-card.tsx:43-45 | edit mode opens; the other flags are unchanged |
| `FindingCard.Card.Save` | components/report/finding-card.tsx:47-64 | sends the finding's id and the edit patch and leaves edit mode; the other flags are unchanged |
| `FindingCard.Card.Cancel` | components/report/finding-card.tsx:66-68 | leaves edit mode; the other flags are unchanged |
| `FindingCard.Card.RegenerateClick` | components/report/finding-card.tsx:70-72 | when not busy, opens the regenerate dialog; the other flags are unchanged |
| `FindingCard.Card.BeginRegenerate` | components/report/finding-card.tsx:74-76 | when not busy, raises the busy flag and closes the dialog |
| `FindingCard.Card.FinishRegenerate` | components/report/finding-card.tsx:82-104 | while busy, sends the id and the regenerate patch built from the original text, then clears the busy flag |
| `DiagnosisSection.StripMarker` | components/report/diagnosis-section.tsx:32 | a line that starts with `•`, `-` or `*` loses that one marker and the white space after it; any other line is returned unchanged; the result is never longer and adds no character |
| `DiagnosisSection.CleanLineOk` | components/report/diagnosis-section.tsx:32 | a cleaned line is trimmed, and has no line feed when the line had none |
| `DiagnosisSection.CleanLines` | components/report/diagnosis-section.tsx:32 | same length, and each line is cleaned at its own index |
| `DiagnosisSection.ParseItemsOk` | components/report/diagnosis-section.tsx:31-33 | every parsed item is non-empty, trimmed and free of line feeds |
| `DiagnosisSection.Bulleted` | components/report/diagnosis-section.tsx:92 | same length, and each line is `• ` followed by its item |
| `DiagnosisSection.CleanBulleted` | components/report/diagnosis-section.tsx:32 | cleaning a well-formed item with the `• ` bullet of the editor seed (line 92) gives back the item |
| `DiagnosisSection.CleanLinesBulleted` | components/report/diagnosis-section.tsx:32 | cleaning the bulleted lines of well-formed items gives back the items |
| `DiagnosisSection.ParseSerialize` | components/report/diagnosis-section.tsx:31-33 | parsing the editor seed of line 92 gives back the items when each is non-empty, trimmed and on one line (the empty list included) |
| `DiagnosisSection.ParseIdempotent` | components/report/diagnosis-section.tsx:31-33 | parse, then serialise, then parse equals parse, for every text |
| `DiagnosisSection.AcceptPatch` | components/report/diagnosis-section.tsx:22-24 | the accept patch sets status `accepted` |
| `DiagnosisSection.AcceptOnlyStatus` | components/report/diagnosis-section.tsx:22-24 | after accepting, the diagnosis differs from before only in its status |
| `DiagnosisSection.EditPatch` | components/report/diagnosis-section.tsx:30-41 | the edit patch sets the parsed items, status `edited`, the signature `Dr. Usuario`, the edit time, and the baseline `originalItems || items`; it leaves the confidence alone |
| `DiagnosisSection.EditAlwaysSigns` | components/report/diagnosis-section.tsx:30-41 | for any content, the saved diagnosis is `edited` with the parsed, well-formed items, signed at the given time, with the baseline recorded and the confidence kept |
| `DiagnosisSection.BaselineKept` | components/report/diagnosis-section.tsx:38 | the first edit records the replaced items as the baseline, and a second edit keeps that same baseline |
| `DiagnosisSection.EditUnchangedStillSigns` | components/report/diagnosis-section.tsx:35-41 | saving the seed unchanged keeps the items but still sets `edited` and the signature |
| `DiagnosisSection.RegeneratePatch` | components/report/diagnosis-section.tsx:48-52 | the regenerate patch sets status `pending` and does not name the baseline |
| `DiagnosisSection.RegenerateAppendsOne` | components/report/diagnosis-section.tsx:48-52 | exactly one fixed item is appended after the unchanged old items; pending, confidence 0.89; baseline and signature kept |
| `DiagnosisSection.PatchesKeepStatusOk` | components/report/diagnosis-section.tsx:22-54 | none of the three patches makes the diagnosis status `rejected` |
| `DiagnosisSection.Section.constructor` | components/report/diagnosis-section.tsx:17-18 | both flags start false |
| `DiagnosisSection.Section.Accept` | components/report/diagnosis-section.tsx:22-24 | a diagnosis not yet accepted sends the accept patch |
| `DiagnosisSection.Section.Edit` | components/report/diagnosis-section.tsx:26-28 | edit mode opens, seeded with the serialised items of line 92; the busy flag is unchanged |
| `DiagnosisSection.Section.Save` | components/report/diagnosis-section.tsx:30-43 | sends the edit patch and leaves edit mode; the busy flag is unchanged |
| `DiagnosisSection.Section.Cancel` | components/report/diagnosis-section.tsx:94 | leaves edit mode; the busy flag is unchanged |
| `DiagnosisSection.Section.BeginRegenerate` | components/report/diagnosis-section.tsx:45-46 | when not busy, raises the busy flag; edit mode is unchanged |
| `DiagnosisSection.Section.FinishRegenerate` | components/report/diagnosis-section.tsx:48-53 | while busy, sends the regenerate patch and clears the busy flag |
| `FindingsSection.FilterAllIsEverything` | components/report/findings-section.tsx:75-78 | the `all` filter shows every finding, in order |
| `FindingsSection.FilterByStatus` | components/report/findings-section.tsx:75-78 | any other filter shows exactly the findings with its status (both directions) |
| `FindingsSection.StatusCountsPartition` | components/report/findings-section.tsx:84-86 | the four status counts add up to the number of findings |
| `FindingsSection.CountersBounded` | components/report/findings-section.tsx:84-86 | the three counters shown add up to the number of findings minus the rejected ones, so never more than the number of findings |
| `FindingsSection.EditedFindingsCount` | components/report/findings-section.tsx:136 | at most the number of findings, and zero exactly when no finding is marked edited |
| `FindingsSection.ImageForFinding` | components/report/findings-section.tsx:80-82 | a found image is in the list and has the linked id, and is the first such; nothing is found exactly when no image has that id |
| `FindingsSection.UnlinkedHasNoImage` | components/report/findings-section.tsx:80-82 | an unlinked finding gets no image when no image has the empty id |
| `FindingsSection.NewFindingDraft` | components/report/findings-section.tsx:96-113 | nothing exactly when the add button of lines 130-133 is disabled; otherwise trimmed non-empty organ and text, confidence 1.0, accepted, not edited, unsigned, linked to the selected id only when linking |
| `FindingsSection.BlankInputDisables` | components/report/findings-section.tsx:97-99 | a white-space-only organ or text never adds a finding |
| `FindingsSection.Section.constructor` | components/report/findings-section.tsx:61-73 | filter `all`, dialog closed, empty form, nothing selected, nothing pending deletion |
| `FindingsSection.Section.OpenAddDialog` | components/report/findings-section.tsx:88-94 | blank form, open dialog; filter and pending deletion unchanged |
| `FindingsSection.Section.SubmitAdd` | components/report/findings-section.tsx:96-117 | hands over exactly the validated draft, closes the dialog only when one was built, and leaves the form unchanged |
| `FindingsSection.Section.RequestDelete` | components/report/findings-section.tsx:119-121 | records the id pending deletion; nothing else changes |
| `FindingsSection.Section.ConfirmDelete` | components/report/findings-section.tsx:123-128 | a pending non-empty id is handed over and cleared; otherwise nothing is handed over and nothing changes |
| `FindingsSection.Section.SetFilter` | components/report/findings-section.tsx:209 | the filter becomes the chosen status; nothing else changes |
| `FindingsSection.Section.SetAddDialogOpen` | components/report/findings-section.tsx:250 | the dialog opens or closes as asked and the form is kept (also the cancel button at line 389) |
| `FindingsSection.Section.SetOrgan` | components/report/findings-section.tsx:269 | the organ field becomes the typed text; nothing else changes |
| `FindingsSection.Section.SetText` | components/report/findings-section.tsx:283 | the description field becomes the typed text; nothing else changes |
| `FindingsSection.Section.SetLinkToImage` | components/report/findings-section.tsx:297 | the link switch takes the new value; a picked image stays picked |
| `FindingsSection.Section.PickImage` | components/report/findings-section.tsx:330 | the clicked image becomes the selected one; nothing else changes |
| `FindingsSection.Section.DismissDelete` | components/report/findings-section.tsx:406 | dismissing the confirmation forgets the pending id; nothing else changes |
| `InlineEditor.MarkersFor` | components/report/inline-editor.tsx:114-138 | for every format the cursor offset equals the prefix length |
| `InlineEditor.MarkersEmptyIffUnknown` | components/report/inline-editor.tsx:109-138 | the prefix is empty exactly for a format the switch does not know, and then so is the suffix |
| `InlineEditor.FormattedShape` | components/report/inline-editor.tsx:140-151 | the content grows by prefix plus suffix; text before, prefix, selected text, suffix and text after sit at their offsets |
| `InlineEditor.FormatSplices` | components/report/inline-editor.tsx:140-151 | the splice with a selection and the splice without one are both the formatted content, and the shifted range covers the selected text |
| `InlineEditor.UnknownFormatIsIdentity` | components/report/inline-editor.tsx:114-151 | an unknown format leaves the content unchanged |
| `InlineEditor.ClickOutsideOutcome` | components/report/inline-editor.tsx:63-67 | save, with the content, exactly when the content differs from the initial content; otherwise cancel |
| `InlineEditor.Editor.constructor` | components/report/inline-editor.tsx:24 | the content starts as the initial content |
| `InlineEditor.Editor.Format` | components/report/inline-editor.tsx:102-159 | the new content is the formatted content; a non-empty selection moves by the prefix length and still covers the same text; an empty one becomes a cursor just after the prefix |
| `InlineEditor.Editor.ClickOutside` | components/report/inline-editor.tsx:59-68 | the outcome is the click-outside rule applied to the current content |
| `InlineEditor.Editor.RestoreOriginal` | components/report/inline-editor.tsx:247 | the content becomes the initial content |
| `InlineEditor.RestoreThenClickCancels` | components/report/inline-editor.tsx:63-67 | after restoring the original (line 247), clicking outside cancels |
| `RegenerateDialog.ToggleImage` | components/report/regenerateDialog.tsx:51-57 | the id is present afterwards exactly when it was absent; other ids keep their membership; an absent id is appended at the end |
| `RegenerateDialog.ToggleSelectedKeepsOrder` | components/report/regenerateDialog.tsx:53-54 | removing a selected id drops every occurrence and keeps the other ids in order |
| `RegenerateDialog.ToggleKeepsNoDuplicates` | components/report/regenerateDialog.tsx:51-57 | a selection without duplicates stays without duplicates |
| `RegenerateDialog.ToggleTwiceAbsent` | components/report/regenerateDialog.tsx:51-57 | toggling an absent id twice restores the selection |
| `RegenerateDialog.ToggleTwicePresent` | components/report/regenerateDialog.tsx:51-57 | toggling a selected id twice moves it to the end |
| `RegenerateDialog.Dialog.constructor` | components/report/regenerateDialog.tsx:36-37 | empty context, empty selection |
| `RegenerateDialog.Dialog.SetContext` | components/report/regenerateDialog.tsx:36 | the context becomes the typed text; the selection is unchanged |
| `RegenerateDialog.Dialog.Toggle` | components/report/regenerateDialog.tsx:51-57 | the selection becomes the toggled selection; the context is unchanged |
| `RegenerateDialog.Dialog.Submit` | components/report/regenerateDialog.tsx:39-43 | when not busy, hands over the current context and selection, then clears both |
| `RegenerateDialog.Dialog.Cancel` | components/report/regenerateDialog.tsx:45-49 | when not busy, asks to close and clears context and selection |
| `ImageGallery.MovesStayInRange` | components/report/image-gallery.tsx:40-48 | from an index in [0, n) both moves land in [0, n) |
| `ImageGallery.MovesAreInverse` | components/report/image-gallery.tsx:40-48 | previous undoes next and next undoes previous |
| `ImageGallery.MovesAreModular` | components/report/image-gallery.tsx:40-48 | next is the successor modulo n, previous the predecessor |
| `ImageGallery.Gallery.constructor` | components/report/image-gallery.tsx:18-19 | nothing selected, zoom 1 |
| `ImageGallery.Gallery.SetSelectedIndex` | components/report/image-gallery.tsx:18-24 | the selection is set; the zoom goes back to 1 exactly when the selection changed |
| `ImageGallery.Gallery.Previous` | components/report/image-gallery.tsx:40-43 | no-op without a selection; otherwise one back, wrapping to the last; zoom reset when the index changed |
| `ImageGallery.Gallery.Next` | components/report/image-gallery.tsx:45-48 | no-op without a selection; otherwise one on, wrapping to the first; zoom reset when the index changed |
| `ImageGallery.Gallery.Select` | components/report/image-gallery.tsx:77 | selects the clicked image (also line 220); zoom reset when the index changed |
| `ImageGallery.Gallery.Close` | components/report/image-gallery.tsx:33 | Escape clears the selection, as do the dialog's close paths at lines 114 and 165; zoom reset when something was selected |
| `ImageGallery.Gallery.ZoomIn` | components/report/image-gallery.tsx:50-52 | a quarter more, capped at 3; selection unchanged |
| `ImageGallery.Gallery.ZoomOut` | components/report/image-gallery.tsx:54-56 | a quarter less, floored at 0.5; selection unchanged |
| `ImageGallery.Gallery.ResetZoom` | components/report/image-gallery.tsx:58-60 | zoom back to 1; selection unchanged |
| `ImageGallery.ZoomInBounds` | components/report/image-gallery.tsx:50-56 | in every reachable state, starting from the zoom 1 of line 19, the zoom lies in [0.5, 3] |
| `ConfidenceBadge.AiTier` | components/report/confidence-badge.tsx:89-112 | the AI tier matches the colour tier of the same confidence (high, medium, low for emerald, amber, red) |
| `ConfidenceBadge.Badge` | components/report/confidence-badge.tsx:26-130 | Validated exactly for accepted and not manual; Edited exactly for edited and signed; Manual exactly for a manual entry; an AI tier exactly otherwise, by confidence |
| `ConfidenceBadge.AcceptedIsNeverAi` | components/report/confidence-badge.tsx:26-86 | an accepted finding shows Validated or Manual |
| `ConfidenceBadge.SignedAcceptedIsValidated` | components/report/confidence-badge.tsx:26-29 | a finding signed `Dr. Usuario` and accepted shows Validated even at full confidence |
| `ConfidenceBadge.DialogFindingIsManual` | components/report/confidence-badge.tsx:26-86 | a finding built by the add dialog shows the Manual badge |
| `HighlightedText.InRangeIsInclusive` | components/report/highlighted-text.tsx:66-68 | a value is in range exactly when it lies within both bounds, inclusive |
| `HighlightedText.MarksOf` | components/report/highlighted-text.tsx:70-99 | one mark per kept range, in the same order |
| `HighlightedText.SortByLength` | components/report/highlighted-text.tsx:25 | the result has non-increasing text lengths |
| `HighlightedText.SortByLengthPermutes` | components/report/highlighted-text.tsx:25 | the sort is a permutation of the values |
| `HighlightedText.SortByLengthStable` | components/report/highlighted-text.tsx:25 | values of equal text length keep their relative order |
| `HighlightedText.Select` | components/report/highlighted-text.tsx:30-46 | no more ranges are kept than there are values |
| `HighlightedText.OneSidedSuffices` | components/report/highlighted-text.tsx:34-37 | against a kept range at least as long, passing the one-sided test means the two ranges are apart |
| `HighlightedText.OneSidedIsOverlap` | components/report/highlighted-text.tsx:34-37 | for a non-empty range no longer than the kept one, the one-sided test is exactly interval overlap (both directions) |
| `HighlightedText.SelectFirstOccurrences` | components/report/highlighted-text.tsx:31-43 | each kept range is the first occurrence of its value text, and its value is one of the candidates |
| `HighlightedText.StepCompatible` | components/report/highlighted-text.tsx:31-44 | one step keeps the ranges pairwise compatible when every kept range is at least as long as the new value |
| `HighlightedText.SelectCompatible` | components/report/highlighted-text.tsx:25-46 | visiting in non-increasing length keeps the kept ranges pairwise compatible |
| `HighlightedText.SelectGrows` | components/report/highlighted-text.tsx:30-46 | a range, once kept, stays kept |
| `HighlightedText.SelectIsMaximal` | components/report/highlighted-text.tsx:25-46 | a candidate that occurs is kept, or hit a kept range with a value at least as long |
| `HighlightedText.SortByStart` | components/report/highlighted-text.tsx:49 | ascending starts, and a permutation |
| `HighlightedText.SortByStartChained` | components/report/highlighted-text.tsx:49 | sorting compatible ranges by start gives sorted, pairwise disjoint ranges |
| `HighlightedText.CollectHighlights` | components/report/highlighted-text.tsx:30-46 | the loop keeps exactly the ranges of the specification `Select` |
| `HighlightedText.EmitStep` | components/report/highlighted-text.tsx:55-101 | one turn covers the text up to the range's end, adds its mark, and adds no empty plain piece |
| `HighlightedText.EmitSegments` | components/report/highlighted-text.tsx:52-111 | the pieces concatenate to the text; the marks are the kept ranges in order, and each mark sits at its range's start offset in the text; no plain piece is empty |
| `HighlightedText.EmitTail` | components/report/highlighted-text.tsx:104-111 | the remaining text completes the concatenation and adds no mark |
| `HighlightedText.Render` | components/report/highlighted-text.tsx:19-113 | one plain piece when highlighting is off or there are no values; otherwise the pieces concatenate to the text, the marks are the kept ranges, each at its range's start offset, and the ranges are sorted, disjoint, first occurrences of given values, and no more than the values |
| `Text.IndexOf` | components/report/highlighted-text.tsx:31 | -1 exactly when the pattern never occurs; otherwise an occurrence with none before it |
| `Text.Trim` | components/report/findings-section.tsx:106-109 | the result is trimmed and adds no character |
| `Text.TrimIsSlice` | components/report/findings-section.tsx:106-109 | the trimmed string is the slice of the input that remains after some leading and some trailing white space |
| `Text.TrimEmpty` | components/report/findings-section.tsx:130-133 | trimming gives the empty string exactly when the string is all white space |
| `Text.DecimalValue` | app/page.tsx:62 | the decimal rendering of a number reads back as that number |
| `Text.JoinSplitLines` | components/report/diagnosis-section.tsx:31 | joining the pieces of a split gives back the string |
| `Text.SplitJoinLines` | components/report/diagnosis-section.tsx:31 | splitting a join of line-feed-free pieces gives back the pieces |
| `Seqs.FilterAppend` | app/page.tsx:79 | filtering distributes over concatenation, which is what keeping the order means |
| `Seqs.CountSplit` | components/report/findings-section.tsx:84-86 | elements passing a predicate and elements passing its complement add up to the length |
| `Seqs.FilterNoDuplicates` | components/report/regenerateDialog.tsx:54 | filtering never introduces a duplicate |
| `MockReport.MockIdsDistinct` | lib/mock-report-data.ts:88-275 | no two fixture findings share an id |
| `MockReport.MockLinksResolve` | lib/mock-report-data.ts:88-301 | every fixture finding links to one of the four images, so its card finds a thumbnail |
| `MockReport.MockUneditedTextsAgree` | lib/mock-report-data.ts:88-275 | every finding not marked edited shows its original text |
| `MockReport.MockOnlyFinding3Edited` | lib/mock-report-data.ts:117-148 | `finding-3` is the only finding marked edited |
| `MockReport.MockEditedFinding` | lib/mock-report-data.ts:117-127 | `finding-3`'s texts differ, its status is `edited` and it is signed |
| `MockReport.MockValuesOccur` | lib/mock-report-data.ts:99-264 | every abnormal value's text occurs in its finding's current text |
| `MockReport.MockDiagnosisPending` | lib/mock-report-data.ts:78-87 | the diagnosis starts pending, with no baseline and no signature |
| `MockReport.MockRangeExamples` | lib/mock-report-data.ts:128-140 | in `finding-3`, "2.91 mm" is in its range and "11.05 mm" is out of its range |
| `MockReport.MockBadges` | lib/mock-report-data.ts:89-166 | the fixture shows the Edited, Validated, high-AI and medium-AI badges where expected |

## Left out

- JSX and presentation are not part of this model. That covers markup, Tailwind classes, icons, tooltips and dialog chrome, and the diagnosis badge of `diagnosis-section.tsx`, which only picks a label by status. The purely presentational components are out too: `pdf-preview.tsx`, `patient-info-card.tsx`, `image-thumbnail.tsx`, `report-header.tsx`, `diff-viewer.tsx` and `app-header.tsx`, whose initials depend on Unicode upper-casing.
- `finding-actions.tsx` is not part of this model. Its two guards appear as preconditions instead:
  - accept is hidden once accepted (`Card.Accept`, `Section.Accept`);
  - regenerate is disabled while busy (`Card.RegenerateClick`, `Card.BeginRegenerate`).
- Toast notifications (`app/page.tsx` and the components) are fire-and-forget calls into a library; they change no state.
- The timers and `await`s are out. Regeneration is the pair `BeginRegenerate`/`FinishRegenerate` around the delay. The stale values captured before the delay are not modelled. `FindingCard.Card.FinishRegenerate` takes the finding as it was when the request started. `DiagnosisSection.Section.FinishRegenerate` takes the diagnosis as it was when the request started, so the item is appended to the items of that moment.
- Clock readings and the `Date.now()` id are parameters. The source does not guarantee that ids are unique, so `Page.DeleteAfterAdd` assumes it instead.
- DOM plumbing is out: focus, restoring the textarea selection, `document` and `window` listeners, and `next/image`.
  - `Editor.Format` returns the new selection instead of setting it.
  - `Editor.ClickOutside` stands for a mouse-down outside the container.
  - The keyboard handler of the gallery is its `Previous`, `Next` and `Close` methods.
- The `setContent(e.target.value)` of typing in the editor is not modelled as a method; any string can be the content.
- Floating point is out: the rendered percentages (`Math.round(confidence * 100)`) and the zoom's CSS scale.
- Strings are sequences of characters, while JavaScript measures strings in UTF-16 code units. Every string length and index in the model counts characters, so text outside the Basic Multilingual Plane is not modelled. This covers:
  - every length and index in `Text`, including `ConfidenceBadge.IsManualEntry`, which models `editedBy?.includes('Dr.')` with `Text.Contains`;
  - `FindingCard.RegeneratedText` and `FindingCard.Card.FinishRegenerate`: `context[..Min(50, |context|)]` stands for `substring(0, 50)`, which counts code units and can split a surrogate pair;
  - `InlineEditor.Editor.Format`: its start, its end and the selection it returns stand for `selectionStart`/`selectionEnd`, which are code-unit offsets.
- `MockReport.MockValuesOccur`: does not state that "11.05 mm" is missing from `finding-3`'s original text. It is the edited value, and proving an absence in the long literal is beyond what the fixture lemmas do cheaply.
- `HighlightedText.SortByLength` and `HighlightedText.SortByStart`: `Array.prototype.sort` is a library call. It is modelled as a stable insertion sort: ECMAScript has required `sort` to be stable since its 2019 edition.
