# iPad assessment form — a verified model of its logic

This project models the logic of a clinical skills assessment application
written in TypeScript/React, and proves properties of that model. An
administrator maintains **marking sheets**: named checklists of weighted
items, some of them critical. An assessor then picks a sheet, unlocks it
with its password, ticks the items the student performed and previews
the computed result. Both the student and the assessor sign, and the
signed assessment is stored. A list page exports the stored assessments
as CSV.

The model has one module per source file, plus three small shared modules:

| module | file | models |
|---|---|---|
| `Supabase` | `supabase.dfy` | the records of `lib/supabase.ts`, the scoring engine `calculateAssessmentScore` as an imperative loop, and the sheet's stored `total_points` sum |
| `EnhancedSheetForm` | `enhanced_sheet_form.dfy` | the weighted-item sheet editor: a class whose item list is replaced by add, remove and update |
| `SheetForm` | `sheet_form.dfy` | the simpler sheet editor, in the same style |
| `AssessmentForm` | `assessment_form.dfy` | the assessor's workflow as a class with one method per handler, the preview built from the scoring engine, and the category grouping loop |
| `AssessmentsPage` | `assessments_page.dfy` | the CSV export and the query's filter argument, paired with a parser for quoted-field CSV with LF line breaks: the subset of RFC 4180 the export writes, with inner quotes doubled as in its section 2.7 (RFC 4180 itself ends lines with CRLF) |
| `Wrappers`, `Text`, `Lists` | `wrappers.dfy`, `text.dfy`, `lists.dfy` | JavaScript's or-default on optional values; `trim`, `join` and number rendering; `filter` and index-wise `map` on lists |

JavaScript values are modelled as follows:

- Optional columns are `Option`s, and `a || d` is `StringOr` or `IntOr`. For these, `""` and `0` are falsy.
- `String.prototype.trim` strips the ECMAScript whitespace and line-terminator characters. `!s.trim()` is `IsBlank`.
- Numbers are integers or exact reals. The pass test uses the exact, unrounded percentage, which is the integer cross-multiplication (`PassTestCrossMultiplied`).
- `Math.round(x * 100) / 100` is `RoundHundredths` on reals.
- `toFixed(1)` is a function parameter `fixed1`, because its text depends on binary floating point.

In these places the code does the following, and the model follows it:

- There is no check that the item list is an array.
- The passing score is not clamped to 0–100.
- Negative points are kept; only absent and zero points become 1.
- The text of an unchecked critical item is used as it is, with no `Item <id>` fallback.
- Malformed items are not skipped.
- The pass test compares the unrounded percentage (lib/supabase.ts:345), not the rounded one.

## Model

| member | source | states |
|---|---|---|
| Wrappers.StringOr | app/assessments/page.tsx:91 | JavaScript's or-default on an optional string gives the string when present and non-empty, otherwise the default |
| Wrappers.IntOr | lib/supabase.ts:326 | JavaScript's or-default on an optional number gives the number when present and non-zero, otherwise the default |
| Text.TrimStartStrips | components/assessment-form.tsx:120 | the start-trimmed string is the suffix left after a run of whitespace, and does not itself start with whitespace |
| Text.TrimEndStrips | components/assessment-form.tsx:120 | the end-trimmed string is the prefix left before a run of whitespace, and does not itself end with whitespace |
| Text.BlankIffAllSpace | components/assessment-form.tsx:120 | a string is blank exactly when every character is whitespace |
| Text.BlankIffTrimEmpty | components/assessment-form.tsx:120 | a string is blank exactly when its trim is the empty, falsy string |
| Text.TrimIdempotent | components/assessment-form.tsx:160-163 | trimming an already trimmed name changes nothing |
| Text.JoinAvoids | lib/supabase.ts:344 | a character in neither the parts nor the separator is absent from their join |
| Text.NatToStringValue | lib/supabase.ts:350 | the decimal rendering of a natural number reads back as that number |
| Text.IntToStringValue | app/assessments/page.tsx:93-94 | the sign and digits of an integer's rendering give back the integer |
| Text.HundredthsToString | app/assessments/page.tsx:95 | the rendering of a number of hundredths has only sign, digit and point characters, with a point exactly when the fraction is non-zero |
| Text.HundredthsToStringValue | app/assessments/page.tsx:95 | read back as a decimal (digits, then optionally a point and one or two digits), the rendering gives the number: the digits before the point are the magnitude divided by 100 and those after it the remainder, with a trailing zero dropped; it starts with `-` exactly when the number is negative; a fraction never ends in `0` |
| Lists.FilterMembers | components/admin/enhanced-marking-sheet-form.tsx:103 | `filter` keeps exactly the elements that pass the test, and every kept element passes it |
| Lists.FilterConcat | components/admin/enhanced-marking-sheet-form.tsx:103 | filtering a concatenation concatenates the filtered parts |
| Lists.FilterIdempotent | components/admin/enhanced-marking-sheet-form.tsx:103 | filtering twice with the same test is filtering once |
| Lists.KeptPositionsExact | components/admin/enhanced-marking-sheet-form.tsx:103 | the kept positions are increasing, each passes the test, and every passing position is among them |
| Lists.RemoveRenumbered | components/admin/enhanced-marking-sheet-form.tsx:84-87 | removal drops exactly the element at the index, or nothing for an index that is not a position, and the k-th remaining element is renumbered k with every other field kept |
| Lists.FilterAtKeptPositions | components/admin/marking-sheet-form.tsx:63 | the k-th element of the filtered list is the element at the k-th kept position, so `filter` keeps the original order |
| Supabase.ScoreItems | lib/supabase.ts:324-334 | the one pass over the items yields the maximum and the score (the sums of effective points, over all items and over the checked ones), whether an unchecked critical item exists, and the texts of the unchecked critical items in list order |
| Supabase.CalculateAssessmentScore | lib/supabase.ts:309-360 | the loop's results are the maximum and the score, with the percentage rounded to hundredths; a critical failure fails with `Critical failure: ` and the failed texts, otherwise the unrounded pass test decides between the `Excellent performance!` and the `Below passing score` remarks |
| Supabase.RoundHundredthsBounds | lib/supabase.ts:356 | rounding to hundredths moves the percentage by at most half a hundredth, and not at all if it already is a whole number of hundredths |
| Supabase.MaxScoreConcat | lib/supabase.ts:325-327 | the maximum of a concatenation is the sum of the maxima, whatever the responses |
| Supabase.ScoreConcat | lib/supabase.ts:329-330 | the score of a concatenation is the sum of the scores |
| Supabase.DefaultPointsCountOne | lib/supabase.ts:326 | an item with absent or zero points adds exactly 1 to the maximum, wherever it stands, and 1 to the score when checked |
| Supabase.ScoreBounds | lib/supabase.ts:325-330 | with no negative points, 0 ≤ score ≤ maximum |
| Supabase.AllCheckedScoresMax | lib/supabase.ts:325-347 | with every item checked the score is the maximum and there is no critical failure, so a positive maximum passes any passing score up to 100 |
| Supabase.ScoreMonotone | lib/supabase.ts:329-330 | checking more items never lowers the score when no points are negative |
| Supabase.CriticalFailuresAreUncheckedCriticalTexts | lib/supabase.ts:331-333 | the failure list is the texts of the unchecked critical items, in list order |
| Supabase.CriticalFailuresEmptyIff | lib/supabase.ts:331-344 | the failure list is non-empty exactly when some critical item is unchecked |
| Supabase.PassTestCrossMultiplied | lib/supabase.ts:337-345 | `percentage >= passingScore` holds exactly when `totalScore*100 >= passingScore*maxPossibleScore` for a positive maximum, and when `passingScore <= 0` otherwise |
| Supabase.EmptyChecklist | lib/supabase.ts:337-345 | an empty checklist has maximum, score and percentage 0, no critical failure, and passes exactly when the passing score is at most 0 |
| Supabase.PointsSumConcat | lib/supabase.ts:118 | the stored total of a concatenation is the sum of the totals |
| Supabase.PointsSumSplits | lib/supabase.ts:171 | splitting the items by a test and its negation splits the stored total |
| Supabase.StoredTotalVersusMaxScore | lib/supabase.ts:118 | the scoring maximum exceeds the stored `total_points` by one per zero-point item, because the stored sum has no default of one |
| EnhancedSheetForm.InitialItems | components/admin/enhanced-marking-sheet-form.tsx:50-68 | the initial list is numbered 1..n with the loaded text, points (default 1), criticality (default false), category (default `""`) and critical condition (default `""`); it is a single blank item without a sheet or an item list |
| EnhancedSheetForm.WithField | components/admin/enhanced-marking-sheet-form.tsx:91 | setting one field of an item changes that field only |
| EnhancedSheetForm.SubmittedItems | components/admin/enhanced-marking-sheet-form.tsx:103 | the sent items are exactly the listed items whose text is not blank |
| EnhancedSheetForm.CriticalItems | components/admin/enhanced-marking-sheet-form.tsx:108 | the critical summary holds exactly the critical items, and no more than the list |
| EnhancedSheetForm.EnhancedMarkingSheetForm.constructor | components/admin/enhanced-marking-sheet-form.tsx:45-68 | the initial name, description, passing score (default 70), password (default `assess2024`), enabled flag (true unless stored false) and item list |
| EnhancedSheetForm.EnhancedMarkingSheetForm.AddChecklistItem | components/admin/enhanced-marking-sheet-form.tsx:70-82 | one blank item with one point, not critical, is appended as number length+1; the other items and fields are unchanged and the numbering is kept |
| EnhancedSheetForm.EnhancedMarkingSheetForm.RemoveChecklistItem | components/admin/enhanced-marking-sheet-form.tsx:84-87 | the list becomes the old list without the item at the index, renumbered 1..n (`RemoveRenumbered`); it stays numbered, and a list of more than one item keeps at least one; the other fields are unchanged |
| EnhancedSheetForm.EnhancedMarkingSheetForm.UpdateChecklistItem | components/admin/enhanced-marking-sheet-form.tsx:89-93 | only the chosen field of the item at the index changes; length and the other items stay the same |
| EnhancedSheetForm.EnhancedMarkingSheetForm.HandleSubmit | components/admin/enhanced-marking-sheet-form.tsx:95-105 | the payload holds the form's fields and exactly the items with non-blank text |
| EnhancedSheetForm.AddThenRemoveRestores | components/admin/enhanced-marking-sheet-form.tsx:70-87 | removing the item just added gives back the numbered list it was added to |
| EnhancedSheetForm.SubmittedOrderIncreases | components/admin/enhanced-marking-sheet-form.tsx:103 | the sent items keep their order, so their `order_index` strictly increases |
| EnhancedSheetForm.DisplayedTotalSplitsOnSubmit | components/admin/enhanced-marking-sheet-form.tsx:107 | the displayed total is the total of the sent items plus the total of the blank items dropped on submit |
| SheetForm.InitialItems | components/admin/marking-sheet-form.tsx:35-41 | the initial list is numbered 1..n with the loaded text and category (default `""`); it is a single blank item without a sheet or an item list |
| SheetForm.WithField | components/admin/marking-sheet-form.tsx:54 | setting one field of an item changes that field only |
| SheetForm.SubmittedItems | components/admin/marking-sheet-form.tsx:63 | the sent items are exactly the non-blank ones, each the item at the matching kept position, in order |
| SheetForm.MarkingSheetForm.constructor | components/admin/marking-sheet-form.tsx:33-41 | the initial name, description and item list |
| SheetForm.MarkingSheetForm.AddChecklistItem | components/admin/marking-sheet-form.tsx:43-45 | `{text: "", category: "", order_index: length+1}` is appended and nothing else changes |
| SheetForm.MarkingSheetForm.RemoveChecklistItem | components/admin/marking-sheet-form.tsx:47-50 | the list becomes the old list without the item at the index, renumbered 1..n (`RemoveRenumbered`); it stays numbered, and a list of more than one item keeps at least one; name and description are unchanged |
| SheetForm.MarkingSheetForm.UpdateChecklistItem | components/admin/marking-sheet-form.tsx:52-56 | only the chosen field of the item at the index changes |
| SheetForm.MarkingSheetForm.HandleSubmit | components/admin/marking-sheet-form.tsx:58-65 | the payload holds name, description and exactly the non-blank items |
| AssessmentForm.FindSheet | components/assessment-form.tsx:65 | `find` returns a listed sheet with the id, or nothing when no sheet has it |
| AssessmentForm.FindSheetIsFirst | components/assessment-form.tsx:65 | the sheet found is the first with the id |
| AssessmentForm.PassingScoreOf | components/assessment-form.tsx:144 | the passing score is the sheet's, or 70 when it is absent or zero |
| AssessmentForm.PreviewError | components/assessment-form.tsx:120-139 | the preview is allowed exactly when a sheet is selected, all four names are non-blank and the sheet has items; the required-fields message exactly when the sheet is missing or a name is blank; the no-items message exactly when those are present but the sheet has no items |
| AssessmentForm.InCategory | components/assessment-form.tsx:271-273 | a category's items are exactly the items whose category, defaulting to `General`, is that category |
| AssessmentForm.BuildPreview | components/assessment-form.tsx:144-176 | the results hold the trimmed names, the sheet's name and id, the responses, both counts with the rounded completion percentage, and the scoring engine's figures; the status passes exactly when no critical item is unchecked and the pass test holds for the sheet's passing score; the remarks are the critical-failure text when a critical item is unchecked, else the excellent or below-passing text with the percentage |
| AssessmentForm.AssessmentForm.constructor | components/assessment-form.tsx:30-41 | the empty initial state over the fetched sheets |
| AssessmentForm.AssessmentForm.HandleSheetSelection | components/assessment-form.tsx:64-76 | selection locks the sheet and clears password, responses, status, results, signatures and error; the names are kept |
| AssessmentForm.AssessmentForm.HandlePasswordVerification | components/assessment-form.tsx:78-104 | without a sheet or with a blank password, the password-required message; otherwise the check of the trimmed password unlocks, or reports a wrong password or a failed check |
| AssessmentForm.AssessmentForm.CancelUnlock | components/assessment-form.tsx:527-531 | cancel drops the selection, the password and the error |
| AssessmentForm.AssessmentForm.EditText | components/assessment-form.tsx:423-670 | each of the seven text inputs (the two signatures at 423 and 437, the password at 502, the four names at 625, 639, 656 and 670) sets its one field and nothing else |
| AssessmentForm.AssessmentForm.HandleChecklistChange | components/assessment-form.tsx:106-115 | one response is set and every other key is unchanged |
| AssessmentForm.AssessmentForm.HandlePreviewResults | components/assessment-form.tsx:117-188 | a refused preview sets the error and keeps status and results; otherwise the status is preview with the results `BuildPreview` specifies, remarks included |
| AssessmentForm.AssessmentForm.ShowPreview | components/assessment-form.tsx:181-182 | the result is held and the status becomes preview; every other field keeps its value |
| AssessmentForm.AssessmentForm.HandleFinalSubmit | components/assessment-form.tsx:190-258 | without a result or with a blank signature, the signatures message and nothing sent; otherwise the result is sent with both trimmed signatures as `acknowledged_by`, and the status is success or error with the failure message |
| AssessmentForm.AssessmentForm.ResetAfterSubmit | components/assessment-form.tsx:236-249 | the delayed reset after a successful submit clears the four names, the selection and its lock, the password, the responses, the result and both signatures, and sets the status to idle; the error and the fetched sheets are kept |
| AssessmentForm.AssessmentForm.HandleBackToEdit | components/assessment-form.tsx:260-266 | back to idle with results, signatures and error cleared; responses and names are kept |
| AssessmentForm.GroupsOfStep | components/assessment-form.tsx:270-274 | one step of the reduce extends the grouping of a prefix to the next item |
| AssessmentForm.GroupsOfItems | components/assessment-form.tsx:268-277 | a grouping's keys are the categories present, and every item lies in the group of its own category and no other |
| AssessmentForm.GroupByCategory | components/assessment-form.tsx:268-277 | nothing (the reduce throws) exactly when some category names a property every object inherits, such as `constructor`, `toString` or `__proto__`: `acc[category]` is then already truthy and has no `push`; otherwise the groups are exactly the categories that occur, each with its items in list order, and every item is in the group of its own category |
| AssessmentForm.ItemIds | components/assessment-form.tsx:152 | there are no more distinct item ids than items |
| AssessmentForm.ItemIdsExactly | components/assessment-form.tsx:152 | an id is among the item ids exactly when some item carries it, in both directions |
| AssessmentForm.CompletedAtMostTotal | components/assessment-form.tsx:152-154 | when responses are recorded only for the sheet's items, completed ≤ total and the completion percentage is between 0 and 100 |
| AssessmentForm.CompletionAtMostHundred | components/assessment-form.tsx:154 | a share of at most all items is at most 100 percent |
| AssessmentForm.ToggleChangesCompletedByOne | components/assessment-form.tsx:106-115 | ticking raises the completed count by one unless already ticked; unticking lowers it by one if ticked |
| AssessmentsPage.FilterArgument | app/assessments/page.tsx:65 | the filters are passed exactly when the sheet id, start date or end date is non-empty, otherwise nothing is |
| AssessmentsPage.Cells | app/assessments/page.tsx:88-99 | a row has as many cells as the header: the two names; the sheet name, or `Unknown` exactly when it is missing or empty; the date text; score and maximum rendered as integers (default 0); the percentage rendered from hundredths followed by `%`; the status (default `pending`); the remarks (default `""`); `Yes` exactly when acknowledged, else `No` |
| AssessmentsPage.Table | app/assessments/page.tsx:76-99 | the header row, then one row per assessment in input order |
| AssessmentsPage.Escape | app/assessments/page.tsx:101 | a cell without double quotes is written as it is |
| AssessmentsPage.ReadQuotedEscape | app/assessments/page.tsx:101 | an escaped field reads back as its cell |
| AssessmentsPage.ParseFieldsLine | app/assessments/page.tsx:101 | a line of escaped fields joined by `,` parses back to its cells |
| AssessmentsPage.ParseCsvRoundTrip | app/assessments/page.tsx:101 | lines joined by a newline parse back to the table, whatever the cells contain |
| AssessmentsPage.ExportToCsv | app/assessments/page.tsx:75-101 | the corrected export (inner quotes doubled) parses back to the header and one row of cells per assessment |
| AssessmentsPage.ExportToCsvAsWritten | app/assessments/page.tsx:75-101 | the page's export as written: when no cell holds a double quote it is the same text as the corrected export and parses back to the table |
| AssessmentsPage.QuoteInCellBreaksAsWritten | app/assessments/page.tsx:101 | the page's export of a cell `a"b` does not parse, while the escaped export parses back |

## Left out

- Database access is foreign I/O and is not modelled. This covers fetching sheets and assessments, `submitAssessment`, creating, updating and deleting sheets, and building the `getAssessments` query. The outcome of storing a submission is a parameter of `HandleFinalSubmit`.
- `verifyMarkingSheetPassword` is not part of this model. Its answer is a parameter of `HandlePasswordVerification`.
- Authentication is left out, as are the auth checks of the pages and the login form.
- Loading flags, `async` ordering and console logging are left out.
- The 3-second delay before the reset after a successful submit is a timer and is left out; the reset itself is `ResetAfterSubmit`. It does not clear `error`.
- Floating point is not modelled; percentages are exact reals. For example, `57/100*100` is `56.99…` in binary floating point, so a score that meets the passing score exactly can fail in the application but passes in the model. `NaN` points and scores are not modelled.
- `toFixed(1)` in the remarks is a function parameter, because its text depends on floating point.
- The CSV percentage cell is modelled as a whole number of hundredths. This is the value the scoring engine stores after rounding; other JavaScript number renderings are not modelled.
- Dates are left out: `toLocaleDateString` is the `dateText` parameter of the export, and `assessment_date` and `acknowledged_at` are clock values not held in the model.
- The Blob, object URL and download of the CSV file are browser effects and are left out, as is the file name.
- The error paths for a scoring exception and an unexpected exception in `handlePreviewResults` are left out. The model's scoring cannot throw.
- The error message of a failed fetch is left out; it belongs to the database layer.
- Render-only state is left out: `showPassword`, `isVerifyingPassword` and `isSubmitting`, the disabled state of buttons, and the enabled sheets' filter in the query.
- The student acknowledgment page, the access guard, the admin and login pages and the layout are not part of this model.
- The order of `Object.entries` in `groupedItems` is left out: the groups are a map, and only the order within each group is modelled.
- `completion_percentage` is held in the results, but `handleFinalSubmit` is modelled as sending the results record as it is, not field by field.
- EnhancedSheetForm.EnhancedMarkingSheetForm.UpdateChecklistItem: requires a valid index. The editor only calls it with the index of a rendered item; an out-of-range index, which would add a sparse entry in JavaScript, is not modelled.
- SheetForm.MarkingSheetForm.UpdateChecklistItem: requires a valid index, for the same reason.
- AssessmentForm.AssessmentForm.CancelUnlock: requires a locked sheet, because the Cancel button is only rendered on the password screen.
- EnhancedSheetForm.EnhancedMarkingSheetForm.CanRemove and SheetForm.MarkingSheetForm.CanRemove: these are the remove button's enabled state, `length !== 1`. They are stated by their bodies and carry no contract.
- EnhancedSheetForm.EnhancedMarkingSheetForm.TotalPoints: `sum + (item.points || 0)`, which on integer points is the plain sum `PointsSum`. Its properties are stated by `DisplayedTotalSplitsOnSubmit`.

## Findings

| source | as written | input that shows it | evidently intended | confidence | as-written member | corrected member |
|---|---|---|---|---|---|---|
| app/assessments/page.tsx:101 | every cell is written as `"${cell}"`, so a double quote inside a cell is not doubled | a remark or item text `a"b` becomes the field `"a"b"`, which closes after `a` and is followed by neither a comma nor a newline | a CSV file that reads back as the exported cells, with inner quotes doubled as section 2.7 of RFC 4180 requires | medium, not executed | AssessmentsPage.QuoteInCellBreaksAsWritten | AssessmentsPage.ExportToCsv |

`ExportToCsvAsWritten` is the page's export as written. `ExportToCsv`, the corrected export, doubles inner quotes, and `ParseCsvRoundTrip` proves that it reads back for every content of the cells.
