/** The assessor's workflow of `components/assessment-form.tsx`: pick a
    marking sheet, unlock it, tick the checklist, preview the computed
    result, collect both signatures and submit. The component state is the
    class `AssessmentForm`; every handler is a method that sets its fields. */
module AssessmentForm {
  import opened Wrappers
  import opened Text
  import opened Lists
  import opened Supabase

  datatype SubmitStatus = Idle | Preview | Success | Error

  /** The results object built by `handlePreviewResults`. */
  datatype Results = Results(
    studentName: string,
    assessorName: string,
    sectionName: string,
    className: string,
    markingSheetName: string,
    markingSheetId: string,
    checklistResponses: map<string, bool>,
    totalItems: nat,
    completedItems: nat,
    completionPercentage: real,
    totalScore: int,
    maxPossibleScore: int,
    percentageScore: real,
    status: Status,
    remarks: string)

  /** The assessment record `handleFinalSubmit` sends for storage. */
  datatype Submission = Submission(results: Results, acknowledgedBy: string)

  /** The answer of the password check `verifyMarkingSheetPassword`, which
      is not part of this model: the password is right, wrong, or the call
      failed. */
  datatype Verification = Accepted | Refused | Unreachable

  /** The outcome of storing the submission: stored, or failed with the
      error's message. */
  datatype SubmitOutcome = Stored | Rejected(message: string)

  /** The text inputs whose `onChange` sets one state field. */
  datatype TextInput =
    | StudentNameInput | AssessorNameInput | SectionNameInput | ClassNameInput
    | SheetPasswordInput | StudentSignatureInput | AssessorSignatureInput

  // ----- the messages the form shows -----

  const SignaturesRequired: string := "Both student and assessor signatures are required"
  const SubmitFailedPrefix: string := "Failed to submit assessment: "
  const UnknownError: string := "Unknown error"
  const PasswordRequired: string := "Please enter the password"
  const IncorrectPassword: string := "Incorrect password. Please contact your administrator for the correct password."
  const VerificationFailed: string := "Failed to verify password. Please try again."
  const RequiredFieldsMissing: string := "Please fill in all required fields"
  const NoChecklistItems: string := "No checklist items found for this marking sheet"

  // ----- plain functions of the form's data -----

  /** `markingSheets.find((s) => s.id === sheetId)`: a sheet with that id
      when there is one (the first, `FindSheetIsFirst`), else `None`. */
  function FindSheet(sheets: seq<MarkingSheet>, sheetId: string): (r: Option<MarkingSheet>)
    ensures r.Some? ==> r.value in sheets && r.value.id == sheetId
    ensures r.None? ==> forall k :: 0 <= k < |sheets| ==> sheets[k].id != sheetId
  {
    if sheets == [] then None
    else if sheets[0].id == sheetId then Some(sheets[0])
    else FindSheet(sheets[1..], sheetId)
  }

  /** The sheet found is the first one with the id. */
  lemma {:induction false} FindSheetIsFirst(sheets: seq<MarkingSheet>, sheetId: string)
    requires FindSheet(sheets, sheetId).Some?
    ensures exists k :: 0 <= k < |sheets| && sheets[k] == FindSheet(sheets, sheetId).value &&
                        forall j :: 0 <= j < k ==> sheets[j].id != sheetId
  {
    if sheets[0].id != sheetId {
      FindSheetIsFirst(sheets[1..], sheetId);
      var k :| 0 <= k < |sheets[1..]| && sheets[1..][k] == FindSheet(sheets[1..], sheetId).value &&
               forall j :: 0 <= j < k ==> sheets[1..][j].id != sheetId;
      assert sheets[k + 1] == FindSheet(sheets, sheetId).value;
      assert forall j :: 1 <= j < k + 1 ==> sheets[j] == sheets[1..][j - 1];
    } else {
      assert sheets[0] == FindSheet(sheets, sheetId).value;
    }
  }

  /** `sheet.checklist_items || []`. */
  function SheetItems(sheet: MarkingSheet): seq<ChecklistItem> {
    if sheet.checklistItems.Some? then sheet.checklistItems.value else []
  }

  /** `sheet.passing_score || 70`: a stored zero also becomes 70. */
  function PassingScoreOf(sheet: MarkingSheet): (p: int)
    ensures sheet.passingScore == Some(0) || sheet.passingScore.None? ==> p == 70
    ensures sheet.passingScore.Some? && sheet.passingScore.value != 0 ==> p == sheet.passingScore.value
  {
    IntOr(sheet.passingScore, 70)
  }

  /** `Object.values(responses).filter(Boolean).length`. */
  function CompletedItems(responses: map<string, bool>): nat {
    |set id | id in responses && responses[id]|
  }

  /** `totalItems > 0 ? (completedItems / totalItems) * 100 : 0`, exactly. */
  function CompletionPercentage(totalItems: nat, completedItems: nat): real {
    if totalItems > 0 then (completedItems as real / totalItems as real) * 100.0 else 0.0
  }

  /** The validation of `handlePreviewResults`: the error it reports, or
      `None` when the preview can be built. */
  function PreviewError(selectedSheet: Option<MarkingSheet>, studentName: string, assessorName: string,
                        sectionName: string, className: string): (r: Option<string>)
    ensures r == Some(RequiredFieldsMissing) <==>
      selectedSheet.None? || IsBlank(studentName) || IsBlank(assessorName) ||
      IsBlank(sectionName) || IsBlank(className)
    ensures r == Some(NoChecklistItems) <==>
      selectedSheet.Some? && !IsBlank(studentName) && !IsBlank(assessorName) &&
      !IsBlank(sectionName) && !IsBlank(className) && |SheetItems(selectedSheet.value)| == 0
    ensures r.None? <==>
      selectedSheet.Some? && !IsBlank(studentName) && !IsBlank(assessorName) &&
      !IsBlank(sectionName) && !IsBlank(className) && |SheetItems(selectedSheet.value)| > 0
  {
    if selectedSheet.None? || IsBlank(studentName) || IsBlank(assessorName) || IsBlank(sectionName) || IsBlank(className) then
      Some(RequiredFieldsMissing)
    else if |SheetItems(selectedSheet.value)| == 0 then
      Some(NoChecklistItems)
    else
      None
  }

  /** `acknowledged_by` of the submission. */
  function AcknowledgedBy(studentSignature: string, assessorSignature: string): string {
    "Student: " + Trim(studentSignature) + " | Assessor: " + Trim(assessorSignature)
  }

  /** `item.category || "General"`: the group an item is shown under. */
  function CategoryOf(item: ChecklistItem): string {
    StringOr(item.category, "General")
  }

  /** The items of a category, in list order. */
  function InCategory(items: seq<ChecklistItem>, category: string): (r: seq<ChecklistItem>)
    ensures |r| <= |items|
    ensures forall x :: x in r <==> x in items && CategoryOf(x) == category
  {
    if items == [] then []
    else
      var n := |items| - 1;
      assert items == items[..n] + [items[n]];
      InCategory(items[..n], category) + (if CategoryOf(items[n]) == category then [items[n]] else [])
  }

  // ----- the preview -----

  /** `res` previews the assessment of `sheet` with these names and
      responses: the trimmed names, the sheet's name and id, the item and
      completion counts, and the score, which passes exactly when no
      critical item is unchecked and the percentage reaches the sheet's
      passing score, with the remark of its verdict. */
  ghost predicate IsPreview(res: Results, sheet: MarkingSheet, studentName: string, assessorName: string,
                            sectionName: string, className: string, responses: map<string, bool>,
                            fixed1: real -> string) {
    var items := SheetItems(sheet);
    res.studentName == Trim(studentName) && res.assessorName == Trim(assessorName) &&
    res.sectionName == Trim(sectionName) && res.className == Trim(className) &&
    res.markingSheetName == sheet.name && res.markingSheetId == sheet.id &&
    res.checklistResponses == responses &&
    res.totalItems == |items| && res.completedItems == CompletedItems(responses) &&
    res.completionPercentage == RoundHundredths(CompletionPercentage(res.totalItems, res.completedItems)) &&
    res.totalScore == Score(items, responses) && res.maxPossibleScore == MaxScore(items) &&
    res.percentageScore == RoundHundredths(Percentage(res.totalScore, res.maxPossibleScore)) &&
    (res.status == Passed <==>
       !HasCriticalFailure(items, responses) && MeetsPassing(res.totalScore, res.maxPossibleScore, PassingScoreOf(sheet))) &&
    (HasCriticalFailure(items, responses) ==> res.remarks == CriticalRemark(CriticalFailures(items, responses))) &&
    (res.status == Passed ==> res.remarks == ExcellentRemark(fixed1, Percentage(res.totalScore, res.maxPossibleScore))) &&
    (res.status == Failed && !HasCriticalFailure(items, responses) ==>
       res.remarks == BelowPassingRemark(PassingScoreOf(sheet), fixed1, Percentage(res.totalScore, res.maxPossibleScore)))
  }

  /** The `results` object of `handlePreviewResults`, scored with the
      sheet's passing score (70 when it has none). */
  method BuildPreview(sheet: MarkingSheet, studentName: string, assessorName: string, sectionName: string,
                      className: string, responses: map<string, bool>, fixed1: real -> string)
    returns (res: Results)
    ensures IsPreview(res, sheet, studentName, assessorName, sectionName, className, responses, fixed1)
  {
    var items := SheetItems(sheet);
    var score := CalculateAssessmentScore(items, responses, IntOr(sheet.passingScore, 70), fixed1);
    var totalItems := |items|;
    var completedItems := |set id | id in responses && responses[id]|;
    var completionPercentage := if totalItems > 0 then (completedItems as real / totalItems as real) * 100.0 else 0.0;
    res := Results(Trim(studentName), Trim(assessorName), Trim(sectionName), Trim(className),
                   sheet.name, sheet.id, responses, totalItems, completedItems,
                   RoundHundredths(completionPercentage),
                   score.totalScore, score.maxPossibleScore, score.percentageScore,
                   score.status, score.remarks);
  }

  // ----- the component state -----

  class AssessmentForm {
    var markingSheets: seq<MarkingSheet>
    var selectedSheet: Option<MarkingSheet>
    var isSheetUnlocked: bool
    var sheetPassword: string
    var studentName: string
    var assessorName: string
    var sectionName: string
    var className: string
    var checklistResponses: map<string, bool>
    var submitStatus: SubmitStatus
    var error: Option<string>
    var assessmentResults: Option<Results>
    var studentSignature: string
    var assessorSignature: string

    /** The form is idle exactly when no result is held, and only a
        selected sheet can be unlocked. */
    ghost predicate Valid()
      reads this
    {
      (submitStatus == Idle <==> assessmentResults.None?) &&
      (isSheetUnlocked ==> selectedSheet.Some?)
    }

    /** The state after the enabled sheets were fetched. */
    constructor (sheets: seq<MarkingSheet>)
      ensures Valid()
      ensures markingSheets == sheets && selectedSheet.None? && !isSheetUnlocked && sheetPassword == ""
      ensures studentName == "" && assessorName == "" && sectionName == "" && className == ""
      ensures checklistResponses == map[] && submitStatus == Idle && error.None? && assessmentResults.None?
      ensures studentSignature == "" && assessorSignature == ""
    {
      markingSheets := sheets;
      selectedSheet, isSheetUnlocked, sheetPassword := None, false, "";
      studentName, assessorName, sectionName, className := "", "", "", "";
      checklistResponses, submitStatus, error, assessmentResults := map[], Idle, None, None;
      studentSignature, assessorSignature := "", "";
    }

    /** `handleSheetSelection(sheetId)`: selecting a sheet locks it and
        resets the responses, the status, the results, both signatures and
        the error; the names are kept. */
    method HandleSheetSelection(sheetId: string)
      requires Valid()
      modifies this
      ensures Valid()
      ensures selectedSheet == FindSheet(markingSheets, sheetId)
      ensures !isSheetUnlocked && sheetPassword == "" && checklistResponses == map[]
      ensures submitStatus == Idle && assessmentResults.None? && error.None?
      ensures studentSignature == "" && assessorSignature == ""
      ensures markingSheets == old(markingSheets)
      ensures studentName == old(studentName) && assessorName == old(assessorName)
      ensures sectionName == old(sectionName) && className == old(className)
    {
      selectedSheet := FindSheet(markingSheets, sheetId);
      isSheetUnlocked := false;
      sheetPassword := "";
      checklistResponses := map[];
      HandleBackToEdit();
    }

    /** `handlePasswordVerification`: `verify(id, password)` stands for the
        answer of the password check on the sheet and the trimmed password. */
    method HandlePasswordVerification(verify: (string, string) -> Verification)
      requires Valid()
      modifies this
      ensures Valid()
      ensures selectedSheet.None? || IsBlank(old(sheetPassword)) ==>
        error == Some(PasswordRequired) && isSheetUnlocked == old(isSheetUnlocked)
      ensures selectedSheet.Some? && !IsBlank(sheetPassword) ==>
        var verdict := verify(selectedSheet.value.id, Trim(sheetPassword));
        (verdict == Accepted ==> isSheetUnlocked && error.None?) &&
        (verdict == Refused ==>
           isSheetUnlocked == old(isSheetUnlocked) &&
           error == Some(IncorrectPassword)) &&
        (verdict == Unreachable ==>
           isSheetUnlocked == old(isSheetUnlocked) &&
           error == Some(VerificationFailed))
      ensures markingSheets == old(markingSheets) && selectedSheet == old(selectedSheet) && sheetPassword == old(sheetPassword)
      ensures studentName == old(studentName) && assessorName == old(assessorName)
      ensures sectionName == old(sectionName) && className == old(className)
      ensures checklistResponses == old(checklistResponses) && submitStatus == old(submitStatus)
      ensures assessmentResults == old(assessmentResults)
      ensures studentSignature == old(studentSignature) && assessorSignature == old(assessorSignature)
    {
      if selectedSheet.None? || IsBlank(sheetPassword) {
        error := Some(PasswordRequired);
        return;
      }
      error := None;
      var verdict := verify(selectedSheet.value.id, Trim(sheetPassword));
      match verdict
      case Accepted =>
        isSheetUnlocked := true;
        error := None;
      case Refused =>
        error := Some(IncorrectPassword);
      case Unreachable =>
        error := Some(VerificationFailed);
    }

    /** The Cancel button of the password screen, which is shown only while
        the selected sheet is locked: the selection is dropped. */
    method CancelUnlock()
      requires Valid() && !isSheetUnlocked
      modifies this
      ensures Valid()
      ensures selectedSheet.None? && sheetPassword == "" && error.None?
      ensures isSheetUnlocked == old(isSheetUnlocked) && markingSheets == old(markingSheets)
      ensures studentName == old(studentName) && assessorName == old(assessorName)
      ensures sectionName == old(sectionName) && className == old(className)
      ensures checklistResponses == old(checklistResponses) && submitStatus == old(submitStatus)
      ensures assessmentResults == old(assessmentResults)
      ensures studentSignature == old(studentSignature) && assessorSignature == old(assessorSignature)
    {
      selectedSheet := None;
      sheetPassword := "";
      error := None;
    }

    /** An `onChange` of one text input. */
    method EditText(input: TextInput, value: string)
      requires Valid()
      modifies this
      ensures Valid()
      ensures studentName == (if input == StudentNameInput then value else old(studentName))
      ensures assessorName == (if input == AssessorNameInput then value else old(assessorName))
      ensures sectionName == (if input == SectionNameInput then value else old(sectionName))
      ensures className == (if input == ClassNameInput then value else old(className))
      ensures sheetPassword == (if input == SheetPasswordInput then value else old(sheetPassword))
      ensures studentSignature == (if input == StudentSignatureInput then value else old(studentSignature))
      ensures assessorSignature == (if input == AssessorSignatureInput then value else old(assessorSignature))
      ensures markingSheets == old(markingSheets) && selectedSheet == old(selectedSheet)
      ensures isSheetUnlocked == old(isSheetUnlocked) && checklistResponses == old(checklistResponses)
      ensures submitStatus == old(submitStatus) && error == old(error) && assessmentResults == old(assessmentResults)
    {
      match input
      case StudentNameInput => studentName := value;
      case AssessorNameInput => assessorName := value;
      case SectionNameInput => sectionName := value;
      case ClassNameInput => className := value;
      case SheetPasswordInput => sheetPassword := value;
      case StudentSignatureInput => studentSignature := value;
      case AssessorSignatureInput => assessorSignature := value;
    }

    /** `handleChecklistChange(itemId, checked)`: one response set, every
        other response and the rest of the state unchanged. */
    method HandleChecklistChange(itemId: string, checked: bool)
      requires Valid()
      modifies this
      ensures Valid()
      ensures checklistResponses == old(checklistResponses)[itemId := checked]
      ensures forall id :: id != itemId ==> (id in checklistResponses <==> id in old(checklistResponses))
      ensures forall id :: id != itemId && id in checklistResponses ==> checklistResponses[id] == old(checklistResponses)[id]
      ensures markingSheets == old(markingSheets) && selectedSheet == old(selectedSheet)
      ensures isSheetUnlocked == old(isSheetUnlocked) && sheetPassword == old(sheetPassword)
      ensures studentName == old(studentName) && assessorName == old(assessorName)
      ensures sectionName == old(sectionName) && className == old(className)
      ensures submitStatus == old(submitStatus) && error == old(error) && assessmentResults == old(assessmentResults)
      ensures studentSignature == old(studentSignature) && assessorSignature == old(assessorSignature)
    {
      checklistResponses := checklistResponses[itemId := checked];
    }

    /** `handlePreviewResults`: refused, with the status and the results
        unchanged, unless a sheet is selected, all four names are filled in
        and the sheet has items; otherwise the scored result is previewed.
        `fixed1(p)` stands for `p.toFixed(1)`. */
    method HandlePreviewResults(fixed1: real -> string)
      requires Valid()
      modifies this
      ensures Valid()
      ensures PreviewError(selectedSheet, studentName, assessorName, sectionName, className).Some? ==>
        error == PreviewError(selectedSheet, studentName, assessorName, sectionName, className) &&
        submitStatus == old(submitStatus) && assessmentResults == old(assessmentResults)
      ensures PreviewError(selectedSheet, studentName, assessorName, sectionName, className).None? ==>
        submitStatus == Preview && error.None? && assessmentResults.Some? &&
        IsPreview(assessmentResults.value, selectedSheet.value, studentName, assessorName, sectionName, className,
                  checklistResponses, fixed1)
      ensures markingSheets == old(markingSheets) && selectedSheet == old(selectedSheet)
      ensures isSheetUnlocked == old(isSheetUnlocked) && sheetPassword == old(sheetPassword)
      ensures studentName == old(studentName) && assessorName == old(assessorName)
      ensures sectionName == old(sectionName) && className == old(className)
      ensures checklistResponses == old(checklistResponses)
      ensures studentSignature == old(studentSignature) && assessorSignature == old(assessorSignature)
    {
      if selectedSheet.None? || IsBlank(studentName) || IsBlank(assessorName) || IsBlank(sectionName) || IsBlank(className) {
        error := Some(RequiredFieldsMissing);
        return;
      }
      error := None;
      var sheet := selectedSheet.value;
      var items := SheetItems(sheet);
      if |items| == 0 {
        error := Some(NoChecklistItems);
        return;
      }
      var results := BuildPreview(sheet, studentName, assessorName, sectionName, className,
                                  checklistResponses, fixed1);
      ShowPreview(results);
    }

    /** `setAssessmentResults(results)` and `setSubmitStatus("preview")`:
        the result is held and shown, nothing else changes. */
    method ShowPreview(results: Results)
      requires Valid()
      modifies this
      ensures Valid()
      ensures assessmentResults == Some(results) && submitStatus == Preview
      ensures error == old(error)
      ensures markingSheets == old(markingSheets) && selectedSheet == old(selectedSheet)
      ensures isSheetUnlocked == old(isSheetUnlocked) && sheetPassword == old(sheetPassword)
      ensures studentName == old(studentName) && assessorName == old(assessorName)
      ensures sectionName == old(sectionName) && className == old(className)
      ensures checklistResponses == old(checklistResponses)
      ensures studentSignature == old(studentSignature) && assessorSignature == old(assessorSignature)
    {
      assessmentResults := Some(results);
      submitStatus := Preview;
    }

    /** `handleFinalSubmit`: refused unless a result is held and both
        signatures are filled in; otherwise the result is sent with
        `acknowledged_by` naming both signers, and the status records
        whether storing it succeeded. */
    method HandleFinalSubmit(outcome: SubmitOutcome) returns (sent: Option<Submission>)
      requires Valid()
      modifies this
      ensures Valid()
      ensures old(assessmentResults).None? || IsBlank(studentSignature) || IsBlank(assessorSignature) ==>
        sent.None? && error == Some(SignaturesRequired) &&
        submitStatus == old(submitStatus) && assessmentResults == old(assessmentResults)
      ensures old(assessmentResults).Some? && !IsBlank(studentSignature) && !IsBlank(assessorSignature) ==>
        sent == Some(Submission(old(assessmentResults).value, AcknowledgedBy(studentSignature, assessorSignature))) &&
        assessmentResults == old(assessmentResults) &&
        (outcome == Stored ==> submitStatus == Success && error.None?) &&
        (outcome.Rejected? ==>
           submitStatus == Error &&
           error == Some(SubmitFailedPrefix + (if outcome.message == "" then UnknownError else outcome.message)))
      ensures markingSheets == old(markingSheets) && selectedSheet == old(selectedSheet)
      ensures isSheetUnlocked == old(isSheetUnlocked) && sheetPassword == old(sheetPassword)
      ensures studentName == old(studentName) && assessorName == old(assessorName)
      ensures sectionName == old(sectionName) && className == old(className)
      ensures checklistResponses == old(checklistResponses)
      ensures studentSignature == old(studentSignature) && assessorSignature == old(assessorSignature)
    {
      if assessmentResults.None? || IsBlank(studentSignature) || IsBlank(assessorSignature) {
        error := Some(SignaturesRequired);
        return None;
      }
      error := None;
      var submission := Submission(assessmentResults.value,
                                   "Student: " + Trim(studentSignature) + " | Assessor: " + Trim(assessorSignature));
      sent := Some(submission);
      match outcome
      case Stored =>
        submitStatus := Success;
      case Rejected(message) =>
        error := Some(SubmitFailedPrefix + (if message == "" then UnknownError else message));
        submitStatus := Error;
    }

    /** The callback `handleFinalSubmit` schedules three seconds after a
        successful submit: names, sheet, password, responses, results and
        signatures are cleared and the status is idle again. The error and
        the fetched sheets are not touched. */
    method ResetAfterSubmit()
      modifies this
      ensures Valid()
      ensures studentName == "" && assessorName == "" && sectionName == "" && className == ""
      ensures selectedSheet.None? && !isSheetUnlocked && sheetPassword == "" && checklistResponses == map[]
      ensures assessmentResults.None? && studentSignature == "" && assessorSignature == ""
      ensures submitStatus == Idle
      ensures markingSheets == old(markingSheets) && error == old(error)
    {
      studentName, assessorName, sectionName, className := "", "", "", "";
      selectedSheet, isSheetUnlocked, sheetPassword, checklistResponses := None, false, "", map[];
      ClearResult();
    }

    /** The result, both signatures and the status cleared; nothing else
        changes. */
    method ClearResult()
      modifies this
      ensures assessmentResults.None? && studentSignature == "" && assessorSignature == "" && submitStatus == Idle
      ensures markingSheets == old(markingSheets) && error == old(error)
      ensures selectedSheet == old(selectedSheet) && isSheetUnlocked == old(isSheetUnlocked)
      ensures sheetPassword == old(sheetPassword) && checklistResponses == old(checklistResponses)
      ensures studentName == old(studentName) && assessorName == old(assessorName)
      ensures sectionName == old(sectionName) && className == old(className)
    {
      assessmentResults, studentSignature, assessorSignature, submitStatus := None, "", "", Idle;
    }

    /** `handleBackToEdit`: back to the form with the result and the
        signatures cleared; responses and names are kept. */
    method HandleBackToEdit()
      requires Valid()
      modifies this
      ensures Valid()
      ensures submitStatus == Idle && assessmentResults.None? && error.None?
      ensures studentSignature == "" && assessorSignature == ""
      ensures markingSheets == old(markingSheets) && selectedSheet == old(selectedSheet)
      ensures isSheetUnlocked == old(isSheetUnlocked) && sheetPassword == old(sheetPassword)
      ensures studentName == old(studentName) && assessorName == old(assessorName)
      ensures sectionName == old(sectionName) && className == old(className)
      ensures checklistResponses == old(checklistResponses)
    {
      submitStatus := Idle;
      assessmentResults := None;
      studentSignature := "";
      assessorSignature := "";
      error := None;
    }
  }

  // ----- grouping the checklist by category -----

  /** `groups` holds exactly the categories occurring in `s`, each with its
      items of `s` in order. */
  ghost predicate GroupsOf(groups: map<string, seq<ChecklistItem>>, s: seq<ChecklistItem>) {
    forall c :: (c in groups <==> InCategory(s, c) != []) && (c in groups ==> groups[c] == InCategory(s, c))
  }

  /** One step of the reduce: `x` pushed onto the list of its category,
      which is created when missing. */
  function PushItem(groups: map<string, seq<ChecklistItem>>, x: ChecklistItem): map<string, seq<ChecklistItem>> {
    var c := CategoryOf(x);
    groups[c := (if c in groups then groups[c] else []) + [x]]
  }

  /** The loop's step: after the first `n` items are grouped, pushing the
      next one groups the first `n + 1`. */
  lemma GroupsOfStep(groups: map<string, seq<ChecklistItem>>, items: seq<ChecklistItem>, n: nat)
    requires n < |items| && GroupsOf(groups, items[..n])
    ensures GroupsOf(PushItem(groups, items[n]), items[..n + 1])
  {
    assert items[..n + 1][..n] == items[..n];
  }

  /** What `GroupsOf` says about the items themselves. */
  lemma GroupsOfItems(groups: map<string, seq<ChecklistItem>>, items: seq<ChecklistItem>)
    requires GroupsOf(groups, items)
    ensures forall c :: c in groups <==> exists k :: 0 <= k < |items| && CategoryOf(items[k]) == c
    ensures forall k :: 0 <= k < |items| ==> CategoryOf(items[k]) in groups && items[k] in groups[CategoryOf(items[k])]
    ensures forall c, x :: c in groups && x in groups[c] ==> CategoryOf(x) == c
  {
    forall c ensures c in groups <==> exists k :: 0 <= k < |items| && CategoryOf(items[k]) == c {
      if c in groups {
        var r := InCategory(items, c);
        assert r[0] in r;
      }
    }
    forall k | 0 <= k < |items| ensures CategoryOf(items[k]) in groups {
      assert items[k] in InCategory(items, CategoryOf(items[k]));
    }
  }

  /** The properties every JavaScript object inherits from
      `Object.prototype`. Each is truthy on the empty object `{}` and none
      of them has a `push` method. */
  const ObjectPrototypeKeys: set<string> := {
    "constructor", "__proto__", "__defineGetter__", "__defineSetter__", "__lookupGetter__",
    "__lookupSetter__", "hasOwnProperty", "isPrototypeOf", "propertyIsEnumerable",
    "toString", "toLocaleString", "valueOf"}

  /** `acc[category]` is already truthy on the accumulator before any
      item of that category was pushed, so `acc[category].push(item)`
      throws a `TypeError`. */
  predicate InheritedKey(category: string) {
    category in ObjectPrototypeKeys
  }

  /** `groupedItems`: the reduce that pushes every item onto the list of
      its category. When some item's category names an inherited property
      of the accumulator the reduce throws, which is `None`. Otherwise the
      groups are exactly the categories that occur, each holding its items
      in list order, so every item lands in exactly the group of its own
      category. */
  method GroupByCategory(sheet: Option<MarkingSheet>) returns (groups: Option<map<string, seq<ChecklistItem>>>)
    ensures var items := if sheet.Some? then SheetItems(sheet.value) else [];
      groups.None? <==> exists k :: 0 <= k < |items| && InheritedKey(CategoryOf(items[k]))
    ensures var items := if sheet.Some? then SheetItems(sheet.value) else [];
      groups.Some? ==>
        (forall c :: c in groups.value <==> exists k :: 0 <= k < |items| && CategoryOf(items[k]) == c) &&
        (forall c :: c in groups.value ==> groups.value[c] == InCategory(items, c))
    ensures var items := if sheet.Some? then SheetItems(sheet.value) else [];
      groups.Some? ==>
        forall k :: 0 <= k < |items| ==> CategoryOf(items[k]) in groups.value && items[k] in groups.value[CategoryOf(items[k])]
    ensures groups.Some? ==> forall c, x :: c in groups.value && x in groups.value[c] ==> CategoryOf(x) == c
  {
    var items := if sheet.Some? then SheetItems(sheet.value) else [];
    var acc: map<string, seq<ChecklistItem>> := map[];
    var i := 0;
    while i < |items|
      invariant 0 <= i <= |items|
      invariant GroupsOf(acc, items[..i])
      invariant forall k :: 0 <= k < i ==> !InheritedKey(CategoryOf(items[k]))
    {
      var item := items[i];
      var category := CategoryOf(item);
      if InheritedKey(category) {
        return None;
      }
      GroupsOfStep(acc, items, i);
      var list := if category in acc then acc[category] else [];
      acc := acc[category := list + [item]];
      assert GroupsOf(acc, items[..i + 1]);
      i := i + 1;
      assert GroupsOf(acc, items[..i]);
    }
    assert items[..i] == items;
    GroupsOfItems(acc, items);
    groups := Some(acc);
  }

  // ----- completion counts -----

  /** The ids of the items. */
  function ItemIds(items: seq<ChecklistItem>): (ids: set<string>)
    ensures |ids| <= |items|
  {
    if items == [] then {} else ItemIds(items[..|items| - 1]) + {items[|items| - 1].id}
  }

  /** An id is among the item ids exactly when some item carries it. */
  lemma {:induction false} ItemIdsExactly(items: seq<ChecklistItem>, id: string)
    ensures id in ItemIds(items) <==> exists k :: 0 <= k < |items| && items[k].id == id
  {
    if items != [] {
      var n := |items| - 1;
      var init := items[..n];
      ItemIdsExactly(init, id);
      if id in ItemIds(items) {
        if id == items[n].id {
          assert items[n].id == id;
        } else {
          var k :| 0 <= k < |init| && init[k].id == id;
          assert items[k].id == id;
        }
      }
      if exists k :: 0 <= k < |items| && items[k].id == id {
        var k :| 0 <= k < |items| && items[k].id == id;
        if k < n {
          assert init[k].id == id;
        }
      }
    }
  }

  /** When responses are recorded only for the sheet's items, at most all
      of them are completed, so the completion percentage is at most 100. */
  lemma CompletedAtMostTotal(items: seq<ChecklistItem>, responses: map<string, bool>)
    requires responses.Keys <= ItemIds(items)
    ensures CompletedItems(responses) <= |items|
    ensures 0.0 <= CompletionPercentage(|items|, CompletedItems(responses)) <= 100.0
  {
    var done := set id | id in responses && responses[id];
    assert done <= ItemIds(items);
    SubsetCardinality(done, ItemIds(items));
    CompletionAtMostHundred(|items|, CompletedItems(responses));
  }

  /** A share of at most all items is at most 100 percent. */
  lemma CompletionAtMostHundred(totalItems: nat, completedItems: nat)
    requires completedItems <= totalItems
    ensures 0.0 <= CompletionPercentage(totalItems, completedItems) <= 100.0
  {
    if totalItems > 0 {
      var c, t := completedItems as real, totalItems as real;
      var q := c / t;
      assert q * t == c;
      assert q <= 1.0;
    }
  }

  lemma SubsetCardinality(a: set<string>, b: set<string>)
    requires a <= b
    ensures |a| <= |b|
  {
    assert b == a + (b - a);
  }

  /** Ticking an item raises the count of completed items by one unless it
      was already ticked; unticking lowers it by one if it was ticked. */
  lemma ToggleChangesCompletedByOne(responses: map<string, bool>, itemId: string, checked: bool)
    ensures checked ==>
      CompletedItems(responses[itemId := checked]) == CompletedItems(responses) + (if Checked(responses, itemId) then 0 else 1)
    ensures !checked ==>
      CompletedItems(responses[itemId := checked]) == CompletedItems(responses) - (if Checked(responses, itemId) then 1 else 0)
  {
    var before := set id | id in responses && responses[id];
    var m := responses[itemId := checked];
    var after := set id | id in m && m[id];
    if checked {
      assert after == before + {itemId};
      if !Checked(responses, itemId) {
        assert itemId !in before;
      }
    } else {
      assert after == before - {itemId};
    }
  }
}
