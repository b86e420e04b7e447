/** The records of `lib/supabase.ts` and its one piece of business logic,
    the assessment scoring engine `calculateAssessmentScore`, together with
    the `total_points` figure that `createMarkingSheet` and
    `updateMarkingSheet` store for a sheet. Database access is not part of
    this model. */
module Supabase {
  import opened Wrappers
  import opened Text
  import opened Lists

  /** A checklist item as stored and fetched (`ChecklistItem`). Optional
      columns are `Option`s. */
  datatype ChecklistItem = ChecklistItem(
    id: string,
    markingSheetId: string,
    text: string,
    category: Option<string>,
    orderIndex: Option<int>,
    points: Option<int>,
    isCritical: Option<bool>,
    criticalCondition: Option<string>)

  /** A marking sheet (`MarkingSheet`). `password` and `isEnabled` are the
      two extra columns the sheet editor reads from its initial data. */
  datatype MarkingSheet = MarkingSheet(
    id: string,
    name: string,
    description: Option<string>,
    passingScore: Option<int>,
    totalPoints: Option<int>,
    checklistItems: Option<seq<ChecklistItem>>,
    password: Option<string>,
    isEnabled: Option<bool>)

  /** An item of the payload `createMarkingSheet` and `updateMarkingSheet`
      receive from the sheet editor: every field is present. */
  datatype ChecklistItemInput = ChecklistItemInput(
    text: string,
    category: string,
    orderIndex: int,
    points: int,
    isCritical: bool,
    criticalCondition: string)

  datatype Status = Passed | Failed

  /** What `calculateAssessmentScore` returns. `percentageScore` is the
      percentage rounded to hundredths. */
  datatype ScoreResult = ScoreResult(
    totalScore: int,
    maxPossibleScore: int,
    percentageScore: real,
    status: Status,
    remarks: string)

  // ----- specification of the scoring pass -----

  /** `item.points || 1`: absent and zero points count as one point;
      every other value, negative ones included, is kept. */
  function EffectivePoints(item: ChecklistItem): int {
    IntOr(item.points, 1)
  }

  /** `responses[id]` is truthy: a missing key reads as unchecked. */
  predicate Checked(responses: map<string, bool>, id: string) {
    id in responses && responses[id]
  }

  /** The item is critical and was not checked. */
  predicate UncheckedCritical(item: ChecklistItem, responses: map<string, bool>) {
    !Checked(responses, item.id) && IsTrue(item.isCritical)
  }

  /** Sum of the effective points of all items. */
  function MaxScore(items: seq<ChecklistItem>): int {
    if items == [] then 0
    else MaxScore(items[..|items| - 1]) + EffectivePoints(items[|items| - 1])
  }

  /** Sum of the effective points of the checked items. */
  function Score(items: seq<ChecklistItem>, responses: map<string, bool>): int {
    if items == [] then 0
    else
      var last := items[|items| - 1];
      Score(items[..|items| - 1], responses) + (if Checked(responses, last.id) then EffectivePoints(last) else 0)
  }

  /** Texts of the unchecked critical items, in list order. */
  function CriticalFailures(items: seq<ChecklistItem>, responses: map<string, bool>): seq<string> {
    if items == [] then []
    else
      var last := items[|items| - 1];
      CriticalFailures(items[..|items| - 1], responses) + (if UncheckedCritical(last, responses) then [last.text] else [])
  }

  /** Some critical item is unchecked. */
  predicate HasCriticalFailure(items: seq<ChecklistItem>, responses: map<string, bool>) {
    exists k :: 0 <= k < |items| && UncheckedCritical(items[k], responses)
  }

  /** `maxPossibleScore > 0 ? totalScore / maxPossibleScore * 100 : 0`, exactly. */
  function Percentage(totalScore: int, maxPossibleScore: int): real {
    if maxPossibleScore > 0 then (totalScore as real / maxPossibleScore as real) * 100.0 else 0.0
  }

  /** `Math.round(p * 100) / 100`: `p` rounded to hundredths, a half
      hundredth rounded upwards. */
  function RoundHundredths(p: real): real {
    (p * 100.0 + 0.5).Floor as real / 100.0
  }

  /** Rounding moves the percentage by at most half a hundredth, and not at
      all when it already is a whole number of hundredths. */
  lemma RoundHundredthsBounds(p: real)
    ensures p - 0.005 < RoundHundredths(p) <= p + 0.005
    ensures (p * 100.0).Floor as real == p * 100.0 ==> RoundHundredths(p) == p
  {
    var f := (p * 100.0 + 0.5).Floor;
    assert f as real <= p * 100.0 + 0.5 < f as real + 1.0;
    assert (p * 100.0).Floor as real == p * 100.0 ==> f == (p * 100.0).Floor;
  }

  /** `percentageScore >= passingScore` on the unrounded percentage. */
  predicate MeetsPassing(totalScore: int, maxPossibleScore: int, passingScore: int) {
    Percentage(totalScore, maxPossibleScore) >= passingScore as real
  }

  function CriticalRemark(failures: seq<string>): string {
    "Critical failure: " + Join(failures, ", ")
  }

  /** `fixed1(p)` stands for `p.toFixed(1)`, whose floating-point rendering
      is not modelled. */
  function ExcellentRemark(fixed1: real -> string, percentage: real): string {
    "Excellent performance! Score: " + fixed1(percentage) + "%"
  }

  function BelowPassingRemark(passingScore: int, fixed1: real -> string, percentage: real): string {
    "Below passing score. Required: " + IntToString(passingScore) + "%, Achieved: " + fixed1(percentage) + "%"
  }

  // ----- the scoring pass -----

  /** The `checklistItems.forEach` pass of `calculateAssessmentScore`: the
      maximum, the score, whether a critical item failed and the texts of
      the failed critical items. */
  method ScoreItems(items: seq<ChecklistItem>, responses: map<string, bool>)
    returns (totalScore: int, maxPossibleScore: int, hasCriticalFailure: bool, criticalFailures: seq<string>)
    ensures maxPossibleScore == MaxScore(items)
    ensures totalScore == Score(items, responses)
    ensures hasCriticalFailure == HasCriticalFailure(items, responses)
    ensures criticalFailures == CriticalFailures(items, responses)
  {
    totalScore, maxPossibleScore := 0, 0;
    hasCriticalFailure := false;
    criticalFailures := [];

    var i := 0;
    while i < |items|
      invariant 0 <= i <= |items|
      invariant maxPossibleScore == MaxScore(items[..i])
      invariant totalScore == Score(items[..i], responses)
      invariant criticalFailures == CriticalFailures(items[..i], responses)
      invariant hasCriticalFailure <==> exists k :: 0 <= k < i && UncheckedCritical(items[k], responses)
    {
      var item := items[i];
      var points := IntOr(item.points, 1);
      maxPossibleScore := maxPossibleScore + points;
      if Checked(responses, item.id) {
        totalScore := totalScore + points;
      } else if IsTrue(item.isCritical) {
        hasCriticalFailure := true;
        criticalFailures := criticalFailures + [item.text];
      }
      assert items[..i + 1][..i] == items[..i];
      i := i + 1;
    }
    assert items[..i] == items;
  }

  /** `calculateAssessmentScore(checklistItems, responses, passingScore)`:
      the scoring pass, then the verdict decided in priority order. */
  method CalculateAssessmentScore(items: seq<ChecklistItem>, responses: map<string, bool>,
                                  passingScore: int, fixed1: real -> string)
    returns (r: ScoreResult)
    ensures r.maxPossibleScore == MaxScore(items)
    ensures r.totalScore == Score(items, responses)
    ensures r.percentageScore == RoundHundredths(Percentage(r.totalScore, r.maxPossibleScore))
    ensures HasCriticalFailure(items, responses) ==>
      r.status == Failed && r.remarks == CriticalRemark(CriticalFailures(items, responses))
    ensures !HasCriticalFailure(items, responses) && MeetsPassing(r.totalScore, r.maxPossibleScore, passingScore) ==>
      r.status == Passed && r.remarks == ExcellentRemark(fixed1, Percentage(r.totalScore, r.maxPossibleScore))
    ensures !HasCriticalFailure(items, responses) && !MeetsPassing(r.totalScore, r.maxPossibleScore, passingScore) ==>
      r.status == Failed && r.remarks == BelowPassingRemark(passingScore, fixed1, Percentage(r.totalScore, r.maxPossibleScore))
  {
    var totalScore, maxPossibleScore, hasCriticalFailure, criticalFailures := ScoreItems(items, responses);

    var percentageScore := if maxPossibleScore > 0 then (totalScore as real / maxPossibleScore as real) * 100.0 else 0.0;

    var status := Failed;
    var remarks := "";
    if hasCriticalFailure {
      status := Failed;
      remarks := "Critical failure: " + Join(criticalFailures, ", ");
    } else if percentageScore >= passingScore as real {
      status := Passed;
      remarks := "Excellent performance! Score: " + fixed1(percentageScore) + "%";
    } else {
      status := Failed;
      remarks := "Below passing score. Required: " + IntToString(passingScore) + "%, Achieved: " + fixed1(percentageScore) + "%";
    }
    r := ScoreResult(totalScore, maxPossibleScore, RoundHundredths(percentageScore), status, remarks);
  }

  // ----- properties of the scoring specification -----

  /** The maximum of a concatenation is the sum of the maxima. */
  lemma {:induction false} MaxScoreConcat(a: seq<ChecklistItem>, b: seq<ChecklistItem>)
    ensures MaxScore(a + b) == MaxScore(a) + MaxScore(b)
  {
    if b == [] {
      assert a + b == a;
    } else {
      assert (a + b)[..|a + b| - 1] == a + b[..|b| - 1];
      MaxScoreConcat(a, b[..|b| - 1]);
    }
  }

  /** The score of a concatenation is the sum of the scores. */
  lemma {:induction false} ScoreConcat(a: seq<ChecklistItem>, b: seq<ChecklistItem>, responses: map<string, bool>)
    ensures Score(a + b, responses) == Score(a, responses) + Score(b, responses)
  {
    if b == [] {
      assert a + b == a;
    } else {
      assert (a + b)[..|a + b| - 1] == a + b[..|b| - 1];
      ScoreConcat(a, b[..|b| - 1], responses);
    }
  }

  /** An item whose points are absent or zero adds exactly one point to the
      maximum, wherever it stands, and one point to the score when it is
      checked. */
  lemma DefaultPointsCountOne(a: seq<ChecklistItem>, x: ChecklistItem, b: seq<ChecklistItem>,
                              responses: map<string, bool>)
    requires x.points == None || x.points == Some(0)
    ensures MaxScore(a + [x] + b) == MaxScore(a + b) + 1
    ensures Score(a + [x] + b, responses) == Score(a + b, responses) + (if Checked(responses, x.id) then 1 else 0)
  {
    MaxScoreConcat(a + [x], b);
    MaxScoreConcat(a, b);
    MaxScoreConcat(a, [x]);
    assert [x][..0] == [];
    ScoreConcat(a + [x], b, responses);
    ScoreConcat(a, b, responses);
    ScoreConcat(a, [x], responses);
  }

  /** With no negative points, the score lies between zero and the maximum. */
  lemma {:induction false} ScoreBounds(items: seq<ChecklistItem>, responses: map<string, bool>)
    requires forall k :: 0 <= k < |items| ==> EffectivePoints(items[k]) >= 0
    ensures 0 <= Score(items, responses) <= MaxScore(items)
  {
    if items != [] {
      ScoreBounds(items[..|items| - 1], responses);
    }
  }

  /** When every item is checked the score is the maximum and there is no
      critical failure, so a sheet with a positive maximum and a passing
      score of at most 100 passes. */
  lemma {:induction false} AllCheckedScoresMax(items: seq<ChecklistItem>, responses: map<string, bool>, passingScore: int)
    requires forall k :: 0 <= k < |items| ==> Checked(responses, items[k].id)
    ensures Score(items, responses) == MaxScore(items)
    ensures !HasCriticalFailure(items, responses)
    ensures MaxScore(items) > 0 && passingScore <= 100 ==> MeetsPassing(Score(items, responses), MaxScore(items), passingScore)
  {
    if items != [] {
      AllCheckedScoresMax(items[..|items| - 1], responses, passingScore);
    }
  }

  /** Checking more items never lowers the score when no points are
      negative. */
  lemma {:induction false} ScoreMonotone(items: seq<ChecklistItem>, r1: map<string, bool>, r2: map<string, bool>)
    requires forall k :: 0 <= k < |items| ==> EffectivePoints(items[k]) >= 0
    requires forall k :: 0 <= k < |items| && Checked(r1, items[k].id) ==> Checked(r2, items[k].id)
    ensures Score(items, r1) <= Score(items, r2)
  {
    if items != [] {
      ScoreMonotone(items[..|items| - 1], r1, r2);
    }
  }

  /** `items.filter(...)` of the unchecked critical items. */
  function UncheckedCriticalItems(items: seq<ChecklistItem>, responses: map<string, bool>): seq<ChecklistItem> {
    Filter(items, x => UncheckedCritical(x, responses))
  }

  /** The critical-failure list is the texts of the unchecked critical
      items, in list order. */
  lemma {:induction false} CriticalFailuresAreUncheckedCriticalTexts(items: seq<ChecklistItem>, responses: map<string, bool>)
    ensures |CriticalFailures(items, responses)| == |UncheckedCriticalItems(items, responses)|
    ensures forall k :: 0 <= k < |CriticalFailures(items, responses)| ==>
      CriticalFailures(items, responses)[k] == UncheckedCriticalItems(items, responses)[k].text
  {
    if items != [] {
      var init, last := items[..|items| - 1], items[|items| - 1];
      CriticalFailuresAreUncheckedCriticalTexts(init, responses);
      assert items == init + [last];
      FilterConcat(init, [last], x => UncheckedCritical(x, responses));
      assert UncheckedCriticalItems(items, responses) ==
        UncheckedCriticalItems(init, responses) + UncheckedCriticalItems([last], responses);
    }
  }

  /** The critical-failure list is empty exactly when no critical item is
      unchecked. */
  lemma {:induction false} CriticalFailuresEmptyIff(items: seq<ChecklistItem>, responses: map<string, bool>)
    ensures CriticalFailures(items, responses) != [] <==> HasCriticalFailure(items, responses)
  {
    if items != [] {
      var init, last := items[..|items| - 1], items[|items| - 1];
      CriticalFailuresEmptyIff(init, responses);
      if HasCriticalFailure(items, responses) && !UncheckedCritical(last, responses) {
        var k :| 0 <= k < |items| && UncheckedCritical(items[k], responses);
        assert k < |init| && init[k] == items[k];
      }
      if HasCriticalFailure(init, responses) {
        var k :| 0 <= k < |init| && UncheckedCritical(init[k], responses);
        assert items[k] == init[k];
      }
    }
  }

  /** The unrounded pass test is the integer cross-multiplication
      `totalScore * 100 >= passingScore * maxPossibleScore` on a sheet with
      a positive maximum, and `passingScore <= 0` otherwise. */
  lemma PassTestCrossMultiplied(totalScore: int, maxPossibleScore: int, passingScore: int)
    ensures MeetsPassing(totalScore, maxPossibleScore, passingScore) <==>
      if maxPossibleScore > 0 then totalScore * 100 >= passingScore * maxPossibleScore else passingScore <= 0
  {
    if maxPossibleScore > 0 {
      var m := maxPossibleScore as real;
      var pct := (totalScore as real / m) * 100.0;
      assert pct * m == (totalScore * 100) as real;
      assert (pct >= passingScore as real) <==> pct * m >= passingScore as real * m;
      assert (passingScore * maxPossibleScore) as real == passingScore as real * m;
    }
  }

  /** An empty checklist has maximum and score zero and a zero
      percentage, so it passes exactly when the passing score is at most
      zero (there is no critical item to fail). */
  lemma EmptyChecklist(responses: map<string, bool>, passingScore: int)
    ensures MaxScore([]) == 0 && Score([], responses) == 0 && Percentage(0, 0) == 0.0
    ensures !HasCriticalFailure([], responses)
    ensures MeetsPassing(0, 0, passingScore) <==> passingScore <= 0
  {
  }

  // ----- the stored total of a marking sheet -----

  /** `checklist_items.reduce((sum, item) => sum + item.points, 0)`: the
      plain sum, with no default of one point. */
  function PointsSum(items: seq<ChecklistItemInput>): int {
    if items == [] then 0 else PointsSum(items[..|items| - 1]) + items[|items| - 1].points
  }

  /** Number of items entered with zero points. */
  function ZeroPointItems(items: seq<ChecklistItemInput>): nat {
    if items == [] then 0
    else ZeroPointItems(items[..|items| - 1]) + (if items[|items| - 1].points == 0 then 1 else 0)
  }

  /** The sum of a concatenation is the sum of the sums. */
  lemma {:induction false} PointsSumConcat(a: seq<ChecklistItemInput>, b: seq<ChecklistItemInput>)
    ensures PointsSum(a + b) == PointsSum(a) + PointsSum(b)
  {
    if b == [] {
      assert a + b == a;
    } else {
      assert (a + b)[..|a + b| - 1] == a + b[..|b| - 1];
      PointsSumConcat(a, b[..|b| - 1]);
    }
  }

  /** Splitting a list into the items that pass a test and those that
      fail it splits its sum. */
  lemma {:induction false} PointsSumSplits(items: seq<ChecklistItemInput>,
                                           p: ChecklistItemInput -> bool, q: ChecklistItemInput -> bool)
    requires forall x :: q(x) == !p(x)
    ensures PointsSum(items) == PointsSum(Filter(items, p)) + PointsSum(Filter(items, q))
  {
    if items != [] {
      var init, last := items[..|items| - 1], items[|items| - 1];
      PointsSumSplits(init, p, q);
      assert items == init + [last];
      FilterConcat(init, [last], p);
      FilterConcat(init, [last], q);
      var fp, fq := Filter(init, p), Filter(init, q);
      assert PointsSum(items) == PointsSum(init) + last.points;
      if p(last) {
        assert Filter([last], p) == [last];
        assert Filter([last], q) == [];
        assert Filter(items, p) == fp + [last];
        assert Filter(items, q) == fq;
        PointsSumConcat(fp, [last]);
      } else {
        assert Filter([last], q) == [last];
        assert Filter([last], p) == [];
        assert Filter(items, q) == fq + [last];
        assert Filter(items, p) == fp;
        PointsSumConcat(fq, [last]);
      }
    }
  }

  /** When the stored items carry the entered points, the scoring maximum
      exceeds the stored `total_points` by one for every zero-point item:
      the stored total does not apply the default of one. */
  lemma {:induction false} StoredTotalVersusMaxScore(inputs: seq<ChecklistItemInput>, stored: seq<ChecklistItem>)
    requires |stored| == |inputs|
    requires forall k :: 0 <= k < |inputs| ==> stored[k].points == Some(inputs[k].points)
    ensures MaxScore(stored) == PointsSum(inputs) + ZeroPointItems(inputs)
  {
    if inputs != [] {
      StoredTotalVersusMaxScore(inputs[..|inputs| - 1], stored[..|stored| - 1]);
    }
  }
}
