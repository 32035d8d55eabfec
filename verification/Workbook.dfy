/** The workbook's own recomputation of the totals in a frozen result, and its agreement with grading's totals. */
module Workbook {
  import opened Wrappers
  import R = Rubric
  import G = Grades

  datatype CriterionRow = CriterionRow(id: string, score: int)
  datatype DeductionRow = DeductionRow(id: string, applied: bool)

  /** The numeric part of a frozen result. */
  datatype FrozenResult = FrozenResult(
    criteria: seq<CriterionRow>,
    deductions: seq<DeductionRow>,
    subtotal: int,
    deductionTotal: int,
    finalScore: int,
    maxScore: int)

  datatype WorkbookError = SnapshotInvalid | TotalsMismatch | FinalUnconfirmed

  // ----- the grade a frozen result stands for -----

  /** The same rows as a grade result; evidence plays no part in the totals. */
  function AsGrade(result: FrozenResult): (grade: G.GradeResult)
    ensures |grade.dimensions| == |result.criteria| && |grade.deductions| == |result.deductions|
    ensures forall i | 0 <= i < |result.criteria| ::
              grade.dimensions[i].id == result.criteria[i].id && grade.dimensions[i].score == result.criteria[i].score
    ensures forall i | 0 <= i < |result.deductions| ::
              grade.deductions[i].id == result.deductions[i].id && grade.deductions[i].applied == result.deductions[i].applied
  {
    G.GradeResult(
      seq(|result.criteria|, i requires 0 <= i < |result.criteria| =>
        G.DimensionResult(result.criteria[i].id, result.criteria[i].score, [])),
      seq(|result.deductions|, i requires 0 <= i < |result.deductions| =>
        G.DeductionResult(result.deductions[i].id, result.deductions[i].applied, [])))
  }

  predicate KnownDeductions(result: FrozenResult, rubric: R.Rubric) {
    forall i | 0 <= i < |result.deductions| && result.deductions[i].applied ::
      result.deductions[i].id in R.DeductionIds(rubric)
  }

  /** The stored totals are those grading computes from the rows. */
  predicate TotalsAgree(result: FrozenResult, rubric: R.Rubric)
    requires rubric.step > 0
  {
    && G.Graded(AsGrade(result), rubric)
    && G.CalculateTotals(AsGrade(result), rubric) == G.Totals(result.subtotal, result.deductionTotal, result.finalScore)
    && result.maxScore == rubric.total
  }

  function WorkbookIssue(result: FrozenResult, rubric: R.Rubric, final: bool, confirmed: bool): Option<WorkbookError>
    requires rubric.step > 0
  {
    if !KnownDeductions(result, rubric) then Some(SnapshotInvalid)
    else if !TotalsAgree(result, rubric) then Some(TotalsMismatch)
    else if final && !confirmed then Some(FinalUnconfirmed)
    else None
  }

  // ----- dictionaries built from the rows -----

  function ScoreOf(scores: seq<CriterionRow>): int {
    if scores == [] then 0 else ScoreOf(scores[..|scores| - 1]) + scores[|scores| - 1].score
  }

  /** scores[id] = score */
  function PutScore(scores: seq<CriterionRow>, row: CriterionRow): seq<CriterionRow> {
    if exists i | 0 <= i < |scores| :: scores[i].id == row.id then
      seq(|scores|, i requires 0 <= i < |scores| => if scores[i].id == row.id then row else scores[i])
    else scores + [row]
  }

  function CriterionIds(rows: seq<CriterionRow>): (ids: seq<string>)
    ensures |ids| == |rows| && forall i | 0 <= i < |ids| :: ids[i] == rows[i].id
  {
    seq(|rows|, i requires 0 <= i < |rows| => rows[i].id)
  }

  /** deduction_map[id].points; distinct ids make the row unique. */
  function PointsAt(deductions: seq<R.Deduction>, id: string): (points: int)
    requires exists i | 0 <= i < |deductions| :: deductions[i].id == id
    ensures exists i | 0 <= i < |deductions| :: deductions[i].id == id && deductions[i].points == points
  {
    var last := deductions[|deductions| - 1];
    if last.id == id then last.points else PointsAt(deductions[..|deductions| - 1], id)
  }

  /** The points of the applied rows, looked up row by row. */
  function RowPoints(rows: seq<DeductionRow>, deductions: seq<R.Deduction>): int
    requires forall i | 0 <= i < |rows| && rows[i].applied ::
               exists k | 0 <= k < |deductions| :: deductions[k].id == rows[i].id
  {
    if rows == [] then 0
    else
      var last := rows[|rows| - 1];
      RowPoints(rows[..|rows| - 1], deductions) + (if last.applied then PointsAt(deductions, last.id) else 0)
  }

  // ----- row by row equals set by set -----

  /** With matching, distinct ids, the row-wise sum is the sum over the set of applied ids. */
  lemma {:induction false} RowWiseIsSetWise(rows: seq<DeductionRow>, deductions: seq<R.Deduction>, all: seq<R.Deduction>,
                                            ids: set<string>)
    requires |rows| == |deductions| <= |all| && deductions == all[..|deductions|]
    requires forall i, k | 0 <= i < k < |all| :: all[i].id != all[k].id
    requires forall i | 0 <= i < |rows| :: rows[i].id == deductions[i].id
    requires forall i | 0 <= i < |rows| :: rows[i].applied <==> rows[i].id in ids
    ensures forall i | 0 <= i < |rows| && rows[i].applied :: exists k | 0 <= k < |all| :: all[k].id == rows[i].id
    ensures RowPoints(rows, all) == G.PointsOf(deductions, ids)
  {
    forall i | 0 <= i < |rows| ensures exists k | 0 <= k < |all| :: all[k].id == rows[i].id {
      assert all[i].id == rows[i].id;
    }
    if rows != [] {
      var n := |rows| - 1;
      assert deductions[..n] == all[..n];
      RowWiseIsSetWise(rows[..n], deductions[..n], all, ids);
      assert all[n].id == rows[n].id;
      if rows[n].applied {
        var k :| 0 <= k < |all| && all[k].id == rows[n].id && all[k].points == PointsAt(all, rows[n].id);
        assert k == n;
      }
    }
  }

  lemma DeductionsAgree(result: FrozenResult, rubric: R.Rubric)
    requires R.Distinct(R.DeductionIds(rubric))
    requires G.ResultDeductionIds(AsGrade(result)) == R.DeductionIds(rubric)
    ensures forall i | 0 <= i < |result.deductions| && result.deductions[i].applied ::
              exists k | 0 <= k < |rubric.deductions| :: rubric.deductions[k].id == result.deductions[i].id
    ensures RowPoints(result.deductions, rubric.deductions)
            == G.PointsOf(rubric.deductions, G.AppliedIds(AsGrade(result).deductions))
  {
    var grade := AsGrade(result);
    var ids := R.DeductionIds(rubric);
    assert |G.ResultDeductionIds(grade)| == |ids|;
    forall i, k | 0 <= i < k < |rubric.deductions| ensures rubric.deductions[i].id != rubric.deductions[k].id {
      assert ids[i] != ids[k];
    }
    forall i | 0 <= i < |result.deductions| ensures result.deductions[i].id == rubric.deductions[i].id {
      assert G.ResultDeductionIds(grade)[i] == ids[i];
    }
    forall i | 0 <= i < |result.deductions|
      ensures result.deductions[i].applied <==> result.deductions[i].id in G.AppliedIds(grade.deductions)
    {
      if result.deductions[i].id in G.AppliedIds(grade.deductions) {
        var k :| 0 <= k < |grade.deductions| && grade.deductions[k].applied && grade.deductions[k].id == result.deductions[i].id;
        assert k == i;
      } else {
        assert grade.deductions[i].id == result.deductions[i].id;
      }
    }
    assert rubric.deductions[..|rubric.deductions|] == rubric.deductions;
    RowWiseIsSetWise(result.deductions, rubric.deductions, rubric.deductions, G.AppliedIds(grade.deductions));
  }

  lemma {:induction false} ScoresAgree(rows: seq<CriterionRow>, dimensions: seq<G.DimensionResult>)
    requires |rows| == |dimensions| && forall i | 0 <= i < |rows| :: rows[i].score == dimensions[i].score
    ensures ScoreOf(rows) == G.ScoreSum(dimensions)
  {
    if rows != [] { ScoresAgree(rows[..|rows| - 1], dimensions[..|dimensions| - 1]); }
  }

  // ----- the check as the workbook runs it -----

  /** The dictionary of criterion scores; distinct rows make it a copy of the rows. */
  method CriterionScores(rows: seq<CriterionRow>) returns (scores: seq<CriterionRow>)
    ensures R.Distinct(CriterionIds(rows)) ==> scores == rows
  {
    scores := [];
    for i := 0 to |rows|
      invariant R.Distinct(CriterionIds(rows)) ==> scores == rows[..i]
    {
      if R.Distinct(CriterionIds(rows)) {
        forall k | 0 <= k < i ensures rows[k].id != rows[i].id {
          assert CriterionIds(rows)[k] != CriterionIds(rows)[i];
        }
      }
      scores := PutScore(scores, rows[i]);
    }
  }

  method SumOfScores(scores: seq<CriterionRow>) returns (sum: int)
    ensures sum == ScoreOf(scores)
  {
    sum := 0;
    for i := 0 to |scores|
      invariant sum == ScoreOf(scores[..i])
    {
      assert scores[..i + 1][..i] == scores[..i];
      sum := sum + scores[i].score;
    }
    assert scores[..|scores|] == scores;
  }

  /** None is the missing key of an applied deduction. */
  method SumOfDeductions(rows: seq<DeductionRow>, deductions: seq<R.Deduction>) returns (sum: Option<int>)
    ensures sum.Some? <==> forall i | 0 <= i < |rows| && rows[i].applied ::
                             exists k | 0 <= k < |deductions| :: deductions[k].id == rows[i].id
    ensures sum.Some? ==> sum.value == RowPoints(rows, deductions)
  {
    var total := 0;
    for i := 0 to |rows|
      invariant forall k | 0 <= k < i && rows[k].applied ::
                  exists m | 0 <= m < |deductions| :: deductions[m].id == rows[k].id
      invariant total == RowPoints(rows[..i], deductions)
    {
      assert rows[..i + 1][..i] == rows[..i];
      if rows[i].applied {
        if !exists k | 0 <= k < |deductions| :: deductions[k].id == rows[i].id {
          return None;
        }
        total := total + PointsAt(deductions, rows[i].id);
      }
    }
    assert rows[..|rows|] == rows;
    return Some(total);
  }

  /** any(score < 0 or score > max or score % step != 0 ...) over rows in rubric order */
  method AnyScoreInvalid(scores: seq<CriterionRow>, rubric: R.Rubric) returns (invalid: bool)
    requires rubric.step > 0 && |scores| == |rubric.dimensions|
    ensures invalid <==> exists i | 0 <= i < |scores| :: !G.ScoreOk(scores[i].score, rubric.dimensions[i], rubric.step)
  {
    for i := 0 to |scores|
      invariant forall k | 0 <= k < i :: G.ScoreOk(scores[k].score, rubric.dimensions[k], rubric.step)
    {
      var score := scores[i].score;
      if score < 0 || score > rubric.dimensions[i].maxScore || score % rubric.step != 0 {
        return true;
      }
    }
    return false;
  }

  /**
   An applied deduction that the rubric does not know is reported first; then any total that is not the one
   grading computes from the rows; and last a final export of a grade nobody confirmed.
   */
  method ValidateResult(result: FrozenResult, rubric: R.Rubric, final: bool, confirmed: bool)
    returns (error: Option<WorkbookError>)
    requires rubric.step > 0 && R.FirstError(rubric).None?
    ensures error == Some(SnapshotInvalid) <==>
              exists i | 0 <= i < |result.deductions| && result.deductions[i].applied ::
                forall k | 0 <= k < |rubric.deductions| :: rubric.deductions[k].id != result.deductions[i].id
    ensures error in {None, Some(FinalUnconfirmed)} ==>
              && CriterionIds(result.criteria) == R.DimensionIds(rubric)
              && G.Graded(AsGrade(result), rubric)
              && result.maxScore == rubric.total
              && G.CalculateTotals(AsGrade(result), rubric)
                 == G.Totals(result.subtotal, result.deductionTotal, result.finalScore)
    ensures error == Some(TotalsMismatch) ==>
              || !G.Graded(AsGrade(result), rubric)
              || result.maxScore != rubric.total
              || G.CalculateTotals(AsGrade(result), rubric)
                 != G.Totals(result.subtotal, result.deductionTotal, result.finalScore)
    ensures error == Some(FinalUnconfirmed) ==> final && !confirmed
    ensures error.None? ==> !final || confirmed
    ensures error == WorkbookIssue(result, rubric, final, confirmed)
  {
    var scores := CriterionScores(result.criteria);
    var subtotal := SumOfScores(scores);
    var deductions := SumOfDeductions(result.deductions, rubric.deductions);
    KnownByRows(result, rubric);
    if deductions.None? {
      return Some(SnapshotInvalid);
    }
    IdsOfRows(result, rubric);
    if CriterionIds(result.criteria) != R.DimensionIds(rubric)
       || G.ResultDeductionIds(AsGrade(result)) != R.DeductionIds(rubric)
    {
      return Some(TotalsMismatch);
    }
    assert |CriterionIds(result.criteria)| == |R.DimensionIds(rubric)|;
    var invalid := AnyScoreInvalid(scores, rubric);
    AgreeByRows(result, rubric);
    if invalid || subtotal != result.subtotal || deductions.value != result.deductionTotal
       || G.Max(0, result.subtotal - result.deductionTotal) != result.finalScore || result.maxScore != rubric.total
    {
      return Some(TotalsMismatch);
    }
    if final && !confirmed {
      return Some(FinalUnconfirmed);
    }
    return None;
  }

  /** With the ids of the rubric, agreement is what the comparisons test. */
  lemma AgreeByRows(result: FrozenResult, rubric: R.Rubric)
    requires rubric.step > 0 && R.FirstError(rubric).None?
    requires CriterionIds(result.criteria) == R.DimensionIds(rubric)
    requires G.ResultDeductionIds(AsGrade(result)) == R.DeductionIds(rubric)
    ensures |result.criteria| == |rubric.dimensions|
    ensures forall i | 0 <= i < |result.deductions| && result.deductions[i].applied ::
              exists k | 0 <= k < |rubric.deductions| :: rubric.deductions[k].id == result.deductions[i].id
    ensures TotalsAgree(result, rubric) <==>
              && (forall i | 0 <= i < |result.criteria| ::
                    G.ScoreOk(result.criteria[i].score, rubric.dimensions[i], rubric.step))
              && ScoreOf(result.criteria) == result.subtotal
              && RowPoints(result.deductions, rubric.deductions) == result.deductionTotal
              && G.Max(0, result.subtotal - result.deductionTotal) == result.finalScore
              && result.maxScore == rubric.total
  {
    IdsOfRows(result, rubric);
    assert |CriterionIds(result.criteria)| == |R.DimensionIds(rubric)|;
    DeductionsAgree(result, rubric);
    ScoresAgree(result.criteria, AsGrade(result).dimensions);
  }

  lemma KnownByRows(result: FrozenResult, rubric: R.Rubric)
    ensures KnownDeductions(result, rubric) <==>
              forall i | 0 <= i < |result.deductions| && result.deductions[i].applied ::
                exists k | 0 <= k < |rubric.deductions| :: rubric.deductions[k].id == result.deductions[i].id
  {
    var ids := R.DeductionIds(rubric);
    forall i | 0 <= i < |result.deductions|
      ensures result.deductions[i].id in ids <==>
                exists k | 0 <= k < |rubric.deductions| :: rubric.deductions[k].id == result.deductions[i].id
    {
      if k :| 0 <= k < |rubric.deductions| && rubric.deductions[k].id == result.deductions[i].id {
        assert ids[k] == result.deductions[i].id;
      }
    }
  }

  lemma IdsOfRows(result: FrozenResult, rubric: R.Rubric)
    requires R.FirstError(rubric).None?
    ensures CriterionIds(result.criteria) == G.ResultDimensionIds(AsGrade(result))
    ensures R.Distinct(R.DimensionIds(rubric)) && R.Distinct(R.DeductionIds(rubric))
  {
  }

  // ----- the totals of grading always pass -----

  /** A frozen copy of an accepted grade never fails the recomputation. */
  lemma AcceptedGradesExport(grade: G.GradeResult, rubric: R.Rubric, blocks: G.Blocks, result: FrozenResult, confirmed: bool)
    requires R.FirstError(rubric).None?
    requires G.Validate(Some(grade), rubric, blocks).Accepted?
    requires
      var totals := G.Validate(Some(grade), rubric, blocks).totals;
      && result.subtotal == totals.subtotal && result.deductionTotal == totals.deductionTotal
      && result.finalScore == totals.total && result.maxScore == rubric.total
    requires |result.criteria| == |grade.dimensions| && |result.deductions| == |grade.deductions|
    requires forall i | 0 <= i < |result.criteria| ::
               result.criteria[i] == CriterionRow(grade.dimensions[i].id, grade.dimensions[i].score)
    requires forall i | 0 <= i < |result.deductions| ::
               result.deductions[i] == DeductionRow(grade.deductions[i].id, grade.deductions[i].applied)
    ensures WorkbookIssue(result, rubric, false, confirmed).None?
    ensures WorkbookIssue(result, rubric, true, confirmed).None? <==> confirmed
  {
    G.AcceptedMeans(grade, rubric, blocks);
    var copy := AsGrade(result);
    assert G.ResultDimensionIds(copy) == G.ResultDimensionIds(grade);
    assert G.ResultDeductionIds(copy) == G.ResultDeductionIds(grade);
    SameScores(copy.dimensions, grade.dimensions);
    SameApplied(copy.deductions, grade.deductions);
    forall i | 0 <= i < |result.deductions| ensures result.deductions[i].id in R.DeductionIds(rubric) {
      assert G.ResultDeductionIds(grade)[i] == R.DeductionIds(rubric)[i];
    }
  }

  lemma SameApplied(a: seq<G.DeductionResult>, b: seq<G.DeductionResult>)
    requires |a| == |b| && forall i | 0 <= i < |a| :: a[i].id == b[i].id && a[i].applied == b[i].applied
    ensures G.AppliedIds(a) == G.AppliedIds(b)
  {
    forall id | id in G.AppliedIds(b) ensures id in G.AppliedIds(a) {
      var i :| 0 <= i < |b| && b[i].applied && b[i].id == id;
      assert a[i].applied;
    }
  }

  lemma {:induction false} SameScores(a: seq<G.DimensionResult>, b: seq<G.DimensionResult>)
    requires |a| == |b| && forall i | 0 <= i < |a| :: a[i].score == b[i].score
    ensures G.ScoreSum(a) == G.ScoreSum(b)
  {
    if a != [] { SameScores(a[..|a| - 1], b[..|b| - 1]); }
  }
}
