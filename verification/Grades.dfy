/** Validation of a model's grades against the rubric and the document, and the totals computed from them. */
module Grades {
  import opened Wrappers
  import R = Rubric

  datatype Evidence = Evidence(blockId: string, quote: string)
  datatype DimensionResult = DimensionResult(id: string, score: int, evidence: seq<Evidence>)
  datatype DeductionResult = DeductionResult(id: string, applied: bool, evidence: seq<Evidence>)
  datatype GradeResult = GradeResult(dimensions: seq<DimensionResult>, deductions: seq<DeductionResult>)

  /** A document's blocks, as the lookup table from block id to text. */
  type Blocks = map<string, string>

  datatype GradeError =
    | SchemaInvalid
    | DimensionDuplicate
    | DimensionMismatch
    | ScoreInvalid
    | DeductionDuplicate
    | DeductionMismatch
    | EvidenceDuplicate
    | BlockUnknown
    | QuoteMismatch

  datatype Totals = Totals(subtotal: int, deductionTotal: int, total: int)

  /** Unhandled: the totals do not fit their own fields, and that exception is not a grade error. */
  datatype Verdict = Accepted(totals: Totals) | Rejected(error: GradeError) | Unhandled

  // ----- totals -----

  function ScoreSum(dimensions: seq<DimensionResult>): int {
    if dimensions == [] then 0
    else ScoreSum(dimensions[..|dimensions| - 1]) + dimensions[|dimensions| - 1].score
  }

  function AppliedIds(deductions: seq<DeductionResult>): set<string> {
    set i | 0 <= i < |deductions| && deductions[i].applied :: deductions[i].id
  }

  /** Points of the rubric's deductions whose id is in the set. */
  function PointsOf(deductions: seq<R.Deduction>, ids: set<string>): int {
    if deductions == [] then 0
    else
      var last := deductions[|deductions| - 1];
      PointsOf(deductions[..|deductions| - 1], ids) + (if last.id in ids then last.points else 0)
  }

  function Max(a: int, b: int): int {
    if a < b then b else a
  }

  function CalculateTotals(result: GradeResult, rubric: R.Rubric): Totals {
    var subtotal := ScoreSum(result.dimensions);
    var deductionTotal := PointsOf(rubric.deductions, AppliedIds(result.deductions));
    Totals(subtotal, deductionTotal, Max(0, subtotal - deductionTotal))
  }

  // ----- what the totals mean -----

  /** Subtotals add up: nothing counts 0, one dimension counts its score, and lists of dimensions add. */
  lemma SubtotalAdds(first: seq<DimensionResult>, rest: seq<DimensionResult>, one: DimensionResult,
                     deductions: seq<DeductionResult>, rubric: R.Rubric)
    ensures CalculateTotals(GradeResult([], deductions), rubric).subtotal == 0
    ensures CalculateTotals(GradeResult([one], deductions), rubric).subtotal == one.score
    ensures CalculateTotals(GradeResult(first + rest, deductions), rubric).subtotal
            == CalculateTotals(GradeResult(first, deductions), rubric).subtotal
               + CalculateTotals(GradeResult(rest, deductions), rubric).subtotal
  {
    assert [one][..0] == [];
    ScoreSumAdds(first, rest);
  }

  lemma {:induction false} ScoreSumAdds(first: seq<DimensionResult>, rest: seq<DimensionResult>)
    ensures ScoreSum(first + rest) == ScoreSum(first) + ScoreSum(rest)
  {
    if rest == [] {
      assert first + rest == first;
    } else {
      var n := |rest| - 1;
      assert (first + rest)[..|first| + n] == first + rest[..n];
      ScoreSumAdds(first, rest[..n]);
    }
  }

  /** Raising one score by k raises the subtotal by exactly k and leaves the deductions alone. */
  lemma ScoreChangeShows(result: GradeResult, rubric: R.Rubric, i: nat, k: int)
    requires i < |result.dimensions|
    ensures
      var raised := result.dimensions[i].(score := result.dimensions[i].score + k);
      var before := CalculateTotals(result, rubric);
      var after := CalculateTotals(result.(dimensions := result.dimensions[i := raised]), rubric);
      after.subtotal == before.subtotal + k && after.deductionTotal == before.deductionTotal && Rest(after)
  {
    var raised := result.dimensions[i].(score := result.dimensions[i].score + k);
    ScoreSumUpdate(result.dimensions, i, raised);
  }

  lemma {:induction false} ScoreSumUpdate(dimensions: seq<DimensionResult>, i: nat, d: DimensionResult)
    requires i < |dimensions|
    ensures ScoreSum(dimensions[i := d]) == ScoreSum(dimensions) + d.score - dimensions[i].score
  {
    var n := |dimensions| - 1;
    if i == n {
      assert dimensions[i := d][..n] == dimensions[..n];
    } else {
      assert dimensions[i := d][..n] == dimensions[..n][i := d];
      ScoreSumUpdate(dimensions[..n], i, d);
    }
  }

  /** The total is what the deductions leave of the subtotal, and never below zero. */
  predicate Rest(t: Totals) {
    t.total >= 0 && (t.total == t.subtotal - t.deductionTotal || (t.total == 0 && t.subtotal < t.deductionTotal))
  }

  /** Without an applied deduction nothing is deducted. */
  lemma NothingApplied(result: GradeResult, rubric: R.Rubric)
    requires forall i | 0 <= i < |result.deductions| :: !result.deductions[i].applied
    ensures CalculateTotals(result, rubric).deductionTotal == 0 && Rest(CalculateTotals(result, rubric))
  {
    assert AppliedIds(result.deductions) == {};
    PointsOfNone(rubric.deductions);
  }

  lemma {:induction false} PointsOfNone(deductions: seq<R.Deduction>)
    ensures PointsOf(deductions, {}) == 0
  {
    if deductions != [] { PointsOfNone(deductions[..|deductions| - 1]); }
  }

  /** Applying one more deduction of the rubric deducts exactly the points the rubric gives it. */
  lemma OneMoreApplied(result: GradeResult, rubric: R.Rubric, i: nat, k: nat)
    requires i < |result.deductions| && k < |rubric.deductions| && R.Distinct(R.DeductionIds(rubric))
    requires result.deductions[i].id == rubric.deductions[k].id
    requires forall m | 0 <= m < |result.deductions| && result.deductions[m].id == rubric.deductions[k].id ::
               !result.deductions[m].applied
    ensures
      var applied := result.deductions[i := result.deductions[i].(applied := true)];
      var before := CalculateTotals(result, rubric);
      var after := CalculateTotals(result.(deductions := applied), rubric);
      && after.deductionTotal == before.deductionTotal + rubric.deductions[k].points
      && after.subtotal == before.subtotal && Rest(after)
  {
    var row := result.deductions[i].(applied := true);
    var applied := result.deductions[i := row];
    var id := rubric.deductions[k].id;
    AppliedUpdate(result.deductions, i, row);
    forall a, b | 0 <= a < b < |rubric.deductions| ensures rubric.deductions[a].id != rubric.deductions[b].id {
      assert R.DeductionIds(rubric)[a] != R.DeductionIds(rubric)[b];
    }
    PointsOfOneMore(rubric.deductions, AppliedIds(result.deductions), k);
  }

  lemma AppliedUpdate(deductions: seq<DeductionResult>, i: nat, row: DeductionResult)
    requires i < |deductions| && !deductions[i].applied && row == deductions[i].(applied := true)
    ensures AppliedIds(deductions[i := row]) == AppliedIds(deductions) + {row.id}
  {
    var after := deductions[i := row];
    forall id | id in AppliedIds(deductions) + {row.id} ensures id in AppliedIds(after) {
      if id in AppliedIds(deductions) {
        var m :| 0 <= m < |deductions| && deductions[m].applied && deductions[m].id == id;
        assert after[m] == deductions[m];
      } else {
        assert after[i].id == id;
      }
    }
  }

  lemma {:induction false} PointsOfOneMore(deductions: seq<R.Deduction>, ids: set<string>, k: nat)
    requires forall a, b | 0 <= a < b < |deductions| :: deductions[a].id != deductions[b].id
    requires k < |deductions| && deductions[k].id !in ids
    ensures PointsOf(deductions, ids + {deductions[k].id}) == PointsOf(deductions, ids) + deductions[k].points
  {
    var n := |deductions| - 1;
    if k == n {
      PointsOfOthers(deductions[..n], ids, deductions[n].id);
    } else {
      PointsOfOneMore(deductions[..n], ids, k);
    }
  }

  lemma {:induction false} PointsOfOthers(deductions: seq<R.Deduction>, ids: set<string>, id: string)
    requires forall a | 0 <= a < |deductions| :: deductions[a].id != id
    ensures PointsOf(deductions, ids + {id}) == PointsOf(deductions, ids)
  {
    if deductions != [] { PointsOfOthers(deductions[..|deductions| - 1], ids, id); }
  }

  // ----- what a valid result is -----

  predicate ResultFields(result: GradeResult) {
    && 1 <= |result.dimensions| <= 100 && |result.deductions| <= 100
    && (forall i | 0 <= i < |result.dimensions| ::
          && R.ValidId(result.dimensions[i].id)
          && -R.AMOUNT_LIMIT < result.dimensions[i].score < R.AMOUNT_LIMIT
          && 1 <= |result.dimensions[i].evidence| <= 100)
    && (forall i | 0 <= i < |result.deductions| ::
          R.ValidId(result.deductions[i].id) && |result.deductions[i].evidence| <= 100)
  }

  function ResultDimensionIds(result: GradeResult): (ids: seq<string>)
    ensures |ids| == |result.dimensions| && forall i | 0 <= i < |ids| :: ids[i] == result.dimensions[i].id
  {
    seq(|result.dimensions|, i requires 0 <= i < |result.dimensions| => result.dimensions[i].id)
  }

  function ResultDeductionIds(result: GradeResult): (ids: seq<string>)
    ensures |ids| == |result.deductions| && forall i | 0 <= i < |ids| :: ids[i] == result.deductions[i].id
  {
    seq(|result.deductions|, i requires 0 <= i < |result.deductions| => result.deductions[i].id)
  }

  predicate ScoreOk(score: int, dimension: R.Dimension, step: int)
    requires step > 0
  {
    0 <= score <= dimension.maxScore && R.OnStep(score, step)
  }

  predicate ScoresOk(result: GradeResult, rubric: R.Rubric)
    requires rubric.step > 0 && |result.dimensions| == |rubric.dimensions|
  {
    forall i | 0 <= i < |result.dimensions| :: ScoreOk(result.dimensions[i].score, rubric.dimensions[i], rubric.step)
  }

  // ----- evidence -----

  predicate StandsAt(text: string, i: nat, quote: string) {
    i + |quote| <= |text| && text[i..i + |quote|] == quote
  }

  predicate Quoted(text: string, quote: string) {
    exists i | 0 <= i <= |text| :: StandsAt(text, i, quote)
  }

  predicate RepeatedAt(group: seq<Evidence>, k: nat)
    requires k < |group|
  {
    exists j | 0 <= j < k :: group[j] == group[k]
  }

  function IssueAt(group: seq<Evidence>, k: nat, blocks: Blocks): Option<GradeError>
    requires k < |group|
  {
    if RepeatedAt(group, k) then Some(EvidenceDuplicate)
    else if group[k].blockId !in blocks then Some(BlockUnknown)
    else if !Quoted(blocks[group[k].blockId], group[k].quote) then Some(QuoteMismatch)
    else None
  }

  /** The first issue among the first n quotations of a group. */
  function GroupIssue(group: seq<Evidence>, n: nat, blocks: Blocks): Option<GradeError>
    requires n <= |group|
  {
    if n == 0 then None
    else
      match GroupIssue(group, n - 1, blocks)
      case Some(e) => Some(e)
      case None => IssueAt(group, n - 1, blocks)
  }

  function GroupsIssue(groups: seq<seq<Evidence>>, n: nat, blocks: Blocks): Option<GradeError>
    requires n <= |groups|
  {
    if n == 0 then None
    else
      match GroupsIssue(groups, n - 1, blocks)
      case Some(e) => Some(e)
      case None => GroupIssue(groups[n - 1], |groups[n - 1]|, blocks)
  }

  function EvidenceGroups(result: GradeResult): seq<seq<Evidence>> {
    seq(|result.dimensions|, i requires 0 <= i < |result.dimensions| => result.dimensions[i].evidence)
    + seq(|result.deductions|, i requires 0 <= i < |result.deductions| => result.deductions[i].evidence)
  }

  /** Every quotation of a group is new and stands word for word in its block. */
  predicate Verbatim(group: seq<Evidence>, blocks: Blocks) {
    && R.Distinct(group)
    && forall k | 0 <= k < |group| :: group[k].blockId in blocks && Quoted(blocks[group[k].blockId], group[k].quote)
  }

  lemma {:induction false} NoGroupIssue(group: seq<Evidence>, n: nat, blocks: Blocks)
    requires n <= |group|
    ensures GroupIssue(group, n, blocks).None? <==> Verbatim(group[..n], blocks)
  {
    if n > 0 {
      NoGroupIssue(group, n - 1, blocks);
      var shorter, longer := group[..n - 1], group[..n];
      assert longer == shorter + [group[n - 1]];
      if IssueAt(group, n - 1, blocks).None? && Verbatim(shorter, blocks) {
        forall i, k | 0 <= i < k < |longer| ensures longer[i] != longer[k] {
          if k == n - 1 { assert group[i] != group[n - 1]; } else { assert shorter[i] != shorter[k]; }
        }
      }
      if Verbatim(longer, blocks) {
        assert !RepeatedAt(group, n - 1) by {
          forall j | 0 <= j < n - 1 ensures group[j] != group[n - 1] { assert longer[j] != longer[n - 1]; }
        }
        assert longer[n - 1] == group[n - 1];
        assert forall i, k | 0 <= i < k < |shorter| :: shorter[i] == longer[i] && shorter[k] == longer[k];
      }
    }
  }

  /** The evidence check passes exactly when every group is verbatim. */
  lemma {:induction false} NoEvidenceIssue(groups: seq<seq<Evidence>>, n: nat, blocks: Blocks)
    requires n <= |groups|
    ensures GroupsIssue(groups, n, blocks).None? <==> forall i | 0 <= i < n :: Verbatim(groups[i], blocks)
  {
    if n > 0 {
      NoEvidenceIssue(groups, n - 1, blocks);
      NoGroupIssue(groups[n - 1], |groups[n - 1]|, blocks);
      assert groups[n - 1][..|groups[n - 1]|] == groups[n - 1];
    }
  }

  // ----- the rules, one by one -----

  /** Some quotation breaks the rule, and no quotation before it breaks any. */
  predicate FirstBadQuote(groups: seq<seq<Evidence>>, blocks: Blocks, g: nat, k: nat, error: GradeError) {
    && g < |groups| && k < |groups[g]|
    && (forall i | 0 <= i < g :: Verbatim(groups[i], blocks))
    && Verbatim(groups[g][..k], blocks)
    && var e := groups[g][k];
    && (error == EvidenceDuplicate <==> e in groups[g][..k])
    && (error == BlockUnknown <==> e !in groups[g][..k] && e.blockId !in blocks)
    && (error == QuoteMismatch <==>
          e !in groups[g][..k] && e.blockId in blocks && !Quoted(blocks[e.blockId], e.quote))
    && error in {EvidenceDuplicate, BlockUnknown, QuoteMismatch}
  }

  /** The order in which the rules are tested; the three of the evidence are one rule. */
  function Rank(error: GradeError): nat {
    match error
    case SchemaInvalid => 0
    case DimensionDuplicate => 1
    case DimensionMismatch => 2
    case ScoreInvalid => 3
    case DeductionDuplicate => 4
    case DeductionMismatch => 5
    case EvidenceDuplicate => 6
    case BlockUnknown => 6
    case QuoteMismatch => 6
  }

  /** The result breaks this rule, whatever it does to the others. */
  predicate Breaks(result: GradeResult, rubric: R.Rubric, blocks: Blocks, error: GradeError)
    requires rubric.step > 0
  {
    match error
    case SchemaInvalid => !ResultFields(result)
    case DimensionDuplicate => !R.Distinct(ResultDimensionIds(result))
    case DimensionMismatch => ResultDimensionIds(result) != R.DimensionIds(rubric)
    case ScoreInvalid =>
      exists i | 0 <= i < |result.dimensions| && i < |rubric.dimensions| ::
        var score := result.dimensions[i].score;
        score < 0 || rubric.dimensions[i].maxScore < score || score % rubric.step != 0
    case DeductionDuplicate => !R.Distinct(ResultDeductionIds(result))
    case DeductionMismatch => ResultDeductionIds(result) != R.DeductionIds(rubric)
    case _ =>
      exists g: nat, k: nat | g < |EvidenceGroups(result)| && k < |EvidenceGroups(result)[g]| ::
        FirstBadQuote(EvidenceGroups(result), blocks, g, k, error)
  }

  // ----- the validator -----

  /** The first rule a parsed result breaks, in the order they are tested. */
  function FirstIssue(result: GradeResult, rubric: R.Rubric, blocks: Blocks): Option<GradeError>
    requires rubric.step > 0
  {
    if !ResultFields(result) then Some(SchemaInvalid)
    else if !R.Distinct(ResultDimensionIds(result)) then Some(DimensionDuplicate)
    else if ResultDimensionIds(result) != R.DimensionIds(rubric) then Some(DimensionMismatch)
    else if !ScoresOk(result, rubric) then Some(ScoreInvalid)
    else if !R.Distinct(ResultDeductionIds(result)) then Some(DeductionDuplicate)
    else if ResultDeductionIds(result) != R.DeductionIds(rubric) then Some(DeductionMismatch)
    else GroupsIssue(EvidenceGroups(result), |EvidenceGroups(result)|, blocks)
  }

  /** The first issue is a rule that is broken while none before it is; there is none iff no rule is broken. */
  lemma FirstIssueMeaning(result: GradeResult, rubric: R.Rubric, blocks: Blocks)
    requires rubric.step > 0
    ensures
      match FirstIssue(result, rubric, blocks)
      case Some(error) =>
        && Breaks(result, rubric, blocks, error)
        && forall e | Rank(e) < Rank(error) :: !Breaks(result, rubric, blocks, e)
      case None => forall e :: !Breaks(result, rubric, blocks, e)
  {
    var groups := EvidenceGroups(result);
    if ResultDimensionIds(result) == R.DimensionIds(rubric) {
      assert |ResultDimensionIds(result)| == |R.DimensionIds(rubric)|;
    }
    FirstQuoteIssue(groups, |groups|, blocks);
    NoEvidenceIssue(groups, |groups|, blocks);
    if GroupsIssue(groups, |groups|, blocks).None? {
      forall g: nat, k: nat, e | g < |groups| && k < |groups[g]| ensures !FirstBadQuote(groups, blocks, g, k, e) {
        assert Verbatim(groups[g], blocks);
      }
    }
  }

  lemma {:induction false} FirstQuoteIssue(groups: seq<seq<Evidence>>, n: nat, blocks: Blocks)
    requires n <= |groups|
    ensures
      var issue := GroupsIssue(groups, n, blocks);
      issue.Some? ==>
        exists g: nat, k: nat | g < n && k < |groups[g]| :: FirstBadQuote(groups, blocks, g, k, issue.value)
  {
    if n > 0 {
      FirstQuoteIssue(groups, n - 1, blocks);
      NoEvidenceIssue(groups, n - 1, blocks);
      var group := groups[n - 1];
      if GroupsIssue(groups, n - 1, blocks).None? && GroupIssue(group, |group|, blocks).Some? {
        var k := FirstOfGroup(group, |group|, blocks);
        assert FirstBadQuote(groups, blocks, n - 1, k, GroupIssue(group, |group|, blocks).value);
      }
    }
  }

  lemma {:induction false} FirstOfGroup(group: seq<Evidence>, n: nat, blocks: Blocks) returns (k: nat)
    requires n <= |group| && GroupIssue(group, n, blocks).Some?
    ensures k < n && Verbatim(group[..k], blocks) && IssueAt(group, k, blocks) == GroupIssue(group, n, blocks)
    ensures RepeatedAt(group, k) <==> group[k] in group[..k]
  {
    if GroupIssue(group, n - 1, blocks).Some? {
      k := FirstOfGroup(group, n - 1, blocks);
    } else {
      k := n - 1;
      NoGroupIssue(group, k, blocks);
      forall j | 0 <= j < k ensures group[..k][j] == group[j] {
      }
    }
  }

  predicate TotalsFit(totals: Totals) {
    R.InRange(totals.subtotal) && R.InRange(totals.deductionTotal) && R.InRange(totals.total)
  }

  function Validate(raw: Option<GradeResult>, rubric: R.Rubric, blocks: Blocks): Verdict
    requires rubric.step > 0
  {
    match raw
    case None => Rejected(SchemaInvalid)
    case Some(result) =>
      match FirstIssue(result, rubric, blocks)
      case Some(error) => Rejected(error)
      case None =>
        var totals := CalculateTotals(result, rubric);
        if TotalsFit(totals) then Accepted(totals) else Unhandled
  }

  method RequireExactIds(actual: seq<string>, expected: seq<string>, duplicate: GradeError, mismatch: GradeError)
    returns (error: Option<GradeError>)
    ensures error == if !R.Distinct(actual) then Some(duplicate) else if actual != expected then Some(mismatch) else None
  {
    var distinct := R.AllDistinct(actual);
    if !distinct {
      return Some(duplicate);
    }
    if actual != expected {
      return Some(mismatch);
    }
    return None;
  }

  method ValidateEvidence(groups: seq<seq<Evidence>>, blocks: Blocks) returns (error: Option<GradeError>)
    ensures error == GroupsIssue(groups, |groups|, blocks)
  {
    for g := 0 to |groups|
      invariant GroupsIssue(groups, g, blocks).None?
    {
      var group := groups[g];
      var seen: set<Evidence> := {};
      for k := 0 to |group|
        invariant GroupIssue(group, k, blocks).None?
        invariant seen == set j | 0 <= j < k :: group[j]
      {
        var evidence := group[k];
        error := None;
        if evidence in seen {
          error := Some(EvidenceDuplicate);
        } else if evidence.blockId !in blocks {
          error := Some(BlockUnknown);
        } else if !Quoted(blocks[evidence.blockId], evidence.quote) {
          error := Some(QuoteMismatch);
        }
        seen := seen + {evidence};
        assert error == IssueAt(group, k, blocks);
        if error.Some? {
          FirstGroupIssue(group, k + 1, |group|, blocks);
          FirstGroupsIssue(groups, g + 1, |groups|, blocks);
          return;
        }
      }
    }
    return None;
  }

  lemma {:induction false} FirstGroupIssue(group: seq<Evidence>, n: nat, m: nat, blocks: Blocks)
    requires n <= m <= |group| && GroupIssue(group, n, blocks).Some?
    ensures GroupIssue(group, m, blocks) == GroupIssue(group, n, blocks)
  {
    if n < m { FirstGroupIssue(group, n, m - 1, blocks); }
  }

  lemma {:induction false} FirstGroupsIssue(groups: seq<seq<Evidence>>, n: nat, m: nat, blocks: Blocks)
    requires n <= m <= |groups| && GroupsIssue(groups, n, blocks).Some?
    ensures GroupsIssue(groups, m, blocks) == GroupsIssue(groups, n, blocks)
  {
    if n < m { FirstGroupsIssue(groups, n, m - 1, blocks); }
  }

  method CheckScores(result: GradeResult, rubric: R.Rubric) returns (ok: bool)
    requires rubric.step > 0 && |result.dimensions| == |rubric.dimensions|
    ensures ok <==> ScoresOk(result, rubric)
  {
    for i := 0 to |result.dimensions|
      invariant forall k | 0 <= k < i :: ScoreOk(result.dimensions[k].score, rubric.dimensions[k], rubric.step)
    {
      var score := result.dimensions[i].score;
      if score < 0 || score > rubric.dimensions[i].maxScore || score % rubric.step != 0 {
        return false;
      }
    }
    return true;
  }

  method ValidateGradeResponse(raw: Option<GradeResult>, rubric: R.Rubric, blocks: Blocks) returns (verdict: Verdict)
    requires rubric.step > 0
    ensures raw.None? ==> verdict == Rejected(SchemaInvalid)
    ensures raw.Some? && verdict.Rejected? ==>
              && Breaks(raw.value, rubric, blocks, verdict.error)
              && forall e | Rank(e) < Rank(verdict.error) :: !Breaks(raw.value, rubric, blocks, e)
    ensures raw.Some? && !verdict.Rejected? ==> forall e :: !Breaks(raw.value, rubric, blocks, e)
    ensures raw.Some? && !verdict.Rejected? ==>
              verdict == if TotalsFit(CalculateTotals(raw.value, rubric)) then Accepted(CalculateTotals(raw.value, rubric))
                         else Unhandled
    ensures verdict == Validate(raw, rubric, blocks)
  {
    if raw.Some? {
      FirstIssueMeaning(raw.value, rubric, blocks);
    }
    if raw.None? || !ResultFields(raw.value) {
      return Rejected(SchemaInvalid);
    }
    var result := raw.value;
    var error := RequireExactIds(ResultDimensionIds(result), R.DimensionIds(rubric), DimensionDuplicate, DimensionMismatch);
    if error.Some? {
      return Rejected(error.value);
    }
    assert |ResultDimensionIds(result)| == |R.DimensionIds(rubric)|;
    var ok := CheckScores(result, rubric);
    if !ok {
      return Rejected(ScoreInvalid);
    }
    error := RequireExactIds(ResultDeductionIds(result), R.DeductionIds(rubric), DeductionDuplicate, DeductionMismatch);
    if error.Some? {
      return Rejected(error.value);
    }
    error := ValidateEvidence(EvidenceGroups(result), blocks);
    if error.Some? {
      return Rejected(error.value);
    }
    var totals := CalculateTotals(result, rubric);
    return if TotalsFit(totals) then Accepted(totals) else Unhandled;
  }

  // ----- what an accepted grade is -----

  predicate Graded(result: GradeResult, rubric: R.Rubric)
    requires rubric.step > 0
  {
    && ResultDimensionIds(result) == R.DimensionIds(rubric)
    && ResultDeductionIds(result) == R.DeductionIds(rubric)
    && |result.dimensions| == |rubric.dimensions|
    && ScoresOk(result, rubric)
  }

  /** A parsed result is accepted or unhandled exactly when it grades every item of the rubric with real quotations. */
  lemma AcceptedMeans(result: GradeResult, rubric: R.Rubric, blocks: Blocks)
    requires R.FirstError(rubric).None?
    ensures !Validate(Some(result), rubric, blocks).Rejected? <==>
              ResultFields(result) && Graded(result, rubric)
              && forall i | 0 <= i < |EvidenceGroups(result)| :: Verbatim(EvidenceGroups(result)[i], blocks)
  {
    R.ValidatorsAgree(rubric);
    assert |ResultDimensionIds(result)| == |result.dimensions| && |R.DimensionIds(rubric)| == |rubric.dimensions|;
    NoEvidenceIssue(EvidenceGroups(result), |EvidenceGroups(result)|, blocks);
  }

  lemma {:induction false} SubtotalBounds(dimensions: seq<DimensionResult>, maxima: seq<R.Dimension>, step: int)
    requires step > 0 && |dimensions| == |maxima|
    requires forall i | 0 <= i < |dimensions| :: ScoreOk(dimensions[i].score, maxima[i], step)
    ensures 0 <= ScoreSum(dimensions) <= R.MaxTotal(maxima)
    ensures R.OnStep(ScoreSum(dimensions), step)
  {
    if dimensions != [] {
      var n := |dimensions| - 1;
      SubtotalBounds(dimensions[..n], maxima[..n], step);
      SumOnStep(ScoreSum(dimensions[..n]), dimensions[n].score, step);
    } else {
      R.MultipleIsOnStep(0, step);
    }
  }

  lemma SumOnStep(a: int, b: int, step: int)
    requires step > 0 && R.OnStep(a, step) && R.OnStep(b, step)
    ensures R.OnStep(a + b, step) && R.OnStep(a - b, step)
  {
    var x, y := a / step, b / step;
    assert a == step * x && b == step * y;
    assert a + b == step * (x + y) && a - b == step * (x - y);
    R.MultipleIsOnStep(x + y, step);
    R.MultipleIsOnStep(x - y, step);
  }

  lemma {:induction false} DeductionBounds(deductions: seq<R.Deduction>, ids: set<string>, total: int, step: int)
    requires step > 0 && forall i | 0 <= i < |deductions| :: R.DeductionOk(deductions[i], total, step)
    ensures 0 <= PointsOf(deductions, ids) && R.OnStep(PointsOf(deductions, ids), step)
    ensures total >= 0 ==> PointsOf(deductions, ids) <= |deductions| * total
  {
    if deductions != [] {
      var n := |deductions| - 1;
      DeductionBounds(deductions[..n], ids, total, step);
      assert R.DeductionOk(deductions[n], total, step);
      if deductions[n].id in ids {
        SumOnStep(PointsOf(deductions[..n], ids), deductions[n].points, step);
      }
      assert |deductions| * total == n * total + total;
    } else {
      R.MultipleIsOnStep(0, step);
    }
  }

  /** The bounds on the totals of every grade that passes the checks. */
  lemma TotalsOfGraded(result: GradeResult, rubric: R.Rubric)
    requires R.FirstError(rubric).None? && rubric.step > 0 && Graded(result, rubric)
    ensures
      var t := CalculateTotals(result, rubric);
      && 0 <= t.total <= t.subtotal <= rubric.total < R.AMOUNT_LIMIT
      && 0 <= t.deductionTotal
      && t.total == Max(0, t.subtotal - t.deductionTotal)
      && R.OnStep(t.total, rubric.step) && R.OnStep(t.subtotal, rubric.step) && R.OnStep(t.deductionTotal, rubric.step)
  {
    R.ValidatorsAgree(rubric);
    SubtotalBounds(result.dimensions, rubric.dimensions, rubric.step);
    DeductionBounds(rubric.deductions, AppliedIds(result.deductions), rubric.total, rubric.step);
    SumOnStep(ScoreSum(result.dimensions), PointsOf(rubric.deductions, AppliedIds(result.deductions)), rubric.step);
    R.MultipleIsOnStep(0, rubric.step);
  }

  /**
   The deduction total alone decides whether the totals fit: the points of the applied deductions may
   exceed ten digits although each of them is within the rubric's total.
   */
  lemma UnhandledExactlyWhenDeductionsOverflow(result: GradeResult, rubric: R.Rubric, blocks: Blocks)
    requires R.FirstError(rubric).None?
    ensures Validate(Some(result), rubric, blocks) == Unhandled <==>
              FirstIssue(result, rubric, blocks).None?
              && PointsOf(rubric.deductions, AppliedIds(result.deductions)) >= R.AMOUNT_LIMIT
  {
    if FirstIssue(result, rubric, blocks).None? {
      assert |ResultDimensionIds(result)| == |result.dimensions| && |R.DimensionIds(rubric)| == |rubric.dimensions|;
      TotalsOfGraded(result, rubric);
    }
  }

  /** The overflow happens: a valid rubric, a valid answer, and no verdict. */
  lemma DeductionsCanOverflow()
    ensures exists rubric, result, blocks ::
              R.FirstError(rubric).None? && Validate(Some(result), rubric, blocks) == Unhandled
  {
    var max := 9_999_990_000;
    var rubric := R.Rubric(max, 10_000, [R.Dimension("a", "a", max, [R.Band(0, max)])],
                           [R.Deduction("b", "b", max), R.Deduction("c", "c", max)]);
    var quote := Evidence("b000001", "x");
    var result := GradeResult([DimensionResult("a", 0, [quote])],
                              [DeductionResult("b", true, []), DeductionResult("c", true, [])]);
    var blocks := map["b000001" := "x"];
    OverflowRubric(rubric, max);
    OverflowResult(result, rubric, blocks, quote);
    UnhandledExactlyWhenDeductionsOverflow(result, rubric, blocks);
    assert result.deductions[0].id in AppliedIds(result.deductions);
    assert result.deductions[1].id in AppliedIds(result.deductions);
    assert rubric.deductions[..1] == [rubric.deductions[0]] && rubric.deductions[..1][..0] == [];
    assert PointsOf(rubric.deductions[..1], AppliedIds(result.deductions)) == max;
  }

  lemma OverflowRubric(rubric: R.Rubric, max: int)
    requires max == 9_999_990_000
    requires rubric == R.Rubric(max, 10_000, [R.Dimension("a", "a", max, [R.Band(0, max)])],
                                [R.Deduction("b", "b", max), R.Deduction("c", "c", max)])
    ensures R.FirstError(rubric).None?
  {
    assert rubric.dimensions[..0] == [];
    assert R.MaxTotal(rubric.dimensions) == max;
    assert R.OnStep(max, 10_000) && R.OnStep(0, 10_000);
    assert R.Contract(rubric) && R.DomainOnly(rubric);
    R.ValidatorsAgree(rubric);
  }

  lemma OverflowResult(result: GradeResult, rubric: R.Rubric, blocks: Blocks, quote: Evidence)
    requires quote == Evidence("b000001", "x") && blocks == map["b000001" := "x"]
    requires rubric.step == 10_000 && R.DimensionIds(rubric) == ["a"] && R.DeductionIds(rubric) == ["b", "c"]
    requires |rubric.dimensions| == 1 && rubric.dimensions[0].maxScore >= 0
    requires result == GradeResult([DimensionResult("a", 0, [quote])],
                                   [DeductionResult("b", true, []), DeductionResult("c", true, [])])
    ensures FirstIssue(result, rubric, blocks).None?
  {
    var groups := EvidenceGroups(result);
    assert groups == [[quote], [], []];
    assert StandsAt("x", 0, "x");
    NoEvidenceIssue(groups, 3, blocks);
    assert ResultDimensionIds(result) == ["a"] && ResultDeductionIds(result) == ["b", "c"];
    assert R.OnStep(0, 10_000);
  }

  // ----- the outcome of a call -----

  datatype Assessment = AcceptedOutput(totals: Totals) | CorrectOnce(issue: GradeError) | ToTeacher(issue: GradeError)

  /** What an assessment raises, apart from the validator's own errors. */
  datatype Raised = RequestMismatch | NoSuchCall | TotalsUnhandled

  /**
   The prompt says which call this was (two messages, or three with a correction) and for which request it was
   made; a prompt of another request is refused before anything else is looked at.
   */
  method AssessGradeResponse(raw: Option<GradeResult>, rubric: R.Rubric, blocks: Blocks, messages: nat,
                             promptHash: seq<bv8>, requestHash: seq<bv8>)
    returns (outcome: Result<Assessment, Raised>)
    requires rubric.step > 0
    ensures outcome == Err(RequestMismatch) <==> promptHash != requestHash
    ensures outcome == Err(NoSuchCall) <==> promptHash == requestHash && messages !in {2, 3}
    ensures outcome == Err(TotalsUnhandled) <==>
              promptHash == requestHash && messages in {2, 3} && Validate(raw, rubric, blocks) == Unhandled
    ensures outcome.Ok? && outcome.value.CorrectOnce? ==> messages == 2
    ensures outcome.Ok? && outcome.value.ToTeacher? ==> messages == 3
    ensures outcome.Ok? && !outcome.value.AcceptedOutput? ==>
              Validate(raw, rubric, blocks) == Rejected(outcome.value.issue)
    ensures outcome.Ok? && outcome.value.AcceptedOutput? ==>
              Validate(raw, rubric, blocks) == Accepted(outcome.value.totals)
  {
    if promptHash != requestHash {
      return Err(RequestMismatch);
    }
    if messages != 2 && messages != 3 {
      return Err(NoSuchCall);
    }
    var verdict := ValidateGradeResponse(raw, rubric, blocks);
    match verdict {
      case Accepted(totals) => return Ok(AcceptedOutput(totals));
      case Rejected(issue) => return Ok(if messages == 2 then CorrectOnce(issue) else ToTeacher(issue));
      case Unhandled => return Err(TotalsUnhandled);
    }
  }
}
