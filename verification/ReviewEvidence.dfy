/** A teacher's review: its flat evidence list is regrouped by target and graded like a model's answer. */
module ReviewEvidence {
  import opened Wrappers
  import R = Rubric
  import G = Grades

  datatype TargetType = OnDimension | OnDeduction
  datatype Target = Target(kind: TargetType, id: string)
  datatype TargetedEvidence = TargetedEvidence(target: Target, quote: G.Evidence)
  datatype Criterion = Criterion(id: string, score: int)
  datatype DeductionChoice = DeductionChoice(id: string, applied: bool)

  /** The texts of a grade, by dimension and deduction. */
  datatype Narrative = Narrative(
    reasons: seq<string>,
    suggestions: seq<seq<string>>,
    deductionReasons: seq<string>,
    feedback: string)

  datatype Review = Review(
    attempt: nat,                  // the attempt the teacher was shown
    criteria: seq<Criterion>,
    deductions: seq<DeductionChoice>,
    evidence: seq<TargetedEvidence>,
    narrative: Narrative,
    changeReason: bool)            // a reason for changes is given

  datatype ItemState = AwaitsReview | Reviewed | Elsewhere

  /** The item under review; original and narrative are the model's grade. */
  datatype ReviewTarget = ReviewTarget(state: ItemState, attempt: nat, original: G.GradeResult, narrative: Narrative)

  datatype ReviewError =
    | NotEditable
    | AttemptOutdated
    | TargetUnknown
    | FieldsInvalid
    | GradeInvalid(error: G.GradeError)
    | TotalsOverflow
    | ChangeReasonRequired

  /** The draft model already rejects repeated ids and empty criteria. */
  predicate DraftFields(review: Review) {
    && 1 <= |review.criteria| <= 100 && |review.deductions| <= 100
    && (forall i, k | 0 <= i < k < |review.criteria| :: review.criteria[i].id != review.criteria[k].id)
    && (forall i, k | 0 <= i < k < |review.deductions| :: review.deductions[i].id != review.deductions[k].id)
  }

  /** The targets of a review, criteria first. */
  function Targets(review: Review): (r: seq<Target>)
    ensures |r| == |review.criteria| + |review.deductions|
    ensures forall i | 0 <= i < |review.criteria| :: r[i] == Target(OnDimension, review.criteria[i].id)
    ensures forall i | 0 <= i < |review.deductions| ::
              r[|review.criteria| + i] == Target(OnDeduction, review.deductions[i].id)
  {
    seq(|review.criteria|, i requires 0 <= i < |review.criteria| => Target(OnDimension, review.criteria[i].id))
    + seq(|review.deductions|, i requires 0 <= i < |review.deductions| => Target(OnDeduction, review.deductions[i].id))
  }

  predicate KnownTargets(evidence: seq<TargetedEvidence>, targets: seq<Target>) {
    forall i | 0 <= i < |evidence| :: evidence[i].target in targets
  }

  /** The quotations of one target, in the order the teacher listed them. */
  function QuotesOf(evidence: seq<TargetedEvidence>, target: Target): seq<G.Evidence> {
    if evidence == [] then []
    else
      var last := evidence[|evidence| - 1];
      QuotesOf(evidence[..|evidence| - 1], target) + (if last.target == target then [last.quote] else [])
  }

  /** The graded form of a review. */
  function AsGrade(review: Review): (grade: G.GradeResult)
    ensures |grade.dimensions| == |review.criteria| && |grade.deductions| == |review.deductions|
    ensures forall i | 0 <= i < |review.criteria| ::
              grade.dimensions[i] == G.DimensionResult(review.criteria[i].id, review.criteria[i].score,
                                                       QuotesOf(review.evidence, Target(OnDimension, review.criteria[i].id)))
    ensures forall i | 0 <= i < |review.deductions| ::
              grade.deductions[i] == G.DeductionResult(review.deductions[i].id, review.deductions[i].applied,
                                                       QuotesOf(review.evidence, Target(OnDeduction, review.deductions[i].id)))
  {
    G.GradeResult(
      seq(|review.criteria|, i requires 0 <= i < |review.criteria| =>
        G.DimensionResult(review.criteria[i].id, review.criteria[i].score,
                          QuotesOf(review.evidence, Target(OnDimension, review.criteria[i].id)))),
      seq(|review.deductions|, i requires 0 <= i < |review.deductions| =>
        G.DeductionResult(review.deductions[i].id, review.deductions[i].applied,
                          QuotesOf(review.evidence, Target(OnDeduction, review.deductions[i].id)))))
  }

  // ----- regrouping loses and invents nothing -----

  function Count(group: seq<G.Evidence>, quote: G.Evidence): nat {
    if group == [] then 0
    else Count(group[..|group| - 1], quote) + (if group[|group| - 1] == quote then 1 else 0)
  }

  /** How often a quotation occurs in a list of groups. */
  function CountAll(groups: seq<seq<G.Evidence>>, quote: G.Evidence): nat {
    if groups == [] then 0 else CountAll(groups[..|groups| - 1], quote) + Count(groups[|groups| - 1], quote)
  }

  /** How often the teacher listed it. */
  function CountListed(evidence: seq<TargetedEvidence>, quote: G.Evidence): nat {
    if evidence == [] then 0
    else CountListed(evidence[..|evidence| - 1], quote) + (if evidence[|evidence| - 1].quote == quote then 1 else 0)
  }

  function CountOver(evidence: seq<TargetedEvidence>, targets: seq<Target>, quote: G.Evidence): nat {
    if targets == [] then 0
    else
      CountOver(evidence, targets[..|targets| - 1], quote) + Count(QuotesOf(evidence, targets[|targets| - 1]), quote)
  }

  lemma DistinctFront(targets: seq<Target>)
    requires targets != [] && R.Distinct(targets)
    ensures R.Distinct(targets[..|targets| - 1]) && targets[|targets| - 1] !in targets[..|targets| - 1]
  {
  }

  /** One more piece of evidence lands in exactly the group of its target. */
  lemma {:induction false} OneMoreQuote(evidence: seq<TargetedEvidence>, targets: seq<Target>, quote: G.Evidence)
    requires evidence != [] && R.Distinct(targets)
    ensures
      var last := evidence[|evidence| - 1];
      CountOver(evidence, targets, quote) ==
        CountOver(evidence[..|evidence| - 1], targets, quote)
        + (if last.target in targets && last.quote == quote then 1 else 0)
    decreases |targets|
  {
    if targets != [] {
      var last, target := evidence[|evidence| - 1], targets[|targets| - 1];
      DistinctFront(targets);
      OneMoreQuote(evidence, targets[..|targets| - 1], quote);
      assert targets == targets[..|targets| - 1] + [target];
      assert last.target in targets <==> last.target in targets[..|targets| - 1] || last.target == target;
      var own := QuotesOf(evidence[..|evidence| - 1], target);
      assert (own + [last.quote])[..|own|] == own && own + [] == own;
      assert Count(QuotesOf(evidence, target), quote) ==
             Count(own, quote) + (if last.target == target && last.quote == quote then 1 else 0);
    }
  }

  /** The regrouped quotations are a rearrangement of the listed ones. */
  lemma {:induction false} EvidenceConserved(evidence: seq<TargetedEvidence>, targets: seq<Target>, quote: G.Evidence)
    requires R.Distinct(targets) && KnownTargets(evidence, targets)
    ensures CountOver(evidence, targets, quote) == CountListed(evidence, quote)
  {
    if evidence == [] {
      NothingCounted(targets, quote);
    } else {
      assert evidence[|evidence| - 1].target in targets;
      EvidenceConserved(evidence[..|evidence| - 1], targets, quote);
      OneMoreQuote(evidence, targets, quote);
    }
  }

  lemma {:induction false} NothingCounted(targets: seq<Target>, quote: G.Evidence)
    ensures CountOver([], targets, quote) == 0
  {
    if targets != [] { NothingCounted(targets[..|targets| - 1], quote); }
  }

  lemma {:induction false} GroupsCounted(groups: seq<seq<G.Evidence>>, evidence: seq<TargetedEvidence>,
                                         targets: seq<Target>, quote: G.Evidence)
    requires |groups| == |targets| && forall i | 0 <= i < |groups| :: groups[i] == QuotesOf(evidence, targets[i])
    ensures CountAll(groups, quote) == CountOver(evidence, targets, quote)
  {
    if groups != [] { GroupsCounted(groups[..|groups| - 1], evidence, targets[..|targets| - 1], quote); }
  }

  lemma TargetsAreDistinct(review: Review)
    requires DraftFields(review)
    ensures R.Distinct(Targets(review))
  {
    var targets, n := Targets(review), |review.criteria|;
    forall i, k | 0 <= i < k < |targets| ensures targets[i] != targets[k] {
      if k < n {
        assert review.criteria[i].id != review.criteria[k].id;
      } else {
        assert targets[k] == Target(OnDeduction, review.deductions[k - n].id);
        if i < n {
          assert targets[i] == Target(OnDimension, review.criteria[i].id);
        } else {
          assert targets[i] == Target(OnDeduction, review.deductions[i - n].id);
        }
      }
    }
  }

  /** A review's graded form carries every quotation of the review exactly once. */
  lemma ReviewEvidenceConserved(review: Review)
    requires DraftFields(review) && KnownTargets(review.evidence, Targets(review))
    ensures forall quote ::
              CountAll(G.EvidenceGroups(AsGrade(review)), quote) == CountListed(review.evidence, quote)
  {
    TargetsAreDistinct(review);
    var groups, targets, n := G.EvidenceGroups(AsGrade(review)), Targets(review), |review.criteria|;
    forall i | 0 <= i < |groups| ensures groups[i] == QuotesOf(review.evidence, targets[i]) {
      if i < n {
        assert groups[i] == AsGrade(review).dimensions[i].evidence;
      } else {
        assert groups[i] == AsGrade(review).deductions[i - n].evidence;
        assert targets[n + (i - n)] == Target(OnDeduction, review.deductions[i - n].id);
      }
    }
    forall quote ensures CountAll(groups, quote) == CountListed(review.evidence, quote) {
      EvidenceConserved(review.evidence, targets, quote);
      GroupsCounted(groups, review.evidence, targets, quote);
    }
  }

  // ----- the service -----

  type Groups = map<Target, seq<G.Evidence>>

  function Lookup(groups: Groups, target: Target): seq<G.Evidence> {
    if target in groups then groups[target] else []
  }

  predicate GroupsOf(groups: Groups, evidence: seq<TargetedEvidence>) {
    && (forall target | target in groups :: groups[target] == QuotesOf(evidence, target))
    && (forall i | 0 <= i < |evidence| :: evidence[i].target in groups)
  }

  lemma {:induction false} NoQuotes(evidence: seq<TargetedEvidence>, target: Target)
    requires forall i | 0 <= i < |evidence| :: evidence[i].target != target
    ensures QuotesOf(evidence, target) == []
  {
    if evidence != [] { NoQuotes(evidence[..|evidence| - 1], target); }
  }

  /** Quotations are taken in the order of the list: lists add, and one entry gives its quote to its own target alone. */
  lemma {:induction false} QuotesAdd(first: seq<TargetedEvidence>, rest: seq<TargetedEvidence>, one: TargetedEvidence,
                                     target: Target)
    ensures QuotesOf(first + rest, target) == QuotesOf(first, target) + QuotesOf(rest, target)
    ensures QuotesOf([one], target) == if one.target == target then [one.quote] else []
    decreases |rest|
  {
    assert [one][..0] == [];
    if rest == [] {
      assert first + rest == first;
    } else {
      var n := |rest| - 1;
      assert (first + rest)[..|first| + n] == first + rest[..n];
      QuotesAdd(first, rest[..n], one, target);
    }
  }

  /** A missing group is an empty one. */
  lemma LookupIsQuotesOf(groups: Groups, evidence: seq<TargetedEvidence>, target: Target)
    requires GroupsOf(groups, evidence)
    ensures Lookup(groups, target) == QuotesOf(evidence, target)
  {
    if target !in groups { NoQuotes(evidence, target); }
  }

  /** grouped.setdefault(target, []).append(quote); None is an unknown target. */
  method GroupEvidence(review: Review) returns (grouped: Option<Groups>)
    ensures grouped.Some? <==> KnownTargets(review.evidence, Targets(review))
    ensures grouped.Some? ==> GroupsOf(grouped.value, review.evidence)
  {
    var dimensionIds := set i | 0 <= i < |review.criteria| :: review.criteria[i].id;
    var deductionIds := set i | 0 <= i < |review.deductions| :: review.deductions[i].id;
    ghost var targets := Targets(review);
    var evidence := review.evidence;
    var groups: Groups := map[];
    for n := 0 to |evidence|
      invariant KnownTargets(evidence[..n], targets) && GroupsOf(groups, evidence[..n])
    {
      var target := evidence[n].target;
      KnownById(review, target, dimensionIds, deductionIds);
      if (target.kind == OnDimension && target.id !in dimensionIds)
         || (target.kind == OnDeduction && target.id !in deductionIds)
      {
        return None;
      }
      LookupIsQuotesOf(groups, evidence[..n], target);
      Appended(groups, evidence, n, Lookup(groups, target) + [evidence[n].quote], targets);
      groups := groups[target := Lookup(groups, target) + [evidence[n].quote]];
    }
    assert evidence[..|evidence|] == evidence;
    return Some(groups);
  }

  lemma Appended(groups: Groups, evidence: seq<TargetedEvidence>, n: nat, longer: seq<G.Evidence>, targets: seq<Target>)
    requires n < |evidence| && GroupsOf(groups, evidence[..n])
    requires KnownTargets(evidence[..n], targets) && evidence[n].target in targets
    requires longer == QuotesOf(evidence[..n], evidence[n].target) + [evidence[n].quote]
    ensures GroupsOf(groups[evidence[n].target := longer], evidence[..n + 1])
    ensures KnownTargets(evidence[..n + 1], targets)
  {
    assert evidence[..n + 1] == evidence[..n] + [evidence[n]];
    OneMoreListed(groups, evidence[..n], evidence[n], longer, targets);
  }

  lemma OneMoreListed(groups: Groups, before: seq<TargetedEvidence>, last: TargetedEvidence, longer: seq<G.Evidence>,
                      targets: seq<Target>)
    requires GroupsOf(groups, before) && KnownTargets(before, targets) && last.target in targets
    requires longer == QuotesOf(before, last.target) + [last.quote]
    ensures GroupsOf(groups[last.target := longer], before + [last])
    ensures KnownTargets(before + [last], targets)
  {
    var after := before + [last];
    assert after[..|before|] == before && after[|before|] == last;
    forall target ensures QuotesOf(after, target) == QuotesOf(before, target) + (if last.target == target then [last.quote] else []) {
    }
  }

  lemma KnownById(review: Review, target: Target, dimensionIds: set<string>, deductionIds: set<string>)
    requires dimensionIds == set i | 0 <= i < |review.criteria| :: review.criteria[i].id
    requires deductionIds == set i | 0 <= i < |review.deductions| :: review.deductions[i].id
    ensures target in Targets(review) <==>
              (target.kind == OnDimension && target.id in dimensionIds) || (target.kind == OnDeduction && target.id in deductionIds)
  {
    if (target.kind == OnDimension && target.id in dimensionIds) || (target.kind == OnDeduction && target.id in deductionIds) {
      IdIsTarget(review, target);
    }
    if target in Targets(review) { TargetHasId(review, target); }
  }

  lemma IdIsTarget(review: Review, target: Target)
    requires
      || (target.kind == OnDimension && exists i :: 0 <= i < |review.criteria| && review.criteria[i].id == target.id)
      || (target.kind == OnDeduction && exists i :: 0 <= i < |review.deductions| && review.deductions[i].id == target.id)
    ensures target in Targets(review)
  {
    var targets := Targets(review);
    if target.kind == OnDimension {
      var i :| 0 <= i < |review.criteria| && review.criteria[i].id == target.id;
      assert targets[i] == target;
    } else {
      var i :| 0 <= i < |review.deductions| && review.deductions[i].id == target.id;
      assert targets[|review.criteria| + i] == target;
    }
  }

  lemma TargetHasId(review: Review, target: Target)
    requires target in Targets(review)
    ensures target.kind == OnDimension ==> exists i :: 0 <= i < |review.criteria| && review.criteria[i].id == target.id
    ensures target.kind == OnDeduction ==> exists i :: 0 <= i < |review.deductions| && review.deductions[i].id == target.id
  {
    var targets, n := Targets(review), |review.criteria|;
    var i :| 0 <= i < |targets| && targets[i] == target;
    if i >= n {
      assert targets[n + (i - n)] == Target(OnDeduction, review.deductions[i - n].id);
    }
  }

  predicate StateAllows(target: ReviewTarget, requireEditable: bool) {
    if requireEditable then target.state == AwaitsReview else target.state in {AwaitsReview, Reviewed}
  }

  /** The review is another grade than the model's. */
  predicate Changed(target: ReviewTarget, review: Review) {
    AsGrade(review) != target.original || review.narrative != target.narrative
  }

  /** What becomes of a review: its totals, or the first reason it is refused. */
  function Assess(target: ReviewTarget, review: Review, requireEditable: bool, rubric: R.Rubric, blocks: G.Blocks)
    : Result<G.Totals, ReviewError>
    requires rubric.step > 0
  {
    if !StateAllows(target, requireEditable) then Err(NotEditable)
    else if review.attempt != target.attempt then Err(AttemptOutdated)
    else if !KnownTargets(review.evidence, Targets(review)) then Err(TargetUnknown)
    else if !G.ResultFields(AsGrade(review)) then Err(FieldsInvalid)
    else
      match G.Validate(Some(AsGrade(review)), rubric, blocks)
      case Rejected(error) => Err(GradeInvalid(error))
      case Unhandled => Err(TotalsOverflow)
      case Accepted(totals) =>
        if Changed(target, review) && !review.changeReason then Err(ChangeReasonRequired)
        else Ok(totals)
  }

  /** The grade result with each target's group, or no evidence where there is none. */
  method BuildGrade(review: Review, grouped: Groups) returns (grade: G.GradeResult)
    requires GroupsOf(grouped, review.evidence)
    ensures grade == AsGrade(review)
  {
    var dimensions: seq<G.DimensionResult> := [];
    for i := 0 to |review.criteria|
      invariant dimensions == AsGrade(review).dimensions[..i]
    {
      var target := Target(OnDimension, review.criteria[i].id);
      LookupIsQuotesOf(grouped, review.evidence, target);
      dimensions := dimensions + [G.DimensionResult(review.criteria[i].id, review.criteria[i].score, Lookup(grouped, target))];
    }
    var deductions: seq<G.DeductionResult> := [];
    for i := 0 to |review.deductions|
      invariant deductions == AsGrade(review).deductions[..i]
    {
      var target := Target(OnDeduction, review.deductions[i].id);
      LookupIsQuotesOf(grouped, review.evidence, target);
      deductions := deductions + [G.DeductionResult(review.deductions[i].id, review.deductions[i].applied,
                                                    Lookup(grouped, target))];
    }
    return G.GradeResult(dimensions, deductions);
  }

  /** Every quotation is listed under a criterion or a deduction of the review. */
  predicate TargetsListed(review: Review) {
    forall n | 0 <= n < |review.evidence| ::
      var t := review.evidence[n].target;
      if t.kind == OnDimension then exists i | 0 <= i < |review.criteria| :: review.criteria[i].id == t.id
      else exists i | 0 <= i < |review.deductions| :: review.deductions[i].id == t.id
  }

  lemma KnownMeansListed(review: Review)
    ensures KnownTargets(review.evidence, Targets(review)) <==> TargetsListed(review)
  {
    forall n | 0 <= n < |review.evidence|
      ensures
        var t := review.evidence[n].target;
        t in Targets(review) <==>
          if t.kind == OnDimension then exists i | 0 <= i < |review.criteria| :: review.criteria[i].id == t.id
          else exists i | 0 <= i < |review.deductions| :: review.deductions[i].id == t.id
    {
      var t := review.evidence[n].target;
      if t in Targets(review) {
        TargetHasId(review, t);
      } else if (t.kind == OnDimension && exists i :: 0 <= i < |review.criteria| && review.criteria[i].id == t.id)
                || (t.kind == OnDeduction && exists i :: 0 <= i < |review.deductions| && review.deductions[i].id == t.id) {
        IdIsTarget(review, t);
      }
    }
  }

  /**
   Each answer has one condition, tested in this order: the state, the attempt, the targets, the fields, the grade
   with its totals, and last a reason, which only a review that changes the grade or its words has to give.
   */
  predicate ReviewMeans(target: ReviewTarget, review: Review, requireEditable: bool, rubric: R.Rubric, blocks: G.Blocks,
                        r: Result<G.Totals, ReviewError>)
    requires rubric.step > 0
  {
    var open := target.state == AwaitsReview || (target.state == Reviewed && !requireEditable);
    var current := open && review.attempt == target.attempt;
    var listed := current && TargetsListed(review);
    var grade := AsGrade(review);
    var graded := listed && G.ResultFields(grade);
    var verdict := G.Validate(Some(grade), rubric, blocks);
    var silent := (grade != target.original || review.narrative != target.narrative) && !review.changeReason;
    && (r == Err(NotEditable) <==> !open)
    && (r == Err(AttemptOutdated) <==> open && !current)
    && (r == Err(TargetUnknown) <==> current && !listed)
    && (r == Err(FieldsInvalid) <==> listed && !graded)
    && (forall e :: r == Err(GradeInvalid(e)) <==> graded && verdict == G.Rejected(e))
    && (r == Err(TotalsOverflow) <==> graded && verdict == G.Unhandled)
    && (r == Err(ChangeReasonRequired) <==> graded && verdict.Accepted? && silent)
    && (r.Ok? <==> graded && verdict.Accepted? && !silent)
    && (r.Ok? ==> r.value == verdict.totals)
  }

  method ValidatePayload(target: ReviewTarget, review: Review, requireEditable: bool, rubric: R.Rubric, blocks: G.Blocks)
    returns (r: Result<G.Totals, ReviewError>)
    requires rubric.step > 0
    ensures ReviewMeans(target, review, requireEditable, rubric, blocks, r)
    ensures r == Assess(target, review, requireEditable, rubric, blocks)
  {
    KnownMeansListed(review);
    if requireEditable && target.state != AwaitsReview {
      return Err(NotEditable);
    }
    if !requireEditable && target.state == Elsewhere {
      return Err(NotEditable);
    }
    if review.attempt != target.attempt {
      return Err(AttemptOutdated);
    }
    var grouped := GroupEvidence(review);
    if grouped.None? {
      return Err(TargetUnknown);
    }
    var grade := BuildGrade(review, grouped.value);
    if !G.ResultFields(grade) {
      return Err(FieldsInvalid);
    }
    var verdict := G.ValidateGradeResponse(Some(grade), rubric, blocks);
    match verdict {
      case Rejected(error) => return Err(GradeInvalid(error));
      case Unhandled => return Err(TotalsOverflow);
      case Accepted(totals) =>
        var changed := grade != target.original || review.narrative != target.narrative;
        if changed && !review.changeReason {
          return Err(ChangeReasonRequired);
        }
        return Ok(totals);
    }
  }

  /**
   An accepted review is one of the attempt under review, quotes the document word for word, drops nothing
   the teacher listed, has the rubric's totals, and gives a reason when it departs from the model's grade.
   */
  lemma AcceptedReview(target: ReviewTarget, review: Review, requireEditable: bool, rubric: R.Rubric, blocks: G.Blocks)
    requires R.FirstError(rubric).None? && rubric.step > 0 && DraftFields(review)
    requires Assess(target, review, requireEditable, rubric, blocks).Ok?
    ensures review.attempt == target.attempt && (Changed(target, review) ==> review.changeReason)
    ensures forall quote ::
              CountAll(G.EvidenceGroups(AsGrade(review)), quote) == CountListed(review.evidence, quote)
    ensures forall i | 0 <= i < |review.evidence| ::
              var quote := review.evidence[i].quote;
              quote.blockId in blocks && G.Quoted(blocks[quote.blockId], quote.quote)
    ensures
      var totals := Assess(target, review, requireEditable, rubric, blocks).value;
      totals == G.CalculateTotals(AsGrade(review), rubric) && 0 <= totals.total <= rubric.total
  {
    ReviewEvidenceConserved(review);
    G.AcceptedMeans(AsGrade(review), rubric, blocks);
    G.TotalsOfGraded(AsGrade(review), rubric);
    var groups := G.EvidenceGroups(AsGrade(review));
    forall i | 0 <= i < |review.evidence|
      ensures
        var quote := review.evidence[i].quote;
        quote.blockId in blocks && G.Quoted(blocks[quote.blockId], quote.quote)
    {
      ListedIn(review.evidence, i);
      GatheredIn(groups, review.evidence[i].quote);
    }
  }

  lemma {:induction false} ListedIn(evidence: seq<TargetedEvidence>, i: nat)
    requires i < |evidence|
    ensures CountListed(evidence, evidence[i].quote) > 0
  {
    if i < |evidence| - 1 { ListedIn(evidence[..|evidence| - 1], i); }
  }

  predicate OccursIn(groups: seq<seq<G.Evidence>>, quote: G.Evidence) {
    exists i | 0 <= i < |groups| :: quote in groups[i]
  }

  lemma {:induction false} CountedOccurs(group: seq<G.Evidence>, quote: G.Evidence)
    requires Count(group, quote) > 0
    ensures quote in group
  {
    if group[|group| - 1] != quote { CountedOccurs(group[..|group| - 1], quote); }
  }

  lemma {:induction false} GatheredIn(groups: seq<seq<G.Evidence>>, quote: G.Evidence)
    requires CountAll(groups, quote) > 0
    ensures OccursIn(groups, quote)
  {
    var n := |groups| - 1;
    if Count(groups[n], quote) > 0 {
      CountedOccurs(groups[n], quote);
    } else {
      GatheredIn(groups[..n], quote);
      var i :| 0 <= i < n && quote in groups[..n][i];
      assert quote in groups[i];
    }
  }
}
