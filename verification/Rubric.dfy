/**
 The numeric and identifier part of a rubric, and the two validators that every rubric passes: the
 domain model's and the database's. Amounts are counted in units of 0.0001.
 */
module Rubric {
  import opened Wrappers

  datatype Band = Band(minScore: int, maxScore: int)

  /** name is the normalised name: trimmed, single-spaced and lower-cased. */
  datatype Dimension = Dimension(id: string, name: string, maxScore: int, bands: seq<Band>)

  datatype Deduction = Deduction(id: string, name: string, points: int)

  datatype Rubric = Rubric(total: int, step: int, dimensions: seq<Dimension>, deductions: seq<Deduction>)

  // ----- the contract, in its own terms -----

  /** ten digits, four of them decimals */
  const AMOUNT_LIMIT := 10_000_000_000

  /** ^[a-z][a-z0-9_]{0,63}$ */
  predicate ValidId(id: string) {
    && 1 <= |id| <= 64
    && 'a' <= id[0] <= 'z'
    && forall i | 0 <= i < |id| :: 'a' <= id[i] <= 'z' || '0' <= id[i] <= '9' || id[i] == '_'
  }

  predicate OnStep(amount: int, step: int)
    requires step > 0
  {
    amount % step == 0
  }

  predicate Distinct<T(==)>(s: seq<T>) {
    forall i, k | 0 <= i < k < |s| :: s[i] != s[k]
  }

  /** Bands run from 0 to the maximum, each starting one step above the one before. */
  predicate Contiguous(bands: seq<Band>, maxScore: int, step: int) {
    && bands != []
    && bands[0].minScore == 0
    && bands[|bands| - 1].maxScore == maxScore
    && (forall i | 0 <= i < |bands| :: bands[i].minScore <= bands[i].maxScore <= maxScore)
    && (forall i | 0 < i < |bands| :: bands[i].minScore == bands[i - 1].maxScore + step)
  }

  predicate BandsOnStep(bands: seq<Band>, step: int)
    requires step > 0
  {
    forall i | 0 <= i < |bands| :: OnStep(bands[i].minScore, step) && OnStep(bands[i].maxScore, step)
  }

  predicate DimensionOk(d: Dimension, step: int)
    requires step > 0
  {
    && ValidId(d.id) && d.name != ""
    && d.maxScore > 0 && OnStep(d.maxScore, step)
    && Contiguous(d.bands, d.maxScore, step) && BandsOnStep(d.bands, step)
  }

  predicate DeductionOk(d: Deduction, total: int, step: int)
    requires step > 0
  {
    ValidId(d.id) && d.name != "" && 0 < d.points <= total && OnStep(d.points, step)
  }

  function DimensionIds(r: Rubric): (ids: seq<string>)
    ensures |ids| == |r.dimensions| && forall i | 0 <= i < |ids| :: ids[i] == r.dimensions[i].id
  {
    seq(|r.dimensions|, i requires 0 <= i < |r.dimensions| => r.dimensions[i].id)
  }

  function DimensionNames(r: Rubric): (names: seq<string>)
    ensures |names| == |r.dimensions| && forall i | 0 <= i < |names| :: names[i] == r.dimensions[i].name
  {
    seq(|r.dimensions|, i requires 0 <= i < |r.dimensions| => r.dimensions[i].name)
  }

  function DeductionIds(r: Rubric): (ids: seq<string>)
    ensures |ids| == |r.deductions| && forall i | 0 <= i < |ids| :: ids[i] == r.deductions[i].id
  {
    seq(|r.deductions|, i requires 0 <= i < |r.deductions| => r.deductions[i].id)
  }

  function DeductionNames(r: Rubric): (names: seq<string>)
    ensures |names| == |r.deductions| && forall i | 0 <= i < |names| :: names[i] == r.deductions[i].name
  {
    seq(|r.deductions|, i requires 0 <= i < |r.deductions| => r.deductions[i].name)
  }

  function MaxTotal(dimensions: seq<Dimension>): int {
    if dimensions == [] then 0
    else MaxTotal(dimensions[..|dimensions| - 1]) + dimensions[|dimensions| - 1].maxScore
  }

  /** Maxima add up: nothing counts 0, one dimension counts its maximum, and lists of dimensions add. */
  lemma {:induction false} MaximaAdd(first: seq<Dimension>, rest: seq<Dimension>, one: Dimension)
    ensures MaxTotal([]) == 0 && MaxTotal([one]) == one.maxScore
    ensures MaxTotal(first + rest) == MaxTotal(first) + MaxTotal(rest)
    decreases |rest|
  {
    assert [one][..0] == [];
    if rest == [] {
      assert first + rest == first;
    } else {
      var n := |rest| - 1;
      assert (first + rest)[..|first| + n] == first + rest[..n];
      MaximaAdd(first, rest[..n], one);
    }
  }

  /** Raising one maximum by k raises the sum by exactly k. */
  lemma {:induction false} MaximumChangeShows(dimensions: seq<Dimension>, i: nat, k: int)
    requires i < |dimensions|
    ensures MaxTotal(dimensions[i := dimensions[i].(maxScore := dimensions[i].maxScore + k)]) == MaxTotal(dimensions) + k
  {
    var n := |dimensions| - 1;
    var raised := dimensions[i].(maxScore := dimensions[i].maxScore + k);
    if i == n {
      assert dimensions[i := raised][..n] == dimensions[..n];
    } else {
      assert dimensions[i := raised][..n] == dimensions[..n][i := raised];
      MaximumChangeShows(dimensions[..n], i, k);
    }
  }

  /** What both validators demand. */
  predicate Contract(r: Rubric) {
    && 0 < r.step <= r.total && OnStep(r.total, r.step)
    && r.dimensions != []
    && (forall i | 0 <= i < |r.dimensions| :: DimensionOk(r.dimensions[i], r.step))
    && Distinct(DimensionIds(r)) && Distinct(DimensionNames(r))
    && MaxTotal(r.dimensions) == r.total
    && (forall i | 0 <= i < |r.deductions| :: DeductionOk(r.deductions[i], r.total, r.step))
  }

  /** What only the domain model demands: size limits, and distinct deductions. */
  predicate DomainOnly(r: Rubric) {
    && |r.dimensions| <= 100 && |r.deductions| <= 100
    && r.total < AMOUNT_LIMIT
    && (forall i | 0 <= i < |r.dimensions| :: |r.dimensions[i].bands| <= 50)
    && Distinct(DeductionIds(r)) && Distinct(DeductionNames(r))
  }

  // ----- the domain model's validator -----

  datatype RubricError =
    | FieldInvalid
    | DuplicateDimensionId
    | DuplicateDimensionName
    | DuplicateDeductionId
    | DuplicateDeductionName
    | TotalMismatch
    | StepMismatch
    | DeductionTooLarge
    | BandsNotContiguous

  predicate InRange(amount: int) {
    0 <= amount < AMOUNT_LIMIT
  }

  predicate BandFields(b: Band) {
    InRange(b.minScore) && InRange(b.maxScore)
  }

  predicate DimensionFields(d: Dimension) {
    && ValidId(d.id) && d.name != "" && InRange(d.maxScore) && d.maxScore > 0
    && 1 <= |d.bands| <= 50 && forall i | 0 <= i < |d.bands| :: BandFields(d.bands[i])
  }

  /** The constraints of the single fields, tested before the model validator runs. */
  predicate FieldsOk(r: Rubric) {
    && InRange(r.total) && r.total > 0 && InRange(r.step) && r.step > 0
    && 1 <= |r.dimensions| <= 100 && (forall i | 0 <= i < |r.dimensions| :: DimensionFields(r.dimensions[i]))
    && |r.deductions| <= 100
    && (forall i | 0 <= i < |r.deductions| ::
          var d := r.deductions[i];
          ValidId(d.id) && d.name != "" && InRange(d.points) && d.points > 0)
  }

  /** len(set(values)) == len(values) */
  lemma {:induction false} DistinctByCount<T>(s: seq<T>)
    ensures |set x | x in s| <= |s|
    ensures Distinct(s) <==> |set x | x in s| == |s|
  {
    if s != [] {
      var front, last := s[..|s| - 1], s[|s| - 1];
      DistinctByCount(front);
      DistinctFront(s);
      var elements := set x | x in front;
      assert s == front + [last];
      assert (set x | x in s) == elements + {last};
      if last in front {
        assert elements + {last} == elements;
      } else {
        assert |elements + {last}| == |elements| + 1;
      }
    }
  }

  lemma DistinctFront<T>(s: seq<T>)
    requires s != []
    ensures Distinct(s) <==> Distinct(s[..|s| - 1]) && s[|s| - 1] !in s[..|s| - 1]
  {
    var n := |s| - 1;
    if s[n] in s[..n] {
      var i :| 0 <= i < n && s[i] == s[n];
    }
    if Distinct(s[..n]) && s[n] !in s[..n] {
      forall i, k | 0 <= i < k < |s| ensures s[i] != s[k] {
        assert s[i] == s[..n][i];
        if k < n { assert s[k] == s[..n][k]; }
      }
    }
  }

  predicate AllOnStep(scores: seq<int>, step: int)
    requires step > 0
  {
    forall i | 0 <= i < |scores| :: OnStep(scores[i], step)
  }

  predicate RubricOnStep(r: Rubric)
    requires r.step > 0
  {
    && OnStep(r.total, r.step)
    && (forall i | 0 <= i < |r.dimensions| ::
          OnStep(r.dimensions[i].maxScore, r.step) && BandsOnStep(r.dimensions[i].bands, r.step))
    && (forall i | 0 <= i < |r.deductions| :: OnStep(r.deductions[i].points, r.step))
  }

  lemma AppendOnStep(scores: seq<int>, more: seq<int>, step: int)
    requires step > 0
    ensures AllOnStep(scores + more, step) <==> AllOnStep(scores, step) && AllOnStep(more, step)
  {
    if AllOnStep(scores + more, step) {
      forall i | 0 <= i < |scores| ensures OnStep(scores[i], step) {
        assert (scores + more)[i] == scores[i];
      }
      forall i | 0 <= i < |more| ensures OnStep(more[i], step) {
        assert (scores + more)[|scores| + i] == more[i];
      }
    }
  }

  /** The list of every score of the rubric. */
  method Scores(r: Rubric) returns (scores: seq<int>)
    requires r.step > 0
    ensures AllOnStep(scores, r.step) <==> RubricOnStep(r)
  {
    scores := [r.total];
    assert AllOnStep(scores, r.step) <==> OnStep(scores[0], r.step);
    for i := 0 to |r.dimensions|
      invariant AllOnStep(scores, r.step) <==>
                  OnStep(r.total, r.step) && forall k | 0 <= k < i :: OnStep(r.dimensions[k].maxScore, r.step)
    {
      AppendOnStep(scores, [r.dimensions[i].maxScore], r.step);
      assert AllOnStep([r.dimensions[i].maxScore], r.step) <==> OnStep([r.dimensions[i].maxScore][0], r.step);
      scores := scores + [r.dimensions[i].maxScore];
    }
    ghost var maxima := AllOnStep(scores, r.step);
    for i := 0 to |r.dimensions|
      invariant AllOnStep(scores, r.step) <==>
                  maxima && forall k | 0 <= k < i :: BandsOnStep(r.dimensions[k].bands, r.step)
    {
      var bands := r.dimensions[i].bands;
      ghost var before := AllOnStep(scores, r.step);
      for b := 0 to |bands|
        invariant AllOnStep(scores, r.step) <==> before && BandsOnStep(bands[..b], r.step)
      {
        var ends := [bands[b].minScore, bands[b].maxScore];
        AppendOnStep(scores, ends, r.step);
        assert AllOnStep(ends, r.step) <==> OnStep(ends[0], r.step) && OnStep(ends[1], r.step);
        BandsOnStepGrows(bands, b, r.step);
        scores := scores + ends;
      }
      assert bands[..|bands|] == bands;
    }
    ghost var ofBands := AllOnStep(scores, r.step);
    for i := 0 to |r.deductions|
      invariant AllOnStep(scores, r.step) <==>
                  ofBands && forall k | 0 <= k < i :: OnStep(r.deductions[k].points, r.step)
    {
      AppendOnStep(scores, [r.deductions[i].points], r.step);
      assert AllOnStep([r.deductions[i].points], r.step) <==> OnStep([r.deductions[i].points][0], r.step);
      scores := scores + [r.deductions[i].points];
    }
  }

  lemma BandsOnStepGrows(bands: seq<Band>, b: nat, step: int)
    requires step > 0 && b < |bands|
    ensures BandsOnStep(bands[..b + 1], step) <==>
              BandsOnStep(bands[..b], step) && OnStep(bands[b].minScore, step) && OnStep(bands[b].maxScore, step)
  {
    var before, after := bands[..b], bands[..b + 1];
    if BandsOnStep(after, step) {
      forall i | 0 <= i < b ensures OnStep(before[i].minScore, step) && OnStep(before[i].maxScore, step) {
        assert after[i] == before[i];
      }
      assert after[b] == bands[b];
    }
  }

  method CheckBands(bands: seq<Band>, maxScore: int, step: int) returns (ok: bool)
    ensures ok <==> Contiguous(bands, maxScore, step)
  {
    var previousMax: Option<int> := None;
    for i := 0 to |bands|
      invariant previousMax == if i == 0 then None else Some(bands[i - 1].maxScore)
      invariant i > 0 ==> bands[0].minScore == 0
      invariant forall k | 0 <= k < i :: bands[k].minScore <= bands[k].maxScore <= maxScore
      invariant forall k | 0 < k < i :: bands[k].minScore == bands[k - 1].maxScore + step
    {
      var expectedMin := if previousMax.None? then 0 else previousMax.value + step;
      if bands[i].minScore != expectedMin || bands[i].minScore > bands[i].maxScore || bands[i].maxScore > maxScore {
        return false;
      }
      previousMax := Some(bands[i].maxScore);
    }
    return previousMax == Some(maxScore);
  }

  method AllDistinct(values: seq<string>) returns (ok: bool)
    ensures ok <==> Distinct(values)
  {
    DistinctByCount(values);
    ok := |set x | x in values| == |values|;
  }

  method SumOfMaxima(dimensions: seq<Dimension>) returns (sum: int)
    ensures sum == MaxTotal(dimensions)
  {
    sum := 0;
    for i := 0 to |dimensions|
      invariant sum == MaxTotal(dimensions[..i])
    {
      assert dimensions[..i + 1][..i] == dimensions[..i];
      sum := sum + dimensions[i].maxScore;
    }
    assert dimensions[..|dimensions|] == dimensions;
  }

  /** The first rule a rubric breaks, in the order of the model validator. */
  function FirstError(r: Rubric): Option<RubricError> {
    if !FieldsOk(r) then Some(FieldInvalid)
    else if !Distinct(DimensionIds(r)) then Some(DuplicateDimensionId)
    else if !Distinct(DimensionNames(r)) then Some(DuplicateDimensionName)
    else if !Distinct(DeductionIds(r)) then Some(DuplicateDeductionId)
    else if !Distinct(DeductionNames(r)) then Some(DuplicateDeductionName)
    else if MaxTotal(r.dimensions) != r.total then Some(TotalMismatch)
    else if r.step > r.total || !RubricOnStep(r) then Some(StepMismatch)
    else if exists i | 0 <= i < |r.deductions| :: r.deductions[i].points > r.total then Some(DeductionTooLarge)
    else if exists i | 0 <= i < |r.dimensions| ::
              !Contiguous(r.dimensions[i].bands, r.dimensions[i].maxScore, r.step)
    then Some(BandsNotContiguous)
    else None
  }

  /** The order in which the rules are tested. */
  function Rank(error: RubricError): nat {
    match error
    case FieldInvalid => 0
    case DuplicateDimensionId => 1
    case DuplicateDimensionName => 2
    case DuplicateDeductionId => 3
    case DuplicateDeductionName => 4
    case TotalMismatch => 5
    case StepMismatch => 6
    case DeductionTooLarge => 7
    case BandsNotContiguous => 8
  }

  /** The rubric breaks this rule, whatever it does to the others. */
  predicate Breaks(r: Rubric, error: RubricError) {
    match error
    case FieldInvalid => !FieldsOk(r)
    case DuplicateDimensionId => !Distinct(DimensionIds(r))
    case DuplicateDimensionName => !Distinct(DimensionNames(r))
    case DuplicateDeductionId => !Distinct(DeductionIds(r))
    case DuplicateDeductionName => !Distinct(DeductionNames(r))
    case TotalMismatch => MaxTotal(r.dimensions) != r.total
    case StepMismatch => r.step <= 0 || r.total < r.step || !RubricOnStep(r)
    case DeductionTooLarge => exists i | 0 <= i < |r.deductions| :: r.deductions[i].points > r.total
    case BandsNotContiguous =>
      exists i | 0 <= i < |r.dimensions| :: !Contiguous(r.dimensions[i].bands, r.dimensions[i].maxScore, r.step)
  }

  /** The error is that of a broken rule before which none is broken; there is none iff no rule is broken. */
  method ValidateDomain(r: Rubric) returns (error: Option<RubricError>)
    ensures error.Some? ==> Breaks(r, error.value) && forall e | Rank(e) < Rank(error.value) :: !Breaks(r, e)
    ensures error.None? ==> forall e :: !Breaks(r, e)
    ensures error == FirstError(r)
  {
    if !FieldsOk(r) {
      return Some(FieldInvalid);
    }
    var distinct := AllDistinct(DimensionIds(r));
    if !distinct {
      return Some(DuplicateDimensionId);
    }
    distinct := AllDistinct(DimensionNames(r));
    if !distinct {
      return Some(DuplicateDimensionName);
    }
    distinct := AllDistinct(DeductionIds(r));
    if !distinct {
      return Some(DuplicateDeductionId);
    }
    distinct := AllDistinct(DeductionNames(r));
    if !distinct {
      return Some(DuplicateDeductionName);
    }
    var sum := SumOfMaxima(r.dimensions);
    if sum != r.total {
      return Some(TotalMismatch);
    }
    var scores := Scores(r);
    if r.step > r.total || !AllOnStep(scores, r.step) {
      return Some(StepMismatch);
    }
    if exists i | 0 <= i < |r.deductions| :: r.deductions[i].points > r.total {
      return Some(DeductionTooLarge);
    }
    for i := 0 to |r.dimensions|
      invariant forall k | 0 <= k < i :: Contiguous(r.dimensions[k].bands, r.dimensions[k].maxScore, r.step)
    {
      var ok := CheckBands(r.dimensions[i].bands, r.dimensions[i].maxScore, r.step);
      if !ok {
        return Some(BandsNotContiguous);
      }
    }
    return None;
  }

  // ----- the database's validator -----

  /** One dimension's bands, tested one after the other. */
  method CheckSqlBands(bands: seq<Band>, dimensionMax: int, step: int) returns (ok: bool)
    requires step > 0
    ensures ok <==> Contiguous(bands, dimensionMax, step) && BandsOnStep(bands, step)
  {
    if bands == [] {
      return false;
    }
    var previousBandMax: Option<int> := None;
    for i := 0 to |bands|
      invariant previousBandMax == if i == 0 then None else Some(bands[i - 1].maxScore)
      invariant i > 0 ==> bands[0].minScore == 0
      invariant forall k | 0 <= k < i :: 0 <= bands[k].minScore <= bands[k].maxScore <= dimensionMax
      invariant forall k | 0 < k < i :: bands[k].minScore == bands[k - 1].maxScore + step
      invariant forall k | 0 <= k < i :: OnStep(bands[k].minScore, step) && OnStep(bands[k].maxScore, step)
    {
      var min, max := bands[i].minScore, bands[i].maxScore;
      if i > 0 {
        assert Contiguous(bands, dimensionMax, step) ==> bands[i].minScore == bands[i - 1].maxScore + step;
      }
      if min < 0 || min > max || max > dimensionMax || min % step != 0 || max % step != 0
         || (previousBandMax.None? && min != 0)
         || (previousBandMax.Some? && min != previousBandMax.value + step)
      {
        return false;
      }
      previousBandMax := Some(max);
    }
    return previousBandMax == Some(dimensionMax);
  }

  /** The loop over dimensions, with the lists and the total it collects. */
  method CheckSqlDimensions(r: Rubric, step: int) returns (ok: bool, dimensionTotal: int)
    requires step > 0
    ensures ok <==>
              && (forall i | 0 <= i < |r.dimensions| :: DimensionOk(r.dimensions[i], step))
              && Distinct(DimensionIds(r)) && Distinct(DimensionNames(r))
    ensures ok ==> dimensionTotal == MaxTotal(r.dimensions)
  {
    var ids, names := DimensionIds(r), DimensionNames(r);
    var dimensionIds: seq<string>, dimensionNames: seq<string> := [], [];
    dimensionTotal := 0;
    for i := 0 to |r.dimensions|
      invariant dimensionIds == ids[..i] && dimensionNames == names[..i]
      invariant Distinct(dimensionIds) && Distinct(dimensionNames)
      invariant dimensionTotal == MaxTotal(r.dimensions[..i])
      invariant forall k | 0 <= k < i :: DimensionOk(r.dimensions[k], step)
    {
      var d := r.dimensions[i];
      NewInPrefix(ids, i);
      NewInPrefix(names, i);
      if !ValidId(d.id) || d.id in dimensionIds || d.name == "" || d.name in dimensionNames
         || d.maxScore <= 0 || d.maxScore % step != 0
      {
        return false, 0;
      }
      dimensionIds := dimensionIds + [d.id];
      dimensionNames := dimensionNames + [d.name];
      dimensionTotal := dimensionTotal + d.maxScore;
      assert r.dimensions[..i + 1][..i] == r.dimensions[..i];
      var bandsOk := CheckSqlBands(d.bands, d.maxScore, step);
      if !bandsOk {
        return false, 0;
      }
    }
    assert r.dimensions[..|r.dimensions|] == r.dimensions;
    assert ids[..|ids|] == ids && names[..|names|] == names;
    return true, dimensionTotal;
  }

  method ValidateSql(r: Rubric, expectedTotal: int, expectedStep: int) returns (ok: bool)
    ensures ok <==> r.total == expectedTotal && r.step == expectedStep && Contract(r)
  {
    if r.total != expectedTotal || r.step != expectedStep || expectedTotal <= 0 || expectedStep <= 0
       || expectedStep > expectedTotal || expectedTotal % expectedStep != 0 || r.dimensions == []
    {
      return false;
    }
    var dimensionsOk, dimensionTotal := CheckSqlDimensions(r, expectedStep);
    if !dimensionsOk || dimensionTotal != expectedTotal {
      return false;
    }
    for i := 0 to |r.deductions|
      invariant forall k | 0 <= k < i :: DeductionOk(r.deductions[k], expectedTotal, expectedStep)
    {
      var d := r.deductions[i];
      if !ValidId(d.id) || d.name == "" || d.points <= 0 || d.points > expectedTotal || d.points % expectedStep != 0 {
        return false;
      }
    }
    return true;
  }

  lemma NewInPrefix(s: seq<string>, i: nat)
    requires i < |s| && Distinct(s[..i])
    ensures Distinct(s[..i + 1]) <==> s[i] !in s[..i]
    ensures Distinct(s) ==> s[i] !in s[..i]
  {
    if s[i] in s[..i] {
      var k :| 0 <= k < i && s[..i][k] == s[i];
      assert s[k] == s[i] && s[..i + 1][k] == s[..i + 1][i];
    } else {
      var longer := s[..i + 1];
      forall a, b | 0 <= a < b < |longer| ensures longer[a] != longer[b] {
        assert longer[a] == s[..i][a];
        if b < i { assert longer[b] == s[..i][b]; }
      }
    }
  }

  // ----- the two agree -----

  /** The domain model accepts what the database accepts and its own size and deduction rules allow. */
  lemma ValidatorsAgree(r: Rubric)
    ensures FirstError(r).None? <==> Contract(r) && DomainOnly(r)
  {
    if Contract(r) && DomainOnly(r) {
      AmountsInRange(r);
    } else if FirstError(r).None? {
      forall i | 0 <= i < |r.dimensions| ensures DimensionOk(r.dimensions[i], r.step) {
        assert DimensionFields(r.dimensions[i]);
      }
    }
  }

  /** Under the contract every single amount lies within the total, so one bound covers the field limits. */
  lemma AmountsInRange(r: Rubric)
    requires Contract(r) && DomainOnly(r)
    ensures FieldsOk(r)
  {
    forall i | 0 <= i < |r.dimensions| ensures DimensionFields(r.dimensions[i]) {
      var d := r.dimensions[i];
      assert DimensionOk(d, r.step);
      MaxWithinTotal(r.dimensions, i, r.step);
      forall b | 0 <= b < |d.bands| ensures BandFields(d.bands[b]) {
        BandsAreOrdered(d.bands, d.maxScore, r.step, 0, b);
      }
    }
    forall i | 0 <= i < |r.deductions| ensures DeductionOk(r.deductions[i], r.total, r.step) {
    }
  }

  lemma {:induction false} MaxWithinTotal(dimensions: seq<Dimension>, i: nat, step: int)
    requires step > 0 && i < |dimensions| && forall k | 0 <= k < |dimensions| :: DimensionOk(dimensions[k], step)
    ensures 0 < dimensions[i].maxScore <= MaxTotal(dimensions)
  {
    var n := |dimensions| - 1;
    assert DimensionOk(dimensions[n], step);
    if i < n {
      MaxWithinTotal(dimensions[..n], i, step);
    } else if n > 0 {
      MaxWithinTotal(dimensions[..n], 0, step);
    }
  }

  lemma {:induction false} BandsAreOrdered(bands: seq<Band>, maxScore: int, step: int, i: nat, k: nat)
    requires step > 0 && Contiguous(bands, maxScore, step) && i <= k < |bands|
    ensures bands[i].minScore <= bands[k].minScore && bands[i].maxScore <= bands[k].maxScore
    ensures i < k ==> bands[i].maxScore < bands[k].minScore
    decreases k - i
  {
    if i < k {
      BandsAreOrdered(bands, maxScore, step, i, k - 1);
    }
  }

  // ----- bands partition the steps -----

  predicate InBand(b: Band, score: int) {
    b.minScore <= score <= b.maxScore
  }

  predicate Covered(bands: seq<Band>, score: int) {
    exists i | 0 <= i < |bands| :: InBand(bands[i], score)
  }

  /** Every possible score of a dimension lies in exactly one of its bands. */
  lemma {:induction false} ExactlyOneBand(bands: seq<Band>, maxScore: int, step: int, score: int)
    requires step > 0 && Contiguous(bands, maxScore, step) && BandsOnStep(bands, step)
    requires 0 <= score <= maxScore && OnStep(score, step)
    ensures Covered(bands, score)
    ensures forall i, k | 0 <= i < |bands| && 0 <= k < |bands| && InBand(bands[i], score) && InBand(bands[k], score) :: i == k
  {
    FindBand(bands, maxScore, step, score, |bands| - 1);
    forall i, k | 0 <= i < |bands| && 0 <= k < |bands| && InBand(bands[i], score) && InBand(bands[k], score)
      ensures i == k
    {
      if i < k { BandsAreOrdered(bands, maxScore, step, i, k); }
      if k < i { BandsAreOrdered(bands, maxScore, step, k, i); }
    }
  }

  lemma {:induction false} FindBand(bands: seq<Band>, maxScore: int, step: int, score: int, n: nat)
    requires step > 0 && Contiguous(bands, maxScore, step) && BandsOnStep(bands, step)
    requires n < |bands| && 0 <= score <= bands[n].maxScore && OnStep(score, step)
    ensures Covered(bands, score)
  {
    if bands[n].minScore <= score {
      assert InBand(bands[n], score);
    } else {
      assert n > 0 && bands[n].minScore == bands[n - 1].maxScore + step;
      NextStep(score, bands[n].minScore, step);
      FindBand(bands, maxScore, step, score, n - 1);
    }
  }

  /** Two different multiples of the step are at least one step apart. */
  lemma NextStep(a: int, b: int, step: int)
    requires step > 0 && OnStep(a, step) && OnStep(b, step) && a < b
    ensures a + step <= b
  {
    assert a == step * (a / step) && b == step * (b / step);
    assert a / step < b / step;
    assert step * (a / step) + step == step * (a / step + 1) <= step * (b / step) by {
      assert a / step + 1 <= b / step;
      MulKeepsOrder(step, a / step + 1, b / step);
    }
  }

  lemma MulKeepsOrder(step: int, x: int, y: int)
    requires step > 0 && x <= y
    ensures step * x <= step * y
  {
  }

  /** Bands listed upwards, with ends on the step. */
  predicate Ascending(bands: seq<Band>, maxScore: int) {
    && (forall i | 0 <= i < |bands| :: 0 <= bands[i].minScore <= bands[i].maxScore <= maxScore)
    && (forall i, k | 0 <= i < k < |bands| :: bands[i].maxScore < bands[k].minScore)
  }

  ghost predicate CoversSteps(bands: seq<Band>, maxScore: int, step: int)
    requires step > 0
  {
    forall score | 0 <= score <= maxScore && OnStep(score, step) :: Covered(bands, score)
  }

  lemma MultipleIsOnStep(k: int, step: int)
    requires step > 0
    ensures OnStep(step * k, step)
  {
    var x := step * k;
    var q, m := x / step, x % step;
    assert m == step * (k - q) by {
      assert x == step * q + m;
    }
    if k - q >= 1 {
      MulKeepsOrder(step, 1, k - q);
    }
    if k - q <= -1 {
      MulKeepsOrder(step, k - q, -1);
    }
  }

  /** The validators' scan accepts exactly the ascending bands that cover every step. */
  lemma ContiguousIffPartition(bands: seq<Band>, maxScore: int, step: int)
    requires step > 0 && maxScore > 0 && OnStep(maxScore, step) && BandsOnStep(bands, step)
    ensures Contiguous(bands, maxScore, step) <==> Ascending(bands, maxScore) && CoversSteps(bands, maxScore, step)
  {
    if Contiguous(bands, maxScore, step) {
      ContiguousCovers(bands, maxScore, step);
    }
    if Ascending(bands, maxScore) && CoversSteps(bands, maxScore, step) {
      PartitionIsContiguous(bands, maxScore, step);
    }
  }

  lemma ContiguousCovers(bands: seq<Band>, maxScore: int, step: int)
    requires step > 0 && BandsOnStep(bands, step) && Contiguous(bands, maxScore, step)
    ensures Ascending(bands, maxScore) && CoversSteps(bands, maxScore, step)
  {
    forall i, k | 0 <= i < k < |bands| ensures bands[i].maxScore < bands[k].minScore {
      BandsAreOrdered(bands, maxScore, step, i, k);
    }
    forall i | 0 <= i < |bands| ensures 0 <= bands[i].minScore {
      BandsAreOrdered(bands, maxScore, step, 0, i);
    }
    forall score | 0 <= score <= maxScore && OnStep(score, step) ensures Covered(bands, score) {
      ExactlyOneBand(bands, maxScore, step, score);
    }
  }

  lemma CoveredAt(bands: seq<Band>, maxScore: int, step: int, k: int)
    requires step > 0 && CoversSteps(bands, maxScore, step) && 0 <= step * k <= maxScore
    ensures Covered(bands, step * k)
  {
    MultipleIsOnStep(k, step);
  }

  lemma PartitionIsContiguous(bands: seq<Band>, maxScore: int, step: int)
    requires step > 0 && maxScore > 0 && OnStep(maxScore, step) && BandsOnStep(bands, step)
    requires Ascending(bands, maxScore) && CoversSteps(bands, maxScore, step)
    ensures Contiguous(bands, maxScore, step)
  {
    CoveredAt(bands, maxScore, step, 0);
    assert Covered(bands, maxScore);
    EndsAreCovered(bands, maxScore);
    forall i | 0 < i < |bands| ensures bands[i].minScore == bands[i - 1].maxScore + step {
      NoGap(bands, maxScore, step, i);
    }
  }

  lemma EndsAreCovered(bands: seq<Band>, maxScore: int)
    requires maxScore > 0 && Ascending(bands, maxScore) && Covered(bands, 0) && Covered(bands, maxScore)
    ensures bands != [] && bands[0].minScore == 0 && bands[|bands| - 1].maxScore == maxScore
  {
    var first :| 0 <= first < |bands| && InBand(bands[first], 0);
    var last :| 0 <= last < |bands| && InBand(bands[last], maxScore);
    assert bands[0].minScore <= bands[first].minScore;
    assert bands[last].maxScore <= bands[|bands| - 1].maxScore;
  }

  lemma NoGap(bands: seq<Band>, maxScore: int, step: int, i: nat)
    requires step > 0 && BandsOnStep(bands, step) && Ascending(bands, maxScore) && 0 < i < |bands|
    requires CoversSteps(bands, maxScore, step)
    ensures bands[i].minScore == bands[i - 1].maxScore + step
  {
    var k := NextMultiple(bands, step, i);
    CoveredAt(bands, maxScore, step, k);
    CoveredMeansNext(bands, maxScore, i, step * k);
  }

  lemma NextMultiple(bands: seq<Band>, step: int, i: nat) returns (k: int)
    requires step > 0 && BandsOnStep(bands, step) && 0 < i < |bands| && bands[i - 1].maxScore < bands[i].minScore
    ensures bands[i - 1].maxScore + step == step * k <= bands[i].minScore
  {
    NextStep(bands[i - 1].maxScore, bands[i].minScore, step);
    k := bands[i - 1].maxScore / step + 1;
  }

  lemma CoveredMeansNext(bands: seq<Band>, maxScore: int, i: nat, next: int)
    requires Ascending(bands, maxScore) && 0 < i < |bands|
    requires bands[i - 1].maxScore < next <= bands[i].minScore && Covered(bands, next)
    ensures bands[i].minScore == next
  {
    var k :| 0 <= k < |bands| && InBand(bands[k], next);
    assert k >= i;
    assert bands[i].minScore <= bands[k].minScore;
  }
}
