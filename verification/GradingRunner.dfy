/** One grading message from prepare to finish, as the worker's single slot executes it. */
module GradingRunner {
  import opened Wrappers
  import opened GradingRows
  import opened AttemptHistory
  import opened GradingTransitions
  import opened GradingInvariants
  import opened GradingSystem
  import opened GradingSafety
  import opened GradingEffects
  import opened GradingRepository

  datatype RunResult = RanCompleted | RanDuplicate | RetryScheduled | RanNeedsReview | RanFailed

  /** The wait before a retry grows with every call of the round and stays within 5 and 60 seconds. */
  lemma {:induction false} BackoffBounds(sequence: nat)
    requires sequence > 0
    ensures 5_000 <= BackoffMs(sequence) <= 60_000
    ensures BackoffMs(sequence) <= BackoffMs(sequence + 1)
    ensures BackoffMs(sequence) == 60_000 <==> sequence >= 5
    ensures sequence < 4 ==> BackoffMs(sequence + 1) == 2 * BackoffMs(sequence)
  {
    Power2Grows(sequence - 1);
    if sequence < 5 {
      assert Power2(0) == 1 && Power2(1) == 2 && Power2(2) == 4 && Power2(3) == 8;
    } else {
      Power2AtLeast16(sequence - 1);
    }
  }

  lemma {:induction false} Power2Grows(n: nat)
    ensures 1 <= Power2(n) <= Power2(n + 1)
  {
    if n > 0 { Power2Grows(n - 1); }
  }

  function ResultOf(failure: Option<Failure>): RunResult {
    match failure
    case None => RanCompleted
    case Some(f) =>
      match f.action case Retry => RetryScheduled case ToReview => RanNeedsReview case Fail => RanFailed
  }

  /** What the runner reports is where the call left its item. */
  predicate ResultFits(result: RunResult, outcome: Outcome, row: Item) {
    && (result == RanCompleted <==> outcome.OutputAccepted?)
    && (result == RetryScheduled <==> row.status == Queued)
    && (result == RanFailed <==> row.status == Failed)
    && (result == RanNeedsReview <==> row.status == NeedsReview && !outcome.OutputAccepted?)
  }

  /** The message names work that is due, and the provider has a free call. */
  predicate Runnable(jobs: seq<Job>, j: nat, position: nat, dispatch: nat, dbNow: Time) {
    && j < |jobs|
    && Due(jobs[j], position, dispatch, dbNow)
    && RunningOfProvider(jobs, jobs[j].provider) < jobs[j].maxConcurrency
  }

  /** One call, from its claim to its end: p is what the rows gave it, during the job while it was in flight. */
  ghost predicate OneCall(before: Job, during: Job, after: Job, p: Preparation, c: Claim, outcome: Outcome,
                          result: RunResult, R: nat, now: Time, doneAt: Time) {
    && p.position < |before.items|
    && p.dispatch == before.items[p.position].dispatch && p.timeoutMs == before.timeoutMs
    && PlanFits(p.plan, before.items[p.position].attempts, p.dispatch)
    && ClaimWritten(before, during, p, c, now)
    && Concluded(during, after, c, outcome, p.plan.correctionPrompt, R, doneAt)
    && ResultFits(result, outcome, after.items[p.position])
  }

  /** One message without anyone in between: prepare, claim, call, finish. */
  function RunOnce(jobs: seq<Job>, j: nat, position: nat, dispatch: nat, token: Token, now: Time, dbNow: Time,
                   outcome: Outcome, doneAt: Time, R: nat): (seq<Job>, RunResult)
  {
    if j >= |jobs| then (jobs, RanDuplicate)
    else
      match Prepare(jobs[j], j, position, dispatch, dbNow)
      case None => (jobs, RanDuplicate)
      case Some(p) =>
        match GradingSystem.ClaimAttempt(jobs, p, token, now, dbNow)
        case None => (jobs, RanDuplicate)
        case Some(claimed) =>
          var failure := Decide(outcome, claimed.1.sequence, p.plan.correctionPrompt, R);
          (FinishAll(jobs[j := claimed.0], claimed.1, failure, doneAt), ResultOf(failure))
  }

  class GradingAttemptRunner {
    const repository: GradingJobRepository
    const maxProviderRetries: nat

    constructor (repository: GradingJobRepository, maxProviderRetries: nat)
      ensures this.repository == repository && this.maxProviderRetries == maxProviderRetries
    {
      this.repository := repository;
      this.maxProviderRetries := maxProviderRetries;
    }

    /**
     The failure record of an adapter error: a safe one is retried while retries are left, one that may never
     be retried fails, and whatever is unknown or used up goes to the teacher.
     */
    method FailureOf(error: AdapterError, sequence: nat) returns (failure: Failure)
      requires sequence > 0
      ensures failure.action == Retry <==> error.safety == Safe && sequence <= maxProviderRetries
      ensures failure.action == Fail <==> error.safety == Never
      ensures failure.delayMs == if failure.action == Retry then Wait(sequence) else 0
      ensures failure.errorCode == ProviderCode(error.code)
      ensures failure.details == RetryInfo(error.retryable, error.safety)
      ensures failure.hasResponse == error.hasResponse
      ensures failure.callState == ResponseReceived <==> error.hasResponse
      ensures failure.callState == NotSent <==> !error.hasResponse && error.safety == Safe
      ensures failure.callState == Ambiguous <==> !error.hasResponse && error.safety != Safe
      ensures Some(failure) == Decide(ProviderError(error), sequence, false, maxProviderRetries)
    {
      WaitIsBackoff(sequence);
      var action := Fail;
      if error.retryable && error.safety == Safe {
        if sequence <= maxProviderRetries {
          action := Retry;
        } else {
          action := ToReview;
        }
      } else if error.safety == Unknown {
        action := ToReview;
      }
      var delay := 0;
      if action == Retry {
        delay := BackoffMs(sequence);
      }
      var callState := Ambiguous;
      if error.hasResponse {
        callState := ResponseReceived;
      } else if error.safety == Safe {
        callState := NotSent;
      }
      failure := Failure(action, delay, ProviderCode(error.code), RetryInfo(error.retryable, error.safety),
                         callState, error.hasResponse);
    }

    /** After the call: the outcome is written by exactly one finishing transaction. */
    method Conclude(claim: Claim, correctionPrompt: bool, now: Time, outcome: Outcome) returns (result: RunResult)
      requires repository.Valid() && maxProviderRetries == repository.retries
      requires claim.job < |repository.jobs| && LeaseHeld(repository.jobs[claim.job], claim)
      requires claim.sequence > 0
      requires claim.sequence == repository.jobs[claim.job].items[claim.position].attempts[claim.attempt].sequence
      modifies repository
      ensures repository.Valid()
      ensures |repository.jobs| == |old(repository.jobs)|
      ensures
        var before, after := old(repository.jobs)[claim.job], repository.jobs[claim.job];
        && repository.jobs == old(repository.jobs)[claim.job := after]
        && Concluded(before, after, claim, outcome, correctionPrompt, maxProviderRetries, now)
        && ResultFits(result, outcome, after.items[claim.position])
      ensures
        var failure := Decide(outcome, claim.sequence, correctionPrompt, maxProviderRetries);
        && result == ResultOf(failure)
        && repository.jobs == FinishAll(old(repository.jobs), claim, failure, now)
    {
      FinishWrites(repository.jobs[claim.job], claim, outcome, correctionPrompt, now, maxProviderRetries);
      ghost var decided := Decide(outcome, claim.sequence, correctionPrompt, maxProviderRetries);
      assert FromRunner(decided, claim.sequence, correctionPrompt, repository.retries);
      var ok := false;
      match outcome {
        case UrlRejected =>
          var failure := Failure(Fail, 0, UrlUnavailable, UrlPolicyRejected, NotSent, false);
          ok := repository.FinishFailure(claim, failure, now, correctionPrompt);
          result := RanFailed;
        case ProviderError(error) =>
          var failure := FailureOf(error, claim.sequence);
          ok := repository.FinishFailure(claim, failure, now, correctionPrompt);
          result := if failure.action == Retry then RetryScheduled
                    else if failure.action == ToReview then RanNeedsReview else RanFailed;
        case OutputRejected =>
          if correctionPrompt {
            var failure := Failure(ToReview, 0, InvalidAfterCorrection, Issues, ResponseReceived, true);
            ok := repository.FinishFailure(claim, failure, now, correctionPrompt);
            result := RanNeedsReview;
          } else {
            var failure := Failure(Retry, 0, CorrectionRequired, Issues, ResponseReceived, true);
            ok := repository.FinishFailure(claim, failure, now, correctionPrompt);
            result := RetryScheduled;
          }
        case OutputAccepted =>
          ok := repository.FinishSuccess(claim, now);
          result := RanCompleted;
      }
    }

    method Run(j: nat, position: nat, dispatch: nat, token: Token, now: Time, dbNow: Time, outcome: Outcome, doneAt: Time)
      returns (result: RunResult)
      requires repository.Valid() && maxProviderRetries == repository.retries
      modifies repository
      ensures repository.Valid()
      ensures result != RanDuplicate <==> Runnable(old(repository.jobs), j, position, dispatch, dbNow)
      ensures |repository.jobs| == |old(repository.jobs)|
      ensures result == RanDuplicate ==> repository.jobs == old(repository.jobs)
      ensures result != RanDuplicate ==>
                && repository.jobs == old(repository.jobs)[j := repository.jobs[j]]
                && exists during: Job, p: Preparation, c: Claim ::
                     p.job == j && p.position == position && c.token == token
                     && OneCall(old(repository.jobs)[j], during, repository.jobs[j], p, c, outcome, result,
                                repository.retries, now, doneAt)
      ensures (repository.jobs, result) ==
                RunOnce(old(repository.jobs), j, position, dispatch, token, now, dbNow, outcome, doneAt, repository.retries)
    {
      RunOnceMeaning(repository.jobs, j, position, dispatch, token, now, dbNow, outcome, doneAt, repository.retries);
      var prepared := repository.PrepareItem(j, position, dispatch, dbNow);
      if prepared.None? {
        return RanDuplicate;
      }
      var prep := prepared.value;
      ghost var before := repository.jobs;
      var claimed := repository.ClaimAttempt(prep, token, now, dbNow);
      if claimed.None? {
        return RanDuplicate;
      }
      var claim := claimed.value;
      ghost var during := repository.jobs;
      ClaimedFacts(before, during, prep, token, now, dbNow, repository.retries, claim);
      result := Conclude(claim, prep.plan.correctionPrompt, doneAt, outcome);
    }
  }

  /**
   A message that is not runnable is a duplicate and changes nothing; any other makes exactly one call: one new
   attempt of one item, claimed and then concluded as its outcome demands, and the result reports where that
   left the item.
   */
  lemma RunOnceMeaning(jobs: seq<Job>, j: nat, position: nat, dispatch: nat, token: Token, now: Time, dbNow: Time,
                       outcome: Outcome, doneAt: Time, R: nat)
    requires (forall i | 0 <= i < |jobs| :: JobInv(jobs[i], R)) && ConcurrencyInv(jobs)
    ensures
      var (after, result) := RunOnce(jobs, j, position, dispatch, token, now, dbNow, outcome, doneAt, R);
      && (result != RanDuplicate <==> Runnable(jobs, j, position, dispatch, dbNow))
      && (result == RanDuplicate ==> after == jobs)
      && (result != RanDuplicate ==>
            && |after| == |jobs| && after == jobs[j := after[j]]
            && exists during: Job, p: Preparation, c: Claim ::
                 p.job == j && p.position == position && c.token == token
                 && OneCall(jobs[j], during, after[j], p, c, outcome, result, R, now, doneAt))
  {
    if j < |jobs| && Due(jobs[j], position, dispatch, dbNow) {
      var p := PreparedFacts(jobs[j], j, position, dispatch, dbNow);
      ClaimIff(jobs, p, token, now, dbNow);
      var claimed := GradingSystem.ClaimAttempt(jobs, p, token, now, dbNow);
      if claimed.Some? {
        CompletedMeaning(jobs, p, claimed.value.0, claimed.value.1, token, now, dbNow, outcome, doneAt, R);
      }
    }
  }

  lemma PreparedFacts(job: Job, j: nat, position: nat, dispatch: nat, dbNow: Time) returns (p: Preparation)
    requires Due(job, position, dispatch, dbNow)
    ensures Prepare(job, j, position, dispatch, dbNow) == Some(p)
    ensures p.job == j && p.position == position && p.dispatch == dispatch && p.provider == job.provider
    ensures p.maxConcurrency == job.maxConcurrency && p.timeoutMs == job.timeoutMs
    ensures PlanFits(p.plan, job.items[position].attempts, dispatch)
  {
    PlanNextFits(job.items[position].attempts, dispatch);
    p := Prepare(job, j, position, dispatch, dbNow).value;
  }

  lemma ClaimIff(jobs: seq<Job>, p: Preparation, token: Token, now: Time, dbNow: Time)
    requires p.job < |jobs| && Due(jobs[p.job], p.position, p.dispatch, dbNow)
    ensures GradingSystem.ClaimAttempt(jobs, p, token, now, dbNow).Some? <==>
              RunningOfProvider(jobs, p.provider) < p.maxConcurrency
  {
  }

  lemma CompletedMeaning(jobs: seq<Job>, p: Preparation, row: Job, c: Claim, token: Token, now: Time, dbNow: Time,
                         outcome: Outcome, doneAt: Time, R: nat)
    requires (forall i | 0 <= i < |jobs| :: JobInv(jobs[i], R)) && ConcurrencyInv(jobs)
    requires p.job < |jobs| && p.position < |jobs[p.job].items| && p.provider == jobs[p.job].provider
    requires p.maxConcurrency == jobs[p.job].maxConcurrency && p.timeoutMs == jobs[p.job].timeoutMs
    requires PlanFits(p.plan, jobs[p.job].items[p.position].attempts, p.dispatch)
    requires GradingSystem.ClaimAttempt(jobs, p, token, now, dbNow) == Some((row, c))
    ensures c.sequence > 0 && c.token == token
    ensures
      var failure := Decide(outcome, c.sequence, p.plan.correctionPrompt, R);
      var after := FinishAll(jobs[p.job := row], c, failure, doneAt);
      && after == jobs[p.job := after[p.job]]
      && OneCall(jobs[p.job], row, after[p.job], p, c, outcome, ResultOf(failure), R, now, doneAt)
  {
    ClaimFacts(jobs, p, token, now, dbNow, R, row, c);
    ClaimWrites(jobs[p.job], p, token, now, dbNow, R);
    ConcludedRows(jobs[p.job := row], c, outcome, p.plan.correctionPrompt, doneAt, R);
  }

  /** The finishing transaction on the whole table. */
  lemma ConcludedRows(jobs: seq<Job>, c: Claim, outcome: Outcome, correctionPrompt: bool, now: Time, R: nat)
    requires c.job < |jobs| && JobInv(jobs[c.job], R) && LeaseHeld(jobs[c.job], c)
    requires 0 < c.sequence == jobs[c.job].items[c.position].attempts[c.attempt].sequence
    ensures
      var failure := Decide(outcome, c.sequence, correctionPrompt, R);
      var after := FinishAll(jobs, c, failure, now);
      && |after| == |jobs| && after == jobs[c.job := after[c.job]]
      && Concluded(jobs[c.job], after[c.job], c, outcome, correctionPrompt, R, now)
      && ResultFits(ResultOf(failure), outcome, after[c.job].items[c.position])
  {
    FinishWrites(jobs[c.job], c, outcome, correctionPrompt, now, R);
  }

  lemma ClaimedFacts(before: seq<Job>, during: seq<Job>, p: Preparation, token: Token, now: Time, dbNow: Time, R: nat,
                     c: Claim)
    requires (forall j | 0 <= j < |before| :: JobInv(before[j], R)) && ConcurrencyInv(before)
    requires p.job < |before| && p.provider == before[p.job].provider
    requires p.maxConcurrency == before[p.job].maxConcurrency
    requires
      var claimed := GradingSystem.ClaimAttempt(before, p, token, now, dbNow);
      claimed.Some? && claimed.value.1 == c && during == before[p.job := claimed.value.0]
    ensures c.job == p.job && c.position == p.position < |before[p.job].items|
    ensures LeaseHeld(during[c.job], c) && c.sequence > 0
    ensures
      var old_ := before[p.job].items[p.position];
      var item := during[p.job].items[p.position];
      && during[p.job].items == before[p.job].items[p.position := item]
      && c.attempt == |old_.attempts|
      && |item.attempts| == c.attempt + 1 && item.attempts[..c.attempt] == old_.attempts
      && item.attempts[c.attempt].sequence == c.sequence && item.attempts[c.attempt].round == p.dispatch
  {
    ClaimFacts(before, p, token, now, dbNow, R, during[p.job], c);
  }

  // ----- the runner is a run of the step system -----

  /** A message that is not prepared or not claimed leaves the slot idle and the rows alone. */
  lemma DuplicateSteps(s: System, w: nat, j: nat, position: nat, dispatch: nat, token: Token, now: Time, dbNow: Time,
                       prepared: Option<Preparation>)
    requires w < |s.slots| && s.slots[w].Idle? && j < |s.jobs| && VersionMatches(s.providers, s.jobs[j])
    requires prepared == Prepare(s.jobs[j], j, position, dispatch, dbNow)
    requires prepared.Some? ==> GradingSystem.ClaimAttempt(s.jobs, prepared.value, token, now, dbNow).None?
    ensures Step(Step(s, PrepareAction(w, j, position, dispatch, dbNow)), ClaimAction(w, token, now, dbNow)) == s
  {
    assert s.slots[w := Idle] == s.slots;
    assert prepared.Some? ==> s.slots[w := Holding(prepared.value)][w := Idle] == s.slots;
  }

  lemma ClaimingSteps(s: System, w: nat, j: nat, position: nat, dispatch: nat, token: Token, now: Time, dbNow: Time,
                      p: Preparation, row: Job, c: Claim)
    requires w < |s.slots| && s.slots[w].Idle? && j < |s.jobs| && VersionMatches(s.providers, s.jobs[j])
    requires Prepare(s.jobs[j], j, position, dispatch, dbNow) == Some(p)
    requires GradingSystem.ClaimAttempt(s.jobs, p, token, now, dbNow) == Some((row, c))
    ensures Step(Step(s, PrepareAction(w, j, position, dispatch, dbNow)), ClaimAction(w, token, now, dbNow)) ==
              s.(jobs := s.jobs[j := row], slots := s.slots[w := Calling(c, p.plan.correctionPrompt)])
    ensures c.job == j && c.sequence > 0
  {
    assert s.slots[w := Holding(p)][w := Calling(c, p.plan.correctionPrompt)]
           == s.slots[w := Calling(c, p.plan.correctionPrompt)];
  }

  /**
   What the runner does to the rows is what three steps of one slot do, so everything proved about
   runs of the step system holds with real runners in them.
   */
  lemma RunnerIsThreeSteps(s: System, w: nat, j: nat, position: nat, dispatch: nat, token: Token, now: Time, dbNow: Time,
                           outcome: Outcome, doneAt: Time)
    requires w < |s.slots| && s.slots[w].Idle? && j < |s.jobs| && VersionMatches(s.providers, s.jobs[j])
    ensures
      var claiming := Step(Step(s, PrepareAction(w, j, position, dispatch, dbNow)), ClaimAction(w, token, now, dbNow));
      var t := Step(claiming, FinishAction(w, outcome, doneAt));
      && t.jobs == RunOnce(s.jobs, j, position, dispatch, token, now, dbNow, outcome, doneAt, s.retries).0
      && t.slots == s.slots && t.providers == s.providers
  {
    var prepared := Prepare(s.jobs[j], j, position, dispatch, dbNow);
    if prepared.None? || GradingSystem.ClaimAttempt(s.jobs, prepared.value, token, now, dbNow).None? {
      DuplicateSteps(s, w, j, position, dispatch, token, now, dbNow, prepared);
    } else {
      var p := prepared.value;
      var (row, c) := GradingSystem.ClaimAttempt(s.jobs, p, token, now, dbNow).value;
      ClaimingSteps(s, w, j, position, dispatch, token, now, dbNow, p, row, c);
      var during := s.(jobs := s.jobs[j := row], slots := s.slots[w := Calling(c, p.plan.correctionPrompt)]);
      FinishIsStep(during, w, c, p.plan.correctionPrompt, outcome, doneAt);
      assert during.slots[w := Idle] == s.slots;
    }
  }

  lemma FinishIsStep(s: System, w: nat, c: Claim, correctionPrompt: bool, outcome: Outcome, doneAt: Time)
    requires w < |s.slots| && s.slots[w] == Calling(c, correctionPrompt) && c.job < |s.jobs| && c.sequence > 0
    ensures
      var t := Step(s, FinishAction(w, outcome, doneAt));
      && t.jobs == FinishAll(s.jobs, c, Decide(outcome, c.sequence, correctionPrompt, s.retries), doneAt)
      && t.slots == s.slots[w := Idle] && t.providers == s.providers
  {
  }
}
