/**
 What every transaction of the grading pipeline writes, column by column. The predicates here do not
 call the functions that compute the new rows: they are the statements those functions, and the
 repository's methods, are held to.
 */
module GradingEffects {
  import opened Wrappers
  import opened GradingRows
  import opened AttemptHistory
  import opened GradingTransitions
  import opened GradingInvariants
  import opened GradingEvolution

  // ----- prepare and claim -----

  /** The rows name this work and it is due: a live job that is not paused, and a queued item of this dispatch. */
  predicate Due(job: Job, position: nat, dispatch: nat, dbNow: Time) {
    && job.status in {JobQueued, JobRunning}
    && position < |job.items|
    && job.items[position].status == Queued
    && job.items[position].dispatch == dispatch
    && job.items[position].availableAt <= dbNow
  }

  /** Call k is the latest of the round whose output has to be corrected. */
  predicate LatestRejection(h: seq<Attempt>, round: nat, k: nat) {
    && k < |h| && h[k].round == round && h[k].errorCode == Some(CorrectionRequired)
    && forall m | k < m < |h| && h[m].round == round :: h[m].errorCode != Some(CorrectionRequired)
  }

  /**
   The next call follows the latest one. It is the initial call iff there is none and the round is the
   first, a correction iff the latest call asked for one in this round, and a manual retry iff it opens a
   later round; its prompt quotes the rejected output iff the round's latest rejection stored it.
   */
  ghost predicate PlanFits(plan: Plan, h: seq<Attempt>, round: nat) {
    && plan.parent == (if h == [] then None else Some(|h| - 1))
    && (plan.correctionPrompt <==> exists k: nat :: LatestRejection(h, round, k) && h[k].hasResponse)
    && (plan.kind == Correction <==> h != [] && LatestRejection(h, round, |h| - 1))
    && (plan.kind == Initial <==> h == [] && round <= 1)
    && (plan.kind == ManualRetry <==>
          && round > 1
          && (h == [] || h[|h| - 1].round < round)
          && !(exists k: nat :: LatestRejection(h, round, k)))
  }

  lemma PlanNextFits(h: seq<Attempt>, round: nat)
    ensures PlanFits(PlanNext(h, round), h, round)
  {
    CorrectionSourceExists(h, round);
    var source := CorrectionSource(h, round);
    if source.Some? {
      assert LatestRejection(h, round, source.value);
      forall k: nat | LatestRejection(h, round, k) ensures k == source.value {
        assert IsCorrectionSource(h[k], round);
      }
    } else {
      forall k: nat | k < |h| ensures !LatestRejection(h, round, k) {
        assert !IsCorrectionSource(h[k], round);
      }
    }
  }

  /** The calls that an item made in one round. */
  function CallsIn(h: seq<Attempt>, round: nat): nat {
    if h == [] then 0 else CallsIn(h[..|h| - 1], round) + (if h[|h| - 1].round == round then 1 else 0)
  }

  /** The sequence aggregate is the number of calls of the round. */
  lemma {:induction false} SequenceCountsCalls(h: seq<Attempt>, round: nat, R: nat)
    requires Chain(h, R) && (h != [] ==> h[|h| - 1].round <= round)
    ensures CallsIn(h, round) == MaxSequence(h, round)
  {
    if h != [] {
      var n := |h|;
      ChainPrefix(h, n - 1, R);
      assert Link(h, n - 1, R);
      SequenceCountsCalls(h[..n - 1], round, R);
      AggregatesOfChain(h, round, R);
      AggregatesOfChain(h[..n - 1], round, R);
    }
  }

  /**
   A claim starts the job if it was queued, moves its version, and gives one item a lease that outlives the call's
   timeout by 30 seconds and one more call: number n + 1 of the item, and one more than its round has made.
   */
  predicate ClaimWritten(before: Job, after: Job, p: Preparation, c: Claim, now: Time) {
    && p.position < |before.items|
    && var it := before.items[p.position];
    && c.job == p.job && c.position == p.position && c.attempt == |it.attempts|
    && c.number == |it.attempts| + 1 && c.round == it.dispatch && c.sequence == CallsIn(it.attempts, it.dispatch) + 1
    && after == before.(
         status := JobRunning,
         stateVersion := before.stateVersion + 1,
         startedAt := Some(before.startedAt.GetOr(now)),
         items := before.items[p.position := it.(
           status := Running,
           startedAt := Some(it.startedAt.GetOr(now)),
           token := Some(c.token),
           leaseExpires := Some(now + p.timeoutMs + 30_000),
           attempts := it.attempts + [
             Attempt(p.plan.parent, c.number, c.round, c.sequence, p.plan.kind,
                     InFlight, Started, None, NoDetails, false, None)])])
  }

  lemma ClaimWrites(job: Job, p: Preparation, token: Token, now: Time, dbNow: Time, R: nat)
    requires JobInv(job, R)
    ensures
      var claimed := ClaimOn(job, p, token, now, dbNow);
      && (claimed.Some? <==> Due(job, p.position, p.dispatch, dbNow))
      && (claimed.Some? ==>
            claimed.value.1.token == token && ClaimWritten(job, claimed.value.0, p, claimed.value.1, now))
  {
    if ClaimOn(job, p, token, now, dbNow).Some? {
      var it := job.items[p.position];
      AggregatesOfChain(it.attempts, it.dispatch, R);
      SequenceCountsCalls(it.attempts, it.dispatch, R);
    }
  }

  // ----- the end of a call -----

  predicate HasOf(items: seq<Item>, statuses: set<ItemStatus>) {
    exists i | 0 <= i < |items| :: items[i].status in statuses
  }

  lemma HasOfTwo(items: seq<Item>, s: ItemStatus, t: ItemStatus)
    ensures HasOf(items, {s, t}) <==> Has(items, s) || Has(items, t)
    ensures HasOf(items, {s}) <==> Has(items, s)
  {
  }

  /** The lease test of both finishing transactions: attempt and item are running, under the claim's token. */
  predicate Leased(jobs: seq<Job>, c: Claim) {
    && c.job < |jobs| && c.position < |jobs[c.job].items|
    && c.attempt < |jobs[c.job].items[c.position].attempts|
    && jobs[c.job].items[c.position].attempts[c.attempt].status == InFlight
    && jobs[c.job].items[c.position].status == Running
    && jobs[c.job].items[c.position].token == Some(c.token)
  }

  /** What the rows keep of a job when one of its items left running: it stays as it is while work remains. */
  predicate Settled(before: Job, after: Job, now: Time) {
    && after == before.(items := after.items, stateVersion := before.stateVersion + 1,
                        status := after.status, finishedAt := after.finishedAt)
    && var active := HasOf(after.items, {Queued, Running});
    && var toReview := HasOf(after.items, {NeedsReview, Completed});
    && (before.status == JobCancelled || active ==>
          after.status == before.status && after.finishedAt == before.finishedAt)
    && (before.status != JobCancelled && !active && toReview ==>
          after.status == JobNeedsReview && after.finishedAt == None)
    && (before.status != JobCancelled && !active && !toReview ==>
          after.status == JobFailed && after.finishedAt == Some(now))
  }

  lemma ReconcileIsSettled(before: Job, position: nat, it: Item, now: Time, R: nat)
    requires position < |before.items|
    requires
      var row := WithItem(before, position, it);
      && JobCheck(row) && |row.items| == row.expectedItems && row.status in {JobRunning, JobPaused, JobCancelled}
      && (forall i | 0 <= i < |row.items| :: ItemInv(row.items[i], R))
      && (row.status != JobCancelled ==> !Has(row.items, Cancelled))
    requires it.status in {Queued, NeedsReview, Failed}
    ensures Reconcile(WithItem(before, position, it), now).Some?
    ensures Settled(before, Reconcile(WithItem(before, position, it), now).value, now)
  {
    var row := WithItem(before, position, it);
    ReconcileSettles(row, position, now, R);
    assert row.items[position] == it;
    HasOfTwo(row.items, Queued, Running);
    HasOfTwo(row.items, NeedsReview, Completed);
  }

  /** How long a retried provider call waits, by the number of calls its round has made. */
  function Wait(sequence: nat): nat {
    match sequence
    case 1 => 5_000
    case 2 => 10_000
    case 3 => 20_000
    case 4 => 40_000
    case _ => 60_000
  }

  /** A provider error is retried iff that is safe and within the limit, a rejected output iff it was not a correction. */
  predicate RetryDue(outcome: Outcome, sequence: nat, correctionPrompt: bool, R: nat) {
    || (outcome.ProviderError? && outcome.error.safety == Safe && sequence <= R)
    || (outcome.OutputRejected? && !correctionPrompt)
  }

  /** Nothing was sent, or the provider refused for good. */
  predicate FinalFailure(outcome: Outcome) {
    outcome.UrlRejected? || (outcome.ProviderError? && outcome.error.safety == Never)
  }

  /** The columns of a finished call are those of its outcome. */
  predicate CallRecorded(call: Attempt, row: Attempt, outcome: Outcome, correctionPrompt: bool, now: Time) {
    && SameCall(call, row)
    && row.finishedAt == Some(now)
    && row.status == (if outcome.OutputAccepted? then Succeeded else Unsuccessful)
    && (row.hasResponse <==>
          outcome.OutputAccepted? || outcome.OutputRejected? || (outcome.ProviderError? && outcome.error.hasResponse))
    && (row.callState == ResponseReceived <==> row.hasResponse)
    && (row.callState == NotSent <==>
          outcome.UrlRejected? || (outcome.ProviderError? && outcome.error.safety == Safe && !outcome.error.hasResponse))
    && row.callState != Started
    && (outcome.OutputAccepted? ==> row.errorCode == call.errorCode && row.details == call.details)
    && (outcome.UrlRejected? ==> row.errorCode == Some(UrlUnavailable) && row.details == UrlPolicyRejected)
    && (outcome.ProviderError? ==>
          && row.errorCode == Some(ProviderCode(outcome.error.code))
          && row.details == RetryInfo(outcome.error.retryable, outcome.error.safety))
    && (outcome.OutputRejected? ==>
          && row.errorCode == Some(if correctionPrompt then InvalidAfterCorrection else CorrectionRequired)
          && row.details == Issues)
  }

  /** The item of a finished call: queued again, failed or with the teacher, and never running. */
  predicate ItemConcluded(it: Item, row: Item, k: nat, outcome: Outcome, correctionPrompt: bool, R: nat, now: Time) {
    && k < |it.attempts| == |row.attempts|
    && row.attempts == it.attempts[k := row.attempts[k]]
    && CallRecorded(it.attempts[k], row.attempts[k], outcome, correctionPrompt, now)
    && var sequence := it.attempts[k].sequence;
    && (row.status == Queued <==> RetryDue(outcome, sequence, correctionPrompt, R))
    && (row.status == Failed <==> FinalFailure(outcome))
    && row.status in {Queued, Failed, NeedsReview}
    && row.token == None && row.leaseExpires == None
    && row.dispatch == it.dispatch && row.startedAt == it.startedAt && row.reviewConfirmed == it.reviewConfirmed
    && row.retryCount == it.retryCount + (if row.status == Queued then 1 else 0)
    && (row.status != Queued ==> row.availableAt == it.availableAt && row.finishedAt == Some(now))
    && (row.status == Queued ==>
          && row.availableAt == (if outcome.ProviderError? then now + Wait(sequence) else now)
          && row.finishedAt == None)
    && row.errorCode == (if row.status == Queued || outcome.OutputAccepted? then None else row.attempts[k].errorCode)
  }

  /** A finishing transaction of the runner: one item concluded, the job settled, nothing else written. */
  predicate Concluded(before: Job, after: Job, c: Claim, outcome: Outcome, correctionPrompt: bool, R: nat, now: Time) {
    && c.position < |before.items| == |after.items|
    && after.items == before.items[c.position := after.items[c.position]]
    && ItemConcluded(before.items[c.position], after.items[c.position], c.attempt, outcome, correctionPrompt, R, now)
    && Settled(before, after, now)
  }

  lemma WaitIsBackoff(sequence: nat)
    requires sequence > 0
    ensures BackoffMs(sequence) == Wait(sequence)
  {
    if sequence < 5 {
      assert Power2(0) == 1 && Power2(1) == 2 && Power2(2) == 4 && Power2(3) == 8;
    } else {
      Power2AtLeast16(sequence - 1);
    }
  }

  lemma {:induction false} Power2AtLeast16(n: nat)
    requires n >= 4
    ensures Power2(n) >= 16
  {
    if n == 4 {
      assert Power2(3) == 8;
    } else {
      Power2AtLeast16(n - 1);
    }
  }

  /** The decision table of the runner, on the rows of an item. */
  lemma DecisionTable(it: Item, k: nat, outcome: Outcome, correctionPrompt: bool, now: Time, R: nat)
    requires k < |it.attempts| && it.attempts[k].sequence > 0 && it.status == Running
    ensures
      var failure := Decide(outcome, it.attempts[k].sequence, correctionPrompt, R);
      ItemConcluded(it, FinishedItem(it, k, failure, now), k, outcome, correctionPrompt, R, now)
  {
    WaitIsBackoff(it.attempts[k].sequence);
  }

  /** A finish is accepted iff the attempt and the item are running under the claim's token; then the table holds. */
  lemma FinishWrites(job: Job, c: Claim, outcome: Outcome, correctionPrompt: bool, now: Time, R: nat)
    requires JobInv(job, R)
    requires LeaseHeld(job, c) ==> 0 < c.sequence == job.items[c.position].attempts[c.attempt].sequence
    ensures LeaseHeld(job, c) ==> c.sequence > 0
    ensures LeaseHeld(job, c) ==>
      var row := Finish(job, c, Decide(outcome, c.sequence, correctionPrompt, R), now);
      row.Some? && Concluded(job, row.value, c, outcome, correctionPrompt, R, now)
  {
    if LeaseHeld(job, c) {
      var it := job.items[c.position];
      var failure := Decide(outcome, c.sequence, correctionPrompt, R);
      DecisionTable(it, c.attempt, outcome, correctionPrompt, now, R);
      assert FromRunner(failure, c.sequence, correctionPrompt, R);
      FinishedJob(job, c, failure, correctionPrompt, now, R, FinishedItem(it, c.attempt, failure, now));
    }
  }

  lemma FinishedJob(job: Job, c: Claim, failure: Option<Failure>, correctionPrompt: bool, now: Time, R: nat, row: Item)
    requires JobInv(job, R) && LeaseHeld(job, c)
    requires FromRunner(failure, job.items[c.position].attempts[c.attempt].sequence, correctionPrompt, R)
    requires row == FinishedItem(job.items[c.position], c.attempt, failure, now)
    ensures Finish(job, c, failure, now).Some?
    ensures Finish(job, c, failure, now).value.items == job.items[c.position := row]
    ensures Settled(job, Finish(job, c, failure, now).value, now)
  {
    FinishKeepsItem(job.items[c.position], c.attempt, failure, correctionPrompt, now, R);
    RunningItemsJob(job, c.position, R);
    ReconcileIsSettled(job, c.position, row, now, R);
  }

  /** A failure as finish_failure writes it: the item goes where the failure's action says. */
  predicate FailureWritten(before: Job, after: Job, c: Claim, f: Failure, now: Time) {
    && c.position < |before.items|
    && var it := before.items[c.position];
    && c.attempt < |it.attempts|
    && var retry := f.action == Retry;
    && after.items == before.items[c.position := it.(
         status := match f.action case Retry => Queued case ToReview => NeedsReview case Fail => Failed,
         token := None, leaseExpires := None,
         retryCount := if retry then it.retryCount + 1 else it.retryCount,
         availableAt := if retry then now + f.delayMs else it.availableAt,
         finishedAt := if retry then None else Some(now),
         errorCode := if retry then None else Some(f.errorCode),
         attempts := it.attempts[c.attempt := it.attempts[c.attempt].(
           status := Unsuccessful, callState := f.callState, errorCode := Some(f.errorCode), details := f.details,
           hasResponse := f.hasResponse, finishedAt := Some(now))])]
    && Settled(before, after, now)
  }

  lemma FailureWrites(job: Job, c: Claim, failure: Failure, correctionPrompt: bool, now: Time, R: nat)
    requires JobInv(job, R) && LeaseHeld(job, c)
    requires FromRunner(Some(failure), job.items[c.position].attempts[c.attempt].sequence, correctionPrompt, R)
    ensures Finish(job, c, Some(failure), now).Some?
    ensures FailureWritten(job, Finish(job, c, Some(failure), now).value, c, failure, now)
  {
    FinishedJob(job, c, Some(failure), correctionPrompt, now, R, FailedItem(job.items[c.position], c.attempt, failure, now));
  }

  // ----- the sweeper -----

  predicate LeaseOver(it: Item, dbNow: Time) {
    it.status == Running && it.leaseExpires.Some? && it.leaseExpires.value <= dbNow
  }

  /** The lease ran out: the outcome of the latest call is unknown for ever and the item waits for the teacher. */
  predicate ItemExpired(it: Item, row: Item, now: Time) {
    && it.attempts != []
    && var k := |it.attempts| - 1;
    && it.attempts[k].status == InFlight
    && row == it.(
         status := NeedsReview, finishedAt := Some(now), token := None, leaseExpires := None,
         errorCode := Some(OutcomeUnknown),
         attempts := it.attempts[k := it.attempts[k].(
           status := Unsuccessful, callState := Ambiguous, errorCode := Some(OutcomeUnknown),
           details := LeaseExpired, finishedAt := Some(now))])
  }

  predicate Expired(before: Job, after: Job, position: nat, now: Time) {
    && position < |before.items| == |after.items|
    && after.items == before.items[position := after.items[position]]
    && ItemExpired(before.items[position], after.items[position], now)
    && Settled(before, after, now)
  }

  /** A sweep of a list of candidates: those whose lease is over are expired, and no other item is touched. */
  predicate SweptItems(before: seq<Job>, after: seq<Job>, candidates: seq<(nat, nat)>, now: Time, dbNow: Time) {
    && |after| == |before|
    && forall j: nat | j < |before| ::
         && |after[j].items| == |before[j].items|
         && forall i: nat | i < |before[j].items| ::
              if (j, i) in candidates && LeaseOver(before[j].items[i], dbNow) then
                ItemExpired(before[j].items[i], after[j].items[i], now)
              else after[j].items[i] == before[j].items[i]
  }

  /** The items that a sweep expires. */
  ghost function OverItems(jobs: seq<Job>, candidates: seq<(nat, nat)>, dbNow: Time): set<(nat, nat)> {
    set c | c in candidates && c.0 < |jobs| && c.1 < |jobs[c.0].items| && LeaseOver(jobs[c.0].items[c.1], dbNow)
  }

  lemma SweptOneMore(jobs: seq<Job>, before: seq<Job>, after: seq<Job>, candidates: seq<(nat, nat)>, n: nat,
                     expired: bool, now: Time, dbNow: Time)
    requires n < |candidates| && SweptItems(jobs, before, candidates[..n], now, dbNow)
    requires
      var (j, position) := candidates[n];
      && (expired <==> j < |before| && position < |before[j].items| && LeaseOver(before[j].items[position], dbNow))
      && if expired then
           |after| == |before| && after == before[j := after[j]] && Expired(before[j], after[j], position, now)
         else after == before
    ensures SweptItems(jobs, after, candidates[..n + 1], now, dbNow)
    ensures |OverItems(jobs, candidates[..n + 1], dbNow)|
            == |OverItems(jobs, candidates[..n], dbNow)| + (if expired then 1 else 0)
  {
    var c: (nat, nat) := candidates[n];
    var upto := candidates[..n + 1];
    assert upto == candidates[..n] + [c];
    var old_, new_ := OverItems(jobs, candidates[..n], dbNow), OverItems(jobs, upto, dbNow);
    if expired {
      assert c !in candidates[..n];
      assert new_ == old_ + {c};
    } else {
      assert new_ == old_;
    }
  }

  /** A candidate is swept iff it is running with a lease that has run out; nothing else happens to any other. */
  lemma SweepWrites(job: Job, position: nat, now: Time, dbNow: Time, R: nat)
    requires JobInv(job, R)
    ensures
      var swept := SweepItem(job, position, now, dbNow);
      && (swept.Swept? <==>
            && position < |job.items| && job.items[position].status == Running
            && job.items[position].leaseExpires.value <= dbNow)
      && (swept.Swept? ==> Expired(job, swept.job, position, now))
  {
    if position < |job.items| {
      var it := job.items[position];
      assert ItemInv(it, R);
      if it.status == Running && it.leaseExpires.value <= dbNow {
        RunningAttemptIsLast(it, R);
        var row := ExpiredItem(it, |it.attempts| - 1, now);
        ExpireKeepsItem(it, |it.attempts| - 1, now, R);
        RunningItemsJob(job, position, R);
        ReconcileIsSettled(job, position, row, now, R);
      }
    }
  }

  // ----- the teacher -----

  /** Pausing takes a queued or running job, and nothing but its status, start and version. */
  lemma PauseWrites(job: Job, versionMatches: bool, now: Time)
    ensures ControlJob(job, Pause, versionMatches, now).Some? <==> job.status in {JobQueued, JobRunning}
    ensures job.status in {JobQueued, JobRunning} ==>
              ControlJob(job, Pause, versionMatches, now).value ==
                job.(status := JobPaused, startedAt := Some(job.startedAt.GetOr(now)), stateVersion := job.stateVersion + 1)
  {
  }

  /** Resuming takes exactly a paused job. */
  lemma ResumeWrites(job: Job, versionMatches: bool, now: Time)
    ensures ControlJob(job, Resume, versionMatches, now).Some? <==> job.status == JobPaused
    ensures job.status == JobPaused ==>
              ControlJob(job, Resume, versionMatches, now).value ==
                job.(status := JobRunning, stateVersion := job.stateVersion + 1)
  {
  }

  /** Cancelling takes an open job; its queued items are cancelled with it, and calls in flight are not touched. */
  lemma CancelWrites(job: Job, versionMatches: bool, now: Time)
    ensures ControlJob(job, Cancel, versionMatches, now).Some? <==> job.status in {JobQueued, JobRunning, JobPaused}
    ensures job.status in {JobQueued, JobRunning, JobPaused} ==>
              var row := ControlJob(job, Cancel, versionMatches, now).value;
              && row == job.(status := JobCancelled, startedAt := Some(job.startedAt.GetOr(now)), finishedAt := Some(now),
                             stateVersion := job.stateVersion + 1, items := row.items)
              && |row.items| == |job.items|
              && forall i | 0 <= i < |job.items| ::
                   row.items[i] ==
                     if job.items[i].status == Queued then job.items[i].(status := Cancelled, finishedAt := Some(now))
                     else job.items[i]
  {
  }

  /**
   A retry takes an unconfirmed item that waits for review or failed, of a job that was not cancelled and whose
   provider has not changed: the item starts a new round at once and the job runs, paused or finished as it was.
   */
  lemma RetryWrites(job: Job, position: nat, versionMatches: bool, now: Time)
    ensures ControlJob(job, RetryItem(position), versionMatches, now).Some? <==>
              && versionMatches && job.status != JobCancelled
              && position < |job.items|
              && job.items[position].status in {NeedsReview, Failed} && !job.items[position].reviewConfirmed
    ensures ControlJob(job, RetryItem(position), versionMatches, now).Some? ==>
              var it := job.items[position];
              ControlJob(job, RetryItem(position), versionMatches, now).value ==
                job.(status := JobRunning, startedAt := Some(job.startedAt.GetOr(now)), finishedAt := None,
                     stateVersion := job.stateVersion + 1,
                     items := job.items[position := it.(
                       status := Queued, dispatch := it.dispatch + 1, retryCount := 0, availableAt := now, token := None,
                       leaseExpires := None, startedAt := None, finishedAt := None, errorCode := None)])
  {
  }

  /** A review of this item can be confirmed: its latest call succeeded, in the current round. */
  predicate Reviewable(it: Item) {
    && it.status == NeedsReview
    && it.attempts != []
    && var last := it.attempts[|it.attempts| - 1];
    last.status == Succeeded && last.round == it.dispatch
  }

  /** The items of the confirmed reviews are completed, the job follows its items, and nothing else is written. */
  predicate Confirmed(before: Job, after: Job, positions: set<nat>, now: Time) {
    && after == before.(items := after.items, stateVersion := before.stateVersion + 1, status := after.status,
                        finishedAt := after.finishedAt)
    && |after.items| == |before.items|
    && (forall i | 0 <= i < |after.items| ::
          after.items[i] ==
            if i in positions then
              before.items[i].(status := Completed, finishedAt := Some(now), errorCode := None, reviewConfirmed := true)
            else before.items[i])
    && var active := HasOf(after.items, {Queued, Running});
    && var completed := forall i | 0 <= i < |after.items| :: after.items[i].status == Completed;
    && (completed ==> after.status == JobCompleted && after.finishedAt == Some(now))
    && (!completed && active ==> after.status == before.status && after.finishedAt == before.finishedAt)
    && (!completed && !active ==> after.status == JobNeedsReview && after.finishedAt == None)
  }

  /**
   A confirmation names items of the job: either all of them are completed already and nothing is written, or
   all of them can be confirmed now, and are, unless the job was cancelled; anything else commits nothing.
   */
  lemma ConfirmWrites(job: Job, positions: set<nat>, now: Time, R: nat)
    requires JobInv(job, R)
    ensures
      var row := ConfirmReviews(job, positions, now);
      && (row.Some? <==>
            && positions != {} && (forall p | p in positions :: p < |job.items|)
            && (|| (forall p | p in positions :: job.items[p].status == Completed)
                || (job.status != JobCancelled && forall p | p in positions :: Reviewable(job.items[p]))))
      && (row.Some? ==>
            if forall p | p in positions :: job.items[p].status == Completed then row.value == job
            else Confirmed(job, row.value, positions, now))
  {
    var closed := CloseJob(job.(items := ConfirmAt(job.items, positions, now)), now);
    ConfirmDecides(job, positions, now, R, closed);
    if positions != {} && forall p | p in positions :: p < |job.items| && Confirmable(job.items[p]) {
      ReviewsClose(job, positions, now, R, closed);
    }
  }

  lemma ConfirmDecides(job: Job, positions: set<nat>, now: Time, R: nat, closed: Option<Job>)
    requires JobInv(job, R)
    requires closed == CloseJob(job.(items := ConfirmAt(job.items, positions, now)), now)
    ensures
      ConfirmReviews(job, positions, now) ==
        if positions == {} || !(forall p | p in positions :: p < |job.items|) then None
        else if forall p | p in positions :: job.items[p].status == Completed then Some(job)
        else if forall p | p in positions :: Reviewable(job.items[p]) then closed
        else None
  {
    forall p | p in positions && p < |job.items|
      ensures job.items[p].reviewConfirmed <==> job.items[p].status == Completed
      ensures Confirmable(job.items[p]) <==> Reviewable(job.items[p])
    {
      assert ItemInv(job.items[p], R);
    }
  }

  lemma ReviewsClose(job: Job, positions: set<nat>, now: Time, R: nat, closed: Option<Job>)
    requires JobInv(job, R) && positions != {}
    requires forall p | p in positions :: p < |job.items| && Confirmable(job.items[p])
    requires closed == CloseJob(job.(items := ConfirmAt(job.items, positions, now)), now)
    ensures closed.Some? <==> job.status != JobCancelled
    ensures closed.Some? ==> Confirmed(job, closed.value, positions, now)
  {
    var items := ConfirmAt(job.items, positions, now);
    ConfirmKeepsItems(job.items, positions, now, R);
    ConfirmSettles(job, items, now, R);
    if closed.Some? {
      ClosedShape(job, items, now, R);
      HasOfTwo(items, Queued, Running);
    }
  }

  /** What closing a job writes besides its items. */
  lemma ClosedShape(job: Job, items: seq<Item>, now: Time, R: nat)
    requires JobInv(job, R) && |items| == |job.items|
    requires HasActive(items) == HasActive(job.items) && job.status in {JobRunning, JobPaused, JobNeedsReview}
    ensures
      var row := CloseJob(job.(items := items), now);
      && row.Some?
      && row.value == job.(items := items, stateVersion := job.stateVersion + 1, status := row.value.status,
                           finishedAt := row.value.finishedAt)
      && (AllCompleted(items) ==> row.value.status == JobCompleted && row.value.finishedAt == Some(now))
      && (!AllCompleted(items) && HasActive(items) ==>
            row.value.status == job.status && row.value.finishedAt == job.finishedAt)
      && (!AllCompleted(items) && !HasActive(items) ==>
            row.value.status == JobNeedsReview && row.value.finishedAt == None)
  {
  }
}
