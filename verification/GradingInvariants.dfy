/**
 The invariant of one job with its items and attempts, and the proof that every
 transaction keeps it. R is the runner's max_provider_retries.
 */
module GradingInvariants {
  import opened Wrappers
  import opened GradingRows
  import opened AttemptHistory
  import opened GradingTransitions

  // ----- items -----

  /** Where the item stands is decided by its last call. */
  predicate AgreesWithLastCall(it: Item, R: nat) {
    if it.attempts == [] then
      it.dispatch == 1 && it.status in {Queued, Cancelled} && it.retryCount == 0
    else
      var last := it.attempts[|it.attempts| - 1];
      && (it.status == Running <==> last.status == InFlight)
      && (if it.status in {Queued, Cancelled} then
            || (last.round + 1 == it.dispatch && it.retryCount == 0)
            || (last.round == it.dispatch && Retried(last, R) && it.retryCount == last.sequence)
          else
            && last.round == it.dispatch
            && it.retryCount + 1 == last.sequence
            && !Retried(last, R)
            && (it.status == Completed ==> last.status == Succeeded)
            && (it.status == Failed ==> last.status == Unsuccessful))
  }

  predicate ItemInv(it: Item, R: nat) {
    && ItemCheck(it)
    && Chain(it.attempts, R)
    && AgreesWithLastCall(it, R)
    && (it.reviewConfirmed <==> it.status == Completed)
  }

  /** A queued item's history accepts one more row. */
  lemma ClaimKeepsItem(it: Item, plan: Plan, token: Token, now: Time, timeoutMs: nat, R: nat)
    requires ItemInv(it, R) && it.status == Queued
    ensures
      var it' := ClaimedItem(it, plan, token, now, timeoutMs);
      && ItemInv(it', R) && ItemUpdateAllowed(it, it')
      && NewAttempt(it, plan).number == |it.attempts| + 1
  {
    var h := it.attempts;
    var it' := ClaimedItem(it, plan, token, now, timeoutMs);
    AggregatesOfChain(h, it.dispatch, R);
    forall k | 0 <= k < |it'.attempts| ensures Link(it'.attempts, k, R) {
      if k < |h| { assert Link(h, k, R); }
      if h != [] { assert Link(h, |h| - 1, R); }
    }
  }

  /** Finishing the last row of a chain leaves a chain. */
  lemma FinishKeepsChain(h: seq<Attempt>, a: Attempt, R: nat)
    requires Chain(h, R) && h != [] && SameCall(h[|h| - 1], a) && AttemptCheck(a)
    requires a.errorCode == Some(CorrectionRequired) ==> Retried(a, R) && a.hasResponse
    ensures Chain(h[|h| - 1 := a], R)
  {
    var h' := h[|h| - 1 := a];
    forall k | 0 <= k < |h'| ensures Link(h', k, R) {
      assert Link(h, k, R);
    }
  }

  /** In a running item exactly the last attempt is in flight. */
  lemma RunningIsLast(it: Item, k: nat, R: nat)
    requires ItemInv(it, R) && k < |it.attempts| && it.attempts[k].status == InFlight
    ensures k == |it.attempts| - 1 && it.status == Running
  {
    assert k + 1 < |it.attempts| ==> Link(it.attempts, k + 1, R);
  }

  lemma {:induction false} RunningAttemptIsLast(it: Item, R: nat)
    requires ItemInv(it, R)
    ensures RunningAttempt(it.attempts) ==
              if it.status == Running then Some(|it.attempts| - 1) else None
  {
    match RunningAttempt(it.attempts)
    case Some(k) => RunningIsLast(it, k, R);
    case None => NoRunningAttemptMeans(it.attempts);
  }

  lemma {:induction false} NoRunningAttemptMeans(h: seq<Attempt>)
    requires RunningAttempt(h).None?
    ensures forall k | 0 <= k < |h| :: h[k].status != InFlight
  {
    if h != [] {
      NoRunningAttemptMeans(h[..|h| - 1]);
      assert forall k | 0 <= k < |h| - 1 :: h[k] == h[..|h| - 1][k];
    }
  }

  /** The failures that the runner writes. */
  ghost predicate FromRunner(failure: Option<Failure>, sequence: nat, correctionPrompt: bool, R: nat) {
    sequence > 0 && exists outcome: Outcome :: Decide(outcome, sequence, correctionPrompt, R) == failure
  }

  /** A failed attempt counts as retried exactly when the runner asked for a retry. */
  lemma RetryIsVisible(a: Attempt, f: Failure, correctionPrompt: bool, now: Time, R: nat)
    requires FromRunner(Some(f), a.sequence, correctionPrompt, R)
    ensures Retried(FailedAttempt(a, f, now), R) <==> f.action == Retry
    ensures f.callState == Ambiguous ==> f.action != Retry
  {
  }

  function FinishedItem(it: Item, k: nat, failure: Option<Failure>, now: Time): Item
    requires k < |it.attempts|
  {
    match failure
    case None => SucceededItem(it, k, now)
    case Some(f) => FailedItem(it, k, f, now)
  }

  lemma FinishKeepsItem(it: Item, k: nat, failure: Option<Failure>, correctionPrompt: bool, now: Time, R: nat)
    requires ItemInv(it, R) && it.status == Running
    requires k < |it.attempts| && it.attempts[k].status == InFlight
    requires FromRunner(failure, it.attempts[k].sequence, correctionPrompt, R)
    ensures
      var it' := FinishedItem(it, k, failure, now);
      && ItemInv(it', R) && ItemUpdateAllowed(it, it')
      && AttemptUpdateAllowed(it.attempts[k], it'.attempts[k])
      && it'.status in {Queued, NeedsReview, Failed}
  {
    RunningIsLast(it, k, R);
    var a := it.attempts[k];
    assert Link(it.attempts, k, R);
    var it' := FinishedItem(it, k, failure, now);
    if failure.Some? {
      RetryIsVisible(a, failure.value, correctionPrompt, now, R);
    }
    FinishKeepsChain(it.attempts, it'.attempts[k], R);
  }

  lemma ExpireKeepsItem(it: Item, k: nat, now: Time, R: nat)
    requires ItemInv(it, R) && it.status == Running
    requires k < |it.attempts| && it.attempts[k].status == InFlight
    ensures
      var it' := ExpiredItem(it, k, now);
      && ItemInv(it', R) && ItemUpdateAllowed(it, it')
      && AttemptUpdateAllowed(it.attempts[k], it'.attempts[k])
  {
    RunningIsLast(it, k, R);
    assert Link(it.attempts, k, R);
    FinishKeepsChain(it.attempts, ExpiredItem(it, k, now).attempts[k], R);
  }

  lemma TeacherKeepsItem(it: Item, now: Time, R: nat)
    requires ItemInv(it, R)
    ensures it.status in {NeedsReview, Failed} ==>
              ItemInv(RequeuedItem(it, now), R) && ItemUpdateAllowed(it, RequeuedItem(it, now))
    ensures ItemInv(CancelledItem(it, now), R)
    ensures it.status == Queued ==> ItemUpdateAllowed(it, CancelledItem(it, now))
    ensures Confirmable(it) ==>
              ItemInv(ConfirmedItem(it, now), R) && ItemUpdateAllowed(it, ConfirmedItem(it, now))
  {
  }

  // ----- jobs -----

  /** The status of a job is a function of its items, up to started/paused and cancellation. */
  predicate StatusAgrees(job: Job) {
    && (job.status != JobCancelled ==> !Has(job.items, Cancelled))
    && match job.status
       case JobQueued => forall i | 0 <= i < |job.items| :: job.items[i].status == Queued && job.items[i].attempts == []
       case JobRunning => HasActive(job.items)
       case JobPaused => HasActive(job.items)
       case JobNeedsReview =>
         && !HasActive(job.items)
         && (Has(job.items, NeedsReview) || Has(job.items, Completed))
         && !AllCompleted(job.items)
       case JobCompleted => AllCompleted(job.items)
       case JobFailed => forall i | 0 <= i < |job.items| :: job.items[i].status == Failed
       case JobCancelled => true
  }

  predicate JobInv(job: Job, R: nat) {
    && JobCheck(job)
    && |job.items| == job.expectedItems
    && (forall i | 0 <= i < |job.items| :: ItemInv(job.items[i], R))
    && StatusAgrees(job)
  }

  /** A job with an item in flight is running, paused or cancelled. */
  lemma RunningItemsJob(job: Job, position: nat, R: nat)
    requires JobInv(job, R) && position < |job.items| && job.items[position].status == Running
    ensures job.status in {JobRunning, JobPaused, JobCancelled}
  {
    assert Has(job.items, Running);
  }

  /** Any status that is not one of the five others is cancelled, so the last branch of reconcile is dead. */
  lemma StatusCases(items: seq<Item>)
    requires items != [] && !HasActive(items) && !Has(items, Cancelled)
    ensures Has(items, NeedsReview) || Has(items, Completed) || Has(items, Failed)
    ensures !Has(items, NeedsReview) && !Has(items, Completed) ==>
              forall i | 0 <= i < |items| :: items[i].status == Failed
  {
    forall i | 0 <= i < |items|
      ensures items[i].status in {NeedsReview, Completed, Failed}
    {
      assert items[i].status != Queued && items[i].status != Running && items[i].status != Cancelled;
    }
    assert items[0].status in {NeedsReview, Completed, Failed};
  }

  /**
   Reconciling a job after one of its items left running: the result agrees with the items,
   no trigger changes or rejects it, and it never becomes cancelled here.
   */
  lemma ReconcileSettles(job: Job, position: nat, now: Time, R: nat)
    requires JobCheck(job) && |job.items| == job.expectedItems
    requires forall i | 0 <= i < |job.items| :: ItemInv(job.items[i], R)
    requires job.status in {JobRunning, JobPaused, JobCancelled}
    requires job.status != JobCancelled ==> !Has(job.items, Cancelled)
    requires position < |job.items| && job.items[position].status in {Queued, NeedsReview, Failed}
    ensures Reconcile(job, now).Some?
    ensures
      var row := Reconcile(job, now).value;
      && JobInv(row, R)
      && JobUpdate(job.status, row, now) == Some(row)
      && row.items == job.items
      && row.stateVersion == job.stateVersion + 1
      && (row.status == JobCancelled <==> job.status == JobCancelled)
      && (job.status != JobCancelled && !HasActive(job.items) ==>
            row.status ==
              if Has(job.items, NeedsReview) || Has(job.items, Completed) then JobNeedsReview else JobFailed)
      && (HasActive(job.items) ==> row.status == job.status)
  {
    if job.status != JobCancelled && !HasActive(job.items) {
      StatusCases(job.items);
      assert job.items[position].status != Completed;
    }
  }

  lemma FinishKeepsJob(job: Job, c: Claim, failure: Option<Failure>, correctionPrompt: bool, now: Time, R: nat)
    requires JobInv(job, R) && LeaseHeld(job, c)
    requires FromRunner(failure, job.items[c.position].attempts[c.attempt].sequence, correctionPrompt, R)
    ensures Finish(job, c, failure, now).Some?
    ensures
      var row := Finish(job, c, failure, now).value;
      && JobInv(row, R)
      && row.items == job.items[c.position := FinishedItem(job.items[c.position], c.attempt, failure, now)]
      && JobUpdate(job.status, row, now) == Some(row)
  {
    var it := job.items[c.position];
    FinishKeepsItem(it, c.attempt, failure, correctionPrompt, now, R);
    var row := WithItem(job, c.position, FinishedItem(it, c.attempt, failure, now));
    RunningItemsJob(job, c.position, R);
    ReconcileSettles(row, c.position, now, R);
  }

  lemma SweepKeepsJob(job: Job, position: nat, now: Time, dbNow: Time, R: nat)
    requires JobInv(job, R) && position < |job.items| && LeaseExpiredAt(job.items[position], dbNow)
    ensures SweepItem(job, position, now, dbNow).Swept?
    ensures
      var row := SweepItem(job, position, now, dbNow).job;
      var it := job.items[position];
      && JobInv(row, R)
      && row.items == job.items[position := ExpiredItem(it, |it.attempts| - 1, now)]
      && JobUpdate(job.status, row, now) == Some(row)
  {
    var it := job.items[position];
    RunningAttemptIsLast(it, R);
    ExpireKeepsItem(it, |it.attempts| - 1, now, R);
    var row := WithItem(job, position, ExpiredItem(it, |it.attempts| - 1, now));
    RunningItemsJob(job, position, R);
    ReconcileSettles(row, position, now, R);
  }

  lemma ClaimKeepsJob(job: Job, p: Preparation, token: Token, now: Time, dbNow: Time, R: nat)
    requires JobInv(job, R) && ClaimOn(job, p, token, now, dbNow).Some?
    ensures
      var (row, c) := ClaimOn(job, p, token, now, dbNow).value;
      var it := job.items[p.position];
      && JobInv(row, R)
      && row.items == job.items[p.position := ClaimedItem(it, p.plan, token, now, p.timeoutMs)]
      && JobUpdate(job.status, row, now) == Some(row)
      && LeaseHeld(row, c)
      && c.attempt == |it.attempts| && c.number == c.attempt + 1 && c.round == p.dispatch
      && 1 <= c.sequence == row.items[p.position].attempts[c.attempt].sequence
  {
    var it := job.items[p.position];
    ClaimKeepsItem(it, p.plan, token, now, p.timeoutMs, R);
    AggregatesOfChain(it.attempts, it.dispatch, R);
    var (row, c) := ClaimOn(job, p, token, now, dbNow).value;
    assert row.items[p.position].status == Running;
    assert forall s :: Has(row.items, s) && s != Running ==> Has(job.items, s);
  }

  lemma ControlKeepsJob(job: Job, action: Control, versionMatches: bool, now: Time, R: nat)
    requires JobInv(job, R) && ControlJob(job, action, versionMatches, now).Some?
    ensures
      var row := ControlJob(job, action, versionMatches, now).value;
      && JobInv(row, R) && row.stateVersion == job.stateVersion + 1
      && (Open(row.status) ==> Open(job.status) || versionMatches)
      && job.status != JobCancelled
  {
    forall i | 0 <= i < |job.items| {
      TeacherKeepsItem(job.items[i], now, R);
    }
    var row := ControlJob(job, action, versionMatches, now).value;
    match action {
      case Pause =>
        if job.status == JobQueued { assert job.items[0].status == Queued; }
      case Resume =>
      case Cancel =>
      case RetryItem(position) =>
        assert row.items[position].status == Queued;
        assert forall s :: Has(row.items, s) && s != Queued ==> Has(job.items, s);
    }
  }

  lemma ConfirmKeepsItems(items: seq<Item>, positions: set<nat>, now: Time, R: nat)
    requires forall i | 0 <= i < |items| :: ItemInv(items[i], R)
    requires forall p | p in positions :: p < |items| && Confirmable(items[p])
    ensures forall i | 0 <= i < |items| :: ItemInv(ConfirmAt(items, positions, now)[i], R)
    ensures HasActive(ConfirmAt(items, positions, now)) == HasActive(items)
    ensures Has(ConfirmAt(items, positions, now), Cancelled) == Has(items, Cancelled)
    ensures positions != {} ==> Has(items, NeedsReview) && Has(ConfirmAt(items, positions, now), Completed)
  {
    var after := ConfirmAt(items, positions, now);
    forall i | 0 <= i < |items|
      ensures ItemInv(after[i], R)
    {
      TeacherKeepsItem(items[i], now, R);
    }
    forall s | s in {Queued, Running, Cancelled}
      ensures Has(after, s) == Has(items, s)
    {
      assert forall i | 0 <= i < |items| :: after[i].status == s <==> items[i].status == s;
    }
    if positions != {} {
      var p :| p in positions;
      assert items[p].status == NeedsReview && after[p].status == Completed;
    }
  }

  /** Closing a job after a confirmation, for any new items that kept what confirmations keep. */
  lemma ConfirmSettles(job: Job, items: seq<Item>, now: Time, R: nat)
    requires JobInv(job, R) && |items| == |job.items|
    requires forall i | 0 <= i < |items| :: ItemInv(items[i], R)
    requires HasActive(items) == HasActive(job.items) && Has(items, Cancelled) == Has(job.items, Cancelled)
    requires Has(job.items, NeedsReview) && Has(items, Completed)
    ensures
      var closed := CloseJob(job.(items := items), now);
      && (closed.Some? <==> job.status != JobCancelled)
      && (closed.Some? ==>
            && JobInv(closed.value, R)
            && closed.value.items == items && closed.value.stateVersion == job.stateVersion + 1
            && job.status in {JobRunning, JobPaused, JobNeedsReview}
            && (Open(closed.value.status) ==> closed.value.status == job.status)
            && (closed.value.status == JobCompleted <==> AllCompleted(items))
            && (Open(closed.value.status) <==> HasActive(items)))
  {
    if AllCompleted(items) {
      assert !HasActive(items);
    }
    assert job.status in {JobRunning, JobPaused, JobNeedsReview, JobCancelled};
  }

  /**
   A confirmation that is accepted either finds every review confirmed and changes nothing, or completes exactly
   the items named and leaves all others; the job then is completed iff all of its items are, waits for
   review iff none of the rest is queued or running, and stays open otherwise.
   */
  lemma ConfirmKeepsJob(job: Job, positions: set<nat>, now: Time, R: nat)
    requires JobInv(job, R) && ConfirmReviews(job, positions, now).Some?
    ensures
      var row := ConfirmReviews(job, positions, now).value;
      && JobInv(row, R)
      && (forall p | p in positions :: p < |row.items| && row.items[p].status == Completed && row.items[p].reviewConfirmed)
      && (row == job <==> forall p | p in positions :: job.items[p].status == Completed)
      && (row != job ==>
            && job.status in {JobRunning, JobPaused, JobNeedsReview} && row.stateVersion == job.stateVersion + 1
            && row.items == ConfirmAt(job.items, positions, now))
      && (Open(row.status) ==> Open(job.status))
      && (job.status != JobCancelled ==>
            && (row.status == JobCompleted <==> AllCompleted(row.items))
            && (Open(row.status) <==> HasActive(job.items)))
  {
    if forall p | p in positions :: job.items[p].reviewConfirmed {
      ConfirmedBefore(job, positions, now, R);
    } else {
      ConfirmNow(job, positions, now, R);
    }
  }

  lemma ConfirmedBefore(job: Job, positions: set<nat>, now: Time, R: nat)
    requires JobInv(job, R) && positions != {} && forall p | p in positions :: p < |job.items|
    requires forall p | p in positions :: job.items[p].reviewConfirmed
    ensures forall p | p in positions :: job.items[p].status == Completed
    ensures job.status != JobCancelled ==>
              (job.status == JobCompleted <==> AllCompleted(job.items)) && (Open(job.status) <==> HasActive(job.items))
  {
    forall p | p in positions ensures job.items[p].status == Completed {
      assert ItemInv(job.items[p], R);
    }
    assert job.items[0].status == Queued ==> Has(job.items, Queued);
  }

  lemma ConfirmNow(job: Job, positions: set<nat>, now: Time, R: nat)
    requires JobInv(job, R) && ConfirmReviews(job, positions, now).Some?
    requires !(forall p | p in positions :: job.items[p].reviewConfirmed)
    ensures
      var row := ConfirmReviews(job, positions, now).value;
      && JobInv(row, R) && row.items == ConfirmAt(job.items, positions, now)
      && (exists p :: p in positions && job.items[p].status != Completed)
      && job.status in {JobRunning, JobPaused, JobNeedsReview} && row.stateVersion == job.stateVersion + 1
      && (Open(row.status) ==> Open(job.status))
      && (row.status == JobCompleted <==> AllCompleted(row.items))
      && (Open(row.status) <==> HasActive(job.items))
  {
    var items := ConfirmAt(job.items, positions, now);
    ConfirmKeepsItems(job.items, positions, now, R);
    ConfirmSettles(job, items, now, R);
    ConfirmIsClose(job, positions, now, items);
    var p :| p in positions && !job.items[p].reviewConfirmed;
    assert job.items[p].status == NeedsReview;
  }

  lemma ConfirmIsClose(job: Job, positions: set<nat>, now: Time, items: seq<Item>)
    requires ConfirmReviews(job, positions, now).Some? && items == ConfirmAt(job.items, positions, now)
    requires !(forall p | p in positions :: job.items[p].reviewConfirmed)
    ensures ConfirmReviews(job, positions, now) == CloseJob(job.(items := items), now)
    ensures forall p | p in positions :: p < |job.items| && Confirmable(job.items[p])
  {
  }

  lemma NewJobInv(provider: nat, configVersion: nat, maxConcurrency: nat, timeoutMs: nat, count: nat, now: Time, R: nat)
    requires 1 <= count <= 100
    ensures JobInv(NewJob(provider, configVersion, maxConcurrency, timeoutMs, count, now), R)
  {
  }
}
