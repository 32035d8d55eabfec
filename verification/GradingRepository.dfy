/**
 The grading repository, transaction by transaction. Each method works through its rows the way the
 source does and is proved against the transition functions; a transaction that raises leaves the
 rows as they were.
 */
module GradingRepository {
  import opened Wrappers
  import opened GradingRows
  import opened AttemptHistory
  import opened GradingTransitions
  import opened GradingInvariants
  import opened GradingSystem
  import opened GradingEvolution
  import opened GradingSafety
  import opened GradingEffects

  /** The sweep of a list of candidates; the second part counts the items swept. */
  function SweepAll(jobs: seq<Job>, candidates: seq<(nat, nat)>, now: Time, dbNow: Time): (r: (seq<Job>, nat))
    ensures |r.0| == |jobs|
  {
    if candidates == [] then (jobs, 0)
    else
      var (before, count) := SweepAll(jobs, candidates[..|candidates| - 1], now, dbNow);
      var (j, position) := candidates[|candidates| - 1];
      if j >= |before| then (before, count)
      else
        match SweepItem(before[j], position, now, dbNow)
        case Swept(row) => (before[j := row], count + 1)
        case _ => (before, count)
  }

  /** What sweeping one candidate does to the rows and the count. */
  predicate SweepsOne(before: seq<Job>, count: nat, after: seq<Job>, expired: nat, candidate: (nat, nat), now: Time,
                      dbNow: Time) {
    var (j, position) := candidate;
    if j >= |before| || !SweepItem(before[j], position, now, dbNow).Swept? then after == before && expired == count
    else after == before[j := SweepItem(before[j], position, now, dbNow).job] && expired == count + 1
  }

  lemma SweepOneMore(jobs: seq<Job>, candidates: seq<(nat, nat)>, n: nat, now: Time, dbNow: Time,
                     before: seq<Job>, count: nat, after: seq<Job>, expired: nat)
    requires n < |candidates| && (before, count) == SweepAll(jobs, candidates[..n], now, dbNow)
    requires SweepsOne(before, count, after, expired, candidates[n], now, dbNow)
    ensures (after, expired) == SweepAll(jobs, candidates[..n + 1], now, dbNow)
  {
    assert candidates[..n + 1][..n] == candidates[..n];
  }

  /** A finishing transaction on the whole table: it writes one row, or raises and writes none. */
  function FinishAll(jobs: seq<Job>, c: Claim, failure: Option<Failure>, now: Time): seq<Job> {
    if c.job < |jobs| && Finish(jobs[c.job], c, failure, now).Some? then
      jobs[c.job := Finish(jobs[c.job], c, failure, now).value]
    else jobs
  }

  class GradingJobRepository {
    var jobs: seq<Job>
    ghost const retries: nat

    ghost predicate Valid()
      reads this
    {
      && (forall j | 0 <= j < |jobs| :: JobInv(jobs[j], retries))
      && ConcurrencyInv(jobs)
    }

    constructor (ghost retries: nat)
      ensures jobs == [] && this.retries == retries && Valid()
    {
      this.jobs := [];
      this.retries := retries;
    }

    /** The plan of prepare_item: its two "latest first, limit 1" queries and the kind that follows. */
    method ReadPlan(h: seq<Attempt>, round: nat) returns (plan: Plan)
      ensures plan == PlanNext(h, round) && PlanFits(plan, h, round)
    {
      PlanNextFits(h, round);
      var last: Option<nat> := None;
      if |h| > 0 {
        last := Some(|h| - 1);
      }
      var source: Option<nat> := None;
      var n := |h|;
      assert h[..n] == h;
      while n > 0 && source.None?
        invariant 0 <= n <= |h|
        invariant source.None? ==> CorrectionSource(h[..n], round) == CorrectionSource(h, round)
        invariant source.Some? ==> source == CorrectionSource(h, round)
        decreases if source.None? then 1 else 0, n
      {
        assert h[..n][..n - 1] == h[..n - 1];
        if h[n - 1].round == round && h[n - 1].errorCode == Some(CorrectionRequired) {
          source := Some(n - 1);
        }
        n := n - 1;
      }
      if source.Some? {
        var kind := AutomaticRetry;
        if last == source {
          kind := Correction;
        }
        plan := Plan(kind, last, h[source.value].hasResponse);
      } else if round > 1 && (last.None? || h[last.value].round < round) {
        plan := Plan(ManualRetry, last, false);
      } else if last.Some? {
        plan := Plan(AutomaticRetry, last, false);
      } else {
        plan := Plan(Initial, None, false);
      }
    }

    /** A preparation is what the rows say, and there is one iff the message names work that is due. */
    method PrepareItem(j: nat, position: nat, dispatch: nat, dbNow: Time) returns (prep: Option<Preparation>)
      ensures prep.Some? <==>
                && j < |jobs| && jobs[j].status in {JobQueued, JobRunning}
                && position < |jobs[j].items| && jobs[j].items[position].status == Queued
                && jobs[j].items[position].dispatch == dispatch && jobs[j].items[position].availableAt <= dbNow
      ensures prep.Some? ==>
                && prep.value.job == j && prep.value.position == position && prep.value.dispatch == dispatch
                && prep.value.provider == jobs[j].provider && prep.value.maxConcurrency == jobs[j].maxConcurrency
                && prep.value.timeoutMs == jobs[j].timeoutMs
                && PlanFits(prep.value.plan, jobs[j].items[position].attempts, dispatch)
      ensures prep == if j < |jobs| then Prepare(jobs[j], j, position, dispatch, dbNow) else None
    {
      if j >= |jobs| || position >= |jobs[j].items| {
        return None;
      }
      var job := jobs[j];
      var item := job.items[position];
      if !(item.dispatch == dispatch && item.status == Queued && item.availableAt <= dbNow
           && (job.status == JobQueued || job.status == JobRunning)) {
        return None;
      }
      var plan := ReadPlan(item.attempts, dispatch);
      prep := Some(Preparation(j, position, dispatch, job.provider, job.maxConcurrency, job.timeoutMs, plan));
    }

    /** count(running attempts) joined to items and jobs of one provider */
    method CountRunning(provider: nat) returns (count: nat)
      ensures count == RunningOfProvider(jobs, provider)
    {
      count := 0;
      for j := 0 to |jobs|
        invariant count == RunningOfProvider(jobs[..j], provider)
      {
        if jobs[j].provider == provider {
          var items := jobs[j].items;
          var ofJob := 0;
          for i := 0 to |items|
            invariant ofJob == RunningOfItems(items[..i])
          {
            var h := items[i].attempts;
            var ofItem := 0;
            for k := 0 to |h|
              invariant ofItem == RunningAttempts(h[..k])
            {
              if h[k].status == InFlight {
                ofItem := ofItem + 1;
              }
              assert h[..k + 1][..k] == h[..k];
            }
            assert h[..|h|] == h;
            ofJob := ofJob + ofItem;
            assert items[..i + 1][..i] == items[..i];
          }
          assert items[..|items|] == items;
          count := count + ofJob;
        }
        assert jobs[..j + 1][..j] == jobs[..j];
      }
      assert jobs[..|jobs|] == jobs;
    }

    /** The two max() aggregates of a claim. */
    method NextNumbers(h: seq<Attempt>, round: nat) returns (number: nat, sequence: nat)
      ensures number == MaxNumber(h) + 1 && sequence == MaxSequence(h, round) + 1
    {
      number, sequence := 0, 0;
      for k := 0 to |h|
        invariant number == MaxNumber(h[..k]) && sequence == MaxSequence(h[..k], round)
      {
        if number < h[k].number {
          number := h[k].number;
        }
        if h[k].round == round && sequence < h[k].sequence {
          sequence := h[k].sequence;
        }
        assert h[..k + 1][..k] == h[..k];
      }
      assert h[..|h|] == h;
      number, sequence := number + 1, sequence + 1;
    }

    /**
     A lease is given iff the provider has a free call, the job is queued or running (not paused), and the item
     is still the one that was prepared, queued and due; it is written as ClaimWritten says.
     */
    method ClaimAttempt(prepared: Preparation, token: Token, now: Time, dbNow: Time) returns (claim: Option<Claim>)
      requires Valid()
      requires prepared.job < |jobs| ==>
                 prepared.provider == jobs[prepared.job].provider
                 && prepared.maxConcurrency == jobs[prepared.job].maxConcurrency
      modifies this
      ensures Valid()
      ensures claim.Some? <==>
                && prepared.job < |old(jobs)|
                && RunningOfProvider(old(jobs), prepared.provider) < prepared.maxConcurrency
                && old(jobs)[prepared.job].status in {JobQueued, JobRunning}
                && prepared.position < |old(jobs)[prepared.job].items|
                && old(jobs)[prepared.job].items[prepared.position].status == Queued
                && old(jobs)[prepared.job].items[prepared.position].dispatch == prepared.dispatch
                && old(jobs)[prepared.job].items[prepared.position].availableAt <= dbNow
      ensures |jobs| == |old(jobs)| && (claim.None? ==> jobs == old(jobs))
      ensures claim.Some? ==>
                && claim.value.token == token
                && jobs == old(jobs)[prepared.job := jobs[prepared.job]]
                && ClaimWritten(old(jobs)[prepared.job], jobs[prepared.job], prepared, claim.value, now)
      ensures claim.Some? <==> GradingSystem.ClaimAttempt(old(jobs), prepared, token, now, dbNow).Some?
      ensures claim.Some? ==>
                var (row, c) := GradingSystem.ClaimAttempt(old(jobs), prepared, token, now, dbNow).value;
                claim == Some(c) && jobs == old(jobs)[prepared.job := row] && LeaseHeld(jobs[prepared.job], c)
      ensures claim.Some? ==>
                && RunningOfProvider(old(jobs), prepared.provider) < prepared.maxConcurrency
                && RunningOfProvider(jobs, prepared.provider) == RunningOfProvider(old(jobs), prepared.provider) + 1
    {
      var running := CountRunning(prepared.provider);
      if running >= prepared.maxConcurrency || prepared.job >= |jobs| {
        return None;
      }
      var job := jobs[prepared.job];
      if prepared.position >= |job.items| || !(job.status == JobQueued || job.status == JobRunning) {
        return None;
      }
      var item := job.items[prepared.position];
      if !(item.dispatch == prepared.dispatch && item.status == Queued && item.availableAt <= dbNow) {
        return None;
      }
      var number, sequence := NextNumbers(item.attempts, item.dispatch);
      assert JobInv(job, retries);
      var claimedItem := ClaimItem(item, prepared, number, sequence, token, now);
      if job.status == JobQueued {
        job := job.(status := JobRunning, startedAt := Some(job.startedAt.GetOr(now)));
      }
      job := job.(stateVersion := job.stateVersion + 1, items := job.items[prepared.position := claimedItem]);
      claim := Some(Claim(prepared.job, prepared.position, |item.attempts|, number, item.dispatch, sequence, token));
      ClaimStored(jobs, prepared, token, now, dbNow, retries, claimedItem, job, claim.value);
      jobs := jobs[prepared.job := job];
    }

    /** The new attempt row and the item columns of a claim: one more call, in flight, and no trigger refuses it. */
    method ClaimItem(item: Item, prepared: Preparation, number: nat, sequence: nat, token: Token, now: Time)
      returns (row: Item)
      requires ItemInv(item, retries) && item.status == Queued
      requires number == MaxNumber(item.attempts) + 1 && sequence == MaxSequence(item.attempts, item.dispatch) + 1
      ensures row == ClaimedItem(item, prepared.plan, token, now, prepared.timeoutMs)
      ensures ItemInv(row, retries) && ItemUpdateAllowed(item, row)
      ensures RunningAttempt(row.attempts) == Some(|item.attempts|) && row.attempts[..|item.attempts|] == item.attempts
    {
      ClaimKeepsItem(item, prepared.plan, token, now, prepared.timeoutMs, retries);
      var attempt := Attempt(prepared.plan.parent, number, item.dispatch, sequence, prepared.plan.kind,
                             InFlight, Started, None, NoDetails, false, None);
      row := item.(attempts := item.attempts + [attempt]);
      row := row.(status := Running);
      row := row.(startedAt := Some(item.startedAt.GetOr(now)));
      row := row.(token := Some(token), leaseExpires := Some(now + prepared.timeoutMs + 30_000));
    }

    /** Counter(statuses) and the status it implies; None when the item count is wrong. */
    method ReconcileJob(job: Job, now: Time) returns (row: Option<Job>)
      ensures row == Reconcile(job, now)
      ensures row.None? <==> |job.items| != job.expectedItems
      ensures row.Some? ==>
                row.value == job.(stateVersion := job.stateVersion + 1, status := row.value.status,
                                  finishedAt := row.value.finishedAt)
      ensures row.Some? && (job.status == JobCancelled || HasOf(job.items, {Queued, Running})) ==>
                row.value.status == job.status && row.value.finishedAt == job.finishedAt
      ensures row.Some? && job.status != JobCancelled && !HasOf(job.items, {Queued, Running}) ==>
                if HasOf(job.items, {NeedsReview, Completed}) then
                  row.value.status == JobNeedsReview && row.value.finishedAt == None
                else
                  && row.value.status == (if HasOf(job.items, {Failed}) then JobFailed else JobCancelled)
                  && row.value.finishedAt == Some(now)
    {
      if |job.items| != job.expectedItems {
        return None;
      }
      var queued, running, needsReview, completed, failed := 0, 0, 0, 0, 0;
      for i := 0 to |job.items|
        invariant queued >= 0 && running >= 0 && needsReview >= 0 && completed >= 0 && failed >= 0
        invariant queued > 0 <==> Has(job.items[..i], Queued)
        invariant running > 0 <==> Has(job.items[..i], Running)
        invariant needsReview > 0 <==> Has(job.items[..i], NeedsReview)
        invariant completed > 0 <==> Has(job.items[..i], Completed)
        invariant failed > 0 <==> Has(job.items[..i], Failed)
      {
        HasOneMore(job.items, i);
        match job.items[i].status {
          case Queued => queued := queued + 1;
          case Running => running := running + 1;
          case NeedsReview => needsReview := needsReview + 1;
          case Completed => completed := completed + 1;
          case Failed => failed := failed + 1;
          case Cancelled =>
        }
      }
      assert job.items[..|job.items|] == job.items;
      HasOfTwo(job.items, Queued, Running);
      HasOfTwo(job.items, NeedsReview, Completed);
      HasOfTwo(job.items, Failed, Failed);
      var settled := job;
      if job.status != JobCancelled && queued == 0 && running == 0 {
        if needsReview > 0 || completed > 0 {
          settled := settled.(status := JobNeedsReview, finishedAt := None);
        } else if failed > 0 {
          settled := settled.(status := JobFailed, finishedAt := Some(now));
        } else {
          settled := settled.(status := JobCancelled, finishedAt := Some(now));
        }
      }
      row := Some(settled.(stateVersion := settled.stateVersion + 1));
    }

    method FinishSuccess(claim: Claim, now: Time) returns (ok: bool)
      requires Valid()
      modifies this
      ensures Valid()
      ensures ok <==> Leased(old(jobs), claim)
      ensures jobs == FinishAll(old(jobs), claim, None, now)
      ensures !ok ==> jobs == old(jobs)
      ensures ok ==>
                && jobs == old(jobs)[claim.job := jobs[claim.job]]
                && Concluded(old(jobs)[claim.job], jobs[claim.job], claim, OutputAccepted, false, retries, now)
    {
      if claim.job >= |jobs| {
        return false;
      }
      var job := jobs[claim.job];
      if claim.position >= |job.items| || claim.attempt >= |job.items[claim.position].attempts| {
        return false;
      }
      var item := job.items[claim.position];
      var attempt := item.attempts[claim.attempt];
      if attempt.status != InFlight || item.status != Running || item.token != Some(claim.token) {
        return false;
      }
      attempt := attempt.(status := Succeeded, callState := ResponseReceived);
      attempt := attempt.(hasResponse := true);
      attempt := attempt.(finishedAt := Some(now));
      item := item.(status := NeedsReview, finishedAt := Some(now));
      item := item.(token := None, leaseExpires := None, errorCode := None);
      item := item.(attempts := item.attempts[claim.attempt := attempt]);
      assert Link(jobs[claim.job].items[claim.position].attempts, claim.attempt, retries);
      ghost var sequence := attempt.sequence;
      assert Decide(OutputAccepted, sequence, false, retries) == None;
      FinishRowFacts(jobs, claim, None, false, now, retries);
      FinishWrites(job, claim.(sequence := sequence), OutputAccepted, false, now, retries);
      var row := ReconcileJob(job.(items := job.items[claim.position := item]), now);
      jobs := jobs[claim.job := row.value];
      ok := true;
    }

    method FinishFailure(claim: Claim, failure: Failure, now: Time, ghost correctionPrompt: bool) returns (ok: bool)
      requires Valid()
      requires claim.job < |jobs| && LeaseHeld(jobs[claim.job], claim) ==>
                 FromRunner(Some(failure), jobs[claim.job].items[claim.position].attempts[claim.attempt].sequence,
                            correctionPrompt, retries)
      modifies this
      ensures Valid()
      ensures ok <==> Leased(old(jobs), claim)
      ensures jobs == FinishAll(old(jobs), claim, Some(failure), now)
      ensures !ok ==> jobs == old(jobs)
      ensures ok ==>
                && jobs == old(jobs)[claim.job := jobs[claim.job]]
                && FailureWritten(old(jobs)[claim.job], jobs[claim.job], claim, failure, now)
    {
      if claim.job >= |jobs| {
        return false;
      }
      var job := jobs[claim.job];
      if claim.position >= |job.items| || claim.attempt >= |job.items[claim.position].attempts| {
        return false;
      }
      var item := job.items[claim.position];
      var attempt := item.attempts[claim.attempt];
      if attempt.status != InFlight || item.status != Running || item.token != Some(claim.token) {
        return false;
      }
      assert JobInv(job, retries);
      item := FailItem(item, claim.attempt, failure, now, correctionPrompt);
      FinishRowFacts(jobs, claim, Some(failure), correctionPrompt, now, retries);
      FailureWrites(job, claim, failure, correctionPrompt, now, retries);
      var row := ReconcileJob(job.(items := job.items[claim.position := item]), now);
      jobs := jobs[claim.job := row.value];
      ok := true;
    }

    /** The attempt and item columns of a failure: the call is over, and neither history trigger refuses it. */
    method FailItem(item: Item, k: nat, failure: Failure, now: Time, ghost correctionPrompt: bool) returns (row: Item)
      requires ItemInv(item, retries) && item.status == Running
      requires k < |item.attempts| && item.attempts[k].status == InFlight
      requires FromRunner(Some(failure), item.attempts[k].sequence, correctionPrompt, retries)
      ensures row == FailedItem(item, k, failure, now)
      ensures ItemInv(row, retries) && ItemUpdateAllowed(item, row)
      ensures AttemptUpdateAllowed(item.attempts[k], row.attempts[k]) && RunningAttempt(row.attempts).None?
    {
      ghost var failed := FailedItem(item, k, failure, now);
      FinishKeepsItem(item, k, Some(failure), correctionPrompt, now, retries);
      RunningAttemptIsLast(failed, retries);
      var attempt := item.attempts[k];
      attempt := attempt.(status := Unsuccessful, callState := failure.callState);
      attempt := attempt.(errorCode := Some(failure.errorCode), details := failure.details);
      attempt := attempt.(finishedAt := Some(now), hasResponse := failure.hasResponse);
      row := item.(token := None, leaseExpires := None);
      if failure.action == Retry {
        row := row.(status := Queued);
        row := row.(retryCount := row.retryCount + 1);
        row := row.(availableAt := now + failure.delayMs, finishedAt := None, errorCode := None);
      } else if failure.action == ToReview {
        row := row.(status := NeedsReview, finishedAt := Some(now), errorCode := Some(failure.errorCode));
      } else {
        row := row.(status := Failed, finishedAt := Some(now), errorCode := Some(failure.errorCode));
      }
      row := row.(attempts := row.attempts[k := attempt]);
    }

    /**
     The sweeper's loop. The candidate list may be stale: every candidate is tested again under its
     locks. Neither of the two errors inside the loop is reachable; exactly the candidates whose lease
     is over are expired, and counted once each.
     */
    method ExpireStaleAttempts(candidates: seq<(nat, nat)>, now: Time, dbNow: Time) returns (expired: nat)
      requires Valid()
      modifies this
      ensures Valid()
      ensures SweptItems(old(jobs), jobs, candidates, now, dbNow)
      ensures expired == |OverItems(old(jobs), candidates, dbNow)|
      ensures (jobs, expired) == SweepAll(old(jobs), candidates, now, dbNow)
    {
      expired := 0;
      for n := 0 to |candidates|
        invariant Valid()
        invariant SweptItems(old(jobs), jobs, candidates[..n], now, dbNow)
        invariant expired == |OverItems(old(jobs), candidates[..n], dbNow)|
        invariant (jobs, expired) == SweepAll(old(jobs), candidates[..n], now, dbNow)
      {
        var (j, position) := candidates[n];
        ghost var before, count := jobs, expired;
        if j < |jobs| {
          var swept := ExpireCandidate(j, position, now, dbNow);
          if swept {
            expired := expired + 1;
          }
        }
        SweepOneMore(old(jobs), candidates, n, now, dbNow, before, count, jobs, expired);
        SweptOneMore(old(jobs), before, jobs, candidates, n, expired == count + 1, now, dbNow);
      }
      assert candidates[..|candidates|] == candidates;
    }

    /** One candidate under its locks. */
    method ExpireCandidate(j: nat, position: nat, now: Time, dbNow: Time) returns (swept: bool)
      requires Valid() && j < |jobs|
      modifies this
      ensures Valid()
      ensures swept <==> position < |old(jobs)[j].items| && LeaseOver(old(jobs)[j].items[position], dbNow)
      ensures |jobs| == |old(jobs)| && (!swept ==> jobs == old(jobs))
      ensures swept ==> jobs == old(jobs)[j := jobs[j]] && Expired(old(jobs)[j], jobs[j], position, now)
      ensures swept <==> SweepItem(old(jobs)[j], position, now, dbNow).Swept?
      ensures jobs == if swept then old(jobs)[j := SweepItem(old(jobs)[j], position, now, dbNow).job] else old(jobs)
    {
      if position >= |jobs[j].items| {
        return false;
      }
      var job := jobs[j];
      var item := job.items[position];
      if item.status != Running || item.leaseExpires.None? || item.leaseExpires.value > dbNow {
        return false;
      }
      var k := FindRunning(item);
      var expired := ExpireItem(item, k, now);
      var row := ReconcileJob(job.(items := job.items[position := expired]), now);
      SweepFacts(jobs, j, position, now, dbNow, retries);
      SweepWrites(job, position, now, dbNow, retries);
      jobs := jobs[j := row.value];
      return true;
    }

    /** The attempt and item columns of an expired lease: the outcome is unknown and waits for the teacher. */
    method ExpireItem(item: Item, k: nat, now: Time) returns (row: Item)
      requires ItemInv(item, retries) && item.status == Running
      requires k < |item.attempts| && item.attempts[k].status == InFlight
      ensures row == ExpiredItem(item, k, now)
      ensures ItemInv(row, retries) && ItemUpdateAllowed(item, row)
      ensures AttemptUpdateAllowed(item.attempts[k], row.attempts[k]) && RunningAttempt(row.attempts).None?
    {
      ExpireKeepsItem(item, k, now, retries);
      RunningAttemptIsLast(ExpiredItem(item, k, now), retries);
      var attempt := item.attempts[k];
      attempt := attempt.(status := Unsuccessful, callState := Ambiguous);
      attempt := attempt.(errorCode := Some(OutcomeUnknown), details := LeaseExpired, finishedAt := Some(now));
      row := item.(status := NeedsReview, finishedAt := Some(now), token := None, leaseExpires := None);
      row := row.(errorCode := Some(OutcomeUnknown), attempts := item.attempts[k := attempt]);
    }

    /** The running attempt of a running item: it always exists. */
    method FindRunning(item: Item) returns (k: nat)
      requires ItemInv(item, retries) && item.status == Running
      ensures k < |item.attempts| && item.attempts[k].status == InFlight
      ensures RunningAttempt(item.attempts) == Some(k)
    {
      k := 0;
      while k < |item.attempts| && item.attempts[k].status != InFlight
        invariant k <= |item.attempts|
        invariant forall m | 0 <= m < k :: item.attempts[m].status != InFlight
      {
        k := k + 1;
      }
      RunningAttemptIsLast(item, retries);
      RunningIsLast(item, k, retries);
    }
  }

  /** The row and the claim of a successful claim_attempt. */
  lemma ClaimUnfolds(jobs: seq<Job>, p: Preparation, token: Token, now: Time, dbNow: Time, it: Item, row: Job, c: Claim)
    requires p.job < |jobs| && RunningOfProvider(jobs, p.provider) < p.maxConcurrency
    requires
      var job := jobs[p.job];
      && p.position < |job.items| && (job.status == JobQueued || job.status == JobRunning)
      && Dispatchable(job.items[p.position], p.dispatch, dbNow)
      && it == ClaimedItem(job.items[p.position], p.plan, token, now, p.timeoutMs)
      && row == job.(status := JobRunning,
                     startedAt := if job.status == JobQueued then Some(job.startedAt.GetOr(now)) else job.startedAt,
                     stateVersion := job.stateVersion + 1, items := job.items[p.position := it])
      && var h := job.items[p.position].attempts;
         c == Claim(p.job, p.position, |h|, MaxNumber(h) + 1, job.items[p.position].dispatch,
                    MaxSequence(h, job.items[p.position].dispatch) + 1, token)
    ensures GradingSystem.ClaimAttempt(jobs, p, token, now, dbNow) == Some((row, c))
  {
  }

  /** The row and the claim that the method computes, and what storing the row keeps. */
  lemma ClaimStored(jobs: seq<Job>, p: Preparation, token: Token, now: Time, dbNow: Time, R: nat, it: Item, row: Job,
                    c: Claim)
    requires (forall j | 0 <= j < |jobs| :: JobInv(jobs[j], R)) && ConcurrencyInv(jobs)
    requires p.job < |jobs| && p.provider == jobs[p.job].provider && p.maxConcurrency == jobs[p.job].maxConcurrency
    requires RunningOfProvider(jobs, p.provider) < p.maxConcurrency
    requires Due(jobs[p.job], p.position, p.dispatch, dbNow)
    requires
      var job := jobs[p.job];
      && it == ClaimedItem(job.items[p.position], p.plan, token, now, p.timeoutMs)
      && row == job.(status := JobRunning,
                     startedAt := if job.status == JobQueued then Some(job.startedAt.GetOr(now)) else job.startedAt,
                     stateVersion := job.stateVersion + 1, items := job.items[p.position := it])
      && var h := job.items[p.position].attempts;
         c == Claim(p.job, p.position, |h|, MaxNumber(h) + 1, job.items[p.position].dispatch,
                    MaxSequence(h, job.items[p.position].dispatch) + 1, token)
    ensures GradingSystem.ClaimAttempt(jobs, p, token, now, dbNow) == Some((row, c))
    ensures JobInv(row, R) && ConcurrencyInv(jobs[p.job := row]) && LeaseHeld(row, c)
    ensures RunningOfProvider(jobs[p.job := row], p.provider) == RunningOfProvider(jobs, p.provider) + 1
    ensures ClaimWritten(jobs[p.job], row, p, c, now)
  {
    ClaimUnfolds(jobs, p, token, now, dbNow, it, row, c);
    ClaimFacts(jobs, p, token, now, dbNow, R, row, c);
    ClaimWrites(jobs[p.job], p, token, now, dbNow, R);
  }

  /** What storing a claimed row keeps. */
  lemma ClaimFacts(jobs: seq<Job>, p: Preparation, token: Token, now: Time, dbNow: Time, R: nat, row: Job, c: Claim)
    requires (forall j | 0 <= j < |jobs| :: JobInv(jobs[j], R)) && ConcurrencyInv(jobs)
    requires p.job < |jobs| && p.provider == jobs[p.job].provider && p.maxConcurrency == jobs[p.job].maxConcurrency
    requires GradingSystem.ClaimAttempt(jobs, p, token, now, dbNow) == Some((row, c))
    ensures JobInv(row, R) && ConcurrencyInv(jobs[p.job := row]) && LeaseHeld(row, c)
    ensures RunningOfProvider(jobs[p.job := row], p.provider) == RunningOfProvider(jobs, p.provider) + 1
  {
    var job := jobs[p.job];
    var it := job.items[p.position];
    ClaimKeepsJob(job, p, token, now, dbNow, R);
    var claimedItem := ClaimedItem(it, p.plan, token, now, p.timeoutMs);
    RunningOfItemsUpdate(job.items, p.position, claimedItem);
    assert claimedItem.attempts[..|claimedItem.attempts| - 1] == it.attempts;
    ConcurrencyKept(jobs, p.job, row);
    RunningOfProviderUpdate(jobs, p.job, row, p.provider);
  }

  /** What storing a finished row keeps. */
  lemma FinishRowFacts(jobs: seq<Job>, c: Claim, failure: Option<Failure>, correctionPrompt: bool, now: Time, R: nat)
    requires (forall j | 0 <= j < |jobs| :: JobInv(jobs[j], R)) && ConcurrencyInv(jobs)
    requires c.job < |jobs| && LeaseHeld(jobs[c.job], c)
    requires FromRunner(failure, jobs[c.job].items[c.position].attempts[c.attempt].sequence, correctionPrompt, R)
    ensures Finish(jobs[c.job], c, failure, now).Some?
    ensures
      var row := Finish(jobs[c.job], c, failure, now).value;
      && JobInv(row, R) && ConcurrencyInv(jobs[c.job := row])
      && row.items == jobs[c.job].items[c.position := FinishedItem(jobs[c.job].items[c.position], c.attempt, failure, now)]
  {
    var row := Finish(jobs[c.job], c, failure, now);
    FinishFacts(jobs[c.job], c, failure, correctionPrompt, now, R, row);
    ConcurrencyKept(jobs, c.job, row.value);
  }

  /** What storing a swept row keeps. */
  lemma SweepFacts(jobs: seq<Job>, j: nat, position: nat, now: Time, dbNow: Time, R: nat)
    requires (forall i | 0 <= i < |jobs| :: JobInv(jobs[i], R)) && ConcurrencyInv(jobs)
    requires j < |jobs| && position < |jobs[j].items| && LeaseExpiredAt(jobs[j].items[position], dbNow)
    ensures SweepItem(jobs[j], position, now, dbNow).Swept?
    ensures
      var row := SweepItem(jobs[j], position, now, dbNow).job;
      JobInv(row, R) && ConcurrencyInv(jobs[j := row])
  {
    SweepKeepsJob(jobs[j], position, now, dbNow, R);
    SweepEvolves(jobs[j], position, now, dbNow, R);
    var row := SweepItem(jobs[j], position, now, dbNow).job;
    FinishedLeavesRunning(jobs[j].items, row.items, position, R);
    ConcurrencyKept(jobs, j, row);
  }

  lemma HasOneMore(items: seq<Item>, i: nat)
    requires i < |items|
    ensures forall s :: Has(items[..i + 1], s) <==> Has(items[..i], s) || items[i].status == s
  {
    forall s | Has(items[..i], s)
      ensures Has(items[..i + 1], s)
    {
      var k :| 0 <= k < i && items[..i][k].status == s;
      assert items[..i + 1][k].status == s;
    }
    assert items[..i + 1][i] == items[i];
    forall s | Has(items[..i + 1], s) && items[i].status != s
      ensures Has(items[..i], s)
    {
      var k :| 0 <= k < i + 1 && items[..i + 1][k].status == s;
      assert items[..i][k].status == s;
    }
  }
}
