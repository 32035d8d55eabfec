/** What the grading pipeline promises, over every run from an empty database. */
module GradingTheorems {
  import opened Wrappers
  import opened GradingRows
  import opened AttemptHistory
  import opened GradingTransitions
  import opened GradingInvariants
  import opened GradingSystem
  import opened GradingEvolution
  import opened GradingSafety
  import opened GradingFreshness
  import PC = ProviderConfigs

  /** Any state that some run of any deployment reaches. */
  ghost predicate Reachable(s: System) {
    exists retries: nat, slots: nat, actions: seq<Action> :: s == Run(Start(retries, slots), actions)
  }

  lemma ReachableInv(s: System)
    requires Reachable(s)
    ensures Inv(s)
  {
    var retries: nat, slots: nat, actions: seq<Action> :| s == Run(Start(retries, slots), actions);
    StartInv(retries, slots);
    RunSafe(Start(retries, slots), actions);
  }

  predicate ItemExists(s: System, j: nat, i: nat) {
    j < |s.jobs| && i < |s.jobs[j].items|
  }

  // ----- attempt histories, under any interleaving -----

  /**
   Attempts are numbered 1..n; rounds start at 1, never decrease and never skip; the calls of one
   round are consecutive and their sequences are exactly 1..k.
   */
  lemma CallNumbering(s: System, j: nat, i: nat, k: nat)
    requires Reachable(s) && ItemExists(s, j, i) && k < |s.jobs[j].items[i].attempts|
    ensures
      var h := s.jobs[j].items[i].attempts;
      && h[k].number == k + 1
      && 1 <= h[k].sequence <= k + 1
      && (forall m | 0 <= m <= k :: h[m].round == h[k].round <==> k + 1 - h[k].sequence <= m)
      && (k == 0 ==> h[k].round == 1)
      && (k > 0 ==> h[k - 1].round <= h[k].round <= h[k - 1].round + 1)
      && h[k].round <= s.jobs[j].items[i].dispatch
  {
    ReachableInv(s);
    assert JobInv(s.jobs[j], s.retries);
    var h := s.jobs[j].items[i].attempts;
    assert Link(h, k, s.retries);
    RoundStart(h, k, s.retries);
    RoundsAndSequences(h, k, |h| - 1, s.retries);
  }

  /**
   No call follows an outcome that was a success, or is unknown, within its round: there is at
   most one success a round, and nothing is billed again automatically after a lost call.
   */
  lemma NoCallAfterSuccessOrUnknown(s: System, j: nat, i: nat, k: nat, later: nat)
    requires Reachable(s) && ItemExists(s, j, i)
    requires k < later < |s.jobs[j].items[i].attempts|
    requires s.jobs[j].items[i].attempts[k].status == Succeeded
          || s.jobs[j].items[i].attempts[k].callState == Ambiguous
    ensures s.jobs[j].items[i].attempts[k].round < s.jobs[j].items[i].attempts[later].round
  {
    ReachableInv(s);
    assert JobInv(s.jobs[j], s.retries);
    RoundsAndSequences(s.jobs[j].items[i].attempts, k, later, s.retries);
  }

  /** An item is running iff exactly one of its attempts is, and that one is its latest. */
  lemma RunningIffOneAttempt(s: System, j: nat, i: nat)
    requires Reachable(s) && ItemExists(s, j, i)
    ensures
      var it := s.jobs[j].items[i];
      && RunningAttempts(it.attempts) == (if it.status == Running then 1 else 0)
      && RunningAttempt(it.attempts) == (if it.status == Running then Some(|it.attempts| - 1) else None)
  {
    ReachableInv(s);
    assert JobInv(s.jobs[j], s.retries);
    RunningAttemptsOf(s.jobs[j].items[i], s.retries);
    RunningAttemptIsLast(s.jobs[j].items[i], s.retries);
  }

  /** Neither error of the sweeper can occur: an expired item is always swept. */
  lemma SweeperNeverRaises(s: System, j: nat, i: nat, now: Time, dbNow: Time)
    requires Reachable(s) && ItemExists(s, j, i)
    ensures SweepItem(s.jobs[j], i, now, dbNow).Swept? <==> LeaseExpiredAt(s.jobs[j].items[i], dbNow)
    ensures SweepItem(s.jobs[j], i, now, dbNow).Swept? || SweepItem(s.jobs[j], i, now, dbNow).Skipped?
  {
    ReachableInv(s);
    assert JobInv(s.jobs[j], s.retries);
    if LeaseExpiredAt(s.jobs[j].items[i], dbNow) {
      SweepKeepsJob(s.jobs[j], i, now, dbNow, s.retries);
    }
  }

  /** retry_count is the number of calls of the current round that asked for a retry. */
  lemma RetryCountMeaning(s: System, j: nat, i: nat)
    requires Reachable(s) && ItemExists(s, j, i)
    ensures
      var it := s.jobs[j].items[i];
      it.retryCount == RetriedIn(it.attempts, it.dispatch, s.retries)
  {
    ReachableInv(s);
    assert JobInv(s.jobs[j], s.retries);
    var it := s.jobs[j].items[i];
    var h := it.attempts;
    if h != [] {
      var n := |h| - 1;
      assert Link(h, n, s.retries);
      RetriedInRound(h, s.retries);
      if h[n].round < it.dispatch { NoRetriesYet(h, it.dispatch, s.retries); }
    }
  }

  function RetriedIn(h: seq<Attempt>, round: nat, R: nat): nat {
    if h == [] then 0
    else RetriedIn(h[..|h| - 1], round, R) + (if h[|h| - 1].round == round && Retried(h[|h| - 1], R) then 1 else 0)
  }

  lemma {:induction false} RetriedInRound(h: seq<Attempt>, R: nat)
    requires Chain(h, R) && h != []
    ensures
      var last := h[|h| - 1];
      RetriedIn(h, last.round, R) == last.sequence - 1 + (if Retried(last, R) then 1 else 0)
  {
    var n := |h| - 1;
    assert Link(h, n, R);
    if n > 0 {
      ChainPrefix(h, n, R);
      if h[n - 1].round == h[n].round {
        RetriedInRound(h[..n], R);
      } else {
        NoRetriesYet(h[..n], h[n].round, R);
      }
    }
  }

  lemma {:induction false} NoRetriesYet(h: seq<Attempt>, round: nat, R: nat)
    requires Chain(h, R) && (h != [] ==> h[|h| - 1].round < round)
    ensures RetriedIn(h, round, R) == 0
  {
    if h != [] {
      var n := |h| - 1;
      ChainPrefix(h, n, R);
      if n > 0 { RoundsAndSequences(h, n - 1, n, R); }
      NoRetriesYet(h[..n], round, R);
    }
  }

  // ----- leases -----

  /** No two slots hold the same call. */
  predicate DistinctCalls(slots: seq<Slot>) {
    forall v, w | 0 <= v < w < |slots| && slots[v].Calling? && slots[w].Calling? ::
      !SameAttempt(slots[v].claim, slots[w].claim)
  }

  predicate SameAttempt(c: Claim, d: Claim) {
    c.job == d.job && c.position == d.position && c.attempt == d.attempt
  }

  /** A new call is the attempt after all those that slots hold. */
  lemma ClaimIsNew(s: System, p: Preparation, token: Token, now: Time, dbNow: Time, row: Job, c: Claim)
    requires Inv(s) && ClaimAttempt(s.jobs, p, token, now, dbNow) == Some((row, c))
    ensures forall v | 0 <= v < |s.slots| && s.slots[v].Calling? :: !SameAttempt(s.slots[v].claim, c)
  {
    forall v | 0 <= v < |s.slots| && s.slots[v].Calling?
      ensures !SameAttempt(s.slots[v].claim, c)
    {
      assert SlotInv(s.jobs, s.slots[v]);
    }
  }

  lemma NoNewCalls(s: System, a: Action)
    requires !a.ClaimAction?
    ensures |Step(s, a).slots| == |s.slots|
    ensures forall w | 0 <= w < |s.slots| && Step(s, a).slots[w].Calling? :: Step(s, a).slots[w] == s.slots[w]
  {
  }

  lemma DistinctCallsStep(s: System, a: Action)
    requires Inv(s) && DistinctCalls(s.slots)
    ensures DistinctCalls(Step(s, a).slots)
  {
    if a.ClaimAction? {
      if a.slot < |s.slots| && s.slots[a.slot].Holding? { DistinctAfterClaim(s, a.slot, a.token, a.now, a.dbNow); }
    } else {
      NoNewCalls(s, a);
    }
  }

  lemma DistinctAfterClaim(s: System, w: nat, token: Token, now: Time, dbNow: Time)
    requires Inv(s) && DistinctCalls(s.slots) && w < |s.slots| && s.slots[w].Holding?
    ensures DistinctCalls(ClaimStep(s, w, token, now, dbNow).slots)
  {
    var p := s.slots[w].prep;
    var claimed := ClaimAttempt(s.jobs, p, token, now, dbNow);
    if claimed.Some? { ClaimIsNew(s, p, token, now, dbNow, claimed.value.0, claimed.value.1); }
  }

  lemma {:induction false} DistinctCallsRun(s: System, actions: seq<Action>)
    requires Inv(s) && DistinctCalls(s.slots)
    ensures DistinctCalls(Run(s, actions).slots)
  {
    if actions != [] {
      var front := actions[..|actions| - 1];
      DistinctCallsRun(s, front);
      RunSafe(s, front);
      DistinctCallsStep(Run(s, front), actions[|actions| - 1]);
    }
  }

  predicate HoldsLease(s: System, w: nat) {
    && w < |s.slots| && s.slots[w].Calling?
    && s.slots[w].claim.job < |s.jobs|
    && LeaseHeld(s.jobs[s.slots[w].claim.job], s.slots[w].claim)
  }

  /**
   A worker's result is accepted iff its own attempt is still running, and at most one worker holds
   the lease of an item. This needs no assumption that lease tokens differ.
   */
  lemma LeaseIsExclusive(s: System, w: nat, outcome: Outcome, now: Time)
    requires Reachable(s) && w < |s.slots| && s.slots[w].Calling?
    ensures
      var c := s.slots[w].claim;
      && ItemExists(s, c.job, c.position)
      && c.attempt < |s.jobs[c.job].items[c.position].attempts| && c.sequence > 0
      && var failure := Decide(outcome, c.sequence, s.slots[w].correctionPrompt, s.retries);
      && (HoldsLease(s, w) <==> s.jobs[c.job].items[c.position].attempts[c.attempt].status == InFlight)
      && (HoldsLease(s, w) <==> Finish(s.jobs[c.job], c, failure, now).Some?)
      && (forall v | 0 <= v < |s.slots| && HoldsLease(s, v) && HoldsLease(s, w)
                     && s.slots[v].claim.job == c.job && s.slots[v].claim.position == c.position :: v == w)
  {
    ReachableInv(s);
    var retries: nat, slots: nat, actions: seq<Action> :| s == Run(Start(retries, slots), actions);
    StartInv(retries, slots);
    DistinctCallsRun(Start(retries, slots), actions);
    var c := s.slots[w].claim;
    assert SlotInv(s.jobs, s.slots[w]);
    var job := s.jobs[c.job];
    assert JobInv(job, s.retries);
    var it := job.items[c.position];
    if it.attempts[c.attempt].status == InFlight {
      RunningIsLast(it, c.attempt, s.retries);
      var failure := Decide(outcome, c.sequence, s.slots[w].correctionPrompt, s.retries);
      FinishFacts(job, c, failure, s.slots[w].correctionPrompt, now, s.retries, Finish(job, c, failure, now));
    }
    forall v | 0 <= v < |s.slots| && HoldsLease(s, v) && HoldsLease(s, w)
               && s.slots[v].claim.job == c.job && s.slots[v].claim.position == c.position
      ensures v == w
    {
      RunningIsLast(it, s.slots[v].claim.attempt, s.retries);
      RunningIsLast(it, c.attempt, s.retries);
      assert SameAttempt(s.slots[v].claim, c) && SameAttempt(c, s.slots[v].claim);
    }
  }

  /** Whatever happens later, attempts are only appended and a finished attempt never changes. */
  lemma HistoryIsPermanent(s: System, actions: seq<Action>, j: nat, i: nat, k: nat)
    requires Reachable(s) && ItemExists(s, j, i) && k < |s.jobs[j].items[i].attempts|
    ensures
      var t := Run(s, actions);
      && ItemExists(t, j, i) && k < |t.jobs[j].items[i].attempts|
      && var a, b := s.jobs[j].items[i].attempts[k], t.jobs[j].items[i].attempts[k];
      && SameCall(a, b)
      && (a.status != InFlight ==> a == b)
  {
    ReachableInv(s);
    RunSafe(s, actions);
    assert JobEvolves(s.jobs[j], Run(s, actions).jobs[j]);
    assert ItemEvolves(s.jobs[j].items[i], Run(s, actions).jobs[j].items[i]);
  }

  /** A worker whose call was swept can never write a result: its slot's finish leaves every job as it is. */
  lemma SweptWorkerChangesNothing(s: System, w: nat, actions: seq<Action>, outcome: Outcome, now: Time)
    requires Reachable(s) && w < |s.slots| && s.slots[w].Calling? && !HoldsLease(s, w)
    requires w < |Run(s, actions).slots| && Run(s, actions).slots[w] == s.slots[w]
    ensures Step(Run(s, actions), FinishAction(w, outcome, now)).jobs == Run(s, actions).jobs
  {
    ReachableInv(s);
    RunSafe(s, actions);
    var t := Run(s, actions);
    var c := s.slots[w].claim;
    assert SlotInv(s.jobs, s.slots[w]);
    LeaseIsExclusive(s, w, outcome, now);
    HistoryIsPermanent(s, actions, c.job, c.position, c.attempt);
  }

  // ----- jobs -----

  /**
   The status of a job that was not cancelled is decided by its items: it is open iff an item is
   queued or running; else completed iff all items are; else failed iff all items are; else needs_review.
   */
  lemma JobFollowsItems(s: System, j: nat)
    requires Reachable(s) && j < |s.jobs| && s.jobs[j].status != JobCancelled
    ensures
      var job := s.jobs[j];
      && (Open(job.status) <==> HasActive(job.items))
      && (job.status == JobCompleted <==> AllCompleted(job.items))
      && (job.status == JobFailed <==> forall i | 0 <= i < |job.items| :: job.items[i].status == Failed)
      && (job.status == JobNeedsReview <==>
            && !HasActive(job.items) && !AllCompleted(job.items)
            && (Has(job.items, NeedsReview) || Has(job.items, Completed)))
      && !Has(job.items, Cancelled)
  {
    ReachableInv(s);
    var job := s.jobs[j];
    assert JobInv(job, s.retries);
    assert ItemInv(job.items[0], s.retries);
    if job.status == JobQueued { assert job.items[0].status == Queued; }
  }

  /** Every CHECK constraint on the rows of a job holds in every state. */
  lemma RowChecksHold(s: System, j: nat)
    requires Reachable(s) && j < |s.jobs|
    ensures JobCheck(s.jobs[j]) && |s.jobs[j].items| == s.jobs[j].expectedItems
    ensures forall i | 0 <= i < |s.jobs[j].items| ::
              && ItemCheck(s.jobs[j].items[i])
              && forall k | 0 <= k < |s.jobs[j].items[i].attempts| :: AttemptCheck(s.jobs[j].items[i].attempts[k])
  {
    ReachableInv(s);
    var job := s.jobs[j];
    assert JobInv(job, s.retries);
    forall i, k | 0 <= i < |job.items| && 0 <= k < |job.items[i].attempts|
      ensures AttemptCheck(job.items[i].attempts[k])
    {
      assert ItemInv(job.items[i], s.retries);
      assert Link(job.items[i].attempts, k, s.retries);
    }
  }

  /**
   When a finish succeeds, the row triggers accept every update unchanged; with nothing left to do the job
   ends as needs_review iff some item is needs_review or completed, and as failed otherwise; never as cancelled.
   */
  lemma FinishSettlesJob(s: System, w: nat, outcome: Outcome, now: Time)
    requires Reachable(s) && HoldsLease(s, w)
    ensures
      var c := s.slots[w].claim;
      var job := s.jobs[c.job];
      && c.sequence > 0
      && var row := Finish(job, c, Decide(outcome, c.sequence, s.slots[w].correctionPrompt, s.retries), now);
      && row.Some?
      && ItemUpdateAllowed(job.items[c.position], row.value.items[c.position])
      && JobUpdate(job.status, row.value, now) == row
      && (job.status == JobCancelled <==> row.value.status == JobCancelled)
      && (job.status != JobCancelled && !HasActive(row.value.items) ==>
            row.value.status ==
              if Has(row.value.items, NeedsReview) || Has(row.value.items, Completed) then JobNeedsReview else JobFailed)
  {
    ReachableInv(s);
    var c := s.slots[w].claim;
    assert SlotInv(s.jobs, s.slots[w]);
    var job := s.jobs[c.job];
    assert JobInv(job, s.retries);
    SettledByFinish(job, c, outcome, s.slots[w].correctionPrompt, now, s.retries);
  }

  lemma SettledByFinish(job: Job, c: Claim, outcome: Outcome, correctionPrompt: bool, now: Time, R: nat)
    requires JobInv(job, R) && LeaseHeld(job, c) && 0 < c.sequence == job.items[c.position].attempts[c.attempt].sequence
    ensures
      var row := Finish(job, c, Decide(outcome, c.sequence, correctionPrompt, R), now);
      && row.Some?
      && ItemUpdateAllowed(job.items[c.position], row.value.items[c.position])
      && JobUpdate(job.status, row.value, now) == row
      && (job.status == JobCancelled <==> row.value.status == JobCancelled)
      && (job.status != JobCancelled && !HasActive(row.value.items) ==>
            row.value.status ==
              if Has(row.value.items, NeedsReview) || Has(row.value.items, Completed) then JobNeedsReview else JobFailed)
  {
    var failure := Decide(outcome, c.sequence, correctionPrompt, R);
    var it := job.items[c.position];
    FinishKeepsItem(it, c.attempt, failure, correctionPrompt, now, R);
    RunningItemsJob(job, c.position, R);
    ReconcileSettles(WithItem(job, c.position, FinishedItem(it, c.attempt, failure, now)), c.position, now, R);
  }

  /** After a cancellation the provider is never called for that job again, in any continuation. */
  lemma CancelledJobsAreNotBilled(s: System, actions: seq<Action>, j: nat)
    requires Reachable(s) && j < |s.jobs| && s.jobs[j].status == JobCancelled
    ensures
      var t := Run(s, actions);
      && j < |t.jobs| && t.jobs[j].status == JobCancelled && |t.jobs[j].items| == |s.jobs[j].items|
      && forall i | 0 <= i < |s.jobs[j].items| ::
           |t.jobs[j].items[i].attempts| == |s.jobs[j].items[i].attempts|
  {
    ReachableInv(s);
    RunSafe(s, actions);
    assert JobEvolves(s.jobs[j], Run(s, actions).jobs[j]);
  }

  /** state_version is a change counter: any change of a job, its items or attempts raises it. */
  lemma StateVersionDetectsChange(s: System, actions: seq<Action>, j: nat)
    requires Reachable(s) && j < |s.jobs|
    ensures j < |Run(s, actions).jobs|
    ensures Run(s, actions).jobs[j] == s.jobs[j] <==> Run(s, actions).jobs[j].stateVersion == s.jobs[j].stateVersion
  {
    ReachableInv(s);
    RunSafe(s, actions);
    assert JobEvolves(s.jobs[j], Run(s, actions).jobs[j]);
  }

  // ----- providers -----

  /** The items that wait for an answer of provider p. */
  ghost function RunningItems(jobs: seq<Job>, p: nat): set<(nat, nat)> {
    set j: nat, i: nat | j < |jobs| && i < |jobs[j].items| && jobs[j].provider == p && jobs[j].items[i].status == Running
      :: (j, i)
  }

  ghost function RunningOfJob(items: seq<Item>, j: nat): set<(nat, nat)> {
    set i: nat | i < |items| && items[i].status == Running :: (j, i)
  }

  lemma {:induction false} RunningOfJobCount(items: seq<Item>, j: nat, R: nat)
    requires forall i | 0 <= i < |items| :: ItemInv(items[i], R)
    ensures |RunningOfJob(items, j)| == RunningOfItems(items)
  {
    if items == [] {
      assert RunningOfJob(items, j) == {};
    } else {
      var n: nat := |items| - 1;
      var front := items[..n];
      RunningOfJobCount(front, j, R);
      RunningAttemptsOf(items[n], R);
      OneMoreItem(items, j, n);
    }
  }

  lemma OneMoreItem(items: seq<Item>, j: nat, n: nat)
    requires |items| == n + 1
    ensures |RunningOfJob(items, j)| == |RunningOfJob(items[..n], j)| + (if items[n].status == Running then 1 else 0)
  {
    var front, all, c := RunningOfJob(items[..n], j), RunningOfJob(items, j), (j, n);
    forall d | d in all ensures d in front || (d == c && items[n].status == Running) {
      assert d.1 < n ==> items[..n][d.1] == items[d.1];
    }
    if items[n].status == Running {
      assert all == front + {c};
    } else {
      assert all == front;
    }
  }

  /** What the join counts: one running attempt for every running item. */
  lemma {:induction false} RunningCount(jobs: seq<Job>, p: nat, R: nat)
    requires forall j | 0 <= j < |jobs| :: JobInv(jobs[j], R)
    ensures |RunningItems(jobs, p)| == RunningOfProvider(jobs, p)
  {
    if jobs == [] {
      assert RunningItems(jobs, p) == {};
    } else {
      var n: nat := |jobs| - 1;
      var front := jobs[..n];
      RunningCount(front, p, R);
      RunningOfJobCount(jobs[n].items, n, R);
      OneMoreJob(jobs, p, n);
    }
  }

  lemma OneMoreJob(jobs: seq<Job>, p: nat, n: nat)
    requires |jobs| == n + 1
    ensures |RunningItems(jobs, p)|
            == |RunningItems(jobs[..n], p)| + (if jobs[n].provider == p then |RunningOfJob(jobs[n].items, n)| else 0)
  {
    var front, all, last := RunningItems(jobs[..n], p), RunningItems(jobs, p), RunningOfJob(jobs[n].items, n);
    forall d | d in all ensures d in front || (d in last && jobs[n].provider == p) {
      assert d.0 < n ==> jobs[..n][d.0] == jobs[d.0];
    }
    if jobs[n].provider == p {
      assert all == front + last;
      assert front !! last;
    } else {
      assert all == front;
    }
  }

  lemma {:induction false} LargestIsSnapshot(jobs: seq<Job>, p: nat)
    ensures LargestSnapshot(jobs, p) > 0 ==>
              exists j | 0 <= j < |jobs| :: jobs[j].provider == p && jobs[j].maxConcurrency == LargestSnapshot(jobs, p)
  {
    if jobs != [] {
      var n: nat := |jobs| - 1;
      LargestIsSnapshot(jobs[..n], p);
      if LargestSnapshot(jobs[..n], p) > 0 {
        var j :| 0 <= j < n && jobs[..n][j].provider == p && jobs[..n][j].maxConcurrency == LargestSnapshot(jobs[..n], p);
        assert jobs[j].provider == p && jobs[j].maxConcurrency == LargestSnapshot(jobs[..n], p);
      }
      assert jobs[n].provider == p ==> jobs[n].maxConcurrency <= LargestSnapshot(jobs, p);
    }
  }

  /**
   Running calls of a provider never exceed the largest concurrency that one of its jobs was created with: when
   any item is running, some job of the provider allows that many.
   */
  lemma ProviderConcurrency(s: System, p: nat)
    requires Reachable(s)
    ensures RunningOfProvider(s.jobs, p) == |RunningItems(s.jobs, p)| <= LargestSnapshot(s.jobs, p)
    ensures RunningItems(s.jobs, p) != {} ==>
              exists j | 0 <= j < |s.jobs| ::
                s.jobs[j].provider == p && |RunningItems(s.jobs, p)| <= s.jobs[j].maxConcurrency
  {
    ReachableInv(s);
    RunningCount(s.jobs, p, s.retries);
    LargestIsSnapshot(s.jobs, p);
  }

  /** An enabled provider has exactly the columns that a successful connection test used. */
  lemma EnabledMeansTested(s: System, p: nat)
    requires Reachable(s) && p < |s.providers| && s.providers[p].status == PC.Enabled
    ensures (p, s.providers[p].fields) in s.tested
  {
    ReachableInv(s);
    assert ProviderInv(s.providers[p], p, s.tested);
  }

  /** Equal config_version means equal columns, for ever: versions are never reused. */
  lemma NoVersionReuse(s: System, actions: seq<Action>, p: nat)
    requires Reachable(s) && p < |s.providers|
    ensures p < |Run(s, actions).providers|
    ensures s.providers[p].configVersion <= Run(s, actions).providers[p].configVersion
    ensures Run(s, actions).providers[p].configVersion == s.providers[p].configVersion ==>
              Run(s, actions).providers[p].fields == s.providers[p].fields
  {
    ReachableInv(s);
    RunSafe(s, actions);
    assert PC.Evolves(s.providers[p], Run(s, actions).providers[p]);
  }

  /**
   A job runs on the configuration it was created with: from the state in which it was open, whenever it is
   open again its provider row has the same tested columns, key included, so preparing it cannot fail on them.
   */
  lemma OpenJobKeepsConfiguration(s: System, actions: seq<Action>, j: nat)
    requires Reachable(s) && j < |s.jobs| && Open(s.jobs[j].status)
    ensures
      var t := Run(s, actions);
      var p := s.jobs[j].provider;
      && j < |t.jobs| && p < |s.providers| && p < |t.providers|
      && s.providers[p].fields.encryptedKey.Some?
      && (Open(t.jobs[j].status) ==>
            t.providers[p].configVersion == t.jobs[j].configVersion && t.providers[p].fields == s.providers[p].fields)
  {
    ReachableInv(s);
    RunSafe(s, actions);
    var t := Run(s, actions);
    assert JobProviderInv(s.providers, s.jobs[j]);
    assert JobEvolves(s.jobs[j], t.jobs[j]);
    assert JobProviderInv(t.providers, t.jobs[j]);
    NoVersionReuse(s, actions, s.jobs[j].provider);
  }

  // ----- retry limits -----

  /**
   Under any interleaving the calls of a round number R + 1 and one more per correction requested after
   the R retries; a call is beyond the limit of R + 2 iff two such corrections of its round precede it.
   */
  lemma CallsPerRound(s: System, j: nat, i: nat, k: nat)
    requires Reachable(s) && ItemExists(s, j, i) && k < |s.jobs[j].items[i].attempts|
    ensures
      var h := s.jobs[j].items[i].attempts;
      var late := LateCorrections(h[..k], h[k].round, s.retries);
      && (if h[k].sequence <= s.retries + 1 then late == 0 else h[k].sequence == s.retries + 1 + late)
      && (h[k].sequence > s.retries + 2 <==> late >= 2)
  {
    ReachableInv(s);
    assert JobInv(s.jobs[j], s.retries);
    var h := s.jobs[j].items[i].attempts;
    ChainPrefix(h, k + 1, s.retries);
    CallsOfRound(h[..k + 1], s.retries);
    assert h[..k + 1][..k] == h[..k];
  }

  /** Provider errors alone never exceed their limit: whatever the interleaving, a round is granted at most R retries. */
  lemma ProviderRetriesPerRound(s: System, j: nat, i: nat, round: nat)
    requires Reachable(s) && ItemExists(s, j, i)
    ensures ProviderRetries(s.jobs[j].items[i].attempts, round, s.retries) <= s.retries
  {
    ReachableInv(s);
    assert JobInv(s.jobs[j], s.retries);
    ProviderRetryBound(s.jobs[j].items[i].attempts, round, s.retries);
  }

  /**
   In every run whose claims use fresh preparations: at most R + 2 calls a round, of which at most R are
   automatic retries and at most one a correction; parents form one chain and the kind follows from the position.
   */
  lemma FreshRunLimits(retries: nat, slots: nat, actions: seq<Action>, j: nat, i: nat, k: nat, round: nat)
    requires FreshRun(Start(retries, slots), actions)
    requires
      var s := Run(Start(retries, slots), actions);
      ItemExists(s, j, i) && k < |s.jobs[j].items[i].attempts|
    ensures
      var h := Run(Start(retries, slots), actions).jobs[j].items[i].attempts;
      && h[k].sequence <= retries + 2
      && CountKind(h, round, AutomaticRetry) <= retries
      && CountKind(h, round, Correction) <= 1
      && h[k].parent == (if k == 0 then None else Some(k - 1))
      && (h[k].kind == Initial <==> k == 0)
      && (h[k].kind == ManualRetry <==> k > 0 && h[k].sequence == 1)
      && (h[k].kind == Correction <==>
            k > 0 && h[k].sequence > 1 && h[k - 1].errorCode == Some(CorrectionRequired))
  {
    StartInv(retries, slots);
    var s := Run(Start(retries, slots), actions);
    RunSafe(Start(retries, slots), actions);
    FreshRunKept(Start(retries, slots), actions);
    assert JobInv(s.jobs[j], s.retries) && FreshItems(s.jobs[j]);
    var h := s.jobs[j].items[i].attempts;
    FreshCallBound(h, k, retries);
    RetryLimits(h, round, retries);
    FreshShape(h, k, retries);
  }

  /** The deployed worker has one slot, so its runs meet the limits unconditionally. */
  lemma SingleSlotLimits(retries: nat, actions: seq<Action>, j: nat, i: nat, k: nat, round: nat)
    requires
      var s := Run(Start(retries, 1), actions);
      ItemExists(s, j, i) && k < |s.jobs[j].items[i].attempts|
    ensures
      var h := Run(Start(retries, 1), actions).jobs[j].items[i].attempts;
      && h[k].sequence <= retries + 2
      && CountKind(h, round, AutomaticRetry) <= retries
      && CountKind(h, round, Correction) <= 1
  {
    StartInv(retries, 1);
    SingleSlotRunsAreFresh(Start(retries, 1), actions);
    FreshRunLimits(retries, 1, actions, j, i, k, round);
  }
}
