/**
 What no transaction ever undoes: attempts are only appended, a finished attempt is frozen,
 versions only grow, and a cancelled job stays cancelled without another call.
 */
module GradingEvolution {
  import opened Wrappers
  import opened GradingRows
  import opened AttemptHistory
  import opened GradingTransitions
  import opened GradingInvariants
  import opened GradingSystem
  import PC = ProviderConfigs

  predicate ItemEvolves(a: Item, b: Item) {
    && a.dispatch <= b.dispatch
    && |a.attempts| <= |b.attempts|
    && forall k | 0 <= k < |a.attempts| ::
         && SameCall(a.attempts[k], b.attempts[k])
         && (a.attempts[k].status != InFlight ==> b.attempts[k] == a.attempts[k])
         && (b.attempts[k].status == InFlight ==> b.token == a.token)
  }

  predicate JobEvolves(a: Job, b: Job) {
    && b.provider == a.provider && b.configVersion == a.configVersion
    && b.maxConcurrency == a.maxConcurrency && b.timeoutMs == a.timeoutMs
    && b.expectedItems == a.expectedItems && |b.items| == |a.items|
    && a.stateVersion <= b.stateVersion
    && (a != b ==> a.stateVersion < b.stateVersion)
    && (forall i | 0 <= i < |a.items| :: ItemEvolves(a.items[i], b.items[i]))
    && (a.status == JobCancelled ==>
          && b.status == JobCancelled
          && forall i | 0 <= i < |a.items| ::
               |b.items[i].attempts| == |a.items[i].attempts| && b.items[i].dispatch == a.items[i].dispatch)
  }

  predicate SystemEvolves(a: System, b: System) {
    && a.retries == b.retries
    && |a.slots| == |b.slots|
    && |a.providers| <= |b.providers|
    && |a.jobs| <= |b.jobs|
    && (forall p | 0 <= p < |a.providers| :: PC.Evolves(a.providers[p], b.providers[p]))
    && (forall j | 0 <= j < |a.jobs| :: JobEvolves(a.jobs[j], b.jobs[j]))
  }

  lemma ItemEvolvesTransitive(a: Item, b: Item, c: Item)
    requires ItemEvolves(a, b) && ItemEvolves(b, c)
    ensures ItemEvolves(a, c)
  {
  }

  lemma JobEvolvesTransitive(a: Job, b: Job, c: Job)
    requires JobEvolves(a, b) && JobEvolves(b, c)
    ensures JobEvolves(a, c)
  {
    forall i | 0 <= i < |a.items| ensures ItemEvolves(a.items[i], c.items[i]) {
      ItemEvolvesTransitive(a.items[i], b.items[i], c.items[i]);
    }
  }

  lemma SystemEvolvesTransitive(a: System, b: System, c: System)
    requires SystemEvolves(a, b) && SystemEvolves(b, c)
    ensures SystemEvolves(a, c)
  {
    forall j | 0 <= j < |a.jobs| ensures JobEvolves(a.jobs[j], c.jobs[j]) {
      JobEvolvesTransitive(a.jobs[j], b.jobs[j], c.jobs[j]);
    }
  }

  // ----- each job transaction -----

  lemma ClaimEvolves(job: Job, p: Preparation, token: Token, now: Time, dbNow: Time, R: nat)
    requires JobInv(job, R) && ClaimOn(job, p, token, now, dbNow).Some?
    ensures JobEvolves(job, ClaimOn(job, p, token, now, dbNow).value.0)
  {
    ClaimKeepsJob(job, p, token, now, dbNow, R);
    var it := job.items[p.position];
    forall k | 0 <= k < |it.attempts| ensures it.attempts[k].status != InFlight {
      if it.attempts[k].status == InFlight { RunningIsLast(it, k, R); }
    }
  }

  lemma EarlierAttemptsFinished(it: Item, R: nat)
    requires ItemInv(it, R)
    ensures forall k | 0 <= k < |it.attempts| - 1 :: it.attempts[k].status != InFlight
  {
    forall k | 0 <= k < |it.attempts| - 1 ensures it.attempts[k].status != InFlight {
      assert Link(it.attempts, k + 1, R);
    }
  }

  /** Reconciling touches the status, its timestamp and the version only. */
  lemma ReconcileShape(job: Job, now: Time)
    requires Reconcile(job, now).Some?
    ensures
      var row := Reconcile(job, now).value;
      && row.provider == job.provider && row.configVersion == job.configVersion
      && row.maxConcurrency == job.maxConcurrency && row.timeoutMs == job.timeoutMs
      && row.expectedItems == job.expectedItems && row.items == job.items
      && row.stateVersion == job.stateVersion + 1
      && (job.status == JobCancelled ==> row.status == JobCancelled)
  {
  }

  /** An item whose last call was finished. */
  lemma LastCallFinished(it: Item, row: Item, a: Attempt, R: nat)
    requires ItemInv(it, R) && it.attempts != [] && SameCall(it.attempts[|it.attempts| - 1], a)
    requires it.attempts[|it.attempts| - 1].status == InFlight && a.status != InFlight
    requires row.attempts == it.attempts[|it.attempts| - 1 := a] && row.dispatch == it.dispatch
    ensures ItemEvolves(it, row)
  {
    EarlierAttemptsFinished(it, R);
  }

  /** A job in which one item evolved and that was then reconciled. */
  lemma ReconciledEvolves(job: Job, position: nat, row: Item, now: Time)
    requires position < |job.items| && ItemEvolves(job.items[position], row)
    requires |row.attempts| == |job.items[position].attempts| && row.dispatch == job.items[position].dispatch
    requires Reconcile(WithItem(job, position, row), now).Some?
    ensures JobEvolves(job, Reconcile(WithItem(job, position, row), now).value)
  {
    ReconcileShape(WithItem(job, position, row), now);
    forall it: Item ensures ItemEvolves(it, it) {
    }
  }

  lemma FinishEvolves(job: Job, c: Claim, failure: Option<Failure>, correctionPrompt: bool, now: Time, R: nat)
    requires JobInv(job, R) && LeaseHeld(job, c)
    requires FromRunner(failure, job.items[c.position].attempts[c.attempt].sequence, correctionPrompt, R)
    ensures Finish(job, c, failure, now).Some? && JobEvolves(job, Finish(job, c, failure, now).value)
  {
    FinishKeepsJob(job, c, failure, correctionPrompt, now, R);
    var it := job.items[c.position];
    var row := FinishedItem(it, c.attempt, failure, now);
    RunningIsLast(it, c.attempt, R);
    LastCallFinished(it, row, row.attempts[c.attempt], R);
    ReconciledEvolves(job, c.position, row, now);
  }

  lemma SweepEvolves(job: Job, position: nat, now: Time, dbNow: Time, R: nat)
    requires JobInv(job, R) && position < |job.items| && LeaseExpiredAt(job.items[position], dbNow)
    ensures SweepItem(job, position, now, dbNow).Swept? && JobEvolves(job, SweepItem(job, position, now, dbNow).job)
  {
    SweepKeepsJob(job, position, now, dbNow, R);
    var it := job.items[position];
    RunningAttemptIsLast(it, R);
    var row := ExpiredItem(it, |it.attempts| - 1, now);
    LastCallFinished(it, row, row.attempts[|it.attempts| - 1], R);
    ReconciledEvolves(job, position, row, now);
  }

  /** What a control action leaves alone, read off the statement itself. */
  lemma ControlShape(job: Job, action: Control, versionMatches: bool, now: Time)
    requires ControlJob(job, action, versionMatches, now).Some?
    ensures
      var row := ControlJob(job, action, versionMatches, now).value;
      && row.provider == job.provider && row.configVersion == job.configVersion
      && row.maxConcurrency == job.maxConcurrency && row.timeoutMs == job.timeoutMs
      && row.expectedItems == job.expectedItems && |row.items| == |job.items|
      && row.stateVersion == job.stateVersion + 1
      && job.status != JobCancelled
      && forall i | 0 <= i < |job.items| ::
           || row.items[i] == job.items[i]
           || row.items[i] == CancelledItem(job.items[i], now)
           || (job.items[i].status in {NeedsReview, Failed} && row.items[i] == RequeuedItem(job.items[i], now))
  {
  }

  lemma TeacherEvolves(it: Item, now: Time, R: nat)
    requires ItemInv(it, R)
    ensures ItemEvolves(it, it) && ItemEvolves(it, CancelledItem(it, now))
    ensures it.status in {NeedsReview, Failed} ==> ItemEvolves(it, RequeuedItem(it, now))
  {
    EarlierAttemptsFinished(it, R);
  }

  lemma ControlEvolves(job: Job, action: Control, versionMatches: bool, now: Time, R: nat)
    requires forall i | 0 <= i < |job.items| :: ItemInv(job.items[i], R)
    requires ControlJob(job, action, versionMatches, now).Some?
    ensures JobEvolves(job, ControlJob(job, action, versionMatches, now).value)
  {
    ControlShape(job, action, versionMatches, now);
    var row := ControlJob(job, action, versionMatches, now).value;
    forall i | 0 <= i < |job.items| ensures ItemEvolves(job.items[i], row.items[i]) {
      TeacherEvolves(job.items[i], now, R);
    }
  }

  /** The row triggers may change the status of a job, nothing else that matters here. */
  lemma JobUpdateShape(oldStatus: JobStatus, job: Job, now: Time)
    requires JobUpdate(oldStatus, job, now).Some? && job.status in {JobCompleted, JobNeedsReview}
    ensures
      var row := JobUpdate(oldStatus, job, now).value;
      && row.provider == job.provider && row.configVersion == job.configVersion
      && row.maxConcurrency == job.maxConcurrency && row.timeoutMs == job.timeoutMs
      && row.expectedItems == job.expectedItems && row.items == job.items
      && row.stateVersion == job.stateVersion && oldStatus != JobCancelled
  {
  }

  /** A confirmation writes the row of one of two statuses, or nothing. */
  lemma ConfirmCases(job: Job, positions: set<nat>, now: Time)
    requires ConfirmReviews(job, positions, now).Some?
    ensures
      var row := job.(items := ConfirmAt(job.items, positions, now), stateVersion := job.stateVersion + 1);
      var result := ConfirmReviews(job, positions, now);
      || result == Some(job)
      || result == JobUpdate(job.status, row.(status := JobCompleted, finishedAt := Some(now)), now)
      || result == JobUpdate(job.status, row.(status := JobNeedsReview, finishedAt := None), now)
  {
  }

  lemma ConfirmedShape(job: Job, positions: set<nat>, now: Time)
    requires ConfirmReviews(job, positions, now).Some?
    ensures
      var row := ConfirmReviews(job, positions, now).value;
      row == job
      || (&& row.provider == job.provider && row.configVersion == job.configVersion
          && row.maxConcurrency == job.maxConcurrency && row.timeoutMs == job.timeoutMs
          && row.expectedItems == job.expectedItems && row.items == ConfirmAt(job.items, positions, now)
          && row.stateVersion == job.stateVersion + 1
          && job.status != JobCancelled)
  {
    ConfirmCases(job, positions, now);
    var row := job.(items := ConfirmAt(job.items, positions, now), stateVersion := job.stateVersion + 1);
    var completed := row.(status := JobCompleted, finishedAt := Some(now));
    var reviewed := row.(status := JobNeedsReview, finishedAt := None);
    if ConfirmReviews(job, positions, now) == JobUpdate(job.status, completed, now) {
      JobUpdateShape(job.status, completed, now);
    } else if ConfirmReviews(job, positions, now) == JobUpdate(job.status, reviewed, now) {
      JobUpdateShape(job.status, reviewed, now);
    }
  }

  lemma ConfirmEvolves(job: Job, positions: set<nat>, now: Time)
    requires ConfirmReviews(job, positions, now).Some?
    ensures JobEvolves(job, ConfirmReviews(job, positions, now).value)
  {
    ConfirmedShape(job, positions, now);
    var row := ConfirmReviews(job, positions, now).value;
    forall i | 0 <= i < |job.items| ensures ItemEvolves(job.items[i], row.items[i]) {
    }
  }

  // ----- counting running attempts -----

  lemma {:induction false} RunningAttemptsOf(it: Item, R: nat)
    requires ItemInv(it, R)
    ensures RunningAttempts(it.attempts) == if it.status == Running then 1 else 0
  {
    EarlierAttemptsFinished(it, R);
    if it.attempts != [] {
      NoneRunning(it.attempts[..|it.attempts| - 1]);
    }
  }

  lemma {:induction false} NoneRunning(h: seq<Attempt>)
    requires forall k | 0 <= k < |h| :: h[k].status != InFlight
    ensures RunningAttempts(h) == 0
  {
    if h != [] {
      NoneRunning(h[..|h| - 1]);
    }
  }

  lemma {:induction false} RunningOfItemsUpdate(items: seq<Item>, i: nat, it: Item)
    requires i < |items|
    ensures RunningOfItems(items[i := it]) + RunningAttempts(items[i].attempts)
         == RunningOfItems(items) + RunningAttempts(it.attempts)
  {
    var n := |items| - 1;
    if i == n {
      assert items[i := it][..n] == items[..n];
    } else {
      assert items[i := it][..n] == items[..n][i := it];
      RunningOfItemsUpdate(items[..n], i, it);
    }
  }

  lemma {:induction false} RunningOfItemsPointwise(a: seq<Item>, b: seq<Item>)
    requires |a| == |b| && forall i | 0 <= i < |a| :: b[i].attempts == a[i].attempts
    ensures RunningOfItems(a) == RunningOfItems(b)
  {
    if a != [] {
      RunningOfItemsPointwise(a[..|a| - 1], b[..|b| - 1]);
    }
  }

  lemma {:induction false} RunningOfProviderUpdate(jobs: seq<Job>, j: nat, job: Job, p: nat)
    requires j < |jobs| && job.provider == jobs[j].provider && job.maxConcurrency == jobs[j].maxConcurrency
    ensures RunningOfProvider(jobs[j := job], p) + (if job.provider == p then RunningOfItems(jobs[j].items) else 0)
         == RunningOfProvider(jobs, p) + (if job.provider == p then RunningOfItems(job.items) else 0)
    ensures LargestSnapshot(jobs[j := job], p) == LargestSnapshot(jobs, p)
  {
    var n := |jobs| - 1;
    if j == n {
      assert jobs[j := job][..n] == jobs[..n];
    } else {
      assert jobs[j := job][..n] == jobs[..n][j := job];
      RunningOfProviderUpdate(jobs[..n], j, job, p);
    }
  }

  lemma {:induction false} LargestSnapshotBound(jobs: seq<Job>, j: nat)
    requires j < |jobs|
    ensures jobs[j].maxConcurrency <= LargestSnapshot(jobs, jobs[j].provider)
  {
    if j < |jobs| - 1 {
      LargestSnapshotBound(jobs[..|jobs| - 1], j);
    }
  }
}
