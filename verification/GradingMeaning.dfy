/**
 The meaning of every step in every reachable state: when it does something, what it writes, and
 that it writes nothing else.
 */
module GradingMeaning {
  import opened Wrappers
  import opened GradingRows
  import opened AttemptHistory
  import opened GradingTransitions
  import opened GradingInvariants
  import opened GradingSystem
  import opened GradingEvolution
  import opened GradingSafety
  import opened GradingEffects
  import opened GradingTheorems
  import PC = ProviderConfigs

  // ----- the worker -----

  /** An idle slot takes a message iff its work is due; no other condition can fail for an open job. */
  lemma PrepareMeaning(s: System, w: nat, j: nat, position: nat, dispatch: nat, dbNow: Time)
    requires Reachable(s) && w < |s.slots| && s.slots[w].Idle? && j < |s.jobs|
    ensures
      var t := Step(s, PrepareAction(w, j, position, dispatch, dbNow));
      if !Due(s.jobs[j], position, dispatch, dbNow) then t == s
      else
        && |t.slots| == |s.slots| && t.slots[w].Holding? && t == s.(slots := s.slots[w := t.slots[w]])
        && var p := t.slots[w].prep;
        && p == Preparation(j, position, dispatch, s.jobs[j].provider, s.jobs[j].maxConcurrency, s.jobs[j].timeoutMs, p.plan)
        && PlanFits(p.plan, s.jobs[j].items[position].attempts, dispatch)
  {
    ReachableInv(s);
    assert JobProviderInv(s.providers, s.jobs[j]);
    if position < |s.jobs[j].items| {
      PlanNextFits(s.jobs[j].items[position].attempts, dispatch);
    }
  }

  /** A prepared slot gets its lease iff the work is still due and the provider has a free call; otherwise it gives up. */
  lemma ClaimMeaning(s: System, w: nat, token: Token, now: Time, dbNow: Time)
    requires Reachable(s) && w < |s.slots| && s.slots[w].Holding?
    ensures s.slots[w].prep.job < |s.jobs|
    ensures
      var t := Step(s, ClaimAction(w, token, now, dbNow));
      var p := s.slots[w].prep;
      if Due(s.jobs[p.job], p.position, p.dispatch, dbNow) && RunningOfProvider(s.jobs, p.provider) < p.maxConcurrency then
        && |t.slots| == |s.slots| && t.slots[w].Calling? && |t.jobs| == |s.jobs|
        && var c := t.slots[w].claim;
        && c.token == token && t.slots[w].correctionPrompt == p.plan.correctionPrompt
        && t == s.(jobs := s.jobs[p.job := t.jobs[p.job]], slots := s.slots[w := t.slots[w]])
        && ClaimWritten(s.jobs[p.job], t.jobs[p.job], p, c, now)
        && HoldsLease(t, w)
      else t == s.(slots := s.slots[w := Idle])
  {
    ReachableInv(s);
    assert SlotInv(s.jobs, s.slots[w]);
    var p := s.slots[w].prep;
    assert JobInv(s.jobs[p.job], s.retries);
    ClaimWrites(s.jobs[p.job], p, token, now, dbNow, s.retries);
  }

  /**
   A calling slot becomes idle whatever came back. If its attempt still runs, the rows of its item and job are
   written as the outcome demands, and otherwise nothing is.
   */
  lemma FinishMeaning(s: System, w: nat, outcome: Outcome, now: Time)
    requires Reachable(s) && w < |s.slots| && s.slots[w].Calling?
    ensures ItemExists(s, s.slots[w].claim.job, s.slots[w].claim.position)
    ensures
      var t := Step(s, FinishAction(w, outcome, now));
      var c := s.slots[w].claim;
      if Leased(s.jobs, c) then
        && |t.jobs| == |s.jobs|
        && t == s.(jobs := s.jobs[c.job := t.jobs[c.job]], slots := s.slots[w := Idle])
        && Concluded(s.jobs[c.job], t.jobs[c.job], c, outcome, s.slots[w].correctionPrompt, s.retries, now)
      else t == s.(slots := s.slots[w := Idle])
  {
    ReachableInv(s);
    assert SlotInv(s.jobs, s.slots[w]);
    var c := s.slots[w].claim;
    assert JobInv(s.jobs[c.job], s.retries);
    FinishWrites(s.jobs[c.job], c, outcome, s.slots[w].correctionPrompt, now, s.retries);
  }

  /** The sweeper expires exactly the items that are running under a lease that is over. */
  lemma SweepMeaning(s: System, j: nat, position: nat, now: Time, dbNow: Time)
    requires Reachable(s) && j < |s.jobs|
    ensures
      var t := Step(s, SweepAction(j, position, now, dbNow));
      if position < |s.jobs[j].items| && LeaseOver(s.jobs[j].items[position], dbNow) then
        && |t.jobs| == |s.jobs| && t == s.(jobs := s.jobs[j := t.jobs[j]])
        && Expired(s.jobs[j], t.jobs[j], position, now)
      else t == s
  {
    ReachableInv(s);
    assert JobInv(s.jobs[j], s.retries);
    SweepWrites(s.jobs[j], position, now, dbNow, s.retries);
    if position < |s.jobs[j].items| {
      assert ItemInv(s.jobs[j].items[position], s.retries);
    }
  }

  // ----- the teacher -----

  /** A job is created iff the provider is enabled, and it starts with every item queued in its first round. */
  lemma CreateJobMeaning(s: System, p: nat, count: nat, now: Time)
    requires Reachable(s) && p < |s.providers|
    ensures
      var t := Step(s, CreateJob(p, count, now));
      var row := s.providers[p];
      if row.status == PC.Enabled && 1 <= count <= 100 then
        && |t.jobs| == |s.jobs| + 1 && t == s.(jobs := s.jobs + [t.jobs[|s.jobs|]])
        && var job := t.jobs[|s.jobs|];
        && job == Job(p, row.configVersion, row.maxConcurrency, row.fields.timeoutMs, count, JobQueued, 1, None, None, job.items)
        && |job.items| == count
        && forall i | 0 <= i < count ::
             job.items[i] == Item(Queued, 1, 0, now, None, None, None, None, None, false, [])
      else t == s
  {
    ReachableInv(s);
    assert ProviderInv(s.providers[p], p, s.tested);
  }

  /** Pausing takes a queued or running job, resuming exactly a paused one; a start is recorded once. */
  lemma PauseResumeMeaning(s: System, j: nat, now: Time)
    requires Reachable(s) && j < |s.jobs|
    ensures
      var job := s.jobs[j];
      Step(s, ControlAction(j, Pause, now)) ==
        if job.status == JobQueued || job.status == JobRunning then
          s.(jobs := s.jobs[j := job.(
            status := JobPaused, startedAt := if job.status == JobQueued then Some(now) else job.startedAt,
            stateVersion := job.stateVersion + 1)])
        else s
    ensures
      var job := s.jobs[j];
      Step(s, ControlAction(j, Resume, now)) ==
        if job.status == JobPaused then
          s.(jobs := s.jobs[j := job.(status := JobRunning, stateVersion := job.stateVersion + 1)])
        else s
  {
    ReachableInv(s);
    assert JobInv(s.jobs[j], s.retries);
    PauseWrites(s.jobs[j], VersionMatches(s.providers, s.jobs[j]), now);
    ResumeWrites(s.jobs[j], VersionMatches(s.providers, s.jobs[j]), now);
  }

  /** Cancelling takes an open job; its queued items are cancelled with it, and calls in flight are not touched. */
  lemma CancelMeaning(s: System, j: nat, now: Time)
    requires Reachable(s) && j < |s.jobs|
    ensures
      var t := Step(s, ControlAction(j, Cancel, now));
      var job := s.jobs[j];
      if job.status !in {JobQueued, JobRunning, JobPaused} then t == s
      else
        && |t.jobs| == |s.jobs| && t == s.(jobs := s.jobs[j := t.jobs[j]])
        && t.jobs[j] == job.(
             status := JobCancelled, startedAt := if job.status == JobQueued then Some(now) else job.startedAt,
             finishedAt := Some(now), stateVersion := job.stateVersion + 1, items := t.jobs[j].items)
        && |t.jobs[j].items| == |job.items|
        && forall i | 0 <= i < |job.items| ::
             t.jobs[j].items[i] ==
               if job.items[i].status == Queued then job.items[i].(status := Cancelled, finishedAt := Some(now))
               else job.items[i]
  {
    ReachableInv(s);
    assert JobInv(s.jobs[j], s.retries);
    CancelWrites(s.jobs[j], VersionMatches(s.providers, s.jobs[j]), now);
  }

  /**
   A retry takes an item that waits for review or failed, of a job that was not cancelled and whose provider has not
   changed: the item is queued for its next round and the job runs, whether it was paused, finished or running.
   */
  lemma RetryMeaning(s: System, j: nat, position: nat, now: Time)
    requires Reachable(s) && j < |s.jobs|
    ensures s.jobs[j].provider < |s.providers|
    ensures
      var t := Step(s, ControlAction(j, RetryItem(position), now));
      var job := s.jobs[j];
      if job.status != JobCancelled && s.providers[job.provider].configVersion == job.configVersion
         && position < |job.items| && job.items[position].status in {NeedsReview, Failed}
      then
        && |t.jobs| == |s.jobs| && t == s.(jobs := s.jobs[j := t.jobs[j]])
        && var it := job.items[position];
        && t.jobs[j] == job.(
             status := JobRunning, startedAt := t.jobs[j].startedAt, finishedAt := None,
             stateVersion := job.stateVersion + 1,
             items := job.items[position := Item(Queued, it.dispatch + 1, 0, now, None, None, None, None, None, false,
                                                 it.attempts)])
        && t.jobs[j].startedAt == (if job.startedAt.Some? then job.startedAt else Some(now))
      else t == s
  {
    ReachableInv(s);
    assert JobInv(s.jobs[j], s.retries) && JobProviderInv(s.providers, s.jobs[j]);
    RetryWrites(s.jobs[j], position, VersionMatches(s.providers, s.jobs[j]), now);
  }

  /**
   A confirmation completes exactly the items it names, when each of them holds a successful call of its current
   round and the job was not cancelled; the job then follows its items. Otherwise nothing changes.
   */
  lemma ConfirmMeaning(s: System, j: nat, positions: set<nat>, now: Time)
    requires Reachable(s) && j < |s.jobs|
    ensures
      var t := Step(s, ConfirmAction(j, positions, now));
      if positions != {} && s.jobs[j].status != JobCancelled
         && forall p | p in positions :: p < |s.jobs[j].items| && Reviewable(s.jobs[j].items[p])
      then
        && |t.jobs| == |s.jobs| && t == s.(jobs := s.jobs[j := t.jobs[j]])
        && Confirmed(s.jobs[j], t.jobs[j], positions, now)
      else t == s
  {
    ReachableInv(s);
    assert JobInv(s.jobs[j], s.retries);
    var row := ConfirmReviews(s.jobs[j], positions, now);
    ConfirmOutcome(s.jobs[j], positions, now, s.retries, row);
    ConfirmIsSet(s, j, positions, now, row);
  }

  lemma ConfirmIsSet(s: System, j: nat, positions: set<nat>, now: Time, row: Option<Job>)
    requires j < |s.jobs| && row == ConfirmReviews(s.jobs[j], positions, now)
    ensures Step(s, ConfirmAction(j, positions, now)) == SetJob(s, j, row)
    ensures row.None? || row.value == s.jobs[j] ==> SetJob(s, j, row) == s
  {
    assert s.jobs[j := s.jobs[j]] == s.jobs;
  }

  lemma ConfirmOutcome(job: Job, positions: set<nat>, now: Time, R: nat, row: Option<Job>)
    requires JobInv(job, R) && row == ConfirmReviews(job, positions, now)
    ensures
      if positions != {} && job.status != JobCancelled
         && forall p | p in positions :: p < |job.items| && Reviewable(job.items[p])
      then row.Some? && Confirmed(job, row.value, positions, now)
      else row.None? || row.value == job
  {
    ConfirmWrites(job, positions, now, R);
    if p :| p in positions {
    }
  }

  // ----- providers -----

  /** Creating adds an untested draft; an update of the current version stores its columns, and disabling the status. */
  lemma ProviderMeaning(s: System, p: nat, expected: nat, fields: PC.Fields, name: string, maxConcurrency: nat)
    requires Reachable(s)
    ensures
      var valid := maxConcurrency > 0 && (fields.encryptedKey.None? <==> fields.nonce.None?)
                   && (fields.defaultModel.Some? ==> fields.defaultModel.value in fields.allowedModels);
      && Step(s, CreateProvider(fields, name, maxConcurrency)) ==
           (if valid then s.(providers := s.providers + [PC.Provider(fields, name, maxConcurrency, PC.Draft, 1, None, None)])
            else s)
      && (p < |s.providers| ==>
            var row := s.providers[p];
            var open := exists j | 0 <= j < |s.jobs| ::
                          s.jobs[j].provider == p && s.jobs[j].status in {JobQueued, JobRunning, JobPaused};
            && Step(s, UpdateProvider(p, expected, fields, name, maxConcurrency)) ==
                 (if !valid || row.configVersion != expected || (fields != row.fields && open) then s
                  else if fields == row.fields then
                    s.(providers := s.providers[p := row.(name := name, maxConcurrency := maxConcurrency)])
                  else
                    s.(providers := s.providers[p :=
                      PC.Provider(fields, name, maxConcurrency, PC.Draft, expected + 1, None, None)]))
            && Step(s, DisableProvider(p)) ==
                 (if row.status == PC.Enabled then s.(providers := s.providers[p := row.(status := PC.Disabled)]) else s))
  {
    ReachableInv(s);
    if p < |s.providers| {
      assert ProviderInv(s.providers[p], p, s.tested);
      OpenJobs(s.jobs, p);
    }
  }

  lemma OpenJobs(jobs: seq<Job>, p: nat)
    ensures HasOpenJobs(jobs, p) <==>
              exists j | 0 <= j < |jobs| :: jobs[j].provider == p && jobs[j].status in {JobQueued, JobRunning, JobPaused}
  {
  }

  /** A provider with a key and a profiled default model can be tested and enabled: three steps do it. */
  lemma ProviderEnables(s: System, p: nat, now: Time)
    requires Reachable(s) && p < |s.providers| && s.providers[p].fields.encryptedKey.Some?
    requires s.providers[p].fields.defaultModel.Some?
    requires s.providers[p].fields.defaultModel.value in s.providers[p].fields.modelProfiles
    ensures
      var tested := Step(Step(s, BeginTest(p)), PassTest(|s.tests|, now));
      var t := Step(tested, EnableProvider(p));
      && p < |tested.providers| && |t.providers| == |s.providers| && t.jobs == s.jobs
      && tested.providers[p].testedVersion == Some(s.providers[p].configVersion)
      && t.providers[p] == s.providers[p].(status := PC.Enabled, testedVersion := Some(s.providers[p].configVersion),
                                           testedAt := Some(now))
      && (p, s.providers[p].fields) in t.tested
  {
    ReachableInv(s);
    assert ProviderInv(s.providers[p], p, s.tested);
    var begun := Step(s, BeginTest(p));
    assert begun.tests[|s.tests|] == Test(p, s.providers[p].configVersion, s.providers[p].fields);
    var tested := Step(begun, PassTest(|s.tests|, now));
    assert tested.providers[p] ==
           s.providers[p].(testedVersion := Some(s.providers[p].configVersion), testedAt := Some(now));
  }

  /** Due work of a live job can be called, graded and confirmed: four steps complete it. */
  lemma DueWorkCompletes(s: System, w: nat, j: nat, position: nat, token: Token, now: Time)
    requires Reachable(s) && w < |s.slots| && s.slots[w].Idle? && ItemExists(s, j, position)
    requires Due(s.jobs[j], position, s.jobs[j].items[position].dispatch, now)
    requires RunningOfProvider(s.jobs, s.jobs[j].provider) < s.jobs[j].maxConcurrency
    ensures
      var dispatch := s.jobs[j].items[position].dispatch;
      var claimed := Step(Step(s, PrepareAction(w, j, position, dispatch, now)), ClaimAction(w, token, now, now));
      var graded := Step(claimed, FinishAction(w, OutputAccepted, now));
      var t := Step(graded, ConfirmAction(j, {position}, now));
      && HoldsLease(claimed, w)
      && ItemExists(graded, j, position) && graded.jobs[j].items[position].status == NeedsReview
      && ItemExists(t, j, position) && t.jobs[j].items[position].status == Completed
      && |t.jobs[j].items[position].attempts| == |s.jobs[j].items[position].attempts| + 1
      && t.slots == s.slots
  {
    var dispatch := s.jobs[j].items[position].dispatch;
    var prepared := Step(s, PrepareAction(w, j, position, dispatch, now));
    PrepareMeaning(s, w, j, position, dispatch, now);
    ReachableStep(s, PrepareAction(w, j, position, dispatch, now));
    var claimed := Step(prepared, ClaimAction(w, token, now, now));
    ClaimMeaning(prepared, w, token, now, now);
    ReachableStep(prepared, ClaimAction(w, token, now, now));
    var graded := Step(claimed, FinishAction(w, OutputAccepted, now));
    FinishMeaning(claimed, w, OutputAccepted, now);
    ReachableStep(claimed, FinishAction(w, OutputAccepted, now));
    ReviewCompletes(graded, j, position, now);
    assert graded.slots == s.slots;
  }

  lemma ReviewCompletes(s: System, j: nat, position: nat, now: Time)
    requires Reachable(s) && ItemExists(s, j, position)
    requires s.jobs[j].status != JobCancelled && Reviewable(s.jobs[j].items[position])
    ensures
      var t := Step(s, ConfirmAction(j, {position}, now));
      && t.slots == s.slots && ItemExists(t, j, position)
      && t.jobs[j].items[position].status == Completed
      && t.jobs[j].items[position].attempts == s.jobs[j].items[position].attempts
  {
    ReachableInv(s);
    assert JobInv(s.jobs[j], s.retries);
    var row := ConfirmReviews(s.jobs[j], {position}, now);
    OneReviewed(s.jobs[j], position, now, s.retries, row);
    ConfirmIsSet(s, j, {position}, now, row);
  }

  lemma OneReviewed(job: Job, position: nat, now: Time, R: nat, row: Option<Job>)
    requires JobInv(job, R) && position < |job.items| && job.status != JobCancelled && Reviewable(job.items[position])
    requires row == ConfirmReviews(job, {position}, now)
    ensures row.Some? && position < |row.value.items| && row.value.items[position].status == Completed
    ensures row.value.items[position].attempts == job.items[position].attempts
  {
    ConfirmWrites(job, {position}, now, R);
    assert !(forall p | p in {position} :: job.items[p].status == Completed);
  }

  lemma ReachableStep(s: System, a: Action)
    requires Reachable(s)
    ensures Reachable(Step(s, a))
  {
    var retries: nat, slots: nat, actions: seq<Action> :| s == Run(Start(retries, slots), actions);
    assert (actions + [a])[..|actions|] == actions;
    assert Step(s, a) == Run(Start(retries, slots), actions + [a]);
  }
}
