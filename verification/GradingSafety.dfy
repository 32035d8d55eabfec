/** Every run keeps the system invariant, and every run only moves forward. */
module GradingSafety {
  import opened Wrappers
  import opened GradingRows
  import opened AttemptHistory
  import opened GradingTransitions
  import opened GradingInvariants
  import opened GradingSystem
  import opened GradingEvolution
  import PC = ProviderConfigs

  lemma SystemReflexive(s: System)
    ensures SystemEvolves(s, s)
    ensures forall j | 0 <= j < |s.jobs| :: JobEvolves(s.jobs[j], s.jobs[j])
  {
  }

  lemma SlotEvolves(jobs: seq<Job>, j: nat, row: Job, slot: Slot)
    requires j < |jobs| && JobEvolves(jobs[j], row) && SlotInv(jobs, slot)
    ensures SlotInv(jobs[j := row], slot)
  {
    if slot.Calling? && slot.claim.job == j {
      assert ItemEvolves(jobs[j].items[slot.claim.position], row.items[slot.claim.position]);
    }
  }

  lemma ConcurrencyKept(jobs: seq<Job>, j: nat, row: Job)
    requires j < |jobs| && ConcurrencyInv(jobs)
    requires row.provider == jobs[j].provider && row.maxConcurrency == jobs[j].maxConcurrency
    requires RunningOfItems(row.items) <= RunningOfItems(jobs[j].items)
          || (RunningOfItems(row.items) == RunningOfItems(jobs[j].items) + 1
              && RunningOfProvider(jobs, row.provider) < row.maxConcurrency)
    ensures ConcurrencyInv(jobs[j := row])
  {
    var after := jobs[j := row];
    forall p: nat ensures RunningOfProvider(after, p) <= LargestSnapshot(after, p) {
      RunningOfProviderUpdate(jobs, j, row, p);
      LargestSnapshotBound(jobs, j);
    }
  }

  /** Replacing one job row by a row that evolved from it. */
  lemma ReplaceJob(s: System, j: nat, row: Job)
    requires Inv(s) && j < |s.jobs|
    requires JobInv(row, s.retries) && JobEvolves(s.jobs[j], row)
    requires Open(row.status) ==> VersionMatches(s.providers, row)
    requires ConcurrencyInv(s.jobs[j := row])
    ensures Inv(SetJob(s, j, Some(row))) && SystemEvolves(s, SetJob(s, j, Some(row)))
  {
    forall w | 0 <= w < |s.slots| ensures SlotInv(s.jobs[j := row], s.slots[w]) {
      SlotEvolves(s.jobs, j, row, s.slots[w]);
    }
    assert JobProviderInv(s.providers, s.jobs[j]);
    SystemReflexive(s);
  }

  /** Changing what one slot holds. */
  lemma ReplaceSlot(s: System, w: nat, slot: Slot)
    requires Inv(s) && w < |s.slots| && SlotInv(s.jobs, slot)
    ensures Inv(SetSlot(s, w, slot)) && SystemEvolves(s, SetSlot(s, w, slot))
  {
    SystemReflexive(s);
  }

  lemma JobProviderKept(providers: seq<PC.Provider>, p: nat, row: PC.Provider, jobs: seq<Job>, j: nat)
    requires p < |providers| && j < |jobs| && JobProviderInv(providers, jobs[j])
    requires PC.Evolves(providers[p], row)
    requires row.configVersion != providers[p].configVersion ==>
               !HasOpenJobs(jobs, p) && row.configVersion == providers[p].configVersion + 1
    ensures JobProviderInv(providers[p := row], jobs[j])
  {
    assert Open(jobs[j].status) && jobs[j].provider == p ==> HasOpenJobs(jobs, p);
  }

  /** Replacing one provider row by the row an UPDATE statement left. */
  lemma ReplaceProvider(s: System, p: nat, new_: PC.Provider)
    requires Inv(s) && p < |s.providers|
    requires PC.UpdateRow(s.providers[p], new_, HasOpenJobs(s.jobs, p)).Some?
    requires new_.testedVersion.Some? && new_.fields == s.providers[p].fields ==>
               new_.testedVersion.value == s.providers[p].configVersion && (p, new_.fields) in s.tested
    requires new_.status == PC.Enabled && new_.fields == s.providers[p].fields ==>
               new_.fields.defaultModel.Some? && new_.fields.defaultModel.value in new_.fields.modelProfiles
    ensures
      var t := SetProvider(s, p, PC.UpdateRow(s.providers[p], new_, HasOpenJobs(s.jobs, p)));
      Inv(t) && SystemEvolves(s, t)
  {
    PC.UpdateRowMeaning(s.providers[p], new_, HasOpenJobs(s.jobs, p));
    var row := PC.UpdateRow(s.providers[p], new_, HasOpenJobs(s.jobs, p)).value;
    forall i | 0 <= i < |s.tests| ensures TestInv(s.providers[p := row], s.tests[i]) {
      assert TestInv(s.providers, s.tests[i]);
    }
    forall j | 0 <= j < |s.jobs| ensures JobProviderInv(s.providers[p := row], s.jobs[j]) {
      JobProviderKept(s.providers, p, row, s.jobs, j);
    }
    SystemReflexive(s);
  }

  lemma ProviderStepSafe(s: System, a: Action)
    requires Inv(s)
    ensures Inv(ProviderStep(s, a)) && SystemEvolves(s, ProviderStep(s, a))
  {
    var t := ProviderStep(s, a);
    SystemReflexive(s);
    match a {
      case CreateProvider(fields, name, maxConcurrency) =>
        if t != s { AddProvider(s, t.providers[|s.providers|]); }
      case BeginTest(p) =>
      case UpdateProvider(p, expected, fields, name, maxConcurrency) =>
        if t != s {
          assert ProviderInv(s.providers[p], p, s.tested);
          ReplaceProvider(s, p, s.providers[p].(fields := fields, name := name, maxConcurrency := maxConcurrency));
        }
      case PassTest(i, now) =>
        if i < |s.tests| && s.tests[i].provider < |s.providers| {
          var test := s.tests[i];
          var logged := s.(tested := s.tested + {(test.provider, test.fields)});
          var row := s.providers[test.provider];
          assert TestInv(s.providers, test);
          assert Inv(logged);
          if PC.MarkTested(row, test.version, now, HasOpenJobs(s.jobs, test.provider)).Some? {
            ReplaceProvider(logged, test.provider, row.(testedAt := Some(now), testedVersion := Some(test.version)));
          }
        }
      case EnableProvider(p) =>
        if t != s {
          assert ProviderInv(s.providers[p], p, s.tested);
          ReplaceProvider(s, p, s.providers[p].(status := PC.Enabled));
        }
      case DisableProvider(p) =>
        if t != s {
          assert ProviderInv(s.providers[p], p, s.tested);
          ReplaceProvider(s, p, s.providers[p].(status := PC.Disabled));
        }
      case _ =>
    }
  }

  lemma AddProvider(s: System, row: PC.Provider)
    requires Inv(s) && PC.Check(row) && row.testedVersion.None?
    ensures Inv(s.(providers := s.providers + [row])) && SystemEvolves(s, s.(providers := s.providers + [row]))
  {
    forall i | 0 <= i < |s.tests| ensures TestInv(s.providers + [row], s.tests[i]) {
      assert TestInv(s.providers, s.tests[i]);
    }
    forall j | 0 <= j < |s.jobs| ensures JobProviderInv(s.providers + [row], s.jobs[j]) {
      assert JobProviderInv(s.providers, s.jobs[j]);
    }
    SystemReflexive(s);
  }

  lemma CreateJobSafe(s: System, p: nat, count: nat, now: Time)
    requires Inv(s) && p < |s.providers|
    ensures Inv(CreateJobStep(s, p, count, now)) && SystemEvolves(s, CreateJobStep(s, p, count, now))
  {
    var t := CreateJobStep(s, p, count, now);
    SystemReflexive(s);
    if t != s {
      assert ProviderInv(s.providers[p], p, s.tested);
      var job := t.jobs[|s.jobs|];
      NewJobInv(job.provider, job.configVersion, job.maxConcurrency, job.timeoutMs, count, now, s.retries);
      NewJobIdle(count, job.items);
      AddJob(s, job);
    }
  }

  /** A job without calls joins the table. */
  lemma AddJob(s: System, job: Job)
    requires Inv(s) && JobInv(job, s.retries) && JobProviderInv(s.providers, job) && RunningOfItems(job.items) == 0
    ensures Inv(s.(jobs := s.jobs + [job])) && SystemEvolves(s, s.(jobs := s.jobs + [job]))
  {
    SystemReflexive(s);
    AddIdleJob(s.jobs, job);
    forall w | 0 <= w < |s.slots| ensures SlotInv(s.jobs + [job], s.slots[w]) {
      assert SlotInv(s.jobs, s.slots[w]);
    }
  }

  lemma AddIdleJob(jobs: seq<Job>, job: Job)
    requires ConcurrencyInv(jobs) && RunningOfItems(job.items) == 0
    ensures ConcurrencyInv(jobs + [job])
  {
    forall q: nat ensures RunningOfProvider(jobs + [job], q) <= LargestSnapshot(jobs + [job], q) {
      assert (jobs + [job])[..|jobs|] == jobs;
    }
  }

  lemma {:induction false} NewJobIdle(count: nat, items: seq<Item>)
    requires |items| == count && forall i | 0 <= i < count :: items[i].attempts == []
    ensures RunningOfItems(items) == 0
  {
    if count > 0 { NewJobIdle(count - 1, items[..count - 1]); }
  }

  /** A teacher's transaction never touches an attempt. */
  lemma TeacherRowSafe(s: System, j: nat, row: Job)
    requires Inv(s) && j < |s.jobs|
    requires JobInv(row, s.retries) && JobEvolves(s.jobs[j], row)
    requires forall i | 0 <= i < |row.items| :: row.items[i].attempts == s.jobs[j].items[i].attempts
    requires Open(row.status) ==> Open(s.jobs[j].status) || VersionMatches(s.providers, s.jobs[j])
    ensures Inv(SetJob(s, j, Some(row))) && SystemEvolves(s, SetJob(s, j, Some(row)))
  {
    assert JobProviderInv(s.providers, s.jobs[j]);
    RunningOfItemsPointwise(s.jobs[j].items, row.items);
    ConcurrencyKept(s.jobs, j, row);
    ReplaceJob(s, j, row);
  }

  lemma ControlSafe(s: System, j: nat, action: Control, now: Time)
    requires Inv(s) && j < |s.jobs|
    ensures
      var t := SetJob(s, j, ControlJob(s.jobs[j], action, VersionMatches(s.providers, s.jobs[j]), now));
      Inv(t) && SystemEvolves(s, t)
  {
    var job := s.jobs[j];
    SystemReflexive(s);
    var row := ControlJob(job, action, VersionMatches(s.providers, job), now);
    if row.Some? {
      ControlKeepsJob(job, action, VersionMatches(s.providers, job), now, s.retries);
      ControlEvolves(job, action, VersionMatches(s.providers, job), now, s.retries);
      ControlShape(job, action, VersionMatches(s.providers, job), now);
      TeacherRowSafe(s, j, row.value);
    }
  }

  lemma ConfirmFacts(job: Job, positions: set<nat>, now: Time, R: nat)
    requires JobInv(job, R) && ConfirmReviews(job, positions, now).Some?
    ensures
      var row := ConfirmReviews(job, positions, now).value;
      && JobInv(row, R) && JobEvolves(job, row)
      && (Open(row.status) ==> Open(job.status))
      && forall i | 0 <= i < |row.items| :: row.items[i].attempts == job.items[i].attempts
  {
    ConfirmKeepsJob(job, positions, now, R);
    ConfirmEvolves(job, positions, now);
    ConfirmShape(job, positions, now);
  }

  lemma ConfirmShape(job: Job, positions: set<nat>, now: Time)
    requires ConfirmReviews(job, positions, now).Some?
    ensures
      var row := ConfirmReviews(job, positions, now).value;
      && |row.items| == |job.items|
      && forall i | 0 <= i < |row.items| :: row.items[i].attempts == job.items[i].attempts
  {
    ConfirmedShape(job, positions, now);
  }

  lemma ConfirmSafe(s: System, j: nat, positions: set<nat>, now: Time, row: Option<Job>)
    requires Inv(s) && j < |s.jobs| && row == ConfirmReviews(s.jobs[j], positions, now)
    ensures Inv(SetJob(s, j, row)) && SystemEvolves(s, SetJob(s, j, row))
  {
    SystemReflexive(s);
    if row.Some? {
      ConfirmFacts(s.jobs[j], positions, now, s.retries);
      TeacherRowSafe(s, j, row.value);
    }
  }

  lemma PrepareSafe(s: System, w: nat, j: nat, position: nat, dispatch: nat, dbNow: Time)
    requires Inv(s) && w < |s.slots| && j < |s.jobs|
    ensures Inv(PrepareStep(s, w, j, position, dispatch, dbNow))
    ensures SystemEvolves(s, PrepareStep(s, w, j, position, dispatch, dbNow))
  {
    SystemReflexive(s);
    match Prepare(s.jobs[j], j, position, dispatch, dbNow) {
      case Some(p) => if VersionMatches(s.providers, s.jobs[j]) { ReplaceSlot(s, w, Holding(p)); }
      case None =>
    }
  }

  lemma ClaimSafe(s: System, w: nat, token: Token, now: Time, dbNow: Time)
    requires Inv(s) && w < |s.slots| && s.slots[w].Holding?
    ensures Inv(ClaimStep(s, w, token, now, dbNow)) && SystemEvolves(s, ClaimStep(s, w, token, now, dbNow))
  {
    var p := s.slots[w].prep;
    SystemReflexive(s);
    assert SlotInv(s.jobs, s.slots[w]);
    match ClaimAttempt(s.jobs, p, token, now, dbNow) {
      case None => ReplaceSlot(s, w, Idle);
      case Some(claimed) =>
        var job := s.jobs[p.job];
        var it := job.items[p.position];
        assert JobInv(job, s.retries) && JobProviderInv(s.providers, job);
        ClaimKeepsJob(job, p, token, now, dbNow, s.retries);
        ClaimEvolves(job, p, token, now, dbNow, s.retries);
        var claimedItem := ClaimedItem(it, p.plan, token, now, p.timeoutMs);
        RunningOfItemsUpdate(job.items, p.position, claimedItem);
        assert claimedItem.attempts[..|claimedItem.attempts| - 1] == it.attempts;
        ConcurrencyKept(s.jobs, p.job, claimed.0);
        ReplaceJob(s, p.job, claimed.0);
        var t := SetJob(s, p.job, Some(claimed.0));
        ReplaceSlot(t, w, Calling(claimed.1, p.plan.correctionPrompt));
        SystemEvolvesTransitive(s, t, ClaimStep(s, w, token, now, dbNow));
    }
  }

  /** Everything a finishing transaction guarantees about its job, in one place. */
  lemma FinishFacts(job: Job, c: Claim, failure: Option<Failure>, correctionPrompt: bool, now: Time, R: nat, row: Option<Job>)
    requires JobInv(job, R) && LeaseHeld(job, c)
    requires FromRunner(failure, job.items[c.position].attempts[c.attempt].sequence, correctionPrompt, R)
    requires row == Finish(job, c, failure, now)
    ensures row.Some? && JobInv(row.value, R) && JobEvolves(job, row.value)
    ensures row.value.items == job.items[c.position := FinishedItem(job.items[c.position], c.attempt, failure, now)]
    ensures row.value.items[c.position].status in {Queued, NeedsReview, Failed}
    ensures RunningOfItems(row.value.items) <= RunningOfItems(job.items)
    ensures Open(row.value.status) ==> Open(job.status)
  {
    FinishKeepsJob(job, c, failure, correctionPrompt, now, R);
    FinishEvolves(job, c, failure, correctionPrompt, now, R);
    FinishKeepsItem(job.items[c.position], c.attempt, failure, correctionPrompt, now, R);
    FinishedLeavesRunning(job.items, row.value.items, c.position, R);
    RunningItemsJob(job, c.position, R);
  }

  lemma FinishSafe(s: System, w: nat, outcome: Outcome, now: Time)
    requires Inv(s) && w < |s.slots| && s.slots[w].Calling?
    ensures Inv(FinishStep(s, w, outcome, now)) && SystemEvolves(s, FinishStep(s, w, outcome, now))
  {
    var c := s.slots[w].claim;
    assert SlotInv(s.jobs, s.slots[w]);
    var failure := Decide(outcome, c.sequence, s.slots[w].correctionPrompt, s.retries);
    AfterFinish(s, w, c, failure, s.slots[w].correctionPrompt, now, Finish(s.jobs[c.job], c, failure, now));
  }

  lemma AfterFinish(s: System, w: nat, c: Claim, failure: Option<Failure>, correctionPrompt: bool, now: Time, row: Option<Job>)
    requires Inv(s) && w < |s.slots| && SlotInv(s.jobs, Calling(c, correctionPrompt))
    requires FromRunner(failure, c.sequence, correctionPrompt, s.retries)
    requires row == Finish(s.jobs[c.job], c, failure, now)
    ensures
      var t := SetSlot(SetJob(s, c.job, row), w, Idle);
      Inv(t) && SystemEvolves(s, t)
  {
    var t := SetJob(s, c.job, row);
    SystemReflexive(s);
    if LeaseHeld(s.jobs[c.job], c) {
      FinishFacts(s.jobs[c.job], c, failure, correctionPrompt, now, s.retries, row);
      assert JobProviderInv(s.providers, s.jobs[c.job]);
      ConcurrencyKept(s.jobs, c.job, row.value);
      ReplaceJob(s, c.job, row.value);
    }
    ReplaceSlot(t, w, Idle);
    SystemEvolvesTransitive(s, t, SetSlot(t, w, Idle));
  }

  /** Replacing one item by one that is not running cannot add a running attempt. */
  lemma FinishedLeavesRunning(items: seq<Item>, after: seq<Item>, i: nat, R: nat)
    requires i < |items| && |after| == |items| && after == items[i := after[i]]
    requires ItemInv(after[i], R) && after[i].status != Running
    ensures RunningOfItems(after) <= RunningOfItems(items)
  {
    RunningOfItemsUpdate(items, i, after[i]);
    RunningAttemptsOf(after[i], R);
  }

  lemma SweptRowSafe(s: System, j: nat, position: nat, now: Time, dbNow: Time, row: Job)
    requires Inv(s) && j < |s.jobs| && position < |s.jobs[j].items|
    requires LeaseExpiredAt(s.jobs[j].items[position], dbNow)
    requires SweepItem(s.jobs[j], position, now, dbNow) == Swept(row)
    ensures Inv(s.(jobs := s.jobs[j := row])) && SystemEvolves(s, s.(jobs := s.jobs[j := row]))
  {
    var job := s.jobs[j];
    assert JobInv(job, s.retries) && JobProviderInv(s.providers, job);
    SweepKeepsJob(job, position, now, dbNow, s.retries);
    SweepEvolves(job, position, now, dbNow, s.retries);
    FinishedLeavesRunning(job.items, row.items, position, s.retries);
    SweptStaysOpen(job, position, now, dbNow, row);
    ConcurrencyKept(s.jobs, j, row);
    ReplaceJob(s, j, row);
  }

  lemma SweptStaysOpen(job: Job, position: nat, now: Time, dbNow: Time, row: Job)
    requires position < |job.items| && SweepItem(job, position, now, dbNow) == Swept(row)
    ensures Open(row.status) ==> Open(job.status)
  {
  }

  lemma SweepSafe(s: System, j: nat, position: nat, now: Time, dbNow: Time)
    requires Inv(s) && j < |s.jobs|
    ensures Inv(SweepStep(s, j, position, now, dbNow)) && SystemEvolves(s, SweepStep(s, j, position, now, dbNow))
  {
    SystemReflexive(s);
    match SweepItem(s.jobs[j], position, now, dbNow) {
      case Swept(row) => SweptRowSafe(s, j, position, now, dbNow, row);
      case _ =>
    }
  }

  // ----- one action; an action that is not enabled changes nothing -----

  lemma TeacherActionSafe(s: System, a: Action)
    requires Inv(s) && (a.CreateJob? || a.ControlAction? || a.ConfirmAction?)
    ensures Inv(Step(s, a)) && SystemEvolves(s, Step(s, a))
  {
    SystemReflexive(s);
    match a {
      case CreateJob(p, count, now) => if p < |s.providers| { CreateJobSafe(s, p, count, now); }
      case ControlAction(j, control, now) => if j < |s.jobs| { ControlSafe(s, j, control, now); }
      case ConfirmAction(j, positions, now) =>
        if j < |s.jobs| { ConfirmSafe(s, j, positions, now, ConfirmReviews(s.jobs[j], positions, now)); }
    }
  }

  lemma PrepareActionSafe(s: System, w: nat, j: nat, position: nat, dispatch: nat, dbNow: Time)
    requires Inv(s)
    ensures Inv(Step(s, PrepareAction(w, j, position, dispatch, dbNow)))
    ensures SystemEvolves(s, Step(s, PrepareAction(w, j, position, dispatch, dbNow)))
  {
    SystemReflexive(s);
    if w < |s.slots| && j < |s.jobs| { PrepareSafe(s, w, j, position, dispatch, dbNow); }
  }

  lemma ClaimActionSafe(s: System, w: nat, token: Token, now: Time, dbNow: Time)
    requires Inv(s)
    ensures Inv(Step(s, ClaimAction(w, token, now, dbNow))) && SystemEvolves(s, Step(s, ClaimAction(w, token, now, dbNow)))
  {
    ClaimActionIs(s, w, token, now, dbNow, Step(s, ClaimAction(w, token, now, dbNow)));
    if w < |s.slots| && s.slots[w].Holding? {
      ClaimSafe(s, w, token, now, dbNow);
    } else {
      SystemReflexive(s);
    }
  }

  lemma ClaimActionIs(s: System, w: nat, token: Token, now: Time, dbNow: Time, t: System)
    requires t == Step(s, ClaimAction(w, token, now, dbNow))
    ensures t == if w < |s.slots| && s.slots[w].Holding? then ClaimStep(s, w, token, now, dbNow) else s
  {
  }

  lemma FinishActionSafe(s: System, w: nat, outcome: Outcome, now: Time)
    requires Inv(s)
    ensures Inv(Step(s, FinishAction(w, outcome, now))) && SystemEvolves(s, Step(s, FinishAction(w, outcome, now)))
  {
    SystemReflexive(s);
    if w < |s.slots| && s.slots[w].Calling? { FinishSafe(s, w, outcome, now); }
  }

  lemma StepSafe(s: System, a: Action)
    requires Inv(s)
    ensures Inv(Step(s, a)) && SystemEvolves(s, Step(s, a))
  {
    match a {
      case PrepareAction(w, j, position, dispatch, dbNow) => PrepareActionSafe(s, w, j, position, dispatch, dbNow);
      case ClaimAction(w, token, now, dbNow) => ClaimActionSafe(s, w, token, now, dbNow);
      case FinishAction(w, outcome, now) => FinishActionSafe(s, w, outcome, now);
      case CrashAction(w) =>
        SystemReflexive(s);
        if w < |s.slots| { ReplaceSlot(s, w, Idle); }
      case SweepAction(j, position, now, dbNow) =>
        SystemReflexive(s);
        if j < |s.jobs| { SweepSafe(s, j, position, now, dbNow); }
      case CreateJob(_, _, _) => TeacherActionSafe(s, a);
      case ControlAction(_, _, _) => TeacherActionSafe(s, a);
      case ConfirmAction(_, _, _) => TeacherActionSafe(s, a);
      case _ => ProviderStepSafe(s, a);
    }
  }

  /** Safety over whole runs. */
  lemma {:induction false} RunSafe(s: System, actions: seq<Action>)
    requires Inv(s)
    ensures Inv(Run(s, actions)) && SystemEvolves(s, Run(s, actions))
  {
    SystemReflexive(s);
    if actions != [] {
      var front := actions[..|actions| - 1];
      RunSafe(s, front);
      StepSafe(Run(s, front), actions[|actions| - 1]);
      SystemEvolvesTransitive(s, Run(s, front), Run(s, actions));
    }
  }

  lemma StartInv(retries: nat, slots: nat)
    ensures Inv(Start(retries, slots))
  {
  }
}
