/**
 Runs in which every claim uses a preparation that had read all earlier attempts of its item,
 and the proof that a deployment with a single worker slot has no other runs.
 */
module GradingFreshness {
  import opened Wrappers
  import opened GradingRows
  import opened AttemptHistory
  import opened GradingTransitions
  import opened GradingInvariants
  import opened GradingSystem
  import opened GradingEvolution
  import opened GradingSafety

  /** A claim's preparation still says what prepare_item would say now. */
  predicate FreshStep(s: System, a: Action) {
    match a
    case ClaimAction(w, token, now, dbNow) =>
      (w < |s.slots| && s.slots[w].Holding? && ClaimAttempt(s.jobs, s.slots[w].prep, token, now, dbNow).Some?) ==>
        var p := s.slots[w].prep;
        p.plan == PlanNext(s.jobs[p.job].items[p.position].attempts, p.dispatch)
    case _ => true
  }

  predicate FreshRun(s: System, actions: seq<Action>) {
    forall n | 0 <= n < |actions| :: FreshStep(Run(s, actions[..n]), actions[n])
  }

  predicate FreshItems(job: Job) {
    forall i | 0 <= i < |job.items| :: FreshChain(job.items[i].attempts)
  }

  /** A live call sends a correction prompt iff its round already asked for a correction. */
  predicate FreshSlot(jobs: seq<Job>, slot: Slot) {
    slot.Calling? && SlotInv(jobs, slot) ==>
      var c := slot.claim;
      var h := jobs[c.job].items[c.position].attempts;
      h[c.attempt].status == InFlight ==>
        (slot.correctionPrompt <==> HasCorrection(h[..c.attempt], h[c.attempt].round))
  }

  predicate FreshInv(s: System) {
    && (forall j | 0 <= j < |s.jobs| :: FreshItems(s.jobs[j]))
    && (forall w | 0 <= w < |s.slots| :: FreshSlot(s.jobs, s.slots[w]))
  }

  /** Same calls in the same order; the last one may have been finished without asking for a correction. */
  lemma FreshAfterFinish(h: seq<Attempt>, a: Attempt)
    requires FreshChain(h) && h != [] && SameCall(h[|h| - 1], a)
    requires IsCorrectionSource(a, a.round) ==> !HasCorrection(h[..|h| - 1], a.round)
    ensures FreshChain(h[|h| - 1 := a])
  {
    var h' := h[|h| - 1 := a];
    forall k | 0 <= k < |h'| ensures FreshLink(h', k) {
      assert FreshLink(h, k);
      assert h'[..k] == h[..k];
    }
  }

  lemma FreshAfterClaim(it: Item, plan: Plan)
    requires FreshChain(it.attempts) && plan == PlanNext(it.attempts, it.dispatch)
    ensures FreshChain(it.attempts + [NewAttempt(it, plan)])
  {
    var h := it.attempts;
    var h' := h + [NewAttempt(it, plan)];
    forall k | 0 <= k < |h'| ensures FreshLink(h', k) {
      assert h'[..k] == h[..k];
      if k < |h| { assert FreshLink(h, k); } else { assert h[..k] == h; }
    }
  }

  /** The correction prompt is decided by the earlier rows of the round. */
  lemma PromptOfPlan(h: seq<Attempt>, round: nat, R: nat)
    requires Chain(h, R)
    ensures PlanNext(h, round).correctionPrompt <==> HasCorrection(h, round)
  {
    CorrectionSourceExists(h, round);
    match CorrectionSource(h, round)
    case Some(source) => assert Link(h, source, R);
    case None =>
  }

  /** Slots keep their promise when a job row evolves, because earlier rows are frozen. */
  lemma FreshSlotEvolves(jobs: seq<Job>, j: nat, row: Job, slot: Slot, R: nat)
    requires j < |jobs| && JobInv(jobs[j], R) && JobEvolves(jobs[j], row) && SlotInv(jobs, slot) && FreshSlot(jobs, slot)
    ensures FreshSlot(jobs[j := row], slot)
  {
    if slot.Calling? && slot.claim.job == j {
      var c := slot.claim;
      var it := jobs[j].items[c.position];
      var h, h' := it.attempts, row.items[c.position].attempts;
      assert ItemEvolves(it, row.items[c.position]);
      if h'[c.attempt].status == InFlight {
        RunningIsLast(it, c.attempt, R);
        EarlierAttemptsFinished(it, R);
        assert h'[..c.attempt] == h[..c.attempt];
      }
    }
  }

  lemma FreshReplaceJob(s: System, j: nat, row: Job)
    requires Inv(s) && FreshInv(s) && j < |s.jobs| && JobEvolves(s.jobs[j], row) && FreshItems(row)
    ensures FreshInv(SetJob(s, j, Some(row)))
  {
    forall w | 0 <= w < |s.slots| ensures FreshSlot(s.jobs[j := row], s.slots[w]) {
      FreshSlotEvolves(s.jobs, j, row, s.slots[w], s.retries);
    }
  }

  lemma FreshClaim(s: System, w: nat, token: Token, now: Time, dbNow: Time)
    requires Inv(s) && FreshInv(s) && w < |s.slots| && s.slots[w].Holding?
    requires FreshStep(s, ClaimAction(w, token, now, dbNow))
    ensures FreshInv(ClaimStep(s, w, token, now, dbNow))
  {
    var p := s.slots[w].prep;
    match ClaimAttempt(s.jobs, p, token, now, dbNow) {
      case None =>
      case Some(claimed) =>
        var job, row, c := s.jobs[p.job], claimed.0, claimed.1;
        var it := job.items[p.position];
        assert JobInv(job, s.retries) && FreshItems(job);
        ClaimKeepsJob(job, p, token, now, dbNow, s.retries);
        ClaimEvolves(job, p, token, now, dbNow, s.retries);
        FreshAfterClaim(it, p.plan);
        FreshReplaceJob(s, p.job, row);
        PromptOfPlan(it.attempts, p.dispatch, s.retries);
        assert row.items[p.position].attempts[..c.attempt] == it.attempts;
    }
  }

  lemma FreshFinishedItems(job: Job, c: Claim, outcome: Outcome, correctionPrompt: bool, now: Time, R: nat)
    requires JobInv(job, R) && FreshItems(job) && LeaseHeld(job, c)
    requires 0 < c.sequence == job.items[c.position].attempts[c.attempt].sequence
    requires
      var h := job.items[c.position].attempts;
      correctionPrompt <==> HasCorrection(h[..c.attempt], h[c.attempt].round)
    ensures
      var it := job.items[c.position];
      FreshChain(FinishedItem(it, c.attempt, Decide(outcome, c.sequence, correctionPrompt, R), now).attempts)
  {
    var it := job.items[c.position];
    RunningIsLast(it, c.attempt, R);
    assert Link(it.attempts, c.attempt, R);
    var failure := Decide(outcome, c.sequence, correctionPrompt, R);
    FreshAfterFinish(it.attempts, FinishedItem(it, c.attempt, failure, now).attempts[c.attempt]);
  }

  lemma FreshFinish(s: System, w: nat, outcome: Outcome, now: Time)
    requires Inv(s) && FreshInv(s) && w < |s.slots| && s.slots[w].Calling?
    ensures FreshInv(FinishStep(s, w, outcome, now))
  {
    var c := s.slots[w].claim;
    var correctionPrompt := s.slots[w].correctionPrompt;
    assert SlotInv(s.jobs, s.slots[w]) && FreshSlot(s.jobs, s.slots[w]);
    var failure := Decide(outcome, c.sequence, correctionPrompt, s.retries);
    FreshAfterFinishStep(s, c, outcome, correctionPrompt, failure, now, Finish(s.jobs[c.job], c, failure, now));
  }

  lemma FreshAfterFinishStep(s: System, c: Claim, outcome: Outcome, correctionPrompt: bool, failure: Option<Failure>,
                             now: Time, row: Option<Job>)
    requires Inv(s) && FreshInv(s)
    requires SlotInv(s.jobs, Calling(c, correctionPrompt)) && FreshSlot(s.jobs, Calling(c, correctionPrompt))
    requires failure == Decide(outcome, c.sequence, correctionPrompt, s.retries)
    requires row == Finish(s.jobs[c.job], c, failure, now)
    ensures FreshInv(SetJob(s, c.job, row))
  {
    var job := s.jobs[c.job];
    if LeaseHeld(job, c) {
      assert FreshItems(job) && FromRunner(failure, c.sequence, correctionPrompt, s.retries);
      FreshFinishedItems(job, c, outcome, correctionPrompt, now, s.retries);
      FinishFacts(job, c, failure, correctionPrompt, now, s.retries, row);
      FreshReplaceJob(s, c.job, row.value);
    }
  }

  lemma FreshSweptItems(job: Job, position: nat, now: Time, dbNow: Time, R: nat)
    requires JobInv(job, R) && FreshItems(job) && position < |job.items| && LeaseExpiredAt(job.items[position], dbNow)
    ensures SweepItem(job, position, now, dbNow).Swept? && FreshItems(SweepItem(job, position, now, dbNow).job)
  {
    var it := job.items[position];
    SweepKeepsJob(job, position, now, dbNow, R);
    RunningAttemptIsLast(it, R);
    FreshAfterFinish(it.attempts, ExpiredItem(it, |it.attempts| - 1, now).attempts[|it.attempts| - 1]);
  }

  lemma FreshSweep(s: System, j: nat, position: nat, now: Time, dbNow: Time)
    requires Inv(s) && FreshInv(s) && j < |s.jobs|
    ensures FreshInv(SweepStep(s, j, position, now, dbNow))
  {
    var job := s.jobs[j];
    assert JobInv(job, s.retries) && FreshItems(job);
    if position < |job.items| && LeaseExpiredAt(job.items[position], dbNow) {
      FreshSweptItems(job, position, now, dbNow, s.retries);
      SweepEvolves(job, position, now, dbNow, s.retries);
      FreshReplaceJob(s, j, SweepItem(job, position, now, dbNow).job);
    }
  }

  lemma FreshTeacher(s: System, j: nat, row: Option<Job>)
    requires Inv(s) && FreshInv(s) && j < |s.jobs|
    requires row.Some? ==> JobEvolves(s.jobs[j], row.value)
    requires row.Some? ==> forall i | 0 <= i < |row.value.items| :: row.value.items[i].attempts == s.jobs[j].items[i].attempts
    ensures FreshInv(SetJob(s, j, row))
  {
    if row.Some? {
      assert FreshItems(s.jobs[j]);
      FreshReplaceJob(s, j, row.value);
    }
  }

  lemma FreshCreateJob(s: System, a: Action)
    requires Inv(s) && FreshInv(s) && a.CreateJob?
    ensures FreshInv(Step(s, a))
  {
    forall w | 0 <= w < |s.slots| ensures FreshSlot(Step(s, a).jobs, s.slots[w]) {
      assert SlotInv(s.jobs, s.slots[w]) && FreshSlot(s.jobs, s.slots[w]);
    }
  }

  lemma FreshControl(s: System, j: nat, control: Control, matches: bool, now: Time, row: Option<Job>)
    requires Inv(s) && FreshInv(s) && j < |s.jobs| && row == ControlJob(s.jobs[j], control, matches, now)
    ensures FreshInv(SetJob(s, j, row))
  {
    if row.Some? {
      assert JobInv(s.jobs[j], s.retries);
      ControlEvolves(s.jobs[j], control, matches, now, s.retries);
      ControlShape(s.jobs[j], control, matches, now);
      FreshTeacher(s, j, row);
    }
  }

  lemma FreshConfirm(s: System, j: nat, positions: set<nat>, now: Time, row: Option<Job>)
    requires Inv(s) && FreshInv(s) && j < |s.jobs| && row == ConfirmReviews(s.jobs[j], positions, now)
    ensures FreshInv(SetJob(s, j, row))
  {
    if row.Some? {
      ConfirmEvolves(s.jobs[j], positions, now);
      ConfirmShape(s.jobs[j], positions, now);
      FreshTeacher(s, j, row);
    }
  }

  /** The actions that touch neither jobs nor calling slots. */
  lemma FreshElsewhere(s: System, a: Action)
    requires FreshInv(s)
    requires a.PrepareAction? || a.CrashAction? || a.CreateProvider? || a.UpdateProvider? || a.BeginTest? || a.PassTest?
             || a.EnableProvider? || a.DisableProvider?
    ensures FreshInv(Step(s, a))
  {
  }

  lemma FreshStepKept(s: System, a: Action)
    requires Inv(s) && FreshInv(s) && FreshStep(s, a)
    ensures FreshInv(Step(s, a))
  {
    match a {
      case CreateJob(_, _, _) => FreshCreateJob(s, a);
      case ControlAction(j, control, now) =>
        if j < |s.jobs| {
          var matches := VersionMatches(s.providers, s.jobs[j]);
          FreshControl(s, j, control, matches, now, ControlJob(s.jobs[j], control, matches, now));
        }
      case ConfirmAction(j, positions, now) =>
        if j < |s.jobs| { FreshConfirm(s, j, positions, now, ConfirmReviews(s.jobs[j], positions, now)); }
      case ClaimAction(w, token, now, dbNow) =>
        if w < |s.slots| && s.slots[w].Holding? { FreshClaim(s, w, token, now, dbNow); }
      case FinishAction(w, outcome, now) =>
        if w < |s.slots| && s.slots[w].Calling? { FreshFinish(s, w, outcome, now); }
      case SweepAction(j, position, now, dbNow) => if j < |s.jobs| { FreshSweep(s, j, position, now, dbNow); }
      case _ => FreshElsewhere(s, a);
    }
  }

  lemma {:induction false} FreshRunKept(s: System, actions: seq<Action>)
    requires Inv(s) && FreshInv(s) && FreshRun(s, actions)
    ensures FreshInv(Run(s, actions))
  {
    if actions != [] {
      var front := actions[..|actions| - 1];
      forall n | 0 <= n < |front| ensures FreshStep(Run(s, front[..n]), front[n]) {
        assert front[..n] == actions[..n];
      }
      FreshRunKept(s, front);
      RunSafe(s, front);
      FreshStepKept(Run(s, front), actions[|actions| - 1]);
    }
  }

  // ----- one worker slot -----

  /** With one slot nobody else claims between prepare and claim, so nothing the preparation read can have changed. */
  predicate StillCurrent(jobs: seq<Job>, slot: Slot) {
    slot.Holding? && SlotInv(jobs, slot) ==>
      var p := slot.prep;
      var it := jobs[p.job].items[p.position];
      || p.dispatch < it.dispatch
      || it.status == Cancelled
      || (it.status == Queued && it.dispatch == p.dispatch && p.plan == PlanNext(it.attempts, p.dispatch))
  }

  predicate SingleSlot(s: System) {
    |s.slots| == 1 && StillCurrent(s.jobs, s.slots[0])
  }

  lemma StillCurrentKept(jobs: seq<Job>, j: nat, row: Job, slot: Slot)
    requires j < |jobs| && |row.items| == |jobs[j].items| && StillCurrent(jobs, slot) && SlotInv(jobs, slot)
    requires forall i | 0 <= i < |row.items| ::
               || row.items[i] == jobs[j].items[i]
               || jobs[j].items[i].dispatch < row.items[i].dispatch
               || (row.items[i].dispatch == jobs[j].items[i].dispatch
                   && (jobs[j].items[i].status !in {Queued, Cancelled} || row.items[i].status == Cancelled))
    ensures StillCurrent(jobs[j := row], slot)
  {
  }

  lemma SingleSlotJob(s: System, j: nat, row: Option<Job>)
    requires SingleSlot(s) && j < |s.jobs| && SlotInv(s.jobs, s.slots[0])
    requires row.Some? ==>
               && |row.value.items| == |s.jobs[j].items|
               && forall i | 0 <= i < |row.value.items| ::
                    || row.value.items[i] == s.jobs[j].items[i]
                    || s.jobs[j].items[i].dispatch < row.value.items[i].dispatch
                    || (row.value.items[i].dispatch == s.jobs[j].items[i].dispatch
                        && (s.jobs[j].items[i].status !in {Queued, Cancelled} || row.value.items[i].status == Cancelled))
    ensures SingleSlot(SetJob(s, j, row))
  {
    if row.Some? { StillCurrentKept(s.jobs, j, row.value, s.slots[0]); }
  }

  lemma SingleSlotTeacher(s: System, a: Action)
    requires Inv(s) && SingleSlot(s) && (a.ControlAction? || a.ConfirmAction?)
    ensures SingleSlot(Step(s, a))
  {
    assert SlotInv(s.jobs, s.slots[0]);
    if a.job < |s.jobs| {
      var job := s.jobs[a.job];
      match a {
        case ControlAction(j, control, now) =>
          var row := ControlJob(job, control, VersionMatches(s.providers, job), now);
          if row.Some? { ControlShape(job, control, VersionMatches(s.providers, job), now); }
          SingleSlotJob(s, j, row);
        case ConfirmAction(j, positions, now) =>
          var row := ConfirmReviews(job, positions, now);
          if row.Some? { ConfirmChanges(job, positions, now); }
          SingleSlotJob(s, j, row);
      }
    }
  }

  lemma SingleSlotSweep(s: System, j: nat, position: nat, now: Time, dbNow: Time)
    requires Inv(s) && SingleSlot(s) && j < |s.jobs|
    ensures SingleSlot(SweepStep(s, j, position, now, dbNow))
  {
    assert SlotInv(s.jobs, s.slots[0]) && JobInv(s.jobs[j], s.retries);
    if position < |s.jobs[j].items| && LeaseExpiredAt(s.jobs[j].items[position], dbNow) {
      SweepKeepsJob(s.jobs[j], position, now, dbNow, s.retries);
      SingleSlotJob(s, j, Some(SweepItem(s.jobs[j], position, now, dbNow).job));
    }
  }

  lemma SingleSlotPrepare(s: System, j: nat, position: nat, dispatch: nat, dbNow: Time)
    requires Inv(s) && SingleSlot(s) && j < |s.jobs|
    ensures SingleSlot(PrepareStep(s, 0, j, position, dispatch, dbNow))
  {
  }

  lemma SingleSlotClaims(s: System, token: Token, now: Time, dbNow: Time)
    requires Inv(s) && SingleSlot(s) && s.slots[0].Holding?
    ensures FreshStep(s, ClaimAction(0, token, now, dbNow)) && SingleSlot(ClaimStep(s, 0, token, now, dbNow))
  {
    assert SlotInv(s.jobs, s.slots[0]);
  }

  lemma SingleSlotFinishes(s: System, outcome: Outcome, now: Time)
    requires SingleSlot(s) && s.slots[0].Calling?
    ensures SingleSlot(FinishStep(s, 0, outcome, now))
  {
  }

  lemma SingleSlotCreateJob(s: System, a: Action)
    requires Inv(s) && SingleSlot(s) && a.CreateJob?
    ensures SingleSlot(Step(s, a))
  {
    assert SlotInv(s.jobs, s.slots[0]);
  }

  lemma SingleSlotProvider(s: System, a: Action)
    requires SingleSlot(s)
    requires a.CreateProvider? || a.UpdateProvider? || a.BeginTest? || a.PassTest? || a.EnableProvider? || a.DisableProvider?
    ensures SingleSlot(Step(s, a))
  {
  }

  lemma SingleSlotStep(s: System, a: Action)
    requires Inv(s) && SingleSlot(s)
    ensures FreshStep(s, a) && SingleSlot(Step(s, a))
  {
    match a {
      case CreateJob(_, _, _) => SingleSlotCreateJob(s, a);
      case ControlAction(_, _, _) => SingleSlotTeacher(s, a);
      case ConfirmAction(_, _, _) => SingleSlotTeacher(s, a);
      case PrepareAction(w, j, position, dispatch, dbNow) =>
        if w == 0 && j < |s.jobs| { SingleSlotPrepare(s, j, position, dispatch, dbNow); }
      case SweepAction(j, position, now, dbNow) => if j < |s.jobs| { SingleSlotSweep(s, j, position, now, dbNow); }
      case ClaimAction(w, token, now, dbNow) =>
        if w == 0 && s.slots[0].Holding? { SingleSlotClaims(s, token, now, dbNow); }
      case FinishAction(w, outcome, now) => if w == 0 && s.slots[0].Calling? { SingleSlotFinishes(s, outcome, now); }
      case CrashAction(_) =>
      case _ => SingleSlotProvider(s, a);
    }
  }

  lemma ConfirmChanges(job: Job, positions: set<nat>, now: Time)
    requires ConfirmReviews(job, positions, now).Some?
    ensures
      var row := ConfirmReviews(job, positions, now).value;
      && |row.items| == |job.items|
      && forall i | 0 <= i < |row.items| ::
           row.items[i] == job.items[i] || (job.items[i].status == NeedsReview && row.items[i].dispatch == job.items[i].dispatch)
  {
  }

  /** Every run of a single-slot deployment is fresh. */
  lemma {:induction false} SingleSlotRunsAreFresh(s: System, actions: seq<Action>)
    requires Inv(s) && SingleSlot(s)
    ensures FreshRun(s, actions) && SingleSlot(Run(s, actions))
  {
    if actions != [] {
      var n := |actions| - 1;
      var front := actions[..n];
      SingleSlotRunsAreFresh(s, front);
      RunSafe(s, front);
      SingleSlotStep(Run(s, front), actions[n]);
      FreshRunExtends(s, actions);
    }
  }

  lemma FreshRunExtends(s: System, actions: seq<Action>)
    requires actions != []
    requires FreshRun(s, actions[..|actions| - 1])
    requires FreshStep(Run(s, actions[..|actions| - 1]), actions[|actions| - 1])
    ensures FreshRun(s, actions)
  {
    var front := actions[..|actions| - 1];
    forall m | 0 <= m < |actions| ensures FreshStep(Run(s, actions[..m]), actions[m]) {
      if m < |front| {
        assert front[..m] == actions[..m];
        assert FreshStep(Run(s, front[..m]), front[m]);
      }
    }
  }
}
