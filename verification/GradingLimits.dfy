/**
 Exactly when the documented limits of a round hold: a run stays within R + 2 calls a round iff none of its
 claims came after two late corrections, and within one correction a round iff none of its finishes was a
 stale rejection. Both conditions are about the state just before the step.
 */
module GradingLimits {
  import opened Wrappers
  import opened GradingRows
  import opened AttemptHistory
  import opened GradingTransitions
  import opened GradingInvariants
  import opened GradingSystem
  import opened GradingEvolution
  import opened GradingSafety
  import opened GradingTheorems

  // ----- the two limits -----

  predicate AsksCorrection(a: Attempt) {
    a.errorCode == Some(CorrectionRequired)
  }

  /** No round of this history asked for two corrections. */
  predicate OneCorrection(h: seq<Attempt>) {
    forall i, k | 0 <= i < k < |h| && AsksCorrection(h[i]) && AsksCorrection(h[k]) :: h[i].round != h[k].round
  }

  predicate WithinCalls(h: seq<Attempt>, R: nat) {
    forall k | 0 <= k < |h| :: h[k].sequence <= R + 2
  }

  /** Both limits for all items of a job. */
  predicate JobWithinCalls(job: Job, R: nat) {
    forall i | 0 <= i < |job.items| :: WithinCalls(job.items[i].attempts, R)
  }

  predicate JobOneCorrection(job: Job) {
    forall i | 0 <= i < |job.items| :: OneCorrection(job.items[i].attempts)
  }

  predicate AllWithinCalls(s: System) {
    forall j | 0 <= j < |s.jobs| :: JobWithinCalls(s.jobs[j], s.retries)
  }

  predicate AllOneCorrection(s: System) {
    forall j | 0 <= j < |s.jobs| :: JobOneCorrection(s.jobs[j])
  }

  // ----- the steps that break them -----

  /** A claim that will be granted, for a round that has already asked for two late corrections. */
  predicate ExtraCall(s: System, a: Action) {
    && a.ClaimAction? && a.slot < |s.slots| && s.slots[a.slot].Holding?
    && var p := s.slots[a.slot].prep;
    && ClaimAttempt(s.jobs, p, a.token, a.now, a.dbNow).Some?
    && LateCorrections(s.jobs[p.job].items[p.position].attempts, p.dispatch, s.retries) >= 2
  }

  /** A rejected output whose plan did not know of the correction that its round had already asked for. */
  predicate StaleRejection(s: System, a: Action) {
    && a.FinishAction? && HoldsLease(s, a.slot) && a.outcome.OutputRejected? && !s.slots[a.slot].correctionPrompt
    && var c := s.slots[a.slot].claim;
    && var h := s.jobs[c.job].items[c.position].attempts;
    && HasCorrection(h, h[c.attempt].round)
  }

  // ----- what one transaction does to the histories of a job -----

  /** The same calls, none of which asks for a correction that did not before. */
  predicate Steady(a: seq<Attempt>, b: seq<Attempt>) {
    && |a| == |b|
    && forall k | 0 <= k < |a| :: SameCall(a[k], b[k]) && AsksCorrection(a[k]) == AsksCorrection(b[k])
  }

  lemma SteadyKeepsLimits(a: seq<Attempt>, b: seq<Attempt>, R: nat)
    requires Steady(a, b)
    ensures OneCorrection(a) == OneCorrection(b)
    ensures WithinCalls(a, R) == WithinCalls(b, R)
  {
    forall k | 0 <= k < |a| ensures a[k].sequence == b[k].sequence && a[k].round == b[k].round {
      assert SameCall(a[k], b[k]);
    }
  }

  predicate JobSteady(a: Job, b: Job) {
    |a.items| == |b.items| && forall i | 0 <= i < |a.items| :: Steady(a.items[i].attempts, b.items[i].attempts)
  }

  lemma JobSteadyKeepsLimits(a: Job, b: Job, R: nat)
    requires JobSteady(a, b)
    ensures JobOneCorrection(a) == JobOneCorrection(b)
    ensures JobWithinCalls(a, R) == JobWithinCalls(b, R)
  {
    forall i | 0 <= i < |a.items|
      ensures OneCorrection(a.items[i].attempts) == OneCorrection(b.items[i].attempts)
      ensures WithinCalls(a.items[i].attempts, R) == WithinCalls(b.items[i].attempts, R)
    {
      SteadyKeepsLimits(a.items[i].attempts, b.items[i].attempts, R);
    }
  }

  /** The limits of a job in which one item changed follow from those of the item. */
  lemma OneItemLimits(job: Job, row: Job, position: nat, it: Item, R: nat)
    requires position < |job.items| && row.items == job.items[position := it]
    ensures JobWithinCalls(job, R) && WithinCalls(it.attempts, R) ==> JobWithinCalls(row, R)
    ensures JobOneCorrection(job) && OneCorrection(it.attempts) ==> JobOneCorrection(row)
    ensures JobWithinCalls(row, R) ==> WithinCalls(it.attempts, R)
    ensures JobOneCorrection(row) ==> OneCorrection(it.attempts)
  {
    assert row.items[position] == it;
    forall i | 0 <= i < |job.items| && i != position ensures row.items[i] == job.items[i] {
    }
  }

  // ----- steps that make no call and ask for no correction -----

  predicate SystemSteady(s: System, t: System) {
    && t.retries == s.retries && |s.jobs| <= |t.jobs|
    && (forall j | 0 <= j < |s.jobs| :: JobSteady(s.jobs[j], t.jobs[j]))
    && (forall j | |s.jobs| <= j < |t.jobs| :: JobUncalled(t.jobs[j]))
  }

  predicate JobUncalled(job: Job) {
    forall i | 0 <= i < |job.items| :: job.items[i].attempts == []
  }

  lemma SameAttemptsSteady(a: Job, b: Job)
    requires |a.items| == |b.items| && forall i | 0 <= i < |a.items| :: b.items[i].attempts == a.items[i].attempts
    ensures JobSteady(a, b)
  {
  }

  lemma SystemReplaceSteady(s: System, j: nat, row: Option<Job>)
    requires j < |s.jobs| && (row.Some? ==> JobSteady(s.jobs[j], row.value))
    ensures SystemSteady(s, SetJob(s, j, row))
  {
    forall k | 0 <= k < |s.jobs| ensures JobSteady(s.jobs[k], s.jobs[k]) {
    }
  }

  /** One finished row that asks for no correction. */
  lemma FinishedSteady(job: Job, row: Job, position: nat, it: Item, k: nat, R: nat)
    requires JobInv(job, R) && position < |job.items| && row.items == job.items[position := it]
    requires k < |job.items[position].attempts| && job.items[position].attempts[k].status == InFlight
    requires k < |it.attempts| && it.attempts == job.items[position].attempts[k := it.attempts[k]]
    requires SameCall(job.items[position].attempts[k], it.attempts[k]) && !AsksCorrection(it.attempts[k])
    ensures JobSteady(job, row)
  {
    var h := job.items[position].attempts;
    assert Link(h, k, R);
    assert row.items[position] == it;
    forall i | 0 <= i < |job.items| ensures Steady(job.items[i].attempts, row.items[i].attempts) {
    }
  }

  lemma SweepSteady(s: System, j: nat, position: nat, now: Time, dbNow: Time)
    requires Inv(s) && j < |s.jobs|
    ensures SystemSteady(s, SweepStep(s, j, position, now, dbNow))
  {
    var job := s.jobs[j];
    SystemReplaceSteady(s, j, None);
    if position < |job.items| && LeaseExpiredAt(job.items[position], dbNow) {
      SweepKeepsJob(job, position, now, dbNow, s.retries);
      var it := job.items[position];
      RunningAttemptIsLast(it, s.retries);
      var row := SweepItem(job, position, now, dbNow).job;
      FinishedSteady(job, row, position, ExpiredItem(it, |it.attempts| - 1, now), |it.attempts| - 1, s.retries);
      SystemReplaceSteady(s, j, Some(row));
    }
  }

  lemma ControlSteady(s: System, j: nat, control: Control, matches: bool, now: Time, row: Option<Job>)
    requires j < |s.jobs| && row == ControlJob(s.jobs[j], control, matches, now)
    ensures SystemSteady(s, SetJob(s, j, row))
  {
    if row.Some? {
      ControlShape(s.jobs[j], control, matches, now);
      SameAttemptsSteady(s.jobs[j], row.value);
    }
    SystemReplaceSteady(s, j, row);
  }

  lemma ConfirmSteady(s: System, j: nat, positions: set<nat>, now: Time, row: Option<Job>)
    requires j < |s.jobs| && row == ConfirmReviews(s.jobs[j], positions, now)
    ensures SystemSteady(s, SetJob(s, j, row))
  {
    if row.Some? {
      ConfirmShape(s.jobs[j], positions, now);
      SameAttemptsSteady(s.jobs[j], row.value);
    }
    SystemReplaceSteady(s, j, row);
  }

  lemma SameJobsSteady(s: System, t: System)
    requires t.jobs == s.jobs && t.retries == s.retries
    ensures SystemSteady(s, t)
  {
    forall k | 0 <= k < |s.jobs| ensures JobSteady(s.jobs[k], s.jobs[k]) {
    }
  }

  lemma CreateSteady(s: System, a: Action)
    requires a.CreateJob?
    ensures SystemSteady(s, Step(s, a))
  {
    SameJobsSteady(s, s);
  }

  lemma ElsewhereSteady(s: System, a: Action)
    requires a.PrepareAction? || a.CrashAction? || a.CreateProvider? || a.UpdateProvider? || a.BeginTest? || a.PassTest?
             || a.EnableProvider? || a.DisableProvider?
    ensures SystemSteady(s, Step(s, a))
  {
    SameJobsSteady(s, Step(s, a));
  }

  lemma SteadyStep(s: System, a: Action)
    requires Inv(s) && !a.ClaimAction? && !a.FinishAction?
    ensures SystemSteady(s, Step(s, a))
  {
    SameJobsSteady(s, s);
    match a {
      case CreateJob(_, _, _) => CreateSteady(s, a);
      case ControlAction(j, control, now) =>
        if j < |s.jobs| {
          var matches := VersionMatches(s.providers, s.jobs[j]);
          ControlSteady(s, j, control, matches, now, ControlJob(s.jobs[j], control, matches, now));
        }
      case ConfirmAction(j, positions, now) =>
        if j < |s.jobs| { ConfirmSteady(s, j, positions, now, ConfirmReviews(s.jobs[j], positions, now)); }
      case SweepAction(j, position, now, dbNow) => if j < |s.jobs| { SweepSteady(s, j, position, now, dbNow); }
      case _ => ElsewhereSteady(s, a);
    }
  }

  lemma SystemSteadyKeepsLimits(s: System, t: System)
    requires SystemSteady(s, t)
    ensures AllOneCorrection(s) ==> AllOneCorrection(t)
    ensures AllWithinCalls(s) ==> AllWithinCalls(t)
  {
    forall j | 0 <= j < |t.jobs|
      ensures AllOneCorrection(s) ==> JobOneCorrection(t.jobs[j])
      ensures AllWithinCalls(s) ==> JobWithinCalls(t.jobs[j], s.retries)
    {
      if j < |s.jobs| {
        JobSteadyKeepsLimits(s.jobs[j], t.jobs[j], s.retries);
      } else {
        assert JobUncalled(t.jobs[j]);
      }
    }
  }

  // ----- steps on one item -----

  /** The limits of the system follow from those of the one item that changed. */
  lemma ItemStepLimits(s: System, j: nat, row: Job, position: nat, it: Item)
    requires j < |s.jobs| && position < |s.jobs[j].items| && row.items == s.jobs[j].items[position := it]
    ensures
      var t := SetJob(s, j, Some(row));
      && (AllOneCorrection(s) && OneCorrection(it.attempts) ==> AllOneCorrection(t))
      && (AllWithinCalls(s) && WithinCalls(it.attempts, s.retries) ==> AllWithinCalls(t))
      && (AllOneCorrection(t) ==> OneCorrection(it.attempts))
      && (AllWithinCalls(t) ==> WithinCalls(it.attempts, s.retries))
  {
    OneItemLimits(s.jobs[j], row, position, it, s.retries);
    var t := SetJob(s, j, Some(row));
    assert t.jobs[j] == row;
    forall k | 0 <= k < |s.jobs| && k != j ensures t.jobs[k] == s.jobs[k] {
    }
  }

  // ----- claims -----

  /** The new row is beyond the limit iff two late corrections of its round precede it. */
  lemma ClaimedCalls(it: Item, plan: Plan, token: Token, now: Time, timeoutMs: nat, R: nat)
    requires ItemInv(it, R) && it.status == Queued
    ensures
      var h := ClaimedItem(it, plan, token, now, timeoutMs).attempts;
      && (h[|it.attempts|].sequence > R + 2 <==> LateCorrections(it.attempts, it.dispatch, R) >= 2)
      && (WithinCalls(h, R) <==> WithinCalls(it.attempts, R) && LateCorrections(it.attempts, it.dispatch, R) < 2)
      && (OneCorrection(it.attempts) ==> OneCorrection(h))
  {
    ClaimKeepsItem(it, plan, token, now, timeoutMs, R);
    var h := ClaimedItem(it, plan, token, now, timeoutMs).attempts;
    CallsOfRound(h, R);
    assert h[..|h| - 1] == it.attempts;
    forall k | 0 <= k < |it.attempts| ensures h[k] == it.attempts[k] {
    }
  }

  lemma ClaimLimits(s: System, w: nat, token: Token, now: Time, dbNow: Time)
    requires Inv(s) && w < |s.slots| && s.slots[w].Holding?
    ensures
      var t := ClaimStep(s, w, token, now, dbNow);
      && (AllOneCorrection(s) ==> AllOneCorrection(t))
      && (ExtraCall(s, ClaimAction(w, token, now, dbNow)) ==> !AllWithinCalls(t))
      && (AllWithinCalls(s) && !ExtraCall(s, ClaimAction(w, token, now, dbNow)) ==> AllWithinCalls(t))
  {
    var p := s.slots[w].prep;
    match ClaimAttempt(s.jobs, p, token, now, dbNow) {
      case None =>
      case Some(claimed) =>
        var job, row := s.jobs[p.job], claimed.0;
        var it := job.items[p.position];
        assert JobInv(job, s.retries);
        ClaimKeepsJob(job, p, token, now, dbNow, s.retries);
        ClaimedCalls(it, p.plan, token, now, p.timeoutMs, s.retries);
        ItemStepLimits(s, p.job, row, p.position, ClaimedItem(it, p.plan, token, now, p.timeoutMs));
    }
  }

  // ----- finishes -----

  /** A finished call breaks the limit iff it asks for a correction that its round had asked for already. */
  lemma FinishedCorrections(it: Item, k: nat, outcome: Outcome, correctionPrompt: bool, now: Time, R: nat)
    requires ItemInv(it, R) && k < |it.attempts| && it.attempts[k].status == InFlight && it.attempts[k].sequence > 0
    ensures
      var h := it.attempts;
      var failure := Decide(outcome, h[k].sequence, correctionPrompt, R);
      var h' := FinishedItem(it, k, failure, now).attempts;
      && (WithinCalls(h, R) ==> WithinCalls(h', R))
      && (OneCorrection(h') <==>
            OneCorrection(h) && !(outcome.OutputRejected? && !correctionPrompt && HasCorrection(h, h[k].round)))
  {
    RunningIsLast(it, k, R);
    assert Link(it.attempts, k, R);
    var failure := Decide(outcome, it.attempts[k].sequence, correctionPrompt, R);
    LastRowCorrections(it.attempts, FinishedItem(it, k, failure, now).attempts[k]);
  }

  /** Rewriting the last row of a history, which did not ask for a correction. */
  lemma LastRowCorrections(h: seq<Attempt>, a: Attempt)
    requires h != [] && SameCall(h[|h| - 1], a) && !AsksCorrection(h[|h| - 1])
    ensures OneCorrection(h[|h| - 1 := a]) <==> OneCorrection(h) && !(AsksCorrection(a) && HasCorrection(h, a.round))
    ensures forall k | 0 <= k < |h| :: h[|h| - 1 := a][k].sequence == h[k].sequence
  {
    var n := |h| - 1;
    var h' := h[n := a];
    assert forall i | 0 <= i < n && AsksCorrection(h[i]) && h[i].round == a.round :: IsCorrectionSource(h[i], a.round);
    if AsksCorrection(a) && HasCorrection(h, a.round) {
      var j :| 0 <= j < |h| && IsCorrectionSource(h[j], a.round);
      assert AsksCorrection(h'[j]) && AsksCorrection(h'[n]) && h'[j].round == h'[n].round;
    } else {
      forall i, k | 0 <= i < k < |h| && AsksCorrection(h'[i]) && AsksCorrection(h'[k])
        ensures OneCorrection(h) ==> h'[i].round != h'[k].round
      {
        assert h'[i] == h[i];
      }
      forall i, k | 0 <= i < k < |h| && AsksCorrection(h[i]) && AsksCorrection(h[k])
        ensures OneCorrection(h') ==> h[i].round != h[k].round
      {
        assert h'[i] == h[i] && h'[k] == h[k];
      }
    }
  }

  lemma FinishedLimits(s: System, c: Claim, outcome: Outcome, correctionPrompt: bool, now: Time, row: Option<Job>)
    requires Inv(s) && SlotInv(s.jobs, Calling(c, correctionPrompt)) && LeaseHeld(s.jobs[c.job], c)
    requires row == Finish(s.jobs[c.job], c, Decide(outcome, c.sequence, correctionPrompt, s.retries), now)
    ensures
      var t := SetJob(s, c.job, row);
      var h := s.jobs[c.job].items[c.position].attempts;
      var stale := outcome.OutputRejected? && !correctionPrompt && HasCorrection(h, h[c.attempt].round);
      && (AllWithinCalls(s) ==> AllWithinCalls(t))
      && (stale ==> !AllOneCorrection(t))
      && (AllOneCorrection(s) && !stale ==> AllOneCorrection(t))
  {
    var job := s.jobs[c.job];
    var it := job.items[c.position];
    assert JobInv(job, s.retries);
    var failure := Decide(outcome, c.sequence, correctionPrompt, s.retries);
    FinishFacts(job, c, failure, correctionPrompt, now, s.retries, row);
    FinishedCorrections(it, c.attempt, outcome, correctionPrompt, now, s.retries);
    ItemStepLimits(s, c.job, row.value, c.position, FinishedItem(it, c.attempt, failure, now));
  }

  lemma FinishLimits(s: System, w: nat, outcome: Outcome, now: Time)
    requires Inv(s) && w < |s.slots| && s.slots[w].Calling?
    ensures
      var t := FinishStep(s, w, outcome, now);
      && (AllWithinCalls(s) ==> AllWithinCalls(t))
      && (StaleRejection(s, FinishAction(w, outcome, now)) ==> !AllOneCorrection(t))
      && (AllOneCorrection(s) && !StaleRejection(s, FinishAction(w, outcome, now)) ==> AllOneCorrection(t))
  {
    var c, prompt := s.slots[w].claim, s.slots[w].correctionPrompt;
    assert SlotInv(s.jobs, s.slots[w]);
    if LeaseHeld(s.jobs[c.job], c) {
      var row := Finish(s.jobs[c.job], c, Decide(outcome, c.sequence, prompt, s.retries), now);
      FinishedLimits(s, c, outcome, prompt, now, row);
      var t := SetJob(s, c.job, row);
      assert FinishStep(s, w, outcome, now) == SetSlot(t, w, Idle);
    }
  }

  // ----- a broken limit stays broken -----

  /** Rows that ask for a correction are finished, and finished rows are permanent. */
  lemma HistoryKeepsViolation(a: Item, b: Item, R: nat)
    requires ItemInv(a, R) && ItemEvolves(a, b)
    ensures WithinCalls(b.attempts, R) ==> WithinCalls(a.attempts, R)
    ensures OneCorrection(b.attempts) ==> OneCorrection(a.attempts)
  {
    forall k | 0 <= k < |a.attempts|
      ensures b.attempts[k].sequence == a.attempts[k].sequence
      ensures AsksCorrection(a.attempts[k]) ==> b.attempts[k] == a.attempts[k]
    {
      assert Link(a.attempts, k, R);
    }
  }

  lemma ViolationStays(s: System, t: System)
    requires Inv(s) && SystemEvolves(s, t)
    ensures AllWithinCalls(t) ==> AllWithinCalls(s)
    ensures AllOneCorrection(t) ==> AllOneCorrection(s)
  {
    forall j, i | 0 <= j < |s.jobs| && 0 <= i < |s.jobs[j].items|
      ensures AllWithinCalls(t) ==> WithinCalls(s.jobs[j].items[i].attempts, s.retries)
      ensures AllOneCorrection(t) ==> OneCorrection(s.jobs[j].items[i].attempts)
    {
      assert JobInv(s.jobs[j], s.retries) && JobEvolves(s.jobs[j], t.jobs[j]);
      HistoryKeepsViolation(s.jobs[j].items[i], t.jobs[j].items[i], s.retries);
    }
  }

  // ----- one step, and whole runs -----

  lemma ClaimActionLimits(s: System, a: Action)
    requires Inv(s) && a.ClaimAction?
    ensures AllWithinCalls(s) && !ExtraCall(s, a) ==> AllWithinCalls(Step(s, a))
    ensures ExtraCall(s, a) ==> !AllWithinCalls(Step(s, a))
    ensures AllOneCorrection(s) ==> AllOneCorrection(Step(s, a))
  {
    if a.slot < |s.slots| && s.slots[a.slot].Holding? { ClaimLimits(s, a.slot, a.token, a.now, a.dbNow); }
  }

  lemma FinishActionLimits(s: System, a: Action)
    requires Inv(s) && a.FinishAction?
    ensures AllWithinCalls(s) ==> AllWithinCalls(Step(s, a))
    ensures AllOneCorrection(s) && !StaleRejection(s, a) ==> AllOneCorrection(Step(s, a))
    ensures StaleRejection(s, a) ==> !AllOneCorrection(Step(s, a))
  {
    if a.slot < |s.slots| && s.slots[a.slot].Calling? { FinishLimits(s, a.slot, a.outcome, a.now); }
  }

  /** The exact effect of one step on the two limits. */
  lemma StepLimits(s: System, a: Action)
    requires Inv(s)
    ensures AllWithinCalls(Step(s, a)) <==> AllWithinCalls(s) && !ExtraCall(s, a)
    ensures AllOneCorrection(Step(s, a)) <==> AllOneCorrection(s) && !StaleRejection(s, a)
  {
    StepSafe(s, a);
    ViolationStays(s, Step(s, a));
    if a.ClaimAction? {
      ClaimActionLimits(s, a);
    } else if a.FinishAction? {
      FinishActionLimits(s, a);
    } else {
      SteadyStep(s, a);
      SystemSteadyKeepsLimits(s, Step(s, a));
    }
  }

  predicate NoExtraCall(s: System, actions: seq<Action>) {
    forall n | 0 <= n < |actions| :: !ExtraCall(Run(s, actions[..n]), actions[n])
  }

  predicate NoStaleRejection(s: System, actions: seq<Action>) {
    forall n | 0 <= n < |actions| :: !StaleRejection(Run(s, actions[..n]), actions[n])
  }

  /** The conditions on a run are those on its prefix and on its last step. */
  lemma ConditionsOfPrefix(s: System, actions: seq<Action>)
    requires actions != []
    ensures
      var front, a := actions[..|actions| - 1], actions[|actions| - 1];
      && (NoExtraCall(s, actions) <==> NoExtraCall(s, front) && !ExtraCall(Run(s, front), a))
      && (NoStaleRejection(s, actions) <==> NoStaleRejection(s, front) && !StaleRejection(Run(s, front), a))
  {
    var front := actions[..|actions| - 1];
    forall n | 0 <= n < |actions|
      ensures actions[..n] == (if n < |front| then front[..n] else front)
    {
    }
    forall n | 0 <= n < |front|
      ensures front[n] == actions[n] && Run(s, front[..n]) == Run(s, actions[..n])
    {
      assert front[..n] == actions[..n];
    }
  }

  lemma {:induction false} RunLimits(s: System, actions: seq<Action>)
    requires Inv(s) && AllWithinCalls(s) && AllOneCorrection(s)
    ensures AllWithinCalls(Run(s, actions)) <==> NoExtraCall(s, actions)
    ensures AllOneCorrection(Run(s, actions)) <==> NoStaleRejection(s, actions)
  {
    if actions != [] {
      var front := actions[..|actions| - 1];
      RunLimits(s, front);
      RunSafe(s, front);
      StepLimits(Run(s, front), actions[|actions| - 1]);
      ConditionsOfPrefix(s, actions);
    }
  }

  /**
   The documented limit of R + 2 calls a round holds after a run iff the run made no claim for a round that had
   asked for two corrections after its R retries.
   */
  lemma CallLimitIff(retries: nat, slots: nat, actions: seq<Action>)
    ensures AllWithinCalls(Run(Start(retries, slots), actions)) <==> NoExtraCall(Start(retries, slots), actions)
  {
    StartInv(retries, slots);
    RunLimits(Start(retries, slots), actions);
  }

  /**
   The documented limit of one correction a round holds after a run iff the run never finished a call whose output
   was rejected, whose plan sent no correction prompt, and whose round had already asked for a correction.
   */
  lemma CorrectionLimitIff(retries: nat, slots: nat, actions: seq<Action>)
    ensures AllOneCorrection(Run(Start(retries, slots), actions)) <==> NoStaleRejection(Start(retries, slots), actions)
  {
    StartInv(retries, slots);
    RunLimits(Start(retries, slots), actions);
  }

  /** Without stale rejections no claim is an extra call: one correction a round implies R + 2 calls a round. */
  lemma OneCorrectionImpliesCalls(s: System)
    requires Reachable(s) && AllOneCorrection(s)
    ensures AllWithinCalls(s)
  {
    forall j, i, k | 0 <= j < |s.jobs| && 0 <= i < |s.jobs[j].items| && 0 <= k < |s.jobs[j].items[i].attempts|
      ensures s.jobs[j].items[i].attempts[k].sequence <= s.retries + 2
    {
      var h := s.jobs[j].items[i].attempts;
      assert OneCorrection(h);
      CallsPerRound(s, j, i, k);
      OneLateCorrection(h[..k], h[k].round, s.retries);
    }
  }

  lemma {:induction false} OneLateCorrection(h: seq<Attempt>, round: nat, R: nat)
    requires OneCorrection(h)
    ensures LateCorrections(h, round, R) <= 1
    ensures !HasCorrection(h, round) ==> LateCorrections(h, round, R) == 0
  {
    if h != [] {
      var n := |h| - 1;
      var front := h[..n];
      OneLateCorrection(front, round, R);
      if HasCorrection(front, round) {
        var j :| 0 <= j < |front| && IsCorrectionSource(front[j], round);
        assert IsCorrectionSource(h[j], round) && AsksCorrection(h[j]);
        assert !(AsksCorrection(h[n]) && h[n].round == round);
      }
      if IsCorrectionSource(h[n], round) { assert HasCorrection(h, round); }
    }
  }
}
