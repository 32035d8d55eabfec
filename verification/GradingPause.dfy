/** A job that the teacher paused, or that is over, is not called again until the teacher reopens it. */
module GradingPause {
  import opened Wrappers
  import opened GradingRows
  import opened GradingTransitions
  import opened GradingInvariants
  import opened GradingSystem
  import opened GradingSafety
  import opened GradingEffects
  import opened GradingTheorems

  /** The two actions that let a halted job run: resuming it and retrying one of its items. */
  predicate Reopens(a: Action, j: nat) {
    a.ControlAction? && a.job == j && (a.control.Resume? || a.control.RetryItem?)
  }

  predicate Halted(job: Job) {
    job.status != JobQueued && job.status != JobRunning
  }

  predicate SameCalls(a: Job, b: Job) {
    |a.items| == |b.items| && forall i | 0 <= i < |a.items| :: |b.items[i].attempts| == |a.items[i].attempts|
  }

  predicate StaysHalted(s: System, t: System, j: nat)
    requires j < |s.jobs|
  {
    j < |t.jobs| && Halted(t.jobs[j]) && SameCalls(s.jobs[j], t.jobs[j])
  }

  lemma FinishHalted(s: System, w: nat, outcome: Outcome, now: Time, j: nat)
    requires Inv(s) && j < |s.jobs| && Halted(s.jobs[j]) && w < |s.slots| && s.slots[w].Calling?
    ensures StaysHalted(s, FinishStep(s, w, outcome, now), j)
  {
    var c := s.slots[w].claim;
    assert SlotInv(s.jobs, s.slots[w]) && JobInv(s.jobs[c.job], s.retries);
    FinishWrites(s.jobs[c.job], c, outcome, s.slots[w].correctionPrompt, now, s.retries);
  }

  lemma ClaimHalted(s: System, w: nat, token: Token, now: Time, dbNow: Time, j: nat)
    requires Inv(s) && j < |s.jobs| && Halted(s.jobs[j]) && w < |s.slots| && s.slots[w].Holding?
    ensures StaysHalted(s, ClaimStep(s, w, token, now, dbNow), j)
  {
    var p := s.slots[w].prep;
    assert SlotInv(s.jobs, s.slots[w]) && JobInv(s.jobs[p.job], s.retries);
    ClaimWrites(s.jobs[p.job], p, token, now, dbNow, s.retries);
  }

  lemma SweepHalted(s: System, k: nat, position: nat, now: Time, dbNow: Time, j: nat)
    requires Inv(s) && j < |s.jobs| && Halted(s.jobs[j]) && k < |s.jobs|
    ensures StaysHalted(s, SweepStep(s, k, position, now, dbNow), j)
  {
    assert JobInv(s.jobs[k], s.retries);
    SweepWrites(s.jobs[k], position, now, dbNow, s.retries);
  }

  lemma ControlHalted(job: Job, control: Control, versionMatches: bool, now: Time)
    requires Halted(job) && !control.Resume? && !control.RetryItem?
    ensures
      var row := ControlJob(job, control, versionMatches, now);
      row.Some? ==> Halted(row.value) && SameCalls(job, row.value)
  {
    PauseWrites(job, versionMatches, now);
    CancelWrites(job, versionMatches, now);
  }

  lemma ConfirmHalted(job: Job, positions: set<nat>, now: Time, R: nat, row: Option<Job>)
    requires JobInv(job, R) && Halted(job) && row == ConfirmReviews(job, positions, now)
    ensures row.Some? ==> Halted(row.value) && SameCalls(job, row.value)
  {
    ConfirmWrites(job, positions, now, R);
  }

  lemma TeacherHalted(s: System, a: Action, j: nat)
    requires Inv(s) && j < |s.jobs| && Halted(s.jobs[j]) && !Reopens(a, j)
    requires a.ControlAction? || a.ConfirmAction?
    ensures StaysHalted(s, Step(s, a), j)
  {
    assert JobInv(s.jobs[j], s.retries);
    if a.job == j {
      if a.ControlAction? {
        ControlHalted(s.jobs[j], a.control, VersionMatches(s.providers, s.jobs[j]), a.now);
      } else {
        ConfirmHalted(s.jobs[j], a.positions, a.now, s.retries, ConfirmReviews(s.jobs[j], a.positions, a.now));
      }
    }
  }

  lemma OtherHalted(s: System, a: Action, j: nat)
    requires j < |s.jobs| && Halted(s.jobs[j])
    requires !a.ControlAction? && !a.ConfirmAction? && !a.ClaimAction? && !a.FinishAction? && !a.SweepAction?
    ensures StaysHalted(s, Step(s, a), j)
  {
  }

  lemma WorkerHalted(s: System, a: Action, j: nat)
    requires Inv(s) && j < |s.jobs| && Halted(s.jobs[j]) && (a.ClaimAction? || a.FinishAction?)
    ensures StaysHalted(s, Step(s, a), j)
  {
    if a.slot < |s.slots| {
      match a {
        case ClaimAction(w, token, now, dbNow) =>
          if s.slots[w].Holding? { ClaimHalted(s, w, token, now, dbNow, j); }
        case FinishAction(w, outcome, now) =>
          if s.slots[w].Calling? { FinishHalted(s, w, outcome, now, j); }
      }
    }
  }

  lemma SweepActionHalted(s: System, a: Action, j: nat)
    requires Inv(s) && j < |s.jobs| && Halted(s.jobs[j]) && a.SweepAction?
    ensures StaysHalted(s, Step(s, a), j)
  {
    if a.job < |s.jobs| { SweepHalted(s, a.job, a.position, a.now, a.dbNow, j); }
  }

  lemma HaltedStep(s: System, a: Action, j: nat)
    requires Inv(s) && j < |s.jobs| && Halted(s.jobs[j]) && !Reopens(a, j)
    ensures StaysHalted(s, Step(s, a), j)
  {
    match a {
      case ControlAction(_, _, _) => TeacherHalted(s, a, j);
      case ConfirmAction(_, _, _) => TeacherHalted(s, a, j);
      case ClaimAction(_, _, _, _) => WorkerHalted(s, a, j);
      case FinishAction(_, _, _) => WorkerHalted(s, a, j);
      case SweepAction(_, _, _, _) => SweepActionHalted(s, a, j);
      case _ => OtherHalted(s, a, j);
    }
  }

  /**
   From a state in which job j is paused, or over, no run adds an attempt to any of its items unless the
   teacher resumes it or retries one of them, whatever the workers still hold.
   */
  lemma {:induction false} HaltedJobsAreNotBilled(s: System, actions: seq<Action>, j: nat)
    requires Reachable(s) && j < |s.jobs| && s.jobs[j].status !in {JobQueued, JobRunning}
    requires forall k | 0 <= k < |actions| :: !Reopens(actions[k], j)
    ensures
      var t := Run(s, actions);
      && j < |t.jobs| && t.jobs[j].status !in {JobQueued, JobRunning}
      && |t.jobs[j].items| == |s.jobs[j].items|
      && forall i | 0 <= i < |s.jobs[j].items| ::
           |t.jobs[j].items[i].attempts| == |s.jobs[j].items[i].attempts|
    decreases |actions|
  {
    if actions != [] {
      var front := actions[..|actions| - 1];
      HaltedJobsAreNotBilled(s, front, j);
      ReachableInv(s);
      RunSafe(s, front);
      HaltedStep(Run(s, front), actions[|actions| - 1], j);
    }
  }
}
