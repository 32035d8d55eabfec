/**
 Why the limit of R + 2 calls needs more than the runner's own checks: two workers prepare the same item before
 either claims it, both are asked for a correction, and the round makes a third call with R = 0.
 */
module StalePreparation {
  import opened Wrappers
  import opened GradingRows
  import opened AttemptHistory
  import opened GradingTransitions
  import opened GradingSystem
  import opened GradingTheorems
  import opened GradingLimits
  import PC = ProviderConfigs

  const COLUMNS := PC.Fields("openai", "u", Some("k"), Some("n"), ["m"], Some("m"), 0, map["m" := "p"])

  const SETUP: seq<Action> := [
    CreateProvider(COLUMNS, "n", 1), BeginTest(0), PassTest(0, 0), EnableProvider(0), CreateJob(0, 1, 0)]

  const BOTH_PREPARE: seq<Action> := [PrepareAction(0, 0, 0, 1, 0), PrepareAction(1, 0, 0, 1, 0)]

  const FIRST_CALL: seq<Action> := [ClaimAction(0, 0, 0, 0), FinishAction(0, OutputRejected, 0)]

  const STALE_CALL: seq<Action> := [ClaimAction(1, 0, 0, 0), FinishAction(1, OutputRejected, 0)]

  const THIRD_CALL: seq<Action> := [PrepareAction(0, 0, 0, 1, 0), ClaimAction(0, 0, 0, 0)]

  lemma {:induction false} RunAppend(s: System, first: seq<Action>, second: seq<Action>)
    ensures Run(s, first + second) == Run(Run(s, first), second)
  {
    if second == [] {
      assert first + second == first;
    } else {
      var n := |second| - 1;
      assert (first + second)[..|first + second| - 1] == first + second[..n];
      RunAppend(s, first, second[..n]);
    }
  }

  lemma RunTwo(s: System, a: Action, b: Action)
    ensures Run(s, [a, b]) == Step(Step(s, a), b)
  {
    assert [a, b][..1] == [a];
    assert [a][..0] == [];
    assert Run(s, [a]) == Step(Run(s, []), a);
  }

  const ROW := PC.Provider(COLUMNS, "n", 1, PC.Draft, 1, None, None)
  const TESTED_ROW := ROW.(testedAt := Some(0), testedVersion := Some(1))
  const ENABLED_ROW := TESTED_ROW.(status := PC.Enabled)

  lemma ProviderIsEnabled(s: System)
    requires s == Start(0, 2)
    ensures
      var t := Step(Step(Step(Step(s, SETUP[0]), SETUP[1]), SETUP[2]), SETUP[3]);
      t.providers == [ENABLED_ROW] && t.jobs == [] && t.slots == [Idle, Idle] && t.retries == 0
  {
    var s1 := Step(s, SETUP[0]);
    assert s1.providers == [ROW];
    var s2 := Step(s1, SETUP[1]);
    assert s2.tests == [Test(0, 1, COLUMNS)] && s2.providers == [ROW];
    var s3 := Step(s2, SETUP[2]);
    assert PC.MarkTested(ROW, 1, 0, false) == Some(TESTED_ROW);
    assert s3.providers == [TESTED_ROW];
    assert PC.EnableTested(TESTED_ROW, false) == Some(ENABLED_ROW);
  }

  lemma JobIsCreated(s: System)
    requires s.providers == [ENABLED_ROW] && s.jobs == []
    ensures Step(s, SETUP[4]) == s.(jobs := [NewJob(0, 1, 1, 0, 1, 0)])
  {
    assert SETUP[4] == CreateJob(0, 1, 0);
    assert "m" in COLUMNS.modelProfiles;
  }

  lemma SetupRuns() returns (s: System)
    ensures s == Run(Start(0, 2), SETUP)
    ensures s.retries == 0 && s.slots == [Idle, Idle] && s.providers == [ENABLED_ROW]
    ensures s.jobs == [NewJob(0, 1, 1, 0, 1, 0)]
  {
    var s0 := Start(0, 2);
    ProviderIsEnabled(s0);
    var s4 := Step(Step(Step(Step(s0, SETUP[0]), SETUP[1]), SETUP[2]), SETUP[3]);
    JobIsCreated(s4);
    s := Step(s4, SETUP[4]);
    RunTwo(s0, SETUP[0], SETUP[1]);
    RunTwo(Run(s0, [SETUP[0], SETUP[1]]), SETUP[2], SETUP[3]);
    RunAppend(s0, [SETUP[0], SETUP[1]], [SETUP[2], SETUP[3]]);
    assert [SETUP[0], SETUP[1]] + [SETUP[2], SETUP[3]] == SETUP[..|SETUP| - 1];
  }

  const FIRST_PLAN := Plan(Initial, None, false)
  const STALE_PREPARATION := Preparation(0, 0, 1, 0, 1, 0, FIRST_PLAN)
  const ASK_CORRECTION := Failure(Retry, 0, CorrectionRequired, Issues, ResponseReceived, true)

  /** The only job of the run, between two calls on its only item. */
  predicate Between(job: Job, h: seq<Attempt>) {
    && job.provider == 0 && job.maxConcurrency == 1 && job.timeoutMs == 0 && job.configVersion == 1
    && job.expectedItems == 1 && job.status in {JobQueued, JobRunning}
    && |job.items| == 1
    && var it := job.items[0];
    && it.status == Queued && it.dispatch == 1 && it.availableAt == 0 && it.attempts == h
    && RunningAttempts(h) == 0
  }

  function RejectedRow(h: seq<Attempt>): Attempt {
    Attempt(None, MaxNumber(h) + 1, 1, MaxSequence(h, 1) + 1, Initial, Unsuccessful, ResponseReceived,
            Some(CorrectionRequired), Issues, true, Some(0))
  }

  lemma ClaimEffect(job: Job, h: seq<Attempt>) returns (row: Job, c: Claim)
    requires Between(job, h)
    ensures ClaimAttempt([job], STALE_PREPARATION, 0, 0, 0) == Some((row, c))
    ensures row.expectedItems == 1 && row.status == JobRunning && row.items == [ClaimedItem(job.items[0], FIRST_PLAN, 0, 0, 0)]
    ensures row.provider == 0 && row.maxConcurrency == 1 && row.timeoutMs == 0 && row.configVersion == 1
    ensures c == Claim(0, 0, |h|, MaxNumber(h) + 1, 1, MaxSequence(h, 1) + 1, 0)
  {
    assert [job][..0] == [] && job.items[..0] == [];
    assert RunningOfItems(job.items) == 0;
    assert RunningOfProvider([job], 0) == 0;
    var claimed := ClaimOn(job, STALE_PREPARATION, 0, 0, 0).value;
    row, c := claimed.0, claimed.1;
    assert row.items[0].attempts[|h|] == NewAttempt(job.items[0], FIRST_PLAN);
  }

  lemma FinishEffect(job: Job, it: Item, h: seq<Attempt>, c: Claim) returns (row: Job)
    requires it.status == Queued && it.dispatch == 1 && it.attempts == h && RunningAttempts(h) == 0
    requires job.expectedItems == 1 && job.status == JobRunning && job.items == [ClaimedItem(it, FIRST_PLAN, 0, 0, 0)]
    requires job.provider == 0 && job.maxConcurrency == 1 && job.timeoutMs == 0 && job.configVersion == 1
    requires c == Claim(0, 0, |h|, MaxNumber(h) + 1, 1, MaxSequence(h, 1) + 1, 0)
    ensures Finish(job, c, Some(ASK_CORRECTION), 0) == Some(row)
    ensures Between(row, h + [RejectedRow(h)])
  {
    var after := FailedItem(job.items[0], |h|, ASK_CORRECTION, 0);
    assert after.attempts == h + [RejectedRow(h)];
    assert after.attempts[..|h|] == h;
    var settled := WithItem(job, 0, after);
    assert settled.items == [after] && settled.items[0].status == Queued;
    assert HasActive(settled.items);
    row := Reconcile(settled, 0).value;
  }

  lemma StaleClaim(s: System, w: nat, h: seq<Attempt>) returns (t: System, claimed: Job, c: Claim)
    requires w < 2 && |s.slots| == 2 && s.slots[w] == Holding(STALE_PREPARATION)
    requires |s.jobs| == 1 && Between(s.jobs[0], h)
    ensures t == Step(s, ClaimAction(w, 0, 0, 0))
    ensures t == s.(jobs := [claimed], slots := s.slots[w := Calling(c, false)])
    ensures claimed.expectedItems == 1 && claimed.status == JobRunning
    ensures claimed.items == [ClaimedItem(s.jobs[0].items[0], FIRST_PLAN, 0, 0, 0)]
    ensures claimed.provider == 0 && claimed.maxConcurrency == 1 && claimed.timeoutMs == 0 && claimed.configVersion == 1
    ensures c == Claim(0, 0, |h|, MaxNumber(h) + 1, 1, MaxSequence(h, 1) + 1, 0)
  {
    claimed, c := ClaimEffect(s.jobs[0], h);
    assert s.jobs == [s.jobs[0]];
    t := s.(jobs := [claimed], slots := s.slots[w := Calling(c, false)]);
  }

  lemma StaleFinish(s: System, w: nat, it: Item, h: seq<Attempt>, c: Claim) returns (t: System)
    requires w < 2 && |s.slots| == 2 && s.slots[w] == Calling(c, false) && |s.jobs| == 1
    requires it.status == Queued && it.dispatch == 1 && it.attempts == h && RunningAttempts(h) == 0
    requires
      var job := s.jobs[0];
      && job.expectedItems == 1 && job.status == JobRunning && job.items == [ClaimedItem(it, FIRST_PLAN, 0, 0, 0)]
      && job.provider == 0 && job.maxConcurrency == 1 && job.timeoutMs == 0 && job.configVersion == 1
    requires c == Claim(0, 0, |h|, MaxNumber(h) + 1, 1, MaxSequence(h, 1) + 1, 0)
    ensures t == Step(s, FinishAction(w, OutputRejected, 0))
    ensures t.slots == s.slots[w := Idle] && t.providers == s.providers && t.retries == s.retries
    ensures |t.jobs| == 1 && Between(t.jobs[0], h + [RejectedRow(h)])
  {
    var row := FinishEffect(s.jobs[0], it, h, c);
    assert s.jobs[0 := row] == [row];
    t := s.(jobs := [row], slots := s.slots[w := Idle]);
  }

  /** A claim with the stale preparation, answered by an output that has to be corrected. */
  lemma RejectedCall(s: System, w: nat, h: seq<Attempt>) returns (t: System, a: Attempt)
    requires w < 2 && |s.slots| == 2 && s.slots[w] == Holding(STALE_PREPARATION)
    requires |s.jobs| == 1 && Between(s.jobs[0], h)
    ensures t == Run(s, [ClaimAction(w, 0, 0, 0), FinishAction(w, OutputRejected, 0)])
    ensures t.slots == s.slots[w := Idle] && t.providers == s.providers && t.retries == s.retries
    ensures |t.jobs| == 1 && Between(t.jobs[0], h + [a])
    ensures a.round == 1 && a.sequence == MaxSequence(h, 1) + 1
  {
    a := RejectedRow(h);
    var called, claimed, c := StaleClaim(s, w, h);
    t := StaleFinish(called, w, s.jobs[0].items[0], h, c);
    RunTwo(s, ClaimAction(w, 0, 0, 0), FinishAction(w, OutputRejected, 0));
  }

  lemma BothPrepared(s: System) returns (t: System)
    requires s.slots == [Idle, Idle] && s.providers == [ENABLED_ROW] && s.jobs == [NewJob(0, 1, 1, 0, 1, 0)]
    ensures t == Run(s, BOTH_PREPARE)
    ensures t.slots == [Holding(STALE_PREPARATION), Holding(STALE_PREPARATION)]
    ensures t.jobs == s.jobs && t.providers == s.providers && t.retries == s.retries && Between(t.jobs[0], [])
  {
    assert Prepare(s.jobs[0], 0, 0, 1, 0) == Some(STALE_PREPARATION);
    assert VersionMatches(s.providers, s.jobs[0]);
    var s1 := Step(s, BOTH_PREPARE[0]);
    assert s1.slots == [Holding(STALE_PREPARATION), Idle];
    t := Step(s1, BOTH_PREPARE[1]);
    RunTwo(s, BOTH_PREPARE[0], BOTH_PREPARE[1]);
  }

  lemma ThirdCallMade(s: System, h: seq<Attempt>) returns (t: System)
    requires s.slots == [Idle, Idle] && s.providers == [ENABLED_ROW] && |s.jobs| == 1 && Between(s.jobs[0], h)
    ensures t == Run(s, THIRD_CALL) && t.retries == s.retries
    ensures |t.jobs| == 1 && |t.jobs[0].items| == 1
    ensures |t.jobs[0].items[0].attempts| == |h| + 1
    ensures t.jobs[0].items[0].attempts[|h|].round == 1
    ensures t.jobs[0].items[0].attempts[|h|].sequence == MaxSequence(h, 1) + 1
  {
    var s1 := Step(s, THIRD_CALL[0]);
    assert VersionMatches(s.providers, s.jobs[0]);
    var p := Preparation(0, 0, 1, 0, 1, 0, PlanNext(h, 1));
    assert s1 == s.(slots := [Holding(p), Idle]);
    assert s.jobs[..0] == [] && s.jobs[0].items[..0] == [];
    assert RunningOfItems(s.jobs[0].items) == 0;
    assert RunningOfProvider(s.jobs, 0) == 0;
    t := Step(s1, THIRD_CALL[1]);
    RunTwo(s, THIRD_CALL[0], THIRD_CALL[1]);
  }

  lemma RunFive(s: System, a: seq<Action>, b: seq<Action>, c: seq<Action>, d: seq<Action>, e: seq<Action>)
    ensures Run(s, a + b + c + d + e) == Run(Run(Run(Run(Run(s, a), b), c), d), e)
  {
    RunAppend(s, a, b);
    RunAppend(s, a + b, c);
    RunAppend(s, a + b + c, d);
    RunAppend(s, a + b + c + d, e);
  }

  lemma SequencesOfRound(a: Attempt, b: Attempt)
    requires a.round == 1 && b.round == 1 && b.sequence == a.sequence + 1
    ensures MaxSequence([], 1) == 0
    ensures MaxSequence([a], 1) == a.sequence
    ensures MaxSequence([a] + [b], 1) == b.sequence
  {
    assert [a][..0] == [] && ([a] + [b])[..1] == [a];
  }

  lemma TwoRejectedCalls(s: System) returns (t: System, h: seq<Attempt>)
    requires s.slots == [Holding(STALE_PREPARATION), Holding(STALE_PREPARATION)] && |s.jobs| == 1 && Between(s.jobs[0], [])
    ensures t == Run(Run(s, FIRST_CALL), STALE_CALL)
    ensures t.slots == [Idle, Idle] && t.providers == s.providers && t.retries == s.retries
    ensures |t.jobs| == 1 && Between(t.jobs[0], h) && |h| == 2 && MaxSequence(h, 1) == 2
  {
    var u, a := RejectedCall(s, 0, []);
    assert [] + [a] == [a];
    var v, b := RejectedCall(u, 1, [a]);
    t, h := v, [a] + [b];
    SequencesOfRound(a, a.(sequence := a.sequence + 1));
    SequencesOfRound(a, b);
  }

  /** The state after the whole run, reached phase by phase. */
  lemma StaleRun() returns (s: System)
    ensures s == Run(Run(Run(Run(Run(Start(0, 2), SETUP), BOTH_PREPARE), FIRST_CALL), STALE_CALL), THIRD_CALL)
    ensures s.retries == 0
    ensures |s.jobs| == 1 && |s.jobs[0].items| == 1 && |s.jobs[0].items[0].attempts| == 3
    ensures s.jobs[0].items[0].attempts[2].round == 1
    ensures s.jobs[0].items[0].attempts[2].sequence == 3
  {
    s := SetupRuns();
    s := BothPrepared(s);
    var h;
    s, h := TwoRejectedCalls(s);
    s := ThirdCallMade(s, h);
  }

  const WHOLE_RUN: seq<Action> := SETUP + BOTH_PREPARE + FIRST_CALL + STALE_CALL + THIRD_CALL

  /**
   With R = 0 this run makes three calls in one round, one more than R + 2. By the exact conditions, two late
   corrections precede the third call, one of the run's claims was an extra call, and one of its finishes a
   stale rejection.
   */
  lemma StalePreparationBreaksTheLimit()
    ensures
      var s := Run(Start(0, 2), WHOLE_RUN);
      && s.retries == 0 && ItemExists(s, 0, 0)
      && var h := s.jobs[0].items[0].attempts;
      && |h| == 3 && h[2].round == 1 && h[2].sequence == 3
      && LateCorrections(h[..2], 1, 0) == 2
    ensures !AllWithinCalls(Run(Start(0, 2), WHOLE_RUN)) && !NoExtraCall(Start(0, 2), WHOLE_RUN)
    ensures !AllOneCorrection(Run(Start(0, 2), WHOLE_RUN)) && !NoStaleRejection(Start(0, 2), WHOLE_RUN)
  {
    var s := StaleRun();
    RunFive(Start(0, 2), SETUP, BOTH_PREPARE, FIRST_CALL, STALE_CALL, THIRD_CALL);
    LimitsBroken(s, WHOLE_RUN);
  }

  /** Any run that ends with a third call in a round, for R = 0. */
  lemma LimitsBroken(s: System, actions: seq<Action>)
    requires s == Run(Start(0, 2), actions) && s.retries == 0 && ItemExists(s, 0, 0)
    requires |s.jobs[0].items[0].attempts| == 3
    requires s.jobs[0].items[0].attempts[2].round == 1 && s.jobs[0].items[0].attempts[2].sequence == 3
    ensures LateCorrections(s.jobs[0].items[0].attempts[..2], 1, 0) == 2
    ensures !AllWithinCalls(s) && !NoExtraCall(Start(0, 2), actions)
    ensures !AllOneCorrection(s) && !NoStaleRejection(Start(0, 2), actions)
  {
    assert Reachable(s);
    CallsPerRound(s, 0, 0, 2);
    assert !WithinCalls(s.jobs[0].items[0].attempts, 0);
    if AllOneCorrection(s) { OneCorrectionImpliesCalls(s); }
    CallLimitIff(0, 2, actions);
    CorrectionLimitIff(0, 2, actions);
  }
}
