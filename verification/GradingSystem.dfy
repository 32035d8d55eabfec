/**
 The grading pipeline as a step system: provider rows, jobs, any number of worker slots and
 connection tests in progress. Every database transaction is one step; a slot keeps what its
 process holds between two transactions. A step that is not enabled changes nothing.
 */
module GradingSystem {
  import opened Wrappers
  import opened GradingRows
  import opened AttemptHistory
  import opened GradingTransitions
  import opened GradingInvariants
  import PC = ProviderConfigs

  /** A worker process: idle, between prepare and claim, or calling the provider. */
  datatype Slot =
    | Idle
    | Holding(prep: Preparation)
    | Calling(claim: Claim, correctionPrompt: bool)

  /** A connection test that has read the row and not yet written its result. */
  datatype Test = Test(provider: nat, version: nat, fields: PC.Fields)

  datatype System = System(
    retries: nat,                    // the runner's max_provider_retries
    providers: seq<PC.Provider>,
    jobs: seq<Job>,
    slots: seq<Slot>,
    tests: seq<Test>,
    tested: set<(nat, PC.Fields)>)   // every row content that a successful test used

  datatype Action =
    | CreateProvider(fields: PC.Fields, name: string, maxConcurrency: nat)
    | UpdateProvider(provider: nat, expected: nat, newFields: PC.Fields, newName: string, newMaxConcurrency: nat)
    | BeginTest(provider: nat)
    | PassTest(test: nat, now: Time)
    | EnableProvider(provider: nat)
    | DisableProvider(provider: nat)
    | CreateJob(provider: nat, count: nat, now: Time)
    | ControlAction(job: nat, control: Control, now: Time)
    | ConfirmAction(job: nat, positions: set<nat>, now: Time)
    | PrepareAction(slot: nat, job: nat, position: nat, dispatch: nat, dbNow: Time)
    | ClaimAction(slot: nat, token: Token, now: Time, dbNow: Time)
    | FinishAction(slot: nat, outcome: Outcome, now: Time)
    | CrashAction(slot: nat)
    | SweepAction(job: nat, position: nat, now: Time, dbNow: Time)

  // ----- provider-wide facts -----

  predicate HasOpenJobs(jobs: seq<Job>, provider: nat) {
    exists j | 0 <= j < |jobs| :: jobs[j].provider == provider && Open(jobs[j].status)
  }

  function RunningAttempts(h: seq<Attempt>): nat {
    if h == [] then 0
    else RunningAttempts(h[..|h| - 1]) + (if h[|h| - 1].status == InFlight then 1 else 0)
  }

  function RunningOfItems(items: seq<Item>): nat {
    if items == [] then 0
    else RunningOfItems(items[..|items| - 1]) + RunningAttempts(items[|items| - 1].attempts)
  }

  /** The running attempts of all jobs of a provider. */
  function RunningOfProvider(jobs: seq<Job>, provider: nat): nat {
    if jobs == [] then 0
    else
      RunningOfProvider(jobs[..|jobs| - 1], provider)
      + (if jobs[|jobs| - 1].provider == provider then RunningOfItems(jobs[|jobs| - 1].items) else 0)
  }

  /** The largest max_concurrency that any job of the provider was created with. */
  function LargestSnapshot(jobs: seq<Job>, provider: nat): nat {
    if jobs == [] then 0
    else
      var rest := LargestSnapshot(jobs[..|jobs| - 1], provider);
      if jobs[|jobs| - 1].provider == provider then Max(rest, jobs[|jobs| - 1].maxConcurrency) else rest
  }

  // ----- steps -----

  function SetProvider(s: System, p: nat, row: Option<PC.Provider>): System
    requires p < |s.providers|
  {
    if row.Some? then s.(providers := s.providers[p := row.value]) else s
  }

  function SetJob(s: System, j: nat, row: Option<Job>): System
    requires j < |s.jobs|
  {
    if row.Some? then s.(jobs := s.jobs[j := row.value]) else s
  }

  function SetSlot(s: System, w: nat, slot: Slot): System
    requires w < |s.slots|
  {
    s.(slots := s.slots[w := slot])
  }

  /** claim_attempt under the provider lock: a free provider slot and a dispatchable item. */
  function ClaimAttempt(jobs: seq<Job>, p: Preparation, token: Token, now: Time, dbNow: Time): Option<(Job, Claim)> {
    if p.job >= |jobs| || RunningOfProvider(jobs, p.provider) >= p.maxConcurrency then None
    else ClaimOn(jobs[p.job], p, token, now, dbNow)
  }

  function ClaimStep(s: System, w: nat, token: Token, now: Time, dbNow: Time): System
    requires w < |s.slots| && s.slots[w].Holding?
  {
    var p := s.slots[w].prep;
    match ClaimAttempt(s.jobs, p, token, now, dbNow)
    case None => SetSlot(s, w, Idle)
    case Some(claimed) =>
      SetSlot(s.(jobs := s.jobs[p.job := claimed.0]), w, Calling(claimed.1, p.plan.correctionPrompt))
  }

  function FinishStep(s: System, w: nat, outcome: Outcome, now: Time): System
    requires w < |s.slots| && s.slots[w].Calling?
  {
    var c := s.slots[w].claim;
    if c.job < |s.jobs| && c.sequence > 0 then
      var failure := Decide(outcome, c.sequence, s.slots[w].correctionPrompt, s.retries);
      SetSlot(SetJob(s, c.job, Finish(s.jobs[c.job], c, failure, now)), w, Idle)
    else
      s
  }

  function SweepStep(s: System, j: nat, position: nat, now: Time, dbNow: Time): System
    requires j < |s.jobs|
  {
    match SweepItem(s.jobs[j], position, now, dbNow)
    case Swept(row) => s.(jobs := s.jobs[j := row])
    case _ => s
  }

  function CreateJobStep(s: System, p: nat, count: nat, now: Time): System
    requires p < |s.providers|
  {
    var row := s.providers[p];
    if row.status == PC.Enabled && row.testedVersion == Some(row.configVersion) && row.fields.defaultModel.Some?
       && row.fields.defaultModel.value in row.fields.modelProfiles && 1 <= count <= 100
    then
      s.(jobs := s.jobs + [NewJob(p, row.configVersion, row.maxConcurrency, row.fields.timeoutMs, count, now)])
    else
      s
  }

  predicate VersionMatches(providers: seq<PC.Provider>, job: Job) {
    job.provider < |providers| && providers[job.provider].configVersion == job.configVersion
  }

  function ProviderStep(s: System, a: Action): System {
    match a
    case CreateProvider(fields, name, maxConcurrency) =>
      var row := PC.Provider(fields, name, maxConcurrency, PC.Draft, 1, None, None);
      if PC.Check(row) then s.(providers := s.providers + [row]) else s
    case UpdateProvider(p, expected, fields, name, maxConcurrency) =>
      if p < |s.providers| then
        SetProvider(s, p, PC.Update(s.providers[p], expected, fields, name, maxConcurrency, HasOpenJobs(s.jobs, p)))
      else s
    case BeginTest(p) =>
      if p < |s.providers| && s.providers[p].fields.encryptedKey.Some? && s.providers[p].fields.defaultModel.Some? then
        s.(tests := s.tests + [Test(p, s.providers[p].configVersion, s.providers[p].fields)])
      else s
    case PassTest(t, now) =>
      if t < |s.tests| && s.tests[t].provider < |s.providers| then
        var test := s.tests[t];
        SetProvider(s.(tested := s.tested + {(test.provider, test.fields)}),
                    test.provider,
                    PC.MarkTested(s.providers[test.provider], test.version, now, HasOpenJobs(s.jobs, test.provider)))
      else s
    case EnableProvider(p) =>
      if p < |s.providers| then SetProvider(s, p, PC.EnableTested(s.providers[p], HasOpenJobs(s.jobs, p))) else s
    case DisableProvider(p) =>
      if p < |s.providers| then SetProvider(s, p, PC.DisableEnabled(s.providers[p], HasOpenJobs(s.jobs, p))) else s
    case _ => s
  }

  function PrepareStep(s: System, w: nat, j: nat, position: nat, dispatch: nat, dbNow: Time): System
    requires w < |s.slots| && j < |s.jobs|
  {
    match Prepare(s.jobs[j], j, position, dispatch, dbNow)
    case Some(p) => if VersionMatches(s.providers, s.jobs[j]) then SetSlot(s, w, Holding(p)) else s
    case None => s
  }

  function Step(s: System, a: Action): System {
    match a
    case CreateJob(p, count, now) => if p < |s.providers| then CreateJobStep(s, p, count, now) else s
    case ControlAction(j, control, now) =>
      if j < |s.jobs| then
        SetJob(s, j, ControlJob(s.jobs[j], control, VersionMatches(s.providers, s.jobs[j]), now))
      else s
    case ConfirmAction(j, positions, now) =>
      if j < |s.jobs| then SetJob(s, j, ConfirmReviews(s.jobs[j], positions, now)) else s
    case PrepareAction(w, j, position, dispatch, dbNow) =>
      if w < |s.slots| && s.slots[w].Idle? && j < |s.jobs| then PrepareStep(s, w, j, position, dispatch, dbNow) else s
    case ClaimAction(w, token, now, dbNow) =>
      if w < |s.slots| && s.slots[w].Holding? then ClaimStep(s, w, token, now, dbNow) else s
    case FinishAction(w, outcome, now) =>
      if w < |s.slots| && s.slots[w].Calling? then FinishStep(s, w, outcome, now) else s
    case CrashAction(w) => if w < |s.slots| then SetSlot(s, w, Idle) else s
    case SweepAction(j, position, now, dbNow) =>
      if j < |s.jobs| then SweepStep(s, j, position, now, dbNow) else s
    case _ => ProviderStep(s, a)
  }

  /** A run: any actions in any order. */
  function Run(s: System, actions: seq<Action>): System {
    if actions == [] then s else Step(Run(s, actions[..|actions| - 1]), actions[|actions| - 1])
  }

  function Start(retries: nat, slots: nat): System {
    System(retries, [], [], seq(slots, i => Idle), [], {})
  }

  // ----- the system invariant -----

  predicate ProviderInv(row: PC.Provider, p: nat, tested: set<(nat, PC.Fields)>) {
    PC.Inv(row) && (row.testedVersion.Some? ==> (p, row.fields) in tested)
  }

  predicate TestInv(providers: seq<PC.Provider>, t: Test) {
    t.provider < |providers| && PC.Seen(t.version, t.fields, providers[t.provider])
  }

  /** An open job still has the provider version it was created with, and that version has a key. */
  predicate JobProviderInv(providers: seq<PC.Provider>, job: Job) {
    && job.provider < |providers|
    && job.configVersion <= providers[job.provider].configVersion
    && (Open(job.status) ==> VersionMatches(providers, job))
    && (VersionMatches(providers, job) ==> providers[job.provider].fields.encryptedKey.Some?)
  }

  predicate SlotInv(jobs: seq<Job>, slot: Slot) {
    match slot
    case Idle => true
    case Holding(p) =>
      && p.job < |jobs|
      && p.position < |jobs[p.job].items|
      && p.provider == jobs[p.job].provider
      && p.maxConcurrency == jobs[p.job].maxConcurrency
      && p.timeoutMs == jobs[p.job].timeoutMs
      && p.dispatch <= jobs[p.job].items[p.position].dispatch
    case Calling(c, _) =>
      && c.job < |jobs|
      && c.position < |jobs[c.job].items|
      && var it := jobs[c.job].items[c.position];
      && c.attempt < |it.attempts|
      && 0 < c.sequence == it.attempts[c.attempt].sequence
      && (it.attempts[c.attempt].status == InFlight ==> it.token == Some(c.token))
  }

  ghost predicate ConcurrencyInv(jobs: seq<Job>) {
    forall p: nat :: RunningOfProvider(jobs, p) <= LargestSnapshot(jobs, p)
  }

  ghost predicate Inv(s: System) {
    && (forall p | 0 <= p < |s.providers| :: ProviderInv(s.providers[p], p, s.tested))
    && (forall t | 0 <= t < |s.tests| :: TestInv(s.providers, s.tests[t]))
    && (forall j | 0 <= j < |s.jobs| :: JobInv(s.jobs[j], s.retries))
    && (forall j | 0 <= j < |s.jobs| :: JobProviderInv(s.providers, s.jobs[j]))
    && (forall w | 0 <= w < |s.slots| :: SlotInv(s.jobs, s.slots[w]))
    && ConcurrencyInv(s.jobs)
  }
}
