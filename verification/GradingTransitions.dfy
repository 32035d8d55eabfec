/**
 What each transaction of the grading pipeline does to the rows of one job, stated as
 functions from the old rows to the new ones.
 */
module GradingTransitions {
  import opened Wrappers
  import opened GradingRows
  import opened AttemptHistory

  // ----- messages between the repository and the runner -----

  datatype Preparation = Preparation(
    job: nat,
    position: nat,
    dispatch: nat,
    provider: nat,
    maxConcurrency: nat,
    timeoutMs: nat,
    plan: Plan)

  datatype Claim = Claim(
    job: nat,
    position: nat,
    attempt: nat,        // attempt_id: the index in the item's attempts
    number: nat,
    round: nat,
    sequence: nat,
    token: Token)

  datatype FailureAction = Retry | ToReview | Fail

  datatype Failure = Failure(
    action: FailureAction,
    delayMs: nat,
    errorCode: ErrorCode,
    details: Details,
    callState: CallState,
    hasResponse: bool)

  // ----- the runner's decisions -----

  datatype AdapterErrorRow = AdapterError(code: nat, retryable: bool, safety: RetrySafety, hasResponse: bool)

  /** Only a retryable error may be marked safe; its constructor rejects anything else. */
  type AdapterError = e: AdapterErrorRow | e.safety == Safe ==> e.retryable
    witness AdapterError(0, false, Never, false)

  /** What came back from one provider call. */
  datatype Outcome =
    | UrlRejected
    | ProviderError(error: AdapterError)
    | OutputRejected          // a response that fails grading validation
    | OutputAccepted

  function Power2(n: nat): nat {
    if n == 0 then 1 else 2 * Power2(n - 1)
  }

  /** Seconds: min(60, 5 * 2 ** (sequence - 1)) */
  function BackoffMs(sequence: nat): nat
    requires sequence > 0
  {
    var seconds := 5 * Power2(sequence - 1);
    1000 * (if seconds < 60 then seconds else 60)
  }

  /** The failure the runner writes for an outcome; None when it writes a success. */
  function Decide(outcome: Outcome, sequence: nat, correctionPrompt: bool, R: nat): Option<Failure>
    requires sequence > 0
  {
    match outcome
    case UrlRejected =>
      Some(Failure(Fail, 0, UrlUnavailable, UrlPolicyRejected, NotSent, false))
    case ProviderError(e) =>
      var action :=
        if e.retryable && e.safety == Safe then (if sequence <= R then Retry else ToReview)
        else if e.safety == Unknown then ToReview
        else Fail;
      Some(Failure(
        action,
        if action == Retry then BackoffMs(sequence) else 0,
        ProviderCode(e.code),
        RetryInfo(e.retryable, e.safety),
        if e.hasResponse then ResponseReceived else if e.safety == Safe then NotSent else Ambiguous,
        e.hasResponse))
    case OutputRejected =>
      if correctionPrompt then
        Some(Failure(ToReview, 0, InvalidAfterCorrection, Issues, ResponseReceived, true))
      else
        Some(Failure(Retry, 0, CorrectionRequired, Issues, ResponseReceived, true))
    case OutputAccepted => None
  }

  // ----- item rows -----

  predicate Dispatchable(it: Item, dispatch: nat, dbNow: Time) {
    it.status == Queued && it.dispatch == dispatch && it.availableAt <= dbNow
  }

  function NewAttempt(it: Item, plan: Plan): Attempt {
    Attempt(
      plan.parent,
      MaxNumber(it.attempts) + 1,
      it.dispatch,
      MaxSequence(it.attempts, it.dispatch) + 1,
      plan.kind,
      InFlight, Started, None, NoDetails, false, None)
  }

  function ClaimedItem(it: Item, plan: Plan, token: Token, now: Time, timeoutMs: nat): Item {
    it.(status := Running,
        startedAt := Some(it.startedAt.GetOr(now)),
        token := Some(token),
        leaseExpires := Some(now + timeoutMs + 30_000),
        attempts := it.attempts + [NewAttempt(it, plan)])
  }

  function SucceededItem(it: Item, k: nat, now: Time): Item
    requires k < |it.attempts|
  {
    it.(status := NeedsReview, finishedAt := Some(now), token := None, leaseExpires := None, errorCode := None,
        attempts := it.attempts[k := it.attempts[k].(
          status := Succeeded, callState := ResponseReceived, hasResponse := true, finishedAt := Some(now))])
  }

  function FailedAttempt(a: Attempt, f: Failure, now: Time): Attempt {
    a.(status := Unsuccessful, callState := f.callState, errorCode := Some(f.errorCode), details := f.details,
       hasResponse := f.hasResponse, finishedAt := Some(now))
  }

  function FailedItem(it: Item, k: nat, f: Failure, now: Time): Item
    requires k < |it.attempts|
  {
    var row := it.(token := None, leaseExpires := None,
                   attempts := it.attempts[k := FailedAttempt(it.attempts[k], f, now)]);
    match f.action
    case Retry =>
      row.(status := Queued, retryCount := it.retryCount + 1, availableAt := now + f.delayMs,
           finishedAt := None, errorCode := None)
    case ToReview => row.(status := NeedsReview, finishedAt := Some(now), errorCode := Some(f.errorCode))
    case Fail => row.(status := Failed, finishedAt := Some(now), errorCode := Some(f.errorCode))
  }

  /** The sweeper: an outcome that is no longer known goes to the teacher. */
  function ExpiredItem(it: Item, k: nat, now: Time): Item
    requires k < |it.attempts|
  {
    it.(status := NeedsReview, finishedAt := Some(now), token := None, leaseExpires := None,
        errorCode := Some(OutcomeUnknown),
        attempts := it.attempts[k := it.attempts[k].(
          status := Unsuccessful, callState := Ambiguous, errorCode := Some(OutcomeUnknown),
          details := LeaseExpired, finishedAt := Some(now))])
  }

  function RequeuedItem(it: Item, now: Time): Item {
    it.(status := Queued, dispatch := it.dispatch + 1, retryCount := 0, availableAt := now, token := None,
        leaseExpires := None, startedAt := None, finishedAt := None, errorCode := None)
  }

  function CancelledItem(it: Item, now: Time): Item {
    if it.status == Queued then it.(status := Cancelled, finishedAt := Some(now)) else it
  }

  function ConfirmedItem(it: Item, now: Time): Item {
    it.(status := Completed, finishedAt := Some(now), errorCode := None, reviewConfirmed := true)
  }

  // ----- job rows: worker transactions -----

  function WithItem(job: Job, position: nat, it: Item): Job
    requires position < |job.items|
  {
    job.(items := job.items[position := it])
  }

  /** _reconcile_job; None is the "item count differs from the snapshot" error. */
  function Reconcile(job: Job, now: Time): Option<Job> {
    if |job.items| != job.expectedItems then None
    else
      var settled := job.status != JobCancelled && !HasActive(job.items);
      var row := job.(stateVersion := job.stateVersion + 1);
      if !settled then Some(row)
      else if Has(job.items, NeedsReview) || Has(job.items, Completed) then
        Some(row.(status := JobNeedsReview, finishedAt := None))
      else if Has(job.items, Failed) then
        Some(row.(status := JobFailed, finishedAt := Some(now)))
      else
        Some(row.(status := JobCancelled, finishedAt := Some(now)))
  }

  /** prepare_item on one job, for inputs that are still valid. */
  function Prepare(job: Job, j: nat, position: nat, dispatch: nat, dbNow: Time): Option<Preparation> {
    if position < |job.items| && Dispatchable(job.items[position], dispatch, dbNow)
       && (job.status == JobQueued || job.status == JobRunning)
    then
      Some(Preparation(j, position, dispatch, job.provider, job.maxConcurrency, job.timeoutMs,
                       PlanNext(job.items[position].attempts, dispatch)))
    else
      None
  }

  /** claim_attempt on one job, once the provider has a free slot. */
  function ClaimOn(job: Job, p: Preparation, token: Token, now: Time, dbNow: Time): Option<(Job, Claim)> {
    if p.position < |job.items| && (job.status == JobQueued || job.status == JobRunning)
       && Dispatchable(job.items[p.position], p.dispatch, dbNow)
    then
      var it := ClaimedItem(job.items[p.position], p.plan, token, now, p.timeoutMs);
      var a := it.attempts[|it.attempts| - 1];
      var row := WithItem(job, p.position, it).(stateVersion := job.stateVersion + 1);
      var started :=
        if job.status == JobQueued then
          row.(status := JobRunning, startedAt := Some(job.startedAt.GetOr(now)))
        else row;
      Some((started, Claim(p.job, p.position, |it.attempts| - 1, a.number, a.round, a.sequence, token)))
    else
      None
  }

  /** The lease test that both finishing transactions start with. */
  predicate LeaseHeld(job: Job, c: Claim) {
    && c.position < |job.items|
    && c.attempt < |job.items[c.position].attempts|
    && job.items[c.position].attempts[c.attempt].status == InFlight
    && job.items[c.position].status == Running
    && job.items[c.position].token == Some(c.token)
  }

  /** finish_success (failure None) and finish_failure; None when the transaction raises. */
  function Finish(job: Job, c: Claim, failure: Option<Failure>, now: Time): Option<Job> {
    if !LeaseHeld(job, c) then None
    else
      var it := job.items[c.position];
      var row := match failure
                 case None => SucceededItem(it, c.attempt, now)
                 case Some(f) => FailedItem(it, c.attempt, f, now);
      Reconcile(WithItem(job, c.position, row), now)
  }

  datatype Sweep = Skipped | NoRunningAttempt | CountMismatch | Swept(job: Job)

  /** The index of a running attempt: the row the sweeper selects. */
  function RunningAttempt(h: seq<Attempt>): (k: Option<nat>)
    ensures k.Some? ==> k.value < |h| && h[k.value].status == InFlight
  {
    if h == [] then None
    else if h[|h| - 1].status == InFlight then Some(|h| - 1)
    else RunningAttempt(h[..|h| - 1])
  }

  predicate LeaseExpiredAt(it: Item, dbNow: Time) {
    it.status == Running && it.leaseExpires.Some? && it.leaseExpires.value <= dbNow
  }

  /** One candidate of expire_stale_attempts. */
  function SweepItem(job: Job, position: nat, now: Time, dbNow: Time): Sweep {
    if position >= |job.items| || !LeaseExpiredAt(job.items[position], dbNow) then Skipped
    else
      match RunningAttempt(job.items[position].attempts)
      case None => NoRunningAttempt
      case Some(k) =>
        match Reconcile(WithItem(job, position, ExpiredItem(job.items[position], k, now)), now)
        case None => CountMismatch
        case Some(row) => Swept(row)
  }

  // ----- job rows: teacher transactions -----

  datatype Control = Pause | Resume | Cancel | RetryItem(position: nat)

  /**
   control_grading_job; None when it returns null or raises, which leaves every row as it was.
   versionMatches: the provider row still has the job's config_version.
   */
  function ControlJob(job: Job, action: Control, versionMatches: bool, now: Time): Option<Job> {
    var row := job.(stateVersion := job.stateVersion + 1);
    match action
    case Pause =>
      if job.status == JobQueued || job.status == JobRunning then
        JobUpdate(job.status, row.(status := JobPaused, startedAt := Some(job.startedAt.GetOr(now))), now)
      else None
    case Resume =>
      if job.status == JobPaused then JobUpdate(job.status, row.(status := JobRunning), now) else None
    case Cancel =>
      if Open(job.status) then
        JobUpdate(job.status,
                  row.(items := CancelQueued(job.items, now),
                       status := JobCancelled, startedAt := Some(job.startedAt.GetOr(now)),
                       finishedAt := Some(now)),
                  now)
      else None
    case RetryItem(position) =>
      if versionMatches && position < |job.items|
         && job.items[position].status in {NeedsReview, Failed} && !job.items[position].reviewConfirmed
      then
        JobUpdate(job.status,
                  WithItem(row, position, RequeuedItem(job.items[position], now)).(
                    status := JobRunning, startedAt := Some(job.startedAt.GetOr(now)), finishedAt := None),
                  now)
      else None
  }

  function CancelQueued(items: seq<Item>, now: Time): (r: seq<Item>)
    ensures |r| == |items|
    ensures forall i | 0 <= i < |items| :: r[i] == CancelledItem(items[i], now)
  {
    seq(|items|, i requires 0 <= i < |items| => CancelledItem(items[i], now))
  }

  /** A review of this item may be confirmed: its latest call of the current round succeeded. */
  predicate Confirmable(it: Item) {
    && it.status == NeedsReview
    && it.attempts != []
    && it.attempts[|it.attempts| - 1].status == Succeeded
    && it.attempts[|it.attempts| - 1].round == it.dispatch
  }

  function ConfirmAt(items: seq<Item>, positions: set<nat>, now: Time): (r: seq<Item>)
    ensures |r| == |items|
    ensures forall i | 0 <= i < |items| ::
              r[i] == if i in positions then ConfirmedItem(items[i], now) else items[i]
  {
    seq(|items|, i requires 0 <= i < |items| => if i in positions then ConfirmedItem(items[i], now) else items[i])
  }

  predicate AllCompleted(items: seq<Item>) {
    forall i | 0 <= i < |items| :: items[i].status == Completed
  }

  /** The last loop of confirm_teacher_reviews on one job, whose items are already written. */
  function CloseJob(job: Job, now: Time): Option<Job> {
    var row := job.(stateVersion := job.stateVersion + 1);
    if AllCompleted(row.items) then
      JobUpdate(job.status, row.(status := JobCompleted, finishedAt := Some(now)), now)
    else
      JobUpdate(job.status, row.(status := JobNeedsReview, finishedAt := None), now)
  }

  /** confirm_teacher_reviews for reviews of one job; None when nothing is committed. */
  function ConfirmReviews(job: Job, positions: set<nat>, now: Time): Option<Job> {
    if positions == {} || !(forall p | p in positions :: p < |job.items|) then None
    else if forall p | p in positions :: job.items[p].reviewConfirmed then Some(job)
    else if !(forall p | p in positions :: Confirmable(job.items[p])) then None
    else CloseJob(job.(items := ConfirmAt(job.items, positions, now)), now)
  }

  /** create_or_get_job, when it creates: every item queued, nothing called yet. */
  function NewJob(provider: nat, configVersion: nat, maxConcurrency: nat, timeoutMs: nat, count: nat, now: Time): Job {
    Job(provider, configVersion, maxConcurrency, timeoutMs, count, JobQueued, 1, None, None,
        seq(count, i => Item(Queued, 1, 0, now, None, None, None, None, None, false, [])))
  }
}
