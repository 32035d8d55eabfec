/**
 Rows of the grading pipeline, the CHECK constraints on them, and the row triggers that
 every UPDATE passes through.

 A job owns its items (position is the index) and an item owns its attempts (in insertion
 order); the foreign keys never change, so this nesting loses nothing.
 */
module GradingRows {
  import opened Wrappers

  type Time = int      // milliseconds
  type Token = nat     // a lease token; nothing below assumes that two of them differ

  // ----- attempts -----

  datatype AttemptKind = Initial | Correction | AutomaticRetry | ManualRetry
  datatype AttemptStatus = InFlight | Succeeded | Unsuccessful
  datatype CallState = Started | NotSent | ResponseReceived | Ambiguous
  datatype RetrySafety = Safe | Unknown | Never

  datatype ErrorCode =
    | OutcomeUnknown               // provider_call_outcome_unknown
    | CorrectionRequired           // grade_output_correction_required
    | InvalidAfterCorrection       // grade_output_invalid_after_correction
    | UrlUnavailable               // provider_base_url_unavailable
    | ProviderCode(code: nat)      // any code of a ProviderAdapterError

  datatype Details =
    | NoDetails
    | Issues
    | RetryInfo(retryable: bool, safety: RetrySafety)
    | LeaseExpired
    | UrlPolicyRejected

  datatype Attempt = Attempt(
    parent: Option<nat>,           // index of the parent in the attempts of the same item
    number: nat,
    round: nat,
    sequence: nat,
    kind: AttemptKind,
    status: AttemptStatus,
    callState: CallState,
    errorCode: Option<ErrorCode>,
    details: Details,
    hasResponse: bool,             // raw_response_object_key is not null
    finishedAt: Option<Time>)

  predicate AttemptCheck(a: Attempt) {
    match a.status
    case InFlight => a.finishedAt.None?
    case Succeeded => a.finishedAt.Some? && a.callState == ResponseReceived && a.hasResponse
    case Unsuccessful => a.finishedAt.Some? && a.errorCode.Some?
  }

  /** The attempt history trigger: a row leaves running exactly once and keeps its identity. */
  predicate AttemptUpdateAllowed(old_: Attempt, new_: Attempt) {
    && old_.status == InFlight
    && new_.status != InFlight
    && SameCall(old_, new_)
  }

  predicate SameCall(a: Attempt, b: Attempt) {
    && a.parent == b.parent
    && a.number == b.number
    && a.round == b.round
    && a.sequence == b.sequence
    && a.kind == b.kind
  }

  // ----- items -----

  datatype ItemStatus = Queued | Running | NeedsReview | Completed | Failed | Cancelled

  datatype Item = Item(
    status: ItemStatus,
    dispatch: nat,                 // dispatch_version
    retryCount: nat,
    availableAt: Time,
    token: Option<Token>,
    leaseExpires: Option<Time>,
    startedAt: Option<Time>,
    finishedAt: Option<Time>,
    errorCode: Option<ErrorCode>,
    reviewConfirmed: bool,         // a confirmed teacher review exists
    attempts: seq<Attempt>)

  predicate ItemCheck(it: Item) {
    && it.dispatch > 0
    && match it.status
       case Queued =>
         it.finishedAt.None? && it.token.None? && it.leaseExpires.None? && it.errorCode.None?
       case Running =>
         && it.startedAt.Some? && it.finishedAt.None? && it.token.Some?
         && it.leaseExpires.Some? && it.errorCode.None?
       case NeedsReview => it.finishedAt.Some? && it.token.None? && it.leaseExpires.None?
       case Completed =>
         it.finishedAt.Some? && it.token.None? && it.leaseExpires.None? && it.errorCode.None?
       case Failed =>
         it.finishedAt.Some? && it.token.None? && it.leaseExpires.None? && it.errorCode.Some?
       case Cancelled => it.finishedAt.Some? && it.token.None? && it.leaseExpires.None?
  }

  /** The item history trigger, as migration 0015 leaves it. */
  predicate ItemUpdateAllowed(old_: Item, new_: Item) {
    && (|| (old_.status == Queued && new_.status in {Running, Cancelled})
        || (old_.status == Running && new_.status in {Queued, NeedsReview, Completed, Failed, Cancelled})
        || (old_.status == NeedsReview && new_.status == Completed)
        || (old_.status in {NeedsReview, Failed} && new_.status == Queued))
    && (if old_.status in {NeedsReview, Failed} && new_.status == Queued then
          new_.dispatch == old_.dispatch + 1 && new_.retryCount == 0
        else if old_.status == Running && new_.status == Queued then
          new_.dispatch == old_.dispatch && new_.retryCount == old_.retryCount + 1
        else
          new_.dispatch == old_.dispatch && new_.retryCount == old_.retryCount)
  }

  // ----- jobs -----

  datatype JobStatus =
    | JobQueued | JobRunning | JobPaused | JobNeedsReview | JobCompleted | JobFailed | JobCancelled

  datatype Job = Job(
    provider: nat,                 // index of the provider row
    configVersion: nat,            // provider_config_version
    maxConcurrency: nat,           // from the provider snapshot
    timeoutMs: nat,                // from the provider snapshot
    expectedItems: nat,
    status: JobStatus,
    stateVersion: nat,
    startedAt: Option<Time>,
    finishedAt: Option<Time>,
    items: seq<Item>)

  predicate JobCheck(job: Job) {
    && 1 <= job.expectedItems <= 100
    && job.stateVersion > 0
    && match job.status
       case JobQueued => job.startedAt.None? && job.finishedAt.None?
       case JobRunning => job.startedAt.Some? && job.finishedAt.None?
       case JobPaused => job.startedAt.Some? && job.finishedAt.None?
       case JobNeedsReview => job.startedAt.Some? && job.finishedAt.None?
       case JobCompleted => job.finishedAt.Some?
       case JobFailed => job.finishedAt.Some?
       case JobCancelled => job.finishedAt.Some?
  }

  predicate Has(items: seq<Item>, s: ItemStatus) {
    exists i | 0 <= i < |items| :: items[i].status == s
  }

  predicate HasActive(items: seq<Item>) {
    Has(items, Queued) || Has(items, Running)
  }

  /** A job that may still claim work. */
  predicate Open(s: JobStatus) {
    s == JobQueued || s == JobRunning || s == JobPaused
  }

  /** The job snapshot trigger's transition table, as migration 0012 leaves it. */
  predicate JobTransitionAllowed(from: JobStatus, to: JobStatus) {
    || from == to
    || (from == JobQueued && to in {JobRunning, JobPaused, JobCancelled})
    || (from == JobRunning && to in {JobPaused, JobNeedsReview, JobCompleted, JobFailed, JobCancelled})
    || (from == JobPaused && to in {JobRunning, JobNeedsReview, JobCompleted, JobFailed, JobCancelled})
    || (from == JobNeedsReview && to in {JobCompleted, JobFailed, JobCancelled})
    || (from in {JobNeedsReview, JobCompleted, JobFailed} && to == JobRunning)
  }

  /** Migration 0016: a job with unfinished items cannot be closed to needs_review. */
  function PreserveActive(oldStatus: JobStatus, job: Job, now: Time): Job {
    if job.status == JobNeedsReview && HasActive(job.items) then
      if oldStatus == JobPaused then
        job.(status := JobPaused, finishedAt := None)
      else
        job.(status := JobRunning, startedAt := Some(job.startedAt.GetOr(now)), finishedAt := None)
    else
      job
  }

  /** An UPDATE of a job row: trigger 0016 fires first (by name), then the snapshot trigger. */
  function JobUpdate(oldStatus: JobStatus, job: Job, now: Time): Option<Job> {
    var preserved := PreserveActive(oldStatus, job, now);
    if JobTransitionAllowed(oldStatus, preserved.status) then Some(preserved) else None
  }
}
