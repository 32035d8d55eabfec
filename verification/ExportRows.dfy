/** The row of one export and the three database functions a worker may call on it. */
module ExportRows {
  import opened Wrappers

  type Time = int          // seconds
  type Token = nat
  type Bytes = seq<bv8>
  type Hash = Bytes -> Bytes

  datatype ErrorCode =
    | WorkerLost | CompletionFailed | StorageFailed | WorkbookFailed | WorkbookTimeout | Invalid(code: nat)

  datatype ExportState =
    | Queued
    | Running(token: Token, leaseExpires: Time)
    | Completed(sha: Bytes)
    | Failed(error: ErrorCode)

  /** claims counts the export.claimed entries of the audit log. */
  datatype Export = Export(state: ExportState, claims: nat)

  predicate Terminal(state: ExportState) {
    state.Completed? || state.Failed?
  }

  /** claim_export returns nothing, raises, or returns the row. */
  datatype Claimed = ClaimDenied | ClaimRaised | ClaimedWith(token: Token)

  /** claim_export */
  function Claim(row: Export, token: Token, leaseSeconds: nat, now: Time): (Export, Claimed) {
    if !(30 <= leaseSeconds <= 900) then (row, ClaimDenied)
    else
      match row.state
      case Running(held, expires) =>
        if expires > now then (row, ClaimDenied)
        else if row.claims >= 3 then (row.(state := Failed(WorkerLost)), ClaimDenied)
        else if token == held then (row, ClaimRaised)      // the history trigger refuses the same token
        else (Export(Running(token, now + leaseSeconds), row.claims + 1), ClaimedWith(token))
      case Queued => (Export(Running(token, now + leaseSeconds), row.claims + 1), ClaimedWith(token))
      case _ => (row, ClaimDenied)
  }

  predicate Holds(row: Export, token: Token, now: Time) {
    row.state.Running? && row.state.token == token && row.state.leaseExpires > now
  }

  /** What a finished workbook is called and how large it is. */
  datatype Metadata = Metadata(fileName: string, size: int)

  predicate EndsWith(text: string, suffix: string) {
    |suffix| <= |text| && text[|text| - |suffix|..] == suffix
  }

  predicate MetadataOk(m: Metadata) {
    6 <= |m.fileName| <= 255 && EndsWith(m.fileName, ".xlsx") && '/' !in m.fileName && '\\' !in m.fileName && m.size > 0
  }

  /** complete_export */
  function Complete(row: Export, token: Token, m: Metadata, sha: Bytes, now: Time): (Export, bool) {
    if MetadataOk(m) && |sha| == 32 && Holds(row, token, now) then (row.(state := Completed(sha)), true) else (row, false)
  }

  /** fail_export */
  function Fail(row: Export, token: Token, error: ErrorCode, now: Time): (Export, bool) {
    if Holds(row, token, now) then (row.(state := Failed(error)), true) else (row, false)
  }

  predicate RowInv(row: Export) {
    row.claims <= 3 && (row.state.Queued? ==> row.claims == 0) && (row.state.Running? ==> row.claims >= 1)
  }

  /** The history trigger: completed and failed are final, and a running row is only taken over after its lease. */
  predicate TransitionAllowed(old_: ExportState, new_: ExportState, now: Time) {
    || old_ == new_
    || (old_.Queued? && new_.Running?)
    || (old_.Running? && Terminal(new_))
    || (old_.Running? && new_.Running? && old_.leaseExpires <= now && old_.token != new_.token)
  }
}
