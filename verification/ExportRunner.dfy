/** One export message from claim to completion or cleanup. */
module ExportRunner {
  import opened Wrappers
  import opened ExportRows
  import opened ObjectStore

  const LEASE_SECONDS := 600

  // ----- when the requests succeed -----

  /** The row is queued, or its lease ran out with a claim left and another token asks. */
  predicate Claimable(row: Export, token: Token, now: Time) {
    || row.state.Queued?
    || (row.state.Running? && row.state.leaseExpires <= now && row.claims < 3 && row.state.token != token)
  }

  predicate LegalName(name: string) {
    6 <= |name| <= 255 && name[|name| - 5..] == ".xlsx" && forall i | 0 <= i < |name| :: name[i] != '/' && name[i] != '\\'
  }

  /** The row runs under this token's lease, which is not over. */
  predicate HeldBy(row: Export, token: Token, now: Time) {
    row.state.Running? && row.state.token == token && now < row.state.leaseExpires
  }

  lemma LegalMetadata(m: Metadata)
    ensures MetadataOk(m) <==> LegalName(m.fileName) && m.size > 0
  {
  }

  /** The exports table, seen by one export. */
  class ExportTable {
    var row: Export

    constructor ()
      ensures row == Export(Queued, 0) && RowInv(row)
    {
      row := Export(Queued, 0);
    }

    /**
     A lease is given iff its length is legal and the row can be claimed. The fourth claim of a row whose lease is over
     fails it instead, a token that is used twice is refused by the history trigger, and nothing else changes the row.
     */
    method ClaimExport(token: Token, leaseSeconds: nat, now: Time) returns (claimed: Claimed)
      requires RowInv(row)
      modifies this
      ensures RowInv(row) && TransitionAllowed(old(row).state, row.state, now)
      ensures claimed.ClaimedWith? <==>
                && 30 <= leaseSeconds <= 900
                && (|| old(row).state.Queued?
                    || (old(row).state.Running? && old(row).state.leaseExpires <= now && old(row).claims < 3
                        && old(row).state.token != token))
      ensures claimed == ClaimRaised <==>
                && 30 <= leaseSeconds <= 900
                && old(row).state.Running? && old(row).state.leaseExpires <= now && old(row).claims < 3
                && old(row).state.token == token
      ensures claimed.ClaimedWith? ==>
                claimed.token == token && row == Export(Running(token, now + leaseSeconds), old(row).claims + 1)
      ensures !claimed.ClaimedWith? ==>
                row ==
                  if 30 <= leaseSeconds <= 900 && old(row).state.Running? && old(row).state.leaseExpires <= now
                     && old(row).claims >= 3
                  then Export(Failed(WorkerLost), old(row).claims)
                  else old(row)
      ensures (row, claimed) == Claim(old(row), token, leaseSeconds, now)
    {
      if leaseSeconds < 30 || leaseSeconds > 900 {
        return ClaimDenied;
      }
      if row.state.Running? && row.state.leaseExpires <= now {
        if row.claims >= 3 {
          row := row.(state := Failed(WorkerLost));
          return ClaimDenied;
        }
        if row.state.token == token {
          return ClaimRaised;
        }
      } else if !row.state.Queued? {
        return ClaimDenied;
      }
      row := row.(state := Running(token, now + leaseSeconds));
      row := row.(claims := row.claims + 1);
      return ClaimedWith(token);
    }

    method CompleteExport(token: Token, m: Metadata, sha: Bytes, now: Time) returns (completed: bool)
      requires RowInv(row)
      modifies this
      ensures RowInv(row) && TransitionAllowed(old(row).state, row.state, now)
      ensures completed <==> LegalName(m.fileName) && m.size > 0 && |sha| == 32 && HeldBy(old(row), token, now)
      ensures row == if completed then Export(Completed(sha), old(row).claims) else old(row)
      ensures (row, completed) == Complete(old(row), token, m, sha, now)
    {
      LegalMetadata(m);
      if |m.fileName| < 6 || |m.fileName| > 255 || !EndsWith(m.fileName, ".xlsx")
         || '/' in m.fileName || '\\' in m.fileName || m.size <= 0 || |sha| != 32
      {
        return false;
      }
      completed := row.state.Running? && row.state.token == token && row.state.leaseExpires > now;
      if completed {
        row := row.(state := Completed(sha));
      }
    }

    method FailExport(token: Token, error: ErrorCode, now: Time) returns (failed: bool)
      requires RowInv(row)
      modifies this
      ensures RowInv(row) && TransitionAllowed(old(row).state, row.state, now)
      ensures failed <==> HeldBy(old(row), token, now)
      ensures row == if failed then Export(Failed(error), old(row).claims) else old(row)
      ensures (row, failed) == Fail(old(row), token, error, now)
    {
      failed := row.state.Running? && row.state.token == token && row.state.leaseExpires > now;
      if failed {
        row := row.(state := Failed(error));
      }
    }
  }

  /** What building the workbook yields. */
  datatype Build = Built(content: Bytes, fileName: string) | SnapshotError(code: nat) | FileError

  /** Everything outside the runner's control, in the order it happens. */
  datatype World = World(
    claimedAt: Time,
    build: Build,
    quotaAllows: bool,
    putFault: Fault,
    putReadable: bool,
    putSettles: bool,
    completedAt: Time,
    failedAt: Time,
    deleteReadable: bool,
    deleteFault: Fault)

  datatype RunResult =
    | NotClaimed
    | ClaimError                                  // raised: the lease token had been used
    | RetryLater(seconds: Time)                   // raised: another worker holds the lease
    | ExportCompleted
    | ExportFailed(error: ErrorCode)              // the code returned; the row is failed if the lease held
    | LeaseLost
    | CleanupFailed                               // raised: the compensating delete failed
    | QuotaRaised                                 // raised: no storage quota; the lease is left to expire
    | SettlementRaised                            // raised: the quota reservation could not be committed

  // ----- what one message does, world by world -----

  /** put_file_once finds a file it may store, quota for it, and no other object in its place. */
  predicate StoreSucceeds(stored: Option<Bytes>, content: Bytes, world: World, sha: Hash) {
    && 0 < |content| <= MAX_EXPORT_BYTES && |sha(content)| == 32
    && world.quotaAllows && world.putFault == NoFault
    && (stored.Some? ==>
          world.putReadable && |stored.value| <= MAX_EXPORT_BYTES && sha(stored.value) == sha(content))
  }

  /** The row after fail_export: it failed if the lease was still current, and is left to expire otherwise. */
  predicate GivenUp(after: Export, token: Token, world: World, error: ErrorCode) {
    after.state ==
      if world.failedAt < world.claimedAt + LEASE_SECONDS then Failed(error)
      else Running(token, world.claimedAt + LEASE_SECONDS)
  }

  /** A message that could not claim the row: only a fourth claim changes anything. */
  predicate RefusedRun(row: Export, token: Token, world: World, after: Export, result: RunResult) {
    var over := row.state.Running? && row.state.leaseExpires <= world.claimedAt;
    && after == (if over && row.claims >= 3 then Export(Failed(WorkerLost), row.claims) else row)
    && (result == ClaimError <==> over && row.claims < 3)
    && (result.RetryLater? <==> row.state.Running? && world.claimedAt < row.state.leaseExpires)
    && (result.RetryLater? ==> result.seconds == row.state.leaseExpires - world.claimedAt)
    && (result == NotClaimed <==> Terminal(row.state) || (over && row.claims >= 3))
  }

  /** The results of a workbook that was built: each has one condition on the world. */
  predicate BuiltResult(stored: Option<Bytes>, world: World, content: Bytes, fileName: string, sha: Hash,
                        result: RunResult)
  {
    var lease := world.claimedAt + LEASE_SECONDS;
    var legal := 0 < |content| <= MAX_EXPORT_BYTES && |sha(content)| == 32;
    var stores := StoreSucceeds(stored, content, world, sha);
    var completes := LegalName(fileName) && world.completedAt < lease;
    var undone := stores && world.putSettles && !completes && world.failedAt < lease;
    var cleanupFails := stored.None? && (!world.deleteReadable || world.deleteFault != NoFault);
    && (result == ExportCompleted <==> stores && world.putSettles && completes)
    && (result == QuotaRaised <==> legal && !world.quotaAllows)
    && (result == ExportFailed(StorageFailed) <==> !legal || (world.quotaAllows && !stores))
    && (result == SettlementRaised <==> stores && !world.putSettles)
    && (result == LeaseLost <==> stores && world.putSettles && !completes && lease <= world.failedAt)
    && (result == CleanupFailed <==> undone && cleanupFails)
    && (result == ExportFailed(CompletionFailed) <==> undone && !cleanupFails)
  }

  /** The row and the object that each of these results leaves. */
  predicate BuiltEffect(stored: Option<Bytes>, token: Token, world: World, content: Bytes, sha: Hash,
                        after: Export, left: Option<Bytes>, result: RunResult)
  {
    var sent := 0 < |content| <= MAX_EXPORT_BYTES && |sha(content)| == 32
                && world.quotaAllows && (world.putFault == NoFault || world.putFault == LostAfter);
    && (result == ExportCompleted ==> after.state == Completed(sha(content)))
    && (result == QuotaRaised || result == SettlementRaised || result == LeaseLost ==>
          after.state == Running(token, world.claimedAt + LEASE_SECONDS))
    && (result == ExportFailed(StorageFailed) ==> GivenUp(after, token, world, StorageFailed))
    && (result == CleanupFailed || result == ExportFailed(CompletionFailed) ==> after.state == Failed(CompletionFailed))
    && left ==
         if stored.Some? then stored
         else if !sent || result == ExportFailed(CompletionFailed) then None
         else if result == CleanupFailed && world.deleteReadable && world.deleteFault == LostAfter then None
         else Some(content)
  }

  /** One message, from the row and the object it finds to those it leaves and what it returns or raises. */
  predicate RunMeans(row: Export, stored: Option<Bytes>, token: Token, world: World, sha: Hash,
                     after: Export, left: Option<Bytes>, result: RunResult)
  {
    if !Claimable(row, token, world.claimedAt) then
      RefusedRun(row, token, world, after, result) && left == stored
    else
      && after.claims == row.claims + 1
      && match world.build
         case SnapshotError(code) =>
           result == ExportFailed(Invalid(code)) && GivenUp(after, token, world, Invalid(code)) && left == stored
         case FileError =>
           result == ExportFailed(WorkbookFailed) && GivenUp(after, token, world, WorkbookFailed) && left == stored
         case Built(content, fileName) =>
           && BuiltResult(stored, world, content, fileName, sha, result)
           && BuiltEffect(stored, token, world, content, sha, after, left, result)
  }

  // ----- one message, as a function of the row and the object -----

  function Refusal(claimed: Claimed, row: Export, now: Time): RunResult {
    if claimed.ClaimRaised? then ClaimError
    else
      match row.state
      case Running(_, expires) => RetryLater(if expires - now < 1 then 1 else expires - now)
      case _ => NotClaimed
  }

  function ExportOnce(row: Export, stored: Option<Bytes>, token: Token, world: World, sha: Hash)
    : (Export, Option<Bytes>, RunResult)
  {
    var (claimed, lease) := Claim(row, token, LEASE_SECONDS, world.claimedAt);
    if !lease.ClaimedWith? then (claimed, stored, Refusal(lease, claimed, world.claimedAt))
    else
      match world.build
      case SnapshotError(code) =>
        (Fail(claimed, token, Invalid(code), world.failedAt).0, stored, ExportFailed(Invalid(code)))
      case FileError =>
        (Fail(claimed, token, WorkbookFailed, world.failedAt).0, stored, ExportFailed(WorkbookFailed))
      case Built(content, fileName) => StoreOnce(claimed, stored, token, world, content, fileName, sha)
  }

  function StoreOnce(row: Export, stored: Option<Bytes>, token: Token, world: World, content: Bytes, fileName: string,
                     sha: Hash): (Export, Option<Bytes>, RunResult)
  {
    var (after, put) := PutFile(stored, content, world.quotaAllows, world.putFault, world.putReadable, world.putSettles,
                               sha);
    match put
    case Err(QuotaRefused) => (row, after, QuotaRaised)
    case Err(SettlementFailed) => (row, after, SettlementRaised)
    case Err(_) => (Fail(row, token, StorageFailed, world.failedAt).0, after, ExportFailed(StorageFailed))
    case Ok(created) => FinishOnce(row, after, token, world, content, fileName, created, sha)
  }

  function FinishOnce(row: Export, stored: Option<Bytes>, token: Token, world: World, content: Bytes, fileName: string,
                      created: bool, sha: Hash): (Export, Option<Bytes>, RunResult)
  {
    var (done, completed) := Complete(row, token, Metadata(fileName, |content|), sha(content), world.completedAt);
    if completed then (done, stored, ExportCompleted)
    else
      var (failed, cleanupAllowed) := Fail(row, token, CompletionFailed, world.failedAt);
      if !cleanupAllowed then (failed, stored, LeaseLost)
      else if !created then (failed, stored, ExportFailed(CompletionFailed))
      else
        var (after, deleted) := DeleteFile(stored, sha(content), world.deleteReadable, world.deleteFault, sha);
        (failed, after, if deleted.Err? then CleanupFailed else ExportFailed(CompletionFailed))
  }

  /** The function means what the table says. */
  lemma ExportOnceMeaning(row: Export, stored: Option<Bytes>, token: Token, world: World, sha: Hash)
    ensures
      var (after, left, result) := ExportOnce(row, stored, token, world, sha);
      RunMeans(row, stored, token, world, sha, after, left, result)
  {
    if Claimable(row, token, world.claimedAt) && world.build.Built? {
      var claimed := Export(Running(token, world.claimedAt + LEASE_SECONDS), row.claims + 1);
      StoreOnceMeaning(claimed, stored, token, world, world.build.content, world.build.fileName, sha);
    }
  }

  lemma StoreOnceMeaning(row: Export, stored: Option<Bytes>, token: Token, world: World, content: Bytes, fileName: string,
                         sha: Hash)
    requires row.state == Running(token, world.claimedAt + LEASE_SECONDS)
    ensures
      var (after, left, result) := StoreOnce(row, stored, token, world, content, fileName, sha);
      && after.claims == row.claims
      && BuiltResult(stored, world, content, fileName, sha, result)
      && BuiltEffect(stored, token, world, content, sha, after, left, result)
  {
    LegalMetadata(Metadata(fileName, |content|));
  }

  class ExportRunner {
    const table: ExportTable
    const storage: ObjectStorage
    const objectKey: string

    constructor (table: ExportTable, storage: ObjectStorage, objectKey: string)
      ensures this.table == table && this.storage == storage && this.objectKey == objectKey
    {
      this.table, this.storage, this.objectKey := table, storage, objectKey;
    }

    /** None when the lease was taken; otherwise the result to return or raise. */
    method ClaimLease(token: Token, now: Time) returns (refused: Option<RunResult>)
      requires RowInv(table.row)
      modifies table
      ensures RowInv(table.row)
      ensures refused.None? <==> Claimable(old(table.row), token, now)
      ensures refused.None? ==> table.row == Export(Running(token, now + LEASE_SECONDS), old(table.row).claims + 1)
      ensures table.row == Claim(old(table.row), token, LEASE_SECONDS, now).0
      ensures refused.None? <==> Claim(old(table.row), token, LEASE_SECONDS, now).1.ClaimedWith?
      ensures refused.Some? ==>
                refused.value == Refusal(Claim(old(table.row), token, LEASE_SECONDS, now).1, table.row, now)
      ensures refused.Some? ==> !table.row.state.Completed? || old(table.row).state.Completed?
      ensures refused.Some? && refused.value.RetryLater? ==>
                table.row == old(table.row) && table.row.state.Running? && refused.value.seconds >= 1
      ensures refused.Some? ==> refused.value.NotClaimed? || refused.value.RetryLater? || refused.value.ClaimError?
      ensures refused == Some(ClaimError) ==> table.row == old(table.row)
    {
      var claimed := table.ClaimExport(token, LEASE_SECONDS, now);
      if claimed.ClaimedWith? {
        return None;
      }
      if claimed.ClaimRaised? {
        return Some(ClaimError);
      }
      match table.row.state {
        case Running(_, expires) => return Some(RetryLater(if expires - now < 1 then 1 else expires - now));
        case _ => return Some(NotClaimed);
      }
    }

    method FailTimedOut(token: Token, world: World) returns (result: RunResult)
      requires RowInv(table.row)
      modifies table
      ensures RowInv(table.row)
      ensures if Claimable(old(table.row), token, world.claimedAt) then
                && result == (if world.failedAt < world.claimedAt + LEASE_SECONDS then ExportFailed(WorkbookTimeout)
                              else LeaseLost)
                && GivenUp(table.row, token, world, WorkbookTimeout) && table.row.claims == old(table.row).claims + 1
              else
                RefusedRun(old(table.row), token, world, table.row, result)
      ensures table.row.state.Completed? ==> old(table.row).state.Completed?
    {
      var refused := ClaimLease(token, world.claimedAt);
      if refused.Some? {
        return refused.value;
      }
      var failed := table.FailExport(token, WorkbookTimeout, world.failedAt);
      return if failed then ExportFailed(WorkbookTimeout) else LeaseLost;
    }

    /**
     run: a claimable export whose workbook is built, stored and completed in time is completed with it; every other
     world ends in the one result, row and object that RunMeans gives it. A completed row names the hash of an
     object that is there; the run removes no object but the one it created itself, and only after its own
     fail_export succeeded.
     */
    method Run(token: Token, world: World) returns (result: RunResult)
      requires RowInv(table.row)
      modifies table, storage
      ensures RowInv(table.row)
      ensures RunMeans(old(table.row), Lookup(old(storage.objects), objectKey), token, world, storage.sha,
                       table.row, Lookup(storage.objects, objectKey), result)
      ensures (table.row, Lookup(storage.objects, objectKey), result) ==
                ExportOnce(old(table.row), Lookup(old(storage.objects), objectKey), token, world, storage.sha)
      ensures result == ExportCompleted ==>
                && objectKey in storage.objects
                && world.build.Built? && table.row.state == Completed(storage.sha(world.build.content))
                && storage.sha(storage.objects[objectKey]) == storage.sha(world.build.content)
      ensures table.row.state.Completed? ==> result == ExportCompleted || old(table.row).state.Completed?
      ensures objectKey in old(storage.objects) ==> storage.objects == old(storage.objects)
      ensures storage.objects - {objectKey} == old(storage.objects) - {objectKey}
      ensures result == ExportFailed(CompletionFailed) ==>
                table.row.state == Failed(CompletionFailed) && storage.objects == old(storage.objects)
      ensures result == CleanupFailed ==> table.row.state == Failed(CompletionFailed)
      ensures result == QuotaRaised ==> table.row.state.Running? && storage.objects == old(storage.objects)
      ensures result == SettlementRaised ==>
                table.row.state.Running? && objectKey in storage.objects && storage.reservation == Reserved
      ensures result.NotClaimed? || result.RetryLater? || result.ClaimError? ==> storage.objects == old(storage.objects)
    {
      ExportOnceMeaning(table.row, Lookup(storage.objects, objectKey), token, world, storage.sha);
      var refused := ClaimLease(token, world.claimedAt);
      if refused.Some? {
        return refused.value;
      }
      match world.build {
        case SnapshotError(code) =>
          var _ := table.FailExport(token, Invalid(code), world.failedAt);
          return ExportFailed(Invalid(code));
        case FileError =>
          var _ := table.FailExport(token, WorkbookFailed, world.failedAt);
          return ExportFailed(WorkbookFailed);
        case Built(content, fileName) =>
          result := Store(token, world, content, fileName);
      }
    }

    /** From the finished workbook on. */
    method Store(token: Token, world: World, content: Bytes, fileName: string) returns (result: RunResult)
      requires RowInv(table.row) && table.row.state.Running?
      modifies table, storage
      ensures RowInv(table.row)
      ensures (table.row, Lookup(storage.objects, objectKey), result) ==
                StoreOnce(old(table.row), Lookup(old(storage.objects), objectKey), token, world, content, fileName,
                          storage.sha)
      ensures result == ExportCompleted ==>
                && objectKey in storage.objects
                && table.row.state == Completed(storage.sha(content))
                && storage.sha(storage.objects[objectKey]) == storage.sha(content)
      ensures table.row.state.Completed? ==> result == ExportCompleted
      ensures objectKey in old(storage.objects) ==> storage.objects == old(storage.objects)
      ensures storage.objects - {objectKey} == old(storage.objects) - {objectKey}
      ensures result == ExportFailed(CompletionFailed) ==>
                table.row.state == Failed(CompletionFailed) && storage.objects == old(storage.objects)
      ensures result == CleanupFailed ==> table.row.state == Failed(CompletionFailed)
      ensures result == QuotaRaised ==> table.row == old(table.row) && storage.objects == old(storage.objects)
      ensures result == SettlementRaised ==>
                table.row == old(table.row) && objectKey in storage.objects && storage.reservation == Reserved
      ensures !result.NotClaimed? && !result.RetryLater? && !result.ClaimError?
    {
      var put := storage.PutFileOnce(objectKey, content, world.quotaAllows, world.putFault, world.putReadable,
                                     world.putSettles);
      if put == Err(QuotaRefused) {
        return QuotaRaised;
      }
      if put == Err(SettlementFailed) {
        return SettlementRaised;
      }
      if put.Err? {
        var _ := table.FailExport(token, StorageFailed, world.failedAt);
        return ExportFailed(StorageFailed);
      }
      result := Finish(token, world, content, fileName, put.value);
      if put.value {
        assert old(storage.objects)[objectKey := content] - {objectKey} == old(storage.objects);
      }
    }

    /** complete_export, or the compensation for it. */
    method Finish(token: Token, world: World, content: Bytes, fileName: string, createdObject: bool)
      returns (result: RunResult)
      requires RowInv(table.row)
      requires objectKey in storage.objects && storage.sha(storage.objects[objectKey]) == storage.sha(content)
      requires createdObject ==> storage.objects[objectKey] == content && 0 < |content| <= MAX_EXPORT_BYTES
      requires |storage.sha(content)| == 32
      modifies table, storage
      ensures RowInv(table.row)
      ensures (table.row, Lookup(storage.objects, objectKey), result) ==
                FinishOnce(old(table.row), Lookup(old(storage.objects), objectKey), token, world, content, fileName,
                           createdObject, storage.sha)
      ensures result == ExportCompleted ==>
                table.row.state == Completed(storage.sha(content)) && storage.objects == old(storage.objects)
      ensures table.row.state.Completed? && !old(table.row).state.Completed? ==> result == ExportCompleted
      ensures storage.objects == old(storage.objects)
              || (createdObject && storage.objects == old(storage.objects) - {objectKey})
      ensures result == ExportFailed(CompletionFailed) ==>
                && table.row.state == Failed(CompletionFailed)
                && storage.objects == if createdObject then old(storage.objects) - {objectKey} else old(storage.objects)
      ensures result == CleanupFailed ==> table.row.state == Failed(CompletionFailed)
      ensures result == ExportCompleted || result == ExportFailed(CompletionFailed) || result == LeaseLost
              || result == CleanupFailed
    {
      var sha := storage.sha(content);
      var completed := table.CompleteExport(token, Metadata(fileName, |content|), sha, world.completedAt);
      if completed {
        return ExportCompleted;
      }
      var cleanupAllowed := table.FailExport(token, CompletionFailed, world.failedAt);
      if createdObject && cleanupAllowed {
        var deleted := storage.DeleteIfSha256(objectKey, sha, world.deleteReadable, world.deleteFault);
        if deleted.Err? {
          return CleanupFailed;
        }
        assert deleted == Ok(deleted.value) && deleted.value;
      }
      return if cleanupAllowed then ExportFailed(CompletionFailed) else LeaseLost;
    }
  }
}
