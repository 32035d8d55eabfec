/**
 Any number of export runners working on one export, one request or transaction at a time. A
 creating or deleting request whose sender gave up, or crashed, may still arrive at any later time.
 */
module ExportProtocol {
  import opened Wrappers
  import opened ExportRows

  /** Where a runner stands between two requests. */
  datatype Worker =
    | Idle
    | Working(token: Token)                                        // claimed, building the workbook
    | Putting(token: Token, content: Bytes)                        // the POST is on its way
    | Comparing(token: Token, content: Bytes)                      // the POST met an existing object
    | Stored(token: Token, content: Bytes, created: bool)          // put_file_once returned
    | Uncompleted(token: Token, content: Bytes, created: bool)     // complete_export returned nothing
    | Giving(token: Token, error: ErrorCode)                       // about to call fail_export, no cleanup
    | Cleaning(content: Bytes)                                     // fail_export succeeded, object was created here
    | Deleting(content: Bytes)                                     // the hash matched, the DELETE is on its way

  datatype System = System(
    row: Export,
    stored: Option<Bytes>,
    workers: seq<Worker>,
    latePuts: set<Bytes>,          // POSTs nobody waits for any more
    lateDelete: bool)              // a DELETE nobody waits for any more

  datatype Action =
    | DoClaim(w: nat, token: Token, leaseSeconds: nat, now: Time)
    | DoBuildFailed(w: nat, error: ErrorCode)
    | DoPost(w: nat, content: Bytes)
    | PostArrives(w: nat)
    | PostAbandoned(w: nat)
    | DoCompare(w: nat, readable: bool)
    | DoComplete(w: nat, metadata: Metadata, now: Time)
    | DoFailAndClean(w: nat, now: Time)
    | DoFail(w: nat, now: Time)
    | CheckHash(w: nat)
    | DeleteArrives(w: nat)
    | Crash(w: nat)
    | LatePutArrives(content: Bytes)
    | LateDeleteArrives

  function Create(stored: Option<Bytes>, content: Bytes): Option<Bytes> {
    if stored.None? then Some(content) else stored
  }

  function WithWorker(s: System, w: nat, worker: Worker): System
    requires w < |s.workers|
  {
    s.(workers := s.workers[w := worker])
  }

  function Step(s: System, action: Action, sha: Hash): System {
    match action
    case LatePutArrives(content) => if content in s.latePuts then s.(stored := Create(s.stored, content)) else s
    case LateDeleteArrives => if s.lateDelete then s.(stored := None) else s
    case _ => if action.w < |s.workers| then WorkerStep(s, action, sha) else s
  }

  function WorkerStep(s: System, action: Action, sha: Hash): System
    requires !action.LatePutArrives? && !action.LateDeleteArrives? && action.w < |s.workers|
  {
    var w := action.w;
    match (action, s.workers[w])
    case (DoClaim(_, token, seconds, now), Idle) =>
      var (row, claimed) := Claim(s.row, token, seconds, now);
      WithWorker(s.(row := row), w, if claimed.ClaimedWith? then Working(token) else Idle)
    case (DoBuildFailed(_, error), Working(token)) => WithWorker(s, w, Giving(token, error))
    case (DoPost(_, content), Working(token)) => WithWorker(s, w, Putting(token, content))
    case (PostArrives(_), Putting(token, content)) =>
      if s.stored.None? then WithWorker(s.(stored := Some(content)), w, Stored(token, content, true))
      else WithWorker(s, w, Comparing(token, content))
    case (PostAbandoned(_), Putting(token, content)) =>
      WithWorker(s.(latePuts := s.latePuts + {content}), w, Giving(token, StorageFailed))
    case (DoCompare(_, readable), Comparing(token, content)) =>
      WithWorker(s, w, if readable && s.stored.Some? && sha(s.stored.value) == sha(content) then Stored(token, content, false)
                       else Giving(token, StorageFailed))
    case (DoComplete(_, metadata, now), Stored(token, content, created)) =>
      var (row, completed) := Complete(s.row, token, metadata, sha(content), now);
      WithWorker(s.(row := row), w, if completed then Idle else Uncompleted(token, content, created))
    case (DoFailAndClean(_, now), Uncompleted(token, content, created)) =>
      var (row, failed) := Fail(s.row, token, CompletionFailed, now);
      WithWorker(s.(row := row), w, if failed && created then Cleaning(content) else Idle)
    case (DoFail(_, now), Giving(token, error)) =>
      WithWorker(s.(row := Fail(s.row, token, error, now).0), w, Idle)
    case (CheckHash(_), Cleaning(content)) =>
      WithWorker(s, w, if s.stored.Some? && sha(s.stored.value) == sha(content) then Deleting(content) else Idle)
    case (DeleteArrives(_), Deleting(_)) => WithWorker(s.(stored := None), w, Idle)
    case (Crash(_), Putting(_, content)) => WithWorker(s.(latePuts := s.latePuts + {content}), w, Idle)
    case (Crash(_), Deleting(_)) => WithWorker(s.(lateDelete := true), w, Idle)
    case (Crash(_), _) => WithWorker(s, w, Idle)
    case _ => s
  }

  function Start(workers: nat): System {
    System(Export(Queued, 0), None, seq(workers, _ => Idle), {}, false)
  }

  function Run(s: System, actions: seq<Action>, sha: Hash): System {
    if actions == [] then s
    else Step(Run(s, actions[..|actions| - 1], sha), actions[|actions| - 1], sha)
  }

  // ----- the invariant -----

  /** The stored object is the one this worker put or found, as long as the export has not failed. */
  predicate WorkerInv(worker: Worker, row: Export, stored: Option<Bytes>, sha: Hash) {
    match worker
    case Stored(_, content, _) => row.state.Failed? || (stored.Some? && sha(stored.value) == sha(content))
    case Uncompleted(_, content, _) => row.state.Failed? || (stored.Some? && sha(stored.value) == sha(content))
    case Cleaning(_) => row.state == Failed(CompletionFailed)
    case Deleting(_) => row.state == Failed(CompletionFailed)
    case _ => true
  }

  predicate Inv(s: System, sha: Hash) {
    && RowInv(s.row)
    && (s.row.state.Completed? ==> s.stored.Some? && sha(s.stored.value) == s.row.state.sha)
    && (s.lateDelete ==> s.row.state == Failed(CompletionFailed))
    && forall w | 0 <= w < |s.workers| :: WorkerInv(s.workers[w], s.row, s.stored, sha)
  }

  /** The row has ended: nothing changes it any more. */
  predicate RowEvolves(a: Export, b: Export) {
    && (Terminal(a.state) ==> a == b)
    && a.claims <= b.claims
  }

  /** An object is never replaced, and it is removed only after a failed completion. */
  predicate ObjectEvolves(a: System, b: System) {
    a.stored == b.stored || a.stored.None? || (b.stored.None? && a.row.state == Failed(CompletionFailed))
  }

  lemma InvOf(s: System, b: System, w: nat, sha: Hash)
    requires Inv(s, sha) && w < |s.workers| && |b.workers| == |s.workers|
    requires forall k | 0 <= k < |s.workers| && k != w :: b.workers[k] == s.workers[k]
    requires RowInv(b.row) && RowEvolves(s.row, b.row) && ObjectEvolves(s, b)
    requires b.row.state.Completed? ==> b.stored.Some? && sha(b.stored.value) == b.row.state.sha
    requires b.lateDelete ==> b.row.state == Failed(CompletionFailed)
    requires WorkerInv(b.workers[w], b.row, b.stored, sha)
    ensures Inv(b, sha)
  {
    forall k | 0 <= k < |b.workers| ensures WorkerInv(b.workers[k], b.row, b.stored, sha) {
      if k != w { assert WorkerInv(s.workers[k], s.row, s.stored, sha); }
    }
  }

  lemma ClaimStep(row: Export, token: Token, seconds: nat, now: Time)
    requires RowInv(row)
    ensures RowInv(Claim(row, token, seconds, now).0) && RowEvolves(row, Claim(row, token, seconds, now).0)
    ensures Claim(row, token, seconds, now).0.state.Completed? ==> row.state.Completed?
    ensures TransitionAllowed(row.state, Claim(row, token, seconds, now).0.state, now)
  {
  }

  lemma StepSafe(s: System, action: Action, sha: Hash)
    requires Inv(s, sha)
    ensures
      var b := Step(s, action, sha);
      Inv(b, sha) && RowEvolves(s.row, b.row) && ObjectEvolves(s, b)
  {
    if action.LatePutArrives? || action.LateDeleteArrives? {
      LateSafe(s, action, sha);
    } else if action.w < |s.workers| {
      assert WorkerInv(s.workers[action.w], s.row, s.stored, sha);
      if action.DoClaim? { ClaimStep(s.row, action.token, action.leaseSeconds, action.now); }
      InvOf(s, Step(s, action, sha), action.w, sha);
    }
  }

  /** A request that arrives late finds the invariant and keeps it. */
  lemma LateSafe(s: System, action: Action, sha: Hash)
    requires Inv(s, sha) && (action.LatePutArrives? || action.LateDeleteArrives?)
    ensures
      var b := Step(s, action, sha);
      Inv(b, sha) && RowEvolves(s.row, b.row) && ObjectEvolves(s, b)
  {
    var b := Step(s, action, sha);
    forall w | 0 <= w < |b.workers| ensures WorkerInv(b.workers[w], b.row, b.stored, sha) {
      assert WorkerInv(s.workers[w], s.row, s.stored, sha);
    }
  }

  /** The invariant holds in every reachable state. */
  lemma {:induction false} RunSafe(workers: nat, actions: seq<Action>, sha: Hash)
    ensures Inv(Run(Start(workers), actions, sha), sha)
  {
    if actions != [] {
      RunSafe(workers, actions[..|actions| - 1], sha);
      StepSafe(Run(Start(workers), actions[..|actions| - 1], sha), actions[|actions| - 1], sha);
    }
  }

  lemma {:induction false} RunEvolves(s: System, actions: seq<Action>, sha: Hash)
    requires Inv(s, sha)
    ensures Inv(Run(s, actions, sha), sha) && RowEvolves(s.row, Run(s, actions, sha).row)
    ensures s.row.state.Completed? ==> Run(s, actions, sha).stored == s.stored
  {
    if actions != [] {
      RunEvolves(s, actions[..|actions| - 1], sha);
      StepSafe(Run(s, actions[..|actions| - 1], sha), actions[|actions| - 1], sha);
    }
  }

  // ----- what the export promises -----

  /** A completed export's object is there with the recorded hash, and stays for ever. */
  lemma CompletedObjectStays(workers: nat, actions: seq<Action>, later: seq<Action>, sha: Hash)
    requires Run(Start(workers), actions, sha).row.state.Completed?
    ensures
      var s := Run(Start(workers), actions, sha);
      var t := Run(s, later, sha);
      && s.stored.Some? && sha(s.stored.value) == s.row.state.sha
      && t.stored == s.stored && t.row == s.row
  {
    RunSafe(workers, actions, sha);
    RunEvolves(Run(Start(workers), actions, sha), later, sha);
  }

  /**
   No request ever replaces an object; one that removes it runs after the lease holder's own
   fail_export recorded the failed completion.
   */
  lemma RemovalOnlyAfterFail(workers: nat, actions: seq<Action>, action: Action, sha: Hash)
    ensures
      var s := Run(Start(workers), actions, sha);
      var t := Step(s, action, sha);
      && (s.stored.Some? && t.stored.Some? ==> s.stored == t.stored)
      && (s.stored.Some? && t.stored.None? ==> s.row.state == Failed(CompletionFailed))
  {
    RunSafe(workers, actions, sha);
    StepSafe(Run(Start(workers), actions, sha), action, sha);
  }

  /** A failed or completed export never changes again, and no export is claimed more than three times. */
  lemma TerminalAndBounded(workers: nat, actions: seq<Action>, later: seq<Action>, sha: Hash)
    ensures
      var s := Run(Start(workers), actions, sha);
      s.row.claims <= 3 && (Terminal(s.row.state) ==> Run(s, later, sha).row == s.row)
  {
    RunSafe(workers, actions, sha);
    RunEvolves(Run(Start(workers), actions, sha), later, sha);
  }

  // ----- the lease -----

  /** The token a worker would finish the row with. */
  function TokenOf(worker: Worker): Option<Token> {
    match worker
    case Working(token) => Some(token)
    case Putting(token, _) => Some(token)
    case Comparing(token, _) => Some(token)
    case Stored(token, _, _) => Some(token)
    case Uncompleted(token, _, _) => Some(token)
    case Giving(token, _) => Some(token)
    case _ => None
  }

  /** Only the holder of the current, unexpired lease can end the export, apart from the fourth claim. */
  lemma OnlyTheHolderEnds(s: System, action: Action, sha: Hash)
    requires !Terminal(s.row.state) && Terminal(Step(s, action, sha).row.state)
    ensures s.row.state.Running?
    ensures
      || (action.DoClaim? && s.row.claims >= 3 && s.row.state.leaseExpires <= action.now
          && Step(s, action, sha).row.state == Failed(WorkerLost))
      || ((action.DoComplete? || action.DoFailAndClean? || action.DoFail?)
          && action.w < |s.workers| && TokenOf(s.workers[action.w]) == Some(s.row.state.token)
          && s.row.state.leaseExpires > action.now)
  {
  }
}
