/** An export runner that works alone is a run of the protocol, so what holds for all runs holds for it. */
module ExportRefinement {
  import opened Wrappers
  import opened ExportRows
  import opened ObjectStore
  import opened ExportRunner
  import P = ExportProtocol

  lemma {:induction false} RunAppend(s: P.System, first: seq<P.Action>, second: seq<P.Action>, sha: Hash)
    ensures P.Run(s, first + second, sha) == P.Run(P.Run(s, first, sha), second, sha)
  {
    if second == [] {
      assert first + second == first;
    } else {
      var n := |second| - 1;
      assert (first + second)[..|first + second| - 1] == first + second[..n];
      RunAppend(s, first, second[..n], sha);
    }
  }

  lemma OneStep(s: P.System, a: P.Action, sha: Hash)
    ensures P.Run(s, [a], sha) == P.Step(s, a, sha)
  {
    assert [a][..0] == [];
    assert P.Run(s, [], sha) == s;
  }

  lemma TwoSteps(s: P.System, a: P.Action, b: P.Action, sha: Hash)
    ensures P.Run(s, [a, b], sha) == P.Step(P.Step(s, a, sha), b, sha)
  {
    assert [a, b][..1] == [a];
    OneStep(s, a, sha);
  }

  /** The system with one worker's row, object and place replaced; late requests aside. */
  predicate At(t: P.System, s: P.System, w: nat, row: Export, stored: Option<Bytes>, worker: P.Worker)
    requires w < |s.workers|
  {
    t.row == row && t.stored == stored && t.workers == s.workers[w := worker]
  }

  /** One worker's step, seen from a system in which that worker stands elsewhere. */
  lemma Stepped(s: P.System, t: P.System, w: nat, worker: P.Worker, next: P.Worker)
    requires w < |s.workers| && t.workers == s.workers[w := worker]
    ensures t.workers[w := next] == s.workers[w := next]
  {
  }

  /** From the finished workbook to the end of put_file_once. */
  lemma PutSteps(s: P.System, w: nat, token: Token, content: Bytes, world: World, sha: Hash)
    returns (actions: seq<P.Action>)
    requires w < |s.workers| && s.workers[w] == P.Working(token)
    ensures
      var (after, put) := PutFile(s.stored, content, world.quotaAllows, world.putFault, world.putReadable,
                                  world.putSettles, sha);
      var t := P.Run(s, actions, sha);
      At(t, s, w, s.row, after,
         match put
         case Ok(created) => P.Stored(token, content, created)
         case Err(QuotaRefused) => P.Idle
         case Err(SettlementFailed) => P.Idle
         case Err(_) => P.Giving(token, StorageFailed))
  {
    if !Uploadable(content, sha) {
      actions := [P.DoBuildFailed(w, StorageFailed)];
      OneStep(s, actions[0], sha);
    } else if !world.quotaAllows {
      actions := [P.Crash(w)];
      OneStep(s, actions[0], sha);
    } else {
      var posting := P.Step(s, P.DoPost(w, content), sha);
      var rest := SentSteps(posting, w, token, content, world, sha);
      actions := [P.DoPost(w, content)] + rest;
      OneStep(s, P.DoPost(w, content), sha);
      RunAppend(s, [P.DoPost(w, content)], rest, sha);
      Stepped(s, posting, w, P.Putting(token, content), P.Run(posting, rest, sha).workers[w]);
    }
  }

  lemma SentSteps(s: P.System, w: nat, token: Token, content: Bytes, world: World, sha: Hash)
    returns (actions: seq<P.Action>)
    requires w < |s.workers| && s.workers[w] == P.Putting(token, content)
    requires Uploadable(content, sha) && world.quotaAllows
    ensures
      var (after, put) := PutFile(s.stored, content, true, world.putFault, world.putReadable, world.putSettles, sha);
      var t := P.Run(s, actions, sha);
      At(t, s, w, s.row, after,
         match put
         case Ok(created) => P.Stored(token, content, created)
         case Err(SettlementFailed) => P.Idle
         case Err(_) => P.Giving(token, StorageFailed))
  {
    if world.putFault == NoFault {
      actions := AnsweredSteps(s, w, token, content, world, sha);
    } else if world.putFault == LostAfter {
      actions := [P.PostAbandoned(w), P.LatePutArrives(content)];
      TwoSteps(s, actions[0], actions[1], sha);
    } else {
      actions := [P.PostAbandoned(w)];
      OneStep(s, actions[0], sha);
    }
  }

  /** The POST was answered: the object is created or compared, and then the reservation is committed or not. */
  lemma AnsweredSteps(s: P.System, w: nat, token: Token, content: Bytes, world: World, sha: Hash)
    returns (actions: seq<P.Action>)
    requires w < |s.workers| && s.workers[w] == P.Putting(token, content)
    requires Uploadable(content, sha) && world.putFault == NoFault
    ensures
      var (after, put) := PutFile(s.stored, content, true, NoFault, world.putReadable, world.putSettles, sha);
      At(P.Run(s, actions, sha), s, w, s.row, after,
         match put
         case Ok(created) => P.Stored(token, content, created)
         case Err(SettlementFailed) => P.Idle
         case Err(_) => P.Giving(token, StorageFailed))
  {
    var arrives := P.PostArrives(w);
    var same := s.stored.None? || (world.putReadable && SameHash(s.stored.value, content, sha));
    var t: P.System;
    if s.stored.None? {
      actions, t := [arrives], P.Step(s, arrives, sha);
      OneStep(s, arrives, sha);
    } else {
      var compare := P.DoCompare(w, same);
      actions, t := [arrives, compare], P.Step(P.Step(s, arrives, sha), compare, sha);
      TwoSteps(s, arrives, compare, sha);
      Stepped(s, P.Step(s, arrives, sha), w, P.Comparing(token, content), t.workers[w]);
    }
    if same && !world.putSettles {
      RunAppend(s, actions, [P.Crash(w)], sha);
      OneStep(t, P.Crash(w), sha);
      Stepped(s, t, w, t.workers[w], P.Idle);
      actions := actions + [P.Crash(w)];
    }
  }

  /** From a successful put to the end. */
  lemma FinishSteps(s: P.System, w: nat, token: Token, content: Bytes, created: bool, fileName: string, world: World,
                    sha: Hash) returns (actions: seq<P.Action>)
    requires w < |s.workers| && s.workers[w] == P.Stored(token, content, created)
    requires Uploadable(content, sha) && (created ==> s.stored == Some(content))
    ensures
      var (row, stored, _) := FinishOnce(s.row, s.stored, token, world, content, fileName, created, sha);
      At(P.Run(s, actions, sha), s, w, row, stored, P.Idle)
  {
    var complete := P.DoComplete(w, Metadata(fileName, |content|), world.completedAt);
    var t := P.Step(s, complete, sha);
    if Complete(s.row, token, Metadata(fileName, |content|), sha(content), world.completedAt).1 {
      actions := [complete];
      OneStep(s, complete, sha);
    } else {
      var fail := P.DoFailAndClean(w, world.failedAt);
      var u := P.Step(t, fail, sha);
      TwoSteps(s, complete, fail, sha);
      assert s.workers[w := P.Uncompleted(token, content, created)][w := u.workers[w]] == s.workers[w := u.workers[w]];
      if created && Fail(s.row, token, CompletionFailed, world.failedAt).1 {
        var rest := CleanSteps(u, w, content, world, sha);
        actions := [complete, fail] + rest;
        RunAppend(s, [complete, fail], rest, sha);
        Stepped(s, u, w, P.Cleaning(content), P.Idle);
      } else {
        actions := [complete, fail];
      }
    }
  }

  /** The compensating delete. */
  lemma CleanSteps(s: P.System, w: nat, content: Bytes, world: World, sha: Hash) returns (actions: seq<P.Action>)
    requires w < |s.workers| && s.workers[w] == P.Cleaning(content)
    requires Uploadable(content, sha) && s.stored == Some(content)
    ensures
      var after := DeleteFile(s.stored, sha(content), world.deleteReadable, world.deleteFault, sha).0;
      At(P.Run(s, actions, sha), s, w, s.row, after, P.Idle)
  {
    if !world.deleteReadable {
      actions := [P.Crash(w)];
      OneStep(s, actions[0], sha);
    } else {
      var check := P.CheckHash(w);
      var t := P.Step(s, check, sha);
      var rest := DeleteSteps(t, w, content, world.deleteFault, sha);
      actions := [check] + rest;
      OneStep(s, check, sha);
      RunAppend(s, [check], rest, sha);
      Stepped(s, t, w, P.Deleting(content), P.Idle);
    }
  }

  lemma DeleteSteps(s: P.System, w: nat, content: Bytes, fault: Fault, sha: Hash) returns (actions: seq<P.Action>)
    requires w < |s.workers| && s.workers[w] == P.Deleting(content)
    ensures At(P.Run(s, actions, sha), s, w, s.row, if fault in {NoFault, LostAfter} then None else s.stored, P.Idle)
  {
    if fault == NoFault {
      actions := [P.DeleteArrives(w)];
      OneStep(s, actions[0], sha);
    } else if fault == LostAfter {
      actions := [P.Crash(w), P.LateDeleteArrives];
      TwoSteps(s, actions[0], actions[1], sha);
    } else {
      actions := [P.Crash(w)];
      OneStep(s, actions[0], sha);
    }
  }

  /** After the claim: the put, and what follows from its result. */
  lemma StoreSteps(s: P.System, w: nat, token: Token, content: Bytes, fileName: string, world: World, sha: Hash)
    returns (actions: seq<P.Action>)
    requires w < |s.workers| && s.workers[w] == P.Working(token)
    ensures
      var (row, stored, _) := StoreOnce(s.row, s.stored, token, world, content, fileName, sha);
      At(P.Run(s, actions, sha), s, w, row, stored, P.Idle)
  {
    var first := PutSteps(s, w, token, content, world, sha);
    var t := P.Run(s, first, sha);
    var (after, put) := PutFile(s.stored, content, world.quotaAllows, world.putFault, world.putReadable, world.putSettles,
                                sha);
    match put {
      case Ok(created) =>
        var rest := FinishSteps(t, w, token, content, created, fileName, world, sha);
        actions := first + rest;
        RunAppend(s, first, rest, sha);
        Stepped(s, t, w, t.workers[w], P.Idle);
      case Err(QuotaRefused) =>
        actions := first;
      case Err(SettlementFailed) =>
        actions := first;
      case Err(_) =>
        var fail := P.DoFail(w, world.failedAt);
        actions := first + [fail];
        RunAppend(s, first, [fail], sha);
        OneStep(t, fail, sha);
        Stepped(s, t, w, t.workers[w], P.Idle);
    }
  }

  /** Whatever one message does to the row and the object, some run of one idle worker does. */
  lemma RunnerIsRun(s: P.System, w: nat, token: Token, world: World, sha: Hash) returns (actions: seq<P.Action>)
    requires w < |s.workers| && s.workers[w] == P.Idle
    ensures
      var (row, stored, _) := ExportOnce(s.row, s.stored, token, world, sha);
      var t := P.Run(s, actions, sha);
      t.row == row && t.stored == stored && t.workers == s.workers
  {
    var claim := P.DoClaim(w, token, LEASE_SECONDS, world.claimedAt);
    var t := P.Step(s, claim, sha);
    OneStep(s, claim, sha);
    assert s.workers[w := P.Idle] == s.workers;
    var (_, lease) := Claim(s.row, token, LEASE_SECONDS, world.claimedAt);
    if !lease.ClaimedWith? {
      actions := [claim];
    } else {
      var rest: seq<P.Action>;
      match world.build {
        case SnapshotError(code) => rest := GiveSteps(t, w, token, Invalid(code), world.failedAt, sha);
        case FileError => rest := GiveSteps(t, w, token, WorkbookFailed, world.failedAt, sha);
        case Built(content, fileName) => rest := StoreSteps(t, w, token, content, fileName, world, sha);
      }
      actions := [claim] + rest;
      RunAppend(s, [claim], rest, sha);
      Stepped(s, t, w, P.Working(token), P.Idle);
    }
  }

  lemma GiveSteps(s: P.System, w: nat, token: Token, error: ErrorCode, now: Time, sha: Hash)
    returns (actions: seq<P.Action>)
    requires w < |s.workers| && s.workers[w] == P.Working(token)
    ensures At(P.Run(s, actions, sha), s, w, Fail(s.row, token, error, now).0, s.stored, P.Idle)
  {
    actions := [P.DoBuildFailed(w, error), P.DoFail(w, now)];
    TwoSteps(s, actions[0], actions[1], sha);
    assert s.workers[w := P.Giving(token, error)][w := P.Idle] == s.workers[w := P.Idle];
  }
}
