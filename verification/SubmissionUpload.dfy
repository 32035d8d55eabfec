/**
 One upload of a paper: reservation, two object writes, parsing and three status transitions, with
 compensation when something fails. At most one thing goes wrong; what it is, is a parameter.
 */
module SubmissionUpload {
  import opened Wrappers

  datatype ErrorCode =
    | ProcessingCancelled | SourceFailed | ExtractedFailed | QuotaCode(code: nat) | ParseCode(code: nat)

  datatype Row = Uploaded | Parsing | Ready | Failed(error: ErrorCode)

  /** transition_submission's table. */
  predicate TransitionAllowed(from: Row, to: Row) {
    || (from.Uploaded? && to.Parsing?)
    || ((from.Uploaded? || from.Parsing?) && to.Failed?)
    || (from.Parsing? && to.Ready?)
    || (from.Failed? && to.Uploaded?)
  }

  /** The database row, the two objects, and how often a transition was refused. */
  datatype State = State(row: Option<Row>, source: bool, extracted: bool, refusals: nat)

  /** The requests at which a cancellation can strike. */
  datatype Point = AtReserve | AtReset | AtSource | AtParsing | AtParse | AtExtracted | AtReady

  /** done tells whether the interrupted request still took effect. */
  datatype Fault =
    | NoFault
    | Cancel(at: Point, done: bool)
    | SourceQuota(code: nat)
    | SourceStorage(done: bool)
    | ParseError(code: nat)
    | ExtractedQuota(code: nat)
    | ExtractedStorage(done: bool)

  datatype Outcome = Accepted | Duplicate | Refused | Raised

  // ----- where an upload may end -----

  /** Ready with its text stored, or failed with no text stored, or never begun; no transition refused. */
  predicate Settled(before: State, after: State) {
    && after.refusals == before.refusals
    && match after.row
       case None => !after.extracted
       case Some(Ready) => after.extracted
       case Some(Failed(_)) => !after.extracted
       case _ => false
  }

  /** A state from which an upload starts over: no row yet, or a failed one without a stored text. */
  predicate Fresh(s: State) {
    !s.extracted && (s.row.None? || s.row.value.Failed?)
  }

  /** The three moments at which a cancellation finds no compensation, or the wrong one. */
  predicate Unprotected(before: State, fault: Fault) {
    || (before.row.None? && fault == Cancel(AtReserve, true))
    || (before.row.Some? && fault == Cancel(AtReset, true))
    || fault == Cancel(AtReady, true)
  }

  // ----- what each fault leaves behind -----

  predicate Resumable(s: State) {
    s.row.None? || s.row.value.Failed?
  }

  /** The state after one upload. */
  function Final(s: State, assignmentReady: bool, fault: Fault): State {
    if !assignmentReady || !Resumable(s) then s
    else
      match fault
      case Cancel(AtReserve, done) => if done && s.row.None? then s.(row := Some(Uploaded)) else s
      case Cancel(AtReset, done) =>
        if s.row.None? then State(Some(Ready), true, true, s.refusals)
        else if done then s.(row := Some(Uploaded)) else s
      case NoFault => State(Some(Ready), true, true, s.refusals)
      case SourceQuota(code) => State(Some(Failed(QuotaCode(code))), s.source, s.extracted, s.refusals)
      case SourceStorage(done) => State(Some(Failed(SourceFailed)), s.source || done, s.extracted, s.refusals)
      case Cancel(AtSource, done) => State(Some(Failed(ProcessingCancelled)), s.source || done, s.extracted, s.refusals)
      case ParseError(code) => State(Some(Failed(ParseCode(code))), true, s.extracted, s.refusals)
      case ExtractedQuota(code) => State(Some(Failed(QuotaCode(code))), true, false, s.refusals)
      case ExtractedStorage(_) => State(Some(Failed(ExtractedFailed)), true, false, s.refusals)
      case Cancel(AtExtracted, _) => State(Some(Failed(ProcessingCancelled)), true, false, s.refusals)
      case Cancel(AtReady, done) =>
        if done then State(Some(Ready), true, false, s.refusals + 1)
        else State(Some(Failed(ProcessingCancelled)), true, false, s.refusals)
      case Cancel(_, _) => State(Some(Failed(ProcessingCancelled)), true, s.extracted, s.refusals)
  }

  /**
   An upload settles, with no transition refused, exactly when it is not cancelled just after one of
   the three commits that no compensation covers.
   */
  lemma SettlesUnlessUnprotected(s: State, fault: Fault)
    requires Fresh(s)
    ensures Settled(s, Final(s, true, fault)) <==> !Unprotected(s, fault)
  {
  }

  /** After every protected fault the same file can be uploaded again, and then becomes ready. */
  lemma ProtectedFaultsAreRetryable(s: State, fault: Fault)
    requires Fresh(s) && !Unprotected(s, fault)
    ensures
      var t := Final(s, true, fault);
      || (t.row == Some(Ready) && t.extracted)
      || (Fresh(t) && Final(t, true, NoFault) == State(Some(Ready), true, true, s.refusals))
  {
  }

  /**
   A failed upload is stored under the code of what went wrong, the text is there iff the paper is ready, and the
   source is there iff its write took effect; nothing is done for an assignment that is not ready.
   */
  lemma FaultsAreNamed(s: State, fault: Fault)
    requires Fresh(s) && !Unprotected(s, fault)
    ensures Final(s, false, fault) == s
    ensures
      var t := Final(s, true, fault);
      var begun := !(fault.Cancel? && (fault.at == AtReserve || (fault.at == AtReset && s.row.Some?)));
      && (!begun ==> t == s)
      && (begun ==>
            && (t.row == Some(Ready) <==> fault == NoFault || (fault.Cancel? && fault.at == AtReset))
            && (forall code :: t.row == Some(Failed(QuotaCode(code))) <==>
                  fault == SourceQuota(code) || fault == ExtractedQuota(code))
            && (forall code :: t.row == Some(Failed(ParseCode(code))) <==> fault == ParseError(code))
            && (t.row == Some(Failed(SourceFailed)) <==> fault.SourceStorage?)
            && (t.row == Some(Failed(ExtractedFailed)) <==> fault.ExtractedStorage?)
            && (t.row == Some(Failed(ProcessingCancelled)) <==> fault.Cancel? && fault.at != AtReset)
            && (t.source <==>
                  || s.source
                  || !(fault.SourceQuota? || fault.SourceStorage? || (fault.Cancel? && fault.at == AtSource))
                  || (fault.SourceStorage? && fault.done) || (fault.Cancel? && fault.done)))
  {
  }

  /** The states after a list of uploads, one after the other. */
  function AfterUploads(s: State, faults: seq<Fault>): State {
    if faults == [] then s else Final(AfterUploads(s, faults[..|faults| - 1]), true, faults[|faults| - 1])
  }

  /** After an unprotected cancellation no later upload ever makes the paper ready with its text. */
  lemma {:induction false} UnprotectedIsStuck(s: State, fault: Fault, later: seq<Fault>)
    requires Fresh(s) && Unprotected(s, fault)
    ensures
      var t := AfterUploads(Final(s, true, fault), later);
      t == Final(s, true, fault) && !Settled(s, t)
  {
    if later != [] { UnprotectedIsStuck(s, fault, later[..|later| - 1]); }
  }

  /** Any number of uploads whose faults are all protected settles, and no transition is ever refused. */
  lemma {:induction false} ProtectedRunsSettle(s: State, faults: seq<Fault>)
    requires Fresh(s)
    requires forall i | 0 <= i < |faults| ::
               faults[i].Cancel? && faults[i].done ==> faults[i].at !in {AtReserve, AtReset, AtReady}
    ensures Settled(s, AfterUploads(s, faults))
  {
    if faults != [] {
      ProtectedRunsSettle(s, faults[..|faults| - 1]);
      assert faults[|faults| - 1].Cancel? && faults[|faults| - 1].done
             ==> faults[|faults| - 1].at !in {AtReserve, AtReset, AtReady};
    }
  }

  class SubmissionService {
    var row: Option<Row>
    var source: bool
    var extracted: bool
    var refusals: nat

    ghost function Now(): State
      reads this
    {
      State(row, source, extracted, refusals)
    }

    constructor ()
      ensures Now() == State(None, false, false, 0)
    {
      row, source, extracted, refusals := None, false, false, 0;
    }

    method Transition(to: Row) returns (ok: bool)
      requires row.Some?
      modifies this`row, this`refusals
      ensures ok <==> TransitionAllowed(old(row).value, to)
      ensures row == if ok then Some(to) else old(row)
      ensures refusals == if ok then old(refusals) else old(refusals) + 1
    {
      match (row.value, to) {
        case (Uploaded, Parsing) => ok := true;
        case (Uploaded, Failed(_)) => ok := true;
        case (Parsing, Failed(_)) => ok := true;
        case (Parsing, Ready) => ok := true;
        case (Failed(_), Uploaded) => ok := true;
        case _ => ok := false;
      }
      if ok {
        row := Some(to);
      } else {
        refusals := refusals + 1;
      }
    }

    /** A transition under a possible cancellation at this point: true when it was cancelled. */
    method TransitionAt(to: Row, at: Point, fault: Fault) returns (cancelled: bool)
      requires row.Some? && TransitionAllowed(row.value, to)
      modifies this`row, this`refusals
      ensures cancelled <==> fault.Cancel? && fault.at == at
      ensures row == if cancelled && !fault.done then old(row) else Some(to)
      ensures refusals == old(refusals)
    {
      cancelled := fault.Cancel? && fault.at == at;
      if !cancelled || fault.done {
        var ok := Transition(to);
      }
    }

    method MarkFailed(error: ErrorCode)
      requires row.Some?
      modifies this`row, this`refusals
      ensures
        var ok := TransitionAllowed(old(row).value, Failed(error));
        row == (if ok then Some(Failed(error)) else old(row))
        && refusals == (if ok then old(refusals) else old(refusals) + 1)
    {
      var ok := Transition(Failed(error));
    }

    /** A source upload; None is success. */
    method PutSource(fault: Fault) returns (error: Option<ErrorCode>)
      modifies this`source
      ensures error == match fault
                       case SourceQuota(code) => Some(QuotaCode(code))
                       case SourceStorage(_) => Some(SourceFailed)
                       case Cancel(AtSource, _) => Some(ProcessingCancelled)
                       case _ => None
      ensures source == match fault
                        case SourceQuota(_) => old(source)
                        case SourceStorage(done) => old(source) || done
                        case Cancel(AtSource, done) => old(source) || done
                        case _ => true
    {
      match fault {
        case SourceQuota(code) => return Some(QuotaCode(code));
        case SourceStorage(done) =>
          source := source || done;
          return Some(SourceFailed);
        case Cancel(AtSource, done) =>
          source := source || done;
          return Some(ProcessingCancelled);
        case _ =>
          source := true;
          return None;
      }
    }

    /** The text upload; a cancellation waits for the write to end before it is passed on. */
    method PutExtracted(fault: Fault) returns (error: Option<ErrorCode>)
      modifies this`extracted
      ensures error == match fault
                       case ExtractedQuota(code) => Some(QuotaCode(code))
                       case ExtractedStorage(_) => Some(ExtractedFailed)
                       case Cancel(AtExtracted, _) => Some(ProcessingCancelled)
                       case _ => None
      ensures error.None? ==> extracted
    {
      match fault {
        case ExtractedQuota(code) => return Some(QuotaCode(code));
        case ExtractedStorage(done) =>
          extracted := extracted || done;
          return Some(ExtractedFailed);
        case Cancel(AtExtracted, done) =>
          extracted := extracted || done;
          return Some(ProcessingCancelled);
        case _ =>
          extracted := true;
          return None;
      }
    }

    method DeleteExtracted()
      modifies this`extracted
      ensures !extracted
    {
      extracted := false;
    }

    /** reserve_submission and _resolve_reservation; Accepted means that processing goes on. */
    method Reserve(assignmentReady: bool, fault: Fault) returns (outcome: Outcome)
      modifies this`row, this`refusals
      ensures outcome == Accepted <==>
                && assignmentReady && Resumable(old(Now()))
                && !(fault.Cancel? && (fault.at == AtReserve || (fault.at == AtReset && old(row).Some?)))
      ensures outcome == Accepted ==> row == Some(Uploaded) && refusals == old(refusals)
      ensures outcome != Accepted ==> Now() == Final(old(Now()), assignmentReady, fault)
      ensures outcome == Refused <==> !assignmentReady && !(fault.Cancel? && fault.at == AtReserve)
      ensures outcome == Duplicate <==>
                assignmentReady && !Resumable(old(Now())) && !(fault.Cancel? && fault.at == AtReserve)
    {
      if fault.Cancel? && fault.at == AtReserve {
        if fault.done && assignmentReady && row.None? {
          row := Some(Uploaded);
        }
        return Raised;
      }
      if !assignmentReady {
        return Refused;
      }
      if row.None? {
        row := Some(Uploaded);
        return Accepted;
      }
      if !row.value.Failed? {
        return Duplicate;
      }
      var cancelled := TransitionAt(Uploaded, AtReset, fault);
      return if cancelled then Raised else Accepted;
    }

    /** The protected part, from the source upload on. */
    method Process(fault: Fault) returns (outcome: Outcome)
      requires row == Some(Uploaded) && !extracted
      modifies this
      ensures !(fault.Cancel? && (fault.at == AtReserve || fault.at == AtReset)) ==>
                Now() == Final(old(Now()).(row := None), true, fault)
      ensures fault.Cancel? && (fault.at == AtReserve || fault.at == AtReset) ==>
                Now() == Final(old(Now()).(row := None), true, NoFault)
      ensures outcome == Accepted <==> row == Some(Ready) && extracted
      ensures outcome == Accepted || outcome == Raised
    {
      var error := PutSource(fault);
      if error.Some? {
        MarkFailed(error.value);
        return Raised;
      }
      var cancelled := TransitionAt(Parsing, AtParsing, fault);
      if cancelled {
        MarkFailed(ProcessingCancelled);
        return Raised;
      }
      if fault.ParseError? {
        MarkFailed(ParseCode(fault.code));
        return Raised;
      }
      if fault.Cancel? && fault.at == AtParse {
        MarkFailed(ProcessingCancelled);
        return Raised;
      }
      error := PutExtracted(fault);
      if error.Some? {
        if fault.Cancel? {
          DeleteExtracted();
          MarkFailed(ProcessingCancelled);
        } else {
          MarkFailed(error.value);
          DeleteExtracted();
        }
        return Raised;
      }
      cancelled := TransitionAt(Ready, AtReady, fault);
      if cancelled {
        DeleteExtracted();
        MarkFailed(ProcessingCancelled);
        return Raised;
      }
      return Accepted;
    }

    method UploadSubmission(assignmentReady: bool, fault: Fault) returns (outcome: Outcome)
      requires Resumable(Now()) ==> !extracted
      modifies this
      ensures Now() == Final(old(Now()), assignmentReady, fault)
      ensures outcome == Accepted <==>
                assignmentReady && Resumable(old(Now())) && row == Some(Ready) && extracted
      ensures outcome == Refused <==> !assignmentReady && !(fault.Cancel? && fault.at == AtReserve)
      ensures outcome == Duplicate <==>
                assignmentReady && !Resumable(old(Now())) && !(fault.Cancel? && fault.at == AtReserve)
      ensures outcome == Refused || outcome == Duplicate ==> Now() == old(Now())
    {
      outcome := Reserve(assignmentReady, fault);
      if outcome != Accepted {
        return;
      }
      outcome := Process(fault);
    }
  }
}
