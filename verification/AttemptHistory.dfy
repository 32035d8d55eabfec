/**
 The attempts of one item: how a new row is numbered, what a preparation reads from the
 earlier rows, and what the resulting history looks like.
 */
module AttemptHistory {
  import opened Wrappers
  import opened GradingRows

  // ----- the SQL aggregates of claim_attempt -----

  function Max(a: nat, b: nat): nat {
    if a < b then b else a
  }

  /** coalesce(max(attempt_number), 0) */
  function MaxNumber(h: seq<Attempt>): nat {
    if h == [] then 0 else Max(MaxNumber(h[..|h| - 1]), h[|h| - 1].number)
  }

  /** coalesce(max(call_sequence), 0) over one scoring round */
  function MaxSequence(h: seq<Attempt>, round: nat): nat {
    if h == [] then 0
    else
      var rest := MaxSequence(h[..|h| - 1], round);
      if h[|h| - 1].round == round then Max(rest, h[|h| - 1].sequence) else rest
  }

  // ----- what prepare_item reads -----

  predicate IsCorrectionSource(a: Attempt, round: nat) {
    a.round == round && a.errorCode == Some(CorrectionRequired)
  }

  /** The latest attempt of the round whose output has to be corrected. */
  function CorrectionSource(h: seq<Attempt>, round: nat): (source: Option<nat>)
    ensures source.Some? ==> source.value < |h| && IsCorrectionSource(h[source.value], round)
  {
    if h == [] then None
    else if IsCorrectionSource(h[|h| - 1], round) then Some(|h| - 1)
    else CorrectionSource(h[..|h| - 1], round)
  }

  datatype Plan = Plan(kind: AttemptKind, parent: Option<nat>, correctionPrompt: bool)

  /** The kind, parent and prompt of the next call, from the rows that exist now. */
  function PlanNext(h: seq<Attempt>, round: nat): Plan {
    var last: Option<nat> := if h == [] then None else Some(|h| - 1);
    match CorrectionSource(h, round)
    case Some(source) =>
      Plan(
        if last == Some(source) then Correction else AutomaticRetry,
        if last.Some? then last else Some(source),
        h[source].hasResponse)
    case None =>
      if round > 1 && (last.None? || h[last.value].round < round) then
        Plan(ManualRetry, last, false)
      else if last.Some? then
        Plan(AutomaticRetry, last, false)
      else
        Plan(Initial, None, false)
  }

  // ----- the history invariant -----

  /** The runner asked for a retry after this call (R is max_provider_retries). */
  predicate Retried(a: Attempt, R: nat) {
    && a.status == Unsuccessful
    && a.callState in {NotSent, ResponseReceived}
    && (|| (a.errorCode == Some(CorrectionRequired) && a.hasResponse)
        || (a.details == RetryInfo(true, Safe) && a.sequence <= R))
  }

  /** How row k follows row k - 1. */
  predicate Link(h: seq<Attempt>, k: nat, R: nat)
    requires k < |h|
  {
    && h[k].number == k + 1
    && AttemptCheck(h[k])
    && (h[k].errorCode == Some(CorrectionRequired) ==> Retried(h[k], R) && h[k].hasResponse)
    && (k == 0 ==> h[k].round == 1 && h[k].sequence == 1)
    && (k > 0 ==>
          && h[k - 1].status != InFlight
          && (|| (h[k].round == h[k - 1].round && h[k].sequence == h[k - 1].sequence + 1 && Retried(h[k - 1], R))
              || (h[k].round == h[k - 1].round + 1 && h[k].sequence == 1)))
  }

  predicate Chain(h: seq<Attempt>, R: nat) {
    forall k | 0 <= k < |h| :: Link(h, k, R)
  }

  lemma ChainPrefix(h: seq<Attempt>, n: nat, R: nat)
    requires n <= |h| && Chain(h, R)
    ensures Chain(h[..n], R)
  {
    forall k | 0 <= k < n ensures Link(h[..n], k, R) {
      assert Link(h, k, R);
    }
  }

  /** The two aggregates under the invariant: the next number is n + 1 and the next sequence continues the round. */
  lemma {:induction false} AggregatesOfChain(h: seq<Attempt>, round: nat, R: nat)
    requires Chain(h, R)
    requires h != [] ==> h[|h| - 1].round <= round
    ensures MaxNumber(h) == |h|
    ensures MaxSequence(h, round) == if h != [] && h[|h| - 1].round == round then h[|h| - 1].sequence else 0
  {
    if h != [] {
      var front := h[..|h| - 1];
      ChainPrefix(h, |h| - 1, R);
      assert Link(h, |h| - 1, R);
      AggregatesOfChain(front, round, R);
    }
  }

  /** Rounds never decrease, and the sequence numbers of one round count up without gaps. */
  lemma {:induction false} RoundsAndSequences(h: seq<Attempt>, i: nat, k: nat, R: nat)
    requires Chain(h, R) && i <= k < |h|
    ensures h[i].round <= h[k].round
    ensures h[i].round == h[k].round ==> h[k].sequence == h[i].sequence + (k - i)
    ensures i < k && h[i].round == h[k].round ==> Retried(h[i], R)
    ensures 1 <= h[k].round <= k + 1 && 1 <= h[k].sequence
    decreases k
  {
    assert Link(h, k, R);
    if k > 0 {
      RoundsAndSequences(h, if i < k then i else k - 1, k - 1, R);
      assert Link(h, k - 1, R);
    }
  }

  /** Sequences of a round start at 1: the row that opens the round of row k is k - sequence + 1. */
  lemma {:induction false} RoundStart(h: seq<Attempt>, k: nat, R: nat)
    requires Chain(h, R) && k < |h|
    ensures 1 <= h[k].sequence <= k + 1
    ensures forall i | 0 <= i <= k :: h[i].round == h[k].round <==> k + 1 - h[k].sequence <= i
    decreases k
  {
    assert Link(h, k, R);
    if k > 0 {
      RoundStart(h, k - 1, R);
      forall i | 0 <= i <= k
        ensures h[i].round == h[k].round <==> k + 1 - h[k].sequence <= i
      {
        RoundsAndSequences(h, i, k, R);
        if i < k { RoundsAndSequences(h, i, k - 1, R); }
      }
    }
  }

  // ----- retry bounds -----

  /** Corrections of a round that came after the provider retries were used up. */
  function LateCorrections(h: seq<Attempt>, round: nat, R: nat): nat {
    if h == [] then 0
    else
      LateCorrections(h[..|h| - 1], round, R)
      + (if IsCorrectionSource(h[|h| - 1], round) && h[|h| - 1].sequence > R then 1 else 0)
  }

  /** No row counts as late for a round that has not begun. */
  lemma {:induction false} NoneLateYet(h: seq<Attempt>, round: nat, R: nat)
    requires Chain(h, R) && (h != [] ==> h[|h| - 1].round < round)
    ensures LateCorrections(h, round, R) == 0
  {
    if h != [] {
      ChainPrefix(h, |h| - 1, R);
      if |h| > 1 { RoundsAndSequences(h, |h| - 2, |h| - 1, R); }
      NoneLateYet(h[..|h| - 1], round, R);
    }
  }

  /**
   Calls of a round, whatever the interleaving: beyond the first R + 1 there is exactly one call for
   every correction that was requested after the R provider retries, so a round makes more than
   R + 2 calls iff it had asked for two such corrections before.
   */
  lemma {:induction false} CallsOfRound(h: seq<Attempt>, R: nat)
    requires Chain(h, R) && h != []
    ensures
      var last := h[|h| - 1];
      var late := LateCorrections(h[..|h| - 1], last.round, R);
      && (if last.sequence <= R + 1 then late == 0 else last.sequence == R + 1 + late)
      && (last.sequence > R + 2 <==> late >= 2)
    decreases |h|
  {
    var n := |h|;
    var front := h[..n - 1];
    assert Link(h, n - 1, R);
    ChainPrefix(h, n - 1, R);
    if n > 1 && h[n - 1].round == h[n - 2].round {
      assert Link(h, n - 2, R);
      CallsOfRound(front, R);
      assert front[..|front| - 1] == h[..n - 2];
    } else {
      NoneLateYet(front, h[n - 1].round, R);
    }
  }

  /** Retries that were granted for a provider error, not for an output that had to be corrected. */
  function ProviderRetries(h: seq<Attempt>, round: nat, R: nat): nat {
    if h == [] then 0
    else
      var last := h[|h| - 1];
      ProviderRetries(h[..|h| - 1], round, R)
      + (if last.round == round && Retried(last, R) && last.errorCode != Some(CorrectionRequired) then 1 else 0)
  }

  /** Under any interleaving a round is granted at most R of them. */
  lemma {:induction false} ProviderRetryBound(h: seq<Attempt>, round: nat, R: nat)
    requires Chain(h, R)
    ensures ProviderRetries(h, round, R) <= R
    ensures h != [] && h[|h| - 1].round == round ==> ProviderRetries(h, round, R) <= h[|h| - 1].sequence
    ensures h != [] && h[|h| - 1].round < round ==> ProviderRetries(h, round, R) == 0
  {
    if h != [] {
      var n := |h|;
      ChainPrefix(h, n - 1, R);
      assert Link(h, n - 1, R);
      ProviderRetryBound(h[..n - 1], round, R);
    }
  }

  // ----- fresh histories -----

  predicate HasCorrection(h: seq<Attempt>, round: nat) {
    exists j | 0 <= j < |h| :: IsCorrectionSource(h[j], round)
  }

  lemma {:induction false} CorrectionSourceExists(h: seq<Attempt>, round: nat)
    ensures CorrectionSource(h, round).Some? <==> HasCorrection(h, round)
    ensures CorrectionSource(h, round).Some? ==>
              forall j | CorrectionSource(h, round).value < j < |h| :: !IsCorrectionSource(h[j], round)
  {
    if h != [] {
      var front := h[..|h| - 1];
      CorrectionSourceExists(front, round);
      if HasCorrection(front, round) {
        var j :| 0 <= j < |front| && IsCorrectionSource(front[j], round);
        assert IsCorrectionSource(h[j], round);
      }
      if HasCorrection(h, round) && !IsCorrectionSource(h[|h| - 1], round) {
        var j :| 0 <= j < |h| && IsCorrectionSource(h[j], round);
        assert IsCorrectionSource(front[j], round);
      }
    }
  }

  /** Row k was claimed with a preparation that had read all the rows before it. */
  predicate FreshLink(h: seq<Attempt>, k: nat)
    requires k < |h|
  {
    && h[k].kind == PlanNext(h[..k], h[k].round).kind
    && h[k].parent == PlanNext(h[..k], h[k].round).parent
    && (IsCorrectionSource(h[k], h[k].round) ==> !HasCorrection(h[..k], h[k].round))
  }

  predicate FreshChain(h: seq<Attempt>) {
    forall k | 0 <= k < |h| :: FreshLink(h, k)
  }

  lemma FreshChainPrefix(h: seq<Attempt>, n: nat)
    requires n <= |h| && FreshChain(h)
    ensures FreshChain(h[..n])
  {
    forall k | 0 <= k < n ensures FreshLink(h[..n], k) {
      assert FreshLink(h, k);
      assert h[..n][..k] == h[..k];
    }
  }

  /** With fresh preparations a round asks for at most one correction. */
  lemma OneCorrectionPerRound(h: seq<Attempt>, i: nat, k: nat)
    requires FreshChain(h) && i < |h| && k < |h|
    requires h[i].errorCode == Some(CorrectionRequired) && h[k].errorCode == Some(CorrectionRequired)
    requires h[i].round == h[k].round
    ensures i == k
  {
    var lo, hi := if i < k then i else k, if i < k then k else i;
    if lo < hi {
      assert FreshLink(h, hi);
      assert IsCorrectionSource(h[..hi][lo], h[hi].round);
    }
  }

  lemma {:induction false} AtMostOneLateCorrection(h: seq<Attempt>, round: nat, R: nat)
    requires FreshChain(h)
    ensures LateCorrections(h, round, R) <= 1
    ensures !HasCorrection(h, round) ==> LateCorrections(h, round, R) == 0
  {
    if h != [] {
      var n := |h|;
      var front := h[..n - 1];
      FreshChainPrefix(h, n - 1);
      AtMostOneLateCorrection(front, round, R);
      if HasCorrection(front, round) {
        var j :| 0 <= j < |front| && IsCorrectionSource(front[j], round);
        assert IsCorrectionSource(h[j], round);
        if IsCorrectionSource(h[n - 1], round) {
          OneCorrectionPerRound(h, j, n - 1);
        }
      }
      if IsCorrectionSource(h[n - 1], round) {
        assert HasCorrection(h, round);
      }
    }
  }

  /** The bound the deployment relies on: R provider retries and one correction. */
  lemma FreshCallBound(h: seq<Attempt>, k: nat, R: nat)
    requires Chain(h, R) && FreshChain(h) && k < |h|
    ensures h[k].sequence <= R + 2
  {
    var upto := h[..k + 1];
    ChainPrefix(h, k + 1, R);
    CallsOfRound(upto, R);
    assert upto[..|upto| - 1] == h[..k];
    FreshChainPrefix(h, k);
    AtMostOneLateCorrection(h[..k], h[k].round, R);
  }

  /** The parent links form the single chain n -> n - 1, and the kind is a function of the position. */
  lemma FreshShape(h: seq<Attempt>, k: nat, R: nat)
    requires Chain(h, R) && FreshChain(h) && k < |h|
    ensures h[k].parent == if k == 0 then None else Some(k - 1)
    ensures h[k].kind == Initial <==> k == 0
    ensures h[k].kind == ManualRetry <==> k > 0 && h[k].sequence == 1
    ensures h[k].kind == Correction <==>
              k > 0 && h[k].sequence > 1 && h[k - 1].errorCode == Some(CorrectionRequired)
  {
    assert Link(h, k, R) && FreshLink(h, k);
    var before := h[..k];
    CorrectionSourceExists(before, h[k].round);
    RoundStart(h, k, R);
    if k > 0 {
      assert before[k - 1] == h[k - 1];
      RoundsAndSequences(h, k - 1, k, R);
      RoundsAndSequences(h, k - 1, k - 1, R);
      if IsCorrectionSource(h[k - 1], h[k].round) {
        assert HasCorrection(before, h[k].round);
      }
    }
  }

  function CountKind(h: seq<Attempt>, round: nat, kind: AttemptKind): nat {
    if h == [] then 0
    else CountKind(h[..|h| - 1], round, kind)
         + (if h[|h| - 1].round == round && h[|h| - 1].kind == kind then 1 else 0)
  }

  /** In a round of a fresh history the last sequence counts the opening call, the corrections and the automatic retries. */
  lemma {:induction false} KindsOfRound(h: seq<Attempt>, R: nat)
    requires Chain(h, R) && FreshChain(h) && h != []
    ensures h[|h| - 1].sequence ==
              1 + CountKind(h, h[|h| - 1].round, Correction) + CountKind(h, h[|h| - 1].round, AutomaticRetry)
    ensures CountKind(h, h[|h| - 1].round, Correction)
              == if HasCorrection(h[..|h| - 1], h[|h| - 1].round) then 1 else 0
    decreases |h|
  {
    var n := |h|;
    var round := h[n - 1].round;
    var front := h[..n - 1];
    assert Link(h, n - 1, R);
    ChainPrefix(h, n - 1, R);
    FreshChainPrefix(h, n - 1);
    FreshShape(h, n - 1, R);
    if n == 1 || h[n - 2].round != round {
      NoneOfRound(front, round, R);
    } else {
      KindsOfRound(front, R);
      assert front[..|front| - 1] == h[..n - 2];
      var before := h[..n - 2];
      if h[n - 2].errorCode == Some(CorrectionRequired) {
        assert IsCorrectionSource(front[n - 2], round);
        assert FreshLink(h, n - 2);
      } else {
        assert HasCorrection(front, round) ==> HasCorrection(before, round) by {
          if HasCorrection(front, round) {
            var j :| 0 <= j < |front| && IsCorrectionSource(front[j], round);
            assert IsCorrectionSource(before[j], round);
          }
        }
        assert HasCorrection(before, round) ==> HasCorrection(front, round) by {
          if HasCorrection(before, round) {
            var j :| 0 <= j < |before| && IsCorrectionSource(before[j], round);
            assert IsCorrectionSource(front[j], round);
          }
        }
      }
    }
  }

  lemma {:induction false} NoneOfRound(h: seq<Attempt>, round: nat, R: nat)
    requires Chain(h, R) && (h != [] ==> h[|h| - 1].round < round)
    ensures forall kind :: CountKind(h, round, kind) == 0
    ensures !HasCorrection(h, round)
  {
    if h != [] {
      ChainPrefix(h, |h| - 1, R);
      assert Link(h, |h| - 1, R);
      if |h| > 1 {
        RoundsAndSequences(h, |h| - 2, |h| - 1, R);
      }
      NoneOfRound(h[..|h| - 1], round, R);
      forall j | 0 <= j < |h| ensures !IsCorrectionSource(h[j], round) {
        RoundsAndSequences(h, j, |h| - 1, R);
      }
    }
  }

  /** The documented limits of every round: at most R automatic retries and at most one correction. */
  lemma {:induction false} RetryLimits(h: seq<Attempt>, round: nat, R: nat)
    requires Chain(h, R) && FreshChain(h)
    ensures CountKind(h, round, AutomaticRetry) <= R
    ensures CountKind(h, round, Correction) <= 1
  {
    if h != [] {
      var n := |h|;
      ChainPrefix(h, n - 1, R);
      FreshChainPrefix(h, n - 1);
      if h[n - 1].round == round {
        KindsOfRound(h, R);
        CallsOfRound(h, R);
        AtMostOneLateCorrection(h[..n - 1], round, R);
      } else {
        RetryLimits(h[..n - 1], round, R);
      }
    }
  }
}
