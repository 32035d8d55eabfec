/**
 confirm_teacher_reviews for reviews of several jobs at once: all items are written first, then every job is
 closed in turn, and nothing is committed unless all of it is. A committed transaction is a run of
 confirmations of one job each, so the theorems about runs cover it.
 */
module GradingConfirmation {
  import opened Wrappers
  import opened GradingRows
  import opened GradingTransitions
  import opened GradingInvariants
  import opened GradingSystem

  /** The reviews of one job that the request names, by the positions of their items. */
  datatype Target = Target(job: nat, positions: set<nat>)

  predicate TargetFits(jobs: seq<Job>, t: Target) {
    t.job < |jobs| && t.positions != {} && forall p | p in t.positions :: p < |jobs[t.job].items|
  }

  predicate DistinctJobs(targets: seq<Target>) {
    forall m, n | 0 <= m < n < |targets| :: targets[m].job != targets[n].job
  }

  function Reviews(targets: seq<Target>): nat {
    if targets == [] then 0 else Reviews(targets[..|targets| - 1]) + |targets[|targets| - 1].positions|
  }

  predicate TargetConfirmed(jobs: seq<Job>, t: Target)
    requires TargetFits(jobs, t)
  {
    forall p | p in t.positions :: jobs[t.job].items[p].reviewConfirmed
  }

  predicate TargetConfirmable(jobs: seq<Job>, t: Target)
    requires TargetFits(jobs, t)
  {
    forall p | p in t.positions :: Confirmable(jobs[t.job].items[p])
  }

  /** The UPDATE of the items of all jobs. */
  function WriteItems(jobs: seq<Job>, targets: seq<Target>, now: Time): (r: seq<Job>)
    ensures |r| == |jobs|
  {
    if targets == [] then jobs
    else
      var before := WriteItems(jobs, targets[..|targets| - 1], now);
      var t := targets[|targets| - 1];
      if t.job < |before| then
        before[t.job := before[t.job].(items := ConfirmAt(before[t.job].items, t.positions, now))]
      else before
  }

  /** One pass of the loop over the jobs; None when a trigger raises. */
  function CloseNext(before: seq<Job>, j: nat, now: Time): (r: Option<seq<Job>>)
    ensures r.Some? ==> |r.value| == |before|
  {
    if j >= |before| || CloseJob(before[j], now).None? then None
    else Some(before[j := CloseJob(before[j], now).value])
  }

  function CloseJobs(jobs: seq<Job>, targets: seq<Target>, now: Time): (r: Option<seq<Job>>)
    ensures r.Some? ==> |r.value| == |jobs|
  {
    if targets == [] then Some(jobs)
    else
      match CloseJobs(jobs, targets[..|targets| - 1], now)
      case None => None
      case Some(before) => CloseNext(before, targets[|targets| - 1].job, now)
  }

  function ConfirmAll(jobs: seq<Job>, targets: seq<Target>, now: Time): Option<seq<Job>> {
    if !(1 <= Reviews(targets) <= 100) || !DistinctJobs(targets) || !(forall t | t in targets :: TargetFits(jobs, t)) then
      None
    else if forall t | t in targets :: TargetConfirmed(jobs, t) then Some(jobs)
    else if !(forall t | t in targets :: TargetConfirmable(jobs, t)) then None
    else CloseJobs(WriteItems(jobs, targets, now), targets, now)
  }

  /** The same targets as actions of the step system. */
  function ActionsOf(targets: seq<Target>, now: Time): (r: seq<Action>)
    ensures |r| == |targets|
    ensures forall n | 0 <= n < |r| :: r[n] == ConfirmAction(targets[n].job, targets[n].positions, now)
  {
    seq(|targets|, n requires 0 <= n < |targets| => ConfirmAction(targets[n].job, targets[n].positions, now))
  }

  // ----- jobs that a list of targets does not name are left alone -----

  predicate Names(targets: seq<Target>, j: nat) {
    exists n | 0 <= n < |targets| :: targets[n].job == j
  }

  lemma NamesPrefix(targets: seq<Target>, j: nat)
    requires targets != [] && !Names(targets, j)
    ensures !Names(targets[..|targets| - 1], j) && targets[|targets| - 1].job != j
  {
  }

  lemma {:induction false} WriteItemsLeaves(jobs: seq<Job>, targets: seq<Target>, now: Time, j: nat)
    requires j < |jobs| && !Names(targets, j)
    ensures WriteItems(jobs, targets, now)[j] == jobs[j]
  {
    if targets != [] {
      NamesPrefix(targets, j);
      WriteItemsLeaves(jobs, targets[..|targets| - 1], now, j);
    }
  }

  /** Closing other jobs does not depend on job j, whatever its row. */
  lemma {:induction false} CloseJobsLeaves(jobs: seq<Job>, targets: seq<Target>, now: Time, j: nat, row: Job)
    requires j < |jobs| && !Names(targets, j)
    ensures
      var closed := CloseJobs(jobs, targets, now);
      var other := CloseJobs(jobs[j := row], targets, now);
      match closed
      case None => other.None?
      case Some(rows) => rows[j] == jobs[j] && other == Some(rows[j := row])
  {
    if targets != [] {
      NamesPrefix(targets, j);
      CloseJobsLeaves(jobs, targets[..|targets| - 1], now, j, row);
      var t := targets[|targets| - 1];
      match CloseJobs(jobs, targets[..|targets| - 1], now) {
        case None =>
        case Some(before) => CloseNextLeaves(before, t.job, now, j, row);
      }
    }
  }

  lemma CloseNextLeaves(before: seq<Job>, k: nat, now: Time, j: nat, row: Job)
    requires j < |before| && j != k
    ensures
      match CloseNext(before, k, now)
      case None => CloseNext(before[j := row], k, now).None?
      case Some(rows) => rows[j] == before[j] && CloseNext(before[j := row], k, now) == Some(rows[j := row])
  {
    if k < |before| && CloseJob(before[k], now).Some? {
      var closed := CloseJob(before[k], now).value;
      assert before[j := row][k := closed] == before[k := closed][j := row];
    }
  }

  lemma DistinctPrefix(targets: seq<Target>)
    requires targets != [] && DistinctJobs(targets)
    ensures DistinctJobs(targets[..|targets| - 1]) && !Names(targets[..|targets| - 1], targets[|targets| - 1].job)
  {
    var front := targets[..|targets| - 1];
    forall n | 0 <= n < |front| ensures front[n].job != targets[|targets| - 1].job {
      assert front[n] == targets[n];
    }
  }

  // ----- one transaction is a run -----

  /** One target more: its items are written and its job closed as if it were confirmed alone. */
  lemma OneMore(jobs: seq<Job>, targets: seq<Target>, now: Time)
    requires targets != [] && DistinctJobs(targets) && targets[|targets| - 1].job < |jobs|
    ensures
      var front, t := targets[..|targets| - 1], targets[|targets| - 1];
      var before := CloseJobs(WriteItems(jobs, front, now), front, now);
      var written := jobs[t.job].(items := ConfirmAt(jobs[t.job].items, t.positions, now));
      && (before.Some? ==> before.value[t.job] == jobs[t.job])
      && CloseJobs(WriteItems(jobs, targets, now), targets, now)
           == if before.None? then None else CloseNext(before.value[t.job := written], t.job, now)
  {
    var front, t := targets[..|targets| - 1], targets[|targets| - 1];
    DistinctPrefix(targets);
    var items := WriteItems(jobs, front, now);
    WriteItemsLeaves(jobs, front, now, t.job);
    var written := jobs[t.job].(items := ConfirmAt(jobs[t.job].items, t.positions, now));
    assert WriteItems(jobs, targets, now) == items[t.job := written];
    CloseJobsLeaves(items, front, now, t.job, written);
  }

  /** The confirmation of one job in the middle of the list. */
  lemma SingleConfirmation(jobs: seq<Job>, t: Target, now: Time, R: nat)
    requires TargetFits(jobs, t) && JobInv(jobs[t.job], R) && TargetConfirmable(jobs, t)
    ensures ConfirmReviews(jobs[t.job], t.positions, now)
            == CloseJob(jobs[t.job].(items := ConfirmAt(jobs[t.job].items, t.positions, now)), now)
  {
    var p :| p in t.positions;
    assert Confirmable(jobs[t.job].items[p]) && ItemInv(jobs[t.job].items[p], R);
  }

  lemma ConfirmationStep(s: System, a: Action, row: Option<Job>)
    requires a.ConfirmAction? && a.job < |s.jobs| && row == ConfirmReviews(s.jobs[a.job], a.positions, a.now)
    ensures Step(s, a) == SetJob(s, a.job, row)
  {
  }

  /** The run of one target more. */
  lemma RunOneMore(s: System, targets: seq<Target>, now: Time, before: System, row: Option<Job>)
    requires targets != [] && before == Run(s, ActionsOf(targets[..|targets| - 1], now))
    requires targets[|targets| - 1].job < |before.jobs|
    requires row == ConfirmReviews(before.jobs[targets[|targets| - 1].job], targets[|targets| - 1].positions, now)
    ensures Run(s, ActionsOf(targets, now)) == SetJob(before, targets[|targets| - 1].job, row)
  {
    var actions := ActionsOf(targets, now);
    assert actions[..|actions| - 1] == ActionsOf(targets[..|targets| - 1], now);
    ConfirmationStep(before, actions[|actions| - 1], row);
  }

  lemma CloseWritten(before: seq<Job>, j: nat, written: Job, now: Time)
    requires j < |before| && CloseNext(before[j := written], j, now).Some?
    ensures CloseJob(written, now).Some?
    ensures CloseNext(before[j := written], j, now).value == before[j := CloseJob(written, now).value]
  {
  }

  /** What the last target adds: the row of its job, confirmed alone. */
  lemma LastRow(jobs: seq<Job>, targets: seq<Target>, now: Time, R: nat) returns (before: seq<Job>, row: Job)
    requires targets != [] && DistinctJobs(targets)
    requires
      var t := targets[|targets| - 1];
      TargetFits(jobs, t) && TargetConfirmable(jobs, t) && JobInv(jobs[t.job], R)
    requires CloseJobs(WriteItems(jobs, targets, now), targets, now).Some?
    ensures
      var front, t := targets[..|targets| - 1], targets[|targets| - 1];
      && CloseJobs(WriteItems(jobs, front, now), front, now) == Some(before)
      && t.job < |before| == |jobs|
      && ConfirmReviews(before[t.job], t.positions, now) == Some(row)
      && CloseJobs(WriteItems(jobs, targets, now), targets, now) == Some(before[t.job := row])
  {
    var front, t := targets[..|targets| - 1], targets[|targets| - 1];
    OneMore(jobs, targets, now);
    before := CloseJobs(WriteItems(jobs, front, now), front, now).value;
    var written := jobs[t.job].(items := ConfirmAt(jobs[t.job].items, t.positions, now));
    CloseWritten(before, t.job, written, now);
    SingleConfirmation(jobs, t, now, R);
    row := CloseJob(written, now).value;
  }

  lemma {:induction false} ClosingIsRun(s: System, targets: seq<Target>, now: Time, closed: seq<Job>)
    requires (forall j | 0 <= j < |s.jobs| :: JobInv(s.jobs[j], s.retries)) && DistinctJobs(targets)
    requires forall t | t in targets :: TargetFits(s.jobs, t) && TargetConfirmable(s.jobs, t)
    requires CloseJobs(WriteItems(s.jobs, targets, now), targets, now) == Some(closed)
    ensures Run(s, ActionsOf(targets, now)) == s.(jobs := closed)
  {
    if targets == [] {
      assert ActionsOf(targets, now) == [];
    } else {
      var front, t := targets[..|targets| - 1], targets[|targets| - 1];
      assert t in targets && forall u | u in front :: u in targets;
      DistinctPrefix(targets);
      var before, row := LastRow(s.jobs, targets, now, s.retries);
      ClosingIsRun(s, front, now, before);
      RunOneMore(s, targets, now, s.(jobs := before), Some(row));
    }
  }

  lemma {:induction false} NothingToConfirmIsRun(s: System, targets: seq<Target>, now: Time)
    requires forall t | t in targets :: TargetFits(s.jobs, t) && TargetConfirmed(s.jobs, t)
    ensures Run(s, ActionsOf(targets, now)) == s
  {
    if targets == [] {
      assert ActionsOf(targets, now) == [];
    } else {
      var front, t := targets[..|targets| - 1], targets[|targets| - 1];
      assert t in targets && forall u | u in front :: u in targets;
      NothingToConfirmIsRun(s, front, now);
      RunOneMore(s, targets, now, s, Some(s.jobs[t.job]));
      assert s.jobs[t.job := s.jobs[t.job]] == s.jobs;
    }
  }

  /** Whatever confirm_teacher_reviews commits for several jobs is a run of confirmations of one job each. */
  lemma ConfirmAllIsRun(s: System, targets: seq<Target>, now: Time)
    requires Inv(s) && ConfirmAll(s.jobs, targets, now).Some?
    ensures Run(s, ActionsOf(targets, now)) == s.(jobs := ConfirmAll(s.jobs, targets, now).value)
  {
    if forall t | t in targets :: TargetConfirmed(s.jobs, t) {
      NothingToConfirmIsRun(s, targets, now);
    } else {
      ClosingIsRun(s, targets, now, ConfirmAll(s.jobs, targets, now).value);
    }
  }

  // ----- when it commits -----

  predicate Live(jobs: seq<Job>, t: Target) {
    t.job < |jobs| && jobs[t.job].status != JobCancelled
  }

  /** The triggers refuse to close a job exactly when it was cancelled. */
  lemma {:induction false} ClosingSucceeds(jobs: seq<Job>, targets: seq<Target>, now: Time, R: nat)
    requires (forall j | 0 <= j < |jobs| :: JobInv(jobs[j], R)) && DistinctJobs(targets)
    requires forall t | t in targets :: TargetFits(jobs, t) && TargetConfirmable(jobs, t)
    ensures CloseJobs(WriteItems(jobs, targets, now), targets, now).Some? <==> forall t | t in targets :: Live(jobs, t)
  {
    if targets != [] {
      var front, t := targets[..|targets| - 1], targets[|targets| - 1];
      assert t in targets && forall u | u in targets :: u in front || u == t;
      assert forall u | u in front :: u in targets;
      DistinctPrefix(targets);
      OneMore(jobs, targets, now);
      ClosingSucceeds(jobs, front, now, R);
      ConfirmKeepsItems(jobs[t.job].items, t.positions, now, R);
      ConfirmSettles(jobs[t.job], ConfirmAt(jobs[t.job].items, t.positions, now), now, R);
    }
  }

  /**
   All or nothing: a request is committed iff it names 1 to 100 reviews of existing items, and either all of
   them are confirmed already, or all can be confirmed and no job among them is cancelled.
   */
  lemma ConfirmAllIff(s: System, targets: seq<Target>, now: Time)
    requires Inv(s)
    ensures ConfirmAll(s.jobs, targets, now).Some? <==>
              && 1 <= Reviews(targets) <= 100 && DistinctJobs(targets)
              && (forall t | t in targets :: TargetFits(s.jobs, t))
              && ((forall t | t in targets :: TargetConfirmed(s.jobs, t))
                  || (forall t | t in targets ::
                        TargetConfirmable(s.jobs, t) && Live(s.jobs, t)))
  {
    if DistinctJobs(targets) && forall t | t in targets :: TargetFits(s.jobs, t) && TargetConfirmable(s.jobs, t) {
      ClosingSucceeds(s.jobs, targets, now, s.retries);
    }
  }
}
