/**
 What the constraints, indexes and triggers guarantee about any sequence of flushes, whoever sends them,
 and why confirming a rubric sends its four flushes in the one order it does.
 */
module RubricFlushes {
  import opened Wrappers
  import opened RubricRows
  import PC = ProviderConfigs
  import RubricLifecycle

  // ----- any flushes -----

  /** A transaction: the first refused flush rolls everything back. */
  function RunFlushes(a: Assignment, flushes: seq<Flush>): Option<Assignment> {
    if flushes == [] then Some(a)
    else
      match RunFlushes(a, flushes[..|flushes| - 1])
      case None => None
      case Some(before) => ApplyFlush(before, flushes[|flushes| - 1])
  }

  lemma DbKeptTransitive(a: Assignment, b: Assignment, c: Assignment)
    requires DbKept(a, b) && DbKept(b, c)
    ensures DbKept(a, c)
  {
    forall i | 0 <= i < |a.versions| ensures VersionKept(a.versions[i], c.versions[i]) {
      assert VersionKept(a.versions[i], b.versions[i]) && VersionKept(b.versions[i], c.versions[i]);
    }
  }

  /**
   Whatever is flushed and in whatever order, an accepted transaction leaves at most one draft and one confirmed
   version, every row within its CHECKs, no ready assignment without a confirmed version, and every version
   that was confirmed or superseded with the content it had.
   */
  lemma {:induction false} FlushesKeep(a: Assignment, flushes: seq<Flush>)
    requires DbInv(a) && RunFlushes(a, flushes).Some?
    ensures DbInv(RunFlushes(a, flushes).value) && DbKept(a, RunFlushes(a, flushes).value)
  {
    if flushes != [] {
      var front := flushes[..|flushes| - 1];
      FlushesKeep(a, front);
      var before := RunFlushes(a, front).value;
      FlushKeeps(before, flushes[|flushes| - 1]);
      DbKeptTransitive(a, before, RunFlushes(a, flushes).value);
    }
  }

  // ----- the four flushes of a confirmation -----

  datatype Part = ToDraft | SupersedePrevious | ConfirmTarget | ToReady

  function FlushOf(a: Assignment, i: nat, current: nat, now: Time, part: Part): Flush
    requires i < |a.versions| && current < |a.versions|
  {
    match part
    case ToDraft => SetStatus(Draft)
    case SupersedePrevious => SetVersion(current, a.versions[current].(status := Superseded))
    case ConfirmTarget => SetVersion(i, a.versions[i].(status := Confirmed, confirmedAt := Some(now)))
    case ToReady => SetStatus(Ready)
  }

  /** How far a confirmation has come. */
  datatype Progress = Progress(status: AssignmentStatus, superseded: bool, confirmed: bool)

  function StateAt(a: Assignment, i: nat, current: nat, now: Time, p: Progress): Assignment
    requires i < |a.versions| && current < |a.versions|
  {
    var previous := a.versions[current].(status := Superseded);
    var target := a.versions[i].(status := Confirmed, confirmedAt := Some(now));
    var one := if p.superseded then a.versions[current := previous] else a.versions;
    Assignment(p.status, if p.confirmed then one[i := target] else one)
  }

  function Advance(p: Progress, part: Part): Option<Progress> {
    match part
    case ToDraft => Some(p.(status := Draft))
    case SupersedePrevious => if p.status == Ready then None else Some(p.(superseded := true))
    case ConfirmTarget => if p.superseded then Some(p.(confirmed := true)) else None
    case ToReady => if p.superseded && !p.confirmed then None else Some(p.(status := Ready))
  }

  /** A ready assignment with a confirmed version and a draft to be confirmed. */
  predicate Confirming(a: Assignment, i: nat, current: nat) {
    && Inv(a) && a.status == Ready && IsDraft(a, i)
    && a.versions[i].structured.Some? && a.versions[i].provider.Some?
    && current < |a.versions| && a.versions[current].status == Confirmed
  }

  /** Each flush is accepted exactly when the progress table says so. */
  lemma FlushAdvances(a: Assignment, i: nat, current: nat, now: Time, p: Progress, part: Part)
    requires Confirming(a, i, current) && (p.confirmed ==> p.superseded)
    requires part == SupersedePrevious ==> !p.superseded
    requires part == ConfirmTarget ==> !p.confirmed
    ensures
      var flushed := ApplyFlush(StateAt(a, i, current, now, p), FlushOf(a, i, current, now, part));
      match Advance(p, part)
      case None => flushed.None?
      case Some(next) => flushed == Some(StateAt(a, i, current, now, next))
  {
    DraftIsLast(a, i);
    RubricLifecycle.SupersedeFacts(a, i, current);
    var state := StateAt(a, i, current, now, p);
    match part {
      case ToDraft =>
      case SupersedePrevious =>
      case ConfirmTarget => TargetFlush(a, i, current, now, p);
      case ToReady => ReadyFlush(a, i, current, now, p);
    }
  }

  lemma TargetFlush(a: Assignment, i: nat, current: nat, now: Time, p: Progress)
    requires Confirming(a, i, current) && i == |a.versions| - 1 && i != current && !p.confirmed
    ensures
      var target := a.versions[i].(status := Confirmed, confirmedAt := Some(now));
      UpdateAllowed(StateAt(a, i, current, now, p), i, target) <==> p.superseded
  {
    var target := a.versions[i].(status := Confirmed, confirmedAt := Some(now));
    var after := StateAt(a, i, current, now, p).versions[i := target];
    if p.superseded {
      RubricLifecycle.SupersedeFacts(a, i, current);
      SupersedeKeepsOrder(a.versions, i, target);
      OrderedMeansIndexes(after);
    } else {
      assert after[current].status == Confirmed && after[i].status == Confirmed;
    }
  }

  lemma ReadyFlush(a: Assignment, i: nat, current: nat, now: Time, p: Progress)
    requires Confirming(a, i, current) && i != current
    ensures Has(StateAt(a, i, current, now, p).versions, Confirmed) <==> p.confirmed || !p.superseded
  {
    var versions := StateAt(a, i, current, now, p).versions;
    if p.confirmed {
      assert versions[i].status == Confirmed;
    } else if !p.superseded {
      assert versions[current].status == Confirmed;
    } else {
      forall k | 0 <= k < |versions| ensures versions[k].status != Confirmed {
        assert k != current ==> a.versions[k].status != Confirmed;
      }
    }
  }

  predicate Permutation(order: seq<Part>) {
    |order| == 4 && forall m, n | 0 <= m < n < 4 :: order[m] != order[n]
  }

  const SOURCE_ORDER := [ToDraft, SupersedePrevious, ConfirmTarget, ToReady]

  /** The progress after the first n flushes of an order; None once one was refused. */
  function ProgressAfter(order: seq<Part>, n: nat): Option<Progress>
    requires n <= |order|
  {
    if n == 0 then Some(Progress(Ready, false, false))
    else
      match ProgressAfter(order, n - 1)
      case None => None
      case Some(p) => Advance(p, order[n - 1])
  }

  function FlushesOf(a: Assignment, i: nat, current: nat, now: Time, order: seq<Part>): (r: seq<Flush>)
    requires i < |a.versions| && current < |a.versions|
    ensures |r| == |order| && forall n | 0 <= n < |r| :: r[n] == FlushOf(a, i, current, now, order[n])
  {
    seq(|order|, n requires 0 <= n < |order| => FlushOf(a, i, current, now, order[n]))
  }

  /** The progress of an order says which parts it has flushed. */
  lemma {:induction false} ProgressMeans(order: seq<Part>, n: nat)
    requires n <= |order| && ProgressAfter(order, n).Some?
    ensures
      var p := ProgressAfter(order, n).value;
      && (p.superseded <==> exists m | 0 <= m < n :: order[m] == SupersedePrevious)
      && (p.confirmed <==> exists m | 0 <= m < n :: order[m] == ConfirmTarget)
      && (p.confirmed ==> p.superseded)
  {
    if n > 0 { ProgressMeans(order, n - 1); }
  }

  lemma {:induction false} FlushesFollowProgress(a: Assignment, i: nat, current: nat, now: Time, order: seq<Part>, n: nat)
    requires Confirming(a, i, current) && Permutation(order) && n <= |order|
    ensures
      var flushed := RunFlushes(a, FlushesOf(a, i, current, now, order)[..n]);
      match ProgressAfter(order, n)
      case None => flushed.None?
      case Some(p) => flushed == Some(StateAt(a, i, current, now, p))
  {
    var flushes := FlushesOf(a, i, current, now, order);
    if n > 0 {
      assert flushes[..n][..n - 1] == flushes[..n - 1];
      FlushesFollowProgress(a, i, current, now, order, n - 1);
      match ProgressAfter(order, n - 1) {
        case None =>
        case Some(p) =>
          ProgressMeans(order, n - 1);
          FlushAdvances(a, i, current, now, p, order[n - 1]);
      }
    }
  }

  /** Every order that is not refused changes both versions; only the source's ends ready. */
  lemma OnlyOneOrder(order: seq<Part>)
    requires Permutation(order)
    ensures
      match ProgressAfter(order, 4)
      case None => order != SOURCE_ORDER
      case Some(p) =>
        && p.superseded && p.confirmed
        && p.status == if order == SOURCE_ORDER then Ready else Draft
  {
    var p0 := Progress(Ready, false, false);
    assert ProgressAfter(order, 0) == Some(p0);
    var p1 := ProgressAfter(order, 1);
    var p2 := ProgressAfter(order, 2);
    var p3 := ProgressAfter(order, 3);
    assert p1 == Advance(p0, order[0]);
    assert p2 == if p1.None? then None else Advance(p1.value, order[1]);
    assert p3 == if p2.None? then None else Advance(p2.value, order[2]);
    assert order[0] != order[1] && order[0] != order[2] && order[0] != order[3];
    assert order[1] != order[2] && order[1] != order[3] && order[2] != order[3];
  }

  lemma ConfirmedState(a: Assignment, i: nat, current: nat, providers: seq<PC.Provider>, now: Time)
    requires Confirming(a, i, current)
    requires Usable(providers, a.versions[i].provider.value, a.versions[i].model)
    ensures Confirm(a, i, providers, a.versions[i].provider.value, a.versions[i].model, now)
            == Some(StateAt(a, i, current, now, Progress(Ready, true, true)))
  {
    RubricLifecycle.SupersedeFacts(a, i, current);
  }

  /**
   Over all orders of the four flushes, exactly the source's ends in the confirmed state. Every other order is
   refused by a trigger or an index, or leaves the assignment a draft.
   */
  lemma FlushOrderMatters(a: Assignment, i: nat, current: nat, providers: seq<PC.Provider>, now: Time, order: seq<Part>)
    requires Confirming(a, i, current) && Permutation(order)
    requires Usable(providers, a.versions[i].provider.value, a.versions[i].model)
    ensures
      var flushed := RunFlushes(a, FlushesOf(a, i, current, now, order));
      && (flushed == Confirm(a, i, providers, a.versions[i].provider.value, a.versions[i].model, now)
          <==> order == SOURCE_ORDER)
      && (order != SOURCE_ORDER ==> flushed.None? || flushed.value.status == Draft)
  {
    var flushes := FlushesOf(a, i, current, now, order);
    assert flushes[..4] == flushes;
    FlushesFollowProgress(a, i, current, now, order, 4);
    OnlyOneOrder(order);
    ConfirmedState(a, i, current, providers, now);
  }
}
