/** The assignment and rubric repository, flush by flush, and what holds over all of its runs. */
module RubricLifecycle {
  import opened Wrappers
  import opened RubricRows
  import PC = ProviderConfigs
  import R = Rubric

  // ----- when the transactions commit, and what they leave -----

  /** The provider row is enabled, tested as it stands, and offers this model. */
  predicate ProviderReady(providers: seq<PC.Provider>, provider: nat, model: string) {
    && provider < |providers|
    && providers[provider].status == PC.Enabled
    && providers[provider].testedAt.Some?
    && providers[provider].testedVersion == Some(providers[provider].configVersion)
    && providers[provider].fields.defaultModel == Some(model)
  }

  /** The assignment is not archived, and version i is its draft. */
  predicate Editable(a: Assignment, i: nat) {
    a.status != Archived && i < |a.versions| && a.versions[i].status == DraftVersion
  }

  /** The rubric is one for this version: it meets the contract with the version's total and step. */
  predicate Fits(v: Version, s: R.Rubric) {
    s.total == v.total && s.step == v.step && R.Contract(s)
  }

  /** A generated rubric is accepted while the provider is as it was when it was asked. */
  predicate SaveAccepted(a: Assignment, i: nat, o: Origin, s: R.Rubric) {
    && ProviderReady(o.providers, o.provider, o.model) && o.model != ""
    && o.providers[o.provider].configVersion == o.configVersion
    && Editable(a, i) && Fits(a.versions[i], s)
  }

  /** An edit is accepted on a draft that was generated before. */
  predicate EditAccepted(a: Assignment, i: nat, s: R.Rubric) {
    Editable(a, i) && a.versions[i].provider.Some? && Fits(a.versions[i], s)
  }

  predicate ConfirmAccepted(a: Assignment, i: nat, providers: seq<PC.Provider>, provider: nat, model: string) {
    && ProviderReady(providers, provider, model)
    && Editable(a, i)
    && a.versions[i].provider == Some(provider) && a.versions[i].model == model && a.versions[i].structured.Some?
  }

  class AssignmentRubricRepository {
    var status: AssignmentStatus
    var versions: seq<Version>

    ghost function State(): Assignment
      reads this
    {
      Assignment(status, versions)
    }

    /** create_assignment: the assignment and its first draft. */
    constructor (original: string, total: int, step: int)
      requires ScoreRange(total, step)
      ensures status == Draft && versions == [Version(1, DraftVersion, original, total, step, None, None, "", None)]
      ensures Inv(State())
    {
      status := Draft;
      versions := [NewVersion(1, original, total, step)];
    }

    method Find(wanted: VersionStatus) returns (found: Option<nat>)
      ensures found.Some? <==> Has(versions, wanted)
      ensures found.Some? ==> found.value < |versions| && versions[found.value].status == wanted
    {
      for i := 0 to |versions|
        invariant forall k | 0 <= k < i :: versions[k].status != wanted
      {
        if versions[i].status == wanted {
          return Some(i);
        }
      }
      return None;
    }

    // ----- single flushes; false is an exception that rolls the transaction back -----

    method FlushStatus(newStatus: AssignmentStatus) returns (ok: bool)
      requires DbInv(State())
      modifies this`status
      ensures ok <==> ApplyFlush(old(State()), SetStatus(newStatus)).Some?
      ensures status == if ok then newStatus else old(status)
      ensures DbInv(State())
    {
      ok := true;
      if newStatus == Ready {
        var confirmed := Find(Confirmed);
        ok := confirmed.Some?;
      }
      if ok {
        status := newStatus;
      }
    }

    /** The history trigger, the CHECKs, and then the unique indexes against every other row. */
    method FlushVersion(i: nat, row: Version) returns (ok: bool)
      requires i < |versions| && DbInv(State())
      modifies this`versions
      ensures ok <==> UpdateAllowed(old(State()), i, row)
      ensures versions == if ok then old(versions)[i := row] else old(versions)
      ensures DbInv(State()) && DbKept(old(State()), State())
    {
      var before := versions[i];
      if row.version != before.version || before.status == Superseded {
        return false;
      }
      if before.status == Confirmed {
        if row.status != Superseded || !SameContent(before, row) {
          return false;
        }
        if status == Ready {
          return false;
        }
      } else if row.status == Superseded {
        return false;
      }
      if !VersionCheck(row) {
        return false;
      }
      for k := 0 to |versions|
        invariant forall m | 0 <= m < k && m != i :: !(row.status != Superseded && versions[m].status == row.status)
      {
        if k != i && row.status != Superseded && versions[k].status == row.status {
          Clash(versions, i, row, k);
          return false;
        }
      }
      NoClash(versions, i, row);
      FlushKeeps(State(), SetVersion(i, row));
      versions := versions[i := row];
      return true;
    }

    method FlushInsert(row: Version) returns (ok: bool)
      requires DbInv(State())
      modifies this`versions
      ensures ok <==> InsertAllowed(old(State()), row)
      ensures versions == if ok then old(versions) + [row] else old(versions)
    {
      if !VersionCheck(row) {
        return false;
      }
      ghost var after := versions + [row];
      for k := 0 to |versions|
        invariant forall m | 0 <= m < k ::
                    versions[m].version != row.version && !(row.status != Superseded && versions[m].status == row.status)
      {
        if versions[k].version == row.version || (row.status != Superseded && versions[k].status == row.status) {
          assert after[k] == versions[k] && after[|versions|] == row;
          return false;
        }
      }
      versions := versions + [row];
      return true;
    }

    /** max(version) */
    method MaxVersion() returns (latest: nat)
      ensures latest == LatestVersion(versions)
    {
      latest := 0;
      for i := 0 to |versions|
        invariant latest == LatestVersion(versions[..i])
      {
        assert versions[..i + 1][..i] == versions[..i];
        if latest < versions[i].version {
          latest := versions[i].version;
        }
      }
      assert versions[..|versions|] == versions;
    }

    // ----- transactions -----

    /** A draft is added iff the assignment is live, has none, and the step divides the total; it is the next version. */
    method CreateRubricDraft(original: string, total: int, step: int) returns (ok: bool)
      requires Inv(State())
      modifies this
      ensures Inv(State()) && Evolves(old(State()), State())
      ensures ok <==>
                && old(status) != Archived && 0 < step <= total && total % step == 0
                && forall i | 0 <= i < |old(versions)| :: old(versions)[i].status != DraftVersion
      ensures status == old(status)
      ensures versions ==
                if ok then
                  old(versions) + [Version(|old(versions)| + 1, DraftVersion, original, total, step, None, None, "", None)]
                else old(versions)
      ensures State() == CreateDraft(old(State()), original, total, step).GetOr(old(State()))
    {
      ghost var before := State();
      var draft := Find(DraftVersion);
      if status == Archived || draft.Some? {
        CreateDraftMeaning(before, original, total, step);
        return false;
      }
      InvMeansDb(before);
      LatestIsLength(versions);
      var latest := MaxVersion();
      ok := FlushInsert(NewVersion(latest + 1, original, total, step));
      CreateDraftMeaning(before, original, total, step);
    }

    /** The draft takes the generated rubric with the provider and model it came from; nothing else changes. */
    method SaveGeneratedRubric(i: nat, o: Origin, s: R.Rubric) returns (ok: bool)
      requires Inv(State())
      modifies this
      ensures Inv(State()) && Evolves(old(State()), State())
      ensures ok <==> SaveAccepted(old(State()), i, o, s)
      ensures status == old(status)
      ensures versions ==
                if ok then
                  old(versions)[i := old(versions)[i].(structured := Some(s), provider := Some(o.provider), model := o.model)]
                else old(versions)
      ensures ok <==> SaveGenerated(old(State()), i, o, s).Some?
      ensures State() == SaveGenerated(old(State()), i, o, s).GetOr(old(State()))
    {
      if !Current(o) || status == Archived || i >= |versions| || versions[i].status != DraftVersion {
        return false;
      }
      InvMeansDb(State());
      DraftFlushIff(State(), i, versions[i].(provider := Some(o.provider), model := o.model, structured := Some(s)));
      var row := versions[i];
      row := row.(provider := Some(o.provider), model := o.model);
      row := row.(structured := Some(s));
      ok := FlushVersion(i, row);
      if ok { DraftUpdateFacts(old(State()), i, row); }
    }

    /** The draft takes the edited rubric; nothing else changes. */
    method UpdateStructuredRubric(i: nat, s: R.Rubric) returns (ok: bool)
      requires Inv(State())
      modifies this
      ensures Inv(State()) && Evolves(old(State()), State())
      ensures ok <==> EditAccepted(old(State()), i, s)
      ensures status == old(status)
      ensures versions ==
                if ok then old(versions)[i := old(versions)[i].(structured := Some(s))] else old(versions)
      ensures ok <==> UpdateStructured(old(State()), i, s).Some?
      ensures State() == UpdateStructured(old(State()), i, s).GetOr(old(State()))
    {
      if status == Archived || i >= |versions| || versions[i].status != DraftVersion || versions[i].provider.None? {
        return false;
      }
      InvMeansDb(State());
      DraftFlushIff(State(), i, versions[i].(structured := Some(s)));
      var row := versions[i].(structured := Some(s));
      ok := FlushVersion(i, row);
      if ok { DraftUpdateFacts(old(State()), i, row); }
    }

    /**
     Four flushes in the source's order; no trigger or index refuses any of them. The draft becomes the confirmed
     version as it stands, the one confirmed before it history, and the assignment is ready.
     */
    method ConfirmRubric(i: nat, providers: seq<PC.Provider>, provider: nat, model: string, now: Time)
      returns (ok: bool)
      requires Inv(State())
      modifies this
      ensures Inv(State()) && Evolves(old(State()), State())
      ensures ok <==> ConfirmAccepted(old(State()), i, providers, provider, model)
      ensures !ok ==> State() == old(State())
      ensures ok ==>
                && status == Ready && |versions| == |old(versions)|
                && forall k | 0 <= k < |versions| ::
                     versions[k] ==
                       if k == i then old(versions)[k].(status := Confirmed, confirmedAt := Some(now))
                       else if old(versions)[k].status == Confirmed then old(versions)[k].(status := Superseded)
                       else old(versions)[k]
      ensures State() == Confirm(old(State()), i, providers, provider, model, now).GetOr(old(State()))
    {
      if !Usable(providers, provider, model) || status == Archived || i >= |versions| || versions[i].status != DraftVersion
         || versions[i].provider != Some(provider) || versions[i].model != model || versions[i].structured.None?
      {
        return false;
      }
      ConfirmFacts(State(), i, providers, provider, model, now);
      ConfirmDraft(i, now);
      return true;
    }

    /** The four flushes. */
    method ConfirmDraft(i: nat, now: Time)
      requires Inv(State()) && status != Archived && IsDraft(State(), i)
      requires UpdateAllowed(Assignment(Draft, SupersedeAll(versions)), i,
                             versions[i].(status := Confirmed, confirmedAt := Some(now)))
      modifies this
      ensures status == Ready
      ensures versions == SupersedeAll(old(versions))[i := old(versions)[i].(status := Confirmed, confirmedAt := Some(now))]
    {
      ghost var before := State();
      InvMeansDb(before);
      var flushed := true;
      if status == Ready {
        flushed := FlushStatus(Draft);
      }
      assert flushed;
      SupersedeConfirmed(before, i);
      flushed := FlushVersion(i, versions[i].(status := Confirmed, confirmedAt := Some(now)));
      assert flushed;
      flushed := FlushStatus(Ready);
      assert flushed by { assert versions[i].status == Confirmed; }
    }

    /** The version that was confirmed so far becomes history, if there is one. */
    method SupersedeConfirmed(ghost before: Assignment, i: nat)
      requires Inv(before) && IsDraft(before, i) && versions == before.versions && status == Draft && DbInv(State())
      modifies this`versions
      ensures versions == SupersedeAll(before.versions) && versions[i] == before.versions[i] && DbInv(State())
    {
      var current := Find(Confirmed);
      if current.Some? {
        var previous := versions[current.value].(status := Superseded);
        SupersedeFacts(before, i, current.value);
        var flushed := FlushVersion(current.value, previous);
        assert flushed;
      } else {
        NothingToSupersede(versions);
      }
    }

    /** Archiving always succeeds; restoring takes an archived assignment back to what its versions say. */
    method UpdateAssignmentStatus(action: StatusAction) returns (ok: bool)
      requires Inv(State())
      modifies this
      ensures Inv(State()) && Evolves(old(State()), State())
      ensures ok <==> action == Archive || old(status) == Archived
      ensures versions == old(versions)
      ensures status ==
                if !ok then old(status)
                else if action == Archive then Archived
                else if exists k | 0 <= k < |versions| :: versions[k].status == Confirmed then Ready
                else Draft
      ensures ok <==> ChangeStatus(old(State()), action).Some?
      ensures State() == ChangeStatus(old(State()), action).GetOr(old(State()))
    {
      InvMeansDb(State());
      match action {
        case Archive =>
          if status == Archived {
            return true;
          }
          ok := FlushStatus(Archived);
        case Restore =>
          if status != Archived {
            return false;
          }
          var confirmed := Find(Confirmed);
          ok := FlushStatus(if confirmed.Some? then Ready else Draft);
      }
    }
  }

  // ----- why the flushes pass -----

  /** A second draft, or a second confirmed version, violates its partial unique index. */
  lemma Clash(versions: seq<Version>, i: nat, row: Version, k: nat)
    requires i < |versions| && k < |versions| && k != i
    requires row.status != Superseded && versions[k].status == row.status
    ensures !Indexes(versions[i := row])
  {
    var after := versions[i := row];
    assert after[i] == row && after[k] == versions[k];
  }

  lemma NoClash(versions: seq<Version>, i: nat, row: Version)
    requires Indexes(versions) && i < |versions| && row.version == versions[i].version
    requires forall m | 0 <= m < |versions| && m != i :: !(row.status != Superseded && versions[m].status == row.status)
    ensures Indexes(versions[i := row])
  {
  }

  lemma CreateDraftFacts(a: Assignment, row: Version, original: string, total: int, step: int)
    requires Inv(a) && !Has(a.versions, DraftVersion)
    requires row == NewVersion(LatestVersion(a.versions) + 1, original, total, step)
    ensures InsertAllowed(a, row) <==> ScoreRange(total, step)
    ensures InsertAllowed(a, row) ==>
              Inv(a.(versions := a.versions + [row])) && Evolves(a, a.(versions := a.versions + [row]))
  {
    LatestIsLength(a.versions);
    var after := a.versions + [row];
    DraftKeepsOrder(a.versions, row);
    OrderedMeansIndexes(after);
    SameConfirmed(a.versions, after);
  }

  lemma CreateDraftMeaning(a: Assignment, original: string, total: int, step: int)
    requires Inv(a)
    ensures
      var row := NewVersion(LatestVersion(a.versions) + 1, original, total, step);
      var created := a.(versions := a.versions + [row]);
      if a.status == Archived || Has(a.versions, DraftVersion) then CreateDraft(a, original, total, step).None?
      else
        && (InsertAllowed(a, row) <==> ScoreRange(total, step))
        && CreateDraft(a, original, total, step) == (if ScoreRange(total, step) then Some(created) else None)
        && (ScoreRange(total, step) ==> Inv(created) && Evolves(a, created))
    ensures Evolves(a, a)
  {
    if !Has(a.versions, DraftVersion) {
      CreateDraftFacts(a, NewVersion(LatestVersion(a.versions) + 1, original, total, step), original, total, step);
    }
  }

  lemma DraftKeepsOrder(versions: seq<Version>, row: Version)
    requires Ordered(versions) && !Has(versions, DraftVersion) && row.status == DraftVersion
    ensures Ordered(versions + [row])
  {
    var after := versions + [row];
    forall i, k | 0 <= i < k < |after|
      ensures Rank(after[i].status) < Rank(after[k].status)
              || (after[i].status == Superseded && after[k].status == Superseded)
    {
      assert versions[i].status != DraftVersion;
    }
  }

  /** Whether a version is confirmed does not depend on drafts. */
  lemma SameConfirmed(before: seq<Version>, after: seq<Version>)
    requires |before| <= |after|
    requires forall i | 0 <= i < |before| :: after[i].status == before[i].status
    requires forall i | |before| <= i < |after| :: after[i].status == DraftVersion
    ensures Has(before, Confirmed) <==> Has(after, Confirmed)
  {
    if Has(before, Confirmed) {
      var i :| 0 <= i < |before| && before[i].status == Confirmed;
      assert after[i].status == Confirmed;
    }
  }

  lemma DraftUpdateFacts(a: Assignment, i: nat, row: Version)
    requires Inv(a) && IsDraft(a, i) && UpdateAllowed(a, i, row) && row.status == DraftVersion
    requires row.original == a.versions[i].original && row.total == a.versions[i].total && row.step == a.versions[i].step
    ensures Inv(a.(versions := a.versions[i := row])) && Evolves(a, a.(versions := a.versions[i := row]))
  {
    SameConfirmed(a.versions, a.versions[i := row]);
  }

  /** A draft that stays a draft is stored iff its own columns fit together: no other row can refuse it. */
  lemma DraftFlushIff(a: Assignment, i: nat, row: Version)
    requires Inv(a) && IsDraft(a, i) && row.version == a.versions[i].version && row.status == DraftVersion
    requires row.total == a.versions[i].total && row.step == a.versions[i].step && row.structured.Some?
    requires row.confirmedAt == a.versions[i].confirmedAt
    ensures UpdateAllowed(a, i, row) <==> row.provider.Some? && row.model != "" && Fits(a.versions[i], row.structured.value)
  {
    InvMeansDb(a);
    assert VersionCheck(a.versions[i]);
    var after := a.versions[i := row];
    forall k, m | 0 <= k < m < |after| ensures after[k].version != after[m].version {
    }
    assert Indexes(after);
  }

  lemma SupersedeFacts(a: Assignment, i: nat, current: nat)
    requires Inv(a) && IsDraft(a, i) && current < |a.versions| && a.versions[current].status == Confirmed
    ensures current != i
    ensures
      var previous := a.versions[current].(status := Superseded);
      && a.versions[current := previous] == SupersedeAll(a.versions)
      && UpdateAllowed(Assignment(Draft, a.versions), current, previous)
  {
    var previous := a.versions[current].(status := Superseded);
    var after := a.versions[current := previous];
    forall k | 0 <= k < |a.versions| && k != current ensures a.versions[k].status != Confirmed {
    }
    assert after == SupersedeAll(a.versions);
    assert Ordered(after);
    OrderedMeansIndexes(after);
  }

  lemma NothingToSupersede(versions: seq<Version>)
    requires !Has(versions, Confirmed)
    ensures SupersedeAll(versions) == versions
  {
  }

  lemma ConfirmFacts(a: Assignment, i: nat, providers: seq<PC.Provider>, provider: nat, model: string, now: Time)
    requires Inv(a) && Usable(providers, provider, model) && Confirmable(a, i, provider, model)
    ensures
      var superseded := Assignment(Draft, SupersedeAll(a.versions));
      var target := a.versions[i].(status := Confirmed, confirmedAt := Some(now));
      UpdateAllowed(superseded, i, target)
    ensures
      var b := Confirm(a, i, providers, provider, model, now).value;
      Inv(b) && Evolves(a, b)
  {
    DraftIsLast(a, i);
    var target := a.versions[i].(status := Confirmed, confirmedAt := Some(now));
    SupersedeKeepsOrder(a.versions, i, target);
    OrderedMeansIndexes(SupersedeAll(a.versions)[i := target]);
    assert SupersedeAll(a.versions)[i := target][i].status == Confirmed;
  }

  // ----- runs -----

  datatype Action =
    | DoCreate(original: string, total: int, step: int)
    | DoSave(i: nat, origin: Origin, s: R.Rubric)
    | DoUpdate(i: nat, s: R.Rubric)
    | DoConfirm(i: nat, providers: seq<PC.Provider>, provider: nat, model: string, now: Time)
    | DoStatus(action: StatusAction)

  /** A transaction that returns nothing or raises commits nothing. */
  function Step(a: Assignment, action: Action): Assignment {
    match action
    case DoCreate(original, total, step) => CreateDraft(a, original, total, step).GetOr(a)
    case DoSave(i, o, s) => SaveGenerated(a, i, o, s).GetOr(a)
    case DoUpdate(i, s) => UpdateStructured(a, i, s).GetOr(a)
    case DoConfirm(i, providers, provider, model, now) => Confirm(a, i, providers, provider, model, now).GetOr(a)
    case DoStatus(status) => ChangeStatus(a, status).GetOr(a)
  }

  function Run(a: Assignment, actions: seq<Action>): Assignment {
    if actions == [] then a else Step(Run(a, actions[..|actions| - 1]), actions[|actions| - 1])
  }

  lemma StepKeeps(a: Assignment, action: Action)
    requires Inv(a)
    ensures Inv(Step(a, action)) && Evolves(a, Step(a, action))
  {
    match action {
      case DoCreate(original, total, step) => CreateKeeps(a, original, total, step);
      case DoSave(i, o, s) =>
        if SaveGenerated(a, i, o, s).Some? {
          DraftUpdateFacts(a, i, a.versions[i].(provider := Some(o.provider), model := o.model, structured := Some(s)));
        }
      case DoUpdate(i, s) =>
        if UpdateStructured(a, i, s).Some? { DraftUpdateFacts(a, i, a.versions[i].(structured := Some(s))); }
      case DoConfirm(i, providers, provider, model, now) =>
        if Confirm(a, i, providers, provider, model, now).Some? { ConfirmFacts(a, i, providers, provider, model, now); }
      case DoStatus(status) => StatusKeeps(a, status);
    }
  }

  lemma CreateKeeps(a: Assignment, original: string, total: int, step: int)
    requires Inv(a)
    ensures
      var b := CreateDraft(a, original, total, step).GetOr(a);
      Inv(b) && Evolves(a, b)
  {
    CreateDraftMeaning(a, original, total, step);
  }

  lemma StatusKeeps(a: Assignment, action: StatusAction)
    requires Inv(a)
    ensures
      var b := ChangeStatus(a, action).GetOr(a);
      Inv(b) && Evolves(a, b)
  {
  }

  /**
   At every transaction boundary: versions are 1..n; there is at most one draft and one confirmed
   version; a live assignment is ready exactly when it has a confirmed version; and whatever was
   confirmed keeps its content for ever.
   */
  lemma {:induction false} RunKeeps(a: Assignment, actions: seq<Action>)
    requires Inv(a)
    ensures Inv(Run(a, actions)) && Evolves(a, Run(a, actions)) && Indexes(Run(a, actions).versions)
  {
    if actions != [] {
      var before := Run(a, actions[..|actions| - 1]);
      RunKeeps(a, actions[..|actions| - 1]);
      StepKeeps(before, actions[|actions| - 1]);
      forall i | 0 <= i < |a.versions|
        ensures VersionEvolves(a.versions[i], Step(before, actions[|actions| - 1]).versions[i])
      {
        assert VersionEvolves(a.versions[i], before.versions[i]);
        assert VersionEvolves(before.versions[i], Step(before, actions[|actions| - 1]).versions[i]);
      }
    }
    OrderedMeansIndexes(Run(a, actions).versions);
  }

  // ----- the rubric that is confirmed -----

  /** The rubric of the last save or edit of version i that the run accepted. */
  ghost function LastAccepted(a: Assignment, actions: seq<Action>, i: nat): Option<R.Rubric> {
    if actions == [] then None
    else
      var front, last := actions[..|actions| - 1], actions[|actions| - 1];
      if last.DoSave? && last.i == i && SaveAccepted(Run(a, front), i, last.origin, last.s) then Some(last.s)
      else if last.DoUpdate? && last.i == i && EditAccepted(Run(a, front), i, last.s) then Some(last.s)
      else LastAccepted(a, front, i)
  }

  /** What one transaction does to the rubric of version i. */
  lemma StepRubric(a: Assignment, action: Action, i: nat)
    requires Inv(a) && i < |Step(a, action).versions|
    ensures
      Step(a, action).versions[i].structured ==
        if action.DoSave? && action.i == i && SaveAccepted(a, i, action.origin, action.s) then Some(action.s)
        else if action.DoUpdate? && action.i == i && EditAccepted(a, i, action.s) then Some(action.s)
        else if i < |a.versions| then a.versions[i].structured
        else None
  {
    match action {
      case DoSave(k, o, s) =>
        if Current(o) && a.status != Archived && IsDraft(a, k) {
          DraftFlushIff(a, k, a.versions[k].(provider := Some(o.provider), model := o.model, structured := Some(s)));
        }
      case DoUpdate(k, s) =>
        if a.status != Archived && IsDraft(a, k) && a.versions[k].provider.Some? {
          assert VersionCheck(a.versions[k]);
          DraftFlushIff(a, k, a.versions[k].(structured := Some(s)));
        }
      case _ =>
    }
  }

  /**
   In every run each version carries the rubric of the last save or edit of it that was accepted, and the one it
   started with if there was none; so that is what a confirmation freezes and grading uses.
   */
  lemma {:induction false} VersionsCarryLastAccepted(a: Assignment, actions: seq<Action>, i: nat)
    requires Inv(a) && i < |Run(a, actions).versions|
    ensures
      Run(a, actions).versions[i].structured ==
        if LastAccepted(a, actions, i).Some? then LastAccepted(a, actions, i)
        else if i < |a.versions| then a.versions[i].structured
        else None
  {
    if actions != [] {
      var front := actions[..|actions| - 1];
      RunKeeps(a, front);
      StepRubric(Run(a, front), actions[|actions| - 1], i);
      if i < |Run(a, front).versions| {
        VersionsCarryLastAccepted(a, front, i);
      } else {
        NothingAcceptedYet(a, front, i);
      }
    }
  }

  lemma {:induction false} NothingAcceptedYet(a: Assignment, actions: seq<Action>, i: nat)
    requires Inv(a) && |Run(a, actions).versions| <= i
    ensures LastAccepted(a, actions, i).None? && |a.versions| <= i
  {
    RunKeeps(a, actions);
    if actions != [] {
      var front := actions[..|actions| - 1];
      RunKeeps(a, front);
      StepKeeps(Run(a, front), actions[|actions| - 1]);
      NothingAcceptedYet(a, front, i);
    }
  }

  /** A grading job may be created only under a ready assignment and its confirmed version. */
  predicate JobAllowed(a: Assignment, i: nat) {
    a.status == Ready && i < |a.versions| && a.versions[i].status == Confirmed
  }

  /** The rubric a job was created with stays what it was, and it satisfied the contract. */
  lemma JobRubricIsFixed(a: Assignment, i: nat, later: seq<Action>)
    requires Inv(a) && JobAllowed(a, i)
    ensures i < |Run(a, later).versions|
    ensures Run(a, later).versions[i].structured == a.versions[i].structured
    ensures a.versions[i].structured.Some? && R.Contract(a.versions[i].structured.value)
    ensures Run(a, later).versions[i].status != DraftVersion
  {
    RunKeeps(a, later);
    assert VersionEvolves(a.versions[i], Run(a, later).versions[i]);
  }
}
