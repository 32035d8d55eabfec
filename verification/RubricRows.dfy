/**
 One assignment with its rubric versions: the constraints, partial unique indexes and triggers that
 guard every flush, and what each repository transaction commits.
 */
module RubricRows {
  import opened Wrappers
  import PC = ProviderConfigs
  import R = Rubric

  type Time = int

  datatype AssignmentStatus = Draft | Ready | Archived
  datatype VersionStatus = DraftVersion | Confirmed | Superseded

  datatype Version = Version(
    version: nat,
    status: VersionStatus,
    original: string,
    total: int,
    step: int,
    structured: Option<R.Rubric>,
    provider: Option<nat>,
    model: string,               // "" for null or blank
    confirmedAt: Option<Time>)

  datatype Assignment = Assignment(status: AssignmentStatus, versions: seq<Version>)

  // ----- row constraints -----

  /** The step is at most the total and divides it. */
  predicate ScoreRange(total: int, step: int) {
    0 < step <= total && R.OnStep(total, step)
  }

  /** The score range, generation, content and confirmation CHECKs. */
  predicate VersionCheck(v: Version) {
    && v.version > 0 && ScoreRange(v.total, v.step)
    && (v.provider.Some? <==> v.model != "")
    && (v.structured.Some? ==>
          && v.provider.Some?
          && v.structured.value.total == v.total && v.structured.value.step == v.step
          && R.Contract(v.structured.value))
    && (if v.status == DraftVersion then v.confirmedAt.None?
        else v.confirmedAt.Some? && v.structured.Some? && v.provider.Some?)
  }

  predicate Has(versions: seq<Version>, status: VersionStatus) {
    exists i | 0 <= i < |versions| :: versions[i].status == status
  }

  predicate AtMostOne(versions: seq<Version>, status: VersionStatus) {
    forall i, k | 0 <= i < k < |versions| :: !(versions[i].status == status && versions[k].status == status)
  }

  /** The two partial unique indexes and the unique version number. */
  predicate Indexes(versions: seq<Version>) {
    && AtMostOne(versions, DraftVersion) && AtMostOne(versions, Confirmed)
    && forall i, k | 0 <= i < k < |versions| :: versions[i].version != versions[k].version
  }

  // ----- triggers -----

  predicate SameContent(old_: Version, new_: Version) {
    && old_.original == new_.original && old_.structured == new_.structured && old_.total == new_.total
    && old_.step == new_.step && old_.provider == new_.provider && old_.model == new_.model
    && old_.confirmedAt == new_.confirmedAt
  }

  /** The rubric history trigger. */
  predicate HistoryAllows(assignment: AssignmentStatus, old_: Version, new_: Version) {
    && old_.version == new_.version
    && match old_.status
       case Superseded => false
       case Confirmed => new_.status == Superseded && SameContent(old_, new_) && assignment != Ready
       case DraftVersion => new_.status in {DraftVersion, Confirmed}
  }

  /** An UPDATE of one version row. */
  predicate UpdateAllowed(a: Assignment, i: nat, row: Version)
    requires i < |a.versions|
  {
    HistoryAllows(a.status, a.versions[i], row) && VersionCheck(row) && Indexes(a.versions[i := row])
  }

  predicate InsertAllowed(a: Assignment, row: Version) {
    VersionCheck(row) && Indexes(a.versions + [row])
  }

  /** The trigger on the assignment's status. */
  predicate StatusAllowed(a: Assignment, status: AssignmentStatus) {
    status == Ready ==> Has(a.versions, Confirmed)
  }

  // ----- what the database keeps by itself, flush by flush -----

  /** The CHECKs, the indexes, and no ready assignment without a confirmed version. */
  predicate DbInv(a: Assignment) {
    && (forall i | 0 <= i < |a.versions| :: VersionCheck(a.versions[i]))
    && Indexes(a.versions)
    && (a.status == Ready ==> Has(a.versions, Confirmed))
  }

  /** A version never changes its number, never returns to an earlier status, and once confirmed keeps its content. */
  predicate VersionKept(v: Version, w: Version) {
    && v.version == w.version && Rank(w.status) <= Rank(v.status)
    && (v.status != DraftVersion ==> SameContent(v, w))
  }

  predicate DbKept(a: Assignment, b: Assignment) {
    && |a.versions| <= |b.versions|
    && forall i | 0 <= i < |a.versions| :: VersionKept(a.versions[i], b.versions[i])
  }

  datatype Flush =
    | SetStatus(status: AssignmentStatus)
    | SetVersion(i: nat, row: Version)
    | Insert(row: Version)

  /** None is an exception, which rolls the transaction back. */
  function ApplyFlush(a: Assignment, f: Flush): Option<Assignment> {
    match f
    case SetStatus(status) => if StatusAllowed(a, status) then Some(a.(status := status)) else None
    case SetVersion(i, row) =>
      if i < |a.versions| && UpdateAllowed(a, i, row) then Some(a.(versions := a.versions[i := row])) else None
    case Insert(row) => if InsertAllowed(a, row) then Some(a.(versions := a.versions + [row])) else None
  }

  lemma VersionFlushKeeps(a: Assignment, i: nat, row: Version)
    requires DbInv(a) && i < |a.versions| && UpdateAllowed(a, i, row)
    ensures DbInv(a.(versions := a.versions[i := row])) && DbKept(a, a.(versions := a.versions[i := row]))
  {
    if a.status == Ready {
      var k :| 0 <= k < |a.versions| && a.versions[k].status == Confirmed;
      assert a.versions[i := row][k].status == Confirmed;
    }
  }

  lemma InsertKeeps(a: Assignment, row: Version)
    requires DbInv(a) && InsertAllowed(a, row)
    ensures DbInv(a.(versions := a.versions + [row])) && DbKept(a, a.(versions := a.versions + [row]))
  {
    if a.status == Ready {
      var k :| 0 <= k < |a.versions| && a.versions[k].status == Confirmed;
      assert (a.versions + [row])[k].status == Confirmed;
    }
  }

  lemma FlushKeeps(a: Assignment, f: Flush)
    requires DbInv(a) && ApplyFlush(a, f).Some?
    ensures DbInv(ApplyFlush(a, f).value) && DbKept(a, ApplyFlush(a, f).value)
  {
    match f {
      case SetStatus(_) =>
      case SetVersion(i, row) => VersionFlushKeeps(a, i, row);
      case Insert(row) => InsertKeeps(a, row);
    }
  }

  // ----- the invariant at transaction boundaries -----

  function Rank(s: VersionStatus): nat {
    match s case Superseded => 0 case Confirmed => 1 case DraftVersion => 2
  }

  /** superseded versions, then at most one confirmed, then at most one draft */
  predicate Ordered(versions: seq<Version>) {
    forall i, k | 0 <= i < k < |versions| ::
      Rank(versions[i].status) < Rank(versions[k].status)
      || (versions[i].status == Superseded && versions[k].status == Superseded)
  }

  predicate Inv(a: Assignment) {
    && a.versions != []
    && (forall i | 0 <= i < |a.versions| :: a.versions[i].version == i + 1 && VersionCheck(a.versions[i]))
    && Ordered(a.versions)
    && (a.status != Archived ==> (a.status == Ready <==> Has(a.versions, Confirmed)))
  }

  /** What no transaction ever does: remove a version, or change one that was confirmed. */
  predicate Evolves(a: Assignment, b: Assignment) {
    && |a.versions| <= |b.versions|
    && forall i | 0 <= i < |a.versions| :: VersionEvolves(a.versions[i], b.versions[i])
  }

  predicate VersionEvolves(v: Version, w: Version) {
    && v.version == w.version && v.original == w.original && v.total == w.total && v.step == w.step
    && Rank(w.status) <= Rank(v.status)
    && (v.status == DraftVersion ==> w.status == DraftVersion || w.confirmedAt.Some?)
    && (v.status != DraftVersion ==> SameContent(v, w))
  }

  // ----- transactions -----

  function LatestVersion(versions: seq<Version>): nat {
    if versions == [] then 0
    else
      var rest := LatestVersion(versions[..|versions| - 1]);
      if rest < versions[|versions| - 1].version then versions[|versions| - 1].version else rest
  }

  function NewVersion(version: nat, original: string, total: int, step: int): Version {
    Version(version, DraftVersion, original, total, step, None, None, "", None)
  }

  function CreateDraft(a: Assignment, original: string, total: int, step: int): Option<Assignment> {
    if a.status == Archived || Has(a.versions, DraftVersion) then None
    else
      var row := NewVersion(LatestVersion(a.versions) + 1, original, total, step);
      if InsertAllowed(a, row) then Some(a.(versions := a.versions + [row])) else None
  }

  predicate IsDraft(a: Assignment, i: nat) {
    i < |a.versions| && a.versions[i].status == DraftVersion
  }

  /** The provider row that both transactions lock: enabled, tested as it stands, and with this default model. */
  predicate Usable(providers: seq<PC.Provider>, provider: nat, model: string) {
    && provider < |providers|
    && var row := providers[provider];
    && row.status == PC.Enabled
    && row.testedAt.Some? && row.testedVersion == Some(row.configVersion)
    && row.fields.defaultModel == Some(model)
  }

  /** Where a generated rubric came from; its configuration must still be the one that was asked. */
  datatype Origin = Origin(providers: seq<PC.Provider>, provider: nat, configVersion: nat, model: string)

  predicate Current(o: Origin) {
    Usable(o.providers, o.provider, o.model) && o.providers[o.provider].configVersion == o.configVersion
  }

  /** save_generated_rubric; None when a row is missing or a constraint fails. */
  function SaveGenerated(a: Assignment, i: nat, o: Origin, s: R.Rubric): Option<Assignment> {
    if !Current(o) || a.status == Archived || !IsDraft(a, i) then None
    else
      var row := a.versions[i].(provider := Some(o.provider), model := o.model, structured := Some(s));
      if UpdateAllowed(a, i, row) then Some(a.(versions := a.versions[i := row])) else None
  }

  function UpdateStructured(a: Assignment, i: nat, s: R.Rubric): Option<Assignment> {
    if a.status == Archived || !IsDraft(a, i) || a.versions[i].provider.None? then None
    else
      var row := a.versions[i].(structured := Some(s));
      if UpdateAllowed(a, i, row) then Some(a.(versions := a.versions[i := row])) else None
  }

  predicate Confirmable(a: Assignment, i: nat, provider: nat, model: string) {
    && a.status != Archived && IsDraft(a, i)
    && a.versions[i].provider == Some(provider) && a.versions[i].model == model && a.versions[i].structured.Some?
  }

  function SupersedeAll(versions: seq<Version>): (r: seq<Version>)
    ensures |r| == |versions|
    ensures forall i | 0 <= i < |r| ::
              r[i] == if versions[i].status == Confirmed then versions[i].(status := Superseded) else versions[i]
  {
    seq(|versions|, i requires 0 <= i < |versions| =>
      if versions[i].status == Confirmed then versions[i].(status := Superseded) else versions[i])
  }

  /** confirm_rubric: the draft becomes the confirmed version and its predecessor history. */
  function Confirm(a: Assignment, i: nat, providers: seq<PC.Provider>, provider: nat, model: string, now: Time)
    : Option<Assignment>
  {
    if !Usable(providers, provider, model) || !Confirmable(a, i, provider, model) then None
    else
      var row := a.versions[i].(status := Confirmed, confirmedAt := Some(now));
      Some(Assignment(Ready, SupersedeAll(a.versions)[i := row]))
  }

  datatype StatusAction = Archive | Restore

  function ChangeStatus(a: Assignment, action: StatusAction): Option<Assignment> {
    match action
    case Archive => Some(a.(status := Archived))
    case Restore =>
      if a.status != Archived then None
      else Some(a.(status := if Has(a.versions, Confirmed) then Ready else Draft))
  }

  // ----- facts about the shape -----

  lemma DraftIsLast(a: Assignment, i: nat)
    requires Inv(a) && IsDraft(a, i)
    ensures i == |a.versions| - 1
  {
    var last := a.versions[|a.versions| - 1];
    assert Rank(last.status) <= 2;
  }

  lemma OrderedMeansIndexes(versions: seq<Version>)
    requires Ordered(versions) && forall i | 0 <= i < |versions| :: versions[i].version == i + 1
    ensures Indexes(versions)
  {
  }

  lemma InvMeansDb(a: Assignment)
    requires Inv(a)
    ensures DbInv(a)
  {
    OrderedMeansIndexes(a.versions);
  }

  lemma {:induction false} LatestIsLength(versions: seq<Version>)
    requires forall i | 0 <= i < |versions| :: versions[i].version == i + 1
    ensures LatestVersion(versions) == |versions|
  {
    if versions != [] { LatestIsLength(versions[..|versions| - 1]); }
  }

  lemma SupersedeKeepsOrder(versions: seq<Version>, i: nat, row: Version)
    requires Ordered(versions) && i == |versions| - 1 && versions[i].status == DraftVersion && row.status == Confirmed
    ensures Ordered(SupersedeAll(versions)[i := row])
  {
  }
}
