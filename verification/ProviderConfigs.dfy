/**
 Provider configuration rows: the columns that decide what a connection test proved, the
 two BEFORE UPDATE triggers, and the conditional updates of the repository.
 */
module ProviderConfigs {
  import opened Wrappers

  type Time = int

  /** The columns whose change invalidates a test (migration 0012 added model_profiles). */
  datatype Fields = Fields(
    providerType: string,
    baseUrl: string,
    encryptedKey: Option<string>,
    nonce: Option<string>,
    allowedModels: seq<string>,
    defaultModel: Option<string>,
    timeoutMs: nat,
    modelProfiles: map<string, string>)

  datatype Status = Draft | Enabled | Disabled

  datatype Provider = Provider(
    fields: Fields,
    name: string,
    maxConcurrency: nat,
    status: Status,
    configVersion: nat,
    testedVersion: Option<nat>,
    testedAt: Option<Time>)

  /** The CHECK constraints of migration 0007. */
  predicate Check(row: Provider) {
    && row.configVersion > 0
    && row.maxConcurrency > 0
    && (row.testedVersion.Some? ==> row.testedVersion.value > 0)
    && (row.testedAt.None? <==> row.testedVersion.None?)
    && (row.fields.encryptedKey.None? <==> row.fields.nonce.None?)
    && (row.fields.defaultModel.Some? ==> row.fields.defaultModel.value in row.fields.allowedModels)
    && (row.status == Enabled ==>
          row.testedAt.Some? && row.fields.encryptedKey.Some? && row.fields.defaultModel.Some?
          && row.testedVersion == Some(row.configVersion))
  }

  // ----- triggers, in firing order -----

  /** provider_configs_guard_active_jobs */
  predicate GuardAllows(old_: Provider, new_: Provider, hasOpenJobs: bool) {
    new_.fields != old_.fields ==> !hasOpenJobs
  }

  /** provider_configs_invalidate_test */
  function InvalidateTest(old_: Provider, new_: Provider): Provider {
    if new_.fields != old_.fields then
      new_.(configVersion := old_.configVersion + 1, testedVersion := None, testedAt := None, status := Draft)
    else
      new_.(configVersion := old_.configVersion)
  }

  /** One UPDATE statement; None when a trigger or a CHECK raises. */
  function UpdateRow(old_: Provider, new_: Provider, hasOpenJobs: bool): Option<Provider> {
    var row := InvalidateTest(old_, new_);
    if GuardAllows(old_, new_, hasOpenJobs) && Check(row) then Some(row) else None
  }

  // ----- the repository's statements; None when no row matches or the statement raises -----

  function Update(row: Provider, expected: nat, fields: Fields, name: string, maxConcurrency: nat, hasOpenJobs: bool)
    : Option<Provider>
  {
    if row.configVersion != expected then None
    else UpdateRow(row, row.(fields := fields, name := name, maxConcurrency := maxConcurrency), hasOpenJobs)
  }

  function MarkTested(row: Provider, expected: nat, now: Time, hasOpenJobs: bool): Option<Provider> {
    if row.configVersion != expected then None
    else UpdateRow(row, row.(testedAt := Some(now), testedVersion := Some(expected)), hasOpenJobs)
  }

  predicate Enableable(row: Provider) {
    && row.fields.encryptedKey.Some? && row.fields.nonce.Some?
    && row.fields.defaultModel.Some? && row.fields.defaultModel.value in row.fields.modelProfiles
    && row.testedAt.Some? && row.testedVersion == Some(row.configVersion)
  }

  function EnableTested(row: Provider, hasOpenJobs: bool): Option<Provider> {
    if !Enableable(row) then None else UpdateRow(row, row.(status := Enabled), hasOpenJobs)
  }

  function DisableEnabled(row: Provider, hasOpenJobs: bool): Option<Provider> {
    if row.status != Enabled then None else UpdateRow(row, row.(status := Disabled), hasOpenJobs)
  }

  // ----- what an update means -----

  /** The version counts changes of the tested columns: equal versions, equal columns. */
  predicate Evolves(a: Provider, b: Provider) {
    && a.configVersion <= b.configVersion
    && (a.configVersion == b.configVersion ==> a.fields == b.fields)
  }

  /** What a reader of an earlier row may still rely on. */
  predicate Seen(version: nat, fields: Fields, row: Provider) {
    version <= row.configVersion && (version == row.configVersion ==> fields == row.fields)
  }

  predicate Inv(row: Provider) {
    && Check(row)
    && (row.testedVersion.Some? ==> row.testedVersion == Some(row.configVersion))
    && (row.status == Enabled ==> row.fields.defaultModel.value in row.fields.modelProfiles)
  }

  /** Any UPDATE that is let through: fields change iff the version moves, by one, back to draft, and only without open jobs. */
  lemma UpdateRowMeaning(old_: Provider, new_: Provider, hasOpenJobs: bool)
    requires UpdateRow(old_, new_, hasOpenJobs).Some?
    ensures
      var row := UpdateRow(old_, new_, hasOpenJobs).value;
      && Evolves(old_, row) && row.fields == new_.fields
      && (row.fields != old_.fields <==> row.configVersion != old_.configVersion)
      && (row.configVersion != old_.configVersion ==>
            row.configVersion == old_.configVersion + 1 && row.status == Draft && row.testedVersion.None? && !hasOpenJobs)
  {
  }
}
