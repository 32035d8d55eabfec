/** The provider repository, statement by statement, against the row functions of ProviderConfigs. */
module ProviderRepository {
  import opened Wrappers
  import opened ProviderConfigs

  /** The repository object over one provider row. */
  class ProviderConfigRepository {
    var row: Provider

    constructor (row: Provider)
      requires Inv(row)
      ensures this.row == row
    {
      this.row := row;
    }

    method ExecuteUpdate(values: Provider, hasOpenJobs: bool) returns (done: bool)
      modifies this
      ensures done <==> UpdateRow(old(row), values, hasOpenJobs).Some?
      ensures row == if done then UpdateRow(old(row), values, hasOpenJobs).value else old(row)
    {
      var updated := values;
      if values.fields != row.fields {
        if hasOpenJobs {
          return false;
        }
        updated := updated.(configVersion := row.configVersion + 1);
        updated := updated.(testedAt := None, testedVersion := None);
        updated := updated.(status := Draft);
      } else {
        updated := updated.(configVersion := row.configVersion);
      }
      if !Check(updated) {
        return false;
      }
      row := updated;
      return true;
    }

    /** Updates the row whose version the caller saw; changed columns of a test move the version and need a new test. */
    method Update(expected: nat, fields: Fields, name: string, maxConcurrency: nat, hasOpenJobs: bool)
      returns (stored: Option<Provider>)
      requires Inv(row)
      modifies this
      ensures stored.Some? <==>
                && old(row).configVersion == expected
                && (fields != old(row).fields ==> !hasOpenJobs)
                && maxConcurrency > 0
                && (fields.encryptedKey.None? <==> fields.nonce.None?)
                && (fields.defaultModel.Some? ==> fields.defaultModel.value in fields.allowedModels)
      ensures stored.Some? ==>
                if fields == old(row).fields then row == old(row).(name := name, maxConcurrency := maxConcurrency)
                else row == Provider(fields, name, maxConcurrency, Draft, expected + 1, None, None)
      ensures stored == ProviderConfigs.Update(old(row), expected, fields, name, maxConcurrency, hasOpenJobs)
      ensures row == stored.GetOr(old(row)) && Inv(row) && Evolves(old(row), row)
    {
      if row.configVersion != expected {
        return None;
      }
      var done := ExecuteUpdate(row.(fields := fields, name := name, maxConcurrency := maxConcurrency), hasOpenJobs);
      stored := if done then Some(row) else None;
    }

    method MarkTested(expected: nat, now: Time, hasOpenJobs: bool) returns (stored: Option<Provider>)
      requires Inv(row)
      modifies this
      ensures stored == ProviderConfigs.MarkTested(old(row), expected, now, hasOpenJobs)
      ensures stored.Some? <==> old(row).configVersion == expected
      ensures stored.Some? ==> row == old(row).(testedVersion := Some(expected), testedAt := Some(now))
      ensures row == stored.GetOr(old(row)) && Inv(row)
    {
      if row.configVersion != expected {
        return None;
      }
      var done := ExecuteUpdate(row.(testedAt := Some(now), testedVersion := Some(expected)), hasOpenJobs);
      stored := if done then Some(row) else None;
    }

    method EnableTested(hasOpenJobs: bool) returns (stored: Option<Provider>)
      requires Inv(row)
      modifies this
      ensures stored == ProviderConfigs.EnableTested(old(row), hasOpenJobs)
      ensures stored.Some? <==>
                && old(row).fields.encryptedKey.Some? && old(row).testedVersion == Some(old(row).configVersion)
                && old(row).fields.defaultModel.Some?
                && old(row).fields.defaultModel.value in old(row).fields.modelProfiles
      ensures stored.Some? ==> row == old(row).(status := Enabled)
      ensures row == stored.GetOr(old(row)) && Inv(row)
    {
      if !Enableable(row) {
        return None;
      }
      var done := ExecuteUpdate(row.(status := Enabled), hasOpenJobs);
      stored := if done then Some(row) else None;
    }

    method DisableEnabled(hasOpenJobs: bool) returns (stored: Option<Provider>)
      requires Inv(row)
      modifies this
      ensures stored == ProviderConfigs.DisableEnabled(old(row), hasOpenJobs)
      ensures stored.Some? <==> old(row).status == Enabled
      ensures stored.Some? ==> row == old(row).(status := Disabled)
      ensures row == stored.GetOr(old(row)) && Inv(row)
    {
      if row.status != Enabled {
        return None;
      }
      var done := ExecuteUpdate(row.(status := Disabled), hasOpenJobs);
      stored := if done then Some(row) else None;
    }
  }
}
