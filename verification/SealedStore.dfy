/** Both migrations of an opened database together (openDatabase in
    internal/database/db.go). */
module SealedStore {
  import opened Prelude
  import opened Sealing
  import Clients = SealedClients
  import Settings = SealedSettings

  datatype Store = Store(settings: seq<(string, string)>, clients: seq<Clients.Row>)

  /** validateStoredState. */
  predicate Validates(j: Settings.Json, env: Clients.Env, s: Store) {
    && (forall i :: 0 <= i < |s.settings| ==> Settings.Validates(j, Some(env.cipher), s.settings[i]))
    && (forall i :: 0 <= i < |s.clients| ==> Clients.Validates(env, s.clients[i]))
  }

  function Migrated(env: Clients.Env, s: Store, settingNonce: nat -> Option<nat>, tokenNonce: nat -> Option<nat>): Store {
    Store(Settings.SealAll(env.cipher, s.settings, settingNonce), Clients.SealAll(env, s.clients, tokenNonce))
  }

  /** A store that was let through when it was opened is let through again after both
      migrations, whichever values could be sealed. */
  lemma MigratedStoreValidates(j: Settings.Json, env: Clients.Env, s: Store,
                               settingNonce: nat -> Option<nat>, tokenNonce: nat -> Option<nat>)
    requires Clients.EnvLawful(env) && Validates(j, env, s)
    ensures Validates(j, env, Migrated(env, s, settingNonce, tokenNonce))
  {
    hide Clients.Validates, Settings.Validates, Settings.SealAll, Clients.SealAll;
    Settings.MigrationPreservesMeaning(j, env.cipher, s.settings, settingNonce);
    Clients.MigrationPreservesMeaning(env, s.clients, tokenNonce, "any");
  }
}
