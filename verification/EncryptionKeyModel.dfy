/** One Hub start, as far as the encryption key is concerned: the guard that runs
before the install state is resolved, the resolver with its own guard, and the
check of the key against the database.

Encryption is ideal: a ciphertext opens with the key bytes and the associated
data it was sealed with, and with nothing else.  Base64 is a parameter, so what
is proved holds for every decoder. */
module EncryptionKeyModel {
  import opened Wrappers
  import opened Text

  type Bytes = seq<bv8>

  datatype Codec = Codec(decode: string -> Option<Bytes>)

  // ----- secrets.json and state.json -----

  datatype Secrets = Secrets(ownerToken: string, apiToken: string, encryptionKey: string, postgresPassword: string)

  const NO_SECRETS := Secrets("", "", "", "")

  /** `schema` is state.json's version when that file exists. */
  datatype Files = Unreadable | Files(schema: Option<int>, secrets: Option<Secrets>)

  function Persisted(f: Files): Secrets
    requires f.Files?
  {
    if f.secrets.Some? then f.secrets.value else NO_SECRETS
  }

  // ----- The database -----

  datatype Ciphertext = Sealed(key: Bytes, aad: string, plain: string) | Opaque

  datatype CheckRecord = Malformed | CheckRecord(ciphertext: Ciphertext, keyId: string)

  datatype Database = Database(check: Option<CheckRecord>, credentials: bool, totp: bool)

  datatype World = World(files: Files, db: Database)

  const CHECK_AAD := "system_settings:encryption_key_check"
  const CHECK_VALUE := "labtether-encryption-key-check-v1"
  const PLACEHOLDER_TOKEN := "labtether-owner-local-token"
  const PLACEHOLDER_KEY := "MDEyMzQ1Njc4OUFCQ0RFRjAxMjM0NTY3ODlBQkNERUY="
  const KEY_LENGTH := 32

  // ----- What a start meets -----

  datatype SaveResult = Saved | StateFileOnly | NothingSaved

  /** Environment values, random values (`None` when generating fails) and the outcome of each access. */
  datatype Env = Env(
    ownerToken: string,
    apiToken: string,
    encryptionKey: string,
    postgresPassword: string,
    totpKey: string,
    replace: bool,
    newOwnerToken: Option<string>,
    newApiToken: Option<string>,
    newKey: Option<string>,
    newKeyId: string,
    secretsStateReads: bool,
    saving: SaveResult,
    tokenFileWrites: bool,
    exposureOk: bool,
    checkReads: bool,
    checkSeals: bool,
    checkWrites: bool)

  datatype Outcome =
    | KeyMissing
    | KeyMismatch
    | KeyWrongForData
    | InstallStateFailed
    | AuthRefused
    | DatabaseFailed
    | Started(key: string)

  // ----- Keys -----

  /** `sameEncryptionKey` */
  predicate SameKey(c: Codec, a: string, b: string) {
    || a == b
    || (c.decode(a).Some? && c.decode(a) == c.decode(b))
  }

  predicate ValidKey(c: Codec, key: string) {
    key != "" && TrimSpace(key) == key && c.decode(key).Some? && |c.decode(key).value| == KEY_LENGTH
  }

  predicate IsPlaceholderKey(key: string) {
    key == PLACEHOLDER_KEY
  }

  /** The stored key that counts: trimmed, and not the well-known example. */
  function UsableStoredKey(f: Files): string
    requires f.Files?
  {
    var key := TrimSpace(Persisted(f).encryptionKey);
    if IsPlaceholderKey(key) then "" else key
  }

  // ----- checkEncryptionKeyPresentForData -----

  function PresentForData(w: World, env: Env): Option<Outcome> {
    if w.files.Unreadable? then None
    else if UsableStoredKey(w.files) != "" || TrimSpace(env.encryptionKey) != "" then None
    else if !env.secretsStateReads then Some(DatabaseFailed)
    else if !w.db.credentials && !(w.db.totp && TrimSpace(env.totpKey) == "") then None
    else if env.replace then None
    else Some(KeyMissing)
  }

  // ----- resolveRuntimeInstallSecrets -----

  function ResolveToken(stored: string, given: string, generated: Option<string>): Option<string> {
    var kept := TrimSpace(stored);
    var usable := if kept == PLACEHOLDER_TOKEN then "" else kept;
    var chosen := if TrimSpace(given) != "" then TrimSpace(given) else usable;
    if chosen != "" then Some(chosen) else generated
  }

  /** `checkEncryptionKeyChange` */
  predicate KeyChangeRefused(c: Codec, stored: string, given: string, replace: bool) {
    stored != "" && given != "" && !SameKey(c, stored, given) && !replace
  }

  function ChosenKey(f: Files, env: Env): Option<string>
    requires f.Files?
  {
    if TrimSpace(env.encryptionKey) != "" then Some(TrimSpace(env.encryptionKey))
    else if UsableStoredKey(f) != "" then Some(UsableStoredKey(f))
    else env.newKey
  }

  function NextSecrets(f: Files, env: Env, owner: string, api: string, key: string): Secrets
    requires f.Files?
  {
    Secrets(owner, api, key,
            if TrimSpace(env.postgresPassword) != "" then TrimSpace(env.postgresPassword)
            else TrimSpace(Persisted(f).postgresPassword))
  }

  predicate MustSave(f: Files, next: Secrets)
    requires f.Files?
  {
    (f.schema.None? && f.secrets.None?) || Persisted(f) != next || f.schema != Some(1)
  }

  function SaveTo(f: Files, next: Secrets, saving: SaveResult): Files
    requires f.Files?
  {
    match saving
    case Saved => Files(Some(1), Some(next))
    case StateFileOnly => f.(schema := Some(1))
    case NothingSaved => f
  }

  datatype Resolution = Resolution(files: Files, result: Outcome)

  function Resolve(c: Codec, f: Files, env: Env): Resolution {
    if f.Unreadable? then
      Resolution(f, InstallStateFailed)
    else
      var owner := ResolveToken(Persisted(f).ownerToken, env.ownerToken, env.newOwnerToken);
      var api := ResolveToken(Persisted(f).apiToken, env.apiToken, env.newApiToken);
      if owner.None? || api.None? then
        Resolution(f, InstallStateFailed)
      else if KeyChangeRefused(c, UsableStoredKey(f), TrimSpace(env.encryptionKey), env.replace) then
        Resolution(f, KeyMismatch)
      else
        var key := ChosenKey(f, env);
        if key.None? || !ValidKey(c, key.value) then
          Resolution(f, InstallStateFailed)
        else
          var next := NextSecrets(f, env, owner.value, api.value, key.value);
          var save := MustSave(f, next);
          var f' := if save then SaveTo(f, next, env.saving) else f;
          if (save && env.saving != Saved) || !env.tokenFileWrites then
            Resolution(f', InstallStateFailed)
          else
            Resolution(f', Started(key.value))
  }

  // ----- checkEncryptionKeyMatchesData -----

  predicate Opens(record: CheckRecord, key: Bytes) {
    record.CheckRecord? && record.ciphertext == Sealed(key, CHECK_AAD, CHECK_VALUE)
  }

  datatype Matching = Matching(db: Database, result: Outcome)

  function CheckMatchesData(c: Codec, db: Database, env: Env, key: string): Matching
    requires ValidKey(c, key)
  {
    var bytes := c.decode(key).value;
    if !env.checkReads then
      Matching(db, DatabaseFailed)
    else if db.check.Some? && Opens(db.check.value, bytes) then
      Matching(db, Started(key))
    else if db.check.Some? && !env.replace then
      Matching(db, KeyWrongForData)
    else if !env.checkSeals || !env.checkWrites then
      Matching(db, DatabaseFailed)
    else
      Matching(db.(check := Some(CheckRecord(Sealed(bytes, CHECK_AAD, CHECK_VALUE), env.newKeyId))), Started(key))
  }

  // ----- A start -----

  datatype Startup = Startup(world: World, outcome: Outcome)

  function Start(c: Codec, w: World, env: Env): Startup {
    var refused := PresentForData(w, env);
    if refused.Some? then
      Startup(w, refused.value)
    else
      var r := Resolve(c, w.files, env);
      if !r.result.Started? then
        Startup(w.(files := r.files), r.result)
      else if !env.exposureOk then
        Startup(w.(files := r.files), AuthRefused)
      else
        var m := CheckMatchesData(c, w.db, env, r.result.key);
        Startup(World(r.files, m.db), m.result)
  }
}
