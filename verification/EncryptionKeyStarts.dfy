/** What holds over whole histories of starts on one database, and the same start
written as it runs, with the install state and the database changed in place. */
module EncryptionKeyStarts {
  import opened Wrappers
  import opened Text
  import opened EncryptionKeyModel

  /** The bytes a key stands for. */
  function KeyBytes(c: Codec, key: string): Bytes
    requires ValidKey(c, key)
  {
    c.decode(key).value
  }

  // ----- One start -----

  /** A start that succeeds does so with a valid key, and secrets.json then holds that key. */
  lemma SuccessStoresKey(c: Codec, w: World, env: Env)
    requires Start(c, w, env).outcome.Started?
    ensures var s := Start(c, w, env);
            && ValidKey(c, s.outcome.key)
            && s.world.files.Files? && s.world.files.secrets.Some?
            && s.world.files.secrets.value.encryptionKey == s.outcome.key
  {
  }

  /** Once the check record exists and replacing was not asked for, success means the record opens
      with the key of this start; the database never changes. */
  lemma SuccessMatchesRecord(c: Codec, w: World, env: Env)
    requires w.db.check.Some? && !env.replace
    ensures Start(c, w, env).world.db == w.db
    ensures var s := Start(c, w, env);
            s.outcome.Started? ==> ValidKey(c, s.outcome.key) && Opens(w.db.check.value, KeyBytes(c, s.outcome.key))
  {
  }

  /** The first success writes the record for its own key. */
  lemma SuccessLeavesMatchingRecord(c: Codec, w: World, env: Env)
    requires Start(c, w, env).outcome.Started?
    ensures var s := Start(c, w, env);
            && ValidKey(c, s.outcome.key)
            && s.world.db.check.Some? && Opens(s.world.db.check.value, KeyBytes(c, s.outcome.key))
  {
  }

  lemma RefusalsChangeNothing(c: Codec, w: World, env: Env)
    requires Start(c, w, env).outcome in {KeyMissing, KeyMismatch}
    ensures Start(c, w, env).world == w
  {
  }

  // ----- Exactly when a start is refused -----

  /** Every access a start makes succeeds. */
  predicate NothingFails(env: Env) {
    && env.newOwnerToken.Some? && env.newApiToken.Some? && env.newKey.Some?
    && env.secretsStateReads && env.saving == Saved && env.tokenFileWrites && env.exposureOk
    && env.checkReads && env.checkSeals && env.checkWrites
  }

  /** The key secrets.json holds, without the spaces around it. */
  function StoredKey(f: Files): string
    requires f.Files?
  {
    TrimSpace(if f.secrets.Some? then f.secrets.value.encryptionKey else "")
  }

  /** A start is refused for a missing key exactly if neither place has one (the example does not count),
      the database holds secrets that need one, and replacing was not asked for. */
  lemma MissingExactly(c: Codec, w: World, env: Env)
    requires w.files.Files? && env.secretsStateReads
    ensures Start(c, w, env).outcome == KeyMissing <==>
            && TrimSpace(env.encryptionKey) == ""
            && StoredKey(w.files) in {"", PLACEHOLDER_KEY}
            && (w.db.credentials || (w.db.totp && TrimSpace(env.totpKey) == ""))
            && !env.replace
  {
  }

  /** A start is refused for a changed key exactly if both places have one, they stand for different bytes,
      and replacing was not asked for.  Other encodings of the same bytes are no change. */
  lemma MismatchExactly(c: Codec, w: World, env: Env)
    requires w.files.Files? && env.newOwnerToken.Some? && env.newApiToken.Some?
    ensures var given, stored := TrimSpace(env.encryptionKey), StoredKey(w.files);
            Start(c, w, env).outcome == KeyMismatch <==>
            && given != "" && stored !in {"", PLACEHOLDER_KEY} && given != stored
            && !(c.decode(given).Some? && c.decode(given) == c.decode(stored))
            && !env.replace
  {
  }

  /** The key a start goes by: the one given, else the one stored, else a new one. */
  lemma KeyToUse(f: Files, env: Env)
    requires f.Files?
    ensures var given, stored := TrimSpace(env.encryptionKey), StoredKey(f);
            && (given != "" ==> ChosenKey(f, env) == Some(given))
            && (given == "" && stored !in {"", PLACEHOLDER_KEY} ==> ChosenKey(f, env) == Some(stored))
            && (given == "" && stored in {"", PLACEHOLDER_KEY} ==> ChosenKey(f, env) == env.newKey)
  {
  }

  predicate Refused(c: Codec, w: World, env: Env) {
    Start(c, w, env).outcome in {KeyMissing, KeyMismatch}
  }

  /** Where nothing else fails and neither guard refuses: the start succeeds exactly if its key stands for
      32 bytes and the database has no record, has one of that key, or may be overwritten.  With a key of
      32 bytes it is otherwise refused as wrong for the data. */
  lemma StartsExactly(c: Codec, w: World, env: Env)
    requires w.files.Files? && NothingFails(env) && !Refused(c, w, env)
    ensures var key, outcome := ChosenKey(w.files, env).value, Start(c, w, env).outcome;
            var usable := && key != "" && TrimSpace(key) == key
                          && c.decode(key).Some? && |c.decode(key).value| == 32;
            var sealed := && w.db.check.Some? && w.db.check.value.CheckRecord? && c.decode(key).Some?
                          && w.db.check.value.ciphertext == Sealed(c.decode(key).value, CHECK_AAD, CHECK_VALUE);
            && (outcome == Started(key) <==> usable && (w.db.check.None? || sealed || env.replace))
            && (outcome == KeyWrongForData <==> usable && w.db.check.Some? && !sealed && !env.replace)
            && (outcome == InstallStateFailed <==> !usable)
  {
  }

  /** No start succeeds past an access that fails. */
  lemma SuccessNeedsAll(c: Codec, w: World, env: Env)
    requires Start(c, w, env).outcome.Started?
    ensures w.files.Files? && env.tokenFileWrites && env.exposureOk && env.checkReads
    ensures TrimSpace(env.encryptionKey) == "" && StoredKey(w.files) in {"", PLACEHOLDER_KEY} ==> env.secretsStateReads
    ensures Start(c, w, env).world.files != w.files ==> env.saving == Saved
    ensures Start(c, w, env).world.db != w.db ==> env.checkSeals && env.checkWrites
  {
  }

  /** A token: the one given, else the one stored unless it is the example, else a new one. */
  function TokenToUse(given: string, stored: string, generated: string): string {
    if TrimSpace(given) != "" then TrimSpace(given)
    else if TrimSpace(stored) !in {"", PLACEHOLDER_TOKEN} then TrimSpace(stored)
    else generated
  }

  lemma TokenResolved(stored: string, given: string, generated: Option<string>)
    requires generated.Some?
    ensures ResolveToken(stored, given, generated) == Some(TokenToUse(given, stored, generated.value))
  {
  }

  /** All secrets as a start resolves them, with the key it goes by. */
  function SecretsToUse(before: Secrets, env: Env, key: string): Secrets
    requires env.newOwnerToken.Some? && env.newApiToken.Some?
  {
    Secrets(
      TokenToUse(env.ownerToken, before.ownerToken, env.newOwnerToken.value),
      TokenToUse(env.apiToken, before.apiToken, env.newApiToken.value),
      key,
      TrimSpace(if TrimSpace(env.postgresPassword) != "" then env.postgresPassword else before.postgresPassword))
  }

  lemma ResolvedSecrets(c: Codec, f: Files, env: Env)
    requires f.Files? && env.newOwnerToken.Some? && env.newApiToken.Some?
    ensures var r := Resolve(c, f, env);
            && r.files.Files?
            && (r.result.Started? ==> r.files == Files(Some(1), Some(SecretsToUse(Persisted(f), env, r.result.key))))
            && (r.files.secrets != f.secrets ==>
                  && env.saving == Saved && ChosenKey(f, env).Some?
                  && r.files.secrets == Some(SecretsToUse(Persisted(f), env, ChosenKey(f, env).value)))
  {
    TokenResolved(Persisted(f).ownerToken, env.ownerToken, env.newOwnerToken);
    TokenResolved(Persisted(f).apiToken, env.apiToken, env.newApiToken);
  }

  /** A successful start leaves all secrets as resolved.  Any other leaves secrets.json as it was, or, if
      saving worked, with all secrets as resolved too. */
  lemma SecretsLeft(c: Codec, w: World, env: Env)
    requires w.files.Files? && env.newOwnerToken.Some? && env.newApiToken.Some?
    ensures var s, before := Start(c, w, env), Persisted(w.files);
            var after := s.world.files;
            && after.Files?
            && (s.outcome.Started? ==> after == Files(Some(1), Some(SecretsToUse(before, env, s.outcome.key))))
            && (after.secrets != w.files.secrets ==>
                  && env.saving == Saved && ChosenKey(w.files, env).Some?
                  && after.secrets == Some(SecretsToUse(before, env, ChosenKey(w.files, env).value)))
  {
    ResolvedSecrets(c, w.files, env);
  }

  /** A successful start leaves a record of its key, written only if there was none of that key.  Any
      other leaves the database alone. */
  lemma RecordLeft(c: Codec, w: World, env: Env)
    ensures var s := Start(c, w, env);
            && (!s.outcome.Started? ==> s.world.db == w.db)
            && (s.outcome.Started? ==>
                  && ValidKey(c, s.outcome.key)
                  && var bytes := KeyBytes(c, s.outcome.key);
                     var record := CheckRecord(Sealed(bytes, CHECK_AAD, CHECK_VALUE), env.newKeyId);
                     s.world.db == if w.db.check.Some? && Opens(w.db.check.value, bytes) then w.db
                                   else w.db.(check := Some(record)))
  {
  }

  // ----- Histories of starts -----

  /** Whatever an operator put in place before a start: any files, any environment, any other
      contents of the database than the check record. */
  datatype Boot = Boot(files: Files, credentials: bool, totp: bool, env: Env)

  function BootOn(c: Codec, check: Option<CheckRecord>, boot: Boot): Startup {
    Start(c, World(boot.files, Database(check, boot.credentials, boot.totp)), boot.env)
  }

  /** The check record after a history of starts on one database. */
  function CheckAfter(c: Codec, check: Option<CheckRecord>, boots: seq<Boot>): Option<CheckRecord> {
    if boots == [] then check
    else
      var last := |boots| - 1;
      BootOn(c, CheckAfter(c, check, boots[..last]), boots[last]).world.db.check
  }

  function StartAt(c: Codec, check: Option<CheckRecord>, boots: seq<Boot>, i: nat): Startup
    requires i < |boots|
  {
    BootOn(c, CheckAfter(c, check, boots[..i]), boots[i])
  }

  /** None of the starts from `i` on and before `j` has the replace flag. */
  predicate NoReplaceIn(boots: seq<Boot>, i: nat, j: nat)
    requires j <= |boots|
  {
    forall k :: i <= k < j ==> !boots[k].env.replace
  }

  lemma CheckAfterNext(c: Codec, check: Option<CheckRecord>, boots: seq<Boot>, i: nat)
    requires i < |boots|
    ensures CheckAfter(c, check, boots[..i + 1]) == StartAt(c, check, boots, i).world.db.check
  {
    assert boots[..i + 1][..i] == boots[..i];
  }

  /** The record, once there, is not rewritten by starts without the replace flag. */
  lemma {:induction false} RecordNeverRewritten(c: Codec, check: Option<CheckRecord>, boots: seq<Boot>, i: nat, j: nat)
    requires i <= j <= |boots| && NoReplaceIn(boots, i, j)
    requires CheckAfter(c, check, boots[..i]).Some?
    ensures CheckAfter(c, check, boots[..j]) == CheckAfter(c, check, boots[..i])
    decreases j - i
  {
    if i < j {
      RecordNeverRewritten(c, check, boots, i, j - 1);
      CheckAfterNext(c, check, boots, j - 1);
      var boot := boots[j - 1];
      var db := Database(CheckAfter(c, check, boots[..j - 1]), boot.credentials, boot.totp);
      SuccessMatchesRecord(c, World(boot.files, db), boot.env);
    }
  }

  /** However secrets.json and the environment change in between, a successful start and any later one
      on the same database use the same key bytes, unless a start after the first replaces; and each
      leaves its key in secrets.json. */
  lemma AllStartsUseOneKey(c: Codec, check: Option<CheckRecord>, boots: seq<Boot>, i: nat, j: nat)
    requires i < j < |boots| && NoReplaceIn(boots, i + 1, j + 1)
    requires StartAt(c, check, boots, i).outcome.Started? && StartAt(c, check, boots, j).outcome.Started?
    ensures var first, second := StartAt(c, check, boots, i), StartAt(c, check, boots, j);
            && ValidKey(c, first.outcome.key) && ValidKey(c, second.outcome.key)
            && KeyBytes(c, first.outcome.key) == KeyBytes(c, second.outcome.key)
            && second.world.files.Files? && second.world.files.secrets.Some?
            && second.world.files.secrets.value.encryptionKey == second.outcome.key
            && second.world.db.check == first.world.db.check
  {
    var b, b' := boots[i], boots[j];
    var w := World(b.files, Database(CheckAfter(c, check, boots[..i]), b.credentials, b.totp));
    var w' := World(b'.files, Database(CheckAfter(c, check, boots[..j]), b'.credentials, b'.totp));
    SuccessLeavesMatchingRecord(c, w, b.env);
    CheckAfterNext(c, check, boots, i);
    RecordNeverRewritten(c, check, boots, i + 1, j);
    SuccessMatchesRecord(c, w', b'.env);
    SuccessStoresKey(c, w', b'.env);
  }

  // ----- Getting back in -----

  /** With the environment set to the database's own key, a start succeeds exactly if replacing was
      allowed or secrets.json holds no other usable key.  The record stays as it is. */
  lemma StartWithDatabaseKey(c: Codec, w: World, env: Env)
    requires NothingFails(env) && w.files.Files?
    requires w.db.check.Some? && ValidKey(c, TrimSpace(env.encryptionKey))
    requires Opens(w.db.check.value, KeyBytes(c, TrimSpace(env.encryptionKey)))
    ensures var s := Start(c, w, env);
            var stored := UsableStoredKey(w.files);
            && (s.outcome.Started? <==>
                  || env.replace || stored == ""
                  || stored == TrimSpace(env.encryptionKey)
                  || c.decode(stored) == c.decode(TrimSpace(env.encryptionKey)))
            && (!s.outcome.Started? ==> s.outcome == KeyMismatch && s.world == w)
            && s.world.db == w.db
  {
  }

  /** A start refused because the key cannot read the database leaves the database alone but not
      secrets.json: it then holds the key that was refused. */
  lemma WrongKeyIsStored(c: Codec, w: World, env: Env)
    requires Start(c, w, env).outcome == KeyWrongForData
    ensures var s := Start(c, w, env);
            && s.world.db == w.db && w.db.check.Some? && !env.replace
            && w.files.Files? && s.world.files.Files? && s.world.files.secrets.Some?
            && ChosenKey(w.files, env) == Some(s.world.files.secrets.value.encryptionKey)
            && ValidKey(c, s.world.files.secrets.value.encryptionKey)
            && !Opens(w.db.check.value, KeyBytes(c, s.world.files.secrets.value.encryptionKey))
  {
  }

  lemma RetryWithDatabaseKey(c: Codec, w: World, wrong: string, retry: Env)
    requires w.files.Files? && w.files.secrets.Some? && w.files.secrets.value.encryptionKey == wrong
    requires w.db.check.Some? && ValidKey(c, wrong) && !Opens(w.db.check.value, KeyBytes(c, wrong))
    requires NothingFails(retry) && ValidKey(c, TrimSpace(retry.encryptionKey))
    requires Opens(w.db.check.value, KeyBytes(c, TrimSpace(retry.encryptionKey)))
    ensures Start(c, w, retry).outcome.Started? <==> retry.replace || wrong == PLACEHOLDER_KEY
    ensures !Start(c, w, retry).outcome.Started? ==> Start(c, w, retry).outcome == KeyMismatch
  {
    StartWithDatabaseKey(c, w, retry);
  }

  /** So the remedy that refusal prints (set the environment to the database's key and restart) is
      refused in turn as a key change, unless the refused key was the well-known example or the
      replace flag is given as well. */
  lemma PrintedRemedy(c: Codec, w: World, first: Env, retry: Env)
    requires Start(c, w, first).outcome == KeyWrongForData
    requires NothingFails(retry) && ValidKey(c, TrimSpace(retry.encryptionKey))
    requires w.db.check.Some? && Opens(w.db.check.value, KeyBytes(c, TrimSpace(retry.encryptionKey)))
    requires w.files.Files?
    ensures var s := Start(c, Start(c, w, first).world, retry);
            && (s.outcome.Started? <==> retry.replace || ChosenKey(w.files, first) == Some(PLACEHOLDER_KEY))
            && (!s.outcome.Started? ==> s.outcome == KeyMismatch)
  {
    WrongKeyIsStored(c, w, first);
    var w1 := Start(c, w, first).world;
    var wrong := w1.files.secrets.value.encryptionKey;
    RetryWithDatabaseKey(c, w1, wrong, retry);
  }

  // ----- Histories in which the printed remedy is refused -----

  const NEW_INSTALL := Files(None, None)

  /** A start at which nothing fails, with this key in the environment and no replace flag. */
  predicate PlainStart(env: Env, key: string) {
    NothingFails(env) && !env.replace && env.encryptionKey == key
  }

  lemma NewHubStarts(c: Codec, key: string, env: Env)
    requires ValidKey(c, key) && PlainStart(env, key)
    ensures var s := Start(c, World(NEW_INSTALL, Database(None, false, false)), env);
            && s.outcome == Started(key)
            && s.world.db.check.Some? && Opens(s.world.db.check.value, KeyBytes(c, key))
  {
    TrimNothing();
    assert ChosenKey(NEW_INSTALL, env) == Some(key);
  }

  lemma OtherKeyRefused(c: Codec, key: string, db: Database, env: Env)
    requires ValidKey(c, key) && PlainStart(env, key)
    requires db.check.Some? && !Opens(db.check.value, KeyBytes(c, key))
    ensures Start(c, World(NEW_INSTALL, db), env).outcome == KeyWrongForData
    ensures ChosenKey(NEW_INSTALL, env) == Some(key)
  {
    TrimNothing();
  }

  /** A new Hub starts with key `b`.  Its database is restored next to a new installation that is given
      another key: refused as wrong for the data.  Setting the environment to `b`, as that refusal says,
      is then refused as a key change. */
  lemma RemedyRefused(c: Codec, a: string, b: string, first: Env, second: Env, third: Env)
    requires ValidKey(c, a) && ValidKey(c, b) && KeyBytes(c, a) != KeyBytes(c, b) && a != PLACEHOLDER_KEY
    requires PlainStart(first, b) && PlainStart(second, a) && PlainStart(third, b)
    ensures var s1 := Start(c, World(NEW_INSTALL, Database(None, false, false)), first);
            var s2 := Start(c, World(NEW_INSTALL, s1.world.db), second);
            var s3 := Start(c, s2.world, third);
            && s1.outcome == Started(b)
            && s2.outcome == KeyWrongForData
            && s3.outcome == KeyMismatch
  {
    NewHubStarts(c, b, first);
    var db := Start(c, World(NEW_INSTALL, Database(None, false, false)), first).world.db;
    OtherKeyRefused(c, a, db, second);
    PrintedRemedy(c, World(NEW_INSTALL, db), second, third);
  }

  lemma TrimNothing()
    ensures TrimSpace("") == ""
  {
    TrimCore("", "", "");
  }

  // ----- The start as it runs -----

  class Installation {
    var files: Files
    var db: Database

    constructor (files: Files, db: Database)
      ensures this.files == files && this.db == db
    {
      this.files, this.db := files, db;
    }

    /** `resolveRuntimeInstallSecrets`: fields overwritten in sequence, then saved. */
    method ResolveSecrets(c: Codec, env: Env) returns (result: Outcome)
      modifies this`files
      ensures Resolution(files, result) == Resolve(c, old(files), env)
    {
      if files.Unreadable? {
        return InstallStateFailed;
      }
      var persisted := Persisted(files);
      var ownerToken := ResolveToken(persisted.ownerToken, env.ownerToken, env.newOwnerToken);
      if ownerToken.None? {
        return InstallStateFailed;
      }
      var apiToken := ResolveToken(persisted.apiToken, env.apiToken, env.newApiToken);
      if apiToken.None? {
        return InstallStateFailed;
      }
      var envKey := TrimSpace(env.encryptionKey);
      var key := TrimSpace(persisted.encryptionKey);
      if IsPlaceholderKey(key) {
        key := "";
      }
      if envKey != "" {
        if KeyChangeRefused(c, key, envKey, env.replace) {
          return KeyMismatch;
        }
        key := envKey;
      }
      if key == "" {
        if env.newKey.None? {
          return InstallStateFailed;
        }
        key := env.newKey.value;
      }
      if !ValidKey(c, key) {
        return InstallStateFailed;
      }
      var next := Secrets(ownerToken.value, apiToken.value, key, TrimSpace(persisted.postgresPassword));
      if TrimSpace(env.postgresPassword) != "" {
        next := next.(postgresPassword := TrimSpace(env.postgresPassword));
      }
      if MustSave(files, next) {
        files := SaveTo(files, next, env.saving);
        if env.saving != Saved {
          return InstallStateFailed;
        }
      }
      if !env.tokenFileWrites {
        return InstallStateFailed;
      }
      return Started(key);
    }

    /** `checkEncryptionKeyMatchesData` */
    method CheckKeyMatchesData(c: Codec, env: Env, key: string) returns (result: Outcome)
      requires ValidKey(c, key)
      modifies this`db
      ensures Matching(db, result) == CheckMatchesData(c, old(db), env, key)
    {
      if !env.checkReads {
        return DatabaseFailed;
      }
      if db.check.Some? {
        if Opens(db.check.value, c.decode(key).value) {
          return Started(key);
        }
        if !env.replace {
          return KeyWrongForData;
        }
      }
      if !env.checkSeals || !env.checkWrites {
        return DatabaseFailed;
      }
      var sealed := Sealed(c.decode(key).value, CHECK_AAD, CHECK_VALUE);
      db := db.(check := Some(CheckRecord(sealed, env.newKeyId)));
      return Started(key);
    }

    method StartHub(c: Codec, env: Env) returns (outcome: Outcome)
      modifies this
      ensures Startup(World(files, db), outcome) == Start(c, World(old(files), old(db)), env)
    {
      var refused := PresentForData(World(files, db), env);
      if refused.Some? {
        return refused.value;
      }
      var resolved := ResolveSecrets(c, env);
      if !resolved.Started? {
        return resolved;
      }
      if !env.exposureOk {
        return AuthRefused;
      }
      outcome := CheckKeyMatchesData(c, env, resolved.key);
    }
  }
}
