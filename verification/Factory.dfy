/** The driver factory: one attempt with the current configuration, then the migrations. */
module Factory {
  import opened Wrappers
  import opened Texts
  import opened Ciphers
  import opened Keys
  import opened McPragmas
  import opened Engine
  import opened Connections
  import opened JdbcProperties
  import opened NativeDriver

  datatype Platform = Jvm(keyIdentifier: Text) | Native

  /** `migrations` is null when none are declared; `properties` are the user's own pragmas. */
  datatype FactoryConfig = FactoryConfig(
    encryption: EncryptionConfig, migrations: Option<seq<EncryptionConfig>>, properties: Entries)

  /******* One driver *******/

  /** The first connection of the driver that `create(keyPragma, rekeyPragma)` makes. */
  function FirstConnection(
      platform: Platform, properties: Entries, key: Pragmas, rekey: Option<Pragmas>, disk: Disk, env: Env): Connected
  {
    match platform
    case Jvm(id) => WithKeyProps(State(Some(key), rekey, false, properties - {PASSWORD}), id, disk, env).1
    case Native => NativeConnect(NativeState(key, rekey), disk, env).1
  }

  /** `PlatformDriver.create`: both maps are cleared when the first connection fails. */
  method PlatformCreate(
      platform: Platform, properties: Entries, keyPragma: PragmaMap, rekeyPragma: PragmaMap?, db: Database, env: Env)
    returns (ok: bool)
    requires rekeyPragma != keyPragma
    requires KEY in keyPragma.entries && RE_KEY !in keyPragma.entries
    requires rekeyPragma != null ==> RE_KEY in rekeyPragma.entries && KEY !in rekeyPragma.entries
    modifies keyPragma, rekeyPragma, db
    ensures var conn := FirstConnection(platform, properties, old(keyPragma.entries),
        if rekeyPragma == null then None else Some(old(rekeyPragma.entries)), old(db.disk), env);
      ok == conn.ok && db.disk == conn.disk
    ensures !ok ==> keyPragma.entries == map[] && (rekeyPragma != null ==> rekeyPragma.entries == map[])
  {
    match platform {
      case Jvm(id) =>
        var props := new JdbcMcProperties(keyPragma, rekeyPragma, properties - {PASSWORD});
        var _, success := props.WithKeyPropsTo(id, db, env);
        ok := success;
        if !ok { props.Clear(); }
      case Native =>
        var connections := new NativeConnections(keyPragma, rekeyPragma);
        var _, success := connections.OnCreateConnection(db, env);
        ok := success;
        if !ok { connections.Clear(); }
    }
  }

  /** Building the maps for one attempt and making it; an error is one of building. */
  function Attempt(
      platform: Platform, properties: Entries, c: EncryptionConfig, key: Key, d: EncryptionConfig, rekey: Option<Key>,
      disk: Disk, env: Env): Result<Connected>
  {
    match KeyedPragmas(c, key, false)
    case Err(e) => Err(e)
    case Ok(keys) =>
      if rekey.None? then Ok(FirstConnection(platform, properties, keys, None, disk, env))
      else
        match KeyedPragmas(d, rekey.value, true)
        case Err(e) => Err(e)
        case Ok(rekeys) => Ok(FirstConnection(platform, properties, keys, Some(rekeys), disk, env))
  }

  method MakeAttempt(
      platform: Platform, properties: Entries, c: EncryptionConfig, key: Key, d: EncryptionConfig, rekey: Option<Key>,
      db: Database, env: Env)
    returns (r: Result<bool>)
    modifies db
    ensures match Attempt(platform, properties, c, key, d, rekey, old(db.disk), env)
      case Err(e) => r.Err? && r.kind == IllegalArgument && db.disk == old(db.disk)
      case Ok(conn) => r == Ok(conn.ok) && db.disk == conn.disk
  {
    hide FirstConnection;
    KeyedHasKey(c, key, false);
    var keys := NewKeyedPragmas(c, key, false);
    if keys.Err? { return Err(IllegalArgument); }
    if rekey.None? {
      var ok := PlatformCreate(platform, properties, keys.value, null, db, env);
      return Ok(ok);
    }
    KeyedHasKey(d, rekey.value, true);
    var rekeys := NewKeyedPragmas(d, rekey.value, true);
    if rekeys.Err? { return Err(IllegalArgument); }
    var ok := PlatformCreate(platform, properties, keys.value, rekeys.value, db, env);
    r := Ok(ok);
  }

  /** The four requirements of `JDBCMCProperties` hold of every map the factory builds. */
  lemma KeyedHasKey(c: EncryptionConfig, key: Key, isRekey: bool)
    ensures var r := KeyedPragmas(c, key, isRekey);
      r.Ok? ==> if isRekey then RE_KEY in r.value && KEY !in r.value else KEY in r.value && RE_KEY !in r.value
    ensures KeyedPragmas(c, key, isRekey).Err? ==> KeyedPragmas(c, key, isRekey).kind == IllegalArgument
  {
    hide EncryptionPragmas;
    EncryptionPragmaAt(c, false, KEY);
    EncryptionPragmaAt(c, false, RE_KEY);
  }

  /******* Migrating *******/

  /** The file, whether an attempt succeeded, and the numbers logged for the attempts. */
  datatype UpgradeResult = UpgradeResult(disk: Disk, ok: bool, labels: seq<nat>)

  /** `attemptUpgrade` over the first declared migrations; attempt `n` is the n-th declared. */
  function Upgrade(
      f: FactoryConfig, platform: Platform, migrations: seq<EncryptionConfig>, key: Key, rekey: Key,
      disk: Disk, envs: nat -> Env): UpgradeResult
    decreases |migrations|
  {
    var n := |migrations|;
    if n == 0 then UpgradeResult(disk, false, [])
    else
      var attempt := Attempt(platform, f.properties, migrations[n - 1], key, f.encryption, Some(rekey), disk, envs(n));
      if attempt.Ok? && attempt.value.ok then UpgradeResult(attempt.value.disk, true, [n])
      else
        var after := if attempt.Ok? then attempt.value.disk else disk;
        var rest := Upgrade(f, platform, migrations[..n - 1], key, rekey, after, envs);
        rest.(labels := [n] + rest.labels)
  }

  lemma UpgradeStep(
      f: FactoryConfig, platform: Platform, migrations: seq<EncryptionConfig>, i: nat, key: Key, rekey: Key,
      disk: Disk, envs: nat -> Env)
    requires 0 < i <= |migrations|
    ensures
      var attempt := Attempt(platform, f.properties, migrations[i - 1], key, f.encryption, Some(rekey), disk, envs(i));
      Upgrade(f, platform, migrations[..i], key, rekey, disk, envs)
      == if attempt.Ok? && attempt.value.ok then UpgradeResult(attempt.value.disk, true, [i])
         else
           var after := if attempt.Ok? then attempt.value.disk else disk;
           var rest := Upgrade(f, platform, migrations[..i - 1], key, rekey, after, envs);
           UpgradeResult(rest.disk, rest.ok, [i] + rest.labels)
  {
    hide Attempt;
    assert migrations[..i][..i - 1] == migrations[..i - 1];
  }

  lemma UpgradeNone(
      f: FactoryConfig, platform: Platform, migrations: seq<EncryptionConfig>, key: Key, rekey: Key,
      disk: Disk, envs: nat -> Env)
    ensures Upgrade(f, platform, migrations[..0], key, rekey, disk, envs) == UpgradeResult(disk, false, [])
  {}

  /** The file, the `hasOpened` flag, what `create` returns or throws, and the attempts logged. */
  datatype CreateResult = CreateResult(disk: Disk, hasOpened: bool, outcome: Result<()>, labels: seq<nat>)

  function Create(
      f: FactoryConfig, platform: Platform, hasOpened: bool, key: Key, rekey: Option<Key>,
      disk: Disk, envs: nat -> Env): CreateResult
  {
    match Attempt(platform, f.properties, f.encryption, key, f.encryption, rekey, disk, envs(0))
    case Err(e) => CreateResult(disk, hasOpened, Err(e), [])
    case Ok(conn) =>
      if conn.ok then CreateResult(conn.disk, true, Ok(()), [])
      else if f.migrations.None? || hasOpened then CreateResult(conn.disk, hasOpened, Err(IllegalState), [])
      else
        var target := if rekey.Some? then rekey.value else key;
        var u := Upgrade(f, platform, f.migrations.value, key, target, conn.disk, envs);
        CreateResult(u.disk, u.ok, if u.ok then Ok(()) else Err(MigrationsFailed), u.labels)
  }

  class DriverFactory {
    const config: FactoryConfig
    const platform: Platform
    var hasOpened: bool
    var log: seq<nat>    // the numbers of the migration attempts logged so far

    constructor (config: FactoryConfig, platform: Platform)
      ensures this.config == config && this.platform == platform && !hasOpened && log == []
    {
      this.config, this.platform, hasOpened, log := config, platform, false, [];
    }

    method AttemptUpgrade(migrations: seq<EncryptionConfig>, key: Key, rekey: Key, db: Database, envs: nat -> Env)
      returns (ok: bool)
      modifies this`log, db
      ensures var u := Upgrade(config, platform, migrations, key, rekey, old(db.disk), envs);
        ok == u.ok && db.disk == u.disk && log == old(log) + u.labels
    {
      hide Attempt, Upgrade;
      var i := |migrations|;
      assert migrations[..i] == migrations;
      while i > 0
        invariant 0 <= i <= |migrations|
        invariant var all := Upgrade(config, platform, migrations, key, rekey, old(db.disk), envs);
          var rest := Upgrade(config, platform, migrations[..i], key, rekey, db.disk, envs);
          all.ok == rest.ok && all.disk == rest.disk && old(log) + all.labels == log + rest.labels
      {
        UpgradeStep(config, platform, migrations, i, key, rekey, db.disk, envs);
        log := log + [i];
        var r := MakeAttempt(
          platform, config.properties, migrations[i - 1], key, config.encryption, Some(rekey), db, envs(i));
        if r == Ok(true) { return true; }
        i := i - 1;
      }
      UpgradeNone(config, platform, migrations, key, rekey, db.disk, envs);
      ok := false;
    }

    method CreateActual(key: Key, rekey: Option<Key>, db: Database, envs: nat -> Env) returns (r: Result<()>)
      modifies this, db
      ensures |old(log)| <= |log| && log[..|old(log)|] == old(log)
      ensures CreateResult(db.disk, hasOpened, r, log[|old(log)|..])
           == Create(config, platform, old(hasOpened), key, rekey, old(db.disk), envs)
    {
      hide Attempt, Upgrade;
      var first := MakeAttempt(
        platform, config.properties, config.encryption, key, config.encryption, rekey, db, envs(0));
      AttemptError(
        platform, config.properties, config.encryption, key, config.encryption, rekey, old(db.disk), envs(0));
      if first.Err? { return Err(first.kind); }
      if !first.value {
        if config.migrations.None? || hasOpened { return Err(IllegalState); }
        var ok := AttemptUpgrade(
          config.migrations.value, key, if rekey.Some? then rekey.value else key, db, envs);
        if !ok { return Err(MigrationsFailed); }
      }
      hasOpened := true;
      r := Ok(());
    }
  }

  lemma AttemptError(
      platform: Platform, properties: Entries, c: EncryptionConfig, key: Key, d: EncryptionConfig, rekey: Option<Key>,
      disk: Disk, env: Env)
    ensures var r := Attempt(platform, properties, c, key, d, rekey, disk, env);
      r.Err? ==> r == Err(IllegalArgument)
  {
    hide FirstConnection;
    KeyedHasKey(c, key, false);
    if rekey.Some? {
      KeyedHasKey(d, rekey.value, true);
    }
  }
}
