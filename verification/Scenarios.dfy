/** The repository's own rekey and migration scenarios, for every key on either platform. */
module Scenarios {
  import opened Wrappers
  import opened Ciphers
  import opened Keys
  import opened Engine
  import opened Protocol
  import opened Connections
  import opened JdbcProperties
  import opened Factory
  import opened Migrations
  import opened Creates
  import opened EngineKeys

  /** A key that reaches the engine, in the form in which it does. */
  ghost predicate Arrives(platform: Platform, key: Key, engineKey: Key) {
    IsKey(key) && IsPlatform(platform) && EngineKey(platform, key) == Some(engineKey)
  }

  /** One undisturbed `create` with keys that reach the engine. */
  lemma CreateWith(
      f: FactoryConfig, platform: Platform, hasOpened: bool, key: Key, k: Key, rekey: Option<Key>, r: Option<Key>,
      disk: Disk, envs: nat -> Env)
    requires ValidFactory(f) && Arrives(platform, key, k) && AllUndisturbed(envs)
    requires rekey.Some? <==> r.Some?
    requires rekey.Some? ==> Arrives(platform, rekey.value, r.value)
    requires Suits(k, f.encryption.Cipher()) && Suits(TargetKey(k, r), f.encryption.Cipher())
    ensures var result, current := Create(f, platform, hasOpened, key, rekey, disk, envs), Opens(f.encryption, k, disk);
      && (result.outcome.Ok? <==> current || (!hasOpened && SomeOpens(MigrationsOf(f), k, disk)))
      && (current || hasOpened ==> result.labels == [])
      && (!current && !hasOpened && f.migrations.Some? ==>
           |result.labels|
           == |MigrationsOf(f)| - if result.outcome.Ok? then LastOpening(MigrationsOf(f), k, disk) else 0)
      && (result.outcome.Ok? ==>
           result.disk.codec == CodecFor(f.encryption, TargetKey(k, r)) && result.disk.contents == disk.contents)
      && (result.outcome.Err? ==> result.disk == disk)
  {
    hide Create, CodecFor, Opens, EngineKey, SomeOpens;
    CreateOnEngine(f, platform, hasOpened, key, rekey, disk, envs);
    CreateIsExact(f, platform, hasOpened, k, r, disk, envs);
    CreateFlag(f, platform, hasOpened, key, rekey, disk, envs);
  }

  /**
   * Rekeying: a file that opens with one key is rekeyed to another and then opens with that one,
   * contents intact and without migrations; the old key opens it only if it is the same secret.
   */
  lemma RekeyScenario(
      f: FactoryConfig, platform: Platform, key: Key, k: Key, rekey: Key, r: Key, disk: Disk, envs: nat -> Env)
    requires ValidFactory(f) && Arrives(platform, key, k) && Arrives(platform, rekey, r) && AllUndisturbed(envs)
    requires Opens(f.encryption, k, disk) && Suits(r, f.encryption.Cipher())
    ensures var rekeyed := Create(f, platform, true, key, Some(rekey), disk, envs);
      var reopened := Create(f, platform, true, rekey, None, rekeyed.disk, envs);
      var retried := Create(f, platform, true, key, None, reopened.disk, envs);
      && rekeyed.outcome.Ok? && rekeyed.labels == []
      && reopened.outcome.Ok? && reopened.labels == []
      && reopened.disk.contents == disk.contents
      && (retried.outcome.Ok? <==> Secret(k, f.encryption.Cipher()) == Secret(r, f.encryption.Cipher()))
      && retried.disk.contents == disk.contents
  {
    hide Create, CodecFor, Secret, EngineKey;
    var c := f.encryption;
    CreateWith(f, platform, true, key, k, Some(rekey), Some(r), disk, envs);
    var rekeyed := Create(f, platform, true, key, Some(rekey), disk, envs);
    CreateWith(f, platform, true, rekey, r, None, None, rekeyed.disk, envs);
    var reopened := Create(f, platform, true, rekey, None, rekeyed.disk, envs);
    CreateWith(f, platform, true, key, k, None, None, reopened.disk, envs);
    KeysArriveWell(platform, key, k);
    KeysArriveWell(platform, rekey, r);
    SameCodec(c, k, c, r);
    EmptySecret(k, c.Cipher());
    EmptySecret(r, c.Cipher());
  }

  lemma KeysArriveWell(platform: Platform, key: Key, k: Key)
    requires Arrives(platform, key, k)
    ensures IsKey(k)
  {
    hide EngineKey;
    EngineKeyIsKey(platform, key);
  }

  lemma EmptySecret(k: Key, c: Cipher)
    requires IsKey(k)
    ensures Secret(k, c) == [] <==> k == EMPTY_KEY
  {
    if k.isRaw {
      assert |Secret(k, c)| >= |k.value| > 0;
    }
  }

  const SQLEET := EncryptionConfig(CHACHA20_SQLEET, true, false)
  const CHACHA := EncryptionConfig(CHACHA20_DEFAULT, true, false)
  const SQL_CIPHER := EncryptionConfig(SQLCIPHER_DEFAULT, true, false)

  /** The three configurations open one another's files for no key but the empty one. */
  lemma ThreeCodecs(k: Key)
    requires IsKey(k) && k != EMPTY_KEY
    ensures Usable(SQLEET, k) && Usable(CHACHA, k) && Usable(SQL_CIPHER, k)
    ensures CodecFor(SQLEET, k) != CodecFor(CHACHA, k)
    ensures CodecFor(SQLEET, k) != CodecFor(SQL_CIPHER, k)
    ensures CodecFor(CHACHA, k) != CodecFor(SQL_CIPHER, k)
  {
    hide CodecFor, Secret;
    SameCodec(SQLEET, k, CHACHA, k);
    SameCodec(SQLEET, k, SQL_CIPHER, k);
    SameCodec(CHACHA, k, SQL_CIPHER, k);
  }

  /** The factories of three releases, each with its predecessors as migrations. */
  function First(properties: Entries): FactoryConfig {
    FactoryConfig(SQLEET, None, properties)
  }

  function Second(properties: Entries): FactoryConfig {
    FactoryConfig(CHACHA, Some([SQLEET]), properties)
  }

  function Third(properties: Entries): FactoryConfig {
    FactoryConfig(SQL_CIPHER, Some([SQLEET, CHACHA]), properties)
  }

  /** The configuration that opens a file, by its position among the migrations. */
  lemma OnlyOneOpens(configs: seq<EncryptionConfig>, k: Key, disk: Disk, j: nat)
    requires j < |configs| && Opens(configs[j], k, disk)
    requires forall i :: 0 <= i < |configs| && i != j ==> !Opens(configs[i], k, disk)
    ensures SomeOpens(configs, k, disk) && LastOpening(configs, k, disk) == j
  {
    hide Opens;
  }

  /**
   * Migrating: the second release migrates the first one's file in one attempt, after which the
   * first release fails; the third one migrates it in one attempt more, after which a wrong key
   * fails without attempts, the right one opens, and the second release, having opened before,
   * fails without attempts. Contents are intact throughout.
   */
  lemma MigrationScenario(
      platform: Platform, properties: Entries, key: Key, k: Key, wrong: Key, w: Key, disk: Disk, envs: nat -> Env)
    requires Arrives(platform, key, k) && k != EMPTY_KEY && Arrives(platform, wrong, w) && AllUndisturbed(envs)
    requires disk.codec == CodecFor(SQLEET, k)
    requires CodecFor(SQL_CIPHER, w) != CodecFor(SQL_CIPHER, k)
    ensures var second := Create(Second(properties), platform, false, key, None, disk, envs);
      var third := Create(Third(properties), platform, false, key, None, second.disk, envs);
      && second.outcome.Ok? && |second.labels| == 1
      && Create(First(properties), platform, true, key, None, second.disk, envs).outcome.Err?
      && third.outcome.Ok? && |third.labels| == 1
      && third.disk.codec == CodecFor(SQL_CIPHER, k) && third.disk.contents == disk.contents
      && (var bad := Create(Third(properties), platform, true, wrong, None, third.disk, envs);
          bad.outcome.Err? && bad.labels == [] && bad.disk == third.disk)
      && (var good := Create(Third(properties), platform, true, key, None, third.disk, envs);
          good.outcome.Ok? && good.labels == [] && good.disk.contents == disk.contents)
      && (var late := Create(Second(properties), platform, true, key, None, third.disk, envs);
          late.outcome.Err? && late.labels == [] && late.disk == third.disk)
  {
    hide Create, CodecFor, EngineKey, SomeOpens;
    KeysArriveWell(platform, key, k);
    ThreeCodecs(k);
    OnlyOneOpens([SQLEET], k, disk, 0);
    CreateWith(Second(properties), platform, false, key, k, None, None, disk, envs);
    var second := Create(Second(properties), platform, false, key, None, disk, envs);
    CreateWith(First(properties), platform, true, key, k, None, None, second.disk, envs);
    OnlyOneOpens([SQLEET, CHACHA], k, second.disk, 1);
    CreateWith(Third(properties), platform, false, key, k, None, None, second.disk, envs);
    var third := Create(Third(properties), platform, false, key, None, second.disk, envs);
    CreateWith(Third(properties), platform, true, wrong, w, None, None, third.disk, envs);
    CreateWith(Third(properties), platform, true, key, k, None, None, third.disk, envs);
    CreateWith(Second(properties), platform, true, key, k, None, None, third.disk, envs);
  }
}
