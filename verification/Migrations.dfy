/** What `create` and the migration loop do to the database file. */
module Migrations {
  import opened Wrappers
  import opened Ciphers
  import opened Keys
  import opened McPragmas
  import opened Statements
  import opened Engine
  import opened Protocol
  import opened Connections
  import opened JdbcProperties
  import opened NativeDriver
  import opened Refinement
  import opened EndToEnd
  import opened Factory

  /** A configuration opens a file with a key. */
  predicate Opens(c: EncryptionConfig, key: Key, disk: Disk) {
    Suits(key, c.Cipher()) && CodecFor(c, key) == disk.codec
  }

  /** A platform on which a key reaches the engine as it is. */
  predicate Carries(platform: Platform, key: Key) {
    IsKey(key) && IsWhole(key) && (platform.Jvm? ==> IsKeyIdentifier(platform.keyIdentifier) && IsExactKey(key))
  }

  predicate AllValid(configs: seq<EncryptionConfig>) {
    forall c :: c in configs ==> c.Valid()
  }

  ghost predicate AllUndisturbed(envs: nat -> Env) {
    forall n :: Undisturbed(envs(n))
  }

  function PlanOf(c: EncryptionConfig, key: Key, d: EncryptionConfig, rekey: Option<Key>): Plan {
    if rekey.None? then Open(c, key) else OpenAndRekey(c, key, d, rekey.value)
  }

  /** An attempt is the first connection of its plan, whatever the platform. */
  lemma AttemptRuns(
      platform: Platform, properties: Entries, c: EncryptionConfig, key: Key, d: EncryptionConfig, rekey: Option<Key>,
      disk: Disk, env: Env)
    requires PlanOf(c, key, d, rekey).Valid()
    requires Carries(platform, key) && (rekey.Some? ==> Carries(platform, rekey.value))
    ensures Attempt(platform, properties, c, key, d, rekey, disk, env)
         == Ok(Connect(disk, PlanOf(c, key, d, rekey).First(), env))
  {
    hide KeyedPragmas, Connect, WithKeyProps, NativeConnect, KeyList, RekeyList, JvmList, JvmReady, NativeReady;
    var plan := PlanOf(c, key, d, rekey);
    KeyedPragmasCompile(c, key, false);
    if rekey.Some? {
      KeyedPragmasCompile(d, rekey.value, true);
    }
    match platform {
      case Jvm(id) =>
        var s := State(Some(plan.KeyMap()), plan.RekeyMap(), false, properties - {PASSWORD});
        JvmFirst(plan, id, s, disk, env);
        PlanExact(plan);
      case Native =>
        NativeFirst(plan, NativeState(plan.KeyMap(), plan.RekeyMap()), disk, env);
    }
  }

  lemma AttemptFails(
      platform: Platform, properties: Entries, c: EncryptionConfig, key: Key, d: EncryptionConfig, rekey: Option<Key>,
      disk: Disk, env: Env)
    requires c.Valid() && d.Valid() && IsKey(key) && (rekey.Some? ==> IsKey(rekey.value))
    requires !PlanOf(c, key, d, rekey).Valid()
    ensures Attempt(platform, properties, c, key, d, rekey, disk, env).Err?
  {
    hide KeyedPragmas, FirstConnection;
    KeyedPragmasCompile(c, key, false);
    if rekey.Some? {
      KeyedPragmasCompile(d, rekey.value, true);
    }
  }

  /** One migration attempt: safe whatever happens, and exact when nothing disturbs it. */
  lemma MigrationAttempt(
      platform: Platform, properties: Entries, m: EncryptionConfig, key: Key, current: EncryptionConfig, rekey: Key,
      disk: Disk, env: Env)
    requires m.Valid() && Usable(current, rekey) && Carries(platform, key) && Carries(platform, rekey)
    ensures var attempt := Attempt(platform, properties, m, key, current, Some(rekey), disk, env);
      var ok, after := attempt.Ok? && attempt.value.ok, if attempt.Ok? then attempt.value.disk else disk;
      && after.contents == disk.contents
      && (after.codec == disk.codec || after.codec == CodecFor(current, rekey))
      && (ok ==> after.codec == CodecFor(current, rekey))
      && (!Opens(m, key, disk) ==> !ok && after == disk)
      && (Opens(m, key, disk) && Undisturbed(env) ==> ok)
  {
    hide Attempt, CodecFor, KeyList, RekeyList, Connect;
    var plan := OpenAndRekey(m, key, current, rekey);
    if Suits(key, m.Cipher()) {
      AttemptRuns(platform, properties, m, key, current, Some(rekey), disk, env);
      FirstIsSafe(plan, disk, disk, env);
    } else {
      AttemptFails(platform, properties, m, key, current, Some(rekey), disk, env);
    }
  }

  /** Some of these configurations opens the file. */
  ghost predicate SomeOpens(configs: seq<EncryptionConfig>, key: Key, disk: Disk) {
    exists i :: 0 <= i < |configs| && Opens(configs[i], key, disk)
  }

  /**
   * The migration loop under any faults: contents stay, the encryption is the old or the target,
   * success means the target, a key that opens none of the migrations changes nothing, and the
   * attempts are numbered downwards from the last declared one.
   */
  ghost predicate IsSafeUpgrade(
      f: FactoryConfig, migrations: seq<EncryptionConfig>, key: Key, rekey: Key, disk: Disk, u: UpgradeResult)
  {
    && u.disk.contents == disk.contents
    && (u.disk.codec == disk.codec || u.disk.codec == CodecFor(f.encryption, rekey))
    && (u.ok ==> u.disk.codec == CodecFor(f.encryption, rekey))
    && (!SomeOpens(migrations, key, disk) ==> !u.ok && u.disk == disk)
    && |u.labels| <= |migrations|
    && forall i :: 0 <= i < |u.labels| ==> u.labels[i] == |migrations| - i
  }

  lemma {:induction false} UpgradeIsSafe(
      f: FactoryConfig, platform: Platform, migrations: seq<EncryptionConfig>, key: Key, rekey: Key,
      disk: Disk, envs: nat -> Env)
    requires AllValid(migrations) && Usable(f.encryption, rekey)
    requires Carries(platform, key) && Carries(platform, rekey)
    ensures IsSafeUpgrade(
      f, migrations, key, rekey, disk, Upgrade(f, platform, migrations, key, rekey, disk, envs))
    decreases |migrations|
  {
    hide Attempt, CodecFor, Opens;
    var n := |migrations|;
    if n > 0 {
      assert migrations[n - 1] in migrations;
      MigrationAttempt(platform, f.properties, migrations[n - 1], key, f.encryption, rekey, disk, envs(n));
      var attempt := Attempt(platform, f.properties, migrations[n - 1], key, f.encryption, Some(rekey), disk, envs(n));
      var after := if attempt.Ok? then attempt.value.disk else disk;
      UpgradeIsSafe(f, platform, migrations[..n - 1], key, rekey, after, envs);
      SomeOpensLast(migrations, key, disk);
    }
  }

  lemma SomeOpensLast(configs: seq<EncryptionConfig>, key: Key, disk: Disk)
    requires |configs| > 0
    ensures SomeOpens(configs, key, disk) <==>
      Opens(configs[|configs| - 1], key, disk) || SomeOpens(configs[..|configs| - 1], key, disk)
  {
    hide Opens;
    var init := configs[..|configs| - 1];
    if SomeOpens(configs, key, disk) {
      var i :| 0 <= i < |configs| && Opens(configs[i], key, disk);
      assert i < |init| ==> init[i] == configs[i];
    }
    if SomeOpens(init, key, disk) {
      var i :| 0 <= i < |init| && Opens(init[i], key, disk);
      assert init[i] == configs[i];
    }
  }

  /** The position of the last configuration that opens the file, or -1. */
  function LastOpening(configs: seq<EncryptionConfig>, key: Key, disk: Disk): (j: int)
    ensures -1 <= j < |configs|
    ensures 0 <= j ==> Opens(configs[j], key, disk)
    ensures forall i :: j < i < |configs| ==> !Opens(configs[i], key, disk)
    decreases |configs|
  {
    hide Opens;
    if configs == [] then -1
    else if Opens(configs[|configs| - 1], key, disk) then |configs| - 1
    else
      var j := LastOpening(configs[..|configs| - 1], key, disk);
      assert forall i :: j < i < |configs| - 1 ==> configs[..|configs| - 1][i] == configs[i];
      j
  }

  /**
   * Exactness of the migration loop when nothing disturbs it: it succeeds if and only if some
   * declared migration opens the file, after exactly `n - j` attempts where `j` is the last such
   * position; otherwise it tries all of them and leaves the file as it was.
   */
  ghost predicate IsExactUpgrade(
      f: FactoryConfig, migrations: seq<EncryptionConfig>, key: Key, rekey: Key, disk: Disk, u: UpgradeResult)
  {
    var j := LastOpening(migrations, key, disk);
    && (u.ok <==> SomeOpens(migrations, key, disk))
    && (u.ok <==> 0 <= j)
    && |u.labels| == (if u.ok then |migrations| - j else |migrations|)
    && (forall i :: 0 <= i < |u.labels| ==> u.labels[i] == |migrations| - i)
    && u.disk.contents == disk.contents
    && (if u.ok then u.disk.codec == CodecFor(f.encryption, rekey) else u.disk == disk)
  }

  lemma {:induction false} UpgradeIsExact(
      f: FactoryConfig, platform: Platform, migrations: seq<EncryptionConfig>, key: Key, rekey: Key,
      disk: Disk, envs: nat -> Env)
    requires AllValid(migrations) && Usable(f.encryption, rekey)
    requires Carries(platform, key) && Carries(platform, rekey) && AllUndisturbed(envs)
    ensures IsExactUpgrade(
      f, migrations, key, rekey, disk, Upgrade(f, platform, migrations, key, rekey, disk, envs))
    decreases |migrations|
  {
    hide Attempt, CodecFor, Opens;
    var n := |migrations|;
    if n > 0 {
      assert migrations[n - 1] in migrations;
      assert Undisturbed(envs(n));
      MigrationAttempt(platform, f.properties, migrations[n - 1], key, f.encryption, rekey, disk, envs(n));
      if !Opens(migrations[n - 1], key, disk) {
        UpgradeIsExact(f, platform, migrations[..n - 1], key, rekey, disk, envs);
      }
      SomeOpensLast(migrations, key, disk);
    }
  }

  /** The outcome does not depend on the order in which migrations are declared. */
  lemma UpgradeIgnoresOrder(
      f: FactoryConfig, platform: Platform, a: seq<EncryptionConfig>, b: seq<EncryptionConfig>, key: Key, rekey: Key,
      disk: Disk, envs: nat -> Env)
    requires AllValid(a) && AllValid(b) && Usable(f.encryption, rekey)
    requires Carries(platform, key) && Carries(platform, rekey) && AllUndisturbed(envs)
    requires forall c :: c in a <==> c in b
    ensures var u := Upgrade(f, platform, a, key, rekey, disk, envs);
      var v := Upgrade(f, platform, b, key, rekey, disk, envs);
      u.ok == v.ok && u.disk.codec == v.disk.codec && u.disk.contents == v.disk.contents
  {
    hide Upgrade, CodecFor, Opens;
    UpgradeIsExact(f, platform, a, key, rekey, disk, envs);
    UpgradeIsExact(f, platform, b, key, rekey, disk, envs);
    if SomeOpens(a, key, disk) {
      SameConfigsOpen(a, b, key, disk);
    }
    if SomeOpens(b, key, disk) {
      SameConfigsOpen(b, a, key, disk);
    }
  }

  lemma SameConfigsOpen(a: seq<EncryptionConfig>, b: seq<EncryptionConfig>, key: Key, disk: Disk)
    requires forall c :: c in a ==> c in b
    requires SomeOpens(a, key, disk)
    ensures SomeOpens(b, key, disk)
  {
    hide Opens;
    var i :| 0 <= i < |a| && Opens(a[i], key, disk);
    assert a[i] in b;
    var k :| 0 <= k < |b| && b[k] == a[i];
  }
}
