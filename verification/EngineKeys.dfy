/** The factory given keys of any units, on either platform. */
module EngineKeys {
  import opened Wrappers
  import opened Ciphers
  import opened Keys
  import opened McPragmas
  import opened Statements
  import opened Engine
  import opened Protocol
  import opened Connections
  import opened JdbcProperties
  import opened NativeDriver
  import opened Refinement
  import opened EndToEnd
  import opened Factory
  import opened Migrations
  import opened Creates
  import opened Arrivals
  import opened WireKeys

  predicate IsPlatform(platform: Platform) {
    platform.Jvm? ==> IsKeyIdentifier(platform.keyIdentifier)
  }

  /** The key that the engine is given on a platform, if it arrives. */
  function EngineKey(platform: Platform, k: Key): Option<Key> {
    match ArrivalOf(platform.Jvm?, k) case Arrives(w) => Some(w) case _ => None
  }

  function EngineRekey(platform: Platform, rekey: Option<Key>): Option<Option<Key>> {
    match rekey
    case None => Some(None)
    case Some(k) => (match EngineKey(platform, k) case None => None case Some(w) => Some(Some(w)))
  }

  /** What is left of a rekey that is cut off. */
  function CutRekey(platform: Platform, rekey: Option<Key>): Option<Key> {
    match rekey
    case None => None
    case Some(k) => (match ArrivalOf(platform.Jvm?, k) case CutOff(w) => Some(w) case _ => None)
  }

  lemma EngineKeyIsKey(platform: Platform, k: Key)
    requires IsKey(k) && IsPlatform(platform) && EngineKey(platform, k).Some?
    ensures var w := EngineKey(platform, k).value;
      Carries(platform, w) && w.isRaw == k.isRaw && (forall c :: Suits(w, c) <==> Suits(k, c))
  {
    hide ArrivalOf, IsExactKey;
    ArrivalLiteral(platform.Jvm?, k, SQLCIPHER);
  }

  lemma TargetOnEngine(platform: Platform, key: Key, rekey: Option<Key>)
    requires EngineKey(platform, key).Some? && EngineRekey(platform, rekey).Some?
    ensures EngineKey(platform, TargetKey(key, rekey))
         == Some(TargetKey(EngineKey(platform, key).value, EngineRekey(platform, rekey).value))
  {
    hide ArrivalOf;
  }

  /** What is left of a rekey is a key that arrives as it is. */
  lemma CutRekeyArrives(platform: Platform, rekey: Option<Key>)
    requires (rekey.Some? ==> IsKey(rekey.value)) && IsPlatform(platform) && CutRekey(platform, rekey).Some?
    ensures var w := CutRekey(platform, rekey).value;
      Carries(platform, w) && !w.isRaw && EngineKey(platform, w) == Some(w)
  {
    hide ArrivalOf, IsExactKey;
    ArrivalLiteral(platform.Jvm?, rekey.value, SQLCIPHER);
    ArrivesAgain(platform.Jvm?, rekey.value);
  }

  /******* Attempts *******/

  /** An attempt is the first connection of its plan, with its statements as they are sent. */
  lemma AnyAttempt(
      platform: Platform, properties: Entries, c: EncryptionConfig, key: Key, d: EncryptionConfig, rekey: Option<Key>,
      disk: Disk, env: Env)
    requires PlanOf(c, key, d, rekey).Valid() && IsPlatform(platform)
    ensures Attempt(platform, properties, c, key, d, rekey, disk, env)
         == Ok(Connect(disk, SentList(platform.Jvm?, PlanOf(c, key, d, rekey).First()), env))
  {
    hide KeyedPragmas, Connect, WithKeyProps, NativeConnect, KeyList, RekeyList, JvmList, JvmReady, NativeReady;
    var plan := PlanOf(c, key, d, rekey);
    KeyedPragmasCompile(c, key, false);
    if rekey.Some? {
      KeyedPragmasCompile(d, rekey.value, true);
    }
    match platform {
      case Jvm(id) =>
        JvmFirst(plan, id, State(Some(plan.KeyMap()), plan.RekeyMap(), false, properties - {PASSWORD}), disk, env);
      case Native =>
        NativeFirst(plan, NativeState(plan.KeyMap(), plan.RekeyMap()), disk, env);
    }
  }

  /** Attempts with the same outcome for the file and for the factory. */
  predicate AttemptsAlike(a: Result<Connected>, b: Result<Connected>) {
    if a.Ok? then b.Ok? && Alike(a.value, b.value) else a == b
  }

  lemma AttemptOnEngine(
      platform: Platform, properties: Entries, c: EncryptionConfig, key: Key, d: EncryptionConfig, rekey: Option<Key>,
      disk: Disk, env: Env)
    requires c.Valid() && d.Valid() && AreKeys(key, rekey) && IsPlatform(platform)
    requires EngineKey(platform, key).Some? && EngineRekey(platform, rekey).Some?
    ensures AttemptsAlike(
      Attempt(platform, properties, c, key, d, rekey, disk, env),
      Attempt(platform, properties, c, EngineKey(platform, key).value,
              d, EngineRekey(platform, rekey).value, disk, env))
  {
    hide Attempt, ArrivalOf, Connect, KeyList, RekeyList, SentList, Carries;
    var k, r := EngineKey(platform, key).value, EngineRekey(platform, rekey).value;
    var plan, arrived := PlanOf(c, key, d, rekey), PlanOf(c, k, d, r);
    EngineKeyIsKey(platform, key);
    CarriesIsKey(platform, k);
    if rekey.Some? {
      EngineKeyIsKey(platform, rekey.value);
      CarriesIsKey(platform, r.value);
    }
    if plan.Valid() {
      AnyAttempt(platform, properties, c, key, d, rekey, disk, env);
      AttemptRuns(platform, properties, c, k, d, r, disk, env);
      WorkingFirst(platform.Jvm?, plan, disk, env);
    } else {
      AttemptFails(platform, properties, c, key, d, rekey, disk, env);
      AttemptFails(platform, properties, c, k, d, r, disk, env);
      AttemptError(platform, properties, c, key, d, rekey, disk, env);
      AttemptError(platform, properties, c, k, d, r, disk, env);
    }
  }

  lemma CarriesIsKey(platform: Platform, k: Key)
    requires Carries(platform, k)
    ensures IsKey(k)
  {}

  /** An attempt whose rekey is cut off, on a file that the configuration and key may open. */
  lemma AttemptCutOff(
      platform: Platform, properties: Entries, c: EncryptionConfig, key: Key, d: EncryptionConfig, rekey: Key,
      disk: Disk, env: Env)
    requires c.Valid() && d.Valid() && IsKey(key) && IsKey(rekey) && IsPlatform(platform)
    requires EngineKey(platform, key).Some? && CutRekey(platform, Some(rekey)).Some?
    ensures var attempt := Attempt(platform, properties, c, key, d, Some(rekey), disk, env);
      var k, w := EngineKey(platform, key).value, CutRekey(platform, Some(rekey)).value;
      var after := if attempt.Ok? then attempt.value.disk else disk;
      && (attempt.Ok? <==> Suits(key, c.Cipher()))
      && (attempt.Ok? ==> !attempt.value.ok)
      && after.contents == disk.contents
      && (after.codec == disk.codec || after.codec == CodecFor(d, w))
      && (!Opens(c, k, disk) ==> after == disk)
      && (Opens(c, k, disk) && Undisturbed(env) ==> after.codec == CodecFor(d, w))
  {
    hide Attempt, ArrivalOf, Connect, KeyList, RekeyList, SentList, Carries, CodecFor;
    EngineKeyIsKey(platform, key);
    ArrivalLiteral(platform.Jvm?, rekey, SQLCIPHER);
    var plan := PlanOf(c, key, d, Some(rekey));
    if Suits(key, c.Cipher()) {
      AnyAttempt(platform, properties, c, key, d, Some(rekey), disk, env);
      HalfwayFirst(platform.Jvm?, plan, disk, env);
    } else {
      AttemptFails(platform, properties, c, key, d, Some(rekey), disk, env);
    }
  }

  /** An attempt of which nothing comes. */
  lemma AttemptIdle(
      platform: Platform, properties: Entries, c: EncryptionConfig, key: Key, d: EncryptionConfig, rekey: Option<Key>,
      disk: Disk, env: Env)
    requires c.Valid() && d.Valid() && AreKeys(key, rekey) && IsPlatform(platform)
    requires EngineKey(platform, key).None? || (EngineRekey(platform, rekey).None? && CutRekey(platform, rekey).None?)
    ensures var attempt := Attempt(platform, properties, c, key, d, rekey, disk, env);
      attempt.Ok? ==> !attempt.value.ok && SameButWal(disk, attempt.value.disk)
  {
    hide Attempt, ArrivalOf, Connect, KeyList, RekeyList, SentList;
    var plan := PlanOf(c, key, d, rekey);
    if plan.Valid() {
      AnyAttempt(platform, properties, c, key, d, rekey, disk, env);
      IdleFirst(platform.Jvm?, plan, disk, env);
    } else {
      AttemptFails(platform, properties, c, key, d, rekey, disk, env);
    }
  }

  /******* Migrating *******/

  lemma {:induction false} UpgradeArriving(
      f: FactoryConfig, platform: Platform, migrations: seq<EncryptionConfig>, key: Key, rekey: Key,
      disk: Disk, envs: nat -> Env)
    requires AllValid(migrations) && f.encryption.Valid() && IsKey(key) && IsKey(rekey) && IsPlatform(platform)
    requires EngineKey(platform, key).Some? && EngineKey(platform, rekey).Some?
    ensures Upgrade(f, platform, migrations, key, rekey, disk, envs)
         == Upgrade(f, platform, migrations,
                    EngineKey(platform, key).value, EngineKey(platform, rekey).value, disk, envs)
    decreases |migrations|
  {
    hide Attempt, EngineKey;
    var n := |migrations|;
    if n > 0 {
      assert migrations[n - 1] in migrations;
      AttemptOnEngine(platform, f.properties, migrations[n - 1], key, f.encryption, Some(rekey), disk, envs(n));
      var attempt := Attempt(platform, f.properties, migrations[n - 1], key, f.encryption, Some(rekey), disk, envs(n));
      UpgradeArriving(
        f, platform, migrations[..n - 1], key, rekey, if attempt.Ok? then attempt.value.disk else disk, envs);
    }
  }

  /** The loop in vain, though the file may end under what is left of the rekey. */
  ghost predicate IsCutOffUpgrade(
      f: FactoryConfig, migrations: seq<EncryptionConfig>, key: Key, cut: Key, disk: Disk, undisturbed: bool,
      u: UpgradeResult)
  {
    && !u.ok
    && u.disk.contents == disk.contents
    && (u.disk.codec == disk.codec || u.disk.codec == CodecFor(f.encryption, cut))
    && (!SomeOpens(migrations, key, disk) ==> u.disk == disk)
    && (undisturbed && SomeOpens(migrations, key, disk) ==> u.disk.codec == CodecFor(f.encryption, cut))
    && |u.labels| == |migrations|
  }

  lemma {:induction false} UpgradeCutOff(
      f: FactoryConfig, platform: Platform, migrations: seq<EncryptionConfig>, key: Key, rekey: Key,
      disk: Disk, envs: nat -> Env)
    requires AllValid(migrations) && f.encryption.Valid() && IsKey(key) && IsKey(rekey) && IsPlatform(platform)
    requires EngineKey(platform, key).Some? && CutRekey(platform, Some(rekey)).Some?
    ensures IsCutOffUpgrade(
      f, migrations, EngineKey(platform, key).value, CutRekey(platform, Some(rekey)).value, disk, AllUndisturbed(envs),
      Upgrade(f, platform, migrations, key, rekey, disk, envs))
    decreases |migrations|
  {
    hide Attempt, EngineKey, CutRekey, Opens, CodecFor;
    var n := |migrations|;
    if n > 0 {
      var k := EngineKey(platform, key).value;
      assert migrations[n - 1] in migrations;
      assert AllUndisturbed(envs) ==> Undisturbed(envs(n));
      AttemptCutOff(platform, f.properties, migrations[n - 1], key, f.encryption, rekey, disk, envs(n));
      var attempt := Attempt(platform, f.properties, migrations[n - 1], key, f.encryption, Some(rekey), disk, envs(n));
      var after := if attempt.Ok? then attempt.value.disk else disk;
      UpgradeCutOff(f, platform, migrations[..n - 1], key, rekey, after, envs);
      SomeOpensLast(migrations, k, disk);
    }
  }

  lemma {:induction false} UpgradeIdle(
      f: FactoryConfig, platform: Platform, migrations: seq<EncryptionConfig>, key: Key, rekey: Key,
      disk: Disk, envs: nat -> Env)
    requires AllValid(migrations) && f.encryption.Valid() && IsKey(key) && IsKey(rekey) && IsPlatform(platform)
    requires EngineKey(platform, key).None?
          || (EngineKey(platform, rekey).None? && CutRekey(platform, Some(rekey)).None?)
          || !Suits(rekey, f.encryption.Cipher())
    ensures var u := Upgrade(f, platform, migrations, key, rekey, disk, envs);
      !u.ok && SameButWal(disk, u.disk) && |u.labels| == |migrations|
    decreases |migrations|
  {
    hide Attempt, EngineKey, CutRekey;
    var n := |migrations|;
    if n > 0 {
      assert migrations[n - 1] in migrations;
      if Suits(rekey, f.encryption.Cipher()) {
        AttemptIdle(platform, f.properties, migrations[n - 1], key, f.encryption, Some(rekey), disk, envs(n));
      } else {
        AttemptFails(platform, f.properties, migrations[n - 1], key, f.encryption, Some(rekey), disk, envs(n));
      }
      var attempt := Attempt(platform, f.properties, migrations[n - 1], key, f.encryption, Some(rekey), disk, envs(n));
      UpgradeIdle(f, platform, migrations[..n - 1], key, rekey, if attempt.Ok? then attempt.value.disk else disk, envs);
    }
  }

  /**
   * The migration loop, for every key: as safe, and when nothing disturbs it as exact, as it is
   * for the keys that arrive. If the target key is cut off it fails, and the file ends under what
   * is left of that key if some migration opens it. If a key is lost, or the target does not suit,
   * it fails without a change of encryption.
   */
  ghost predicate UpgradeFits(
      f: FactoryConfig, platform: Platform, migrations: seq<EncryptionConfig>, key: Key, rekey: Key,
      disk: Disk, undisturbed: bool, u: UpgradeResult)
  {
    match EngineKey(platform, key)
    case Some(k) =>
      if EngineKey(platform, rekey).Some? && Suits(rekey, f.encryption.Cipher()) then
        var r := EngineKey(platform, rekey).value;
        && IsSafeUpgrade(f, migrations, k, r, disk, u)
        && (undisturbed ==> IsExactUpgrade(f, migrations, k, r, disk, u))
      else if CutRekey(platform, Some(rekey)).Some? then
        IsCutOffUpgrade(f, migrations, k, CutRekey(platform, Some(rekey)).value, disk, undisturbed, u)
      else !u.ok && SameButWal(disk, u.disk)
    case None => !u.ok && SameButWal(disk, u.disk)
  }

  lemma EveryUpgrade(
      f: FactoryConfig, platform: Platform, migrations: seq<EncryptionConfig>, key: Key, rekey: Key,
      disk: Disk, envs: nat -> Env)
    requires AllValid(migrations) && f.encryption.Valid() && IsKey(key) && IsKey(rekey) && IsPlatform(platform)
    ensures UpgradeFits(f, platform, migrations, key, rekey, disk, AllUndisturbed(envs),
                        Upgrade(f, platform, migrations, key, rekey, disk, envs))
  {
    hide Upgrade, ArrivalOf, IsSafeUpgrade, IsExactUpgrade, IsCutOffUpgrade, AllUndisturbed, Carries;
    if EngineKey(platform, key).Some? && EngineKey(platform, rekey).Some? && Suits(rekey, f.encryption.Cipher()) {
      var k, r := EngineKey(platform, key).value, EngineKey(platform, rekey).value;
      EngineKeyIsKey(platform, key);
      EngineKeyIsKey(platform, rekey);
      CarriesIsKey(platform, r);
      UpgradeArriving(f, platform, migrations, key, rekey, disk, envs);
      UpgradeIsSafe(f, platform, migrations, k, r, disk, envs);
      if AllUndisturbed(envs) {
        UpgradeIsExact(f, platform, migrations, k, r, disk, envs);
      }
    } else if EngineKey(platform, key).Some? && CutRekey(platform, Some(rekey)).Some? {
      UpgradeCutOff(f, platform, migrations, key, rekey, disk, envs);
    } else {
      UpgradeIdle(f, platform, migrations, key, rekey, disk, envs);
    }
  }

  /** The outcome does not depend on the order in which migrations are declared, for any key. */
  lemma EveryUpgradeIgnoresOrder(
      f: FactoryConfig, platform: Platform, a: seq<EncryptionConfig>, b: seq<EncryptionConfig>, key: Key, rekey: Key,
      disk: Disk, envs: nat -> Env)
    requires AllValid(a) && AllValid(b) && f.encryption.Valid() && IsKey(key) && IsKey(rekey) && IsPlatform(platform)
    requires AllUndisturbed(envs) && forall c :: c in a <==> c in b
    ensures var u := Upgrade(f, platform, a, key, rekey, disk, envs);
      var v := Upgrade(f, platform, b, key, rekey, disk, envs);
      u.ok == v.ok && u.disk.codec == v.disk.codec && u.disk.contents == v.disk.contents
  {
    hide Upgrade, ArrivalOf, AllUndisturbed, Opens, SomeOpens, CodecFor, EngineKey, CutRekey, LastOpening;
    EveryUpgrade(f, platform, a, key, rekey, disk, envs);
    EveryUpgrade(f, platform, b, key, rekey, disk, envs);
    if EngineKey(platform, key).Some? {
      var k := EngineKey(platform, key).value;
      if SomeOpens(a, k, disk) {
        SameConfigsOpen(a, b, k, disk);
      }
      if SomeOpens(b, k, disk) {
        SameConfigsOpen(b, a, k, disk);
      }
    }
  }

  /******* Creating *******/

  lemma CreateArriving(
      f: FactoryConfig, platform: Platform, hasOpened: bool, key: Key, rekey: Option<Key>,
      disk: Disk, envs: nat -> Env)
    requires ValidFactory(f) && AreKeys(key, rekey) && IsPlatform(platform)
    requires EngineKey(platform, key).Some? && EngineRekey(platform, rekey).Some?
    ensures CarriesBoth(platform, EngineKey(platform, key).value, EngineRekey(platform, rekey).value)
    ensures Create(f, platform, hasOpened, key, rekey, disk, envs)
         == Create(f, platform, hasOpened,
                   EngineKey(platform, key).value, EngineRekey(platform, rekey).value, disk, envs)
  {
    hide Attempt, ArrivalOf, Upgrade, Carries;
    EngineKeyIsKey(platform, key);
    if rekey.Some? {
      EngineKeyIsKey(platform, rekey.value);
    }
    AttemptOnEngine(platform, f.properties, f.encryption, key, f.encryption, rekey, disk, envs(0));
    var attempt := Attempt(platform, f.properties, f.encryption, key, f.encryption, rekey, disk, envs(0));
    if attempt.Ok? && f.migrations.Some? {
      UpgradeArriving(f, platform, f.migrations.value, key, TargetKey(key, rekey), attempt.value.disk, envs);
    }
  }

  /** A `create` in vain, though the file may end under what is left of the rekey. */
  ghost predicate IsCutOffCreate(
      f: FactoryConfig, hasOpened: bool, key: Key, cut: Key, disk: Disk, undisturbed: bool, r: CreateResult)
  {
    var c := f.encryption;
    && r.outcome.Err? && r.hasOpened == hasOpened
    && r.disk.contents == disk.contents
    && (r.disk.codec == disk.codec || r.disk.codec == CodecFor(c, cut))
    && (!FactoryOpens(f, key, disk) ==> r.disk == disk)
    && (undisturbed && Suits(key, c.Cipher())
        && (Opens(c, key, disk) || (!hasOpened && SomeOpens(MigrationsOf(f), key, disk))) ==>
         r.disk.codec == CodecFor(c, cut))
  }

  lemma CreateCutOff(
      f: FactoryConfig, platform: Platform, hasOpened: bool, key: Key, rekey: Key, disk: Disk, envs: nat -> Env)
    requires ValidFactory(f) && IsKey(key) && IsKey(rekey) && IsPlatform(platform)
    requires EngineKey(platform, key).Some? && CutRekey(platform, Some(rekey)).Some?
    ensures IsCutOffCreate(
      f, hasOpened, EngineKey(platform, key).value, CutRekey(platform, Some(rekey)).value, disk, AllUndisturbed(envs),
      Create(f, platform, hasOpened, key, Some(rekey), disk, envs))
  {
    hide Attempt, EngineKey, CutRekey, Upgrade, Opens, CodecFor, SomeOpens;
    EngineSuits(platform, key);
    CreateFlag(f, platform, hasOpened, key, Some(rekey), disk, envs);
    assert AllUndisturbed(envs) ==> Undisturbed(envs(0));
    AttemptCutOff(platform, f.properties, f.encryption, key, f.encryption, rekey, disk, envs(0));
    var attempt := Attempt(platform, f.properties, f.encryption, key, f.encryption, Some(rekey), disk, envs(0));
    if attempt.Ok? && f.migrations.Some? {
      UpgradeCutOff(f, platform, f.migrations.value, key, rekey, attempt.value.disk, envs);
    }
    NothingOpens(EngineKey(platform, key).value, disk);
  }

  lemma EngineSuits(platform: Platform, k: Key)
    requires IsKey(k) && IsPlatform(platform) && EngineKey(platform, k).Some?
    ensures forall c :: Suits(EngineKey(platform, k).value, c) <==> Suits(k, c)
  {
    hide EngineKey;
    EngineKeyIsKey(platform, k);
  }

  lemma NothingOpens(key: Key, disk: Disk)
    ensures !SomeOpens([], key, disk)
  {}

  lemma CreateIdle(
      f: FactoryConfig, platform: Platform, hasOpened: bool, key: Key, rekey: Option<Key>,
      disk: Disk, envs: nat -> Env)
    requires ValidFactory(f) && AreKeys(key, rekey) && IsPlatform(platform)
    requires EngineKey(platform, key).None? || (EngineRekey(platform, rekey).None? && CutRekey(platform, rekey).None?)
    ensures var r := Create(f, platform, hasOpened, key, rekey, disk, envs);
      r.outcome.Err? && r.hasOpened == hasOpened && SameButWal(disk, r.disk)
  {
    hide Attempt, ArrivalOf, Upgrade;
    CreateFlag(f, platform, hasOpened, key, rekey, disk, envs);
    AttemptIdle(platform, f.properties, f.encryption, key, f.encryption, rekey, disk, envs(0));
    var attempt := Attempt(platform, f.properties, f.encryption, key, f.encryption, rekey, disk, envs(0));
    if attempt.Ok? && f.migrations.Some? {
      UpgradeIdle(f, platform, f.migrations.value, key, TargetKey(key, rekey), attempt.value.disk, envs);
    }
  }

  /** A `create` on either platform, by what becomes of its keys. */
  lemma CreateOnEngine(
      f: FactoryConfig, platform: Platform, hasOpened: bool, key: Key, rekey: Option<Key>,
      disk: Disk, envs: nat -> Env)
    requires ValidFactory(f) && AreKeys(key, rekey) && IsPlatform(platform)
    ensures var r := Create(f, platform, hasOpened, key, rekey, disk, envs);
      if EngineKey(platform, key).Some? && EngineRekey(platform, rekey).Some? then
        var k, rk := EngineKey(platform, key).value, EngineRekey(platform, rekey).value;
        CarriesBoth(platform, k, rk) && r == Create(f, platform, hasOpened, k, rk, disk, envs)
      else if EngineKey(platform, key).Some? && CutRekey(platform, rekey).Some? then
        IsCutOffCreate(f, hasOpened, EngineKey(platform, key).value, CutRekey(platform, rekey).value, disk,
                       AllUndisturbed(envs), r)
      else r.outcome.Err? && r.hasOpened == hasOpened && SameButWal(disk, r.disk)
  {
    hide Create, EngineKey, ArrivalOf, IsCutOffCreate, AllUndisturbed, CarriesBoth;
    if EngineKey(platform, key).Some? && EngineRekey(platform, rekey).Some? {
      CreateArriving(f, platform, hasOpened, key, rekey, disk, envs);
    } else if EngineKey(platform, key).Some? && CutRekey(platform, rekey).Some? {
      CreateCutOff(f, platform, hasOpened, key, rekey.value, disk, envs);
    } else {
      CreateIdle(f, platform, hasOpened, key, rekey, disk, envs);
    }
  }

  /** One `create`, for every key: safe under any faults, and exact when nothing disturbs it. */
  lemma EveryCreate(
      f: FactoryConfig, platform: Platform, hasOpened: bool, key: Key, rekey: Option<Key>,
      disk: Disk, envs: nat -> Env)
    requires ValidFactory(f) && AreKeys(key, rekey) && IsPlatform(platform)
    ensures var r := Create(f, platform, hasOpened, key, rekey, disk, envs);
      if EngineKey(platform, key).Some? && EngineRekey(platform, rekey).Some? then
        var k, rk := EngineKey(platform, key).value, EngineRekey(platform, rekey).value;
        && IsSafeCreate(f, hasOpened, k, rk, disk, r)
        && (AllUndisturbed(envs) ==> IsExactCreate(f, hasOpened, k, rk, disk, r))
      else if EngineKey(platform, key).Some? && CutRekey(platform, rekey).Some? then
        IsCutOffCreate(f, hasOpened, EngineKey(platform, key).value, CutRekey(platform, rekey).value, disk,
                       AllUndisturbed(envs), r)
      else r.outcome.Err? && r.hasOpened == hasOpened && SameButWal(disk, r.disk)
  {
    hide Create, EngineKey, EngineRekey, CutRekey, IsSafeCreate, IsExactCreate, IsCutOffCreate, AllUndisturbed,
      CarriesBoth, SameButWal;
    CreateOnEngine(f, platform, hasOpened, key, rekey, disk, envs);
    if EngineKey(platform, key).Some? && EngineRekey(platform, rekey).Some? {
      var k, rk := EngineKey(platform, key).value, EngineRekey(platform, rekey).value;
      CreateIsSafe(f, platform, hasOpened, k, rk, disk, envs);
      if AllUndisturbed(envs) {
        CreateIsExact(f, platform, hasOpened, k, rk, disk, envs);
      }
    }
  }
}
