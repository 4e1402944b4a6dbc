/** One `create` of a factory, and any sequence of them. */
module Creates {
  import opened Wrappers
  import opened Ciphers
  import opened Keys
  import opened McPragmas
  import opened Statements
  import opened Engine
  import opened Protocol
  import opened Connections
  import opened EndToEnd
  import opened Factory
  import opened Migrations

  function TargetKey(key: Key, rekey: Option<Key>): Key {
    if rekey.Some? then rekey.value else key
  }

  predicate ValidFactory(f: FactoryConfig) {
    f.encryption.Valid() && (f.migrations.Some? ==> AllValid(f.migrations.value))
  }

  function MigrationsOf(f: FactoryConfig): seq<EncryptionConfig> {
    if f.migrations.Some? then f.migrations.value else []
  }

  /** The key opens the file under the factory's current configuration or one of its migrations. */
  ghost predicate FactoryOpens(f: FactoryConfig, key: Key, disk: Disk) {
    Opens(f.encryption, key, disk) || SomeOpens(MigrationsOf(f), key, disk)
  }

  predicate CarriesBoth(platform: Platform, key: Key, rekey: Option<Key>) {
    Carries(platform, key) && (rekey.Some? ==> Carries(platform, rekey.value))
  }

  /** The first attempt of `create`, with the current configuration. */
  lemma CurrentAttempt(
      f: FactoryConfig, platform: Platform, key: Key, rekey: Option<Key>, disk: Disk, env: Env)
    requires ValidFactory(f) && CarriesBoth(platform, key, rekey)
    ensures var c, target := f.encryption, TargetKey(key, rekey);
      var attempt := Attempt(platform, f.properties, c, key, c, rekey, disk, env);
      && (attempt.Ok? <==> Suits(key, c.Cipher()) && Suits(target, c.Cipher()))
      && (attempt.Ok? ==>
           && attempt.value.disk.contents == disk.contents
           && (attempt.value.disk.codec == disk.codec || attempt.value.disk.codec == CodecFor(c, target))
           && (attempt.value.ok ==> attempt.value.disk.codec == CodecFor(c, target))
           && (!Opens(c, key, disk) ==> !attempt.value.ok && attempt.value.disk == disk)
           && (Opens(c, key, disk) && Undisturbed(env) ==> attempt.value.ok))
  {
    hide Attempt, CodecFor, KeyList, RekeyList, Connect;
    var c := f.encryption;
    var plan := PlanOf(c, key, c, rekey);
    if plan.Valid() {
      AttemptRuns(platform, f.properties, c, key, c, rekey, disk, env);
      FirstIsSafe(plan, disk, disk, env);
    } else {
      AttemptFails(platform, f.properties, c, key, c, rekey, disk, env);
    }
  }

  /**
   * One `create` under any faults. Contents stay; the encryption is the old one or the current
   * configuration's under the target key; success means the latter; and a key that opens the
   * file in no declared way neither succeeds nor changes anything.
   */
  ghost predicate IsSafeCreate(
      f: FactoryConfig, hasOpened: bool, key: Key, rekey: Option<Key>, disk: Disk, r: CreateResult)
  {
    var c, target := f.encryption, TargetKey(key, rekey);
    && r.disk.contents == disk.contents
    && (r.disk.codec == disk.codec || (Suits(target, c.Cipher()) && r.disk.codec == CodecFor(c, target)))
    && (r.outcome.Ok? ==> Suits(target, c.Cipher()) && r.disk.codec == CodecFor(c, target))
    && (!FactoryOpens(f, key, disk) ==> r.outcome.Err? && r.disk == disk)
    && (r.hasOpened <==> hasOpened || r.outcome.Ok?)
    && (hasOpened ==> r.labels == [])
    && (hasOpened && !Opens(c, key, disk) ==> r.disk == disk)
  }

  lemma CreateIsSafe(
      f: FactoryConfig, platform: Platform, hasOpened: bool, key: Key, rekey: Option<Key>,
      disk: Disk, envs: nat -> Env)
    requires ValidFactory(f) && CarriesBoth(platform, key, rekey)
    ensures IsSafeCreate(f, hasOpened, key, rekey, disk, Create(f, platform, hasOpened, key, rekey, disk, envs))
  {
    hide Attempt, CodecFor, Upgrade, Opens;
    var c, target := f.encryption, TargetKey(key, rekey);
    CurrentAttempt(f, platform, key, rekey, disk, envs(0));
    var attempt := Attempt(platform, f.properties, c, key, c, rekey, disk, envs(0));
    if attempt.Ok? && !attempt.value.ok && f.migrations.Some? {
      UpgradeIsSafe(f, platform, f.migrations.value, key, target, attempt.value.disk, envs);
    }
  }

  /** One undisturbed `create`: when it succeeds, and after how many migration attempts. */
  ghost predicate IsExactCreate(
      f: FactoryConfig, hasOpened: bool, key: Key, rekey: Option<Key>, disk: Disk, r: CreateResult)
  {
    var c, target := f.encryption, TargetKey(key, rekey);
    var suited := Suits(key, c.Cipher()) && Suits(target, c.Cipher());
    && (r.outcome.Ok? <==>
         suited && (Opens(c, key, disk) || (!hasOpened && SomeOpens(MigrationsOf(f), key, disk))))
    && (!suited ==> r.outcome == Err(IllegalArgument) && r.labels == [])
    && (suited && r.outcome.Err? ==>
         r.outcome == Err(if f.migrations.None? || hasOpened then IllegalState else MigrationsFailed))
    && (suited && Opens(c, key, disk) ==> r.labels == [])
    && (suited && !Opens(c, key, disk) && !hasOpened && f.migrations.Some? ==>
         |r.labels| == |MigrationsOf(f)|
           - if r.outcome.Ok? then LastOpening(MigrationsOf(f), key, disk) else 0)
    && (if r.outcome.Ok? then r.disk.codec == CodecFor(c, target) && r.disk.contents == disk.contents
        else r.disk == disk)
  }

  lemma CreateIsExact(
      f: FactoryConfig, platform: Platform, hasOpened: bool, key: Key, rekey: Option<Key>,
      disk: Disk, envs: nat -> Env)
    requires ValidFactory(f) && CarriesBoth(platform, key, rekey) && AllUndisturbed(envs)
    ensures IsExactCreate(f, hasOpened, key, rekey, disk, Create(f, platform, hasOpened, key, rekey, disk, envs))
  {
    hide Attempt, CodecFor, Upgrade, Opens;
    var c, target := f.encryption, TargetKey(key, rekey);
    AttemptError(platform, f.properties, c, key, c, rekey, disk, envs(0));
    CurrentAttempt(f, platform, key, rekey, disk, envs(0));
    assert Undisturbed(envs(0));
    var attempt := Attempt(platform, f.properties, c, key, c, rekey, disk, envs(0));
    if attempt.Ok? && !attempt.value.ok && f.migrations.Some? {
      UpgradeIsExact(f, platform, f.migrations.value, key, target, attempt.value.disk, envs);
    }
  }

  predicate AreKeys(key: Key, rekey: Option<Key>) {
    IsKey(key) && (rekey.Some? ==> IsKey(rekey.value))
  }

  /** Once the first attempt has got as far as opening, the target map of a migration builds. */
  lemma TargetPragmasBuild(
      f: FactoryConfig, platform: Platform, key: Key, rekey: Option<Key>, disk: Disk, env: Env)
    requires ValidFactory(f) && AreKeys(key, rekey)
    requires Attempt(platform, f.properties, f.encryption, key, f.encryption, rekey, disk, env).Ok?
    ensures var r := KeyedPragmas(f.encryption, TargetKey(key, rekey), true);
      r.Ok? && Compiles(r.value) && RE_KEY in r.value && KEY !in r.value
  {
    hide FirstConnection, KeyedPragmas, Compiles;
    KeyedPragmasCompile(f.encryption, key, false);
    KeyedPragmasCompile(f.encryption, TargetKey(key, rekey), true);
    KeyedHasKey(f.encryption, TargetKey(key, rekey), true);
  }

  /******* One factory over many calls *******/

  datatype CreateCall = CreateCall(key: Key, rekey: Option<Key>, envs: nat -> Env)

  function CreateRun(
      f: FactoryConfig, platform: Platform, hasOpened: bool, disk: Disk, calls: seq<CreateCall>): seq<CreateResult>
    decreases |calls|
  {
    if calls == [] then []
    else
      var r := Create(f, platform, hasOpened, calls[0].key, calls[0].rekey, disk, calls[0].envs);
      [r] + CreateRun(f, platform, r.hasOpened, r.disk, calls[1..])
  }

  /** Which error a call ends with: the first attempt's own, unless migrations were tried in vain. */
  predicate ThrowsByFlag(f: FactoryConfig, hasOpened: bool, r: CreateResult) {
    && (hasOpened || f.migrations.None? ==> r.labels == [] && r.outcome != Err(MigrationsFailed))
    && (!hasOpened && f.migrations.Some? ==> r.outcome != Err(IllegalState))
  }

  lemma CreateFlag(
      f: FactoryConfig, platform: Platform, hasOpened: bool, key: Key, rekey: Option<Key>,
      disk: Disk, envs: nat -> Env)
    ensures var r := Create(f, platform, hasOpened, key, rekey, disk, envs);
      (r.hasOpened <==> hasOpened || r.outcome.Ok?) && (hasOpened ==> r.labels == []) && ThrowsByFlag(f, hasOpened, r)
  {
    hide Attempt, Upgrade;
    AttemptError(platform, f.properties, f.encryption, key, f.encryption, rekey, disk, envs(0));
  }

  /**
   * Over any calls on one factory: the flag is up after a call exactly when it was up before the
   * run or some call so far has succeeded. Once it is, no migration is attempted and a failing call
   * throws what its first attempt threw; until then, with migrations declared, it never does.
   */
  lemma {:induction false} FactoryRun(
      f: FactoryConfig, platform: Platform, hasOpened: bool, disk: Disk, calls: seq<CreateCall>)
    ensures var run := CreateRun(f, platform, hasOpened, disk, calls);
      && |run| == |calls|
      && (forall i :: 0 <= i < |run| ==>
           (run[i].hasOpened <==> hasOpened || SomeSucceeded(run[..i + 1])))
      && (forall i, k :: 0 <= k < i < |run| && run[k].outcome.Ok? ==> run[i].labels == [])
      && (hasOpened ==> forall i :: 0 <= i < |run| ==> run[i].labels == [])
      && (forall i :: 0 <= i < |run| ==> ThrowsByFlag(f, hasOpened || SomeSucceeded(run[..i]), run[i]))
    decreases |calls|
  {
    hide Create, ThrowsByFlag;
    if calls != [] {
      var call := calls[0];
      CreateFlag(f, platform, hasOpened, call.key, call.rekey, disk, call.envs);
      var r := Create(f, platform, hasOpened, call.key, call.rekey, disk, call.envs);
      FactoryRun(f, platform, r.hasOpened, r.disk, calls[1..]);
      var rest := CreateRun(f, platform, r.hasOpened, r.disk, calls[1..]);
      var run := CreateRun(f, platform, hasOpened, disk, calls);
      forall i | 0 <= i < |run|
        ensures run[i].hasOpened <==> hasOpened || SomeSucceeded(run[..i + 1])
        ensures i > 0 ==> run[i] == rest[i - 1]
        ensures ThrowsByFlag(f, hasOpened || SomeSucceeded(run[..i]), run[i])
      {
        assert run[..i + 1] == [r] + rest[..i];
        SomeSucceededCons(r, rest[..i]);
        if i > 0 {
          assert run[..i] == [r] + rest[..i - 1];
          SomeSucceededCons(r, rest[..i - 1]);
        } else {
          assert run[..0] == [];
        }
      }
    }
  }

  ghost predicate SomeSucceeded(run: seq<CreateResult>) {
    exists r :: r in run && r.outcome.Ok?
  }

  lemma SomeSucceededCons(r: CreateResult, rest: seq<CreateResult>)
    ensures SomeSucceeded([r] + rest) <==> r.outcome.Ok? || SomeSucceeded(rest)
  {
    assert forall x :: x in [r] + rest <==> x == r || x in rest;
  }
}
