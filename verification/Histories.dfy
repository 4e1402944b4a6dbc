/**
 * Histories of an application: releases that only ever append their previous configuration to
 * the migrations, and the drivers created under them, each connection failing wherever it may.
 */
module Histories {
  import opened Wrappers
  import opened Ciphers
  import opened Keys
  import opened Engine
  import opened Protocol
  import opened Connections
  import opened JdbcProperties
  import opened Factory
  import opened Migrations
  import opened Creates
  import opened ConfigBuilders
  import opened EngineKeys

  /******* Releases *******/

  /** An application: the configurations of its releases, oldest first. */
  datatype App = App(releases: seq<EncryptionConfig>, platform: Platform, properties: Entries) {
    predicate Valid() {
      |releases| > 0 && AllValid(releases) && IsPlatform(platform)
    }

    /** The factory of a release, every earlier configuration moved to its migrations. */
    function FactoryOf(release: nat): FactoryConfig
      requires release < |releases|
    {
      FactoryConfig(releases[release],
                    if release == 0 then None else Some(Declared(releases[..release])),
                    properties)
    }
  }

  /** A process of some release starts, or a driver is created in the running one. */
  datatype Event =
    | Launch(release: nat)
    | CreateDriver(key: Key, rekey: Option<Key>, envs: nat -> Env)

  /**
   * `keys` are the keys the file may be under: the first one, and for every `create` whose key
   * opened the file at the time its target, or what was left of that when it was cut off.
   */
  datatype History = History(disk: Disk, release: nat, hasOpened: bool, keys: set<Key>)

  predicate CanHappen(app: App, h: History, e: Event) {
    match e
    case Launch(release) => h.release <= release < |app.releases|
    case CreateDriver(key, rekey, _) => AreKeys(key, rekey)
  }

  ghost function After(app: App, h: History, e: Event): History
    requires app.Valid() && h.release < |app.releases| && CanHappen(app, h, e)
  {
    match e
    case Launch(release) => h.(release := release, hasOpened := false)
    case CreateDriver(key, rekey, envs) =>
      var f := app.FactoryOf(h.release);
      var r := Create(f, app.platform, h.hasOpened, key, rekey, h.disk, envs);
      History(r.disk, h.release, r.hasOpened, h.keys + NewKeys(f, app.platform, key, rekey, h.disk))
  }

  /** The key that a `create` may leave the file under. */
  ghost function NewKeys(
      f: FactoryConfig, platform: Platform, key: Key, rekey: Option<Key>, disk: Disk): set<Key>
  {
    if EngineKey(platform, key).None? || !FactoryOpens(f, EngineKey(platform, key).value, disk) then {}
    else if EngineRekey(platform, rekey).Some? then {TargetKey(key, rekey)}
    else match CutRekey(platform, rekey) case None => {} case Some(w) => {w}
  }

  /** The file is under a configuration released so far and one of the keys. */
  ghost predicate IsUnder(app: App, disk: Disk, release: nat, key: Key) {
    && release < |app.releases| && IsKey(key) && EngineKey(app.platform, key).Some?
    && Opens(app.releases[release], EngineKey(app.platform, key).value, disk)
  }

  ghost predicate IsSound(app: App, contents: Contents, h: History) {
    && h.release < |app.releases|
    && h.disk.contents == contents
    && (exists j: nat, key :: j <= h.release && key in h.keys && IsUnder(app, h.disk, j, key))
    && (h.hasOpened ==> exists key :: key in h.keys && IsUnder(app, h.disk, h.release, key))
  }

  lemma FactoryOfIsValid(app: App, release: nat)
    requires app.Valid() && release < |app.releases|
    ensures ValidFactory(app.FactoryOf(release))
  {
    assert app.releases[release] in app.releases;
    assert forall c :: c in app.releases[..release] ==> c in app.releases;
  }

  /** Whatever happens next keeps the history sound. */
  lemma StepIsSound(app: App, contents: Contents, h: History, e: Event)
    requires app.Valid() && IsSound(app, contents, h) && CanHappen(app, h, e)
    ensures IsSound(app, contents, After(app, h, e))
  {
    hide Create, CodecFor, Declared, EngineKey, EngineRekey, CutRekey;
    match e {
      case Launch(release) =>
      case CreateDriver(key, rekey, envs) =>
        var f := app.FactoryOf(h.release);
        var target := TargetKey(key, rekey);
        FactoryOfIsValid(app, h.release);
        CreateOnEngine(f, app.platform, h.hasOpened, key, rekey, h.disk, envs);
        if EngineKey(app.platform, key).Some? && EngineRekey(app.platform, rekey).Some? {
          TargetOnEngine(app.platform, key, rekey);
          CreateIsSafe(f, app.platform, h.hasOpened, EngineKey(app.platform, key).value,
                       EngineRekey(app.platform, rekey).value, h.disk, envs);
        } else if EngineKey(app.platform, key).Some? && CutRekey(app.platform, rekey).Some? {
          target := CutRekey(app.platform, rekey).value;
          CutRekeyArrives(app.platform, rekey);
        }
        var next := After(app, h, e);
        var r := Create(f, app.platform, h.hasOpened, key, rekey, h.disk, envs);
        if next.disk.codec != h.disk.codec || r.outcome.Ok? {
          assert target in next.keys && IsUnder(app, next.disk, h.release, target);
        } else {
          var j: nat, k :| j <= h.release && k in h.keys && IsUnder(app, h.disk, j, k);
          assert k in next.keys && IsUnder(app, next.disk, j, k);
          if h.hasOpened {
            var k' :| k' in h.keys && IsUnder(app, h.disk, h.release, k');
            assert k' in next.keys && IsUnder(app, next.disk, h.release, k');
          }
        }
    }
  }

  /******* Whole histories *******/

  ghost predicate CanRun(app: App, h: History, events: seq<Event>)
    requires app.Valid() && h.release < |app.releases|
    decreases |events|
  {
    events != [] ==> CanHappen(app, h, events[0]) && CanRun(app, After(app, h, events[0]), events[1..])
  }

  ghost function AfterAll(app: App, h: History, events: seq<Event>): History
    requires app.Valid() && h.release < |app.releases| && CanRun(app, h, events)
    decreases |events|
  {
    if events == [] then h else AfterAll(app, After(app, h, events[0]), events[1..])
  }

  lemma {:induction false} RunIsSound(app: App, contents: Contents, h: History, events: seq<Event>)
    requires app.Valid() && IsSound(app, contents, h) && CanRun(app, h, events)
    ensures IsSound(app, contents, AfterAll(app, h, events))
    ensures h.release <= AfterAll(app, h, events).release
    decreases |events|
  {
    hide After, IsSound;
    if events != [] {
      SoundRelease(app, contents, h);
      ReleaseGrows(app, h, events[0]);
      StepIsSound(app, contents, h, events[0]);
      RunIsSound(app, contents, After(app, h, events[0]), events[1..]);
    }
  }

  lemma SoundRelease(app: App, contents: Contents, h: History)
    requires IsSound(app, contents, h)
    ensures h.release < |app.releases|
  {}

  lemma ReleaseGrows(app: App, h: History, e: Event)
    requires app.Valid() && h.release < |app.releases| && CanHappen(app, h, e)
    ensures h.release <= After(app, h, e).release < |app.releases|
  {
    hide Create;
  }

  /** A first `create` of a release succeeds and leaves the file, contents intact, under it. */
  ghost predicate BringsUpToDate(app: App, release: nat, key: Key, disk: Disk, envs: nat -> Env)
    requires release < |app.releases|
  {
    var r := Create(app.FactoryOf(release), app.platform, false, key, None, disk, envs);
    && r.outcome.Ok? && r.hasOpened
    && EngineKey(app.platform, key).Some?
    && r.disk.codec == CodecFor(app.releases[release], EngineKey(app.platform, key).value)
    && r.disk.contents == disk.contents
  }

  /** One undisturbed `create` of any later release opens the file and brings it up to date. */
  lemma LaterReleaseOpens(app: App, disk: Disk, j: nat, newest: nat, key: Key, envs: nat -> Env)
    requires app.Valid() && IsUnder(app, disk, j, key) && j <= newest < |app.releases|
    requires Suits(key, app.releases[newest].Cipher()) && AllUndisturbed(envs)
    ensures BringsUpToDate(app, newest, key, disk, envs)
  {
    hide Create, CodecFor, Opens, EngineKey, Declared;
    var f := app.FactoryOf(newest);
    FactoryOfIsValid(app, newest);
    var k := EngineKey(app.platform, key).value;
    CreateOnEngine(f, app.platform, false, key, None, disk, envs);
    EngineSuits(app.platform, key);
    CreateIsExact(f, app.platform, false, k, None, disk, envs);
    CreateIsSafe(f, app.platform, false, k, None, disk, envs);
    if j < newest {
      assert app.releases[..newest][j] == app.releases[j];
      assert app.releases[j] in MigrationsOf(f);
      var i :| 0 <= i < |MigrationsOf(f)| && MigrationsOf(f)[i] == app.releases[j];
      assert Opens(MigrationsOf(f)[i], k, disk);
    }
  }

  /** The file is as the first release left it. */
  ghost predicate Installed(app: App, h: History, key: Key) {
    !h.hasOpened && h.keys == {key} && IsUnder(app, h.disk, h.release, key)
  }

  /**
   * Release-chain migration. Take any application, any history of launches of later and later
   * releases, of right and wrong keys, of rekeys and of connections failing at any statement.
   * Afterwards the contents are intact and the file is under some release's configuration and a
   * key that it was opened with or rekeyed to. A single `create` of the newest release with that
   * key, however many releases were skipped, opens it and leaves it under the newest
   * configuration, unless the key is raw and the newest cipher has none.
   */
  lemma ReleaseChain(app: App, h: History, first: Key, events: seq<Event>, newest: nat, envs: nat -> Env)
    requires app.Valid() && Installed(app, h, first) && CanRun(app, h, events)
    requires AfterAll(app, h, events).release <= newest < |app.releases| && AllUndisturbed(envs)
    ensures var end := AfterAll(app, h, events);
      && end.disk.contents == h.disk.contents
      && exists j: nat, key ::
           && j <= end.release && key in end.keys && IsUnder(app, end.disk, j, key)
           && (Suits(key, app.releases[newest].Cipher()) ==> BringsUpToDate(app, newest, key, end.disk, envs))
  {
    hide Create, CodecFor, AfterAll;
    assert first in h.keys && IsUnder(app, h.disk, h.release, first);
    RunIsSound(app, h.disk.contents, h, events);
    var end := AfterAll(app, h, events);
    var j: nat, key :| j <= end.release && key in end.keys && IsUnder(app, end.disk, j, key);
    if Suits(key, app.releases[newest].Cipher()) {
      LaterReleaseOpens(app, end.disk, j, newest, key, envs);
    }
  }

  /** No rekeys, and no key but one: what most applications do. */
  ghost predicate UsesOnly(events: seq<Event>, key: Key) {
    forall e :: e in events && e.CreateDriver? ==> e.key == key && e.rekey == None
  }

  lemma {:induction false} OneKeyStays(app: App, h: History, key: Key, events: seq<Event>)
    requires app.Valid() && h.release < |app.releases| && CanRun(app, h, events)
    requires UsesOnly(events, key) && h.keys == {key}
    ensures AfterAll(app, h, events).keys == {key}
    decreases |events|
  {
    hide Create, FactoryOpens, EngineKey, CutRekey;
    if events != [] {
      ReleaseGrows(app, h, events[0]);
      assert events[0] in events;
      OneKeyStays(app, After(app, h, events[0]), key, events[1..]);
    }
  }

  /** Then that key opens the newest release, whatever failed on the way there. */
  lemma OneKeyReleaseChain(app: App, h: History, key: Key, events: seq<Event>, newest: nat, envs: nat -> Env)
    requires app.Valid() && Installed(app, h, key) && CanRun(app, h, events) && UsesOnly(events, key)
    requires AfterAll(app, h, events).release <= newest < |app.releases| && AllUndisturbed(envs)
    requires Suits(key, app.releases[newest].Cipher())
    ensures var end := AfterAll(app, h, events);
      end.disk.contents == h.disk.contents && BringsUpToDate(app, newest, key, end.disk, envs)
  {
    hide Create, CodecFor, AfterAll;
    OneKeyStays(app, h, key, events);
    ReleaseChain(app, h, key, events, newest, envs);
  }
}
