/** One connection: the statements it executes on the database file, and how it can fail. */
module Connections {
  import opened Wrappers
  import opened Texts
  import opened Ciphers
  import opened SqlTokens
  import opened Keys
  import opened Statements
  import opened Engine
  import opened Lossless
  import opened Protocol

  /**
   * What the model does not control about one connection: the registers it starts with, after
   * how many statements it is interrupted, be it by a statement that fails for a reason outside
   * the model, whether the rest of its set-up succeeds, and the journal mode that the remaining
   * properties leave.
   */
  datatype Env = Env(main: Registers, temp: Registers, interrupt: Option<nat>, finishes: bool, wal: bool)

  /** `executed` are the statements that succeeded; one that acts and fails shows in `disk` only. */
  datatype Connected = Connected(disk: Disk, executed: seq<Text>, ok: bool)

  function Limit(env: Env, statements: seq<Text>): nat {
    match env.interrupt
    case None => |statements|
    case Some(n) => n
  }

  predicate RunsThrough(env: Env, statements: seq<Text>) {
    |statements| <= Limit(env, statements) && env.finishes
  }

  predicate Undisturbed(env: Env) {
    env.interrupt.None? && env.finishes
  }

  function StartOf(disk: Disk, env: Env): World {
    World(Session(env.main, env.temp, Plain), disk)
  }

  /** After its cipher statements, a connection must be able to read the file. */
  function Connect(disk: Disk, statements: seq<Text>, env: Env): Connected {
    var r := Run(StartOf(disk, env), statements, Limit(env, statements));
    var after := r.world.disk;
    if r.executed < |statements| then Connected(after, statements[..r.executed], false)
    else if r.world.session.codec != after.codec then Connected(after, statements, false)
    else Connected(after.(wal := env.wal), statements, env.finishes)
  }

  /** A database file that connections are made to. */
  class Database {
    var disk: Disk

    constructor (disk: Disk)
      ensures this.disk == disk
    {
      this.disk := disk;
    }

    /** Executes the statements one by one, as `execute` and `onCreateConnection` do. */
    method Open(statements: seq<Text>, env: Env) returns (executed: seq<Text>, ok: bool)
      modifies this
      ensures Connected(disk, executed, ok) == Connect(old(disk), statements, env)
    {
      hide Step;
      var session := Session(env.main, env.temp, Plain);
      var limit := Limit(env, statements);
      ghost var start := StartOf(disk, env);
      var i := 0;
      while i < |statements| && i < limit
        invariant i <= |statements| && i <= limit
        invariant var rest := Run(World(session, disk), statements[i..], limit - i);
          Run(start, statements, limit) == RunResult(rest.world, i + rest.executed)
      {
        var step := Step(World(session, disk), statements[i]);
        session, disk := step.world.session, step.world.disk;
        if !step.ok { break; }
        i := i + 1;
        assert statements[i - 1..][1..] == statements[i..];
      }
      assert i == |statements| ==> statements[i..] == [];
      executed := statements[..i];
      if i < |statements| || session.codec != disk.codec { return executed, false; }
      disk := disk.(wal := env.wal);
      ok := env.finishes;
    }
  }

  /******* What a connection does to the file *******/

  predicate SameButWal(before: Disk, after: Disk) {
    after.codec == before.codec && after.contents == before.contents
  }

  /** Without a rekey the file keeps its encryption, and opens exactly for the right one. */
  lemma ConnectKeyed(c: EncryptionConfig, key: Key, disk: Disk, env: Env)
    requires Usable(c, key) && IsWhole(key)
    ensures var r := Connect(disk, KeyList(c, key), env);
      && SameButWal(disk, r.disk)
      && (r.ok <==> RunsThrough(env, KeyList(c, key)) && CodecFor(c, key) == disk.codec)
      && (CodecFor(c, key) != disk.codec ==> r.disk == disk)
  {
    hide KeyList, CodecFor;
    KeyListRun(c, key, StartOf(disk, env), Limit(env, KeyList(c, key)));
  }

  /** A key that the engine does not accept: whatever comes after it, nothing happens. */
  lemma ConnectUnaccepted(c: EncryptionConfig, literal: Text, rest: seq<Text>, disk: Disk, env: Env)
    requires c.Valid() && !ReadValue(literal).Accepted?
    ensures var r := Connect(disk, KeyListWith(c, literal) + rest, env);
      !r.ok && r.disk == disk && |r.executed| < |KeyListWith(c, literal)|
  {
    hide ReadValue, Run;
    var list := KeyListWith(c, literal);
    var w, limit := StartOf(disk, env), Limit(env, list + rest);
    KeyListWithRun(c, literal, w, limit);
    RunConcat(w, list, rest, limit);
  }

  /**
   * With a rekey, interrupted anywhere: a wrong configuration or key leaves the file as it is and
   * never gets to the rekey list. The right one leaves it under the old or the target encryption
   * with its contents, the target being that of the literal's value, and success means the target.
   * When something follows the literal there is no success, but the target all the same once the
   * rekey statement is reached; a refused literal changes nothing.
   */
  lemma ConnectRekeyedWith(
      c: EncryptionConfig, a: Text, d: EncryptionConfig, b: Text, disk: Disk, env: Env)
    requires c.Valid() && d.Valid() && ReadValue(a).Accepted?
    ensures var keys := KeyListWith(c, a);
      var r := Connect(disk, keys + RekeyListWith(d, b), env);
      && r.disk.contents == disk.contents
      && (CodecOf(View(c), ReadValue(a).value) != disk.codec ==>
           !r.ok && r.disk == disk && |r.executed| <= |keys|)
      && (CodecOf(View(c), ReadValue(a).value) == disk.codec ==>
           match ReadValue(b)
           case Accepted(v) =>
             && (r.disk.codec == disk.codec || r.disk.codec == CodecOf(View(d), v))
             && (r.ok ==> r.disk.codec == CodecOf(View(d), v))
             && (r.ok <==> RunsThrough(env, keys + RekeyListWith(d, b)))
             && (r.executed == keys + RekeyListWith(d, b) ==> r.disk.codec == CodecOf(View(d), v))
           case ActsThenFails(v) =>
             && !r.ok && |r.executed| <= |keys| + RekeyAt(d)
             && (r.disk.codec == disk.codec || r.disk.codec == CodecOf(View(d), v))
             && (env.interrupt.None? ==> r.disk.codec == CodecOf(View(d), v))
           case Refused => !r.ok && |r.executed| <= |keys| + RekeyAt(d) && SameButWal(disk, r.disk))
  {
    hide KeyListWith, View, ReadValue, BeforeRekey, Run, Assignment;
    var first, second := KeyListWith(c, a), RekeyListWith(d, b);
    var w, limit := StartOf(disk, env), Limit(env, first + second);
    KeyListWithRun(c, a, w, limit);
    RunConcat(w, first, second, limit);
    if |first| <= limit {
      var next := Run(w, first, limit).world;
      if CodecOf(View(c), ReadValue(a).value) == disk.codec {
        RekeyListWithRun(d, b, next, limit - |first|);
      } else {
        WrongCodecStops(d, b, next, limit - |first|);
      }
    }
  }

  lemma ConnectRekeyed(c: EncryptionConfig, key: Key, d: EncryptionConfig, rekey: Key, disk: Disk, env: Env)
    requires Usable(c, key) && Usable(d, rekey) && IsWhole(key) && IsWhole(rekey)
    ensures var r := Connect(disk, KeyList(c, key) + RekeyList(d, rekey), env);
      && r.disk.contents == disk.contents
      && (CodecFor(c, key) != disk.codec ==>
           !r.ok && r.disk == disk && |r.executed| <= |KeyList(c, key)|)
      && (CodecFor(c, key) == disk.codec ==>
           && (r.disk.codec == disk.codec || r.disk.codec == CodecFor(d, rekey))
           && (r.ok ==> r.disk.codec == CodecFor(d, rekey))
           && (r.ok <==> RunsThrough(env, KeyList(c, key) + RekeyList(d, rekey)))
           && (r.executed == KeyList(c, key) + RekeyList(d, rekey) ==> r.disk.codec == CodecFor(d, rekey)))
  {
    hide KeyList, RekeyList, KeyListWith, RekeyListWith, ReadValue, RetrieveFormatted, View, Secret, Connect,
      RunsThrough;
    ListShapes(c, key);
    ListShapes(d, rekey);
    FormattedDenotesSecret(key, c.Cipher());
    FormattedDenotesSecret(rekey, d.Cipher());
    ConnectRekeyedWith(c, RetrieveFormatted(key, c.Cipher()).value,
                       d, RetrieveFormatted(rekey, d.Cipher()).value, disk, env);
  }
}
