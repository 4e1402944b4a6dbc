/** What happens to the database file over any run of one driver's connections. */
module EndToEnd {
  import opened Wrappers
  import opened Texts
  import opened Ciphers
  import opened Keys
  import opened Engine
  import opened Protocol
  import opened Connections
  import opened JdbcProperties
  import opened NativeDriver
  import opened Refinement

  /** The encryption a plan ends under, and the one it opens with. */
  function TargetCodec(plan: Plan): Codec {
    if plan.Open? then CodecFor(plan.config, plan.key) else CodecFor(plan.target, plan.rekey)
  }

  function SourceCodec(plan: Plan): Codec {
    CodecFor(plan.config, plan.key)
  }

  /** The file holds its contents under the encryption it had, or already under the target. */
  predicate IsSafe(plan: Plan, original: Disk, disk: Disk) {
    disk.contents == original.contents && (disk.codec == original.codec || disk.codec == TargetCodec(plan))
  }

  /** One connection of a driver that has not had a successful one. */
  lemma FirstIsSafe(plan: Plan, original: Disk, disk: Disk, env: Env)
    requires plan.Valid() && plan.HasWholeKeys() && IsSafe(plan, original, disk)
    ensures var conn := Connect(disk, plan.First(), env);
      && IsSafe(plan, original, conn.disk)
      && (SourceCodec(plan) != disk.codec ==> !conn.ok && conn.disk == disk)
      && (conn.ok ==> conn.disk.codec == TargetCodec(plan))
      && (conn.executed == plan.First() && SourceCodec(plan) == disk.codec ==> conn.disk.codec == TargetCodec(plan))
      && (conn.ok <==> SourceCodec(plan) == disk.codec && RunsThrough(env, plan.First()))
  {
    hide KeyList, RekeyList, CodecFor, Usable, Run, Step;
    if plan.Open? {
      ConnectKeyed(plan.config, plan.key, disk, env);
    } else {
      ConnectRekeyed(plan.config, plan.key, plan.target, plan.rekey, disk, env);
      if Connect(disk, plan.First(), env).executed == plan.First() && SourceCodec(plan) == disk.codec {
        FullRunReachesTarget(plan, disk, env);
      }
    }
  }

  /** Once every statement of the first list has gone through, the file is under the target. */
  lemma FullRunReachesTarget(plan: Plan, disk: Disk, env: Env)
    requires plan.Valid() && plan.HasWholeKeys() && plan.OpenAndRekey? && SourceCodec(plan) == disk.codec
    requires Connect(disk, plan.First(), env).executed == plan.First()
    ensures Connect(disk, plan.First(), env).disk.codec == TargetCodec(plan)
  {
    hide KeyList, RekeyList, CodecFor, Usable, Connect;
    ConnectRekeyed(plan.config, plan.key, plan.target, plan.rekey, disk, env);
  }

  /** One connection of a driver that is ready, on a file under the target. */
  lemma LaterStays(plan: Plan, original: Disk, disk: Disk, env: Env)
    requires plan.Valid() && plan.HasWholeKeys() && disk.codec == TargetCodec(plan) && IsSafe(plan, original, disk)
    ensures var conn := Connect(disk, plan.Later(), env);
      && IsSafe(plan, original, conn.disk)
      && conn.disk.codec == TargetCodec(plan)
      && (conn.ok <==> RunsThrough(env, plan.Later()))
  {
    hide KeyList, CodecFor, Usable, Connect;
    if plan.Open? {
      ConnectKeyed(plan.config, plan.key, disk, env);
    } else {
      ConnectKeyed(plan.target, plan.rekey, disk, env);
    }
  }

  /** A connection that found and left the file under the target. */
  ghost predicate IsUnderTarget(plan: Plan, original: Disk, env: Env, conn: Connected)
    requires plan.Valid()
  {
    && IsSafe(plan, original, conn.disk)
    && conn.disk.codec == TargetCodec(plan)
    && (conn.ok <==> RunsThrough(env, plan.Later()))
  }

  ghost predicate AllUnderTarget(plan: Plan, original: Disk, envs: seq<Env>, run: seq<Connected>)
    requires plan.Valid()
  {
    |run| == |envs| && forall i :: 0 <= i < |run| ==> IsUnderTarget(plan, original, envs[i], run[i])
  }

  /** Every file of a run is safe, and from the first success on all is as it should be. */
  ghost predicate RunIsSafe(plan: Plan, original: Disk, envs: seq<Env>, run: seq<Connected>)
    requires plan.Valid()
  {
    && |run| == |envs|
    && (forall i :: 0 <= i < |run| ==> IsSafe(plan, original, run[i].disk))
    && (forall i :: 0 <= i < |run| && run[i].ok ==> run[i].disk.codec == TargetCodec(plan))
    && (forall i, j :: 0 <= j < i < |run| && run[j].ok ==> IsUnderTarget(plan, original, envs[i], run[i]))
  }

  lemma UnderTargetIsSafe(plan: Plan, original: Disk, envs: seq<Env>, run: seq<Connected>)
    requires plan.Valid() && AllUnderTarget(plan, original, envs, run)
    ensures RunIsSafe(plan, original, envs, run)
  {
    hide IsSafe, TargetCodec, RunsThrough;
  }

  lemma {:induction false} ReadyRun(plan: Plan, original: Disk, disk: Disk, envs: seq<Env>)
    requires plan.Valid() && plan.HasWholeKeys() && IsSafe(plan, original, disk) && disk.codec == TargetCodec(plan)
    ensures AllUnderTarget(plan, original, envs, SameListRun(plan.Later(), disk, envs))
    decreases |envs|
  {
    hide Connect, TargetCodec, RunsThrough, IsSafe, AllUnderTarget;
    var run := SameListRun(plan.Later(), disk, envs);
    if envs == [] {
      NoneUnderTarget(plan, original);
    } else {
      LaterStays(plan, original, disk, envs[0]);
      var conn := Connect(disk, plan.Later(), envs[0]);
      ReadyRun(plan, original, conn.disk, envs[1..]);
      ConsUnderTarget(plan, original, envs, conn, SameListRun(plan.Later(), conn.disk, envs[1..]));
    }
  }

  lemma NoneUnderTarget(plan: Plan, original: Disk)
    requires plan.Valid()
    ensures AllUnderTarget(plan, original, [], [])
  {}

  lemma ConsUnderTarget(plan: Plan, original: Disk, envs: seq<Env>, conn: Connected, rest: seq<Connected>)
    requires plan.Valid() && envs != []
    requires IsUnderTarget(plan, original, envs[0], conn)
    requires AllUnderTarget(plan, original, envs[1..], rest)
    ensures AllUnderTarget(plan, original, envs, [conn] + rest)
  {
    hide IsUnderTarget;
    assert forall i :: 1 <= i < |envs| ==> envs[i] == envs[1..][i - 1] && ([conn] + rest)[i] == rest[i - 1];
  }

  /** A success, or a safe failure, before a run that fits it. */
  lemma ConsIsSafe(plan: Plan, original: Disk, envs: seq<Env>, conn: Connected, rest: seq<Connected>)
    requires plan.Valid() && envs != [] && IsSafe(plan, original, conn.disk)
    requires conn.ok ==> conn.disk.codec == TargetCodec(plan) && AllUnderTarget(plan, original, envs[1..], rest)
    requires RunIsSafe(plan, original, envs[1..], rest)
    ensures RunIsSafe(plan, original, envs, [conn] + rest)
  {
    hide TargetCodec, IsUnderTarget, IsSafe;
    var run := [conn] + rest;
    assert forall i :: 1 <= i < |run| ==> run[i] == rest[i - 1] && envs[i] == envs[1..][i - 1];
  }

  /**
   * End to end on the JVM: over any run of connections of one driver, each interrupted anywhere
   * and retried at will, the file always holds its contents under the old or the target
   * encryption; the first success leaves it under the target, and every later connection opens it.
   */
  lemma {:induction false} JvmEndToEnd(
      plan: Plan, id: Text, s: State, original: Disk, disk: Disk, envs: seq<Env>)
    requires plan.Valid() && plan.HasWholeKeys() && plan.IsExact() && IsKeyIdentifier(id) && JvmFresh(plan, s)
    requires IsSafe(plan, original, disk)
    ensures RunIsSafe(plan, original, envs, JvmRun(s, id, disk, envs))
    decreases |envs|
  {
    hide Connect, TargetCodec, SourceCodec, RunsThrough, IsSafe, JvmList, WithKeyProps, JvmFresh, JvmReady;
    if envs != [] {
      PlanExact(plan);
      FirstIsSafe(plan, original, disk, envs[0]);
      JvmFirst(plan, id, s, disk, envs[0]);
      var (next, conn) := WithKeyProps(s, id, disk, envs[0]);
      if conn.ok {
        JvmLaterRun(plan, id, next, conn.disk, envs[1..]);
        ReadyRun(plan, original, conn.disk, envs[1..]);
        UnderTargetIsSafe(plan, original, envs[1..], SameListRun(plan.Later(), conn.disk, envs[1..]));
      } else {
        JvmEndToEnd(plan, id, s, original, conn.disk, envs[1..]);
      }
      ConsIsSafe(plan, original, envs, conn, JvmRun(next, id, conn.disk, envs[1..]));
    }
  }

  lemma NativeStep(plan: Plan, s: NativeState, original: Disk, disk: Disk, env: Env)
    requires plan.Valid() && plan.HasWholeKeys() && NativeFresh(plan, s)
    requires IsSafe(plan, original, disk)
    ensures var (next, conn) := NativeConnect(s, disk, env);
      && IsSafe(plan, original, conn.disk)
      && ((next == s && !conn.ok) || (NativeReady(plan, next) && conn.disk.codec == TargetCodec(plan)))
  {
    hide NativeConnect, NativeReady, NativeFresh, Connect, CodecFor, RunsThrough, IsSafe, TargetCodec, SourceCodec,
      KeyList, RekeyList;
    NativeFirst(plan, s, disk, env);
    NativeStateStep(plan, s, disk, env);
    FirstIsSafe(plan, original, disk, env);
    FullListNeedsSource(plan, disk, env);
  }

  lemma RekeyListNonEmpty(c: EncryptionConfig, key: Key)
    requires Usable(c, key)
    ensures RekeyList(c, key) != []
  {
    hide RekeyList;
    ListShapes(c, key);
  }

  /** A rekey list is not run through on a file that the source does not open. */
  lemma FullListNeedsSource(plan: Plan, disk: Disk, env: Env)
    requires plan.Valid() && plan.HasWholeKeys()
    ensures plan.OpenAndRekey? && Connect(disk, plan.First(), env).executed == plan.First() ==>
      SourceCodec(plan) == disk.codec
  {
    hide KeyList, RekeyList, CodecFor, Usable, Connect;
    if plan.OpenAndRekey? {
      ConnectRekeyed(plan.config, plan.key, plan.target, plan.rekey, disk, env);
      RekeyListNonEmpty(plan.target, plan.rekey);
    }
  }

  /** No connection of a run succeeds, changes the file or gets beyond a list. */
  ghost predicate NothingHappens(list: seq<Text>, disk: Disk, run: seq<Connected>) {
    forall i :: 0 <= i < |run| ==> !run[i].ok && run[i].disk == disk && run[i].executed <= list
  }

  lemma NothingHappensTwice(list: seq<Text>, disk: Disk, conn: Connected, rest: seq<Connected>)
    requires NothingHappens(list, disk, rest)
    requires !conn.ok && conn.disk == disk && conn.executed <= list
    ensures NothingHappens(list, disk, [conn] + rest)
  {}

  lemma NothingHappensNowhere(list: seq<Text>, disk: Disk)
    ensures NothingHappens(list, disk, [])
  {}

  lemma PrefixOfFirst(p: seq<Text>, a: seq<Text>, b: seq<Text>)
    requires p <= a + b && |p| <= |a|
    ensures p <= a
  {
    assert (a + b)[..|p|] == a[..|p|];
  }

  lemma ConnectExecuted(disk: Disk, statements: seq<Text>, env: Env)
    ensures Connect(disk, statements, env).executed <= statements
  {
    hide Run;
  }

  /** End to end natively, where a connection that fails late has swapped the maps already. */
  lemma {:induction false} NativeEndToEnd(
      plan: Plan, s: NativeState, original: Disk, disk: Disk, envs: seq<Env>)
    requires plan.Valid() && plan.HasWholeKeys() && NativeFresh(plan, s)
    requires IsSafe(plan, original, disk)
    ensures RunIsSafe(plan, original, envs, NativeRun(s, disk, envs))
    decreases |envs|
  {
    hide Connect, RunsThrough, NativeConnect, NativeFresh, NativeReady, IsSafe, TargetCodec, SourceCodec;
    if envs != [] {
      NativeStep(plan, s, original, disk, envs[0]);
      var (next, conn) := NativeConnect(s, disk, envs[0]);
      if NativeReady(plan, next) && conn.disk.codec == TargetCodec(plan) {
        NativeLaterRun(plan, next, conn.disk, envs[1..]);
        ReadyRun(plan, original, conn.disk, envs[1..]);
        UnderTargetIsSafe(plan, original, envs[1..], SameListRun(plan.Later(), conn.disk, envs[1..]));
      } else {
        NativeEndToEnd(plan, s, original, conn.disk, envs[1..]);
      }
      ConsIsSafe(plan, original, envs, conn, NativeRun(next, conn.disk, envs[1..]));
    }
  }

  /******* Exactly when the platforms can be told apart *******/

  /** Two connections with the same outcome for the file and for the caller. */
  predicate Alike(a: Connected, b: Connected) {
    a.disk == b.disk && a.ok == b.ok && |a.executed| == |b.executed|
  }

  ghost predicate AllAlike(a: seq<Connected>, b: seq<Connected>) {
    |a| == |b| && forall i :: 0 <= i < |a| ==> Alike(a[i], b[i])
  }

  lemma AllAlikeCons(x: Connected, a: seq<Connected>, y: Connected, b: seq<Connected>)
    ensures AllAlike([x] + a, [y] + b) <==> Alike(x, y) && AllAlike(a, b)
  {
    hide Alike;
    var xs, ys := [x] + a, [y] + b;
    if AllAlike(xs, ys) {
      assert xs[0] == x && ys[0] == y;
      forall i | 0 <= i < |a|
        ensures Alike(a[i], b[i])
      {
        assert xs[i + 1] == a[i] && ys[i + 1] == b[i];
      }
    } else if Alike(x, y) && AllAlike(a, b) {
      forall i | 0 <= i < |xs|
        ensures Alike(xs[i], ys[i])
      {
        assert i > 0 ==> xs[i] == a[i - 1] && ys[i] == b[i - 1];
      }
    }
  }

  /** A connection that nothing disturbs. */
  const CALM := Env(Reset(SQLCIPHER), Reset(SQLCIPHER), None, true, false)

  /** A rekey plan's first list is longer than its later one. */
  lemma LaterIsShorter(plan: Plan)
    requires plan.Valid() && plan.OpenAndRekey?
    ensures |plan.Later()| < |plan.First()|
  {
    hide KeyList, RekeyList;
    ListShapes(plan.target, plan.rekey);
  }

  /** A successful connection has executed its whole list. */
  lemma ConnectOk(disk: Disk, statements: seq<Text>, env: Env)
    ensures var conn := Connect(disk, statements, env);
      conn.ok ==> conn.executed == statements
  {
    hide Run;
  }

  /** Once natively ready and not so on the JVM, the platforms part, in a calm moment at the latest. */
  lemma {:induction false} StayApart(
      plan: Plan, id: Text, s: State, n: NativeState, disk: Disk, envs: seq<Env>)
    requires plan.Valid() && plan.HasWholeKeys() && plan.IsExact() && plan.OpenAndRekey? && IsKeyIdentifier(id)
    requires JvmFresh(plan, s) && NativeReady(plan, n) && disk.codec == TargetCodec(plan)
    ensures !AllAlike(JvmRun(s, id, disk, envs + [CALM]), NativeRun(n, disk, envs + [CALM]))
    decreases |envs|
  {
    hide Connect, WithKeyProps, NativeConnect, JvmFresh, JvmReady, NativeReady, KeyList, RekeyList, CodecFor, JvmList,
      RunsThrough;
    var all := envs + [CALM];
    PlanExact(plan);
    LaterIsShorter(plan);
    JvmFirst(plan, id, s, disk, all[0]);
    NativeLater(plan, n, disk, all[0]);
    LaterStays(plan, disk, disk, all[0]);
    ConnectExecuted(disk, plan.Later(), all[0]);
    ConnectOk(disk, plan.First(), all[0]);
    ConnectOk(disk, plan.Later(), all[0]);
    var jvm, native := Connect(disk, plan.First(), all[0]), Connect(disk, plan.Later(), all[0]);
    var next := WithKeyProps(s, id, disk, all[0]).0;
    AllAlikeCons(jvm, JvmRun(next, id, jvm.disk, all[1..]), native, NativeRun(n, native.disk, all[1..]));
    if envs == [] {
      CalmRunsThrough(plan.Later());
      assert native.ok && !Alike(jvm, native);
    } else if Alike(jvm, native) {
      assert !jvm.ok;
      assert all[1..] == envs[1..] + [CALM];
      StayApart(plan, id, s, n, jvm.disk, envs[1..]);
    }
  }

  lemma CalmRunsThrough(statements: seq<Text>)
    ensures RunsThrough(CALM, statements)
  {}

  /** An early swap shows, in a calm moment at the latest. */
  lemma {:induction false} EarlySwapShows(
      plan: Plan, id: Text, s: State, n: NativeState, disk: Disk, envs: seq<Env>)
    requires plan.Valid() && plan.HasWholeKeys() && plan.IsExact()
    requires IsKeyIdentifier(id) && JvmFresh(plan, s) && NativeFresh(plan, n)
    requires !NoneSwapsEarly(plan, NativeRun(n, disk, envs))
    ensures !AllAlike(JvmRun(s, id, disk, envs + [CALM]), NativeRun(n, disk, envs + [CALM]))
    decreases |envs|
  {
    hide Connect, WithKeyProps, NativeConnect, JvmFresh, JvmReady, NativeReady, NativeFresh, KeyList, RekeyList,
      CodecFor, JvmList, NoneSwapsEarly;
    if envs == [] {
      NoneEarlyInNone(plan);
      assert false;
    } else {
      PlanExact(plan);
      JvmFirst(plan, id, s, disk, envs[0]);
      NativeFirst(plan, n, disk, envs[0]);
      NativeFailure(plan, n, disk, envs[0]);
      var conn := Connect(disk, plan.First(), envs[0]);
      var next := NativeConnect(n, disk, envs[0]).0;
      NoneSwapsEarlyTail(plan, conn, NativeRun(next, conn.disk, envs[1..]));
      assert (envs + [CALM])[1..] == envs[1..] + [CALM];
      if conn.ok {
        LaterNeverEarly(plan, next, conn.disk, envs[1..]);
        assert false;
      } else if SwapsEarly(plan, conn) {
        FullListNeedsSource(plan, disk, envs[0]);
        FullRunReachesTarget(plan, disk, envs[0]);
        StayApart(plan, id, s, next, conn.disk, envs[1..]);
      } else {
        EarlySwapShows(plan, id, s, n, conn.disk, envs[1..]);
      }
      AllAlikeCons(conn, JvmRun(s, id, conn.disk, envs[1..] + [CALM]),
                   conn, NativeRun(next, conn.disk, envs[1..] + [CALM]));
    }
  }

  lemma NoneEarlyInNone(plan: Plan)
    requires plan.Valid()
    ensures NoneSwapsEarly(plan, [])
  {}

  lemma {:induction false} LaterNeverEarly(plan: Plan, n: NativeState, disk: Disk, envs: seq<Env>)
    requires plan.Valid() && NativeReady(plan, n)
    ensures NoneSwapsEarly(plan, NativeRun(n, disk, envs))
    decreases |envs|
  {
    hide Connect, NativeConnect, NativeReady, KeyList, RekeyList, NoneSwapsEarly;
    if envs == [] {
      NoneEarlyInNone(plan);
    } else {
      NativeLater(plan, n, disk, envs[0]);
      var conn := Connect(disk, plan.Later(), envs[0]);
      ConnectExecuted(disk, plan.Later(), envs[0]);
      if plan.OpenAndRekey? {
        LaterIsShorter(plan);
      }
      LaterNeverEarly(plan, n, conn.disk, envs[1..]);
      NoneSwapsEarlyTail(plan, conn, NativeRun(n, conn.disk, envs[1..]));
    }
  }

  /**
   * Exactly when the platforms can be told apart, for keys whose units survive: after any run,
   * whatever happens to one more connection, the statements, files and outcomes are the same on
   * both, if and only if no connection so far has failed after its whole rekey list; and the
   * files and outcomes alone are the same no sooner.
   */
  lemma RefinementIsExact(plan: Plan, id: Text, s: State, n: NativeState, disk: Disk, envs: seq<Env>)
    requires plan.Valid() && plan.HasWholeKeys() && plan.IsExact()
    requires IsKeyIdentifier(id) && JvmFresh(plan, s) && NativeFresh(plan, n)
    ensures (forall env :: JvmRun(s, id, disk, envs + [env]) == NativeRun(n, disk, envs + [env])) <==>
      NoneSwapsEarly(plan, NativeRun(n, disk, envs))
    ensures (forall env :: AllAlike(JvmRun(s, id, disk, envs + [env]), NativeRun(n, disk, envs + [env]))) <==>
      NoneSwapsEarly(plan, NativeRun(n, disk, envs))
  {
    hide JvmRun, NativeRun, JvmFresh, NativeFresh, NoneSwapsEarly;
    if NoneSwapsEarly(plan, NativeRun(n, disk, envs)) {
      forall env
        ensures JvmRun(s, id, disk, envs + [env]) == NativeRun(n, disk, envs + [env])
      {
        assert (envs + [env])[..|envs + [env]| - 1] == envs;
        JvmRefinesNative(plan, id, s, n, disk, envs + [env]);
      }
    } else {
      EarlySwapShows(plan, id, s, n, disk, envs);
    }
  }
}
