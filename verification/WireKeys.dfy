/**
 * Drivers given keys of any units. What a driver does is told by what becomes of its keys: all
 * arrive, and it is the native driver of the keys that do; or the rekey is cut off, and the file
 * ends under what is left of it though no connection succeeds; or nothing comes of it.
 */
module WireKeys {
  import opened Wrappers
  import opened Texts
  import opened SqlTokens
  import opened Ciphers
  import opened Keys
  import opened Statements
  import opened Engine
  import opened Lossless
  import opened Protocol
  import opened Connections
  import opened JdbcProperties
  import opened NativeDriver
  import opened Refinement
  import opened EndToEnd
  import opened Arrivals

  /******* Lists with the same effect *******/

  ghost predicate SameEffect(a: seq<Text>, b: seq<Text>) {
    |a| == |b| && forall i, w :: 0 <= i < |a| ==> Step(w, a[i]) == Step(w, b[i])
  }

  lemma SameEffectConcat(a: seq<Text>, b: seq<Text>, c: seq<Text>, d: seq<Text>)
    requires SameEffect(a, b) && SameEffect(c, d)
    ensures SameEffect(a + c, b + d)
  {
    hide Step;
    forall i, w | 0 <= i < |a + c|
      ensures Step(w, (a + c)[i]) == Step(w, (b + d)[i])
    {
      if i < |a| {
        assert (a + c)[i] == a[i] && (b + d)[i] == b[i];
      } else {
        assert (a + c)[i] == c[i - |a|] && (b + d)[i] == d[i - |a|];
      }
    }
  }

  lemma SameEffectItself(a: seq<Text>)
    ensures SameEffect(a, a)
  {
    hide Step;
  }

  /** A statement matters only for how its literal is read. */
  lemma SameReading(p: McPragma, x: Text, y: Text)
    requires p == KEY || p == RE_KEY
    requires ReadValue(x) == ReadValue(y)
    ensures SameEffect([Assignment(PragmaName(p), x)], [Assignment(PragmaName(p), y)])
  {
    hide Parse, ReadValue, Apply, Assignment;
    forall w
      ensures Step(w, Assignment(PragmaName(p), x)) == Step(w, Assignment(PragmaName(p), y))
    {
      if p == KEY {
        KeyLineStep(x, w);
        KeyLineStep(y, w);
      } else {
        RekeyLineStep(x, w);
        RekeyLineStep(y, w);
      }
    }
  }

  lemma ListsWithSameReading(c: EncryptionConfig, x: Text, y: Text)
    requires ReadValue(x) == ReadValue(y)
    ensures SameEffect(KeyListWith(c, x), KeyListWith(c, y))
    ensures SameEffect(RekeyListWith(c, x), RekeyListWith(c, y))
  {
    hide MainLines, BeforeRekey, Assignment, SameEffect, ReadValue;
    SameReading(KEY, x, y);
    SameReading(RE_KEY, x, y);
    SameEffectItself(MainLines(c));
    SameEffectItself(BeforeRekey(c));
    SameEffectConcat(MainLines(c), MainLines(c), [Assignment(PragmaName(KEY), x)], [Assignment(PragmaName(KEY), y)]);
    SameEffectConcat(BeforeRekey(c), BeforeRekey(c),
                     [Assignment(PragmaName(RE_KEY), x)], [Assignment(PragmaName(RE_KEY), y)]);
    SameEffectConcat(BeforeRekey(c) + [Assignment(PragmaName(RE_KEY), x)],
                     BeforeRekey(c) + [Assignment(PragmaName(RE_KEY), y)], KeyListWith(c, x), KeyListWith(c, y));
  }

  lemma {:induction false} SameEffectRuns(w: World, a: seq<Text>, b: seq<Text>, limit: nat)
    requires SameEffect(a, b)
    ensures Run(w, a, limit) == Run(w, b, limit)
    decreases |a|
  {
    hide Step;
    if a != [] && limit > 0 {
      assert Step(w, a[0]) == Step(w, b[0]);
      forall i, v | 0 <= i < |a[1..]|
        ensures Step(v, a[1..][i]) == Step(v, b[1..][i])
      {
        assert a[1..][i] == a[i + 1] && b[1..][i] == b[i + 1];
      }
      SameEffectRuns(Step(w, a[0]).world, a[1..], b[1..], limit - 1);
    }
  }

  lemma SameEffectConnects(disk: Disk, a: seq<Text>, b: seq<Text>, env: Env)
    requires SameEffect(a, b)
    ensures Alike(Connect(disk, a, env), Connect(disk, b, env))
  {
    hide Run;
    SameEffectRuns(StartOf(disk, env), a, b, Limit(env, a));
  }

  /******* Plans *******/

  /**
   * The plan that the keys which arrive make; the plan whose rekey list is cut off after its rekey
   * statement; or none, as a key is lost or, in a key statement, cut off.
   */
  datatype PlanArrival = Works(plan: Plan) | Halfway(plan: Plan) | Idle

  function ArrivalOfPlan(jvm: bool, plan: Plan): PlanArrival {
    match ArrivalOf(jvm, plan.key)
    case Arrives(key) =>
      if plan.Open? then Works(Open(plan.config, key))
      else
        (match ArrivalOf(jvm, plan.rekey)
         case Arrives(rekey) => Works(OpenAndRekey(plan.config, key, plan.target, rekey))
         case CutOff(rekey) => Halfway(OpenAndRekey(plan.config, key, plan.target, rekey))
         case Lost => Idle)
    case _ => Idle
  }

  lemma ArrivedPlan(jvm: bool, plan: Plan)
    requires plan.Valid() && !ArrivalOfPlan(jvm, plan).Idle?
    ensures var arrived := ArrivalOfPlan(jvm, plan).plan;
      && arrived.Valid() && arrived.HasWholeKeys() && (jvm ==> arrived.IsExact())
      && arrived.Open? == plan.Open?
      && |arrived.First()| == |plan.First()|
  {
    hide ArrivalOf, KeyList, RekeyList, ReadValue, RetrieveFormatted;
    ArrivalLiteral(jvm, plan.key, plan.config.Cipher());
    SameLengths(plan.config, plan.key, ArrivalOf(jvm, plan.key).key);
    if plan.OpenAndRekey? {
      ArrivalLiteral(jvm, plan.rekey, plan.target.Cipher());
      SameLengths(plan.target, plan.rekey, ArrivalOf(jvm, plan.rekey).key);
    }
  }

  lemma SameLengths(c: EncryptionConfig, key: Key, other: Key)
    ensures Usable(c, key) && Usable(c, other) ==>
      |KeyList(c, key)| == |KeyList(c, other)| && |RekeyList(c, key)| == |RekeyList(c, other)|
  {
    if Usable(c, key) && Usable(c, other) {
      hide KeyList, RekeyList, RetrieveFormatted, MainLines, BeforeRekey;
      ListShapes(c, key);
      ListShapes(c, other);
    }
  }

  /** Natively a plan is its own arrival, unless a key holds the unit 0. */
  lemma NativePlan(plan: Plan)
    requires plan.Valid()
    ensures ArrivalOfPlan(false, plan) == if plan.HasWholeKeys() then Works(plan) else Idle
  {
    hide ArrivalOf;
    NativeArrival(plan.key);
    if plan.OpenAndRekey? {
      NativeArrival(plan.rekey);
    }
  }

  lemma SentLiteral(jvm: bool, c: EncryptionConfig, key: Key)
    requires Usable(c, key)
    ensures RetrieveFormatted(key, c.Cipher()).Ok?
    ensures var literal := Sent(jvm, RetrieveFormatted(key, c.Cipher()).value);
      && SentList(jvm, KeyList(c, key)) == KeyListWith(c, literal)
      && SentList(jvm, RekeyList(c, key)) == RekeyListWith(c, literal)
      && ReadValue(literal) == AcceptedAs(ArrivalOf(jvm, key), c.Cipher())
  {
    hide KeyList, RekeyList, KeyListWith, RekeyListWith, ReadValue, ArrivalOf, RetrieveFormatted, Sent, SentList;
    SentLists(jvm, c, key);
    ArrivalLiteral(jvm, key, c.Cipher());
  }

  /** The lists of a key that arrives do what those of its arrival do. */
  lemma ArrivedLists(jvm: bool, c: EncryptionConfig, key: Key)
    requires Usable(c, key) && ArrivalOf(jvm, key).Arrives?
    ensures var w := ArrivalOf(jvm, key).key;
      && Usable(c, w)
      && SameEffect(SentList(jvm, KeyList(c, key)), KeyList(c, w))
      && SameEffect(SentList(jvm, RekeyList(c, key)), RekeyList(c, w))
  {
    hide KeyList, RekeyList, KeyListWith, RekeyListWith, ReadValue, ArrivalOf, RetrieveFormatted, Sent, SentList,
      SameEffect;
    var w := ArrivalOf(jvm, key).key;
    SentLiteral(jvm, c, key);
    ArrivalLiteral(jvm, key, c.Cipher());
    ListShapes(c, w);
    FormattedDenotesSecret(w, c.Cipher());
    ListsWithSameReading(c, Sent(jvm, RetrieveFormatted(key, c.Cipher()).value),
                         RetrieveFormatted(w, c.Cipher()).value);
  }

  /** The first list of a rekey plan, as it reaches the engine. */
  lemma SentFirst(jvm: bool, plan: Plan)
    requires plan.Valid()
    ensures SentList(jvm, plan.First())
         == if plan.Open? then SentList(jvm, KeyList(plan.config, plan.key))
            else SentList(jvm, KeyList(plan.config, plan.key)) + SentList(jvm, RekeyList(plan.target, plan.rekey))
    ensures |SentList(jvm, plan.First())| == |plan.First()|
  {
    hide KeyList, RekeyList, SentList, StartsPlainly;
    ListsStart(plan);
    if plan.OpenAndRekey? {
      SentListConcat(jvm, KeyList(plan.config, plan.key), RekeyList(plan.target, plan.rekey));
    } else {
      SentListConcat(jvm, KeyList(plan.config, plan.key), []);
      assert KeyList(plan.config, plan.key) + [] == KeyList(plan.config, plan.key);
    }
  }

  /** When all keys arrive, the lists do what those of the arrived plan do. */
  lemma WorkingLists(jvm: bool, plan: Plan)
    requires plan.Valid() && ArrivalOfPlan(jvm, plan).Works?
    ensures var arrived := ArrivalOfPlan(jvm, plan).plan;
      && arrived.Valid()
      && SameEffect(SentList(jvm, plan.First()), arrived.First())
      && SameEffect(SentList(jvm, plan.Later()), arrived.Later())
  {
    hide KeyList, RekeyList, SentList, SameEffect, ArrivalOf;
    ArrivedPlan(jvm, plan);
    SentFirst(jvm, plan);
    ArrivedLists(jvm, plan.config, plan.key);
    if plan.OpenAndRekey? {
      var k, r := ArrivalOf(jvm, plan.key).key, ArrivalOf(jvm, plan.rekey).key;
      ArrivedLists(jvm, plan.target, plan.rekey);
      SameEffectConcat(SentList(jvm, KeyList(plan.config, plan.key)), KeyList(plan.config, k),
                       SentList(jvm, RekeyList(plan.target, plan.rekey)), RekeyList(plan.target, r));
    }
  }

  /******* The first connection *******/

  lemma WorkingFirst(jvm: bool, plan: Plan, disk: Disk, env: Env)
    requires plan.Valid() && ArrivalOfPlan(jvm, plan).Works?
    ensures var arrived := ArrivalOfPlan(jvm, plan).plan;
      && arrived.Valid()
      && Alike(Connect(disk, SentList(jvm, plan.First()), env), Connect(disk, arrived.First(), env))
      && Alike(Connect(disk, SentList(jvm, plan.Later()), env), Connect(disk, arrived.Later(), env))
  {
    hide SentList, SameEffect, Connect, Alike, ArrivalOfPlan, Plan.First, Plan.Later;
    WorkingLists(jvm, plan);
    var arrived := ArrivalOfPlan(jvm, plan).plan;
    SameEffectConnects(disk, SentList(jvm, plan.First()), arrived.First(), env);
    SameEffectConnects(disk, SentList(jvm, plan.Later()), arrived.Later(), env);
  }

  /** The key arrives and opens the file. */
  predicate KeyOpens(jvm: bool, plan: Plan, disk: Disk) {
    ArrivalOf(jvm, plan.key).Arrives? && CodecFor(plan.config, ArrivalOf(jvm, plan.key).key) == disk.codec
  }

  /**
   * With a rekey that is cut off no connection succeeds. Yet a file that the key opens is under
   * the target configuration and what is left of the rekey, once the rekey statement is reached.
   */
  lemma HalfwayFirst(jvm: bool, plan: Plan, disk: Disk, env: Env)
    requires plan.Valid() && ArrivalOfPlan(jvm, plan).Halfway?
    ensures var arrived, conn := ArrivalOfPlan(jvm, plan).plan, Connect(disk, SentList(jvm, plan.First()), env);
      && arrived.Valid()
      && !conn.ok && |conn.executed| < |plan.First()|
      && conn.disk.contents == disk.contents
      && (SourceCodec(arrived) != disk.codec ==> conn.disk == disk)
      && (conn.disk.codec == disk.codec || conn.disk.codec == TargetCodec(arrived))
      && (SourceCodec(arrived) == disk.codec && env.interrupt.None? ==> conn.disk.codec == TargetCodec(arrived))
  {
    hide KeyList, RekeyList, KeyListWith, RekeyListWith, SentList, ReadValue, ArrivalOf, RetrieveFormatted, Sent, View,
      Secret, Connect, BeforeRekey, RunsThrough;
    ArrivedPlan(jvm, plan);
    SentFirst(jvm, plan);
    SentLiteral(jvm, plan.config, plan.key);
    SentLiteral(jvm, plan.target, plan.rekey);
    var a := Sent(jvm, RetrieveFormatted(plan.key, plan.config.Cipher()).value);
    var b := Sent(jvm, RetrieveFormatted(plan.rekey, plan.target.Cipher()).value);
    RekeyIsInside(plan.target, b);
    ConnectRekeyedWith(plan.config, a, plan.target, b, disk, env);
  }

  lemma RekeyIsInside(c: EncryptionConfig, literal: Text)
    ensures RekeyAt(c) < |RekeyListWith(c, literal)|
  {
    hide BeforeRekey, KeyListWith;
  }

  /** When nothing arrives that could change the file, nothing changes it. */
  lemma IdleFirst(jvm: bool, plan: Plan, disk: Disk, env: Env)
    requires plan.Valid() && ArrivalOfPlan(jvm, plan).Idle?
    ensures var conn := Connect(disk, SentList(jvm, plan.First()), env);
      !conn.ok && |conn.executed| < |plan.First()| && SameButWal(disk, conn.disk)
  {
    hide KeyList, RekeyList, KeyListWith, RekeyListWith, SentList, ReadValue, ArrivalOf, RetrieveFormatted, Sent, View,
      Secret, Connect, BeforeRekey, RunsThrough;
    SentFirst(jvm, plan);
    SentLiteral(jvm, plan.config, plan.key);
    var a := Sent(jvm, RetrieveFormatted(plan.key, plan.config.Cipher()).value);
    if plan.OpenAndRekey? {
      SentLiteral(jvm, plan.target, plan.rekey);
      var b := Sent(jvm, RetrieveFormatted(plan.rekey, plan.target.Cipher()).value);
      RekeyIsInside(plan.target, b);
      if ArrivalOf(jvm, plan.key).Arrives? {
        ConnectRekeyedWith(plan.config, a, plan.target, b, disk, env);
      } else {
        ConnectUnaccepted(plan.config, a, RekeyListWith(plan.target, b), disk, env);
      }
    } else {
      ConnectUnaccepted(plan.config, a, [], disk, env);
      assert KeyListWith(plan.config, a) + [] == KeyListWith(plan.config, a);
    }
  }

  /** A key that does not open the file: nothing happens to it, and no rekey statement is reached. */
  lemma FirstNotOpening(jvm: bool, plan: Plan, disk: Disk, env: Env)
    requires plan.Valid() && !KeyOpens(jvm, plan, disk)
    ensures var conn := Connect(disk, SentList(jvm, plan.First()), env);
      && !conn.ok && conn.disk == disk && conn.executed <= SentList(jvm, KeyList(plan.config, plan.key))
      && |conn.executed| <= |KeyList(plan.config, plan.key)|
  {
    hide KeyList, RekeyList, KeyListWith, RekeyListWith, SentList, ReadValue, ArrivalOf, RetrieveFormatted, Sent, View,
      Secret, Connect, BeforeRekey, RunsThrough;
    SentFirst(jvm, plan);
    SentLists(jvm, plan.config, plan.key);
    SentLiteral(jvm, plan.config, plan.key);
    var keys, a := SentList(jvm, KeyList(plan.config, plan.key)),
                   Sent(jvm, RetrieveFormatted(plan.key, plan.config.Cipher()).value);
    ConnectExecuted(disk, SentList(jvm, plan.First()), env);
    var rest := if plan.Open? then [] else SentList(jvm, RekeyList(plan.target, plan.rekey));
    assert SentList(jvm, plan.First()) == keys + rest;
    if !ArrivalOf(jvm, plan.key).Arrives? {
      ConnectUnaccepted(plan.config, a, rest, disk, env);
    } else if plan.OpenAndRekey? {
      SentLiteral(jvm, plan.target, plan.rekey);
      ConnectRekeyedWith(plan.config, a, plan.target,
                         Sent(jvm, RetrieveFormatted(plan.rekey, plan.target.Cipher()).value), disk, env);
    } else {
      WrongKeyOpens(jvm, plan, disk, env);
    }
    PrefixOfFirst(Connect(disk, SentList(jvm, plan.First()), env).executed, keys, rest);
  }

  lemma WrongKeyOpens(jvm: bool, plan: Plan, disk: Disk, env: Env)
    requires plan.Valid() && plan.Open? && ArrivalOf(jvm, plan.key).Arrives? && !KeyOpens(jvm, plan, disk)
    ensures var conn := Connect(disk, SentList(jvm, plan.First()), env);
      !conn.ok && conn.disk == disk && |conn.executed| <= |KeyList(plan.config, plan.key)|
  {
    hide SentList, Connect, KeyList, CodecFor, ArrivalOf, RunsThrough;
    WorkingFirst(jvm, plan, disk, env);
    ArrivedPlan(jvm, plan);
    var arrived := ArrivalOfPlan(jvm, plan).plan;
    FirstIsSafe(arrived, disk, disk, env);
    ConnectExecuted(disk, arrived.First(), env);
  }

  /******* Runs *******/

  /** What a run of connections does to the file and to the callers, for each fate of the keys. */
  ghost predicate RunFits(a: PlanArrival, original: Disk, disk: Disk, envs: seq<Env>, run: seq<Connected>) {
    match a
    case Works(plan) =>
      plan.Valid() && (IsSafe(plan, original, disk) ==> RunIsSafe(plan, original, envs, run))
    case Halfway(plan) =>
      && plan.Valid() && |run| == |envs|
      && (IsSafe(plan, original, disk) ==>
           forall i :: 0 <= i < |run| ==> !run[i].ok && IsSafe(plan, original, run[i].disk))
      && (SourceCodec(plan) != disk.codec ==> forall i :: 0 <= i < |run| ==> run[i].disk == disk)
      && (SourceCodec(plan) == disk.codec ==>
           forall i :: 0 <= i < |run| && envs[i].interrupt.None? ==> run[i].disk.codec == TargetCodec(plan))
    case Idle =>
      forall i :: 0 <= i < |run| ==> !run[i].ok && SameButWal(disk, run[i].disk)
  }

  lemma {:induction false} SameListAlike(a: seq<Text>, b: seq<Text>, disk: Disk, envs: seq<Env>)
    requires SameEffect(a, b)
    ensures AllAlike(SameListRun(a, disk, envs), SameListRun(b, disk, envs))
    decreases |envs|
  {
    hide Connect, SameEffect;
    if envs != [] {
      var x, y := Connect(disk, a, envs[0]), Connect(disk, b, envs[0]);
      SameEffectConnects(disk, a, b, envs[0]);
      SameListAlike(a, b, x.disk, envs[1..]);
      AllAlikeCons(x, SameListRun(a, x.disk, envs[1..]), y, SameListRun(b, x.disk, envs[1..]));
    }
  }

  /** A JVM driver whose keys all arrive runs as one that is given the keys that do. */
  lemma {:induction false} JvmRunAlike(plan: Plan, id: Text, s: State, t: State, disk: Disk, envs: seq<Env>)
    requires plan.Valid() && ArrivalOfPlan(true, plan).Works? && ArrivalOfPlan(true, plan).plan.Valid()
    requires IsKeyIdentifier(id) && JvmFresh(plan, s) && JvmFresh(ArrivalOfPlan(true, plan).plan, t)
    ensures AllAlike(JvmRun(s, id, disk, envs), JvmRun(t, id, disk, envs))
    decreases |envs|
  {
    hide JvmList, Connect, JvmFresh, WithKeyProps, JvmReady, SameListRun, ArrivalOfPlan, SameEffect, Plan.First,
      Plan.Later, Alike, AllAlike;
    if envs == [] {
      NoneAlike();
    } else {
      var arrived := ArrivalOfPlan(true, plan).plan;
      ArrivedPlan(true, plan);
      PlanExact(arrived);
      WorkingFirst(true, plan, disk, envs[0]);
      JvmFirst(plan, id, s, disk, envs[0]);
      JvmFirst(arrived, id, t, disk, envs[0]);
      var x, y := Connect(disk, JvmList(plan.First()), envs[0]), Connect(disk, arrived.First(), envs[0]);
      AlikeMeans(x, y);
      var next, next' := WithKeyProps(s, id, disk, envs[0]).0, WithKeyProps(t, id, disk, envs[0]).0;
      if x.ok {
        JvmLaterRun(plan, id, next, x.disk, envs[1..]);
        JvmLaterRun(arrived, id, next', x.disk, envs[1..]);
        WorkingLists(true, plan);
        SameListAlike(JvmList(plan.Later()), arrived.Later(), x.disk, envs[1..]);
      } else {
        JvmRunAlike(plan, id, s, t, x.disk, envs[1..]);
      }
      AllAlikeCons(x, JvmRun(next, id, x.disk, envs[1..]), y, JvmRun(next', id, x.disk, envs[1..]));
    }
  }

  lemma NoneAlike()
    ensures AllAlike([], [])
  {}

  lemma AlikeMeans(a: Connected, b: Connected)
    requires Alike(a, b)
    ensures a.disk == b.disk && a.ok == b.ok && |a.executed| == |b.executed|
  {}

  lemma SafeAlike(plan: Plan, original: Disk, envs: seq<Env>, a: seq<Connected>, b: seq<Connected>)
    requires plan.Valid() && AllAlike(a, b) && RunIsSafe(plan, original, envs, b)
    ensures RunIsSafe(plan, original, envs, a)
  {
    hide IsSafe, TargetCodec, RunsThrough, Plan.Later;
    assert forall i :: 0 <= i < |a| ==> Alike(a[i], b[i]);
  }

  function FreshState(plan: Plan): (s: State)
    requires plan.Valid()
    ensures JvmFresh(plan, s)
  {
    State(Some(plan.KeyMap()), plan.RekeyMap(), false, map[])
  }

  lemma JvmWorks(plan: Plan, id: Text, s: State, original: Disk, disk: Disk, envs: seq<Env>)
    requires plan.Valid() && ArrivalOfPlan(true, plan).Works? && IsKeyIdentifier(id) && JvmFresh(plan, s)
    ensures RunFits(ArrivalOfPlan(true, plan), original, disk, envs, JvmRun(s, id, disk, envs))
  {
    hide JvmRun, JvmFresh, ArrivalOfPlan, IsSafe, RunIsSafe, AllAlike;
    ArrivedPlan(true, plan);
    var arrived := ArrivalOfPlan(true, plan).plan;
    if IsSafe(arrived, original, disk) {
      var t := FreshState(arrived);
      JvmRunAlike(plan, id, s, t, disk, envs);
      JvmEndToEnd(arrived, id, t, original, disk, envs);
      SafeAlike(arrived, original, envs, JvmRun(s, id, disk, envs), JvmRun(t, id, disk, envs));
    }
  }

  lemma HalfwayCons(
      plan: Plan, original: Disk, disk: Disk, envs: seq<Env>, conn: Connected, rest: seq<Connected>)
    requires plan.Valid() && envs != [] && RunFits(Halfway(plan), original, conn.disk, envs[1..], rest)
    requires !conn.ok && conn.disk.contents == disk.contents
    requires SourceCodec(plan) != disk.codec ==> conn.disk == disk
    requires conn.disk.codec == disk.codec || conn.disk.codec == TargetCodec(plan)
    requires SourceCodec(plan) == disk.codec && envs[0].interrupt.None? ==> conn.disk.codec == TargetCodec(plan)
    ensures RunFits(Halfway(plan), original, disk, envs, [conn] + rest)
  {
    hide SourceCodec, TargetCodec;
    var run := [conn] + rest;
    assert forall i :: 1 <= i < |run| ==> run[i] == rest[i - 1] && envs[i] == envs[1..][i - 1];
  }

  lemma {:induction false} JvmHalfway(plan: Plan, id: Text, s: State, original: Disk, disk: Disk, envs: seq<Env>)
    requires plan.Valid() && ArrivalOfPlan(true, plan).Halfway? && IsKeyIdentifier(id) && JvmFresh(plan, s)
    ensures RunFits(ArrivalOfPlan(true, plan), original, disk, envs, JvmRun(s, id, disk, envs))
    decreases |envs|
  {
    hide JvmList, Connect, JvmFresh, WithKeyProps, JvmReady, ArrivalOfPlan, Plan.First, RunFits, SourceCodec,
      TargetCodec;
    var arrived := ArrivalOfPlan(true, plan).plan;
    ArrivedPlan(true, plan);
    if envs == [] {
      HalfwayNowhere(arrived, original, disk);
    } else {
      JvmFirst(plan, id, s, disk, envs[0]);
      HalfwayFirst(true, plan, disk, envs[0]);
      var conn := Connect(disk, JvmList(plan.First()), envs[0]);
      JvmHalfway(plan, id, s, original, conn.disk, envs[1..]);
      HalfwayCons(arrived, original, disk, envs, conn, JvmRun(s, id, conn.disk, envs[1..]));
    }
  }

  lemma HalfwayNowhere(plan: Plan, original: Disk, disk: Disk)
    requires plan.Valid()
    ensures RunFits(Halfway(plan), original, disk, [], [])
  {
    hide CodecFor, IsSafe;
  }

  lemma IdleCons(disk: Disk, envs: seq<Env>, original: Disk, conn: Connected, rest: seq<Connected>)
    requires envs != [] && RunFits(Idle, original, conn.disk, envs[1..], rest)
    requires !conn.ok && SameButWal(disk, conn.disk)
    ensures RunFits(Idle, original, disk, envs, [conn] + rest)
  {
    var run := [conn] + rest;
    assert forall i :: 1 <= i < |run| ==> run[i] == rest[i - 1];
  }

  lemma IdleNowhere(original: Disk, disk: Disk)
    ensures RunFits(Idle, original, disk, [], [])
  {}

  lemma {:induction false} JvmIdle(plan: Plan, id: Text, s: State, original: Disk, disk: Disk, envs: seq<Env>)
    requires plan.Valid() && ArrivalOfPlan(true, plan).Idle? && IsKeyIdentifier(id) && JvmFresh(plan, s)
    ensures RunFits(Idle, original, disk, envs, JvmRun(s, id, disk, envs))
    decreases |envs|
  {
    hide JvmList, Connect, JvmFresh, WithKeyProps, JvmReady, ArrivalOfPlan, Plan.First, RunFits;
    if envs == [] {
      IdleNowhere(original, disk);
    } else {
      JvmFirst(plan, id, s, disk, envs[0]);
      IdleFirst(true, plan, disk, envs[0]);
      var conn := Connect(disk, JvmList(plan.First()), envs[0]);
      JvmIdle(plan, id, s, original, conn.disk, envs[1..]);
      IdleCons(disk, envs, original, conn, JvmRun(s, id, conn.disk, envs[1..]));
    }
  }

  lemma {:induction false} NativeIdle(plan: Plan, n: NativeState, original: Disk, disk: Disk, envs: seq<Env>)
    requires plan.Valid() && ArrivalOfPlan(false, plan).Idle? && NativeFresh(plan, n)
    ensures RunFits(Idle, original, disk, envs, NativeRun(n, disk, envs))
    decreases |envs|
  {
    hide Connect, NativeFresh, NativeConnect, NativeReady, ArrivalOfPlan, Plan.First, RunFits;
    if envs == [] {
      IdleNowhere(original, disk);
    } else {
      NativeFirst(plan, n, disk, envs[0]);
      NativeFailure(plan, n, disk, envs[0]);
      IdleFirst(false, plan, disk, envs[0]);
      var conn := Connect(disk, plan.First(), envs[0]);
      NativeIdle(plan, n, original, conn.disk, envs[1..]);
      IdleCons(disk, envs, original, conn, NativeRun(n, conn.disk, envs[1..]));
    }
  }

  /******* End to end, for every key *******/

  /**
   * End to end on the JVM, for every configuration, key and rekey: over any run of connections,
   * each interrupted anywhere and retried at will, the file holds its contents. If the keys arrive
   * the run is safe for those that do, as it is natively. If the rekey is cut off no connection
   * succeeds, and the file is under its old encryption or under the target with what is left of
   * the rekey, the latter as soon as a connection is not interrupted. Otherwise no connection
   * succeeds or changes the encryption.
   */
  lemma JvmEndToEndAnyKey(plan: Plan, id: Text, s: State, original: Disk, disk: Disk, envs: seq<Env>)
    requires plan.Valid() && IsKeyIdentifier(id) && JvmFresh(plan, s)
    ensures RunFits(ArrivalOfPlan(true, plan), original, disk, envs, JvmRun(s, id, disk, envs))
  {
    hide JvmRun, JvmFresh, ArrivalOfPlan, RunFits;
    match ArrivalOfPlan(true, plan) {
      case Works(_) => JvmWorks(plan, id, s, original, disk, envs);
      case Halfway(_) => JvmHalfway(plan, id, s, original, disk, envs);
      case Idle => JvmIdle(plan, id, s, original, disk, envs);
    }
  }

  /** The same natively, where a plan is carried out as it is unless a key holds the unit 0. */
  lemma NativeEndToEndAnyKey(plan: Plan, n: NativeState, original: Disk, disk: Disk, envs: seq<Env>)
    requires plan.Valid() && NativeFresh(plan, n)
    ensures ArrivalOfPlan(false, plan) == if plan.HasWholeKeys() then Works(plan) else Idle
    ensures RunFits(ArrivalOfPlan(false, plan), original, disk, envs, NativeRun(n, disk, envs))
  {
    hide NativeRun, NativeFresh, ArrivalOfPlan, IsSafe, RunIsSafe;
    NativePlan(plan);
    if plan.HasWholeKeys() {
      if IsSafe(plan, original, disk) {
        NativeEndToEnd(plan, n, original, disk, envs);
      }
    } else {
      NativeIdle(plan, n, original, disk, envs);
    }
  }

  /** However often a key that does not open the file is tried on the JVM, nothing happens to it. */
  lemma {:induction false} WrongKeyOnWire(plan: Plan, id: Text, s: State, disk: Disk, envs: seq<Env>)
    requires plan.Valid() && IsKeyIdentifier(id) && JvmFresh(plan, s) && !KeyOpens(true, plan, disk)
    ensures NothingHappens(JvmList(KeyList(plan.config, plan.key)), disk, JvmRun(s, id, disk, envs))
    decreases |envs|
  {
    hide JvmList, Connect, JvmFresh, WithKeyProps, JvmReady, KeyOpens, Plan.First, KeyList, NothingHappens;
    var list := JvmList(KeyList(plan.config, plan.key));
    if envs == [] {
      NothingHappensNowhere(list, disk);
    } else {
      JvmFirst(plan, id, s, disk, envs[0]);
      FirstNotOpening(true, plan, disk, envs[0]);
      WrongKeyOnWire(plan, id, s, disk, envs[1..]);
      NothingHappensTwice(list, disk, Connect(disk, JvmList(plan.First()), envs[0]), JvmRun(s, id, disk, envs[1..]));
    }
  }

  /** Nor natively. */
  lemma {:induction false} WrongKeyNatively(plan: Plan, n: NativeState, disk: Disk, envs: seq<Env>)
    requires plan.Valid() && NativeFresh(plan, n) && !KeyOpens(false, plan, disk)
    ensures NothingHappens(KeyList(plan.config, plan.key), disk, NativeRun(n, disk, envs))
    decreases |envs|
  {
    hide Connect, NativeFresh, NativeConnect, NativeReady, KeyOpens, Plan.First, KeyList, NothingHappens;
    var list := KeyList(plan.config, plan.key);
    if envs == [] {
      NothingHappensNowhere(list, disk);
    } else {
      NativeFirst(plan, n, disk, envs[0]);
      NativeFailure(plan, n, disk, envs[0]);
      FirstNotOpening(false, plan, disk, envs[0]);
      FirstIsLonger(plan);
      WrongKeyNatively(plan, n, disk, envs[1..]);
      NothingHappensTwice(list, disk, Connect(disk, plan.First(), envs[0]), NativeRun(n, disk, envs[1..]));
    }
  }

  lemma FirstIsLonger(plan: Plan)
    requires plan.Valid()
    ensures plan.OpenAndRekey? ==> |plan.First()| > |KeyList(plan.config, plan.key)|
  {
    hide KeyList, RekeyList;
    if plan.OpenAndRekey? {
      RekeyListNonEmpty(plan.target, plan.rekey);
    }
  }

  /**
   * JVM refines native, for all keys that arrive: whatever happens to one more connection, a JVM
   * driver's run has the files, outcomes and numbers of statements of the native driver that is
   * given the keys that do, if and only if none of its connections has failed after its whole
   * rekey list. The first connection is alike in any case, and so is the run after its success.
   */
  lemma JvmRefinesNativeOnWire(plan: Plan, id: Text, s: State, n: NativeState, disk: Disk, envs: seq<Env>)
    requires plan.Valid() && ArrivalOfPlan(true, plan).Works? && ArrivalOfPlan(true, plan).plan.Valid()
    requires IsKeyIdentifier(id) && JvmFresh(plan, s) && NativeFresh(ArrivalOfPlan(true, plan).plan, n)
    ensures envs != [] ==>
      && Alike(JvmRun(s, id, disk, envs)[0], NativeRun(n, disk, envs)[0])
      && (JvmRun(s, id, disk, envs)[0].ok ==> AllAlike(JvmRun(s, id, disk, envs), NativeRun(n, disk, envs)))
    ensures (forall env :: AllAlike(JvmRun(s, id, disk, envs + [env]), NativeRun(n, disk, envs + [env]))) <==>
      NoneSwapsEarly(ArrivalOfPlan(true, plan).plan, NativeRun(n, disk, envs))
  {
    hide JvmList, JvmFresh, NativeFresh, ArrivalOfPlan, JvmRun, NativeRun, NoneSwapsEarly, Plan.First, Plan.Later,
      Plan.KeyMap, Plan.RekeyMap, AllAlike, Alike;
    var arrived := ArrivalOfPlan(true, plan).plan;
    ArrivedPlan(true, plan);
    var t := FreshState(arrived);
    RefinementIsExact(arrived, id, t, n, disk, envs);
    forall env
      ensures AllAlike(JvmRun(s, id, disk, envs + [env]), NativeRun(n, disk, envs + [env])) <==>
        AllAlike(JvmRun(t, id, disk, envs + [env]), NativeRun(n, disk, envs + [env]))
    {
      JvmRunAlike(plan, id, s, t, disk, envs + [env]);
      AlikeTransfers(JvmRun(s, id, disk, envs + [env]), JvmRun(t, id, disk, envs + [env]),
                     NativeRun(n, disk, envs + [env]));
    }
    if envs != [] {
      RunLengths(s, id, n, disk, envs);
      RunLengths(t, id, n, disk, envs);
      JvmRunAlike(plan, id, s, t, disk, envs);
      JvmRefinesNative(arrived, id, t, n, disk, envs);
      AlikeFirst(JvmRun(s, id, disk, envs), JvmRun(t, id, disk, envs));
    }
  }

  lemma AlikeTransfers(a: seq<Connected>, b: seq<Connected>, c: seq<Connected>)
    requires AllAlike(a, b)
    ensures AllAlike(a, c) <==> AllAlike(b, c)
  {
    if |a| == |c| {
      assert forall i :: 0 <= i < |a| ==> Alike(a[i], b[i]);
    }
  }

  lemma AlikeFirst(a: seq<Connected>, b: seq<Connected>)
    requires AllAlike(a, b) && a != []
    ensures b != [] && Alike(a[0], b[0]) && a[0].ok == b[0].ok
  {}

  lemma RunLengths(s: State, id: Text, n: NativeState, disk: Disk, envs: seq<Env>)
    requires envs != []
    ensures JvmRun(s, id, disk, envs) != [] && NativeRun(n, disk, envs) != []
  {}

  /******* Two rekeys *******/

  /**
   * Rekeying to the Arabic word, on a file that the key opens: the connection fails, and leaves the
   * file under the target configuration and the key `3D`.
   */
  lemma RekeyToWord(c: EncryptionConfig, key: Key, d: EncryptionConfig, disk: Disk, env: Env)
    requires Usable(c, key) && d.Valid() && ArrivalOf(true, key) == Arrives(key) && CodecFor(c, key) == disk.codec
    requires env.interrupt.None?
    ensures var plan := OpenAndRekey(c, key, d, Passphrase(WORD));
      && plan.Valid()
      && var conn := Connect(disk, JvmList(plan.First()), env);
         !conn.ok && conn.disk.codec == CodecFor(d, Passphrase(Ascii("3D"))) && conn.disk.contents == disk.contents
  {
    hide ArrivalOf, Connect, JvmList, KeyList, RekeyList, CodecFor, WORD, Ascii;
    WordIsCutOff();
    HalfwayFirst(true, OpenAndRekey(c, key, d, Passphrase(WORD)), disk, env);
  }

  /** Rekeying to the quote before a comment: the connection succeeds, and the file is decrypted. */
  lemma RekeyToComment(c: EncryptionConfig, key: Key, d: EncryptionConfig, disk: Disk, env: Env)
    requires Usable(c, key) && d.Valid() && ArrivalOf(true, key) == Arrives(key) && CodecFor(c, key) == disk.codec
    requires Undisturbed(env)
    ensures var plan := OpenAndRekey(c, key, d, Passphrase([0x127, 0x2D, 0x2D]));
      && plan.Valid()
      && var conn := Connect(disk, JvmList(plan.First()), env);
         conn.ok && conn.disk.codec == Plain && conn.disk.contents == disk.contents
  {
    hide ArrivalOf, Connect, JvmList, KeyList, RekeyList, CodecFor;
    CommentIsEmptyKey();
    var plan, arrived := OpenAndRekey(c, key, d, Passphrase([0x127, 0x2D, 0x2D])), OpenAndRekey(c, key, d, EMPTY_KEY);
    ArrivedPlan(true, plan);
    WorkingFirst(true, plan, disk, env);
    FirstIsSafe(arrived, disk, disk, env);
    EmptyKeyIsPlain(d, EMPTY_KEY);
  }
}
