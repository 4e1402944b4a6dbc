/** The JVM driver, with its packing and its cache, against the native driver that has neither. */
module Refinement {
  import opened Wrappers
  import opened Texts
  import opened Base64
  import opened Transport
  import opened Ciphers
  import opened Keys
  import opened McPragmas
  import opened Statements
  import opened Engine
  import opened Protocol
  import opened Connections
  import opened JdbcProperties
  import opened NativeDriver

  /******* What the carrier does to compiled lists *******/

  /** Carried statements are executed in this form. */
  function JvmList(statements: seq<Text>): seq<Text> {
    NonBlank(CarriedAll(statements))
  }

  predicate AllExact(statements: seq<Text>) {
    forall t :: t in statements ==> IsExact(t)
  }

  predicate StartsPlainly(t: Text) {
    t != [] && (t[0] == Unit('P') || t[0] == Unit('S'))
  }

  lemma AssignmentStart(target: string, value: Text)
    ensures StartsPlainly(Assignment(target, value))
  {
    assert Assignment(target, value)[0] == Ascii("PRAGMA " + target + " = ")[0];
  }

  lemma LineStart(m: Pragmas, schema: string, p: McPragma)
    requires p in m
    ensures StartsPlainly(Line(m, schema, p)) && StartsPlainly(NonTransientLine(m, p))
  {
    hide Assignment, PragmaName, IntegerText;
    AssignmentStart(schema + "." + PragmaName(p), m[p]);
    AssignmentStart(PragmaName(p), m[p]);
    AssignmentStart(PragmaName(KEY), m[p]);
    AssignmentStart(schema + "." + PragmaName(p), IntegerText(m[p]));
    AssignmentStart(MAIN + "." + PragmaName(p), m[p]);
    AssignmentStart(MAIN + "." + PragmaName(p), IntegerText(m[p]));
  }

  lemma {:induction false} LinesStart(m: Pragmas, schema: string, ps: seq<McPragma>)
    ensures forall t :: t in Lines(m, schema, ps) ==> StartsPlainly(t)
    ensures forall t :: t in NonTransientLines(m, ps) ==> StartsPlainly(t)
    decreases |ps|
  {
    hide Line, NonTransientLine, StartsPlainly;
    if ps != [] {
      LinesStart(m, schema, ps[1..]);
      if ps[0] in m {
        LineStart(m, schema, ps[0]);
      }
    }
  }

  lemma CompiledStart(m: Pragmas)
    ensures forall t :: t in StatementsOf(m) ==> StartsPlainly(t)
  {
    hide Lines, NonTransientLines;
    LinesStart(m, TEMP, ALL);
    LinesStart(m, MAIN, ALL);
    assert StartsPlainly(CHECK_SQL) && StartsPlainly(JOURNAL_SQL);
  }

  lemma CarriedStart(t: Text)
    requires StartsPlainly(t)
    ensures !IsBlank(Carried(t))
  {
    assert Carried(t)[0] == FromByte(ToByte(t[0])) == t[0];
    assert Carried(t)[0] in Carried(t);
  }

  /** No compiled statement is lost on the way, and each arrives carried through its bytes. */
  lemma JvmListCarries(statements: seq<Text>)
    requires forall t :: t in statements ==> StartsPlainly(t)
    ensures JvmList(statements) == CarriedAll(statements)
  {
    forall t | t in CarriedAll(statements)
      ensures !IsBlank(t)
    {
      var i :| 0 <= i < |statements| && CarriedAll(statements)[i] == t;
      CarriedStart(statements[i]);
    }
  }

  /** A compiled list arrives unchanged exactly when it holds only units that survive. */
  lemma JvmListExact(statements: seq<Text>)
    requires forall t :: t in statements ==> StartsPlainly(t)
    ensures JvmList(statements) == statements <==> AllExact(statements)
  {
    JvmListCarries(statements);
    forall i | 0 <= i < |statements|
      ensures CarriedAll(statements)[i] == statements[i] <==> IsExact(statements[i])
    {
      CarriedExact(statements[i]);
    }
    if AllExact(statements) {
      assert forall i :: 0 <= i < |statements| ==> statements[i] in statements;
    }
  }

  /******* Which keys make exact lists *******/

  lemma AsciiExact(s: string)
    requires forall c :: c in s ==> c as int < 0x80
    ensures IsExact(Ascii(s))
  {
    forall u | u in Ascii(s)
      ensures IsExactUnit(u)
    {
      var i :| 0 <= i < |s| && Ascii(s)[i] == u;
      assert s[i] in s;
    }
  }

  lemma AssignmentExact(target: string, value: Text)
    requires forall c :: c in target ==> c as int < 0x80
    ensures IsExact(Assignment(target, value)) <==> IsExact(value)
  {
    var s := "PRAGMA " + target + " = ";
    assert forall c :: c in s ==> c in "PRAGMA " || c in target || c in " = ";
    AsciiExact(s);
  }

  lemma ParameterLineExact(m: Pragmas, schema: string, p: McPragma)
    requires p in m && p != KEY && p != RE_KEY
    requires schema == MAIN || schema == TEMP
    requires p == CIPHER ==> IsExact(m[p])
    ensures IsExact(Line(m, schema, p))
  {
    hide Assignment, PragmaName, ToIntOrNull;
    var target := schema + "." + PragmaName(p);
    PragmaNamePlain(p);
    assert forall c :: c in target ==> c in schema || c == '.' || c in PragmaName(p);
    if p == CIPHER {
      AssignmentExact(target, m[p]);
    } else {
      AssignmentExact(target, IntegerText(m[p]));
    }
  }

  lemma {:induction false} ParameterLinesExact(m: Pragmas, schema: string, ps: seq<McPragma>)
    requires KEY !in ps && RE_KEY !in ps
    requires schema == MAIN || schema == TEMP
    requires CIPHER in m ==> IsExact(m[CIPHER])
    ensures AllExact(Lines(m, schema, ps))
    decreases |ps|
  {
    hide Line, IsExact;
    if ps != [] {
      assert ps[0] in ps;
      ParameterLinesExact(m, schema, ps[1..]);
      if ps[0] in m {
        ParameterLineExact(m, schema, ps[0]);
      }
    }
  }

  lemma CipherTextExact(c: Cipher)
    ensures IsExact(Ascii(CipherName(c)))
  {
    AsciiExact(CipherName(c));
  }

  /** The parameter statements hold only units that survive. */
  lemma ConfigLinesExact(c: EncryptionConfig)
    ensures AllExact(MainLines(c)) && AllExact(BeforeRekey(c))
  {
    hide Lines, EncryptionPragmas, IsExact, CipherName;
    AllPragmas();
    EncryptionPragmaAt(c, false, CIPHER);
    CipherTextExact(c.Cipher());
    ParameterLinesExact(EncryptionPragmas(c, false), MAIN, PARAMETERS);
    ParameterLinesExact(EncryptionPragmas(c, false), TEMP, PARAMETERS);
    FixedExact();
    AllExactConcat([CHECK_SQL, JOURNAL_SQL], Lines(EncryptionPragmas(c, false), TEMP, PARAMETERS));
  }

  lemma ListsWithExact(c: EncryptionConfig, literal: Text)
    ensures AllExact(KeyListWith(c, literal)) <==> IsExact(literal)
    ensures AllExact(RekeyListWith(c, literal)) <==> IsExact(literal)
  {
    hide MainLines, BeforeRekey, Assignment, IsExact;
    var key, rekey := Assignment(PragmaName(KEY), literal), Assignment(PragmaName(RE_KEY), literal);
    ConfigLinesExact(c);
    AssignmentExact(PragmaName(KEY), literal);
    AssignmentExact(PragmaName(RE_KEY), literal);
    AllExactOne(key);
    AllExactOne(rekey);
    AllExactConcat(MainLines(c), [key]);
    AllExactConcat(BeforeRekey(c), [rekey]);
    AllExactConcat(BeforeRekey(c) + [rekey], KeyListWith(c, literal));
  }

  /** Both lists are exact exactly for the keys that are. */
  lemma ListsExact(c: EncryptionConfig, key: Key)
    requires Usable(c, key)
    ensures AllExact(KeyList(c, key)) <==> IsExactKey(key)
    ensures AllExact(RekeyList(c, key)) <==> IsExactKey(key)
  {
    hide KeyListWith, RekeyListWith, IsExact, RetrieveFormatted, IsExactKey, KeyList, RekeyList, AllExact;
    ListShapes(c, key);
    ListsWithExact(c, RetrieveFormatted(key, c.Cipher()).value);
    FormattedExact(key, c.Cipher());
  }

  lemma AllExactOne(t: Text)
    ensures AllExact([t]) <==> IsExact(t)
  {
    assert t in [t];
  }

  lemma AllExactConcat(a: seq<Text>, b: seq<Text>)
    ensures AllExact(a + b) <==> AllExact(a) && AllExact(b)
  {
    hide IsExact;
    assert forall t :: t in a + b <==> t in a || t in b;
  }

  lemma FixedExact()
    ensures AllExact([CHECK_SQL, JOURNAL_SQL])
  {
    hide IsExact;
    AsciiExact("SELECT 1 FROM sqlite_schema");
    AsciiExact("PRAGMA journal_mode = DELETE");
  }

  lemma KeyedCipher(c: EncryptionConfig, key: Key, isRekey: bool)
    requires KeyedPragmas(c, key, isRekey).Ok?
    ensures CIPHER in KeyedPragmas(c, key, isRekey).value
    ensures KeyedPragmas(c, key, isRekey).value[CIPHER] == Ascii(CipherName(c.Cipher()))
  {
    hide EncryptionPragmas, RetrieveFormatted, CipherName;
    EncryptionPragmaAt(c, false, CIPHER);
  }

  /******* Runs of connections *******/

  /** What one driver is created with: a configuration and key, and perhaps a rekey target. */
  datatype Plan =
    | Open(config: EncryptionConfig, key: Key)
    | OpenAndRekey(config: EncryptionConfig, key: Key, target: EncryptionConfig, rekey: Key)
  {
    predicate Valid() {
      Usable(config, key) && (OpenAndRekey? ==> Usable(target, rekey))
    }

    predicate IsExact() {
      IsExactKey(key) && (OpenAndRekey? ==> IsExactKey(rekey))
    }

    predicate HasWholeKeys() {
      IsWhole(key) && (OpenAndRekey? ==> IsWhole(rekey))
    }

    /** The statements of the first connection. */
    function First(): seq<Text>
      requires Valid()
    {
      if Open? then KeyList(config, key) else KeyList(config, key) + RekeyList(target, rekey)
    }

    /** The statements of every connection after a successful first one. */
    function Later(): seq<Text>
      requires Valid()
    {
      if Open? then KeyList(config, key) else KeyList(target, rekey)
    }

    function KeyMap(): Pragmas
      requires Valid()
    {
      KeyedPragmasCompile(config, key, false);
      KeyedPragmas(config, key, false).value
    }

    function RekeyMap(): Option<Pragmas>
      requires Valid()
    {
      if Open? then None
      else
        KeyedPragmasCompile(target, rekey, true);
        Some(KeyedPragmas(target, rekey, true).value)
    }

    /** The key map once the first connection has succeeded. */
    function LaterMap(): Pragmas
      requires Valid()
    {
      if Open? then KeyMap() else Swapped(RekeyMap().value)
    }
  }

  /** `KEY_IDENTIFIER`: 64 hex digits. */
  predicate IsKeyIdentifier(id: Text) {
    |id| == 64 && forall u :: u in id ==> HexValue(u).Some?
  }

  /** What it is made from is 32 random bytes; it fits on a line and holds no quote. */
  lemma IdentifierFits(id: Text)
    requires IsKeyIdentifier(id)
    ensures |id| <= LINE_INTERVAL && QUOTE !in id
  {
    assert HexValue(QUOTE).None?;
  }

  lemma IdentifierOfBytes(bytes: seq<Byte>)
    requires |bytes| == 32
    ensures IsKeyIdentifier(Hex(bytes))
  {}

  /** The states of a driver: as created, and after its first successful connection. */
  ghost predicate JvmFresh(plan: Plan, s: State)
    requires plan.Valid()
  {
    s.key == Some(plan.KeyMap()) && s.rekey == plan.RekeyMap() && !s.initialized && PASSWORD !in s.entries
  }

  ghost predicate JvmReady(plan: Plan, id: Text, s: State)
    requires plan.Valid()
  {
    && s.key == Some(plan.LaterMap()) && s.rekey == None && s.initialized
    && PASSWORD in s.entries && s.entries[PASSWORD] == Packed(id, plan.Later())
    && HEX_KEY_MODE !in s.entries
  }

  ghost predicate NativeFresh(plan: Plan, s: NativeState)
    requires plan.Valid()
  {
    s == NativeState(plan.KeyMap(), plan.RekeyMap())
  }

  ghost predicate NativeReady(plan: Plan, s: NativeState)
    requires plan.Valid()
  {
    s.key == plan.LaterMap() && (s.rekey.None? || s.rekey == Some(map[]))
  }

  function JvmRun(s: State, id: Text, disk: Disk, envs: seq<Env>): seq<Connected>
    decreases |envs|
  {
    if envs == [] then []
    else
      var (next, conn) := WithKeyProps(s, id, disk, envs[0]);
      [conn] + JvmRun(next, id, conn.disk, envs[1..])
  }

  function NativeRun(s: NativeState, disk: Disk, envs: seq<Env>): seq<Connected>
    decreases |envs|
  {
    if envs == [] then []
    else
      var (next, conn) := NativeConnect(s, disk, envs[0]);
      [conn] + NativeRun(next, conn.disk, envs[1..])
  }

  /** Connections that all execute the same list. */
  function SameListRun(statements: seq<Text>, disk: Disk, envs: seq<Env>): seq<Connected>
    decreases |envs|
  {
    if envs == [] then []
    else
      var conn := Connect(disk, statements, envs[0]);
      [conn] + SameListRun(statements, conn.disk, envs[1..])
  }

  /** The maps of a plan compile to its lists. */
  lemma PlanCompiles(plan: Plan)
    requires plan.Valid()
    ensures Compiled(plan.KeyMap()) == Ok(KeyList(plan.config, plan.key))
    ensures plan.OpenAndRekey? ==> Compiled(plan.RekeyMap().value) == Ok(RekeyList(plan.target, plan.rekey))
    ensures Compiled(plan.LaterMap()) == Ok(plan.Later())
    ensures plan.OpenAndRekey? ==> plan.RekeyMap().value != map[] && KEY !in plan.RekeyMap().value
    ensures plan.OpenAndRekey? ==> plan.LaterMap() == KeyedPragmas(plan.target, plan.rekey, false).value
  {
    hide StatementsOf, KeyedPragmas, Compiles;
    KeyedPragmasCompile(plan.config, plan.key, false);
    if plan.OpenAndRekey? {
      KeyedPragmasCompile(plan.target, plan.rekey, true);
      KeyedPragmasCompile(plan.target, plan.rekey, false);
      SwappedIsFresh(plan.target, plan.rekey);
      KeyedCipher(plan.target, plan.rekey, true);
    }
  }

  lemma ListsStart(plan: Plan)
    requires plan.Valid()
    ensures forall t :: t in plan.First() ==> StartsPlainly(t)
    ensures forall t :: t in plan.Later() ==> StartsPlainly(t)
  {
    hide StatementsOf, KeyedPragmas, StartsPlainly;
    KeyedPragmasCompile(plan.config, plan.key, false);
    CompiledStart(KeyedPragmas(plan.config, plan.key, false).value);
    if plan.OpenAndRekey? {
      KeyedPragmasCompile(plan.target, plan.rekey, true);
      KeyedPragmasCompile(plan.target, plan.rekey, false);
      CompiledStart(KeyedPragmas(plan.target, plan.rekey, true).value);
      CompiledStart(KeyedPragmas(plan.target, plan.rekey, false).value);
    }
  }

  /** A packed list is what the connection executes, as it comes out of the carrier. */
  lemma PackedConnect(id: Text, entries: Entries, statements: seq<Text>, disk: Disk, env: Env)
    requires IsKeyIdentifier(id)
    requires PASSWORD in entries && HEX_KEY_MODE !in entries && entries[PASSWORD] == Packed(id, statements)
    ensures JdbcConnect(id, entries, disk, env) == Connect(disk, JvmList(statements), env)
  {
    hide Connect, Intercepted, PragmaKeySql, Packed;
    IdentifierFits(id);
    CarrierRoundTrip(id, statements);
    PackedNonEmpty(id, statements);
  }

  lemma PackedNonEmpty(id: Text, statements: seq<Text>)
    requires IsKeyIdentifier(id)
    ensures Packed(id, statements) != []
  {
    IdentifierFits(id);
    PackedStartsWithIdentifier(id, EncodedStatements(statements));
  }

  /**
   * The first connection on the JVM executes the carried first list. When it fails nothing has
   * changed, so that a retry is a first attempt again; when it succeeds the driver is ready.
   */
  lemma JvmFirst(plan: Plan, id: Text, s: State, disk: Disk, env: Env)
    requires plan.Valid() && IsKeyIdentifier(id) && JvmFresh(plan, s)
    ensures var (next, conn) := WithKeyProps(s, id, disk, env);
      && conn == Connect(disk, JvmList(plan.First()), env)
      && (if conn.ok then JvmReady(plan, id, next) else next == s)
  {
    hide Compiled, Connect, Packed, JvmList, Swapped, JdbcConnect, KeyList, RekeyList;
    PlanCompiles(plan);
    assert KeyList(plan.config, plan.key) + [] == KeyList(plan.config, plan.key);
    assert plan.Later() + [] == plan.Later();
    var props := s.entries[PASSWORD := Packed(id, plan.First())] - {HEX_KEY_MODE};
    assert PackedEntries(s, s.entries, id) == Ok(props);
    PackedConnect(id, props, plan.First(), disk, env);
    var after := AfterConnect(s);
    assert after.key == Some(plan.LaterMap()) && after.rekey == None;
    assert PackedEntries(after, s.entries, id)
        == Ok(s.entries[PASSWORD := Packed(id, plan.Later())] - {HEX_KEY_MODE});
  }

  /** Every connection of a ready driver executes the carried later list, failed ones included. */
  lemma JvmLater(plan: Plan, id: Text, s: State, disk: Disk, env: Env)
    requires plan.Valid() && IsKeyIdentifier(id) && JvmReady(plan, id, s)
    ensures WithKeyProps(s, id, disk, env) == (s, Connect(disk, JvmList(plan.Later()), env))
  {
    hide Connect, Packed, JvmList, JdbcConnect;
    PackedConnect(id, s.entries, plan.Later(), disk, env);
  }

  lemma NativeFirst(plan: Plan, s: NativeState, disk: Disk, env: Env)
    requires plan.Valid() && NativeFresh(plan, s)
    ensures var (next, conn) := NativeConnect(s, disk, env);
      && conn == Connect(disk, plan.First(), env)
      && (conn.ok ==> NativeReady(plan, next))
  {
    hide Compiles, StatementsOf, Swapped, KeyList, RekeyList, Run;
    PlanCompiles(plan);
    assert KeyList(plan.config, plan.key) + [] == KeyList(plan.config, plan.key);
    assert NativeStatements(s) == Ok(plan.First());
    assert BothCompile(s);
  }

  lemma NativeLater(plan: Plan, s: NativeState, disk: Disk, env: Env)
    requires plan.Valid() && NativeReady(plan, s)
    ensures NativeConnect(s, disk, env) == (s, Connect(disk, plan.Later(), env))
  {
    hide Compiles, StatementsOf, Connect, KeyList, RekeyList;
    PlanCompiles(plan);
    assert plan.Later() + [] == plan.Later();
    assert NativeStatements(s) == Ok(plan.Later());
  }

  /** A native connection leaves the maps alone, or leaves the driver ready. */
  lemma NativeStateStep(plan: Plan, s: NativeState, disk: Disk, env: Env)
    requires plan.Valid() && NativeFresh(plan, s)
    ensures var (next, conn) := NativeConnect(s, disk, env);
      (next == s && !conn.ok)
      || (plan.OpenAndRekey? && NativeReady(plan, next) && conn.executed == plan.First())
      || (plan.Open? && next == s && NativeReady(plan, next))
    ensures var (next, conn) := NativeConnect(s, disk, env);
      plan.OpenAndRekey? && conn.executed == plan.First() ==> NativeReady(plan, next)
  {
    hide Compiles, StatementsOf, Swapped, KeyList, RekeyList, Run;
    PlanCompiles(plan);
    assert KeyList(plan.config, plan.key) + [] == KeyList(plan.config, plan.key);
    assert NativeStatements(s) == Ok(plan.First());
    assert BothCompile(s);
  }

  lemma {:induction false} JvmLaterRun(plan: Plan, id: Text, s: State, disk: Disk, envs: seq<Env>)
    requires plan.Valid() && IsKeyIdentifier(id) && JvmReady(plan, id, s)
    ensures JvmRun(s, id, disk, envs) == SameListRun(JvmList(plan.Later()), disk, envs)
    decreases |envs|
  {
    hide WithKeyProps, Connect, JvmReady;
    if envs != [] {
      JvmLater(plan, id, s, disk, envs[0]);
      JvmLaterRun(plan, id, s, Connect(disk, JvmList(plan.Later()), envs[0]).disk, envs[1..]);
    }
  }

  lemma {:induction false} NativeLaterRun(plan: Plan, s: NativeState, disk: Disk, envs: seq<Env>)
    requires plan.Valid() && NativeReady(plan, s)
    ensures NativeRun(s, disk, envs) == SameListRun(plan.Later(), disk, envs)
    decreases |envs|
  {
    hide NativeConnect, Connect, NativeReady;
    if envs != [] {
      NativeLater(plan, s, disk, envs[0]);
      NativeLaterRun(plan, s, Connect(disk, plan.Later(), envs[0]).disk, envs[1..]);
    }
  }

  /**
   * JVM refines native. A driver comes into being with a successful first connection; from there
   * on, for every n and whatever happens to the connections in between, the n-th one executes on
   * the JVM the carried form of the statements that it executes natively.
   */
  lemma DriverRuns(plan: Plan, id: Text, s: State, n: NativeState, disk: Disk, envs: seq<Env>)
    requires plan.Valid() && IsKeyIdentifier(id) && JvmFresh(plan, s) && NativeFresh(plan, n) && envs != []
    ensures Connect(disk, JvmList(plan.First()), envs[0]).ok ==>
      var first := Connect(disk, JvmList(plan.First()), envs[0]);
      JvmRun(s, id, disk, envs) == [first] + SameListRun(JvmList(plan.Later()), first.disk, envs[1..])
    ensures Connect(disk, plan.First(), envs[0]).ok ==>
      var first := Connect(disk, plan.First(), envs[0]);
      NativeRun(n, disk, envs) == [first] + SameListRun(plan.Later(), first.disk, envs[1..])
  {
    hide WithKeyProps, NativeConnect, Connect, JvmReady, NativeReady, JvmFresh, NativeFresh;
    JvmFirst(plan, id, s, disk, envs[0]);
    NativeFirst(plan, n, disk, envs[0]);
    var (jvm, jvmConn) := WithKeyProps(s, id, disk, envs[0]);
    var (native, nativeConn) := NativeConnect(n, disk, envs[0]);
    if jvmConn.ok {
      JvmLaterRun(plan, id, jvm, jvmConn.disk, envs[1..]);
    }
    if nativeConn.ok {
      NativeLaterRun(plan, native, nativeConn.disk, envs[1..]);
    }
  }

  /** The lists of a plan survive the carrier exactly when its keys do. */
  lemma PlanExact(plan: Plan)
    requires plan.Valid()
    ensures JvmList(plan.First()) == plan.First() <==> plan.IsExact()
    ensures plan.IsExact() ==> JvmList(plan.Later()) == plan.Later()
  {
    hide KeyList, RekeyList, JvmList, StartsPlainly;
    ListsStart(plan);
    JvmListExact(plan.First());
    JvmListExact(plan.Later());
    ListsExact(plan.config, plan.key);
    if plan.OpenAndRekey? {
      ListsExact(plan.target, plan.rekey);
      AllExactConcat(KeyList(plan.config, plan.key), RekeyList(plan.target, plan.rekey));
    }
  }

  /** A connection that fails after its whole rekey list: natively the maps are swapped by then. */
  predicate SwapsEarly(plan: Plan, conn: Connected)
    requires plan.Valid()
  {
    plan.OpenAndRekey? && !conn.ok && conn.executed == plan.First()
  }

  ghost predicate NoneSwapsEarly(plan: Plan, run: seq<Connected>)
    requires plan.Valid()
  {
    forall i :: 0 <= i < |run| ==> !SwapsEarly(plan, run[i])
  }

  /** Any other failing connection leaves the native maps alone. */
  lemma NativeFailure(plan: Plan, n: NativeState, disk: Disk, env: Env)
    requires plan.Valid() && NativeFresh(plan, n)
    ensures var (next, conn) := NativeConnect(n, disk, env);
      !conn.ok ==> if SwapsEarly(plan, conn) then NativeReady(plan, next) else next == n
  {
    hide NativeConnect, NativeReady, NativeFresh;
    NativeStateStep(plan, n, disk, env);
  }

  lemma NoneSwapsEarlyTail(plan: Plan, conn: Connected, rest: seq<Connected>)
    requires plan.Valid()
    ensures NoneSwapsEarly(plan, [conn] + rest) <==> !SwapsEarly(plan, conn) && NoneSwapsEarly(plan, rest)
  {
    hide SwapsEarly;
    var run := [conn] + rest;
    if NoneSwapsEarly(plan, run) {
      assert run[0] == conn;
      assert forall i :: 0 <= i < |rest| ==> rest[i] == run[i + 1];
    }
  }

  /**
   * For keys whose units survive, the two platforms cannot be told apart as long as none but the
   * last connection swaps early: the same statements, files and outcomes, one by one. The first
   * connection is the same in any case, and so is the whole run when that one succeeds.
   */
  lemma {:induction false} JvmRefinesNative(
      plan: Plan, id: Text, s: State, n: NativeState, disk: Disk, envs: seq<Env>)
    requires plan.Valid() && IsKeyIdentifier(id) && JvmFresh(plan, s) && NativeFresh(plan, n) && envs != []
    requires plan.IsExact()
    ensures JvmRun(s, id, disk, envs)[0] == NativeRun(n, disk, envs)[0]
    ensures JvmRun(s, id, disk, envs)[0].ok ==> JvmRun(s, id, disk, envs) == NativeRun(n, disk, envs)
    ensures NoneSwapsEarly(plan, NativeRun(n, disk, envs[..|envs| - 1])) ==>
      JvmRun(s, id, disk, envs) == NativeRun(n, disk, envs)
    decreases |envs|
  {
    hide JvmList, Connect, JvmFresh, NativeFresh, WithKeyProps, NativeConnect, JvmReady, NativeReady, SwapsEarly,
      NoneSwapsEarly;
    PlanExact(plan);
    JvmFirst(plan, id, s, disk, envs[0]);
    NativeFirst(plan, n, disk, envs[0]);
    DriverRuns(plan, id, s, n, disk, envs);
    var init := envs[..|envs| - 1];
    if |envs| > 1 && !JvmRun(s, id, disk, envs)[0].ok && NoneSwapsEarly(plan, NativeRun(n, disk, init)) {
      var (next, conn) := NativeConnect(n, disk, envs[0]);
      assert init[0] == envs[0] && init[1..] == envs[1..][..|envs| - 2];
      NoneSwapsEarlyTail(plan, conn, NativeRun(next, conn.disk, init[1..]));
      NativeFailure(plan, n, disk, envs[0]);
      JvmRefinesNative(plan, id, s, n, conn.disk, envs[1..]);
    }
  }

  /******* A rekey list runs at most once *******/

  predicate IsRekeyStatement(t: Text) {
    Ascii("PRAGMA rekey = ") <= t
  }

  lemma KeyLineIsNoRekey(literal: Text)
    ensures var t := Assignment(PragmaName(KEY), literal);
      !IsRekeyStatement(t) && !IsRekeyStatement(Carried(t))
  {
    var t := Assignment(PragmaName(KEY), literal);
    assert t[7] == Unit('k') && Carried(t)[7] == FromByte(ToByte(Unit('k')));
    assert Ascii("PRAGMA rekey = ")[7] == Unit('r');
  }

  lemma ParameterLineIsNoRekey(m: Pragmas, p: McPragma)
    requires p in m && p != KEY && p != RE_KEY
    ensures var t := Line(m, MAIN, p);
      !IsRekeyStatement(t) && !IsRekeyStatement(Carried(t))
  {
    hide PragmaName, IntegerText;
    var t := Line(m, MAIN, p);
    var target := MAIN + "." + PragmaName(p);
    assert t[7] == Unit(("PRAGMA " + target + " = ")[7]) == Unit('m');
    assert Carried(t)[7] == FromByte(ToByte(Unit('m')));
    assert Ascii("PRAGMA rekey = ")[7] == Unit('r');
  }

  lemma {:induction false} ParameterLinesNoRekey(m: Pragmas, ps: seq<McPragma>)
    requires KEY !in ps && RE_KEY !in ps
    ensures forall t :: t in Lines(m, MAIN, ps) ==> !IsRekeyStatement(t) && !IsRekeyStatement(Carried(t))
    decreases |ps|
  {
    hide Line, IsRekeyStatement, Carried;
    if ps != [] {
      assert ps[0] in ps;
      ParameterLinesNoRekey(m, ps[1..]);
      if ps[0] in m {
        ParameterLineIsNoRekey(m, ps[0]);
      }
    }
  }

  lemma KeyListNoRekey(c: EncryptionConfig, key: Key)
    requires Usable(c, key)
    ensures forall t :: t in KeyList(c, key) ==> !IsRekeyStatement(t)
    ensures forall t :: t in JvmList(KeyList(c, key)) ==> !IsRekeyStatement(t)
  {
    hide Lines, Assignment, EncryptionPragmas, IsRekeyStatement, Carried, RetrieveFormatted, KeyList, RekeyListWith;
    ListShapes(c, key);
    AllPragmas();
    ParameterLinesNoRekey(EncryptionPragmas(c, false), PARAMETERS);
    KeyLineIsNoRekey(RetrieveFormatted(key, c.Cipher()).value);
    CarriedNoRekey(KeyList(c, key));
  }

  lemma {:induction false} CarriedNoRekey(statements: seq<Text>)
    requires forall t :: t in statements ==> !IsRekeyStatement(Carried(t))
    ensures forall t :: t in JvmList(statements) ==> !IsRekeyStatement(t)
    decreases |statements|
  {
    hide IsRekeyStatement, Carried;
    if statements != [] {
      CarriedNoRekey(statements[1..]);
      assert CarriedAll(statements)[1..] == CarriedAll(statements[1..]);
    }
  }

  lemma {:induction false} SameListExecuted(statements: seq<Text>, disk: Disk, envs: seq<Env>, i: nat, t: Text)
    requires i < |SameListRun(statements, disk, envs)|
    requires t in SameListRun(statements, disk, envs)[i].executed
    ensures t in statements
    decreases |envs|
  {
    hide Run;
    if i > 0 {
      SameListExecuted(statements, Connect(disk, statements, envs[0]).disk, envs[1..], i - 1, t);
    }
  }

  lemma LaterNoRekey(plan: Plan, t: Text)
    requires plan.Valid() && IsRekeyStatement(t)
    ensures t !in plan.Later() && t !in JvmList(plan.Later())
  {
    hide JvmList, KeyList, IsRekeyStatement;
    if plan.Open? {
      KeyListNoRekey(plan.config, plan.key);
    } else {
      KeyListNoRekey(plan.target, plan.rekey);
    }
  }

  /** The connections of a run after its first are a run. */
  lemma JvmRunTail(s: State, id: Text, disk: Disk, envs: seq<Env>, i: nat)
    requires i < |JvmRun(s, id, disk, envs)|
    ensures envs != []
    ensures var (next, conn) := WithKeyProps(s, id, disk, envs[0]);
      var run, rest := JvmRun(s, id, disk, envs), JvmRun(next, id, conn.disk, envs[1..]);
      |run| == |rest| + 1 && run[i] == if i == 0 then conn else rest[i - 1]
  {
    hide WithKeyProps;
  }

  lemma NativeRunTail(n: NativeState, disk: Disk, envs: seq<Env>, i: nat)
    requires i < |NativeRun(n, disk, envs)|
    ensures envs != []
    ensures var (next, conn) := NativeConnect(n, disk, envs[0]);
      var run, rest := NativeRun(n, disk, envs), NativeRun(next, conn.disk, envs[1..]);
      |run| == |rest| + 1 && run[i] == if i == 0 then conn else rest[i - 1]
  {
    hide NativeConnect;
  }

  lemma {:induction false} JvmRekeysOnce(
      plan: Plan, id: Text, s: State, disk: Disk, envs: seq<Env>, j: nat, i: nat, t: Text)
    requires plan.Valid() && IsKeyIdentifier(id) && JvmFresh(plan, s) && IsRekeyStatement(t)
    requires j < i < |JvmRun(s, id, disk, envs)| && JvmRun(s, id, disk, envs)[j].ok
    ensures t !in JvmRun(s, id, disk, envs)[i].executed
    decreases |envs|
  {
    hide JvmList, Connect, JvmFresh, WithKeyProps, IsRekeyStatement, JvmReady, SameListRun, JvmRun, Plan.First,
      Plan.Later;
    JvmRunTail(s, id, disk, envs, j);
    JvmRunTail(s, id, disk, envs, i);
    JvmFirst(plan, id, s, disk, envs[0]);
    var (next, conn) := WithKeyProps(s, id, disk, envs[0]);
    if conn.ok {
      JvmLaterRun(plan, id, next, conn.disk, envs[1..]);
      LaterNoRekey(plan, t);
      if t in JvmRun(s, id, disk, envs)[i].executed {
        SameListExecuted(JvmList(plan.Later()), conn.disk, envs[1..], i - 1, t);
      }
    } else {
      JvmRekeysOnce(plan, id, s, conn.disk, envs[1..], j - 1, i - 1, t);
    }
  }

  lemma {:induction false} NativeRekeysOnce(
      plan: Plan, n: NativeState, disk: Disk, envs: seq<Env>, j: nat, i: nat, t: Text)
    requires plan.Valid() && NativeFresh(plan, n) && IsRekeyStatement(t)
    requires j < i < |NativeRun(n, disk, envs)| && NativeRun(n, disk, envs)[j].ok
    ensures t !in NativeRun(n, disk, envs)[i].executed
    decreases |envs|
  {
    hide Connect, NativeFresh, NativeConnect, IsRekeyStatement, NativeReady, SameListRun, NativeRun, Plan.First,
      Plan.Later;
    NativeRunTail(n, disk, envs, j);
    NativeRunTail(n, disk, envs, i);
    NativeStateStep(plan, n, disk, envs[0]);
    var (next, conn) := NativeConnect(n, disk, envs[0]);
    if NativeReady(plan, next) {
      NativeLaterRun(plan, next, conn.disk, envs[1..]);
      LaterNoRekey(plan, t);
      if t in NativeRun(n, disk, envs)[i].executed {
        SameListExecuted(plan.Later(), conn.disk, envs[1..], i - 1, t);
      }
    } else {
      NativeRekeysOnce(plan, n, conn.disk, envs[1..], j - 1, i - 1, t);
    }
  }

  /**
   * At most one successful connection of a driver executes a rekey statement: in every run, no
   * connection after a successful one does, on either platform and whatever failed before.
   */
  lemma RekeyAtMostOnce(
      plan: Plan, id: Text, s: State, n: NativeState, disk: Disk, envs: seq<Env>, j: nat, i: nat, t: Text)
    requires plan.Valid() && IsKeyIdentifier(id) && JvmFresh(plan, s) && NativeFresh(plan, n)
    requires j < i && IsRekeyStatement(t)
    ensures var run := JvmRun(s, id, disk, envs);
      i < |run| && run[j].ok ==> t !in run[i].executed
    ensures var run := NativeRun(n, disk, envs);
      i < |run| && run[j].ok ==> t !in run[i].executed
  {
    hide JvmFresh, NativeFresh, IsRekeyStatement, JvmRun, NativeRun;
    if i < |JvmRun(s, id, disk, envs)| && JvmRun(s, id, disk, envs)[j].ok {
      JvmRekeysOnce(plan, id, s, disk, envs, j, i, t);
    }
    if i < |NativeRun(n, disk, envs)| && NativeRun(n, disk, envs)[j].ok {
      NativeRekeysOnce(plan, n, disk, envs, j, i, t);
    }
  }

  /******* After clearing *******/

  /**
   * Once `clear` is through, no connection attempt executes any statement of the protocol: on
   * the JVM an uninitialised one fails while packing and a ready one carries no password, and
   * native ones fail before their first statement, as their key map is empty.
   */
  lemma AfterClear(s: State, n: NativeState, id: Text, disk: Disk, env: Env)
    requires s.key.Some? && n.key == map[]
    ensures var (next, conn) := WithKeyProps(Cleared(s), id, disk, env);
      conn.executed == [] && next == Cleared(s) && conn.disk.codec == disk.codec && conn.disk.contents == disk.contents
      && (!s.initialized ==> !conn.ok)
    ensures NativeConnect(n, disk, env) == (n, Connected(disk, [], false))
  {
    var cleared := Cleared(s);
    assert Compiled(map[]).Err?;
    assert JdbcStatements(id, cleared.entries) == Ok([]);
  }

  /******* What the factory never lets happen *******/

  /**
   * A map that does not compile: on the JVM nothing is executed, as packing comes first; natively
   * the key list is, when it is the rekey map that does not compile. Either way the connection
   * fails and both maps stay.
   */
  lemma UncompiledMaps(s: State, n: NativeState, id: Text, disk: Disk, env: Env)
    requires s.key == Some(n.key) && s.rekey == n.rekey && !s.initialized && PASSWORD !in s.entries
    requires Compiled(n.key).Err? || (WantsRekey(n) && Compiled(n.rekey.value).Err?)
    ensures WithKeyProps(s, id, disk, env) == (s, Connected(disk, [], false))
    ensures NativeConnect(n, disk, env).0 == n
    ensures NativeConnect(n, disk, env).1
         == if Compiled(n.key).Err? then Connected(disk, [], false)
            else Connect(disk, Compiled(n.key).value, env).(ok := false)
  {
    hide Compiles, StatementsOf, Connect, Packed;
  }

  /**
   * An object that comes with a password of its own packs nothing: JDBC is given that password,
   * for the first connection and for later ones, and the maps are swapped all the same.
   */
  lemma OwnPassword(s: State, id: Text, disk: Disk, env: Env)
    requires s.key.Some? && PASSWORD in s.entries
    ensures var (next, conn) := WithKeyProps(s, id, disk, env);
      && conn == JdbcConnect(id, s.entries, disk, env)
      && next.entries == s.entries
      && (s.initialized || !conn.ok ==> next == s)
      && (!s.initialized && conn.ok ==>
           && next.initialized && next.rekey.None?
           && next.key == Some(if s.rekey.Some? then Swapped(s.rekey.value) else s.key.value))
  {
    hide JdbcConnect, Swapped, PackedEntries;
  }

  /** An object without a key map never changes, but for the flag, and connects with what it has. */
  lemma Ephemeral(s: State, id: Text, disk: Disk, env: Env)
    requires s.key.None?
    ensures var (next, conn) := WithKeyProps(s, id, disk, env);
      && conn == JdbcConnect(id, s.entries, disk, env)
      && next == s.(initialized := s.initialized || conn.ok)
  {
    hide JdbcConnect;
  }
}
