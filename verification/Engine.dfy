/**
 * The SQLite3MultipleCiphers engine, as far as the driver relies on it. Everything assumed about
 * it stands in this file: how it reads a statement, what resets what, which defaults it has,
 * when a file opens, and that a rekey is all or nothing. How it reads the value of a key follows
 * its tokenizer (`SqlTokens`). It has names of its own for schemas, pragmas and ciphers, none of
 * them taken from what the driver prints.
 */
module Engine {
  import opened Wrappers
  import opened Texts
  import opened SqlTokens
  import opened Ciphers
  import opened Statements

  /** One register file: `hmac_check` and `mc_legacy_wal` are not reset by `legacy`. */
  datatype Registers = Registers(cipher: Cipher, params: map<McPragma, int>, hmacCheck: int, legacyWal: int)

  /** How a file is encrypted, and how a session reads it. An empty secret means not at all. */
  datatype Codec = Plain | Encrypted(cipher: Cipher, params: map<McPragma, int>, secret: Text)

  type Contents = seq<Text>

  datatype Disk = Disk(codec: Codec, contents: Contents, wal: bool)

  datatype Session = Session(main: Registers, temp: Registers, codec: Codec)

  datatype World = World(session: Session, disk: Disk)

  function CodecOf(r: Registers, secret: Text): Codec {
    if secret == [] then Plain else Encrypted(r.cipher, r.params, secret)
  }

  /** What `legacy = n` sets a cipher's parameters to. */
  function Defaults(c: Cipher, legacy: int): map<McPragma, int> {
    match c
    case AES128CBC => map[LEGACY := legacy, LEGACY_PAGE_SIZE := 0]
    case AES256CBC => map[LEGACY := legacy, LEGACY_PAGE_SIZE := 0, KDF_ITER := 4001]
    case CHACHA20 =>
      map[LEGACY := legacy, LEGACY_PAGE_SIZE := 4096, KDF_ITER := if legacy == 0 then 64007 else 12345]
    case RC4 => map[LEGACY := legacy, LEGACY_PAGE_SIZE := 0]
    case ASCON128 => map[LEGACY := legacy, KDF_ITER := 64007]
    case SQLCIPHER =>
      match legacy
      case 1 =>
        map[LEGACY := 1, LEGACY_PAGE_SIZE := 1024, KDF_ITER := 4000, FAST_KDF_ITER := 2, HMAC_USE := 0,
            KDF_ALGORITHM := 0, HMAC_ALGORITHM := 0]
      case 2 =>
        map[LEGACY := 2, LEGACY_PAGE_SIZE := 1024, KDF_ITER := 4000, FAST_KDF_ITER := 2, HMAC_USE := 1,
            HMAC_PGNO := 1, HMAC_SALT_MASK := 58, KDF_ALGORITHM := 0, HMAC_ALGORITHM := 0]
      case 3 =>
        map[LEGACY := 3, LEGACY_PAGE_SIZE := 1024, KDF_ITER := 64000, FAST_KDF_ITER := 2, HMAC_USE := 1,
            HMAC_PGNO := 1, HMAC_SALT_MASK := 58, KDF_ALGORITHM := 0, HMAC_ALGORITHM := 0]
      case _ =>
        map[LEGACY := legacy, LEGACY_PAGE_SIZE := 4096, KDF_ITER := 256000, FAST_KDF_ITER := 2, HMAC_USE := 1,
            HMAC_PGNO := 1, HMAC_SALT_MASK := 58, KDF_ALGORITHM := 2, HMAC_ALGORITHM := 2,
            PLAIN_TEXT_HEADER_SIZE := 0]
  }

  /******* Reading a statement *******/

  /** What a `PRAGMA x = y` assigns to. */
  datatype Target = JournalMode | KeyOf | RekeyTo | Param(temp: bool, p: McPragma)

  /** What the engine calls a cipher parameter. */
  function ParameterName(p: McPragma): string {
    match p
    case CIPHER => "cipher"
    case HMAC_CHECK => "hmac_check"
    case MC_LEGACY_WAL => "mc_legacy_wal"
    case LEGACY => "legacy"
    case LEGACY_PAGE_SIZE => "legacy_page_size"
    case KDF_ITER => "kdf_iter"
    case FAST_KDF_ITER => "fast_kdf_iter"
    case HMAC_USE => "hmac_use"
    case HMAC_PGNO => "hmac_pgno"
    case HMAC_SALT_MASK => "hmac_salt_mask"
    case KDF_ALGORITHM => "kdf_algorithm"
    case HMAC_ALGORITHM => "hmac_algorithm"
    case PLAIN_TEXT_HEADER_SIZE => "plaintext_header_size"
    case KEY => "key"
    case RE_KEY => "rekey"
  }

  function TargetName(t: Target): string {
    match t
    case JournalMode => "journal_mode"
    case KeyOf => "key"
    case RekeyTo => "rekey"
    case Param(temp, p) => (if temp then "temp." else "main.") + ParameterName(p)
  }

  predicate IsTarget(t: Target) {
    t.Param? ==> t.p != KEY && t.p != RE_KEY
  }

  /** A statement up to its equals sign. */
  function Head(t: Target): Text {
    Ascii("PRAGMA " + TargetName(t) + " ")
  }

  datatype Statement =
    | Check
    | JournalDelete
    | SetCipher(temp: bool, cipher: Cipher)
    | SetParam(temp: bool, p: McPragma, value: int)
    | SetKey(secret: Text, completes: bool)
    | Rekey(secret: Text, completes: bool)

  function CipherOf(name: Text): Option<Cipher> {
    if name == Ascii("aes128cbc") then Some(AES128CBC)
    else if name == Ascii("aes256cbc") then Some(AES256CBC)
    else if name == Ascii("chacha20") then Some(CHACHA20)
    else if name == Ascii("sqlcipher") then Some(SQLCIPHER)
    else if name == Ascii("rc4") then Some(RC4)
    else if name == Ascii("ascon128") then Some(ASCON128)
    else None
  }

  function ValueOf(t: Target, value: Text): Option<Statement>
    requires IsTarget(t)
  {
    match t
    case JournalMode => if value == Ascii("DELETE") then Some(JournalDelete) else None
    case KeyOf =>
      (match ReadValue(value)
       case Refused => None
       case ActsThenFails(s) => Some(SetKey(s, false))
       case Accepted(s) => Some(SetKey(s, true)))
    case RekeyTo =>
      (match ReadValue(value)
       case Refused => None
       case ActsThenFails(s) => Some(Rekey(s, false))
       case Accepted(s) => Some(Rekey(s, true)))
    case Param(temp, p) =>
      if p == CIPHER then (match CipherOf(value) case None => None case Some(c) => Some(SetCipher(temp, c)))
      else (match ToIntOrNull(value) case None => None case Some(n) => Some(SetParam(temp, p, n)))
  }

  const TARGETS: seq<Target> := [JournalMode, KeyOf, RekeyTo] + ParamTargets(false) + ParamTargets(true)

  function ParamTargets(temp: bool): seq<Target> {
    seq(|PARAMETERS|, i requires 0 <= i < |PARAMETERS| => Param(temp, PARAMETERS[i]))
  }

  function FindTarget(head: Text, targets: seq<Target>): Option<Target> {
    if targets == [] then None
    else if Head(targets[0]) == head then Some(targets[0])
    else FindTarget(head, targets[1..])
  }

  /** The meaning of a statement's text, `None` where the engine does nothing but report an error. */
  function Parse(t: Text): Option<Statement> {
    if t == Ascii("SELECT 1 FROM sqlite_schema") then Some(Check)
    else
      var i := IndexOf(t, EQUALS);
      if |t| < i + 2 then None
      else
        match FindTarget(t[..i], TARGETS)
        case None => None
        case Some(target) => if IsTarget(target) then ValueOf(target, t[i + 2..]) else None
  }

  /******* Executing a statement *******/

  function Reset(c: Cipher): Registers {
    Registers(c, Defaults(c, if c == RC4 then 1 else 0), 1, 0)
  }

  function Assign(r: Registers, p: McPragma, v: int): Registers {
    match p
    case LEGACY => r.(params := Defaults(r.cipher, v))
    case HMAC_CHECK => r.(hmacCheck := v)
    case MC_LEGACY_WAL => r.(legacyWal := v)
    case _ => r.(params := r.params[p := v])
  }

  /** What a statement does; `None` when it cannot, and then nothing has changed. */
  function Apply(w: World, s: Statement): Option<World> {
    var session, disk := w.session, w.disk;
    match s
    case Check => if session.codec == disk.codec then Some(w) else None
    case JournalDelete =>
      if session.codec == disk.codec then Some(w.(disk := disk.(wal := false))) else None
    case SetCipher(temp, c) =>
      Some(w.(session := if temp then session.(temp := Reset(c)) else session.(main := Reset(c))))
    case SetParam(temp, p, v) =>
      Some(w.(session := if temp then session.(temp := Assign(session.temp, p, v))
                         else session.(main := Assign(session.main, p, v))))
    case SetKey(secret, _) => Some(w.(session := session.(codec := CodecOf(session.main, secret))))
    case Rekey(secret, _) =>
      if session.codec != disk.codec || disk.wal then None
      else
        var codec := CodecOf(session.temp, secret);
        Some(World(session.(codec := codec), disk.(codec := codec)))
  }

  /** The parser runs a pragma before it looks for the statement's end, so it may act and then fail. */
  predicate Completes(s: Statement) {
    match s
    case SetKey(_, completes) => completes
    case Rekey(_, completes) => completes
    case _ => true
  }

  /** The world after a statement, and whether the statement succeeded. */
  datatype Stepped = Stepped(world: World, ok: bool)

  function Step(w: World, t: Text): Stepped {
    match Parse(t)
    case None => Stepped(w, false)
    case Some(s) =>
      match Apply(w, s)
      case None => Stepped(w, false)
      case Some(next) => Stepped(next, Completes(s))
  }

  datatype RunResult = RunResult(world: World, executed: nat)

  /**
   * Executes statements in order until one fails. `limit` is how many go through before the
   * process is interrupted, so that every prefix of the list is a possible run.
   */
  function Run(w: World, statements: seq<Text>, limit: nat): (r: RunResult)
    ensures r.executed <= |statements| && r.executed <= limit
    decreases |statements|
  {
    if statements == [] || limit == 0 then RunResult(w, 0)
    else
      var step := Step(w, statements[0]);
      if !step.ok then RunResult(step.world, 0)
      else
        var rest := Run(step.world, statements[1..], limit - 1);
        RunResult(rest.world, rest.executed + 1)
  }

  /** Running two lists one after the other. */
  lemma {:induction false} RunConcat(w: World, a: seq<Text>, b: seq<Text>, limit: nat)
    ensures var first := Run(w, a, limit);
      Run(w, a + b, limit)
      == if first.executed < |a| then first
         else
           var second := Run(first.world, b, limit - |a|);
           RunResult(second.world, |a| + second.executed)
    decreases |a|
  {
    hide Step;
    if a == [] {
      assert a + b == b;
    } else if limit > 0 {
      assert (a + b)[1..] == a[1..] + b;
      if Step(w, a[0]).ok {
        RunConcat(Step(w, a[0]).world, a[1..], b, limit - 1);
      }
    }
  }

  /******* What the compiled statements parse to *******/

  /** The driver prints a parameter under the engine's name. */
  lemma PrintedName(temp: bool, p: McPragma)
    requires p != KEY && p != RE_KEY
    ensures (if temp then TEMP else MAIN) + "." + PragmaName(p) == TargetName(Param(temp, p))
  {}

  lemma {:induction false} ParameterNamePlain(p: McPragma)
    ensures forall c :: c in ParameterName(p) ==> c as int < 0x80 && c != '='
  {}

  lemma TargetNamePlain(t: Target)
    ensures forall c :: c in TargetName(t) ==> c as int < 0x80 && c != '='
  {
    if t.Param? {
      ParameterNamePlain(t.p);
    }
  }

  lemma TargetDot(t: Target)
    ensures t.Param? <==> |TargetName(t)| > 4 && TargetName(t)[4] == '.'
    ensures t.Param? ==> TargetName(t)[5..] == ParameterName(t.p)
  {}

  lemma TargetNameInjective(a: Target, b: Target)
    requires IsTarget(a) && IsTarget(b) && TargetName(a) == TargetName(b)
    ensures a == b
  {
    TargetDot(a);
    TargetDot(b);
    if a.Param? && b.Param? {
      assert TargetName(a)[0] == TargetName(b)[0];
    }
  }

  lemma HeadPlain(t: Target)
    ensures EQUALS !in Head(t)
    ensures IsBmp("PRAGMA " + TargetName(t) + " ")
  {
    TargetNamePlain(t);
    var name := "PRAGMA " + TargetName(t) + " ";
    forall c | c in name
      ensures c as int < 0x80 && c != '='
    {
      assert c in "PRAGMA " || c in TargetName(t) || c == ' ';
    }
    forall i | 0 <= i < |name|
      ensures Head(t)[i] != EQUALS
    {
      assert name[i] in name;
    }
  }

  lemma HeadInjective(a: Target, b: Target)
    requires IsTarget(a) && IsTarget(b) && Head(a) == Head(b)
    ensures a == b
  {
    HeadPlain(a);
    HeadPlain(b);
    var na, nb := "PRAGMA " + TargetName(a) + " ", "PRAGMA " + TargetName(b) + " ";
    AsciiInjective(na, nb);
    assert na[7..|na| - 1] == TargetName(a) && nb[7..|nb| - 1] == TargetName(b);
    TargetNameInjective(a, b);
  }

  lemma {:induction false} FindTargetHead(t: Target, targets: seq<Target>)
    requires t in targets && IsTarget(t)
    requires forall u :: u in targets ==> IsTarget(u)
    ensures FindTarget(Head(t), targets) == Some(t)
    decreases |targets|
  {
    hide Head;
    assert targets[0] in targets;
    if Head(targets[0]) == Head(t) {
      HeadInjective(targets[0], t);
    } else {
      FindTargetHead(t, targets[1..]);
    }
  }

  lemma TargetsKnown(t: Target)
    requires IsTarget(t)
    ensures t in TARGETS
    ensures forall u :: u in TARGETS ==> IsTarget(u)
  {
    AllPragmas();
    if t.Param? {
      assert t.p in PARAMETERS;
      var i :| 0 <= i < |PARAMETERS| && PARAMETERS[i] == t.p;
      assert ParamTargets(t.temp)[i] == t;
    } else {
      assert [JournalMode, KeyOf, RekeyTo][0] == JournalMode;
      assert [JournalMode, KeyOf, RekeyTo][1] == KeyOf;
      assert [JournalMode, KeyOf, RekeyTo][2] == RekeyTo;
    }
    forall u | u in TARGETS
      ensures IsTarget(u)
    {
      if u in ParamTargets(false) || u in ParamTargets(true) {
        assert u.Param? && u.p in PARAMETERS;
      }
    }
  }

  /** An assignment parses to what its target and value say. */
  lemma ParseAssignment(t: Target, value: Text)
    requires IsTarget(t)
    ensures Parse(Assignment(TargetName(t), value)) == ValueOf(t, value)
  {
    hide FindTarget, ValueOf, TargetName;
    var text := Assignment(TargetName(t), value);
    AsciiConcat("PRAGMA " + TargetName(t) + " ", "= ");
    assert "PRAGMA " + TargetName(t) + " = " == "PRAGMA " + TargetName(t) + " " + "= ";
    assert text == Head(t) + [EQUALS] + ([Unit(' ')] + value);
    HeadPlain(t);
    IndexOfFirst(Head(t), EQUALS, [Unit(' ')] + value);
    assert text[|Head(t)| + 2..] == value;
    assert text[..|Head(t)|] == Head(t);
    assert text[0] == Unit('P') && Ascii("SELECT 1 FROM sqlite_schema")[0] == Unit('S');
    TargetsKnown(t);
    FindTargetHead(t, TARGETS);
  }

  lemma JournalText()
    ensures JOURNAL_SQL == Assignment(TargetName(JournalMode), Ascii("DELETE"))
  {
    AsciiConcat("PRAGMA journal_mode = ", "DELETE");
    assert "PRAGMA journal_mode = " + "DELETE" == "PRAGMA journal_mode = DELETE";
  }

  lemma ParseCheck()
    ensures Parse(CHECK_SQL) == Some(Check)
  {
    hide FindTarget, ValueOf;
  }

  lemma ParseFixed()
    ensures Parse(CHECK_SQL) == Some(Check)
    ensures Parse(JOURNAL_SQL) == Some(JournalDelete)
  {
    hide Parse;
    ParseAssignment(JournalMode, Ascii("DELETE"));
    JournalText();
    ParseCheck();
  }

  /** The driver's cipher names are the engine's. */
  lemma CipherOfName(c: Cipher)
    ensures CipherOf(Ascii(CipherName(c))) == Some(c)
  {
    match c {
      case AES128CBC =>
      case AES256CBC => assert Ascii("aes256cbc")[3] != Ascii("aes128cbc")[3];
      case CHACHA20 => assert Ascii("chacha20")[0] == Unit('c') != Unit('a');
      case SQLCIPHER => assert Ascii("sqlcipher")[0] == Unit('s') && Ascii("chacha20")[0] == Unit('c');
      case RC4 =>
      case ASCON128 => assert |Ascii("ascon128")| == 8 && Ascii("ascon128")[0] != Ascii("chacha20")[0];
    }
  }
}
