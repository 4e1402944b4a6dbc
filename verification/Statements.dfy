/** `toMCSQLStatements`: a pragma map compiled to the SQL statements that apply it, in order. */
module Statements {
  import opened Wrappers
  import opened Texts
  import opened Ciphers
  import opened Keys
  import opened McPragmas

  const CHECK_SQL: Text := Ascii("SELECT 1 FROM sqlite_schema")
  const JOURNAL_SQL: Text := Ascii("PRAGMA journal_mode = DELETE")

  const MAIN := "main"
  const TEMP := "temp"

  /** `PRAGMA target = value`. */
  function Assignment(target: string, value: Text): Text {
    Ascii("PRAGMA " + target + " = ") + value
  }

  lemma {:induction false} PragmaNamePlain(p: McPragma)
    ensures forall c :: c in PragmaName(p) ==> c as int < 0x80 && c != '='
  {}

  /** `Cipher.valueOfOrNull` finds a cipher of that name. */
  predicate IsCipherName(t: Text) {
    exists c :: c in CIPHERS && EqualsIgnoreCase(t, Ascii(CipherName(c)))
  }

  predicate IsIntegerPragma(p: McPragma) {
    p != CIPHER && p != KEY && p != RE_KEY
  }

  /** The maps that compile. */
  predicate Compiles(m: Pragmas) {
    && CIPHER in m && IsCipherName(m[CIPHER])
    && LEGACY in m
    && (RE_KEY in m || KEY in m)
    && forall p :: p in m && IsIntegerPragma(p) ==> ToIntOrNull(m[p]).Some?
  }

  function IntegerText(t: Text): Text {
    match ToIntOrNull(t)
    case Some(n) => Decimal(n)
    case None => []
  }

  /** The statement for one entry, its parameters in `schema`. */
  function Line(m: Pragmas, schema: string, p: McPragma): Text
    requires p in m
  {
    match p
    case CIPHER => Assignment(schema + "." + PragmaName(CIPHER), m[p])
    case KEY => Assignment(PragmaName(KEY), m[p])
    case RE_KEY => Assignment(PragmaName(RE_KEY), m[p])
    case _ => Assignment(schema + "." + PragmaName(p), IntegerText(m[p]))
  }

  /** The statement that is repeated for one entry after a rekey. */
  function NonTransientLine(m: Pragmas, p: McPragma): Text
    requires p in m
  {
    if p == KEY || p == RE_KEY then Assignment(PragmaName(KEY), m[p]) else Line(m, MAIN, p)
  }

  function Lines(m: Pragmas, schema: string, ps: seq<McPragma>): seq<Text> {
    if ps == [] then []
    else (if ps[0] in m then [Line(m, schema, ps[0])] else []) + Lines(m, schema, ps[1..])
  }

  function NonTransientLines(m: Pragmas, ps: seq<McPragma>): seq<Text> {
    if ps == [] then []
    else (if ps[0] in m then [NonTransientLine(m, ps[0])] else []) + NonTransientLines(m, ps[1..])
  }

  /** The statements of a map that compiles. */
  function StatementsOf(m: Pragmas): seq<Text> {
    if RE_KEY in m then [CHECK_SQL, JOURNAL_SQL] + Lines(m, TEMP, ALL) + NonTransientLines(m, ALL)
    else Lines(m, MAIN, ALL)
  }

  function Compiled(m: Pragmas): Result<seq<Text>> {
    if Compiles(m) then Ok(StatementsOf(m)) else Err(IllegalArgument)
  }

  lemma {:induction false} LinesConcat(m: Pragmas, schema: string, a: seq<McPragma>, b: seq<McPragma>)
    ensures Lines(m, schema, a + b) == Lines(m, schema, a) + Lines(m, schema, b)
    decreases |a|
  {
    hide Line;
    if a == [] {
      assert a + b == b;
    } else {
      assert (a + b)[1..] == a[1..] + b;
      LinesConcat(m, schema, a[1..], b);
    }
  }

  lemma {:induction false} NonTransientLinesConcat(m: Pragmas, a: seq<McPragma>, b: seq<McPragma>)
    ensures NonTransientLines(m, a + b) == NonTransientLines(m, a) + NonTransientLines(m, b)
    decreases |a|
  {
    hide NonTransientLine;
    if a == [] {
      assert a + b == b;
    } else {
      assert (a + b)[1..] == a[1..] + b;
      NonTransientLinesConcat(m, a[1..], b);
    }
  }

  /** The loop that appends to the statements and, for a rekey, to those repeated after it. */
  method ToMcSqlStatements(pragmas: PragmaMap) returns (r: Result<seq<Text>>)
    ensures r == Compiled(pragmas.entries)
  {
    hide Line, NonTransientLine, ToIntOrNull, IsCipherName, Lines, NonTransientLines;
    var m := pragmas.entries;
    LinesOfNone(m);
    if CIPHER !in m || !IsCipherName(m[CIPHER]) { return Err(IllegalArgument); }
    if LEGACY !in m { return Err(IllegalArgument); }
    var isRekey := RE_KEY in m;
    if !isRekey && KEY !in m { return Err(IllegalArgument); }
    var statements: seq<Text> := if isRekey then [CHECK_SQL, JOURNAL_SQL] else [];
    ghost var head := statements;
    var rekeyNonTransient: seq<Text> := [];
    var schema := if isRekey then TEMP else MAIN;
    for i := 0 to |ALL|
      invariant statements == head + Lines(m, schema, ALL[..i])
      invariant rekeyNonTransient == if isRekey then NonTransientLines(m, ALL[..i]) else []
      invariant forall j :: 0 <= j < i && ALL[j] in m && IsIntegerPragma(ALL[j]) ==> ToIntOrNull(m[ALL[j]]).Some?
    {
      var p := ALL[i];
      LoopStep(m, schema, i);
      if p in m {
        if IsIntegerPragma(p) && ToIntOrNull(m[p]).None? { return Err(IllegalArgument); }
        if isRekey {
          rekeyNonTransient := rekeyNonTransient + [NonTransientLine(m, p)];
        }
        statements := statements + [Line(m, schema, p)];
      }
    }
    assert ALL[..|ALL|] == ALL;
    AllPragmas();
    forall p | p in m && IsIntegerPragma(p)
      ensures ToIntOrNull(m[p]).Some?
    {
      assert p in ALL;
    }
    assert statements + rekeyNonTransient == StatementsOf(m);
    r := Ok(statements + rekeyNonTransient);
  }

  lemma LinesOfNone(m: Pragmas)
    ensures forall schema :: Lines(m, schema, []) == []
    ensures NonTransientLines(m, []) == []
  {}

  lemma LoopStep(m: Pragmas, schema: string, i: nat)
    requires i < |ALL|
    ensures Lines(m, schema, ALL[..i + 1])
         == Lines(m, schema, ALL[..i]) + if ALL[i] in m then [Line(m, schema, ALL[i])] else []
    ensures NonTransientLines(m, ALL[..i + 1])
         == NonTransientLines(m, ALL[..i]) + if ALL[i] in m then [NonTransientLine(m, ALL[i])] else []
  {
    hide Line, NonTransientLine;
    var p := ALL[i];
    assert ALL[..i + 1] == ALL[..i] + [p];
    LinesConcat(m, schema, ALL[..i], [p]);
    NonTransientLinesConcat(m, ALL[..i], [p]);
    assert [p][1..] == [];
  }

  lemma AllPragmas()
    ensures forall p: McPragma :: p in ALL
    ensures forall p: McPragma :: p in PARAMETERS <==> p != KEY && p != RE_KEY
  {
    forall p: McPragma
      ensures p in PARAMETERS <==> p != KEY && p != RE_KEY
    {
      match p
      case CIPHER => assert PARAMETERS[0] == p;
      case HMAC_CHECK => assert PARAMETERS[1] == p;
      case MC_LEGACY_WAL => assert PARAMETERS[2] == p;
      case LEGACY => assert PARAMETERS[3] == p;
      case LEGACY_PAGE_SIZE => assert PARAMETERS[4] == p;
      case KDF_ITER => assert PARAMETERS[5] == p;
      case FAST_KDF_ITER => assert PARAMETERS[6] == p;
      case HMAC_USE => assert PARAMETERS[7] == p;
      case HMAC_PGNO => assert PARAMETERS[8] == p;
      case HMAC_SALT_MASK => assert PARAMETERS[9] == p;
      case KDF_ALGORITHM => assert PARAMETERS[10] == p;
      case HMAC_ALGORITHM => assert PARAMETERS[11] == p;
      case PLAIN_TEXT_HEADER_SIZE => assert PARAMETERS[12] == p;
      case KEY =>
      case RE_KEY =>
    }
  }

  /******* Swapping the key in after a rekey *******/

  /** The rekey map with `RE_KEY` renamed to `KEY`: what replaces the key map after a rekey. */
  function Swapped(m: Pragmas): Pragmas {
    if RE_KEY in m then (m - {RE_KEY})[KEY := m[RE_KEY]] else m
  }

  lemma {:induction false} LinesAgree(m: Pragmas, n: Pragmas, schema: string, ps: seq<McPragma>)
    requires forall p :: p in ps ==> (p in m <==> p in n)
    requires forall p :: p in ps && p in m ==> m[p] == n[p]
    ensures Lines(m, schema, ps) == Lines(n, schema, ps)
    decreases |ps|
  {
    if ps != [] {
      assert ps[0] in ps;
      LinesAgree(m, n, schema, ps[1..]);
    }
  }

  lemma {:induction false} NonTransientIsMain(m: Pragmas, ps: seq<McPragma>)
    requires KEY !in ps && RE_KEY !in ps
    ensures NonTransientLines(m, ps) == Lines(m, MAIN, ps)
    decreases |ps|
  {
    if ps != [] {
      assert ps[0] in ps;
      NonTransientIsMain(m, ps[1..]);
    }
  }

  lemma LinesOfKeys(m: Pragmas, schema: string)
    ensures Lines(m, schema, [KEY, RE_KEY])
         == (if KEY in m then [Line(m, schema, KEY)] else []) + (if RE_KEY in m then [Line(m, schema, RE_KEY)] else [])
    ensures NonTransientLines(m, [KEY, RE_KEY])
         == (if KEY in m then [NonTransientLine(m, KEY)] else [])
          + (if RE_KEY in m then [NonTransientLine(m, RE_KEY)] else [])
  {
    hide Line, NonTransientLine;
    LinesOfNone(m);
    assert [KEY, RE_KEY][1..] == [RE_KEY];
    assert [RE_KEY][1..] == [];
    assert Lines(m, schema, [RE_KEY]) == if RE_KEY in m then [Line(m, schema, RE_KEY)] else [];
    assert NonTransientLines(m, [RE_KEY]) == if RE_KEY in m then [NonTransientLine(m, RE_KEY)] else [];
  }

  /** The shape of a key list. */
  lemma KeyStatements(m: Pragmas)
    requires KEY in m && RE_KEY !in m
    ensures StatementsOf(m) == Lines(m, MAIN, PARAMETERS) + [Assignment(PragmaName(KEY), m[KEY])]
  {
    LinesConcat(m, MAIN, PARAMETERS, [KEY, RE_KEY]);
    LinesOfKeys(m, MAIN);
  }

  /**
   * The shape of a rekey list, and suffix equality: what follows the rekey statement is, element
   * for element, the key list of the swapped map.
   */
  lemma RekeyStatements(m: Pragmas)
    requires RE_KEY in m && KEY !in m
    ensures StatementsOf(m)
         == [CHECK_SQL, JOURNAL_SQL] + Lines(m, TEMP, PARAMETERS) + [Assignment(PragmaName(RE_KEY), m[RE_KEY])]
          + StatementsOf(Swapped(m))
    ensures StatementsOf(Swapped(m)) == Lines(m, MAIN, PARAMETERS) + [Assignment(PragmaName(KEY), m[RE_KEY])]
  {
    hide Lines, NonTransientLines;
    AllPragmas();
    LinesConcat(m, TEMP, PARAMETERS, [KEY, RE_KEY]);
    LinesOfKeys(m, TEMP);
    NonTransientLinesConcat(m, PARAMETERS, [KEY, RE_KEY]);
    LinesOfKeys(m, MAIN);
    NonTransientIsMain(m, PARAMETERS);
    LinesAgree(m, Swapped(m), MAIN, PARAMETERS);
    KeyStatements(Swapped(m));
  }

  /** Repacking after the swap cannot fail once the rekey map has compiled. */
  lemma SwappedCompiles(m: Pragmas)
    requires RE_KEY in m && Compiles(m)
    ensures Compiles(Swapped(m))
  {
    hide ToIntOrNull, IsCipherName;
  }

  /** Swapping the map built to rekey gives the map built to open with the same key. */
  lemma SwappedIsFresh(c: EncryptionConfig, key: Key)
    requires KeyedPragmas(c, key, true).Ok?
    ensures KeyedPragmas(c, key, false).Ok?
    ensures Swapped(KeyedPragmas(c, key, true).value) == KeyedPragmas(c, key, false).value
    ensures KEY !in KeyedPragmas(c, key, true).value && RE_KEY !in KeyedPragmas(c, key, false).value
  {
    hide EncryptionPragmas, RetrieveFormatted;
    EncryptionPragmaAt(c, false, KEY);
    EncryptionPragmaAt(c, false, RE_KEY);
  }

  /** The maps a factory builds always compile; building one fails only for the key's kind. */
  lemma KeyedPragmasCompile(c: EncryptionConfig, key: Key, isRekey: bool)
    requires c.Valid() && IsKey(key)
    ensures KeyedPragmas(c, key, isRekey).Ok? <==> Suits(key, c.Cipher())
    ensures Suits(key, c.Cipher()) ==> Compiles(KeyedPragmas(c, key, isRekey).value)
  {
    hide EncryptionPragmas, RetrieveFormatted, IsCipherName, ToIntOrNull;
    FormattedDenotesSecret(key, c.Cipher());
    if Suits(key, c.Cipher()) {
      var m := EncryptionPragmas(c, false);
      EncryptionPragmaAt(c, false, CIPHER);
      EncryptionPragmaAt(c, false, LEGACY);
      CipherNameIsCipherName(c.Cipher());
      forall p | p in m && IsIntegerPragma(p)
        ensures ToIntOrNull(m[p]).Some?
      {
        IntegerEntry(c, false, p);
      }
    }
  }

  lemma CipherNameIsCipherName(c: Cipher)
    ensures IsCipherName(Ascii(CipherName(c)))
  {
    match c
    case AES128CBC => assert CIPHERS[0] == c;
    case AES256CBC => assert CIPHERS[1] == c;
    case CHACHA20 => assert CIPHERS[2] == c;
    case SQLCIPHER => assert CIPHERS[3] == c;
    case RC4 => assert CIPHERS[4] == c;
    case ASCON128 => assert CIPHERS[5] == c;
  }

  /** The number behind an integer entry of a configuration's map. */
  function EntryValue(c: EncryptionConfig, p: McPragma): int {
    match p
    case HMAC_CHECK => BoolValue(c.hmacCheck)
    case MC_LEGACY_WAL => BoolValue(c.mcLegacyWal)
    case _ => match Parameter(c.cipherConfig, p) case Some(v) => v case None => 0
  }

  lemma IntegerEntry(c: EncryptionConfig, addAll: bool, p: McPragma)
    requires c.Valid() && IsIntegerPragma(p) && p in EncryptionPragmas(c, addAll)
    ensures EncryptionPragmas(c, addAll)[p] == Decimal(EntryValue(c, p))
    ensures ToIntOrNull(EncryptionPragmas(c, addAll)[p]) == Some(EntryValue(c, p))
  {
    hide EncryptionPragmas, ToIntOrNull, Decimal;
    EncryptionPragmaAt(c, addAll, p);
    if p != HMAC_CHECK && p != MC_LEGACY_WAL {
      ParameterRange(c.cipherConfig, p);
    }
    DecimalRoundTrip(EntryValue(c, p));
  }
}
