/**
 * What the driver prints, letter by letter: the pragma map of a configuration, the statements that
 * a map compiles to, and the maps that do not compile. Nothing here is written through the names
 * and the order that the compiler prints with.
 */
module StatementTexts {
  import opened Wrappers
  import opened Texts
  import opened Ciphers
  import opened Keys
  import opened McPragmas
  import opened Statements
  import opened Engine
  import opened Lossless

  /******* Statements *******/

  /** A cipher parameter and how it is written. */
  datatype Named = Named(p: McPragma, name: string)

  /** All of them, in the order in which they are executed. */
  const PARAMETER_NAMES: seq<Named> := [
    Named(CIPHER, "cipher"), Named(HMAC_CHECK, "hmac_check"), Named(MC_LEGACY_WAL, "mc_legacy_wal"),
    Named(LEGACY, "legacy"), Named(LEGACY_PAGE_SIZE, "legacy_page_size"), Named(KDF_ITER, "kdf_iter"),
    Named(FAST_KDF_ITER, "fast_kdf_iter"), Named(HMAC_USE, "hmac_use"), Named(HMAC_PGNO, "hmac_pgno"),
    Named(HMAC_SALT_MASK, "hmac_salt_mask"), Named(KDF_ALGORITHM, "kdf_algorithm"),
    Named(HMAC_ALGORITHM, "hmac_algorithm"), Named(PLAIN_TEXT_HEADER_SIZE, "plaintext_header_size")
  ]

  /** The cipher as the map has it; a number without the sign and zeros that the map may have it with. */
  function Printed(m: Pragmas, p: McPragma): Text
    requires p in m
  {
    if p == CIPHER then m[p]
    else match ToIntOrNull(m[p]) case Some(n) => Decimal(n) case None => []
  }

  /** The statements for those of `names` that the map has. */
  function ParameterTexts(m: Pragmas, schema: string, names: seq<Named>): seq<Text> {
    if names == [] then []
    else
      (if names[0].p in m then
         [Ascii("PRAGMA ") + Ascii(schema) + Ascii(".") + Ascii(names[0].name) + Ascii(" = ") + Printed(m, names[0].p)]
       else [])
      + ParameterTexts(m, schema, names[1..])
  }

  lemma LineText(m: Pragmas, schema: string, i: nat)
    requires i < |PARAMETER_NAMES|
    ensures |PARAMETERS| == |PARAMETER_NAMES| && PARAMETERS[i] == PARAMETER_NAMES[i].p
    ensures PARAMETERS[i] in m ==>
      Line(m, schema, PARAMETERS[i])
      == Ascii("PRAGMA ") + Ascii(schema) + Ascii(".") + Ascii(PARAMETER_NAMES[i].name) + Ascii(" = ")
       + Printed(m, PARAMETERS[i])
  {
    NameOfTable(i);
    hide PragmaName, PARAMETERS, PARAMETER_NAMES;
    var name := PARAMETER_NAMES[i].name;
    assert Ascii("PRAGMA " + (schema + "." + name) + " = ")
      == Ascii("PRAGMA ") + Ascii(schema) + Ascii(".") + Ascii(name) + Ascii(" = ");
  }

  lemma NameOfTable(i: nat)
    requires i < |PARAMETER_NAMES|
    ensures |PARAMETERS| == |PARAMETER_NAMES| && PARAMETERS[i] == PARAMETER_NAMES[i].p
    ensures PragmaName(PARAMETERS[i]) == PARAMETER_NAMES[i].name
    ensures PARAMETERS[i] != KEY && PARAMETERS[i] != RE_KEY
  {}

  lemma {:induction false} LinesText(m: Pragmas, schema: string, i: nat)
    requires i <= |PARAMETER_NAMES| == |PARAMETERS|
    ensures Lines(m, schema, PARAMETERS[i..]) == ParameterTexts(m, schema, PARAMETER_NAMES[i..])
    decreases |PARAMETERS| - i
  {
    hide Line, Printed, PARAMETERS, PARAMETER_NAMES;
    if i < |PARAMETERS| {
      LineText(m, schema, i);
      LinesText(m, schema, i + 1);
      assert PARAMETERS[i..][1..] == PARAMETERS[i + 1..];
      assert PARAMETER_NAMES[i..][1..] == PARAMETER_NAMES[i + 1..];
    }
  }

  /** The statement that gives a key, if the map has one. */
  function KeyText(m: Pragmas, p: McPragma, start: string): seq<Text> {
    if p in m then [Ascii(start) + m[p]] else []
  }

  lemma KeyLine(m: Pragmas, schema: string, p: McPragma)
    requires p in m && (p == KEY || p == RE_KEY)
    ensures Line(m, schema, p) == Ascii(if p == KEY then "PRAGMA key = " else "PRAGMA rekey = ") + m[p]
    ensures NonTransientLine(m, p) == Ascii("PRAGMA key = ") + m[p]
  {
    assert "PRAGMA " + "key" + " = " == "PRAGMA key = ";
    assert "PRAGMA " + "rekey" + " = " == "PRAGMA rekey = ";
  }

  lemma KeyLines(m: Pragmas, schema: string)
    ensures Lines(m, schema, [KEY, RE_KEY]) == KeyText(m, KEY, "PRAGMA key = ") + KeyText(m, RE_KEY, "PRAGMA rekey = ")
    ensures NonTransientLines(m, [KEY, RE_KEY])
         == KeyText(m, KEY, "PRAGMA key = ") + KeyText(m, RE_KEY, "PRAGMA key = ")
  {
    hide Lines, NonTransientLines, Line, NonTransientLine;
    LinesOfKeys(m, schema);
    if KEY in m { KeyLine(m, schema, KEY); }
    if RE_KEY in m { KeyLine(m, schema, RE_KEY); }
  }

  /**
   * Every list, as texts: a map without a rekey has its parameters set in `main` before the key; a
   * rekey follows two fixed statements and has them set in `temp`, and once more in `main` for the
   * key list that comes after it.
   */
  lemma CompiledTexts(m: Pragmas)
    ensures Compiles(m) ==>
      Compiled(m) == Ok(
        if RE_KEY !in m then
          ParameterTexts(m, "main", PARAMETER_NAMES) + KeyText(m, KEY, "PRAGMA key = ")
        else
          [Ascii("SELECT 1 FROM sqlite_schema"), Ascii("PRAGMA journal_mode = DELETE")]
          + ParameterTexts(m, "temp", PARAMETER_NAMES)
          + KeyText(m, KEY, "PRAGMA key = ") + KeyText(m, RE_KEY, "PRAGMA rekey = ")
          + ParameterTexts(m, "main", PARAMETER_NAMES)
          + KeyText(m, KEY, "PRAGMA key = ") + KeyText(m, RE_KEY, "PRAGMA key = "))
  {
    hide Lines, NonTransientLines, ParameterTexts, PARAMETERS, PARAMETER_NAMES, Compiles;
    AllPragmas();
    TablesMatch();
    assert PARAMETERS[0..] == PARAMETERS && PARAMETER_NAMES[0..] == PARAMETER_NAMES;
    LinesText(m, MAIN, 0);
    LinesText(m, TEMP, 0);
    LinesConcat(m, MAIN, PARAMETERS, [KEY, RE_KEY]);
    LinesConcat(m, TEMP, PARAMETERS, [KEY, RE_KEY]);
    NonTransientLinesConcat(m, PARAMETERS, [KEY, RE_KEY]);
    NonTransientIsMain(m, PARAMETERS);
    KeyLines(m, MAIN);
    KeyLines(m, TEMP);
    assert ALL == PARAMETERS + [KEY, RE_KEY];
    var main, temp := ParameterTexts(m, "main", PARAMETER_NAMES), ParameterTexts(m, "temp", PARAMETER_NAMES);
    var key, rekey := KeyText(m, KEY, "PRAGMA key = "), KeyText(m, RE_KEY, "PRAGMA rekey = ");
    assert Lines(m, MAIN, ALL) == main + (key + rekey);
    assert Lines(m, TEMP, ALL) == temp + (key + rekey);
    assert NonTransientLines(m, ALL) == main + (key + KeyText(m, RE_KEY, "PRAGMA key = "));
    if RE_KEY in m {
      assert StatementsOf(m)
        == [CHECK_SQL, JOURNAL_SQL] + temp + key + rekey + main + key + KeyText(m, RE_KEY, "PRAGMA key = ");
    } else {
      assert key + rekey == key;
    }
  }

  lemma TablesMatch()
    ensures |PARAMETER_NAMES| == |PARAMETERS|
  {}

  /******* Maps that do not compile *******/

  predicate Spells(t: Text, s: string) {
    |t| == |s| && SpellsAt(t, 0, s)
  }

  predicate SpellsCipher(t: Text) {
    || Spells(t, "aes128cbc") || Spells(t, "aes256cbc") || Spells(t, "chacha20")
    || Spells(t, "sqlcipher") || Spells(t, "rc4") || Spells(t, "ascon128")
  }

  lemma SpelledCipher(t: Text, c: Cipher)
    ensures EqualsIgnoreCase(t, Ascii(CipherName(c))) <==> Spells(t, CipherName(c))
  {
    hide LowerUnit, EitherCase, SpellsAt;
    CipherNameIsLower(c);
    StartsSpelled(t, 0, Ascii(CipherName(c)), CipherName(c));
    assert t[0..] == t;
  }

  lemma CipherNameIsLower(c: Cipher)
    ensures IsLowerOf(CipherName(c), Ascii(CipherName(c)))
  {}

  lemma CipherNamesSpelled(t: Text)
    ensures IsCipherName(t) <==> SpellsCipher(t)
  {
    CipherNames();
    hide Spells, EqualsIgnoreCase, CipherName, Ascii, CIPHERS;
    forall c: Cipher
      ensures EqualsIgnoreCase(t, Ascii(CipherName(c))) <==> Spells(t, CipherName(c))
    {
      SpelledCipher(t, c);
    }
    if IsCipherName(t) {
      var c :| c in CIPHERS && EqualsIgnoreCase(t, Ascii(CipherName(c)));
      assert Spells(t, CipherName(c));
      match c case AES128CBC => case AES256CBC => case CHACHA20 => case SQLCIPHER => case RC4 => case ASCON128 =>
    } else {
      assert !EqualsIgnoreCase(t, Ascii(CipherName(AES128CBC))) && !EqualsIgnoreCase(t, Ascii(CipherName(AES256CBC)));
      assert !EqualsIgnoreCase(t, Ascii(CipherName(CHACHA20))) && !EqualsIgnoreCase(t, Ascii(CipherName(SQLCIPHER)));
      assert !EqualsIgnoreCase(t, Ascii(CipherName(RC4))) && !EqualsIgnoreCase(t, Ascii(CipherName(ASCON128)));
    }
  }

  lemma CipherNames()
    ensures CipherName(AES128CBC) == "aes128cbc" && CipherName(AES256CBC) == "aes256cbc"
    ensures CipherName(CHACHA20) == "chacha20" && CipherName(SQLCIPHER) == "sqlcipher"
    ensures CipherName(RC4) == "rc4" && CipherName(ASCON128) == "ascon128"
    ensures AES128CBC in CIPHERS && AES256CBC in CIPHERS && CHACHA20 in CIPHERS
    ensures SQLCIPHER in CIPHERS && RC4 in CIPHERS && ASCON128 in CIPHERS
  {}

  ghost predicate DenotesInt(t: Text) {
    exists n :: INT_MIN <= n <= INT_MAX && Denotes(t, n)
  }

  /**
   * Exactly the maps that compile: they name one of the six ciphers, in any case, have a legacy
   * version and a key or a rekey, and nothing but 32-bit integers otherwise.
   */
  lemma CompilesExactly(m: Pragmas)
    ensures Compiled(m).Ok? <==>
      && CIPHER in m && SpellsCipher(m[CIPHER])
      && LEGACY in m
      && (KEY in m || RE_KEY in m)
      && forall p :: p in m && p !in {CIPHER, KEY, RE_KEY} ==> DenotesInt(m[p])
    ensures Compiled(m).Err? ==> Compiled(m) == Err(IllegalArgument)
  {
    hide IsCipherName, SpellsCipher, ToIntOrNull, Denotes, StatementsOf;
    if CIPHER in m {
      CipherNamesSpelled(m[CIPHER]);
    }
    forall p | p in m
      ensures ToIntOrNull(m[p]).Some? <==> DenotesInt(m[p])
    {
      ReadsExactly(m[p]);
    }
  }

  lemma ReadsExactly(t: Text)
    ensures ToIntOrNull(t).Some? <==> DenotesInt(t)
  {
    hide ToIntOrNull, Denotes;
    if ToIntOrNull(t).Some? {
      ToIntOrNullExact(t, ToIntOrNull(t).value);
    }
    if DenotesInt(t) {
      var n :| INT_MIN <= n <= INT_MAX && Denotes(t, n);
      ToIntOrNullExact(t, n);
    }
  }

  /******* Maps of a configuration *******/

  function Bit(b: bool): Text {
    Ascii(if b then "1" else "0")
  }

  function ShaText(sha: ShaAlgorithm): Text {
    match sha case SHA1 => Ascii("0") case SHA256 => Ascii("1") case SHA512 => Ascii("2")
  }

  function PgnoText(pgno: HmacPgno): Text {
    match pgno case NATIVE => Ascii("0") case LITTLE_ENDIAN => Ascii("1") case BIG_ENDIAN => Ascii("2")
  }

  /** All parameters of a cipher configuration, as they are written. */
  function AllTexts(c: CipherConfig): Pragmas {
    match c
    case ChaCha20Config(legacy, pageSize, kdfIter) =>
      map[CIPHER := Ascii("chacha20"), LEGACY := Decimal(legacy), LEGACY_PAGE_SIZE := Decimal(pageSize),
          KDF_ITER := Decimal(kdfIter)]
    case Rc4Config(legacy, pageSize) =>
      map[CIPHER := Ascii("rc4"), LEGACY := Decimal(legacy), LEGACY_PAGE_SIZE := Decimal(pageSize)]
    case SqlCipherConfig(legacy, pageSize, kdfIter, fastKdfIter, use, pgno, mask, kdf, hmac, headerSize) =>
      map[CIPHER := Ascii("sqlcipher"), LEGACY := Decimal(legacy), LEGACY_PAGE_SIZE := Decimal(pageSize),
          KDF_ITER := Decimal(kdfIter), FAST_KDF_ITER := Decimal(fastKdfIter), HMAC_USE := Bit(use),
          KDF_ALGORITHM := ShaText(kdf), HMAC_ALGORITHM := ShaText(hmac)]
      + (if pgno.Some? then map[HMAC_PGNO := PgnoText(pgno.value)] else map[])
      + (if mask.Some? then map[HMAC_SALT_MASK := Decimal(mask.value)] else map[])
      + (if headerSize.Some? then map[PLAIN_TEXT_HEADER_SIZE := Decimal(headerSize.value)] else map[])
    case WxAes128Config(legacy, pageSize) =>
      map[CIPHER := Ascii("aes128cbc"), LEGACY := Decimal(legacy), LEGACY_PAGE_SIZE := Decimal(pageSize)]
    case WxAes256Config(legacy, pageSize, kdfIter) =>
      map[CIPHER := Ascii("aes256cbc"), LEGACY := Decimal(legacy), LEGACY_PAGE_SIZE := Decimal(pageSize),
          KDF_ITER := Decimal(kdfIter)]
    case Ascon128Config(legacy, _, kdfIter) =>
      map[CIPHER := Ascii("ascon128"), LEGACY := Decimal(legacy), KDF_ITER := Decimal(kdfIter)]
  }

  lemma SmallDecimals()
    ensures Decimal(0) == Ascii("0") && Decimal(1) == Ascii("1") && Decimal(2) == Ascii("2")
  {}

  lemma ParameterText(c: CipherConfig, p: McPragma)
    requires p != CIPHER
    ensures p in AllTexts(c) <==> Parameter(c, p).Some?
    ensures p in AllTexts(c) ==> AllTexts(c)[p] == Decimal(Parameter(c, p).value)
  {
    SmallDecimals();
    hide Decimal, Ascii;
    match c
    case SqlCipherConfig(_, _, _, _, _, _, _, _, _, _) => SqlCipherText(c, p);
    case _ =>
  }

  lemma SqlCipherText(c: CipherConfig, p: McPragma)
    requires c.SqlCipherConfig? && p != CIPHER
    ensures p in AllTexts(c) <==> Parameter(c, p).Some?
    ensures p in AllTexts(c) ==> AllTexts(c)[p] == Decimal(Parameter(c, p).value)
  {
    SmallDecimals();
    hide Decimal, Ascii;
    match p
    case HMAC_USE => assert Bit(c.hmacUse) == Decimal(BoolValue(c.hmacUse));
    case HMAC_PGNO =>
    case KDF_ALGORITHM => assert ShaText(c.kdfAlgorithm) == Decimal(c.kdfAlgorithm.Ordinal());
    case HMAC_ALGORITHM => assert ShaText(c.hmacAlgorithm) == Decimal(c.hmacAlgorithm.Ordinal());
    case _ =>
  }

  /** With `addAll` a configuration fills a map with all its parameters, each under its own name. */
  lemma AllParameterTexts(c: EncryptionConfig)
    ensures EncryptionPragmas(c, true)
         == AllTexts(c.cipherConfig) + map[HMAC_CHECK := Bit(c.hmacCheck), MC_LEGACY_WAL := Bit(c.mcLegacyWal)]
  {
    hide AllTexts, EncryptionPragmas, Decimal, Parameter, Baseline;
    var all := AllTexts(c.cipherConfig) + map[HMAC_CHECK := Bit(c.hmacCheck), MC_LEGACY_WAL := Bit(c.mcLegacyWal)];
    SmallDecimals();
    CipherText(c.cipherConfig);
    forall p: McPragma
      ensures p in EncryptionPragmas(c, true) <==> p in all
      ensures p in all ==> EncryptionPragmas(c, true)[p] == all[p]
    {
      EncryptionPragmaAt(c, true, p);
      if p != CIPHER {
        ParameterText(c.cipherConfig, p);
        NoOtherParameter(c.cipherConfig, p);
      }
    }
  }

  lemma CipherText(c: CipherConfig)
    ensures CIPHER in AllTexts(c) && AllTexts(c)[CIPHER] == Ascii(CipherName(c.Cipher()))
  {}

  lemma NoOtherParameter(c: CipherConfig, p: McPragma)
    ensures p in {CIPHER, HMAC_CHECK, MC_LEGACY_WAL, KEY, RE_KEY} ==> Parameter(c, p).None?
  {}

  /** What the engine holds for a parameter, as its registers are. */
  function Held(r: Registers, p: McPragma): Option<int> {
    match p
    case HMAC_CHECK => Some(r.hmacCheck)
    case MC_LEGACY_WAL => Some(r.legacyWal)
    case _ => if p in r.params then Some(r.params[p]) else None
  }

  /**
   * Without `addAll` the map is as small as it can be: beside the cipher and the legacy version it
   * has exactly those parameters that the engine, told these two, would not hold by itself.
   */
  lemma SparseIsMinimal(c: EncryptionConfig, p: McPragma)
    requires c.Valid() && p !in {CIPHER, LEGACY, KEY, RE_KEY}
    ensures var full, sparse := EncryptionPragmas(c, true), EncryptionPragmas(c, false);
      && {CIPHER, LEGACY} <= sparse.Keys <= full.Keys
      && (forall q :: q in sparse ==> sparse[q] == full[q])
      && (p in sparse <==>
           p in full && Held(Assign(Reset(c.Cipher()), LEGACY, c.cipherConfig.legacy), p) != Held(View(c), p))
  {
    hide EncryptionPragmas, Decimal, Baseline, Defaults, Parameter;
    forall q: McPragma
      ensures q in EncryptionPragmas(c, false) ==>
        q in EncryptionPragmas(c, true) && EncryptionPragmas(c, false)[q] == EncryptionPragmas(c, true)[q]
      ensures q in {CIPHER, LEGACY} ==> q in EncryptionPragmas(c, false)
    {
      EncryptionPragmaAt(c, true, q);
      EncryptionPragmaAt(c, false, q);
      LegacyAlways(c.cipherConfig);
    }
    EncryptionPragmaAt(c, true, p);
    EncryptionPragmaAt(c, false, p);
    DefaultsAreBaseline(c.cipherConfig, p);
    BaselinePattern(c.cipherConfig, p);
  }

  lemma LegacyAlways(c: CipherConfig)
    ensures Parameter(c, LEGACY).Some?
  {}

  /** The settings that the ciphers come with, written out. */
  predicate IsStandard(c: CipherConfig) {
    || c == ChaCha20Config(0, 4096, 64007)
    || c == ChaCha20Config(1, 4096, 12345)
    || c == Rc4Config(1, 0)
    || c == WxAes128Config(0, 0) || c == WxAes128Config(1, 0)
    || c == WxAes256Config(0, 0, 4001) || c == WxAes256Config(1, 0, 4001)
    || c == Ascon128Config(0, 4096, 64007)
    || c == SqlCipherConfig(0, 4096, 256000, 2, true, Some(LITTLE_ENDIAN), Some(0x3A), SHA512, SHA512, Some(0))
    || c == SqlCipherConfig(1, 1024, 4000, 2, false, None, None, SHA1, SHA1, None)
    || c == SqlCipherConfig(2, 1024, 4000, 2, true, Some(LITTLE_ENDIAN), Some(0x3A), SHA1, SHA1, None)
    || c == SqlCipherConfig(3, 1024, 64000, 2, true, Some(LITTLE_ENDIAN), Some(0x3A), SHA1, SHA1, None)
    || c == SqlCipherConfig(4, 4096, 256000, 2, true, Some(LITTLE_ENDIAN), Some(0x3A), SHA512, SHA512, Some(0))
  }

  /** A configuration is standard when it is its preset, but for the legacy version. */
  lemma StandardIsBaseline(c: CipherConfig)
    requires c.Valid()
    ensures IsStandard(c) <==> Baseline(c).(legacy := c.legacy) == c
  {}

  /** The preset of a configuration under its own legacy version. */
  function Preset(c: CipherConfig): CipherConfig {
    Baseline(c).(legacy := c.legacy)
  }

  lemma PresetIsValid(c: CipherConfig, p: McPragma)
    requires c.Valid()
    ensures Preset(c).Valid() && Preset(c).Cipher() == c.Cipher()
    ensures p != LEGACY ==> Parameter(Preset(c), p) == Parameter(Baseline(c), p)
  {}

  lemma WrittenPragma(c: CipherConfig, p: McPragma)
    requires c.Valid()
    ensures p in EncryptionPragmas(EncryptionConfig(c, true, false), false) <==>
      p == CIPHER || p == LEGACY || Parameter(c, p) != Parameter(Preset(c), p)
  {
    hide Baseline, EncryptionPragmas, Parameter, Preset;
    EncryptionPragmaAt(EncryptionConfig(c, true, false), false, p);
    BaselinePattern(c, p);
    PresetIsValid(c, p);
    NoOtherParameter(c, p);
    NoOtherParameter(Preset(c), p);
    LegacyAlways(c);
  }

  /** Nothing but the cipher and the legacy version is written for exactly the standard settings. */
  lemma StandardIsShort(c: CipherConfig)
    requires c.Valid()
    ensures EncryptionPragmas(EncryptionConfig(c, true, false), false).Keys == {CIPHER, LEGACY} <==> IsStandard(c)
  {
    hide Baseline, EncryptionPragmas, Parameter, IsStandard;
    var m := EncryptionPragmas(EncryptionConfig(c, true, false), false);
    StandardIsBaseline(c);
    forall p: McPragma
      ensures p in m.Keys <==> p in {CIPHER, LEGACY} || Parameter(c, p) != Parameter(Preset(c), p)
      ensures p == LEGACY ==> Parameter(c, p) == Parameter(Preset(c), p)
    {
      WrittenPragma(c, p);
      LegacyParameter(c);
    }
    PresetIsValid(c, KEY);
    if m.Keys == {CIPHER, LEGACY} {
      forall p: McPragma
        ensures Parameter(c, p) == Parameter(Preset(c), p)
      {
        assert p in m.Keys ==> p == CIPHER || p == LEGACY;
        NoOtherParameter(c, p);
        NoOtherParameter(Preset(c), p);
      }
      SameParameters(c, Preset(c));
    }
  }

  lemma LegacyParameter(c: CipherConfig)
    ensures Parameter(c, LEGACY) == Parameter(Preset(c), LEGACY) == Some(c.legacy)
  {}

  /** So is then the map that a factory builds for a key, and it has one entry more. */
  lemma FactoryMapIsShort(c: CipherConfig, key: Key, isRekey: bool)
    requires c.Valid() && KeyedPragmas(EncryptionConfig(c, true, false), key, isRekey).Ok?
    ensures KeyedPragmas(EncryptionConfig(c, true, false), key, isRekey).value.Keys
         == {CIPHER, LEGACY, if isRekey then RE_KEY else KEY}
       <==> IsStandard(c)
  {
    hide EncryptionPragmas, RetrieveFormatted, IsStandard;
    var e := EncryptionConfig(c, true, false);
    StandardIsShort(c);
    EncryptionPragmaAt(e, false, KEY);
    EncryptionPragmaAt(e, false, RE_KEY);
    var m, k := EncryptionPragmas(e, false), if isRekey then RE_KEY else KEY;
    assert KeyedPragmas(e, key, isRekey).value.Keys == m.Keys + {k};
    assert m.Keys == (m.Keys + {k}) - {k};
  }
}
