/** Pragma maps: how a configuration fills one, and how one is compiled to SQL statements. */
module McPragmas {
  import opened Wrappers
  import opened Texts
  import opened Ciphers
  import opened Keys

  /** `MutableMCPragmas`. Order of insertion is never observed, as statements follow `ALL`. */
  class PragmaMap {
    var entries: Pragmas

    constructor ()
      ensures entries == map[]
    {
      entries := map[];
    }

    method Put(p: McPragma, value: Text)
      modifies this
      ensures entries == old(entries)[p := value]
    {
      entries := entries[p := value];
    }

    /**
     * `if (condition) p.put(pragmas, value)`. The ghost parameters say what the map held before
     * the configuration was applied, what it should get, and which pragmas are dealt with.
     */
    method PutIf(
        condition: bool, p: McPragma, value: int,
        ghost start: Pragmas, ghost values: map<McPragma, int>, ghost done: set<McPragma>)
      returns (ghost done': set<McPragma>)
      requires entries == start + Rendered(values, done)
      requires condition <==> p in values
      requires condition ==> values[p] == value
      modifies this
      ensures done' == done + {p} && entries == start + Rendered(values, done')
    {
      hide Decimal;
      if condition {
        Put(p, Decimal(value));
      }
      done' := done + {p};
    }

    method Clear()
      modifies this
      ensures entries == map[]
    {
      entries := map[];
    }
  }

  /******* What a configuration puts into a map *******/

  /** The parameters that differ from the configuration's baseline, and always `LEGACY`. */
  predicate IsEmitted(c: CipherConfig, addAll: bool, p: McPragma) {
    Parameter(c, p).Some? && (p == LEGACY || addAll || Parameter(Baseline(c), p) != Parameter(c, p))
  }

  const NUMERIC: set<McPragma> := {
    LEGACY, LEGACY_PAGE_SIZE, KDF_ITER, FAST_KDF_ITER, HMAC_USE, HMAC_PGNO, HMAC_SALT_MASK,
    KDF_ALGORITHM, HMAC_ALGORITHM, PLAIN_TEXT_HEADER_SIZE
  }

  function SparseParameters(c: CipherConfig, addAll: bool): map<McPragma, int> {
    map p | p in NUMERIC && IsEmitted(c, addAll, p) :: Parameter(c, p).value
  }

  function Rendered(values: map<McPragma, int>, ps: set<McPragma>): Pragmas {
    map p | p in ps && p in values :: Decimal(values[p])
  }

  function CipherPragmas(c: CipherConfig, addAll: bool): Pragmas {
    map[CIPHER := Ascii(CipherName(c.Cipher()))] + Rendered(SparseParameters(c, addAll), NUMERIC)
  }

  lemma SparseAt(c: CipherConfig, addAll: bool, p: McPragma)
    requires p in NUMERIC
    ensures p in SparseParameters(c, addAll) <==> IsEmitted(c, addAll, p)
    ensures IsEmitted(c, addAll, p) ==> SparseParameters(c, addAll)[p] == Parameter(c, p).value
  {}

  ghost predicate At(values: map<McPragma, int>, p: McPragma, condition: bool, value: int) {
    (p in values <==> condition) && (condition ==> values[p] == value)
  }

  /** `values` holds, `LEGACY` aside, what SQLCipher's parameters have that `base` has not. */
  ghost predicate IsSqlCipherDifference(
      c: CipherConfig, base: CipherConfig, addAll: bool, values: map<McPragma, int>)
    requires c.SqlCipherConfig? && base.SqlCipherConfig?
  {
    && At(values, LEGACY_PAGE_SIZE, addAll || c.legacyPageSize != base.legacyPageSize, c.legacyPageSize)
    && At(values, KDF_ITER, addAll || c.kdfIter != base.kdfIter, c.kdfIter)
    && At(values, FAST_KDF_ITER, addAll || c.fastKdfIter != base.fastKdfIter, c.fastKdfIter)
    && At(values, HMAC_USE, addAll || c.hmacUse != base.hmacUse, BoolValue(c.hmacUse))
    && At(values, HMAC_PGNO, c.hmacPgno.Some? && (addAll || c.hmacPgno != base.hmacPgno),
          if c.hmacPgno.Some? then c.hmacPgno.value.Ordinal() else 0)
    && At(values, HMAC_SALT_MASK, c.hmacSaltMask.Some? && (addAll || c.hmacSaltMask != base.hmacSaltMask),
          if c.hmacSaltMask.Some? then c.hmacSaltMask.value else 0)
    && At(values, KDF_ALGORITHM, addAll || c.kdfAlgorithm != base.kdfAlgorithm, c.kdfAlgorithm.Ordinal())
    && At(values, HMAC_ALGORITHM, addAll || c.hmacAlgorithm != base.hmacAlgorithm, c.hmacAlgorithm.Ordinal())
    && At(values, PLAIN_TEXT_HEADER_SIZE,
          c.plaintextHeaderSize.Some? && (addAll || c.plaintextHeaderSize != base.plaintextHeaderSize),
          if c.plaintextHeaderSize.Some? then c.plaintextHeaderSize.value else 0)
  }

  lemma SqlCipherSparse(c: CipherConfig, addAll: bool)
    requires c.SqlCipherConfig?
    ensures Baseline(c).SqlCipherConfig?
    ensures IsSqlCipherDifference(c, Baseline(c), addAll, SparseParameters(c, addAll))
  {
    SqlCipherBaseline(c);
    hide SparseParameters, Baseline;
    SparseAt(c, addAll, LEGACY_PAGE_SIZE);
    SparseAt(c, addAll, KDF_ITER);
    SparseAt(c, addAll, FAST_KDF_ITER);
    SparseAt(c, addAll, HMAC_USE);
    SparseAt(c, addAll, HMAC_PGNO);
    SparseAt(c, addAll, HMAC_SALT_MASK);
    SparseAt(c, addAll, KDF_ALGORITHM);
    SparseAt(c, addAll, HMAC_ALGORITHM);
    SparseAt(c, addAll, PLAIN_TEXT_HEADER_SIZE);
  }

  lemma SqlCipherBaseline(c: CipherConfig)
    requires c.SqlCipherConfig?
    ensures Baseline(c).SqlCipherConfig?
  {}

  method ApplySqlCipher(
      c: CipherConfig, base: CipherConfig, addAll: bool, pragmas: PragmaMap,
      ghost start: Pragmas, ghost values: map<McPragma, int>)
    requires c.SqlCipherConfig? && base.SqlCipherConfig?
    requires IsSqlCipherDifference(c, base, addAll, values)
    requires pragmas.entries == start + Rendered(values, {LEGACY})
    modifies pragmas
    ensures pragmas.entries == start + Rendered(values, NUMERIC)
  {
    hide Decimal, Rendered;
    ghost var done := {LEGACY};
    done := pragmas.PutIf(addAll || c.legacyPageSize != base.legacyPageSize,
                          LEGACY_PAGE_SIZE, c.legacyPageSize, start, values, done);
    done := pragmas.PutIf(addAll || c.kdfIter != base.kdfIter, KDF_ITER, c.kdfIter, start, values, done);
    done := pragmas.PutIf(addAll || c.fastKdfIter != base.fastKdfIter,
                          FAST_KDF_ITER, c.fastKdfIter, start, values, done);
    done := ApplyHmac(c, base, addAll, pragmas, start, values, done);
    done := pragmas.PutIf(
      c.plaintextHeaderSize.Some? && (addAll || c.plaintextHeaderSize != base.plaintextHeaderSize),
      PLAIN_TEXT_HEADER_SIZE, if c.plaintextHeaderSize.Some? then c.plaintextHeaderSize.value else 0,
      start, values, done);
    assert done == NUMERIC;
  }

  /** The HMAC and algorithm part of SQLCipher's parameters. */
  method ApplyHmac(
      c: CipherConfig, base: CipherConfig, addAll: bool, pragmas: PragmaMap,
      ghost start: Pragmas, ghost values: map<McPragma, int>, ghost before: set<McPragma>)
    returns (ghost done: set<McPragma>)
    requires c.SqlCipherConfig? && base.SqlCipherConfig?
    requires IsSqlCipherDifference(c, base, addAll, values)
    requires pragmas.entries == start + Rendered(values, before)
    modifies pragmas
    ensures done == before + {HMAC_USE, HMAC_PGNO, HMAC_SALT_MASK, KDF_ALGORITHM, HMAC_ALGORITHM}
    ensures pragmas.entries == start + Rendered(values, done)
  {
    hide Decimal, Rendered;
    done := before;
    done := pragmas.PutIf(addAll || c.hmacUse != base.hmacUse, HMAC_USE, BoolValue(c.hmacUse), start, values, done);
    done := pragmas.PutIf(c.hmacPgno.Some? && (addAll || c.hmacPgno != base.hmacPgno),
                          HMAC_PGNO, if c.hmacPgno.Some? then c.hmacPgno.value.Ordinal() else 0, start, values, done);
    done := pragmas.PutIf(c.hmacSaltMask.Some? && (addAll || c.hmacSaltMask != base.hmacSaltMask),
                          HMAC_SALT_MASK, if c.hmacSaltMask.Some? then c.hmacSaltMask.value else 0,
                          start, values, done);
    done := pragmas.PutIf(addAll || c.kdfAlgorithm != base.kdfAlgorithm,
                          KDF_ALGORITHM, c.kdfAlgorithm.Ordinal(), start, values, done);
    done := pragmas.PutIf(addAll || c.hmacAlgorithm != base.hmacAlgorithm,
                          HMAC_ALGORITHM, c.hmacAlgorithm.Ordinal(), start, values, done);
  }

  /** The ciphers other than SQLCipher have at most these two parameters beside `LEGACY`. */
  lemma OtherSparse(c: CipherConfig, addAll: bool)
    requires !c.SqlCipherConfig?
    ensures var base, values := Baseline(c), SparseParameters(c, addAll);
      && (LEGACY_PAGE_SIZE in values <==> !c.Ascon128Config? && (addAll || c.legacyPageSize != base.legacyPageSize))
      && (LEGACY_PAGE_SIZE in values ==> values[LEGACY_PAGE_SIZE] == c.legacyPageSize)
      && (KDF_ITER in values ==> !c.Rc4Config? && !c.WxAes128Config?)
      && (!c.Rc4Config? && !c.WxAes128Config? ==>
           && !base.Rc4Config? && !base.WxAes128Config?
           && (KDF_ITER in values <==> addAll || c.kdfIter != base.kdfIter)
           && (KDF_ITER in values ==> values[KDF_ITER] == c.kdfIter))
      && values.Keys <= {LEGACY, LEGACY_PAGE_SIZE, KDF_ITER}
  {
    SparseAt(c, addAll, LEGACY_PAGE_SIZE);
    SparseAt(c, addAll, KDF_ITER);
  }

  method ApplyOther(
      c: CipherConfig, addAll: bool, pragmas: PragmaMap, ghost start: Pragmas)
    returns (ghost done: set<McPragma>)
    requires !c.SqlCipherConfig?
    requires pragmas.entries == start + Rendered(SparseParameters(c, addAll), {LEGACY})
    modifies pragmas
    ensures SparseParameters(c, addAll).Keys <= done
    ensures pragmas.entries == start + Rendered(SparseParameters(c, addAll), done)
  {
    OtherSparse(c, addAll);
    hide Decimal, Rendered, SparseParameters, Baseline;
    var base := Baseline(c);
    ghost var values := SparseParameters(c, addAll);
    done := {LEGACY};
    if !c.Ascon128Config? {
      done := pragmas.PutIf(addAll || c.legacyPageSize != base.legacyPageSize,
                            LEGACY_PAGE_SIZE, c.legacyPageSize, start, values, done);
    }
    if !c.Rc4Config? && !c.WxAes128Config? {
      done := pragmas.PutIf(addAll || c.kdfIter != base.kdfIter, KDF_ITER, c.kdfIter, start, values, done);
    }
  }

  lemma SparseRendered(c: CipherConfig, addAll: bool, ps: set<McPragma>)
    requires SparseParameters(c, addAll).Keys <= ps
    ensures Rendered(SparseParameters(c, addAll), ps) == Rendered(SparseParameters(c, addAll), NUMERIC)
  {}

  lemma PutThenAdd(m: Pragmas, p: McPragma, value: Text, rest: Pragmas)
    ensures m[p := value] + rest == m + (map[p := value] + rest)
  {}

  method ApplyParameters(c: CipherConfig, addAll: bool, pragmas: PragmaMap)
    modifies pragmas
    ensures pragmas.entries == old(pragmas.entries) + Rendered(SparseParameters(c, addAll), NUMERIC)
  {
    ghost var start, values := pragmas.entries, SparseParameters(c, addAll);
    SparseAt(c, addAll, LEGACY);
    NothingRendered(values);
    hide Decimal, Rendered, SparseParameters, Parameter, Baseline, IsSqlCipherDifference;
    ghost var done := pragmas.PutIf(true, LEGACY, c.legacy, start, values, {});
    if c.SqlCipherConfig? {
      SqlCipherSparse(c, addAll);
      ApplySqlCipher(c, Baseline(c), addAll, pragmas, start, values);
    } else {
      done := ApplyOther(c, addAll, pragmas, start);
      SparseRendered(c, addAll, done);
    }
  }

  lemma NothingRendered(values: map<McPragma, int>)
    ensures Rendered(values, {}) == map[]
  {}

  /** `MCCipherConfig.applyPragmas`. */
  method ApplyCipherPragmas(c: CipherConfig, pragmas: PragmaMap, addAll: bool)
    modifies pragmas
    ensures pragmas.entries == old(pragmas.entries) + CipherPragmas(c, addAll)
  {
    hide Rendered, SparseParameters;
    pragmas.Put(CIPHER, Ascii(CipherName(c.Cipher())));
    ApplyParameters(c, addAll, pragmas);
    PutThenAdd(old(pragmas.entries), CIPHER, Ascii(CipherName(c.Cipher())),
               Rendered(SparseParameters(c, addAll), NUMERIC));
  }

  /******* The encryption configuration and the key *******/

  function GlobalPragmas(c: EncryptionConfig, addAll: bool): Pragmas {
    (if addAll || !c.hmacCheck then map[HMAC_CHECK := Decimal(BoolValue(c.hmacCheck))] else map[])
    + (if addAll || c.mcLegacyWal then map[MC_LEGACY_WAL := Decimal(BoolValue(c.mcLegacyWal))] else map[])
  }

  function EncryptionPragmas(c: EncryptionConfig, addAll: bool): Pragmas {
    CipherPragmas(c.cipherConfig, addAll) + GlobalPragmas(c, addAll)
  }

  /** The two puts amount to adding the global pragmas. */
  lemma GlobalsPut(m: Pragmas, c: EncryptionConfig, addAll: bool)
    ensures var n := if addAll || !c.hmacCheck then m[HMAC_CHECK := Decimal(BoolValue(c.hmacCheck))] else m;
      m + GlobalPragmas(c, addAll)
      == if addAll || c.mcLegacyWal then n[MC_LEGACY_WAL := Decimal(BoolValue(c.mcLegacyWal))] else n
  {
    hide Decimal, BoolValue;
  }

  /** `EncryptionConfig.applyPragmas`: a map that names a cipher already keeps its parameters. */
  method ApplyEncryptionPragmas(c: EncryptionConfig, pragmas: PragmaMap, addAll: bool)
    modifies pragmas
    ensures pragmas.entries
         == old(pragmas.entries)
          + (if CIPHER in old(pragmas.entries) then map[] else CipherPragmas(c.cipherConfig, addAll))
          + GlobalPragmas(c, addAll)
  {
    hide CipherPragmas, GlobalPragmas, Decimal, BoolValue;
    if CIPHER !in pragmas.entries {
      ApplyCipherPragmas(c.cipherConfig, pragmas, addAll);
    }
    GlobalsPut(pragmas.entries, c, addAll);
    if addAll || !c.hmacCheck {
      pragmas.Put(HMAC_CHECK, Decimal(BoolValue(c.hmacCheck)));
    }
    if addAll || c.mcLegacyWal {
      pragmas.Put(MC_LEGACY_WAL, Decimal(BoolValue(c.mcLegacyWal)));
    }
  }

  /** The map of a configuration and a key, under `KEY` or `RE_KEY`. */
  function KeyedPragmas(c: EncryptionConfig, key: Key, isRekey: bool): Result<Pragmas> {
    match RetrieveFormatted(key, c.Cipher())
    case Err(e) => Err(e)
    case Ok(literal) => Ok(EncryptionPragmas(c, false)[if isRekey then RE_KEY else KEY := literal])
  }

  /** `EncryptionConfig.applyKeyPragma`. */
  method ApplyKeyPragma(c: EncryptionConfig, pragmas: PragmaMap, key: Key, isRekey: bool)
    returns (r: Result<()>)
    modifies pragmas
    ensures r.Ok? <==> RetrieveFormatted(key, c.Cipher()).Ok?
    ensures r.Ok? ==>
      pragmas.entries
      == old(pragmas.entries)[if isRekey then RE_KEY else KEY := RetrieveFormatted(key, c.Cipher()).value]
    ensures r.Err? ==> r.kind == IllegalArgument && pragmas.entries == old(pragmas.entries)
  {
    match RetrieveFormatted(key, c.Cipher()) {
      case Err(e) => r := Err(e);
      case Ok(literal) =>
        pragmas.Put(if isRekey then RE_KEY else KEY, literal);
        r := Ok(());
    }
  }

  /** A new map with `applyPragmas` and `applyKeyPragma` applied to it. */
  method NewKeyedPragmas(c: EncryptionConfig, key: Key, isRekey: bool) returns (r: Result<PragmaMap>)
    ensures r.Ok? <==> KeyedPragmas(c, key, isRekey).Ok?
    ensures r.Ok? ==> fresh(r.value) && r.value.entries == KeyedPragmas(c, key, isRekey).value
    ensures r.Err? ==> r.kind == IllegalArgument
  {
    hide CipherPragmas, GlobalPragmas, RetrieveFormatted;
    var pragmas := new PragmaMap();
    ApplyEncryptionPragmas(c, pragmas, false);
    assert pragmas.entries == EncryptionPragmas(c, false);
    var applied := ApplyKeyPragma(c, pragmas, key, isRekey);
    r := if applied.Ok? then Ok(pragmas) else Err(applied.kind);
  }

  /** What a configuration's map holds for a pragma, if anything. */
  function EncryptionPragma(c: EncryptionConfig, addAll: bool, p: McPragma): Option<Text> {
    match p
    case CIPHER => Some(Ascii(CipherName(c.Cipher())))
    case HMAC_CHECK => if addAll || !c.hmacCheck then Some(Decimal(BoolValue(c.hmacCheck))) else None
    case MC_LEGACY_WAL => if addAll || c.mcLegacyWal then Some(Decimal(BoolValue(c.mcLegacyWal))) else None
    case KEY => None
    case RE_KEY => None
    case _ =>
      if IsEmitted(c.cipherConfig, addAll, p) then Some(Decimal(Parameter(c.cipherConfig, p).value)) else None
  }

  lemma EmittedIsNumeric(c: CipherConfig, addAll: bool, p: McPragma)
    requires IsEmitted(c, addAll, p)
    ensures p in NUMERIC
  {
    hide Baseline;
  }

  lemma CipherPragmaAt(c: CipherConfig, addAll: bool, p: McPragma)
    requires p != CIPHER
    ensures p in CipherPragmas(c, addAll) <==> IsEmitted(c, addAll, p)
    ensures p in CipherPragmas(c, addAll) ==> CipherPragmas(c, addAll)[p] == Decimal(Parameter(c, p).value)
  {
    hide Parameter, Baseline, Decimal;
    if IsEmitted(c, addAll, p) {
      EmittedIsNumeric(c, addAll, p);
    }
  }

  lemma GlobalPragmaAt(c: EncryptionConfig, addAll: bool, p: McPragma)
    ensures p in GlobalPragmas(c, addAll) <==>
      (p == HMAC_CHECK && (addAll || !c.hmacCheck)) || (p == MC_LEGACY_WAL && (addAll || c.mcLegacyWal))
    ensures p in GlobalPragmas(c, addAll) ==>
      GlobalPragmas(c, addAll)[p] == Decimal(BoolValue(if p == HMAC_CHECK then c.hmacCheck else c.mcLegacyWal))
  {
    hide Decimal;
  }

  lemma CipherPragmaName(c: CipherConfig, addAll: bool)
    ensures CIPHER in CipherPragmas(c, addAll)
    ensures CipherPragmas(c, addAll)[CIPHER] == Ascii(CipherName(c.Cipher()))
  {
    hide Decimal, IsEmitted;
  }

  lemma EncryptionPragmaAt(c: EncryptionConfig, addAll: bool, p: McPragma)
    ensures p in EncryptionPragmas(c, addAll) <==> EncryptionPragma(c, addAll, p).Some?
    ensures p in EncryptionPragmas(c, addAll) ==>
      EncryptionPragmas(c, addAll)[p] == EncryptionPragma(c, addAll, p).value
  {
    hide Parameter, Baseline, Decimal, CipherPragmas, GlobalPragmas, IsEmitted, CipherName;
    GlobalPragmaAt(c, addAll, p);
    if p == CIPHER {
      CipherPragmaName(c.cipherConfig, addAll);
    } else {
      CipherPragmaAt(c.cipherConfig, addAll, p);
      if IsEmitted(c.cipherConfig, addAll, p) {
        EmittedIsNumeric(c.cipherConfig, addAll, p);
      }
    }
  }

  /** Valid parameters fit in 32 bits. */
  lemma ParameterRange(c: CipherConfig, p: McPragma)
    requires c.Valid() && Parameter(c, p).Some?
    ensures 0 <= Parameter(c, p).value <= INT_MAX
  {}
}
