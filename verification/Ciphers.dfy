/** Ciphers, the pragmas that configure them, and the immutable configurations. */
module Ciphers {
  import opened Wrappers
  import opened Texts

  datatype Cipher = AES128CBC | AES256CBC | CHACHA20 | SQLCIPHER | RC4 | ASCON128

  const CIPHERS: seq<Cipher> := [AES128CBC, AES256CBC, CHACHA20, SQLCIPHER, RC4, ASCON128]

  function CipherName(c: Cipher): string {
    match c
    case AES128CBC => "aes128cbc"
    case AES256CBC => "aes256cbc"
    case CHACHA20 => "chacha20"
    case SQLCIPHER => "sqlcipher"
    case RC4 => "rc4"
    case ASCON128 => "ascon128"
  }

  /** The pragmas, in the order in which they are executed. */
  datatype McPragma =
    | CIPHER
    | HMAC_CHECK
    | MC_LEGACY_WAL
    | LEGACY
    | LEGACY_PAGE_SIZE
    | KDF_ITER
    | FAST_KDF_ITER
    | HMAC_USE
    | HMAC_PGNO
    | HMAC_SALT_MASK
    | KDF_ALGORITHM
    | HMAC_ALGORITHM
    | PLAIN_TEXT_HEADER_SIZE
    | KEY
    | RE_KEY

  /** `MCPragma.ALL` without `KEY` and `RE_KEY`. */
  const PARAMETERS: seq<McPragma> := [
    CIPHER, HMAC_CHECK, MC_LEGACY_WAL, LEGACY, LEGACY_PAGE_SIZE, KDF_ITER, FAST_KDF_ITER, HMAC_USE,
    HMAC_PGNO, HMAC_SALT_MASK, KDF_ALGORITHM, HMAC_ALGORITHM, PLAIN_TEXT_HEADER_SIZE
  ]

  /** `MCPragma.ALL`. */
  const ALL: seq<McPragma> := PARAMETERS + [KEY, RE_KEY]

  function PragmaName(p: McPragma): string {
    match p
    case CIPHER => "cipher"
    case HMAC_CHECK => "hmac_check"
    case MC_LEGACY_WAL => "mc_legacy_wal"
    case LEGACY => "legacy"
    case LEGACY_PAGE_SIZE => "legacy_page_size"
    case KDF_ITER => "kdf_iter"
    case FAST_KDF_ITER => "fast_kdf_iter"
    case HMAC_USE => "hmac_use"
    case HMAC_PGNO => "hmac_pgno"
    case HMAC_SALT_MASK => "hmac_salt_mask"
    case KDF_ALGORITHM => "kdf_algorithm"
    case HMAC_ALGORITHM => "hmac_algorithm"
    case PLAIN_TEXT_HEADER_SIZE => "plaintext_header_size"
    case KEY => "key"
    case RE_KEY => "rekey"
  }

  /** Pragma names as the source's maps hold them, values being SQL text. */
  type Pragmas = map<McPragma, Text>

  datatype HmacPgno = NATIVE | LITTLE_ENDIAN | BIG_ENDIAN {
    function Ordinal(): int {
      match this case NATIVE => 0 case LITTLE_ENDIAN => 1 case BIG_ENDIAN => 2
    }
  }

  /** `KdfAlgorithm` and `HmacAlgorithm` have the same three members. */
  datatype ShaAlgorithm = SHA1 | SHA256 | SHA512 {
    function Ordinal(): int {
      match this case SHA1 => 0 case SHA256 => 1 case SHA512 => 2
    }
  }

  datatype CipherConfig =
    | ChaCha20Config(legacy: int, legacyPageSize: int, kdfIter: int)
    | Rc4Config(legacy: int, legacyPageSize: int)
    | SqlCipherConfig(
        legacy: int, legacyPageSize: int, kdfIter: int, fastKdfIter: int, hmacUse: bool,
        hmacPgno: Option<HmacPgno>, hmacSaltMask: Option<int>,
        kdfAlgorithm: ShaAlgorithm, hmacAlgorithm: ShaAlgorithm, plaintextHeaderSize: Option<int>)
    | WxAes128Config(legacy: int, legacyPageSize: int)
    | WxAes256Config(legacy: int, legacyPageSize: int, kdfIter: int)
    | Ascon128Config(legacy: int, legacyPageSize: int, kdfIter: int)
  {
    function Cipher(): Cipher {
      match this
      case ChaCha20Config(_, _, _) => CHACHA20
      case Rc4Config(_, _) => RC4
      case SqlCipherConfig(_, _, _, _, _, _, _, _, _, _) => SQLCIPHER
      case WxAes128Config(_, _) => AES128CBC
      case WxAes256Config(_, _, _) => AES256CBC
      case Ascon128Config(_, _, _) => ASCON128
    }

    /** What every configuration a builder returns satisfies. */
    predicate Valid() {
      match this
      case ChaCha20Config(legacy, pageSize, kdfIter) =>
        0 <= legacy <= 1 && IsLegacyPageSize(pageSize) && IsKdfIter(kdfIter)
      case Rc4Config(legacy, pageSize) =>
        legacy == 1 && IsLegacyPageSize(pageSize)
      case SqlCipherConfig(legacy, pageSize, kdfIter, fastKdfIter, _, pgno, saltMask, _, _, headerSize) =>
        && 0 <= legacy <= 4 && IsLegacyPageSize(pageSize) && IsKdfIter(kdfIter) && IsKdfIter(fastKdfIter)
        && (pgno.None? <==> legacy == 1)
        && (saltMask.None? <==> legacy == 1)
        && (saltMask.Some? ==> 0 <= saltMask.value <= 127)
        && (headerSize.None? <==> 1 <= legacy <= 3)
        && (headerSize.Some? ==> 0 <= headerSize.value <= 96 && headerSize.value % 16 == 0)
      case WxAes128Config(legacy, pageSize) =>
        0 <= legacy <= 1 && IsLegacyPageSize(pageSize)
      case WxAes256Config(legacy, pageSize, kdfIter) =>
        0 <= legacy <= 1 && IsLegacyPageSize(pageSize) && IsKdfIter(kdfIter)
      case Ascon128Config(legacy, pageSize, kdfIter) =>
        legacy == 0 && pageSize == 4096 && IsKdfIter(kdfIter)
    }
  }

  /** 0, or a power of two from 512 to 65536. */
  predicate IsLegacyPageSize(n: int) {
    n in {0, 512, 1024, 2048, 4096, 8192, 16384, 32768, 65536}
  }

  predicate IsKdfIter(n: int) {
    0 < n <= INT_MAX
  }

  datatype EncryptionConfig =
    EncryptionConfig(cipherConfig: CipherConfig, hmacCheck: bool, mcLegacyWal: bool)
  {
    predicate Valid() {
      cipherConfig.Valid()
    }

    function Cipher(): Cipher {
      cipherConfig.Cipher()
    }
  }

  /******* The presets *******/

  const CHACHA20_DEFAULT := ChaCha20Config(0, 4096, 64007)
  const CHACHA20_SQLEET := ChaCha20Config(1, 4096, 12345)
  const RC4_DEFAULT := Rc4Config(1, 0)
  const WXAES128_DEFAULT := WxAes128Config(0, 0)
  const WXAES256_DEFAULT := WxAes256Config(0, 0, 4001)
  const ASCON128_DEFAULT := Ascon128Config(0, 4096, 64007)
  const SQLCIPHER_DEFAULT :=
    SqlCipherConfig(0, 4096, 256000, 2, true, Some(LITTLE_ENDIAN), Some(0x3A), SHA512, SHA512, Some(0))
  const SQLCIPHER_V1 := SqlCipherConfig(1, 1024, 4000, 2, false, None, None, SHA1, SHA1, None)
  const SQLCIPHER_V2 :=
    SqlCipherConfig(2, 1024, 4000, 2, true, Some(LITTLE_ENDIAN), Some(0x3A), SHA1, SHA1, None)
  const SQLCIPHER_V3 :=
    SqlCipherConfig(3, 1024, 64000, 2, true, Some(LITTLE_ENDIAN), Some(0x3A), SHA1, SHA1, None)
  const SQLCIPHER_V4 :=
    SqlCipherConfig(4, 4096, 256000, 2, true, Some(LITTLE_ENDIAN), Some(0x3A), SHA512, SHA512, Some(0))

  /** The preset that a configuration's sparse pragmas are a difference to. */
  function Baseline(c: CipherConfig): CipherConfig {
    match c
    case ChaCha20Config(legacy, _, _) => if legacy == 0 then CHACHA20_DEFAULT else CHACHA20_SQLEET
    case Rc4Config(_, _) => RC4_DEFAULT
    case SqlCipherConfig(legacy, _, _, _, _, _, _, _, _, _) =>
      (match legacy
       case 0 => SQLCIPHER_DEFAULT
       case 1 => SQLCIPHER_V1
       case 2 => SQLCIPHER_V2
       case 3 => SQLCIPHER_V3
       case _ => SQLCIPHER_V4)
    case WxAes128Config(_, _) => WXAES128_DEFAULT
    case WxAes256Config(_, _, _) => WXAES256_DEFAULT
    case Ascon128Config(_, _, _) => ASCON128_DEFAULT
  }

  function BoolValue(b: bool): int {
    if b then 1 else 0
  }

  /** The value of one numeric parameter of a configuration, `None` where it has none. */
  function Parameter(c: CipherConfig, p: McPragma): Option<int> {
    match p
    case LEGACY => Some(c.legacy)
    case LEGACY_PAGE_SIZE => if c.Ascon128Config? then None else Some(c.legacyPageSize)
    case KDF_ITER => if c.Rc4Config? || c.WxAes128Config? then None else Some(c.kdfIter)
    case FAST_KDF_ITER => if c.SqlCipherConfig? then Some(c.fastKdfIter) else None
    case HMAC_USE => if c.SqlCipherConfig? then Some(BoolValue(c.hmacUse)) else None
    case HMAC_PGNO =>
      if c.SqlCipherConfig? && c.hmacPgno.Some? then Some(c.hmacPgno.value.Ordinal()) else None
    case HMAC_SALT_MASK => if c.SqlCipherConfig? then c.hmacSaltMask else None
    case KDF_ALGORITHM => if c.SqlCipherConfig? then Some(c.kdfAlgorithm.Ordinal()) else None
    case HMAC_ALGORITHM => if c.SqlCipherConfig? then Some(c.hmacAlgorithm.Ordinal()) else None
    case PLAIN_TEXT_HEADER_SIZE => if c.SqlCipherConfig? then c.plaintextHeaderSize else None
    case _ => None
  }

  function Parameters(c: CipherConfig): map<McPragma, int> {
    map p: McPragma | Parameter(c, p).Some? :: Parameter(c, p).value
  }
}
