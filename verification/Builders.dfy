/** The configuration builders: validated setters, presets, and what they can build. */
module Builders {
  import opened Wrappers
  import opened Texts
  import opened Ciphers

  type Int32 = n: int | INT_MIN <= n <= INT_MAX
  type Int8 = n: int | -128 <= n <= 127

  /******* Range checks *******/

  /** `checkLegacyPageSize` does not throw. */
  predicate PassesPageSizeCheck(n: Int32) {
    n == 0 || (512 <= n <= 65536 && 65536 % n == 0)
  }

  function Pow2(k: nat): nat {
    if k == 0 then 1 else 2 * Pow2(k - 1)
  }

  /** Only powers of two divide a power of two. */
  lemma {:induction false} DivisorOfPow2(n: nat, q: nat, k: nat) returns (j: nat)
    requires n * q == Pow2(k)
    ensures j <= k && n == Pow2(j)
    decreases k
  {
    ParityTimes(n, q);
    if k == 0 {
      MulAtLeast(n, q);
      j := 0;
    } else if n % 2 == 0 {
      assert n == 2 * (n / 2);
      assert 2 * ((n / 2) * q) == 2 * Pow2(k - 1);
      j := DivisorOfPow2(n / 2, q, k - 1);
      j := j + 1;
    } else {
      assert q == 2 * (q / 2);
      assert 2 * (n * (q / 2)) == n * q;
      j := DivisorOfPow2(n, q / 2, k - 1);
    }
  }

  lemma MulAtLeast(n: nat, q: nat)
    ensures q >= 1 ==> n * q >= n
    ensures q == 0 ==> n * q == 0
    ensures n == 0 ==> n * q == 0
  {
    assert n * q == n + n * (q - 1);
  }

  lemma ParityTimes(n: nat, q: nat)
    ensures (n * q) % 2 == (n % 2) * (q % 2)
  {
    var a, r, b, s := n / 2, n % 2, q / 2, q % 2;
    assert n * q == (2 * a + r) * (2 * b + s) == 2 * (2 * a * b + a * s + b * r) + r * s;
  }

  /** The remainder test on 65536 accepts exactly 0 and the powers of two from 512 to 65536. */
  lemma PageSizeCheckIsExact(n: Int32)
    ensures PassesPageSizeCheck(n) <==> IsLegacyPageSize(n)
  {
    if PassesPageSizeCheck(n) && n != 0 {
      assert Pow2(8) == 256;
      assert Pow2(16) == 65536 by { assert Pow2(12) == 16 * Pow2(8); }
      assert n * (65536 / n) == 65536;
      var j := DivisorOfPow2(n, 65536 / n, 16);
      PageSizePowers(j);
    }
  }

  lemma PageSizePowers(j: nat)
    requires j <= 16 && Pow2(j) >= 512
    ensures IsLegacyPageSize(Pow2(j))
  {
    assert Pow2(4) == 16;
    assert Pow2(8) == 256;
    assert Pow2(12) == 4096;
    assert Pow2(16) == 65536;
  }

  /******* SQLCipher *******/

  /** The public calls on a builder. */
  datatype SqlCipherCall =
    | Legacy(n: Int32)
    | LegacyPageSize(n: Int32)
    | KdfIter(n: Int32)
    | FastKdfIter(n: Int32)
    | HmacUse(b: bool)
    | HmacPgnoOf(pgno: Option<HmacPgno>)
    | HmacSaltMask(mask: Option<Int8>)
    | KdfAlgorithm(sha: ShaAlgorithm)
    | HmacAlgorithm(sha: ShaAlgorithm)
    | PlaintextHeaderSize(size: Option<Int32>)
    | PresetDefault | PresetV1 | PresetV2 | PresetV3 | PresetV4

  /** The call returns rather than throws. */
  predicate Accepts(call: SqlCipherCall) {
    match call
    case Legacy(n) => 0 <= n <= 4
    case LegacyPageSize(n) => PassesPageSizeCheck(n)
    case KdfIter(n) => n > 0
    case FastKdfIter(n) => n > 0
    case HmacSaltMask(mask) => mask.None? || mask.value >= 0
    case PlaintextHeaderSize(size) => size.None? || (0 <= size.value <= 100 && size.value % 16 == 0)
    case _ => true
  }

  /** The ten fields of the builder. */
  datatype Fields = Fields(
    legacy: int, legacyPageSize: int, kdfIter: int, fastKdfIter: int, hmacUse: bool,
    hmacPgno: Option<HmacPgno>, hmacSaltMask: Option<int>,
    kdfAlgorithm: ShaAlgorithm, hmacAlgorithm: ShaAlgorithm, plaintextHeaderSize: Option<int>)

  function FieldsOf(c: CipherConfig): Fields
    requires c.SqlCipherConfig?
  {
    Fields(c.legacy, c.legacyPageSize, c.kdfIter, c.fastKdfIter, c.hmacUse, c.hmacPgno, c.hmacSaltMask,
           c.kdfAlgorithm, c.hmacAlgorithm, c.plaintextHeaderSize)
  }

  /** The fields after a call; one that throws changes nothing. */
  function Applied(f: Fields, call: SqlCipherCall): Fields {
    if !Accepts(call) then f
    else
      match call
      case Legacy(n) => f.(legacy := n)
      case LegacyPageSize(n) => f.(legacyPageSize := n)
      case KdfIter(n) => f.(kdfIter := n)
      case FastKdfIter(n) => f.(fastKdfIter := n)
      case HmacUse(b) => f.(hmacUse := b)
      case HmacPgnoOf(pgno) => f.(hmacPgno := pgno)
      case HmacSaltMask(mask) => f.(hmacSaltMask := mask)
      case KdfAlgorithm(sha) => f.(kdfAlgorithm := sha)
      case HmacAlgorithm(sha) => f.(hmacAlgorithm := sha)
      case PlaintextHeaderSize(size) => f.(plaintextHeaderSize := size)
      case PresetDefault => FieldsOf(SQLCIPHER_DEFAULT)
      case PresetV1 => FieldsOf(SQLCIPHER_V1)
      case PresetV2 => FieldsOf(SQLCIPHER_V2)
      case PresetV3 => FieldsOf(SQLCIPHER_V3)
      case PresetV4 => FieldsOf(SQLCIPHER_V4)
  }

  function AppliedAll(f: Fields, calls: seq<SqlCipherCall>): Fields
    decreases |calls|
  {
    if calls == [] then f else AppliedAll(Applied(f, calls[0]), calls[1..])
  }

  /** `build`: the nullable fields are normalised by the legacy version. */
  function Built(f: Fields): CipherConfig {
    SqlCipherConfig(
      f.legacy, f.legacyPageSize, f.kdfIter, f.fastKdfIter, f.hmacUse,
      if f.legacy == 1 then None else if f.hmacPgno.None? then Some(LITTLE_ENDIAN) else f.hmacPgno,
      if f.legacy == 1 then None else if f.hmacSaltMask.None? then Some(0x3A) else f.hmacSaltMask,
      f.kdfAlgorithm, f.hmacAlgorithm,
      if 1 <= f.legacy <= 3 then None
      else if f.plaintextHeaderSize.None? then Some(0) else f.plaintextHeaderSize)
  }

  /** What the fields satisfy at all times. */
  predicate InRange(f: Fields) {
    && 0 <= f.legacy <= 4 && IsLegacyPageSize(f.legacyPageSize) && IsKdfIter(f.kdfIter) && IsKdfIter(f.fastKdfIter)
    && (f.hmacSaltMask.Some? ==> 0 <= f.hmacSaltMask.value <= 127)
    && (f.plaintextHeaderSize.Some? ==>
         0 <= f.plaintextHeaderSize.value <= 96 && f.plaintextHeaderSize.value % 16 == 0)
  }

  lemma AppliedInRange(f: Fields, call: SqlCipherCall)
    requires InRange(f)
    ensures InRange(Applied(f, call))
  {
    if call.LegacyPageSize? {
      PageSizeCheckIsExact(call.n);
    }
    hide PassesPageSizeCheck;
  }

  class SqlCipherBuilder {
    var legacy: int
    var legacyPageSize: int
    var kdfIter: int
    var fastKdfIter: int
    var hmacUse: bool
    var hmacPgno: Option<HmacPgno>
    var hmacSaltMask: Option<int>
    var kdfAlgorithm: ShaAlgorithm
    var hmacAlgorithm: ShaAlgorithm
    var plaintextHeaderSize: Option<int>

    function State(): Fields
      reads this
    {
      Fields(legacy, legacyPageSize, kdfIter, fastKdfIter, hmacUse, hmacPgno, hmacSaltMask,
             kdfAlgorithm, hmacAlgorithm, plaintextHeaderSize)
    }

    ghost predicate Valid()
      reads this
    {
      InRange(State())
    }

    /** A copy of `other`, or the default settings. */
    constructor (other: Option<CipherConfig>)
      requires other.Some? ==> other.value.SqlCipherConfig? && other.value.Valid()
      ensures Valid() && State() == FieldsOf(if other.Some? then other.value else SQLCIPHER_DEFAULT)
    {
      var c := if other.Some? then other.value else SQLCIPHER_DEFAULT;
      legacy, legacyPageSize, kdfIter, fastKdfIter := c.legacy, c.legacyPageSize, c.kdfIter, c.fastKdfIter;
      hmacUse, hmacPgno, hmacSaltMask := c.hmacUse, c.hmacPgno, c.hmacSaltMask;
      kdfAlgorithm, hmacAlgorithm, plaintextHeaderSize := c.kdfAlgorithm, c.hmacAlgorithm, c.plaintextHeaderSize;
    }

    /** One call; `ok` is false when it throws. */
    method Call(call: SqlCipherCall) returns (ok: bool)
      requires Valid()
      modifies this
      ensures Valid() && ok == Accepts(call) && State() == Applied(old(State()), call)
    {
      ok := Accepts(call);
      if !ok { return; }
      AppliedInRange(State(), call);
      match call {
        case Legacy(n) => legacy := n;
        case LegacyPageSize(n) => legacyPageSize := n;
        case KdfIter(n) => kdfIter := n;
        case FastKdfIter(n) => fastKdfIter := n;
        case HmacUse(b) => hmacUse := b;
        case HmacPgnoOf(pgno) => hmacPgno := pgno;
        case HmacSaltMask(mask) => hmacSaltMask := mask;
        case KdfAlgorithm(sha) => kdfAlgorithm := sha;
        case HmacAlgorithm(sha) => hmacAlgorithm := sha;
        case PlaintextHeaderSize(size) => plaintextHeaderSize := size;
        case PresetDefault => Preset(0, 4096, 256000, true, Some(LITTLE_ENDIAN), Some(0x3A), SHA512, Some(0));
        case PresetV1 => Preset(1, 1024, 4000, false, None, None, SHA1, None);
        case PresetV2 => Preset(2, 1024, 4000, true, Some(LITTLE_ENDIAN), Some(0x3A), SHA1, None);
        case PresetV3 => Preset(3, 1024, 64000, true, Some(LITTLE_ENDIAN), Some(0x3A), SHA1, None);
        case PresetV4 => Preset(4, 4096, 256000, true, Some(LITTLE_ENDIAN), Some(0x3A), SHA512, Some(0));
      }
    }

    method Preset(legacy: int, pageSize: int, kdfIter: int, hmacUse: bool, pgno: Option<HmacPgno>,
                  mask: Option<int>, sha: ShaAlgorithm, headerSize: Option<int>)
      modifies this
      ensures State() == Fields(legacy, pageSize, kdfIter, 2, hmacUse, pgno, mask, sha, sha, headerSize)
    {
      this.legacy, legacyPageSize, this.kdfIter, fastKdfIter := legacy, pageSize, kdfIter, 2;
      this.hmacUse, hmacPgno, hmacSaltMask := hmacUse, pgno, mask;
      kdfAlgorithm, hmacAlgorithm, plaintextHeaderSize := sha, sha, headerSize;
    }

    method Build() returns (c: CipherConfig)
      requires Valid()
      ensures c == Built(State()) && c.Valid()
    {
      c := Built(State());
    }
  }

  /** After any sequence of calls, throwing ones included, what is built is valid. */
  lemma {:induction false} BuilderInvariant(f: Fields, calls: seq<SqlCipherCall>)
    requires InRange(f)
    ensures InRange(AppliedAll(f, calls)) && Built(AppliedAll(f, calls)).Valid()
    decreases |calls|
  {
    hide Applied;
    if calls != [] {
      AppliedInRange(f, calls[0]);
      BuilderInvariant(Applied(f, calls[0]), calls[1..]);
    }
  }

  /** Each preset builds its settings, whatever was set before, and they are those of its legacy version. */
  lemma PresetsBuild(f: Fields)
    ensures Built(Applied(f, PresetDefault)) == Baseline(Built(Applied(f, PresetDefault)))
         == SqlCipherConfig(0, 4096, 256000, 2, true, Some(LITTLE_ENDIAN), Some(0x3A), SHA512, SHA512, Some(0))
    ensures Built(Applied(f, PresetV1)) == Baseline(Built(Applied(f, PresetV1)))
         == SqlCipherConfig(1, 1024, 4000, 2, false, None, None, SHA1, SHA1, None)
    ensures Built(Applied(f, PresetV2)) == Baseline(Built(Applied(f, PresetV2)))
         == SqlCipherConfig(2, 1024, 4000, 2, true, Some(LITTLE_ENDIAN), Some(0x3A), SHA1, SHA1, None)
    ensures Built(Applied(f, PresetV3)) == Baseline(Built(Applied(f, PresetV3)))
         == SqlCipherConfig(3, 1024, 64000, 2, true, Some(LITTLE_ENDIAN), Some(0x3A), SHA1, SHA1, None)
    ensures Built(Applied(f, PresetV4)) == Baseline(Built(Applied(f, PresetV4)))
         == SqlCipherConfig(4, 4096, 256000, 2, true, Some(LITTLE_ENDIAN), Some(0x3A), SHA512, SHA512, Some(0))
  {}

  /**
   * A field that was set to null is built as its legacy version has it, and one that the legacy
   * version does not have is built as null whatever it was set to.
   */
  lemma NullsFallBack(f: Fields)
    requires InRange(f)
    ensures var c, preset := Built(f), Baseline(Built(f));
      && c.legacy == preset.legacy == f.legacy
      && c.hmacPgno == (if f.hmacPgno.None? || preset.hmacPgno.None? then preset.hmacPgno else f.hmacPgno)
      && c.hmacSaltMask
         == (if f.hmacSaltMask.None? || preset.hmacSaltMask.None? then preset.hmacSaltMask else f.hmacSaltMask)
      && c.plaintextHeaderSize
         == if f.plaintextHeaderSize.None? || preset.plaintextHeaderSize.None? then preset.plaintextHeaderSize
            else f.plaintextHeaderSize
  {}

  /** Rebuilding from a copy of a valid configuration gives that configuration. */
  lemma RebuildIsIdentity(c: CipherConfig)
    requires c.SqlCipherConfig?
    ensures c.Valid() <==> InRange(FieldsOf(c)) && Built(FieldsOf(c)) == c
  {}

  lemma AppliedCons(f: Fields, call: SqlCipherCall, rest: seq<SqlCipherCall>)
    ensures AppliedAll(f, [call] + rest) == AppliedAll(Applied(f, call), rest)
  {
    hide Applied;
    assert ([call] + rest)[1..] == rest;
  }

  /** The setter calls that lead to a configuration, in two parts. */
  function SizeCalls(c: CipherConfig): seq<SqlCipherCall>
    requires c.SqlCipherConfig? && c.Valid()
  {
    [Legacy(c.legacy)] + ([LegacyPageSize(c.legacyPageSize)] + ([KdfIter(c.kdfIter)]
    + ([FastKdfIter(c.fastKdfIter)] + [])))
  }

  function OtherCalls(c: CipherConfig): seq<SqlCipherCall>
    requires c.SqlCipherConfig? && c.Valid()
  {
    [HmacUse(c.hmacUse)] + ([HmacPgnoOf(c.hmacPgno)] + ([HmacSaltMask(c.hmacSaltMask)]
    + ([KdfAlgorithm(c.kdfAlgorithm)] + ([HmacAlgorithm(c.hmacAlgorithm)]
    + ([PlaintextHeaderSize(c.plaintextHeaderSize)] + [])))))
  }

  lemma SizesAreSet(f: Fields, c: CipherConfig)
    requires c.SqlCipherConfig? && c.Valid()
    ensures AppliedAll(f, SizeCalls(c))
         == f.(legacy := c.legacy, legacyPageSize := c.legacyPageSize,
               kdfIter := c.kdfIter, fastKdfIter := c.fastKdfIter)
  {
    PageSizeCheckIsExact(c.legacyPageSize);
    hide AppliedAll, PassesPageSizeCheck, IsLegacyPageSize;
    var f1 := Applied(f, Legacy(c.legacy));
    var f2 := Applied(f1, LegacyPageSize(c.legacyPageSize));
    var f3 := Applied(f2, KdfIter(c.kdfIter));
    AppliedNone(Applied(f3, FastKdfIter(c.fastKdfIter)));
    AppliedCons(f3, FastKdfIter(c.fastKdfIter), []);
    AppliedCons(f2, KdfIter(c.kdfIter), [FastKdfIter(c.fastKdfIter)] + []);
    AppliedCons(f1, LegacyPageSize(c.legacyPageSize), [KdfIter(c.kdfIter)] + ([FastKdfIter(c.fastKdfIter)] + []));
    AppliedCons(f, Legacy(c.legacy),
                [LegacyPageSize(c.legacyPageSize)] + ([KdfIter(c.kdfIter)] + ([FastKdfIter(c.fastKdfIter)] + [])));
  }

  lemma OthersAreSet(f: Fields, c: CipherConfig)
    requires c.SqlCipherConfig? && c.Valid()
    ensures AppliedAll(f, OtherCalls(c))
         == Fields(f.legacy, f.legacyPageSize, f.kdfIter, f.fastKdfIter, c.hmacUse, c.hmacPgno, c.hmacSaltMask,
                   c.kdfAlgorithm, c.hmacAlgorithm, c.plaintextHeaderSize)
  {
    hide AppliedAll, PassesPageSizeCheck, IsLegacyPageSize;
    var f1 := Applied(f, HmacUse(c.hmacUse));
    var f2 := Applied(f1, HmacPgnoOf(c.hmacPgno));
    var f3 := Applied(f2, HmacSaltMask(c.hmacSaltMask));
    var f4 := Applied(f3, KdfAlgorithm(c.kdfAlgorithm));
    var f5 := Applied(f4, HmacAlgorithm(c.hmacAlgorithm));
    var c5: seq<SqlCipherCall> := [PlaintextHeaderSize(c.plaintextHeaderSize)] + [];
    var c4 := [HmacAlgorithm(c.hmacAlgorithm)] + c5;
    var c3 := [KdfAlgorithm(c.kdfAlgorithm)] + c4;
    var c2 := [HmacSaltMask(c.hmacSaltMask)] + c3;
    var c1 := [HmacPgnoOf(c.hmacPgno)] + c2;
    AppliedNone(Applied(f5, PlaintextHeaderSize(c.plaintextHeaderSize)));
    AppliedCons(f5, PlaintextHeaderSize(c.plaintextHeaderSize), []);
    AppliedCons(f4, HmacAlgorithm(c.hmacAlgorithm), c5);
    AppliedCons(f3, KdfAlgorithm(c.kdfAlgorithm), c4);
    AppliedCons(f2, HmacSaltMask(c.hmacSaltMask), c3);
    AppliedCons(f1, HmacPgnoOf(c.hmacPgno), c2);
    AppliedCons(f, HmacUse(c.hmacUse), c1);
  }

  /** Every valid configuration can be built, from whatever the builder holds. */
  lemma EveryValidConfigIsBuilt(f: Fields, c: CipherConfig)
    requires c.SqlCipherConfig? && c.Valid()
    ensures Built(AppliedAll(AppliedAll(f, SizeCalls(c)), OtherCalls(c))) == c
  {
    hide AppliedAll, SizeCalls, OtherCalls;
    SizesAreSet(f, c);
    OthersAreSet(AppliedAll(f, SizeCalls(c)), c);
    RebuildIsIdentity(c);
  }

  lemma AppliedNone(f: Fields)
    ensures AppliedAll(f, []) == f
  {}
}
