/** The hash codes of configurations, of migrations and of sets of migrations. */
module MigrationHashes {
  import opened Wrappers
  import opened Ciphers
  import opened Builders

  const TWO_31 := 0x8000_0000
  const TWO_32 := 0x1_0000_0000

  /** `Int` arithmetic: the value modulo 2^32, from -2^31 on. */
  function ToInt32(n: int): (r: Int32)
    ensures (r - n) % TWO_32 == 0
  {
    (n + TWO_31) % TWO_32 - TWO_31
  }

  lemma SameInt32(a: Int32, b: Int32)
    ensures a == b <==> (a - b) % TWO_32 == 0
  {}

  /** The hash codes that a platform gives to booleans and enum members. */
  datatype PlatformHashes = PlatformHashes(
    ofBool: bool -> Int32, ofPgno: HmacPgno -> Int32, ofKdf: ShaAlgorithm -> Int32, ofHmac: ShaAlgorithm -> Int32)

  /** The hash code of an object with these field hash codes: `result = result * 31 + next`. */
  function FieldsHash(fields: seq<Int32>): Int32
    decreases |fields|
  {
    if fields == [] then 17
    else ToInt32(31 * FieldsHash(fields[..|fields| - 1]) + fields[|fields| - 1])
  }

  /** What `MCCipherConfig.hashCode` runs over; null hashes to 0. */
  function CipherFields(c: CipherConfig, p: PlatformHashes): seq<Int32> {
    match c
    case ChaCha20Config(legacy, pageSize, kdfIter) => [ToInt32(legacy), ToInt32(pageSize), ToInt32(kdfIter)]
    case Rc4Config(legacy, pageSize) => [ToInt32(legacy), ToInt32(pageSize)]
    case SqlCipherConfig(legacy, pageSize, kdfIter, fastKdfIter, use, pgno, mask, kdf, hmac, headerSize) =>
      [ToInt32(legacy), ToInt32(pageSize), ToInt32(kdfIter), ToInt32(fastKdfIter), p.ofBool(use),
       if pgno.Some? then p.ofPgno(pgno.value) else 0,
       if mask.Some? then ToInt32(mask.value) else 0,
       p.ofKdf(kdf), p.ofHmac(hmac),
       if headerSize.Some? then ToInt32(headerSize.value) else 0]
    case WxAes128Config(legacy, pageSize) => [ToInt32(legacy), ToInt32(pageSize)]
    case WxAes256Config(legacy, pageSize, kdfIter) => [ToInt32(legacy), ToInt32(pageSize), ToInt32(kdfIter)]
    case Ascon128Config(legacy, pageSize, kdfIter) => [ToInt32(legacy), ToInt32(pageSize), ToInt32(kdfIter)]
  }

  function ConfigHash(c: EncryptionConfig, p: PlatformHashes): Int32 {
    FieldsHash([p.ofBool(c.hmacCheck), p.ofBool(c.mcLegacyWal), FieldsHash(CipherFields(c.cipherConfig, p))])
  }

  /** `EncryptionMigration.hashCode`. */
  function MigrationHash(c: EncryptionConfig, p: PlatformHashes): Int32 {
    FieldsHash([ConfigHash(c, p)])
  }

  function MemberHashes(configs: seq<EncryptionConfig>, p: PlatformHashes): (r: seq<Int32>)
    ensures |r| == |configs|
  {
    seq(|configs|, i requires 0 <= i < |configs| => MigrationHash(configs[i], p))
  }

  /** `EncryptionMigrationConfig.hashCode`, over the members in their order of declaration. */
  function SetHash(configs: seq<EncryptionConfig>, p: PlatformHashes): Int32 {
    FieldsHash(MemberHashes(configs, p))
  }

  /** The same members, declared in some order; `equals` takes the two sets for equal. */
  ghost predicate IsReordering(a: seq<EncryptionConfig>, b: seq<EncryptionConfig>) {
    multiset(a) == multiset(b)
  }

  ghost predicate AllCongruent(configs: seq<EncryptionConfig>, p: PlatformHashes) {
    forall i, j :: 0 <= i < j < |configs| ==>
      (MigrationHash(configs[i], p) - MigrationHash(configs[j], p)) % TWO_31 == 0
  }

  /******* Members that are not congruent *******/

  lemma SetHashSnoc(configs: seq<EncryptionConfig>, c: EncryptionConfig, p: PlatformHashes)
    ensures SetHash(configs + [c], p) == ToInt32(31 * SetHash(configs, p) + MigrationHash(c, p))
  {
    hide MigrationHash;
    var all := MemberHashes(configs + [c], p);
    assert all[..|all| - 1] == MemberHashes(configs, p);
  }

  /** 15 has an inverse modulo a power of two. */
  lemma ThirtyTimes(d: int)
    ensures (30 * d) % TWO_32 == 0 <==> d % TWO_31 == 0
  {
    if (30 * d) % TWO_32 == 0 {
      var k := 30 * d / TWO_32;
      assert 15 * d == k * TWO_31;
      assert d == (1861152495 * k - 13 * d) * TWO_31;
    }
    if d % TWO_31 == 0 {
      assert 30 * d == 15 * (d / TWO_31) * TWO_32;
    }
  }

  lemma LastTwoSwapped(rest: seq<EncryptionConfig>, a: EncryptionConfig, b: EncryptionConfig, p: PlatformHashes)
    ensures SetHash(rest + [a] + [b], p) == SetHash(rest + [b] + [a], p) <==>
      (MigrationHash(a, p) - MigrationHash(b, p)) % TWO_31 == 0
  {
    hide SetHash, MigrationHash, ToInt32;
    SetHashSnoc(rest, a, p);
    SetHashSnoc(rest + [a], b, p);
    SetHashSnoc(rest, b, p);
    SetHashSnoc(rest + [b], a, p);
    TwoSteps(SetHash(rest, p), MigrationHash(a, p), MigrationHash(b, p));
  }

  lemma TwoSteps(h: Int32, a: Int32, b: Int32)
    ensures ToInt32(31 * ToInt32(31 * h + a) + b) == ToInt32(31 * ToInt32(31 * h + b) + a) <==>
      (a - b) % TWO_31 == 0
  {
    hide ToInt32;
    var x, y := ToInt32(31 * h + a), ToInt32(31 * h + b);
    var l, r := ToInt32(31 * x + b), ToInt32(31 * y + a);
    SameInt32(l, r);
    ThirtyTimes(a - b);
    var i, j := (x - (31 * h + a)) / TWO_32, (y - (31 * h + b)) / TWO_32;
    var k, m := (l - (31 * x + b)) / TWO_32, (r - (31 * y + a)) / TWO_32;
    assert l - r == 30 * (a - b) + (31 * i - 31 * j + k - m) * TWO_32;
    SameRemainder(30 * (a - b), 31 * i - 31 * j + k - m);
  }

  lemma SameRemainder(n: int, q: int)
    ensures (n + q * TWO_32) % TWO_32 == n % TWO_32
  {}

  /** Two members moved to the end. */
  lemma MovedToEnd(xs: seq<EncryptionConfig>, i: nat, j: nat) returns (rest: seq<EncryptionConfig>)
    requires i < j < |xs|
    ensures IsReordering(rest + [xs[i]] + [xs[j]], xs) && IsReordering(rest + [xs[j]] + [xs[i]], xs)
  {
    rest := xs[..i] + xs[i + 1..j] + xs[j + 1..];
    assert xs == xs[..i] + [xs[i]] + xs[i + 1..j] + [xs[j]] + xs[j + 1..];
  }

  /******* Members that are *******/

  /** How many members have a code that differs from `h`, that is by 2^31, modulo 2^32. */
  function Odd(configs: seq<EncryptionConfig>, h: Int32, p: PlatformHashes): nat
    decreases |configs|
  {
    if configs == [] then 0
    else
      Odd(configs[..|configs| - 1], h, p)
      + if (MigrationHash(configs[|configs| - 1], p) - h) % TWO_32 == 0 then 0 else 1
  }

  /** The code of `n` members with code `h`, before the reduction to 32 bits. */
  function Uniform(n: nat, h: Int32): int {
    if n == 0 then 17 else 31 * Uniform(n - 1, h) + h
  }

  lemma {:induction false} HashByCount(configs: seq<EncryptionConfig>, h: Int32, p: PlatformHashes)
    requires forall c :: c in configs ==> (MigrationHash(c, p) - h) % TWO_31 == 0
    ensures (SetHash(configs, p) - Uniform(|configs|, h) - Odd(configs, h, p) * TWO_31) % TWO_32 == 0
    decreases |configs|
  {
    hide MigrationHash, ToInt32;
    if configs == [] {
      EmptyHash(p);
    } else {
      var init, last := configs[..|configs| - 1], configs[|configs| - 1];
      HashByCount(init, h, p);
      assert configs == init + [last];
      SetHashSnoc(init, last, p);
      hide SetHash;
      OneStep(SetHash(init, p), MigrationHash(last, p), h, Uniform(|init|, h), Odd(init, h, p));
    }
  }

  lemma EmptyHash(p: PlatformHashes)
    ensures SetHash([], p) == 17
  {}

  lemma OneStep(s: Int32, a: Int32, h: Int32, u: int, n: nat)
    requires (s - u - n * TWO_31) % TWO_32 == 0 && (a - h) % TWO_31 == 0
    ensures var e := if (a - h) % TWO_32 == 0 then 0 else 1;
      (ToInt32(31 * s + a) - (31 * u + h) - (n + e) * TWO_31) % TWO_32 == 0
  {
    hide ToInt32;
    var e := if (a - h) % TWO_32 == 0 then 0 else 1;
    var i, k := (s - u - n * TWO_31) / TWO_32, (ToInt32(31 * s + a) - (31 * s + a)) / TWO_32;
    var j := (a - h - e * TWO_31) / TWO_32;
    assert a - h == e * TWO_31 + j * TWO_32;
    assert ToInt32(31 * s + a) - (31 * u + h) - (n + e) * TWO_31 == (k + 31 * i + 15 * n + j) * TWO_32;
    SameRemainder(0, k + 31 * i + 15 * n + j);
  }

  lemma {:induction false} OddRemove(configs: seq<EncryptionConfig>, i: nat, h: Int32, p: PlatformHashes)
    requires i < |configs|
    ensures Odd(configs, h, p)
         == Odd(configs[..i] + configs[i + 1..], h, p)
          + if (MigrationHash(configs[i], p) - h) % TWO_32 == 0 then 0 else 1
    decreases |configs|
  {
    hide MigrationHash;
    var n := |configs|;
    if i == n - 1 {
      assert configs[..i] + configs[i + 1..] == configs[..n - 1];
    } else {
      var init, without := configs[..n - 1], configs[..i] + configs[i + 1..];
      OddRemove(init, i, h, p);
      assert without[..n - 2] == init[..i] + init[i + 1..];
      assert without[n - 2] == configs[n - 1];
    }
  }

  lemma SameWithoutLast(
      init: seq<EncryptionConfig>, c: EncryptionConfig, before: seq<EncryptionConfig>, after: seq<EncryptionConfig>)
    requires IsReordering(init + [c], before + [c] + after)
    ensures IsReordering(init, before + after)
  {
    assert multiset(init + [c]) == multiset(init) + multiset{c};
    assert multiset(before + [c] + after) == multiset(before + after) + multiset{c};
    assert multiset(init) == multiset(init + [c]) - multiset{c};
  }

  lemma SameMembers(a: seq<EncryptionConfig>, b: seq<EncryptionConfig>)
    requires IsReordering(a, b)
    ensures |a| == |b| && forall c :: c in a ==> c in b
  {
    assert |multiset(a)| == |multiset(b)|;
    forall c | c in a
      ensures c in b
    {
      assert c in multiset(b);
    }
  }

  lemma {:induction false} OddReordered(
      a: seq<EncryptionConfig>, b: seq<EncryptionConfig>, h: Int32, p: PlatformHashes)
    requires IsReordering(a, b)
    ensures |a| == |b| && Odd(a, h, p) == Odd(b, h, p)
    decreases |a|
  {
    hide MigrationHash, Odd, IsReordering;
    SameMembers(a, b);
    if a == [] {
      assert a == b;
    } else {
      var init, last := a[..|a| - 1], a[|a| - 1];
      assert last in b;
      var i :| 0 <= i < |b| && b[i] == last;
      assert a == init + [last] && b == b[..i] + [last] + b[i + 1..];
      SameWithoutLast(init, last, b[..i], b[i + 1..]);
      OddReordered(init, b[..i] + b[i + 1..], h, p);
      OddRemove(b, i, h, p);
      OddRemove(a, |init|, h, p);
      assert a[..|init|] + a[|init| + 1..] == init;
    }
  }

  /******* Main result *******/

  /**
   * A deviation: the hash code of a set of migrations is the same for every order of declaration,
   * as its equality is, exactly when the members' own codes are congruent modulo 2^31.
   */
  lemma HashIgnoresOrder(configs: seq<EncryptionConfig>, p: PlatformHashes)
    ensures (forall other :: IsReordering(other, configs) ==> SetHash(other, p) == SetHash(configs, p)) <==>
      AllCongruent(configs, p)
  {
    hide SetHash, MigrationHash, Odd;
    if AllCongruent(configs, p) {
      forall other | IsReordering(other, configs)
        ensures SetHash(other, p) == SetHash(configs, p)
      {
        CongruentHash(configs, other, p);
      }
    } else {
      var i, j :| 0 <= i < j < |configs| && (MigrationHash(configs[i], p) - MigrationHash(configs[j], p)) % TWO_31 != 0;
      var rest := MovedToEnd(configs, i, j);
      LastTwoSwapped(rest, configs[i], configs[j], p);
      hide IsReordering;
      assert IsReordering(rest + [configs[i]] + [configs[j]], configs);
      assert IsReordering(rest + [configs[j]] + [configs[i]], configs);
    }
  }

  lemma CongruentHash(configs: seq<EncryptionConfig>, other: seq<EncryptionConfig>, p: PlatformHashes)
    requires AllCongruent(configs, p) && IsReordering(other, configs)
    ensures SetHash(other, p) == SetHash(configs, p)
  {
    hide SetHash, MigrationHash, Odd, Uniform;
    if configs == [] {
      assert |multiset(other)| == 0;
    } else {
      var h := MigrationHash(configs[0], p);
      forall c | c in configs
        ensures (MigrationHash(c, p) - h) % TWO_31 == 0
      {
        var i :| 0 <= i < |configs| && configs[i] == c;
        Opposite(h, MigrationHash(configs[i], p));
      }
      forall c | c in other
        ensures c in configs
      {
        assert c in multiset(other);
      }
      HashByCount(configs, h, p);
      HashByCount(other, h, p);
      OddReordered(other, configs, h, p);
      Difference(SetHash(other, p), SetHash(configs, p), Uniform(|configs|, h) + Odd(configs, h, p) * TWO_31);
    }
  }

  lemma Opposite(a: int, b: int)
    ensures (a - b) % TWO_31 == 0 <==> (b - a) % TWO_31 == 0
  {}

  lemma Difference(a: Int32, b: Int32, u: int)
    requires (a - u) % TWO_32 == 0 && (b - u) % TWO_32 == 0
    ensures a == b
  {
    SameInt32(a, b);
  }

  /**
   * Two migrations whose orders have different hash codes, whatever the platform: the two ChaCha20
   * presets, whose codes are 50701 apart.
   */
  lemma OrdersHashApart(p: PlatformHashes)
    ensures var a, b := EncryptionConfig(CHACHA20_DEFAULT, true, false), EncryptionConfig(CHACHA20_SQLEET, true, false);
      a != b && SetHash([a] + [b], p) != SetHash([b] + [a], p)
  {
    var a, b := EncryptionConfig(CHACHA20_DEFAULT, true, false), EncryptionConfig(CHACHA20_SQLEET, true, false);
    PresetsApart(p);
    LastTwoSwapped([], a, b, p);
    hide SetHash, MigrationHash;
    assert [] + [a] == [a] && [] + [b] == [b];
  }

  lemma FieldsSnoc(fields: seq<Int32>, h: Int32)
    ensures FieldsHash(fields + [h]) == ToInt32(31 * FieldsHash(fields) + h)
  {
    assert (fields + [h])[..|fields|] == fields;
  }

  lemma PresetsApart(p: PlatformHashes)
    ensures var a, b := EncryptionConfig(CHACHA20_DEFAULT, true, false), EncryptionConfig(CHACHA20_SQLEET, true, false);
      (MigrationHash(a, p) - MigrationHash(b, p)) % TWO_31 != 0
  {
    hide MigrationHash, FieldsHash;
    MigrationCode(EncryptionConfig(CHACHA20_DEFAULT, true, false), p);
    MigrationCode(EncryptionConfig(CHACHA20_SQLEET, true, false), p);
    PresetCodes();
    ValidFits(CHACHA20_DEFAULT);
    ValidFits(CHACHA20_SQLEET);
    hide ToInt32;
    var u := 31 * (31 * (31 * 17 + p.ofBool(true)) + p.ofBool(false));
    Apart(u, FieldsHash([0, 4096, 64007]), FieldsHash([1, 4096, 12345]));
  }

  lemma PresetCodes()
    ensures FieldsHash([0, 4096, 64007]) - FieldsHash([1, 4096, 12345]) == 50701
  {
    hide FieldsHash;
    ThreeFields(0, 4096, 64007);
    ThreeFields(1, 4096, 12345);
  }

  /** The hash code of a migration: of its configuration, that is of the two flags and the cipher's. */
  lemma MigrationCode(c: EncryptionConfig, p: PlatformHashes)
    ensures MigrationHash(c, p)
         == ToInt32(31 * 17 + ToInt32(31 * (31 * (31 * 17 + p.ofBool(c.hmacCheck)) + p.ofBool(c.mcLegacyWal))
                                      + FieldsHash(CipherFields(c.cipherConfig, p))))
  {
    hide FieldsHash, ToInt32, CipherFields;
    var x := FieldsHash(CipherFields(c.cipherConfig, p));
    ThreeFields(p.ofBool(c.hmacCheck), p.ofBool(c.mcLegacyWal), x);
    OneField(ConfigHash(c, p));
  }

  lemma OneField(a: Int32)
    ensures FieldsHash([a]) == ToInt32(31 * 17 + a)
  {
    FieldsSnoc([], a);
    assert [] + [a] == [a];
  }

  /** Reducing once is enough. */
  lemma OneMoreField(fields: seq<Int32>, n: int, a: Int32)
    requires FieldsHash(fields) == ToInt32(n)
    ensures FieldsHash(fields + [a]) == ToInt32(31 * n + a)
  {
    FieldsSnoc(fields, a);
    hide FieldsHash;
    ReduceOnce(ToInt32(n), n, a);
  }

  lemma ThreeFields(a: Int32, b: Int32, c: Int32)
    ensures FieldsHash([a, b, c]) == ToInt32(31 * (31 * (31 * 17 + a) + b) + c)
  {
    hide FieldsHash, ToInt32;
    TwoFields(a, b);
    OneMoreField([a, b], 31 * (31 * 17 + a) + b, c);
    assert [a, b] + [c] == [a, b, c];
  }

  lemma TenFields(f: seq<Int32>, n: int)
    requires |f| == 10 && FieldsHash(f[..4]) == ToInt32(n)
    ensures FieldsHash(f)
         == ToInt32(31 * (31 * (31 * (31 * (31 * (31 * n + f[4]) + f[5]) + f[6]) + f[7]) + f[8]) + f[9])
  {
    hide FieldsHash, ToInt32;
    var n5 := 31 * n + f[4];
    var n6 := 31 * n5 + f[5];
    var n7 := 31 * n6 + f[6];
    var n8 := 31 * n7 + f[7];
    var n9 := 31 * n8 + f[8];
    OneMoreField(f[..4], n, f[4]);
    assert f[..4] + [f[4]] == f[..5];
    OneMoreField(f[..5], n5, f[5]);
    assert f[..5] + [f[5]] == f[..6];
    OneMoreField(f[..6], n6, f[6]);
    assert f[..6] + [f[6]] == f[..7];
    OneMoreField(f[..7], n7, f[7]);
    assert f[..7] + [f[7]] == f[..8];
    OneMoreField(f[..8], n8, f[8]);
    assert f[..8] + [f[8]] == f[..9];
    OneMoreField(f[..9], n9, f[9]);
    assert f[..9] + [f[9]] == f;
  }

  lemma FourFields(a: Int32, b: Int32, c: Int32, d: Int32)
    ensures FieldsHash([a, b, c, d]) == ToInt32(31 * (31 * (31 * (31 * 17 + a) + b) + c) + d)
  {
    hide FieldsHash, ToInt32;
    ThreeFields(a, b, c);
    OneMoreField([a, b, c], 31 * (31 * (31 * 17 + a) + b) + c, d);
    assert [a, b, c] + [d] == [a, b, c, d];
  }

  /** The 32-bit number that a field counts as; null counts as 0. */
  function OrZero(n: Option<int>): int {
    match n case Some(v) => v case None => 0
  }

  /**
   * The hash code of every cipher configuration, fields in the order of their declaration. The
   * cipher itself does not count, so that equal settings of two ciphers have one code.
   */
  lemma CipherHash(c: CipherConfig, p: PlatformHashes)
    requires c.Valid()
    ensures FieldsHash(CipherFields(c, p)) == ToInt32(
      match c
      case Rc4Config(legacy, size) => 31 * (31 * 17 + legacy) + size
      case WxAes128Config(legacy, size) => 31 * (31 * 17 + legacy) + size
      case ChaCha20Config(legacy, size, iter) => 31 * (31 * (31 * 17 + legacy) + size) + iter
      case WxAes256Config(legacy, size, iter) => 31 * (31 * (31 * 17 + legacy) + size) + iter
      case Ascon128Config(legacy, size, iter) => 31 * (31 * (31 * 17 + legacy) + size) + iter
      case SqlCipherConfig(legacy, size, iter, fastIter, use, pgno, mask, kdf, hmac, header) =>
        var sizes := 31 * (31 * (31 * (31 * 17 + legacy) + size) + iter) + fastIter;
        var hmacs := 31 * (31 * (31 * sizes + p.ofBool(use))
                          + if pgno.Some? then p.ofPgno(pgno.value) as int else 0) + OrZero(mask);
        31 * (31 * (31 * hmacs + p.ofKdf(kdf)) + p.ofHmac(hmac)) + OrZero(header))
  {
    ValidFits(c);
    match c {
      case SqlCipherConfig(_, _, _, _, _, _, _, _, _, _) => SqlCipherHash(c, p);
      case Rc4Config(legacy, size) => TwoFields(legacy, size);
      case WxAes128Config(legacy, size) => TwoFields(legacy, size);
      case ChaCha20Config(legacy, size, iter) => ThreeFields(legacy, size, iter);
      case WxAes256Config(legacy, size, iter) => ThreeFields(legacy, size, iter);
      case Ascon128Config(legacy, size, iter) => ThreeFields(legacy, size, iter);
    }
  }

  lemma SqlCipherHash(c: CipherConfig, p: PlatformHashes)
    requires c.Valid() && c.SqlCipherConfig?
    ensures var sizes := 31 * (31 * (31 * (31 * 17 + c.legacy) + c.legacyPageSize) + c.kdfIter) + c.fastKdfIter;
      var hmacs := 31 * (31 * (31 * sizes + p.ofBool(c.hmacUse))
                        + if c.hmacPgno.Some? then p.ofPgno(c.hmacPgno.value) as int else 0) + OrZero(c.hmacSaltMask);
      FieldsHash(CipherFields(c, p))
      == ToInt32(31 * (31 * (31 * hmacs + p.ofKdf(c.kdfAlgorithm)) + p.ofHmac(c.hmacAlgorithm))
                 + OrZero(c.plaintextHeaderSize))
  {
    SqlCipherFields(c, p);
    var f := CipherFields(c, p);
    hide FieldsHash, ToInt32, CipherFields, OrZero, CipherConfig.Valid;
    FourFields(f[0], f[1], f[2], f[3]);
    TenFields(f, 31 * (31 * (31 * (31 * 17 + f[0] as int) + f[1]) + f[2]) + f[3]);
  }

  lemma SqlCipherFields(c: CipherConfig, p: PlatformHashes)
    requires c.Valid() && c.SqlCipherConfig?
    ensures var f := CipherFields(c, p);
      && |f| == 10 && f[..4] == [f[0], f[1], f[2], f[3]]
      && f[0] == c.legacy && f[1] == c.legacyPageSize && f[2] == c.kdfIter && f[3] == c.fastKdfIter
      && f[4] == p.ofBool(c.hmacUse)
      && f[5] == (if c.hmacPgno.Some? then p.ofPgno(c.hmacPgno.value) as int else 0)
      && f[6] == OrZero(c.hmacSaltMask)
      && f[7] == p.ofKdf(c.kdfAlgorithm) && f[8] == p.ofHmac(c.hmacAlgorithm)
      && f[9] == OrZero(c.plaintextHeaderSize)
  {
    ValidFits(c);
    hide ToInt32;
  }

  lemma TwoFields(a: Int32, b: Int32)
    ensures FieldsHash([a, b]) == ToInt32(31 * (31 * 17 + a) + b)
  {
    hide FieldsHash, ToInt32;
    OneField(a);
    OneMoreField([a], 31 * 17 + a, b);
    assert [a] + [b] == [a, b];
  }

  /** Valid settings are 32-bit numbers. */
  lemma ValidFits(c: CipherConfig)
    requires c.Valid()
    ensures ToInt32(c.legacy) == c.legacy && ToInt32(c.legacyPageSize) == c.legacyPageSize
    ensures !c.Rc4Config? && !c.WxAes128Config? ==> ToInt32(c.kdfIter) == c.kdfIter
    ensures c.SqlCipherConfig? ==>
      && ToInt32(c.fastKdfIter) == c.fastKdfIter
      && (c.hmacSaltMask.Some? ==> ToInt32(c.hmacSaltMask.value) == c.hmacSaltMask.value)
      && (c.plaintextHeaderSize.Some? ==> ToInt32(c.plaintextHeaderSize.value) == c.plaintextHeaderSize.value)
  {
    Int32Stays(c.legacy);
    Int32Stays(c.legacyPageSize);
  }

  lemma Int32Stays(n: int)
    ensures -TWO_31 <= n < TWO_31 ==> ToInt32(n) == n
  {}

  lemma ReduceOnce(x: Int32, n: int, a: Int32)
    requires (x - n) % TWO_32 == 0
    ensures ToInt32(31 * x + a) == ToInt32(31 * n + a)
  {
    var q := (x - n) / TWO_32;
    assert 31 * x + a + TWO_31 == 31 * n + a + TWO_31 + 31 * q * TWO_32;
    SameRemainder(31 * n + a + TWO_31, 31 * q);
  }

  lemma Apart(u: int, x: Int32, y: Int32)
    requires x - y == 50701
    ensures (ToInt32(31 * 17 + ToInt32(u + x)) - ToInt32(31 * 17 + ToInt32(u + y))) % TWO_31 != 0
  {}
}
