/**
 * Sparse encoding is lossless: executing the statements of a configuration leaves exactly its
 * parameters in the engine's registers, whatever they held before.
 */
module Lossless {
  import opened Wrappers
  import opened Texts
  import opened Ciphers
  import opened Keys
  import opened McPragmas
  import opened Statements
  import opened Engine

  /** The registers that stand for a configuration. */
  function View(c: EncryptionConfig): Registers {
    Registers(c.Cipher(), Parameters(c.cipherConfig), BoolValue(c.hmacCheck), BoolValue(c.mcLegacyWal))
  }

  /** `m` holds a configuration's pragmas, beside perhaps a key. */
  ghost predicate Holds(m: Pragmas, c: EncryptionConfig, addAll: bool) {
    forall p: McPragma :: p != KEY && p != RE_KEY ==>
      && (p in m <==> EncryptionPragma(c, addAll, p).Some?)
      && (p in m ==> m[p] == EncryptionPragma(c, addAll, p).value)
  }

  function SchemaOf(temp: bool): string {
    if temp then TEMP else MAIN
  }

  function RegistersOf(w: World, temp: bool): Registers {
    if temp then w.session.temp else w.session.main
  }

  function WithRegisters(w: World, temp: bool, r: Registers): World {
    w.(session := if temp then w.session.(temp := r) else w.session.(main := r))
  }

  /** The effect of one emitted pragma on a register file. */
  function Put(r: Registers, c: EncryptionConfig, p: McPragma): Registers {
    if p == CIPHER then Reset(c.Cipher()) else Assign(r, p, EntryValue(c, p))
  }

  function Effect(r: Registers, c: EncryptionConfig, addAll: bool, ps: seq<McPragma>): Registers
    decreases |ps|
  {
    if ps == [] then r
    else Effect(if EncryptionPragma(c, addAll, ps[0]).Some? then Put(r, c, ps[0]) else r, c, addAll, ps[1..])
  }

  lemma EntryParses(c: EncryptionConfig, addAll: bool, p: McPragma, m: Pragmas)
    requires c.Valid() && Holds(m, c, addAll)
    requires IsIntegerPragma(p) && p in m
    ensures ToIntOrNull(m[p]) == Some(EntryValue(c, p))
    ensures ToIntOrNull(IntegerText(m[p])) == Some(EntryValue(c, p))
  {
    hide ToIntOrNull, Decimal, EncryptionPragma, EntryValue;
    EncryptionPragmaAt(c, addAll, p);
    IntegerEntry(c, addAll, p);
  }

  lemma LineParses(m: Pragmas, c: EncryptionConfig, addAll: bool, temp: bool, p: McPragma)
    requires c.Valid() && Holds(m, c, addAll)
    requires p != KEY && p != RE_KEY && p in m
    ensures Parse(Line(m, SchemaOf(temp), p))
         == Some(if p == CIPHER then SetCipher(temp, c.Cipher()) else SetParam(temp, p, EntryValue(c, p)))
  {
    hide Parse, ToIntOrNull, IntegerText, CipherOf, EntryValue, PragmaName, CipherName, Assignment, TargetName;
    PrintedName(temp, p);
    if p == CIPHER {
      CipherOfName(c.Cipher());
      ParseAssignment(Param(temp, p), m[p]);
    } else {
      EntryParses(c, addAll, p, m);
      ParseAssignment(Param(temp, p), IntegerText(m[p]));
    }
  }

  /** A parameter line never fails and touches nothing but its register file. */
  lemma LineStep(m: Pragmas, c: EncryptionConfig, addAll: bool, temp: bool, p: McPragma, w: World)
    requires c.Valid() && Holds(m, c, addAll)
    requires p != KEY && p != RE_KEY && p in m
    ensures Step(w, Line(m, SchemaOf(temp), p))
         == Stepped(WithRegisters(w, temp, Put(RegistersOf(w, temp), c, p)), true)
  {
    hide Parse, Line, EntryValue, Assign, Reset, Holds;
    LineParses(m, c, addAll, temp, p);
  }

  /** Parameter lines, interrupted or not: only the register file changes. */
  lemma {:induction false} RunLines(
      m: Pragmas, c: EncryptionConfig, addAll: bool, temp: bool, ps: seq<McPragma>, w: World, limit: nat)
    requires c.Valid() && Holds(m, c, addAll)
    requires KEY !in ps && RE_KEY !in ps
    ensures var lines, r := Lines(m, SchemaOf(temp), ps), Run(w, Lines(m, SchemaOf(temp), ps), limit);
      && r.executed == (if limit < |lines| then limit else |lines|)
      && r.world == WithRegisters(w, temp, RegistersOf(r.world, temp))
      && (|lines| <= limit ==> RegistersOf(r.world, temp) == Effect(RegistersOf(w, temp), c, addAll, ps))
    decreases |ps|
  {
    hide Line, Step, Put, EncryptionPragma;
    if ps != [] {
      var p, rest := ps[0], Lines(m, SchemaOf(temp), ps[1..]);
      assert p in ps;
      if p in m {
        LineStep(m, c, addAll, temp, p, w);
        assert ([Line(m, SchemaOf(temp), p)] + rest)[1..] == rest;
        if limit > 0 {
          RunLines(m, c, addAll, temp, ps[1..], WithRegisters(w, temp, Put(RegistersOf(w, temp), c, p)), limit - 1);
        }
      } else {
        assert [] + rest == rest;
        RunLines(m, c, addAll, temp, ps[1..], w, limit);
      }
    }
  }

  /******* The registers end up as the view *******/

  const AFTER_LEGACY: seq<McPragma> := [
    LEGACY_PAGE_SIZE, KDF_ITER, FAST_KDF_ITER, HMAC_USE, HMAC_PGNO, HMAC_SALT_MASK, KDF_ALGORITHM, HMAC_ALGORITHM,
    PLAIN_TEXT_HEADER_SIZE
  ]

  lemma {:induction false} EffectConcat(
      r: Registers, c: EncryptionConfig, addAll: bool, a: seq<McPragma>, b: seq<McPragma>)
    ensures Effect(r, c, addAll, a + b) == Effect(Effect(r, c, addAll, a), c, addAll, b)
    decreases |a|
  {
    hide EncryptionPragma, Put;
    if a == [] {
      assert a + b == b;
    } else {
      assert (a + b)[1..] == a[1..] + b;
      EffectConcat(if EncryptionPragma(c, addAll, a[0]).Some? then Put(r, c, a[0]) else r, c, addAll, a[1..], b);
    }
  }

  lemma EffectOne(r: Registers, c: EncryptionConfig, addAll: bool, p: McPragma)
    ensures Effect(r, c, addAll, [p]) == if EncryptionPragma(c, addAll, p).Some? then Put(r, c, p) else r
  {
    hide EncryptionPragma, Put;
    assert [p][1..] == [];
  }

  /** `cipher`, the two global pragmas and `legacy`: the order that makes the defaults stand. */
  lemma EffectOfHead(r: Registers, c: EncryptionConfig, addAll: bool)
    ensures Effect(r, c, addAll, [CIPHER, HMAC_CHECK, MC_LEGACY_WAL, LEGACY])
         == Registers(c.Cipher(), Defaults(c.Cipher(), c.cipherConfig.legacy),
                      BoolValue(c.hmacCheck), BoolValue(c.mcLegacyWal))
  {
    hide Defaults, CipherName, Decimal, Baseline;
    var r1 := Effect(r, c, addAll, [CIPHER]);
    var r2 := Effect(r1, c, addAll, [HMAC_CHECK]);
    var r3 := Effect(r2, c, addAll, [MC_LEGACY_WAL]);
    EffectOne(r, c, addAll, CIPHER);
    EffectOne(r1, c, addAll, HMAC_CHECK);
    EffectOne(r2, c, addAll, MC_LEGACY_WAL);
    EffectOne(r3, c, addAll, LEGACY);
    EffectConcat(r, c, addAll, [CIPHER], [HMAC_CHECK]);
    EffectConcat(r, c, addAll, [CIPHER] + [HMAC_CHECK], [MC_LEGACY_WAL]);
    EffectConcat(r, c, addAll, [CIPHER] + [HMAC_CHECK] + [MC_LEGACY_WAL], [LEGACY]);
    assert [CIPHER, HMAC_CHECK, MC_LEGACY_WAL, LEGACY] == [CIPHER] + [HMAC_CHECK] + [MC_LEGACY_WAL] + [LEGACY];
  }

  lemma TailPut(r: Registers, c: EncryptionConfig, addAll: bool, p: McPragma)
    requires p in NUMERIC && p != LEGACY
    ensures EncryptionPragma(c, addAll, p).Some? <==> IsEmitted(c.cipherConfig, addAll, p)
    ensures IsEmitted(c.cipherConfig, addAll, p) ==>
      Put(r, c, p) == r.(params := r.params[p := Parameter(c.cipherConfig, p).value])
  {
    hide Baseline, Decimal, Parameter;
  }

  /** Pragmas after `legacy` each set one parameter. */
  lemma {:induction false} EffectOfTail(r: Registers, c: EncryptionConfig, addAll: bool, ps: seq<McPragma>)
    requires forall p :: p in ps ==> p in NUMERIC && p != LEGACY
    ensures var e := Effect(r, c, addAll, ps);
      && e.cipher == r.cipher && e.hmacCheck == r.hmacCheck && e.legacyWal == r.legacyWal
      && (forall p :: p in e.params <==> p in r.params || (p in ps && IsEmitted(c.cipherConfig, addAll, p)))
      && (forall p :: p in ps && IsEmitted(c.cipherConfig, addAll, p) ==>
           p in e.params && e.params[p] == Parameter(c.cipherConfig, p).value)
      && (forall p :: p in r.params && !(p in ps && IsEmitted(c.cipherConfig, addAll, p)) ==>
           p in e.params && e.params[p] == r.params[p])
    decreases |ps|
  {
    hide IsEmitted, Parameter, EncryptionPragma, Put;
    if ps != [] {
      var p := ps[0];
      assert p in ps;
      TailPut(r, c, addAll, p);
      assert forall q :: q in ps <==> q == p || q in ps[1..];
      var next := if EncryptionPragma(c, addAll, p).Some? then Put(r, c, p) else r;
      EffectOfTail(next, c, addAll, ps[1..]);
    }
  }

  /** The engine's defaults are the presets that the sparse encoding is a difference to. */
  lemma DefaultsAreBaseline(c: CipherConfig, p: McPragma)
    requires c.Valid()
    ensures LEGACY in Defaults(c.Cipher(), c.legacy) && Defaults(c.Cipher(), c.legacy)[LEGACY] == c.legacy
    ensures p != LEGACY ==> (p in Defaults(c.Cipher(), c.legacy) <==> Parameter(Baseline(c), p).Some?)
    ensures p != LEGACY && p in Defaults(c.Cipher(), c.legacy) ==>
      Parameter(Baseline(c), p) == Some(Defaults(c.Cipher(), c.legacy)[p])
  {
    if c.SqlCipherConfig? {
      SqlCipherDefaults(c.legacy, p);
      hide Defaults, Parameter;
    }
  }

  lemma SqlCipherDefaults(legacy: int, p: McPragma)
    requires 0 <= legacy <= 4
    ensures var defaults, preset := Defaults(SQLCIPHER, legacy),
        (match legacy
         case 0 => SQLCIPHER_DEFAULT case 1 => SQLCIPHER_V1 case 2 => SQLCIPHER_V2 case 3 => SQLCIPHER_V3
         case _ => SQLCIPHER_V4);
      && LEGACY in defaults && defaults[LEGACY] == legacy
      && (p != LEGACY ==> (p in defaults <==> Parameter(preset, p).Some?))
      && (p != LEGACY && p in defaults ==> Parameter(preset, p) == Some(defaults[p]))
  {}

  /** A configuration has a parameter exactly where its preset has one. */
  lemma BaselinePattern(c: CipherConfig, p: McPragma)
    requires c.Valid()
    ensures Parameter(c, p).Some? <==> Parameter(Baseline(c), p).Some?
  {}

  lemma TailMembers()
    ensures PARAMETERS == [CIPHER, HMAC_CHECK, MC_LEGACY_WAL, LEGACY] + AFTER_LEGACY
    ensures forall p: McPragma :: p in AFTER_LEGACY <==> p in NUMERIC && p != LEGACY
  {
    forall p: McPragma
      ensures p in AFTER_LEGACY <==> p in NUMERIC && p != LEGACY
    {
      match p
      case LEGACY_PAGE_SIZE => assert AFTER_LEGACY[0] == p;
      case KDF_ITER => assert AFTER_LEGACY[1] == p;
      case FAST_KDF_ITER => assert AFTER_LEGACY[2] == p;
      case HMAC_USE => assert AFTER_LEGACY[3] == p;
      case HMAC_PGNO => assert AFTER_LEGACY[4] == p;
      case HMAC_SALT_MASK => assert AFTER_LEGACY[5] == p;
      case KDF_ALGORITHM => assert AFTER_LEGACY[6] == p;
      case HMAC_ALGORITHM => assert AFTER_LEGACY[7] == p;
      case PLAIN_TEXT_HEADER_SIZE => assert AFTER_LEGACY[8] == p;
      case _ =>
    }
  }

  lemma TailIsView(c: EncryptionConfig, addAll: bool, head: Registers)
    requires c.Valid()
    requires head.params == Defaults(c.Cipher(), c.cipherConfig.legacy)
    ensures Effect(head, c, addAll, AFTER_LEGACY).params == Parameters(c.cipherConfig)
  {
    hide Effect, Parameter, IsEmitted, Defaults, AFTER_LEGACY;
    TailMembers();
    EffectOfTail(head, c, addAll, AFTER_LEGACY);
    var params := Effect(head, c, addAll, AFTER_LEGACY).params;
    forall p: McPragma
      ensures p in params <==> Parameter(c.cipherConfig, p).Some?
      ensures p in params ==> Some(params[p]) == Parameter(c.cipherConfig, p)
    {
      EffectAt(c.cipherConfig, addAll, p, params);
    }
  }

  /** Whatever the registers held, a configuration's pragmas leave exactly its parameters. */
  lemma EffectIsView(r: Registers, c: EncryptionConfig, addAll: bool)
    requires c.Valid()
    ensures Effect(r, c, addAll, PARAMETERS) == View(c)
  {
    hide Effect, Parameters, Defaults, EncryptionPragma, IsEmitted;
    TailMembers();
    var head := Effect(r, c, addAll, [CIPHER, HMAC_CHECK, MC_LEGACY_WAL, LEGACY]);
    EffectOfHead(r, c, addAll);
    EffectConcat(r, c, addAll, [CIPHER, HMAC_CHECK, MC_LEGACY_WAL, LEGACY], AFTER_LEGACY);
    EffectOfTail(head, c, addAll, AFTER_LEGACY);
    TailIsView(c, addAll, head);
  }

  lemma EffectAt(c: CipherConfig, addAll: bool, p: McPragma, params: map<McPragma, int>)
    requires c.Valid()
    requires var defaults := Defaults(c.Cipher(), c.legacy);
      && (p in params <==> p in defaults || (p in AFTER_LEGACY && IsEmitted(c, addAll, p)))
      && (p in AFTER_LEGACY && IsEmitted(c, addAll, p) ==>
           p in params && params[p] == Parameter(c, p).value)
      && (p in defaults && !(p in AFTER_LEGACY && IsEmitted(c, addAll, p)) ==>
           p in params && params[p] == defaults[p])
    ensures p in params <==> Parameter(c, p).Some?
    ensures p in params ==> Some(params[p]) == Parameter(c, p)
  {
    hide Baseline, Defaults;
    DefaultsAreBaseline(c, p);
    BaselinePattern(c, p);
    TailMembers();
    if p != LEGACY && Parameter(c, p).Some? {
      ParameterIsNumeric(c, p);
    }
  }

  lemma ParameterIsNumeric(c: CipherConfig, p: McPragma)
    requires Parameter(c, p).Some?
    ensures p in NUMERIC
  {}

  /******* Main results *******/

  lemma HoldsItself(c: EncryptionConfig, addAll: bool)
    ensures Holds(EncryptionPragmas(c, addAll), c, addAll)
  {
    hide EncryptionPragmas, EncryptionPragma;
    forall p: McPragma | p != KEY && p != RE_KEY
      ensures p in EncryptionPragmas(c, addAll) <==> EncryptionPragma(c, addAll, p).Some?
      ensures p in EncryptionPragmas(c, addAll) ==>
        EncryptionPragmas(c, addAll)[p] == EncryptionPragma(c, addAll, p).value
    {
      EncryptionPragmaAt(c, addAll, p);
    }
  }

  lemma HoldsKeyed(c: EncryptionConfig, key: Key, isRekey: bool)
    requires KeyedPragmas(c, key, isRekey).Ok?
    ensures Holds(KeyedPragmas(c, key, isRekey).value, c, false)
  {
    hide EncryptionPragmas, EncryptionPragma, RetrieveFormatted;
    HoldsItself(c, false);
  }

  /**
   * Lossless: from any state, the parameter statements of a valid configuration, sparse or with
   * `addAll`, all succeed, leave its parameters in their register file and change nothing else.
   */
  lemma LosslessEncoding(c: EncryptionConfig, addAll: bool, temp: bool, m: Pragmas, w: World)
    requires c.Valid() && Holds(m, c, addAll)
    ensures var lines := Lines(m, SchemaOf(temp), PARAMETERS);
      Run(w, lines, |lines|) == RunResult(WithRegisters(w, temp, View(c)), |lines|)
  {
    hide Effect, Lines, View;
    AllPragmas();
    RunLines(m, c, addAll, temp, PARAMETERS, w, |Lines(m, SchemaOf(temp), PARAMETERS)|);
    EffectIsView(RegistersOf(w, temp), c, addAll);
  }

  lemma CipherConfigInjective(c: CipherConfig, d: CipherConfig)
    requires c.Valid() && d.Valid()
    requires c.Cipher() == d.Cipher() && Parameters(c) == Parameters(d)
    ensures c == d
  {
    forall p: McPragma
      ensures Parameter(c, p) == Parameter(d, p)
    {
      assert p in Parameters(c) <==> p in Parameters(d);
      assert p in Parameters(c) ==> Parameters(c)[p] == Parameters(d)[p];
    }
    SameParameters(c, d);
  }

  lemma SameParameters(c: CipherConfig, d: CipherConfig)
    requires c.Valid() && d.Valid() && c.Cipher() == d.Cipher()
    requires forall p: McPragma :: Parameter(c, p) == Parameter(d, p)
    ensures c == d
  {
    assert Parameter(c, LEGACY) == Parameter(d, LEGACY);
    assert Parameter(c, LEGACY_PAGE_SIZE) == Parameter(d, LEGACY_PAGE_SIZE);
    assert Parameter(c, KDF_ITER) == Parameter(d, KDF_ITER);
    assert Parameter(c, FAST_KDF_ITER) == Parameter(d, FAST_KDF_ITER);
    assert Parameter(c, HMAC_USE) == Parameter(d, HMAC_USE);
    assert Parameter(c, HMAC_PGNO) == Parameter(d, HMAC_PGNO);
    assert Parameter(c, HMAC_SALT_MASK) == Parameter(d, HMAC_SALT_MASK);
    assert Parameter(c, KDF_ALGORITHM) == Parameter(d, KDF_ALGORITHM);
    assert Parameter(c, HMAC_ALGORITHM) == Parameter(d, HMAC_ALGORITHM);
    assert Parameter(c, PLAIN_TEXT_HEADER_SIZE) == Parameter(d, PLAIN_TEXT_HEADER_SIZE);
  }

  /** Two valid configurations leave the same registers only when they are equal. */
  lemma ViewInjective(c: EncryptionConfig, d: EncryptionConfig)
    requires c.Valid() && d.Valid()
    ensures View(c) == View(d) <==> c == d
  {
    hide Parameters;
    if View(c) == View(d) {
      CipherConfigInjective(c.cipherConfig, d.cipherConfig);
    }
  }

  /** Equal pragma maps come from equal configurations, even between sparse and `addAll`. */
  lemma PragmasInjective(c: EncryptionConfig, d: EncryptionConfig, addAllC: bool, addAllD: bool)
    requires c.Valid() && d.Valid()
    requires EncryptionPragmas(c, addAllC) == EncryptionPragmas(d, addAllD)
    ensures c == d
  {
    hide EncryptionPragmas, Lines, View, WithRegisters;
    var m := EncryptionPragmas(c, addAllC);
    HoldsItself(c, addAllC);
    HoldsItself(d, addAllD);
    var r := Reset(CHACHA20);
    var w := World(Session(r, r, Plain), Disk(Plain, [], false));
    LosslessEncoding(c, addAllC, false, m, w);
    LosslessEncoding(d, addAllD, false, m, w);
    MainRegisters(w, View(c));
    MainRegisters(w, View(d));
    ViewInjective(c, d);
  }

  lemma MainRegisters(w: World, r: Registers)
    ensures RegistersOf(WithRegisters(w, false, r), false) == r
  {}
}
