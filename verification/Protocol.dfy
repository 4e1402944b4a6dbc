/**
 * The key list and the rekey list, run on the engine and interrupted anywhere. What they do depends
 * on how the engine reads the literal in them, whatever that is.
 */
module Protocol {
  import opened Texts
  import opened SqlTokens
  import opened Ciphers
  import opened Keys
  import opened McPragmas
  import opened Statements
  import opened Engine
  import opened Lossless

  /** How a file is encrypted under a configuration and a key. */
  function CodecFor(c: EncryptionConfig, key: Key): Codec {
    CodecOf(View(c), Secret(key, c.Cipher()))
  }

  /** A configuration and a key that a connection can be made with. */
  predicate Usable(c: EncryptionConfig, key: Key) {
    c.Valid() && IsKey(key) && Suits(key, c.Cipher())
  }

  /** The empty key, and no other, stands for a file that is not encrypted, whatever the cipher. */
  lemma EmptyKeyIsPlain(c: EncryptionConfig, key: Key)
    requires Usable(c, key)
    ensures CodecFor(c, key) == Plain <==> key == EMPTY_KEY
  {
    if key.isRaw {
      assert |Secret(key, c.Cipher())| >= |key.value| > 0;
    }
  }

  /**
   * Exactly when a file written with one configuration and key is opened by another: both keys
   * are empty, or neither is, the cipher configurations are equal and the secrets are.
   */
  lemma SameCodec(c: EncryptionConfig, k: Key, d: EncryptionConfig, l: Key)
    requires Usable(c, k) && Usable(d, l)
    ensures CodecFor(c, k) == CodecFor(d, l) <==>
      || (k == EMPTY_KEY && l == EMPTY_KEY)
      || (k != EMPTY_KEY && l != EMPTY_KEY && c.cipherConfig == d.cipherConfig
          && Secret(k, c.Cipher()) == Secret(l, d.Cipher()))
  {
    EmptyKeyIsPlain(c, k);
    EmptyKeyIsPlain(d, l);
    hide Parameters, Secret;
    if k != EMPTY_KEY && l != EMPTY_KEY && CodecFor(c, k) == CodecFor(d, l) {
      CipherConfigInjective(c.cipherConfig, d.cipherConfig);
    }
  }

  function KeyList(c: EncryptionConfig, key: Key): seq<Text>
    requires Usable(c, key)
  {
    KeyedPragmasCompile(c, key, false);
    StatementsOf(KeyedPragmas(c, key, false).value)
  }

  function RekeyList(c: EncryptionConfig, key: Key): seq<Text>
    requires Usable(c, key)
  {
    KeyedPragmasCompile(c, key, true);
    StatementsOf(KeyedPragmas(c, key, true).value)
  }

  function Min(a: nat, b: nat): nat {
    if a < b then a else b
  }

  /******* Lists with any literal *******/

  /** The parameter statements of a configuration. */
  function MainLines(c: EncryptionConfig): seq<Text> {
    Lines(EncryptionPragmas(c, false), MAIN, PARAMETERS)
  }

  /** Everything before a rekey statement. */
  function BeforeRekey(c: EncryptionConfig): seq<Text> {
    [CHECK_SQL, JOURNAL_SQL] + Lines(EncryptionPragmas(c, false), TEMP, PARAMETERS)
  }

  function KeyListWith(c: EncryptionConfig, literal: Text): seq<Text> {
    MainLines(c) + [Assignment(PragmaName(KEY), literal)]
  }

  function RekeyListWith(c: EncryptionConfig, literal: Text): seq<Text> {
    BeforeRekey(c) + [Assignment(PragmaName(RE_KEY), literal)] + KeyListWith(c, literal)
  }

  /** The shape of both lists. */
  lemma ListShapes(c: EncryptionConfig, key: Key)
    requires Usable(c, key)
    ensures RetrieveFormatted(key, c.Cipher()).Ok?
    ensures KeyList(c, key) == KeyListWith(c, RetrieveFormatted(key, c.Cipher()).value)
    ensures RekeyList(c, key) == RekeyListWith(c, RetrieveFormatted(key, c.Cipher()).value)
  {
    hide Lines, EncryptionPragmas, Assignment, RetrieveFormatted;
    KeyedPragmasCompile(c, key, false);
    KeyedPragmasCompile(c, key, true);
    SwappedIsFresh(c, key);
    KeyStatements(KeyedPragmas(c, key, false).value);
    RekeyStatements(KeyedPragmas(c, key, true).value);
    AllPragmas();
    LinesAgree(KeyedPragmas(c, key, false).value, EncryptionPragmas(c, false), MAIN, PARAMETERS);
    LinesAgree(KeyedPragmas(c, key, true).value, EncryptionPragmas(c, false), MAIN, PARAMETERS);
    LinesAgree(KeyedPragmas(c, key, true).value, EncryptionPragmas(c, false), TEMP, PARAMETERS);
  }

  lemma MainLinesRun(c: EncryptionConfig, w: World, limit: nat)
    requires c.Valid()
    ensures var r := Run(w, MainLines(c), limit);
      && r.executed == Min(limit, |MainLines(c)|)
      && r.world.disk == w.disk
      && (|MainLines(c)| <= limit ==> r.world.session == w.session.(main := View(c)))
  {
    hide Lines, Step, Effect, View, EncryptionPragmas;
    AllPragmas();
    HoldsItself(c, false);
    RunLines(EncryptionPragmas(c, false), c, false, false, PARAMETERS, w, limit);
    EffectIsView(w.session.main, c, false);
  }

  lemma KeyLineStep(literal: Text, w: World)
    ensures Step(w, Assignment(PragmaName(KEY), literal))
         == match ReadValue(literal)
            case Refused => Stepped(w, false)
            case ActsThenFails(v) => Stepped(w.(session := w.session.(codec := CodecOf(w.session.main, v))), false)
            case Accepted(v) => Stepped(w.(session := w.session.(codec := CodecOf(w.session.main, v))), true)
  {
    hide Parse, ReadValue;
    ParseAssignment(KeyOf, literal);
  }

  lemma RekeyLineStep(literal: Text, w: World)
    ensures Step(w, Assignment(PragmaName(RE_KEY), literal))
         == match ReadValue(literal)
            case Refused => Stepped(w, false)
            case ActsThenFails(v) =>
              (match Apply(w, Rekey(v, false)) case None => Stepped(w, false) case Some(next) => Stepped(next, false))
            case Accepted(v) =>
              (match Apply(w, Rekey(v, true)) case None => Stepped(w, false) case Some(next) => Stepped(next, true))
  {
    hide Parse, ReadValue, Apply;
    ParseAssignment(RekeyTo, literal);
  }

  /** A rekey statement on a session that reads the file and has the target's parameters. */
  lemma RekeyLineEffect(c: EncryptionConfig, literal: Text, w: World)
    requires w.session.temp == View(c) && w.session.codec == w.disk.codec && !w.disk.wal
    ensures var step := Step(w, Assignment(PragmaName(RE_KEY), literal));
      match ReadValue(literal)
      case Refused => step == Stepped(w, false)
      case ActsThenFails(v) =>
        !step.ok && step.world.disk == w.disk.(codec := CodecOf(View(c), v))
      case Accepted(v) =>
        step == Stepped(World(w.session.(codec := CodecOf(View(c), v)), w.disk.(codec := CodecOf(View(c), v))), true)
  {
    hide Step, ReadValue, View;
    RekeyLineStep(literal, w);
  }

  lemma RunOne(w: World, t: Text, limit: nat)
    ensures Run(w, [t], limit)
         == if limit == 0 then RunResult(w, 0) else RunResult(Step(w, t).world, if Step(w, t).ok then 1 else 0)
  {
    hide Step;
    assert [t][1..] == [];
  }

  /**
   * A key list never touches the file. It fails at the key statement exactly when the literal is
   * not accepted; run to its end, it leaves the session reading with exactly the configuration
   * and the literal's value.
   */
  lemma KeyListWithRun(c: EncryptionConfig, literal: Text, w: World, limit: nat)
    requires c.Valid()
    ensures var list, r := KeyListWith(c, literal), Run(w, KeyListWith(c, literal), limit);
      && r.world.disk == w.disk
      && match ReadValue(literal)
         case Accepted(v) =>
           && r.executed == Min(limit, |list|)
           && (|list| <= limit ==>
                r.world.session == w.session.(main := View(c), codec := CodecOf(View(c), v)))
         case _ => r.executed == Min(limit, |list| - 1)
  {
    hide MainLines, Step, View, Assignment, ReadValue;
    var lines, last := MainLines(c), Assignment(PragmaName(KEY), literal);
    var first := Run(w, lines, limit);
    MainLinesRun(c, w, limit);
    RunConcat(w, lines, [last], limit);
    if |lines| <= limit {
      RunOne(first.world, last, limit - |lines|);
      KeyLineStep(literal, first.world);
    }
  }

  lemma FixedSteps(w: World)
    ensures Step(w, CHECK_SQL) == Stepped(w, w.session.codec == w.disk.codec)
    ensures Step(w, JOURNAL_SQL) ==
      if w.session.codec == w.disk.codec then Stepped(w.(disk := w.disk.(wal := false)), true) else Stepped(w, false)
  {
    hide Parse;
    ParseFixed();
  }

  /** A session that cannot read the file gets no further than the first statement. */
  lemma WrongCodecStops(c: EncryptionConfig, literal: Text, w: World, limit: nat)
    requires w.session.codec != w.disk.codec
    ensures Run(w, RekeyListWith(c, literal), limit) == RunResult(w, 0)
  {
    hide Lines, Step, Assignment, KeyListWith;
    FixedSteps(w);
  }

  /** The two fixed statements. */
  lemma OpeningRun(w: World, limit: nat)
    requires w.session.codec == w.disk.codec
    ensures var r := Run(w, [CHECK_SQL, JOURNAL_SQL], limit);
      && r.executed == Min(limit, 2)
      && r.world == if limit < 2 then w else w.(disk := w.disk.(wal := false))
  {
    hide Step;
    FixedSteps(w);
    assert [CHECK_SQL, JOURNAL_SQL] == [CHECK_SQL] + [JOURNAL_SQL];
    RunConcat(w, [CHECK_SQL], [JOURNAL_SQL], limit);
    RunOne(w, CHECK_SQL, limit);
    if limit > 0 {
      RunOne(w, JOURNAL_SQL, limit - 1);
    }
  }

  /** The file during a rekey: the same up to the journal mode, or already under the target. */
  predicate SameUpToWal(before: Disk, after: Disk) {
    after == before || after == before.(wal := false)
  }

  /** Everything before the rekey statement. */
  lemma BeforeRekeyRun(c: EncryptionConfig, w: World, limit: nat)
    requires c.Valid() && w.session.codec == w.disk.codec
    ensures var list, r := BeforeRekey(c), Run(w, BeforeRekey(c), limit);
      && r.executed == Min(limit, |list|)
      && SameUpToWal(w.disk, r.world.disk)
      && r.world.session.codec == w.session.codec
      && (|list| <= limit ==>
           && r.world.session == w.session.(temp := View(c))
           && r.world.disk == w.disk.(wal := false))
  {
    hide Lines, Step, Effect, View, EncryptionPragmas;
    AllPragmas();
    HoldsItself(c, false);
    var lines := Lines(EncryptionPragmas(c, false), TEMP, PARAMETERS);
    OpeningRun(w, limit);
    RunConcat(w, [CHECK_SQL, JOURNAL_SQL], lines, limit);
    if 2 <= limit {
      var next := Run(w, [CHECK_SQL, JOURNAL_SQL], limit).world;
      RunLines(EncryptionPragmas(c, false), c, false, true, PARAMETERS, next, limit - 2);
      EffectIsView(next.session.temp, c, false);
    }
  }

  /** The position of the rekey statement. */
  function RekeyAt(c: EncryptionConfig): nat {
    |BeforeRekey(c)|
  }

  /** From the rekey statement on. */
  lemma FromRekeyRun(c: EncryptionConfig, literal: Text, w: World, limit: nat)
    requires c.Valid()
    requires w.session.temp == View(c) && w.session.codec == w.disk.codec && !w.disk.wal
    ensures var list := [Assignment(PragmaName(RE_KEY), literal)] + KeyListWith(c, literal);
      var r := Run(w, list, limit);
      match ReadValue(literal)
      case Accepted(v) =>
        && r.executed == Min(limit, |list|)
        && r.world.disk == (if limit == 0 then w.disk else w.disk.(codec := CodecOf(View(c), v)))
        && (|list| <= limit ==> r.world.session.codec == CodecOf(View(c), v))
      case ActsThenFails(v) =>
        && r.executed == 0
        && r.world.disk == if limit == 0 then w.disk else w.disk.(codec := CodecOf(View(c), v))
      case Refused => r.executed == 0 && r.world.disk == w.disk
  {
    hide MainLines, Step, View, Assignment, ReadValue, KeyListWith;
    var rekey := Assignment(PragmaName(RE_KEY), literal);
    RunConcat(w, [rekey], KeyListWith(c, literal), limit);
    RunOne(w, rekey, limit);
    RekeyLineEffect(c, literal, w);
    if 0 < limit && Step(w, rekey).ok {
      KeyListWithRun(c, literal, Run(w, [rekey], limit).world, limit - 1);
    }
  }

  /**
   * The rekey list on a session that reads the file, interrupted anywhere. The file stays as it
   * was up to the rekey statement. That statement puts it under the target with the literal's
   * value, contents intact, unless the literal is refused. If something follows the literal it
   * then fails all the same; otherwise, run to its end, the session reads with the target too.
   */
  lemma RekeyListWithRun(c: EncryptionConfig, literal: Text, w: World, limit: nat)
    requires c.Valid() && w.session.codec == w.disk.codec
    ensures var list, r := RekeyListWith(c, literal), Run(w, RekeyListWith(c, literal), limit);
      && (limit <= RekeyAt(c) ==> r.executed == limit && SameUpToWal(w.disk, r.world.disk))
      && (limit > RekeyAt(c) ==>
           match ReadValue(literal)
           case Accepted(v) =>
             && r.executed == Min(limit, |list|)
             && r.world.disk == Disk(CodecOf(View(c), v), w.disk.contents, false)
             && (|list| <= limit ==> r.world.session.codec == CodecOf(View(c), v))
           case ActsThenFails(v) =>
             r.executed == RekeyAt(c) && r.world.disk == Disk(CodecOf(View(c), v), w.disk.contents, false)
           case Refused => r.executed == RekeyAt(c) && SameUpToWal(w.disk, r.world.disk))
  {
    hide Run, View, Assignment, KeyListWith, ReadValue, BeforeRekey;
    var before := BeforeRekey(c);
    var after := [Assignment(PragmaName(RE_KEY), literal)] + KeyListWith(c, literal);
    assert RekeyListWith(c, literal) == before + after;
    BeforeRekeyRun(c, w, limit);
    RunConcat(w, before, after, limit);
    if |before| <= limit {
      FromRekeyRun(c, literal, Run(w, before, limit).world, limit - |before|);
    }
  }

  /******* Lists with a printed key *******/

  /** A key that is whole: the list never fails. */
  lemma KeyListRun(c: EncryptionConfig, key: Key, w: World, limit: nat)
    requires Usable(c, key) && IsWhole(key)
    ensures var list, r := KeyList(c, key), Run(w, KeyList(c, key), limit);
      && r.executed == Min(limit, |list|)
      && r.world.disk == w.disk
      && (|list| <= limit ==>
           r.world.session == w.session.(main := View(c), codec := CodecFor(c, key)))
  {
    hide KeyList, RetrieveFormatted, KeyListWith, RekeyListWith, View, Secret, ReadValue;
    ListShapes(c, key);
    FormattedDenotesSecret(key, c.Cipher());
    KeyListWithRun(c, RetrieveFormatted(key, c.Cipher()).value, w, limit);
  }

  /** And the file is under the target from the rekey statement on. */
  lemma RekeyListRun(c: EncryptionConfig, key: Key, w: World, limit: nat)
    requires Usable(c, key) && IsWhole(key) && w.session.codec == w.disk.codec
    ensures var list, r := RekeyList(c, key), Run(w, RekeyList(c, key), limit);
      && r.executed == Min(limit, |list|)
      && (r.executed <= RekeyAt(c) ==> SameUpToWal(w.disk, r.world.disk))
      && (r.executed > RekeyAt(c) ==> r.world.disk == Disk(CodecFor(c, key), w.disk.contents, false))
      && (|list| <= limit ==> r.world.session.codec == CodecFor(c, key))
      && |list| > RekeyAt(c)
  {
    hide KeyList, RetrieveFormatted, KeyListWith, View, Secret, ReadValue, BeforeRekey, RekeyList, Assignment;
    ListShapes(c, key);
    FormattedDenotesSecret(key, c.Cipher());
    RekeyListWithRun(c, RetrieveFormatted(key, c.Cipher()).value, w, limit);
  }
}
