/**
 * What becomes of a key on its way to the engine. The JVM's carrier turns a printed passphrase
 * into another text, and the engine reads whatever literal stands at its beginning: all of it, or
 * a part that closes early, or none.
 */
module Arrivals {
  import opened Wrappers
  import opened Texts
  import opened SqlTokens
  import opened Transport
  import opened Ciphers
  import opened Keys
  import opened McPragmas
  import opened Statements
  import opened Engine
  import opened Protocol
  import opened Refinement

  /** A passphrase as it is printed. */
  function Printed(passphrase: Text): Text {
    [QUOTE] + Doubled(passphrase, QUOTE) + [QUOTE]
  }

  /** A text on the engine's side of the JVM driver, or of the native one. */
  function Sent(jvm: bool, t: Text): Text {
    if jvm then Carried(t) else t
  }

  /**
   * The key that the engine gets; or the key that it acts with before it fails on what is left of
   * the literal; or nothing that it can read.
   */
  datatype Arrival = Arrives(key: Key) | CutOff(key: Key) | Lost

  function ArrivalOf(jvm: bool, k: Key): Arrival {
    if k.isRaw then Arrives(k)
    else
      match ReadValue(Sent(jvm, Printed(k.value)))
      case Refused => Lost
      case ActsThenFails(v) => CutOff(Passphrase(v))
      case Accepted(v) => Arrives(Passphrase(v))
  }

  function AcceptedAs(a: Arrival, c: Cipher): Reading {
    match a
    case Lost => Refused
    case CutOff(w) => ActsThenFails(Secret(w, c))
    case Arrives(w) => Accepted(Secret(w, c))
  }

  lemma CarriedConcat(a: Text, b: Text)
    ensures Carried(a + b) == Carried(a) + Carried(b)
  {}

  lemma CarriedLiteral(v: Text)
    ensures Carried(Printed(v)) == [QUOTE] + Carried(Doubled(v, QUOTE)) + [QUOTE]
    ensures Carried(Printed(v))[1..] == Carried(Doubled(v, QUOTE)) + [QUOTE]
  {
    CarriedConcat([QUOTE] + Doubled(v, QUOTE), [QUOTE]);
    CarriedConcat([QUOTE], Doubled(v, QUOTE));
    assert Carried([QUOTE]) == [QUOTE];
    assert ([QUOTE] + Carried(Doubled(v, QUOTE)) + [QUOTE])[1..] == Carried(Doubled(v, QUOTE)) + [QUOTE];
  }

  /** The value of a literal in a text whose units survive. */
  lemma ReadIsExact(t: Text, quote: CodeUnit)
    requires IsExact(t) && LexString(t, quote).Some?
    ensures IsExact(LexString(t, quote).value.value)
  {
    var l := LexString(t, quote).value;
    LexedIsPrinted(t, quote);
    DoubledUnits(l.value, quote);
    assert forall u :: u in l.value ==> u in Doubled(l.value, quote) && u in t;
  }

  /** What is read has no unit 0, and none that the text has not. */
  lemma ReadingIsWhole(t: Text)
    requires !ReadValue(t).Refused?
    ensures NUL !in ReadValue(t).value && (IsExact(t) ==> IsExact(ReadValue(t).value))
  {
    hide FollowOf, IsExactUnit;
    LexedIsPrinted(t[1..], t[0]);
    if IsExact(t) {
      assert forall u :: u in t[1..] ==> u in t;
      ReadIsExact(t[1..], t[0]);
    }
  }

  lemma RawArrives(jvm: bool, k: Key, c: Cipher)
    requires IsKey(k) && Suits(k, c) && k.isRaw
    ensures IsWhole(k) && IsExactKey(k)
    ensures ReadValue(Sent(jvm, RetrieveFormatted(k, c).value)) == Accepted(Secret(k, c))
  {
    hide ReadValue, Secret;
    assert HexValue(NUL).None?;
    FormattedDenotesSecret(k, c);
    FormattedExact(k, c);
    CarriedExact(RetrieveFormatted(k, c).value);
  }

  /** How the engine reads the literal that a key is sent as, under any cipher that has its kind. */
  lemma ArrivalLiteral(jvm: bool, k: Key, c: Cipher)
    requires IsKey(k) && Suits(k, c)
    ensures RetrieveFormatted(k, c).Ok?
    ensures ReadValue(Sent(jvm, RetrieveFormatted(k, c).value)) == AcceptedAs(ArrivalOf(jvm, k), c)
    ensures !ArrivalOf(jvm, k).Lost? ==>
      var w := ArrivalOf(jvm, k).key;
      IsKey(w) && IsWhole(w) && w.isRaw == k.isRaw && Suits(w, c) && (jvm ==> IsExactKey(w))
    ensures ArrivalOf(jvm, k).CutOff? ==> !k.isRaw
  {
    if k.isRaw {
      hide ReadValue, HexValue, IsExact, Carried;
      RawArrives(jvm, k, c);
    } else {
      hide ReadValue, IsExact, Carried, Doubled;
      assert RetrieveFormatted(k, c).value == Printed(k.value);
      CarriedExact(Printed(k.value));
      if !ArrivalOf(jvm, k).Lost? {
        ReadingIsWhole(Sent(jvm, Printed(k.value)));
      }
    }
  }

  /** A key arrives as it is exactly when it is whole and, on the JVM, its units survive. */
  lemma ArrivesExact(jvm: bool, k: Key)
    requires IsKey(k)
    ensures ArrivalOf(jvm, k) == Arrives(k) <==> IsWhole(k) && (jvm ==> IsExactKey(k))
  {
    ArrivalLiteral(jvm, k, SQLCIPHER);
    FormattedDenotesSecret(k, SQLCIPHER);
    FormattedExact(k, SQLCIPHER);
    CarriedExact(RetrieveFormatted(k, SQLCIPHER).value);
    hide ReadValue;
  }

  /** Natively it does so or not at all. */
  lemma NativeArrival(k: Key)
    requires IsKey(k)
    ensures ArrivalOf(false, k) == if IsWhole(k) then Arrives(k) else Lost
  {
    FormattedDenotesSecret(k, SQLCIPHER);
    hide ReadValue;
  }

  /** What has arrived once, whole or cut off, arrives again as it is. */
  lemma ArrivesAgain(jvm: bool, k: Key)
    requires IsKey(k) && !ArrivalOf(jvm, k).Lost?
    ensures ArrivalOf(jvm, ArrivalOf(jvm, k).key) == Arrives(ArrivalOf(jvm, k).key)
  {
    hide ReadValue, ArrivalOf;
    ArrivalLiteral(jvm, k, SQLCIPHER);
    ArrivesExact(jvm, ArrivalOf(jvm, k).key);
  }

  /******* Which passphrases arrive *******/

  /** No unit but the quote itself becomes a quote. */
  predicate KeepsQuotes(v: Text) {
    forall u :: u in v && ToByte(u) == QUOTE ==> u == QUOTE
  }

  /** No unit becomes the unit 0. */
  predicate HasNoZero(v: Text) {
    forall u :: u in v ==> ToByte(u) != NUL
  }

  /**
   * Units that become quotes close the literal at the end of the first maximal run of them that
   * holds an odd number of units other than the quote, unless that run ends the passphrase. This
   * is where; `odd` says that the run before `v` has so far held an odd number.
   */
  function CutAt(v: Text, odd: bool): (r: Option<nat>)
    ensures r.Some? ==> r.value < |v|
  {
    if v == [] then None
    else if ToByte(v[0]) != QUOTE && odd then Some(0)
    else
      match CutAt(v[1..], ToByte(v[0]) == QUOTE && (v[0] == QUOTE) == odd)
      case None => None
      case Some(n) => Some(n + 1)
  }

  /** The last run is such a one: with the closing quote it is a literal that does not close. */
  predicate EndsOdd(v: Text, odd: bool) {
    if v == [] then odd else EndsOdd(v[1..], ToByte(v[0]) == QUOTE && (v[0] == QUOTE) == odd)
  }

  /** The part of a passphrase that is read as a literal. */
  function Before(v: Text, odd: bool): Text {
    match CutAt(v, odd) case None => v case Some(n) => v[..n]
  }

  /** What is sent after that literal. */
  function Behind(v: Text, odd: bool): Text {
    match CutAt(v, odd) case None => [] case Some(n) => Carried(Doubled(v[n..], QUOTE)) + [QUOTE]
  }

  predicate Closes(v: Text, odd: bool) {
    HasNoZero(Before(v, odd)) && (CutAt(v, odd).Some? || !EndsOdd(v, odd))
  }

  lemma CarriedDoubledStep(v: Text)
    requires v != []
    ensures Carried(Doubled(v, QUOTE))
         == (if v[0] == QUOTE then [QUOTE, QUOTE] else [FromByte(ToByte(v[0]))]) + Carried(Doubled(v[1..], QUOTE))
  {
    var head: Text := if v[0] == QUOTE then [QUOTE, QUOTE] else [v[0]];
    CarriedConcat(head, Doubled(v[1..], QUOTE));
    assert Carried(head) == if v[0] == QUOTE then [QUOTE, QUOTE] else [FromByte(ToByte(v[0]))];
  }

  /** What is left of a text after the literal that begins it. */
  function RestOf(t: Text): Option<Text> {
    match LexString(t, QUOTE) case None => None case Some(l) => Some(l.rest)
  }

  lemma LexPair(rest: Text)
    ensures RestOf([QUOTE, QUOTE] + rest) == RestOf(rest)
  {
    assert ([QUOTE, QUOTE] + rest)[2..] == rest;
  }

  lemma LexOther(u: CodeUnit, rest: Text)
    requires u != QUOTE
    ensures RestOf([u] + rest) == if u == NUL then None else RestOf(rest)
    ensures RestOf([QUOTE] + ([u] + rest)) == Some([u] + rest)
  {
    assert ([u] + rest)[1..] == rest;
    assert ([QUOTE] + ([u] + rest))[1..] == [u] + rest;
  }

  lemma LexQuotes()
    ensures RestOf([QUOTE]) == Some([]) && RestOf([QUOTE, QUOTE]) == None
  {
    assert [QUOTE, QUOTE][2..] == [];
    assert [QUOTE][1..] == [];
    assert LexString([QUOTE], QUOTE) == Some(Lexed([], []));
    assert LexString([QUOTE, QUOTE], QUOTE) == None;
  }

  lemma CutStep(v: Text, odd: bool)
    requires v != [] && !(ToByte(v[0]) != QUOTE && odd)
    ensures var odd' := ToByte(v[0]) == QUOTE && (v[0] == QUOTE) == odd;
      && (CutAt(v, odd).Some? <==> CutAt(v[1..], odd').Some?)
      && Before(v, odd) == [v[0]] + Before(v[1..], odd')
      && Behind(v, odd) == Behind(v[1..], odd')
      && (EndsOdd(v, odd) <==> EndsOdd(v[1..], odd'))
  {
    hide Carried, Doubled, ToByte;
    var odd' := ToByte(v[0]) == QUOTE && (v[0] == QUOTE) == odd;
    assert v == [v[0]] + v[1..];
    if CutAt(v[1..], odd').Some? {
      var n := CutAt(v[1..], odd').value;
      assert v[n + 1..] == v[1..][n..] && v[..n + 1] == [v[0]] + v[1..][..n];
    }
  }

  lemma CutHere(v: Text)
    requires v != [] && ToByte(v[0]) != QUOTE
    ensures Closes(v, true) && Behind(v, true) == Carried(Doubled(v, QUOTE)) + [QUOTE]
  {
    hide Carried, Doubled, ToByte;
    assert v[0..] == v;
  }

  lemma BeforeStep(v: Text, odd: bool)
    requires v != []
    ensures var odd' := ToByte(v[0]) == QUOTE && (v[0] == QUOTE) == odd;
      if ToByte(v[0]) != QUOTE && odd then
        Closes(v, odd) && Behind(v, odd) == Carried(Doubled(v, QUOTE)) + [QUOTE]
      else
        (Closes(v, odd) <==> ToByte(v[0]) != NUL && Closes(v[1..], odd')) && Behind(v, odd) == Behind(v[1..], odd')
  {
    if ToByte(v[0]) != QUOTE && odd {
      CutHere(v);
    } else {
      CutStep(v, odd);
      hide CutAt, Before, Behind, EndsOdd, HasNoZero, ToByte;
      NoZeroStep(v[0], Before(v[1..], ToByte(v[0]) == QUOTE && (v[0] == QUOTE) == odd));
    }
  }

  lemma NoZeroStep(u: CodeUnit, rest: Text)
    ensures HasNoZero([u] + rest) <==> ToByte(u) != NUL && HasNoZero(rest)
  {
    hide ToByte;
    assert u in [u] + rest && forall x :: x in [u] + rest <==> x == u || x in rest;
  }

  /** What is sent of a passphrase after its opening quote. */
  function SentBody(v: Text): Text {
    Carried(Doubled(v, QUOTE)) + [QUOTE]
  }

  ghost predicate IsRest(v: Text, odd: bool) {
    RestOf(if odd then [QUOTE] + SentBody(v) else SentBody(v)) == if Closes(v, odd) then Some(Behind(v, odd)) else None
  }

  lemma SentBodyStep(v: Text)
    requires v != []
    ensures SentBody(v) == (if v[0] == QUOTE then [QUOTE, QUOTE] else [FromByte(ToByte(v[0]))]) + SentBody(v[1..])
  {
    CarriedDoubledStep(v);
    hide Carried, Doubled;
  }

  lemma RestAfterOther(v: Text, odd: bool)
    requires v != [] && ToByte(v[0]) != QUOTE && IsRest(v[1..], false)
    ensures IsRest(v, odd)
  {
    SentBodyStep(v);
    BeforeStep(v, odd);
    hide RestOf, SentBody, Closes, Behind;
    LexOther(FromByte(ToByte(v[0])), SentBody(v[1..]));
    assert SentBody(v) == Carried(Doubled(v, QUOTE)) + [QUOTE] by { SentBodyIs(v); }
  }

  lemma SentBodyIs(v: Text)
    ensures SentBody(v) == Carried(Doubled(v, QUOTE)) + [QUOTE]
  {}

  lemma RestAfterQuote(v: Text, odd: bool)
    requires v != [] && v[0] == QUOTE && IsRest(v[1..], odd)
    ensures IsRest(v, odd)
  {
    var rest := SentBody(v[1..]);
    SentBodyStep(v);
    BeforeStep(v, odd);
    hide RestOf, SentBody, Closes, Behind;
    assert [QUOTE] + SentBody(v) == [QUOTE, QUOTE] + ([QUOTE] + rest);
    LexPair(if odd then [QUOTE] + rest else rest);
  }

  lemma RestAfterNewQuote(v: Text, odd: bool)
    requires v != [] && ToByte(v[0]) == QUOTE != v[0] && IsRest(v[1..], !odd)
    ensures IsRest(v, odd)
  {
    var rest := SentBody(v[1..]);
    SentBodyStep(v);
    BeforeStep(v, odd);
    hide RestOf, SentBody, Closes, Behind;
    assert SentBody(v) == [QUOTE] + rest;
    assert [QUOTE] + SentBody(v) == [QUOTE, QUOTE] + rest;
    LexPair(rest);
  }

  lemma {:induction false} LiteralRest(v: Text, odd: bool)
    ensures IsRest(v, odd)
    decreases |v|
  {
    if v == [] {
      LexQuotes();
      assert SentBody(v) == [QUOTE] && [QUOTE] + SentBody(v) == [QUOTE, QUOTE];
    } else {
      hide IsRest;
      if ToByte(v[0]) != QUOTE {
        LiteralRest(v[1..], false);
        RestAfterOther(v, odd);
      } else if v[0] == QUOTE {
        LiteralRest(v[1..], odd);
        RestAfterQuote(v, odd);
      } else {
        LiteralRest(v[1..], !odd);
        RestAfterNewQuote(v, odd);
      }
    }
  }

  /**
   * What becomes of every passphrase on the JVM, told from the passphrase: whether a literal closes
   * in what is sent, what comes behind it, and its value, which is the one that is written so.
   */
  lemma PassphraseArrival(v: Text)
    ensures match ArrivalOf(true, Passphrase(v))
      case Lost => !Closes(v, false) || FollowOf(Behind(v, false)) == Illegal
      case CutOff(w) => Closes(v, false) && FollowOf(Behind(v, false)) == GoesOn
      case Arrives(w) => Closes(v, false) && FollowOf(Behind(v, false)) == Ends
    ensures !ArrivalOf(true, Passphrase(v)).Lost? ==>
      var w := ArrivalOf(true, Passphrase(v)).key;
      !w.isRaw && Carried(Printed(v)) == Printed(w.value) + Behind(v, false)
  {
    SentIsLexed(v);
    hide LexString, FollowOf, Closes, Behind, Carried, Doubled, HasNoZero, Printed;
    ReadOpened(Carried(Printed(v)));
    if !ArrivalOf(true, Passphrase(v)).Lost? {
      PrintedThen(LexString(Carried(Printed(v))[1..], QUOTE).value.value, Behind(v, false), Carried(Printed(v)));
    }
  }

  lemma ReadOpened(t: Text)
    requires t != [] && t[0] == QUOTE
    ensures ReadValue(t)
         == match LexString(t[1..], QUOTE)
            case None => Refused
            case Some(l) =>
              match FollowOf(l.rest)
              case Ends => Accepted(l.value)
              case Illegal => Refused
              case GoesOn => ActsThenFails(l.value)
  {
    hide LexString, FollowOf;
  }

  lemma PrintedThen(value: Text, rest: Text, t: Text)
    requires t != [] && t[0] == QUOTE && t[1..] == Doubled(value, QUOTE) + [QUOTE] + rest
    ensures t == Printed(value) + rest
  {
    hide Doubled;
    assert t == [QUOTE] + t[1..];
  }

  lemma SentIsLexed(v: Text)
    ensures var t := Carried(Printed(v));
      && t != [] && t[0] == QUOTE
      && (LexString(t[1..], QUOTE).Some? <==> Closes(v, false))
      && (Closes(v, false) ==>
           var l := LexString(t[1..], QUOTE).value;
           l.rest == Behind(v, false) && t[1..] == Doubled(l.value, QUOTE) + [QUOTE] + l.rest)
  {
    var t := Carried(Printed(v));
    CarriedLiteral(v);
    LiteralRest(v, false);
    LexedIsPrinted(t[1..], QUOTE);
    hide LexString, Closes, Behind, Carried, Doubled, Printed;
  }

  /** Doubling the quotes of a carried passphrase. */
  lemma {:induction false} CarriedDoubled(v: Text)
    ensures |Doubled(v, QUOTE)| <= |Doubled(Carried(v), QUOTE)|
    ensures Carried(Doubled(v, QUOTE)) == Doubled(Carried(v), QUOTE) <==> KeepsQuotes(v)
    ensures |Doubled(v, QUOTE)| == |Doubled(Carried(v), QUOTE)| <==> KeepsQuotes(v)
    decreases |v|
  {
    if v != [] {
      var u, rest := v[0], v[1..];
      CarriedDoubled(rest);
      assert v == [u] + rest;
      CarriedConcat([u], rest);
      assert Carried(v)[0] == FromByte(ToByte(u)) && Carried(v)[1..] == Carried(rest);
      CarriedConcat(if u == QUOTE then [QUOTE, QUOTE] else [u], Doubled(rest, QUOTE));
    }
  }

  lemma CarriedNoZero(v: Text)
    ensures NUL in Carried(v) <==> !HasNoZero(v)
  {
    forall i | 0 <= i < |v|
      ensures Carried(v)[i] == NUL <==> ToByte(v[i]) == NUL
    {
      assert Carried(v)[i] == FromByte(ToByte(v[i]));
    }
    if NUL in Carried(v) {
      var i :| 0 <= i < |v| && Carried(v)[i] == NUL;
      assert v[i] in v;
    }
    if !HasNoZero(v) {
      var u :| u in v && ToByte(u) == NUL;
      var i :| 0 <= i < |v| && v[i] == u;
      assert Carried(v)[i] in Carried(v);
    }
  }

  /** A passphrase arrives as its unit-by-unit image exactly when that brings in no quote and no 0. */
  lemma PlainArrival(v: Text)
    ensures ArrivalOf(true, Passphrase(v)) == Arrives(Passphrase(Carried(v))) <==> KeepsQuotes(v) && HasNoZero(v)
  {
    CarriedLiteral(v);
    CarriedDoubled(v);
    CarriedNoZero(v);
    PrintedIsRead(Carried(v), QUOTE);
    PassphraseArrival(v);
    hide ReadValue, Closes, FollowOf, HasNoZero, KeepsQuotes;
    if ArrivalOf(true, Passphrase(v)) == Arrives(Passphrase(Carried(v))) {
      ArrivalLiteral(true, Passphrase(v), SQLCIPHER);
      assert |Carried(Printed(v))| == |Doubled(v, QUOTE)| + 2;
      assert |Printed(Carried(v)) + Behind(v, false)| >= |Doubled(Carried(v), QUOTE)| + 2;
    }
  }

  /******* Lists on the engine's side *******/

  function SentList(jvm: bool, statements: seq<Text>): seq<Text> {
    if jvm then JvmList(statements) else statements
  }

  lemma CarriedAllConcat(a: seq<Text>, b: seq<Text>)
    ensures CarriedAll(a + b) == CarriedAll(a) + CarriedAll(b)
  {
    hide Carried;
  }

  lemma CarriedAllExact(statements: seq<Text>)
    requires AllExact(statements)
    ensures CarriedAll(statements) == statements
  {
    forall i | 0 <= i < |statements|
      ensures CarriedAll(statements)[i] == statements[i]
    {
      assert statements[i] in statements;
      CarriedExact(statements[i]);
    }
  }

  lemma CarriedAssignment(p: McPragma, value: Text)
    ensures CarriedAll([Assignment(PragmaName(p), value)]) == [Assignment(PragmaName(p), Carried(value))]
  {
    PragmaNamePlain(p);
    var s := "PRAGMA " + PragmaName(p) + " = ";
    assert forall c :: c in s ==> c in "PRAGMA " || c in PragmaName(p) || c in " = ";
    AsciiExact(s);
    CarriedExact(Ascii(s));
    CarriedConcat(Ascii(s), value);
  }

  /** Only the literal becomes another. */
  lemma CarriedLists(c: EncryptionConfig, literal: Text)
    ensures CarriedAll(KeyListWith(c, literal)) == KeyListWith(c, Carried(literal))
    ensures CarriedAll(RekeyListWith(c, literal)) == RekeyListWith(c, Carried(literal))
  {
    hide MainLines, BeforeRekey, Assignment, Carried, CarriedAll, IsExact;
    var key, rekey := Assignment(PragmaName(KEY), literal), Assignment(PragmaName(RE_KEY), literal);
    ConfigLinesExact(c);
    CarriedAllExact(MainLines(c));
    CarriedAllExact(BeforeRekey(c));
    CarriedAssignment(KEY, literal);
    CarriedAssignment(RE_KEY, literal);
    CarriedAllConcat(MainLines(c), [key]);
    CarriedAllConcat(BeforeRekey(c), [rekey]);
    CarriedAllConcat(BeforeRekey(c) + [rekey], KeyListWith(c, literal));
  }

  lemma ListsPlain(c: EncryptionConfig, key: Key)
    requires Usable(c, key)
    ensures forall t :: t in KeyList(c, key) ==> StartsPlainly(t)
    ensures forall t :: t in RekeyList(c, key) ==> StartsPlainly(t)
  {
    hide StatementsOf, KeyedPragmas, StartsPlainly;
    KeyedPragmasCompile(c, key, false);
    KeyedPragmasCompile(c, key, true);
    CompiledStart(KeyedPragmas(c, key, false).value);
    CompiledStart(KeyedPragmas(c, key, true).value);
  }

  /** Both lists as they reach the engine, alone and one after the other. */
  lemma SentLists(jvm: bool, c: EncryptionConfig, key: Key)
    requires Usable(c, key)
    ensures RetrieveFormatted(key, c.Cipher()).Ok?
    ensures var literal := Sent(jvm, RetrieveFormatted(key, c.Cipher()).value);
      && SentList(jvm, KeyList(c, key)) == KeyListWith(c, literal)
      && SentList(jvm, RekeyList(c, key)) == RekeyListWith(c, literal)
    ensures |SentList(jvm, KeyList(c, key))| == |KeyList(c, key)|
  {
    hide KeyList, RekeyList, KeyListWith, RekeyListWith, StartsPlainly, JvmList, CarriedAll, Carried, RetrieveFormatted;
    ListShapes(c, key);
    ListsPlain(c, key);
    JvmListCarries(KeyList(c, key));
    JvmListCarries(RekeyList(c, key));
    CarriedLists(c, RetrieveFormatted(key, c.Cipher()).value);
  }

  lemma SentListConcat(jvm: bool, a: seq<Text>, b: seq<Text>)
    requires forall t :: t in a + b ==> StartsPlainly(t)
    ensures SentList(jvm, a + b) == SentList(jvm, a) + SentList(jvm, b)
    ensures |SentList(jvm, a + b)| == |a| + |b|
  {
    hide JvmList, StartsPlainly, CarriedAll;
    assert forall t :: t in a ==> t in a + b;
    assert forall t :: t in b ==> t in a + b;
    JvmListCarries(a + b);
    JvmListCarries(a);
    JvmListCarries(b);
    CarriedAllConcat(a, b);
  }

  /******* Passphrases that make the same lists *******/

  /** Two lists that differ in one statement, or not even there. */
  lemma SameButOne(a: seq<Text>, t: Text, b: seq<Text>, u: Text, d: seq<Text>)
    ensures a + [t] + b == a + [u] + d <==> t == u && b == d
  {
    if a + [t] + b == a + [u] + d {
      assert (a + [t] + b)[|a|] == t && (a + [u] + d)[|a|] == u;
      assert (a + [t] + b)[|a| + 1..] == b && (a + [u] + d)[|a| + 1..] == d;
    }
  }

  lemma SameAssignment(p: McPragma, x: Text, y: Text)
    ensures Assignment(PragmaName(p), x) == Assignment(PragmaName(p), y) <==> x == y
  {
    var head := Ascii("PRAGMA " + PragmaName(p) + " = ");
    assert (head + x)[|head|..] == x && (head + y)[|head|..] == y;
  }

  /** A list tells its literal. */
  lemma ListsTellLiteral(c: EncryptionConfig, x: Text, y: Text)
    ensures KeyListWith(c, x) == KeyListWith(c, y) <==> x == y
    ensures RekeyListWith(c, x) == RekeyListWith(c, y) <==> x == y
  {
    hide MainLines, BeforeRekey, Assignment, PragmaName;
    SameAssignment(KEY, x, y);
    SameAssignment(RE_KEY, x, y);
    SameButOne(MainLines(c), Assignment(PragmaName(KEY), x), [], Assignment(PragmaName(KEY), y), []);
    assert forall t: Text :: MainLines(c) + [t] + [] == MainLines(c) + [t];
    SameButOne(BeforeRekey(c), Assignment(PragmaName(RE_KEY), x), KeyListWith(c, x),
               Assignment(PragmaName(RE_KEY), y), KeyListWith(c, y));
  }

  lemma SameCarried(a: Text, b: Text)
    ensures Carried(a) == Carried(b) <==> Bytes(a) == Bytes(b)
  {
    if Carried(a) == Carried(b) {
      forall i | 0 <= i < |a|
        ensures Bytes(a)[i] == Bytes(b)[i]
      {
        assert FromByte(Bytes(a)[i]) == Carried(a)[i] == Carried(b)[i] == FromByte(Bytes(b)[i]);
      }
    }
  }

  lemma SameCarriedLiteral(a: Text, b: Text)
    ensures Carried(Printed(a)) == Carried(Printed(b)) <==> Bytes(Doubled(a, QUOTE)) == Bytes(Doubled(b, QUOTE))
  {
    CarriedLiteral(a);
    CarriedLiteral(b);
    SameCarried(Doubled(a, QUOTE), Doubled(b, QUOTE));
    hide Carried, Bytes, Doubled, Printed;
    var x, y := Carried(Doubled(a, QUOTE)), Carried(Doubled(b, QUOTE));
    assert ([QUOTE] + x + [QUOTE])[1..|x| + 1] == x && ([QUOTE] + y + [QUOTE])[1..|y| + 1] == y;
  }

  /**
   * A deviation of the JVM driver: two passphrases make the same lists, under every configuration,
   * exactly when they agree in the low bytes of their units once quotes are doubled.
   */
  lemma PassphrasesCollide(c: EncryptionConfig, a: Text, b: Text)
    requires c.Valid()
    ensures JvmList(KeyList(c, Passphrase(a))) == JvmList(KeyList(c, Passphrase(b))) <==>
      Bytes(Doubled(a, QUOTE)) == Bytes(Doubled(b, QUOTE))
    ensures JvmList(RekeyList(c, Passphrase(a))) == JvmList(RekeyList(c, Passphrase(b))) <==>
      Bytes(Doubled(a, QUOTE)) == Bytes(Doubled(b, QUOTE))
  {
    SentLists(true, c, Passphrase(a));
    SentLists(true, c, Passphrase(b));
    ListsTellLiteral(c, Carried(Printed(a)), Carried(Printed(b)));
    SameCarriedLiteral(a, b);
    hide KeyList, RekeyList, KeyListWith, RekeyListWith, Carried, JvmList, Bytes, Doubled;
  }

  /** Where no unit becomes a quote, that is to agree in length and in each low byte. */
  lemma PlainPassphrasesCollide(c: EncryptionConfig, a: Text, b: Text)
    requires c.Valid() && KeepsQuotes(a) && KeepsQuotes(b)
    ensures JvmList(KeyList(c, Passphrase(a))) == JvmList(KeyList(c, Passphrase(b))) <==> Bytes(a) == Bytes(b)
  {
    PassphrasesCollide(c, a, b);
    CarriedDoubled(a);
    CarriedDoubled(b);
    DoubledInjective(Carried(a), Carried(b), QUOTE);
    SameCarried(a, b);
    SameCarried(Doubled(a, QUOTE), Doubled(b, QUOTE));
    hide KeyList, JvmList, Doubled, Bytes, Carried;
  }

  /** Natively only equal passphrases make the same lists. */
  lemma KeyListTellsPassphrase(c: EncryptionConfig, v: Text, w: Text)
    requires c.Valid()
    ensures KeyList(c, Passphrase(v)) == KeyList(c, Passphrase(w)) <==> v == w
  {
    ListShapes(c, Passphrase(v));
    ListShapes(c, Passphrase(w));
    ListsTellLiteral(c, Printed(v), Printed(w));
    DoubledInjective(v, w, QUOTE);
    hide KeyList, RekeyList, KeyListWith, RekeyListWith, Doubled;
    assert Printed(v)[1..|Printed(v)| - 1] == Doubled(v, QUOTE);
    assert Printed(w)[1..|Printed(w)| - 1] == Doubled(w, QUOTE);
  }

  /** A pair that collides: the letters at 0xE9 and at 0x1E9, which natively are two keys. */
  lemma PassphrasesCollideOnce(c: EncryptionConfig)
    requires c.Valid()
    ensures var a, b := Passphrase([0xE9]), Passphrase([0x1E9]);
      KeyList(c, a) != KeyList(c, b) && JvmList(KeyList(c, a)) == JvmList(KeyList(c, b))
  {
    PlainPassphrasesCollide(c, [0xE9], [0x1E9]);
    hide KeyList, JvmList, KeepsQuotes;
    var a: Text, b: Text := [0xE9], [0x1E9];
    assert Bytes(a) == Bytes(b);
    assert a[0] != b[0];
    KeyListTellsPassphrase(c, a, b);
  }

  /******* Some passphrases *******/

  lemma QuoteBytes()
    ensures Bytes(Doubled([0x127, 0x127], QUOTE)) == Bytes(Doubled([0x27], QUOTE))
    ensures Bytes(Doubled([0x127], QUOTE)) != Bytes(Doubled([0x27], QUOTE))
  {
    var quote: Text, two: Text, one: Text := [0x27], [0x127, 0x127], [0x127];
    assert one[1..] == [] && two[1..] == one && quote[1..] == [];
    DoubledAbsent(one, QUOTE);
    DoubledAbsent(two, QUOTE);
    assert Doubled(quote, QUOTE) == [QUOTE, QUOTE] + Doubled([], QUOTE);
  }

  /**
   * The letter at 0x127 becomes a quote. Two of them are the passphrase that is a single quote,
   * though of another length; one of them has that passphrase's length and low byte, is another
   * key than it and can no longer be read.
   */
  lemma QuotesCollide(c: EncryptionConfig)
    requires c.Valid()
    ensures var quote, two, one := Passphrase([0x27]), Passphrase([0x127, 0x127]), Passphrase([0x127]);
      && JvmList(KeyList(c, two)) == JvmList(KeyList(c, quote)) && KeyList(c, two) != KeyList(c, quote)
      && ArrivalOf(true, two) == ArrivalOf(true, quote) == Arrives(quote)
      && JvmList(KeyList(c, one)) != JvmList(KeyList(c, quote))
      && ArrivalOf(true, one) == Lost
  {
    var quote: Text, two: Text, one: Text := [0x27], [0x127, 0x127], [0x127];
    assert |two| != |quote|;
    hide KeyList, JvmList, Bytes, Doubled, ArrivalOf;
    QuoteBytes();
    QuoteArrivals();
    PassphrasesCollide(c, two, quote);
    PassphrasesCollide(c, one, quote);
    KeyListTellsPassphrase(c, two, quote);
  }

  lemma QuoteArrivals()
    ensures var quote := Passphrase([0x27]);
      ArrivalOf(true, Passphrase([0x127, 0x127])) == ArrivalOf(true, quote) == Arrives(quote)
    ensures ArrivalOf(true, Passphrase([0x127])) == Lost
  {
    var quote: Text, two: Text, one: Text := [0x27], [0x127, 0x127], [0x127];
    assert one[1..] == [];
    assert EndsOdd(one, false) && CutAt(one, false) == None;
    assert IsExactKey(Passphrase(quote)) && IsWhole(Passphrase(quote));
    QuoteBytes();
    SameCarriedLiteral(two, quote);
    hide Bytes, Doubled, ReadValue, IsExactKey, FollowOf, Printed;
    ArrivesExact(true, Passphrase(quote));
    PassphraseArrival(one);
  }

  /** An Arabic word, which is sent as `'3D'E'`. */
  const WORD: Text := [0x633, 0x644, 0x627, 0x645]

  /** The engine takes it for `3D` and then fails at what follows. */
  lemma WordIsCutOff()
    ensures ArrivalOf(true, Passphrase(WORD)) == CutOff(Passphrase(Ascii("3D")))
  {
    SentWord();
    WordIsRead([QUOTE, 0x33, 0x44, QUOTE, 0x45, QUOTE]);
    hide Carried, Doubled, Printed, ReadValue, WORD;
    assert ReadValue(Carried(Printed(WORD))) == ActsThenFails(Ascii("3D"));
  }

  lemma WordIsRead(t: Text)
    requires t == [QUOTE, 0x33, 0x44, QUOTE, 0x45, QUOTE]
    ensures ReadValue(t) == ActsThenFails(Ascii("3D"))
  {
    assert t[1..] == [0x33, 0x44, QUOTE, 0x45, QUOTE];
    hide LexString, FollowOf;
    WordIsLexed(t[1..]);
    ReadOpened(t);
  }

  lemma SentWord()
    ensures Carried(Printed(WORD)) == [QUOTE, 0x33, 0x44, QUOTE, 0x45, QUOTE]
  {
    DoubledAbsent(WORD, QUOTE);
    assert Printed(WORD) == [QUOTE, 0x633, 0x644, 0x627, 0x645, QUOTE];
  }

  lemma WordIsLexed(t: Text)
    requires t == [0x33, 0x44, QUOTE, 0x45, QUOTE]
    ensures LexString(t, QUOTE) == Some(Lexed(Ascii("3D"), [0x45, QUOTE]))
    ensures FollowOf([0x45, QUOTE]) == GoesOn
  {
    assert t[1..] == [0x44, QUOTE, 0x45, QUOTE] && t[2..] == [QUOTE, 0x45, QUOTE] && t[3..] == [0x45, QUOTE];
    assert t[1..][1..] == t[2..] && t[2..][1..] == t[3..];
    assert LexString(t[2..], QUOTE) == Some(Lexed([], [0x45, QUOTE]));
    assert LexString(t[1..], QUOTE) == Some(Lexed([0x44] + [], [0x45, QUOTE]));
    assert LexString(t, QUOTE) == Some(Lexed([0x33] + ([0x44] + []), [0x45, QUOTE]));
    assert Ascii("3D") == [0x33] + ([0x44] + []);
  }

  /** A unit that becomes a quote before a comment: sent as `''--'`, this is the empty key. */
  lemma CommentIsEmptyKey()
    ensures ArrivalOf(true, Passphrase([0x127, 0x2D, 0x2D])) == Arrives(EMPTY_KEY)
  {
    CommentSent();
    hide Carried, Doubled, Printed, LexString, FollowOf;
    CommentIsLexed([QUOTE, 0x2D, 0x2D, QUOTE]);
  }

  lemma CommentSent()
    ensures var t := Carried(Printed([0x127, 0x2D, 0x2D]));
      t != [] && t[0] == QUOTE && t[1..] == [QUOTE, 0x2D, 0x2D, QUOTE]
  {
    var v: Text := [0x127, 0x2D, 0x2D];
    DoubledAbsent(v, QUOTE);
    CarriedLiteral(v);
  }

  lemma CommentIsLexed(t: Text)
    requires t == [QUOTE, 0x2D, 0x2D, QUOTE]
    ensures LexString(t, QUOTE) == Some(Lexed([], [0x2D, 0x2D, QUOTE]))
    ensures FollowOf([0x2D, 0x2D, QUOTE]) == Ends
  {
    var rest: Text := [0x2D, 0x2D, QUOTE];
    assert t[1..] == rest && rest[2..] == [QUOTE] && [QUOTE][1..] == [];
    assert SkipLine([QUOTE]) == SkipLine([]) == [];
  }

  /** A unit of low byte 0 ends the statement inside the literal. */
  lemma ZeroIsLost(c: CodeUnit, before: Text, after: Text)
    requires ToByte(c) == NUL && QUOTE !in Carried(before)
    ensures ArrivalOf(true, Passphrase(before + [c] + after)) == Lost
    decreases |before|
  {
    hide FollowOf, ReadValue;
    ZeroIsNotClosed(c, before, after);
    PassphraseArrival(before + [c] + after);
  }

  lemma {:induction false} ZeroIsNotClosed(c: CodeUnit, before: Text, after: Text)
    requires ToByte(c) == NUL && QUOTE !in Carried(before)
    ensures !Closes(before + [c] + after, false)
    decreases |before|
  {
    var v := before + [c] + after;
    BeforeStep(v, false);
    if before != [] {
      assert Carried(before)[0] == FromByte(ToByte(before[0])) && Carried(before)[0] in Carried(before);
      assert ToByte(before[0]) != QUOTE;
      assert v[1..] == before[1..] + [c] + after;
      assert Carried(before)[1..] == Carried(before[1..]);
      ZeroIsNotClosed(c, before[1..], after);
    }
  }

  /** Such as the ideograph at 0x4E00, which natively arrives. */
  lemma IdeographIsLost()
    ensures ArrivalOf(true, Passphrase([0x4E00])) == Lost
    ensures ArrivalOf(false, Passphrase([0x4E00])) == Arrives(Passphrase([0x4E00]))
  {
    hide ReadValue;
    var v: Text := [0x4E00];
    assert [] + [0x4E00] + [] == v;
    ZeroIsLost(0x4E00, [], []);
    NativeArrival(Passphrase(v));
  }
}
