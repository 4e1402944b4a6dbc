/**
 * The engine's tokenizer and what its parser does with them, as far as the values of `key` and
 * `rekey` need it: where a string literal ends, and what the text after it does to the statement.
 */
module SqlTokens {
  import opened Wrappers
  import opened Texts

  /** The engine's SQL text ends at the first unit 0. */
  const NUL: CodeUnit := 0

  const DOUBLE_QUOTE: CodeUnit := Unit('"')

  predicate AtEnd(t: Text) {
    t == [] || t[0] == NUL
  }

  /** `z[i]` is `u`. */
  predicate Has(t: Text, i: nat, u: char) {
    i < |t| && t[i] == Unit(u)
  }

  /** `sqlite3Isspace`. */
  predicate IsSpace(u: CodeUnit) {
    0x09 <= u <= 0x0D || u == 0x20
  }

  predicate IsHexDigit(u: CodeUnit) {
    IsDigit(u) || 0x41 <= u <= 0x46 || 0x61 <= u <= 0x66
  }

  predicate IsLetter(u: CodeUnit) {
    0x41 <= u <= 0x5A || 0x61 <= u <= 0x7A
  }

  /** `IdChar`; every unit beyond ASCII is stored as bytes that it holds of. */
  predicate IsIdUnit(u: CodeUnit) {
    IsLetter(u) || IsDigit(u) || u == Unit('_') || u == Unit('$') || 0x80 <= u
  }

  /******* Literals *******/

  /** A string literal without its opening quote: its value, and what follows its closing quote. */
  datatype Lexed = Lexed(value: Text, rest: Text)

  function LexString(t: Text, quote: CodeUnit): Option<Lexed> {
    if AtEnd(t) then None
    else if t[0] != quote then
      match LexString(t[1..], quote)
      case None => None
      case Some(l) => Some(Lexed([t[0]] + l.value, l.rest))
    else if |t| > 1 && t[1] == quote then
      match LexString(t[2..], quote)
      case None => None
      case Some(l) => Some(Lexed([quote] + l.value, l.rest))
    else Some(Lexed([], t[1..]))
  }

  lemma DoubledNone(quote: CodeUnit)
    ensures Doubled([], quote) == []
  {}

  predicate IsPrintedSo(t: Text, quote: CodeUnit, l: Lexed) {
    && t == Doubled(l.value, quote) + [quote] + l.rest
    && NUL !in l.value
    && (l.rest != [] ==> l.rest[0] != quote)
  }

  lemma PrintedBehind(u: CodeUnit, t: Text, quote: CodeUnit, l: Lexed)
    requires u != NUL && IsPrintedSo(t, quote, l)
    ensures IsPrintedSo((if u == quote then [quote, quote] else [u]) + t, quote, Lexed([u] + l.value, l.rest))
  {
    DoubledCons(u, l.value, quote);
    hide Doubled;
  }

  /** What is read is how its value is written, and its closing quote is not doubled. */
  lemma {:induction false} LexedIsPrinted(t: Text, quote: CodeUnit)
    ensures LexString(t, quote).Some? ==> IsPrintedSo(t, quote, LexString(t, quote).value)
    decreases |t|
  {
    if !AtEnd(t) && LexString(t, quote).Some? {
      if t[0] != quote {
        LexedIsPrinted(t[1..], quote);
        hide IsPrintedSo;
        PrintedBehind(t[0], t[1..], quote, LexString(t[1..], quote).value);
        assert t == [t[0]] + t[1..];
      } else if |t| > 1 && t[1] == quote {
        LexedIsPrinted(t[2..], quote);
        hide IsPrintedSo;
        PrintedBehind(quote, t[2..], quote, LexString(t[2..], quote).value);
        assert t == [quote, quote] + t[2..];
      } else {
        DoubledNone(quote);
        assert t == [t[0]] + t[1..];
      }
    }
  }

  /** And whatever is written so is read so. */
  lemma {:induction false} LexDoubled(v: Text, quote: CodeUnit, rest: Text)
    requires quote != NUL && (rest != [] ==> rest[0] != quote)
    ensures LexString(Doubled(v, quote) + [quote] + rest, quote) == if NUL in v then None else Some(Lexed(v, rest))
    decreases |v|
  {
    var t := Doubled(v, quote) + [quote] + rest;
    hide Doubled;
    if v == [] {
      DoubledNone(quote);
      assert t == [quote] + rest;
    } else {
      var tail := Doubled(v[1..], quote) + [quote] + rest;
      LexDoubled(v[1..], quote, rest);
      DoubledCons(v[0], v[1..], quote);
      assert v == [v[0]] + v[1..];
      if v[0] == quote {
        assert t == [quote, quote] + tail && t[2..] == tail;
      } else {
        assert t == [v[0]] + tail && t[1..] == tail;
      }
    }
  }

  /******* What follows a literal *******/

  /** The first token after a complete pragma: none, one that no token begins with, or any other. */
  datatype Follow = Ends | Illegal | GoesOn

  /** The text from the first unit that `holds` is false of. */
  function SkipWhile(t: Text, holds: CodeUnit -> bool): (r: Text)
    ensures |r| <= |t|
  {
    if t != [] && holds(t[0]) then SkipWhile(t[1..], holds) else t
  }

  /** The rest of a `--` comment's line. */
  function SkipLine(t: Text): (r: Text)
    ensures |r| <= |t|
  {
    if AtEnd(t) || t[0] == 0x0A then t else SkipLine(t[1..])
  }

  /** The text after the first asterisk and slash; a comment that is not closed goes to the end. */
  function SkipBlock(t: Text): (r: Text)
    ensures |r| <= |t|
  {
    if AtEnd(t) then t
    else if Has(t, 0, '*') && Has(t, 1, '/') then t[2..]
    else SkipBlock(t[1..])
  }

  /** Digits and their separator, then. */
  function SkipDigits(t: Text): (r: Text)
    ensures |r| <= |t|
  {
    SkipWhile(t, (u: CodeUnit) => IsDigit(u) || u == Unit('_'))
  }

  function SkipExponent(t: Text): (r: Text)
    ensures |r| <= |t|
  {
    if !Has(t, 0, 'e') && !Has(t, 0, 'E') then t
    else if |t| > 1 && IsDigit(t[1]) then SkipDigits(t[2..])
    else if (Has(t, 1, '+') || Has(t, 1, '-')) && |t| > 2 && IsDigit(t[2]) then SkipDigits(t[2..])
    else t
  }

  /** What is left after a number that begins the text. */
  function SkipNumber(t: Text): (r: Text)
    ensures |r| <= |t|
  {
    if Has(t, 0, '0') && (Has(t, 1, 'x') || Has(t, 1, 'X')) && |t| > 2 && IsHexDigit(t[2]) then
      SkipWhile(t[3..], (u: CodeUnit) => IsHexDigit(u) || u == Unit('_'))
    else
      var whole := SkipDigits(t);
      SkipExponent(if Has(whole, 0, '.') then SkipDigits(whole[1..]) else whole)
  }

  predicate NumberIsLegal(t: Text) {
    var rest := SkipNumber(t);
    rest == [] || !IsIdUnit(rest[0])
  }

  /** A variable after its first unit; `named` says whether it has a name so far. */
  predicate VariableIsLegal(t: Text, named: bool) {
    if AtEnd(t) then named
    else if IsIdUnit(t[0]) then VariableIsLegal(t[1..], true)
    else if Has(t, 0, '(') && named then
      Has(SkipWhile(t[1..], (u: CodeUnit) => u != NUL && !IsSpace(u) && u != Unit(')')), 0, ')')
    else if Has(t, 0, ':') && Has(t, 1, ':') then VariableIsLegal(t[2..], named)
    else named
  }

  /** A blob literal after its `x'`. */
  predicate BlobIsLegal(t: Text) {
    var rest := SkipWhile(t, IsHexDigit);
    Has(rest, 0, '\'') && (|t| - |rest|) % 2 == 0
  }

  predicate IsQuoted(t: Text, close: CodeUnit) {
    LexString(t, close).Some?
  }

  /** An identifier in brackets after the opening one. */
  predicate BracketIsLegal(t: Text) {
    !AtEnd(t) && (Has(t, 0, ']') || BracketIsLegal(t[1..]))
  }

  /** Whether the text, which is neither at its end nor at white space, begins with a legal token. */
  predicate TokenIsLegal(t: Text)
    requires !AtEnd(t)
  {
    var u := t[0];
    if u == QUOTE || u == DOUBLE_QUOTE || u == Unit('`') then IsQuoted(t[1..], u)
    else if u == Unit('[') then BracketIsLegal(t[1..])
    else if u == Unit('!') then Has(t, 1, '=')
    else if IsDigit(u) || (u == Unit('.') && |t| > 1 && IsDigit(t[1])) then NumberIsLegal(t)
    else if u in {Unit('$'), Unit('@'), Unit('#'), Unit(':')} then VariableIsLegal(t[1..], false)
    else if (u == Unit('x') || u == Unit('X')) && Has(t, 1, '\'') then BlobIsLegal(t[2..])
    else 0x20 < u && u !in {Unit('\\'), Unit(']'), Unit('^'), Unit('{'), Unit('}'), 0x7F}
  }

  const BYTE_ORDER_MARK: CodeUnit := 0xFEFF

  /**
   * What comes after a complete pragma. White space and comments are skipped, and a semicolon ends
   * the statement whatever follows it.
   */
  function FollowOf(t: Text): Follow
    decreases |t|
  {
    if AtEnd(t) || t[0] == Unit(';') then Ends
    else if IsSpace(t[0]) && t[0] != 0x0B then FollowOf(SkipWhile(t[1..], IsSpace))
    else if t[0] == BYTE_ORDER_MARK then FollowOf(t[1..])
    else if Has(t, 0, '-') && Has(t, 1, '-') then FollowOf(SkipLine(t[2..]))
    else if Has(t, 0, '/') && Has(t, 1, '*') && !AtEnd(t[2..]) then FollowOf(SkipBlock(t[2..]))
    else if TokenIsLegal(t) then GoesOn
    else Illegal
  }

  /******* The value of a pragma *******/

  /**
   * What the engine makes of the value of `key` or `rekey`. A literal that is not closed, or that
   * no token can follow, is refused before anything happens. When another token follows, the
   * pragma takes effect and the statement fails at that token.
   */
  datatype Reading = Refused | ActsThenFails(value: Text) | Accepted(value: Text)

  function ReadValue(t: Text): Reading {
    if t == [] || (t[0] != QUOTE && t[0] != DOUBLE_QUOTE) then Refused
    else
      match LexString(t[1..], t[0])
      case None => Refused
      case Some(l) =>
        match FollowOf(l.rest)
        case Ends => Accepted(l.value)
        case Illegal => Refused
        case GoesOn => ActsThenFails(l.value)
  }

  /** A printed literal is accepted with its value, unless that holds the unit 0. */
  lemma PrintedIsRead(v: Text, quote: CodeUnit)
    requires quote == QUOTE || quote == DOUBLE_QUOTE
    ensures ReadValue([quote] + Doubled(v, quote) + [quote]) == if NUL in v then Refused else Accepted(v)
  {
    var t := [quote] + Doubled(v, quote) + [quote];
    LexDoubled(v, quote, []);
    assert t[1..] == Doubled(v, quote) + [quote] + [];
  }

  /** Doubling loses nothing. */
  lemma {:induction false} DoubledInjective(v: Text, w: Text, quote: CodeUnit)
    ensures Doubled(v, quote) == Doubled(w, quote) <==> v == w
    decreases |v|
  {
    if v != [] && w != [] {
      DoubledInjective(v[1..], w[1..], quote);
      var a, b := Doubled(v[1..], quote), Doubled(w[1..], quote);
      if Doubled(v, quote) == Doubled(w, quote) {
        assert Doubled(v, quote)[0] == v[0] && Doubled(w, quote)[0] == w[0];
        var n := if v[0] == quote then 2 else 1;
        assert Doubled(v, quote)[n..] == a && Doubled(w, quote)[n..] == b;
        assert v == [v[0]] + v[1..] && w == [w[0]] + w[1..];
      }
    }
  }
}
