/**
 * The carrier that takes cipher statements through JDBC: all statements are packed into one
 * "password" behind a random identifier, and unpacked when JDBC executes its `pragma key`.
 */
module Transport {
  import opened Wrappers
  import opened Texts
  import opened Base64
  import opened LineBreaks

  const DOT: CodeUnit := Unit('.')
  const LINE_INTERVAL := 64

  /******* Characters to bytes and back *******/

  /** `c.code.toByte()`, the byte written as an unsigned number. */
  function ToByte(u: CodeUnit): Byte {
    u % 0x100
  }

  /** `b.toInt().toChar()`: a byte with its high bit set is sign-extended to 16 bits. */
  function FromByte(b: Byte): CodeUnit {
    if b < 0x80 then b else 0xFF00 + b
  }

  function Bytes(t: Text): (r: seq<Byte>)
    ensures |r| == |t|
  {
    seq(|t|, i requires 0 <= i < |t| => ToByte(t[i]))
  }

  function Chars(bytes: seq<Byte>): (t: Text)
    ensures |t| == |bytes|
  {
    seq(|bytes|, i requires 0 <= i < |bytes| => FromByte(bytes[i]))
  }

  /** What becomes of a statement on its way through the bytes. */
  function Carried(t: Text): (r: Text) {
    Chars(Bytes(t))
  }

  /** The code units that survive. */
  predicate IsExactUnit(u: CodeUnit) {
    u <= 0x7F || 0xFF80 <= u
  }

  predicate IsExact(t: Text) {
    forall u :: u in t ==> IsExactUnit(u)
  }

  /** A text survives the carrier precisely when each of its units does. */
  lemma CarriedExact(t: Text)
    ensures Carried(t) == t <==> IsExact(t)
    ensures IsExact(Carried(t))
  {
    forall i | 0 <= i < |t|
      ensures Carried(t)[i] == t[i] <==> IsExactUnit(t[i])
      ensures IsExactUnit(Carried(t)[i])
    {
      CarriedUnit(t[i]);
    }
    if IsExact(t) {
      assert forall i :: 0 <= i < |t| ==> t[i] in t;
    }
  }

  lemma CarriedUnit(u: CodeUnit)
    ensures FromByte(ToByte(u)) == u <==> IsExactUnit(u)
    ensures IsExactUnit(FromByte(ToByte(u)))
  {}

  function CarriedAll(statements: seq<Text>): (r: seq<Text>)
    ensures |r| == |statements|
    ensures forall i :: 0 <= i < |r| ==> r[i] == Carried(statements[i])
  {
    seq(|statements|, i requires 0 <= i < |statements| => Carried(statements[i]))
  }

  /******* Packing *******/

  /** One statement, encoded, and the dot that ends it. */
  function Part(statement: Text): Text {
    Encode(Bytes(statement)) + [DOT]
  }

  function EncodedStatements(statements: seq<Text>): Text {
    Flattened(seq(|statements|, i requires 0 <= i < |statements| => Part(statements[i])))
  }

  function Flattened(parts: seq<Text>): Text {
    if parts == [] then [] else parts[0] + Flattened(parts[1..])
  }

  lemma {:induction false} FlattenedConcat(a: seq<Text>, b: seq<Text>)
    ensures Flattened(a + b) == Flattened(a) + Flattened(b)
    decreases |a|
  {
    if a == [] {
      assert a + b == b;
    } else {
      assert (a + b)[1..] == a[1..] + b;
      FlattenedConcat(a[1..], b);
    }
  }

  lemma EncodedNone()
    ensures EncodedStatements([]) == []
  {}

  lemma EncodedStatementsConcat(a: seq<Text>, b: seq<Text>)
    ensures EncodedStatements(a + b) == EncodedStatements(a) + EncodedStatements(b)
  {
    var pa := seq(|a|, i requires 0 <= i < |a| => Part(a[i]));
    var pb := seq(|b|, i requires 0 <= i < |b| => Part(b[i]));
    var pab := seq(|a + b|, i requires 0 <= i < |a + b| => Part((a + b)[i]));
    assert pab == pa + pb;
    FlattenedConcat(pa, pb);
  }

  lemma EncodedStatementsCons(t: Text, rest: seq<Text>)
    ensures EncodedStatements([t] + rest) == Part(t) + EncodedStatements(rest)
  {
    EncodedStatementsConcat([t], rest);
    var one := seq(1, i requires 0 <= i < 1 => Part([t][i]));
    assert one == [Part(t)];
    assert Flattened([Part(t)]) == Part(t) + Flattened([]);
  }

  lemma EncodedStatementsSnoc(a: seq<Text>, t: Text)
    ensures EncodedStatements(a + [t]) == EncodedStatements(a) + Part(t)
  {
    EncodedStatementsConcat(a, [t]);
    EncodedStatementsCons(t, []);
    assert [t] + [] == [t];
  }

  /** The value of the "password" property. */
  function Packed(keyIdentifier: Text, statements: seq<Text>): Text {
    Wrapped(keyIdentifier + EncodedStatements(statements), LINE_INTERVAL)
  }

  /** The streaming Base64 encoder: whole blocks go out at once, `Flush` pads what is left. */
  class EncoderFeed {
    const out: LineBreakFeed
    var pending: seq<Byte>
    ghost var base: Text          // what had been fed out at the last flush
    ghost var whole: seq<Byte>    // the bytes encoded since, always whole blocks

    ghost predicate Valid()
      reads this, out
    {
      && out.Valid()
      && |pending| < 3
      && |whole| % 3 == 0
      && out.fed == base + Encode(whole)
    }

    ghost function Taken(): seq<Byte>
      reads this
    {
      whole + pending
    }

    constructor (out: LineBreakFeed)
      requires out.Valid()
      ensures Valid() && this.out == out && Taken() == []
    {
      this.out := out;
      pending, base, whole := [], out.fed, [];
    }

    method Consume(b: Byte)
      requires Valid()
      modifies this, out
      ensures Valid() && Taken() == old(Taken()) + [b] && base == old(base)
    {
      hide Encode;
      if |pending| == 2 {
        var block := pending + [b];
        EncodeFullBlock(base, whole, block);
        out.OutputAll(Encode(block));
        whole := whole + block;
        pending := [];
      } else {
        pending := pending + [b];
      }
    }

    /** Pads and emits what is pending; the encoder is then as new. */
    method Flush()
      requires Valid()
      modifies this, out
      ensures Valid() && out.fed == old(base) + Encode(old(Taken()))
      ensures Taken() == []
    {
      hide Encode;
      EncodeAppend(whole, pending);
      EncodeNothing();
      out.OutputAll(Encode(pending));
      pending, base, whole := [], out.fed, [];
    }

    method PackStatement(statement: Text)
      requires Valid() && Taken() == []
      modifies this, out
      ensures Valid() && Taken() == []
      ensures out.fed == old(out.fed) + Part(statement)
    {
      base := out.fed;
      for i := 0 to |statement|
        invariant Valid() && base == old(out.fed)
        invariant Taken() == Bytes(statement[..i])
      {
        Consume(ToByte(statement[i]));
      }
      assert statement[..|statement|] == statement;
      Flush();
      out.Output(DOT);
      base := out.fed;
    }

    method PackAll(statements: seq<Text>)
      requires Valid() && Taken() == []
      modifies this, out
      ensures Valid() && Taken() == []
      ensures out.fed == old(out.fed) + EncodedStatements(statements)
    {
      hide Part, EncodedStatements, Encode, Bytes;
      EncodedNone();
      for i := 0 to |statements|
        invariant Valid() && Taken() == []
        invariant out.fed == old(out.fed) + EncodedStatements(statements[..i])
      {
        PackStatement(statements[i]);
        EncodedStatementsSnoc(statements[..i], statements[i]);
        assert statements[..i] + [statements[i]] == statements[..i + 1];
      }
      assert statements[..|statements|] == statements;
    }
  }

  /** The encoding half of `packMCSqlStatements`: key statements first, then rekey statements. */
  method PackStatements(keyIdentifier: Text, keyStatements: seq<Text>, reKeyStatements: Option<seq<Text>>)
    returns (password: Text)
    ensures password
         == Packed(keyIdentifier, keyStatements + if reKeyStatements.Some? then reKeyStatements.value else [])
  {
    hide Wrapped, Column, Encode, Bytes, EncodedStatements;
    var out := new LineBreakFeed(LINE_INTERVAL);
    out.OutputAll(keyIdentifier);
    var feed := new EncoderFeed(out);
    feed.PackAll(keyStatements);
    ghost var all := keyStatements;
    if reKeyStatements.Some? {
      feed.PackAll(reKeyStatements.value);
      EncodedStatementsConcat(keyStatements, reKeyStatements.value);
      all := all + reKeyStatements.value;
    }
    assert [] + keyIdentifier == keyIdentifier;
    assert out.fed == keyIdentifier + EncodedStatements(all);
    assert all == keyStatements + if reKeyStatements.Some? then reKeyStatements.value else [];
    password := out.sb;
  }

  /******* The statement JDBC builds *******/

  const KEY_PREFIX: Text := Ascii("pragma key =")

  /** `pragma key = '...'`, as the JDBC driver formats it for a password. */
  function PragmaKeySql(password: Text): Text {
    KEY_PREFIX + Ascii(" '") + Doubled(password, QUOTE) + [QUOTE]
  }

  /******* Unpacking *******/

  function SubstringAfter(t: Text, d: CodeUnit): Text {
    var i := IndexOf(t, d);
    if i == |t| then t else t[i + 1..]
  }

  function LastIndexOf(t: Text, d: CodeUnit): (i: int)
    ensures -1 <= i < |t|
    ensures 0 <= i ==> t[i] == d
    ensures forall k :: i < k < |t| ==> t[k] != d
  {
    if t == [] then -1
    else if t[|t| - 1] == d then |t| - 1
    else LastIndexOf(t[..|t| - 1], d)
  }

  function SubstringBeforeLast(t: Text, d: CodeUnit): Text {
    var i := LastIndexOf(t, d);
    if i < 0 then t else t[..i]
  }

  /** The `mapNotNull` over the encoded parts: blank parts and blank statements vanish. */
  function Unpacked(parts: seq<Text>): Result<seq<Text>> {
    if parts == [] then Ok([])
    else if IsBlank(parts[0]) then Unpacked(parts[1..])
    else
      match Decode(parts[0])
      case Err(_) => Err(SqlError)
      case Ok(bytes) =>
        match Unpacked(parts[1..])
        case Err(e) => Err(e)
        case Ok(rest) => if IsBlank(Chars(bytes)) then Ok(rest) else Ok([Chars(bytes)] + rest)
  }

  /** What `JDBCMC4Statement.execute` passes on to SQLite for `sql`, in order. */
  function Intercepted(keyIdentifier: Text, sql: Text): Result<seq<Text>> {
    if !StartsWithIgnoreCase(sql, KEY_PREFIX) then Ok([sql])
    else
      var value := SubstringAfter(sql, QUOTE);
      if !(keyIdentifier <= value) then Ok([sql])
      else Unpacked(Split(SubstringBeforeLast(value[|keyIdentifier|..], QUOTE), DOT))
  }

  function NonBlank(statements: seq<Text>): (r: seq<Text>)
    ensures (forall t :: t in statements ==> !IsBlank(t)) ==> r == statements
  {
    if statements == [] then []
    else if IsBlank(statements[0]) then NonBlank(statements[1..])
    else [statements[0]] + NonBlank(statements[1..])
  }

  /******* The round trip *******/

  /** No encoded text holds a unit that the framing gives a meaning to. */
  lemma EncodeUnitIsPlain(u: CodeUnit)
    requires IsEncodeUnit(u)
    ensures u != DOT && u != QUOTE && u != NEW_LINE && !IsWhitespace(u)
  {}

  lemma EncodedPlain(bytes: seq<Byte>)
    ensures DOT !in Encode(bytes) && QUOTE !in Encode(bytes) && NEW_LINE !in Encode(bytes)
    ensures IsBlank(Encode(bytes)) <==> bytes == []
  {
    var t := Encode(bytes);
    EncodeUnits(bytes);
    forall u | u in t
      ensures u != DOT && u != QUOTE && u != NEW_LINE && !IsWhitespace(u)
    {
      EncodeUnitIsPlain(u);
    }
    assert t != [] ==> t[0] in t;
  }

  lemma {:induction false} EncodedStatementsPlain(statements: seq<Text>)
    ensures QUOTE !in EncodedStatements(statements) && NEW_LINE !in EncodedStatements(statements)
    decreases |statements|
  {
    if statements != [] {
      EncodedPlain(Bytes(statements[0]));
      EncodedStatementsPlain(statements[1..]);
      EncodedStatementsCons(statements[0], statements[1..]);
      assert [statements[0]] + statements[1..] == statements;
    }
  }

  /** Wrapped or not, the parts of the packed text decode to the carried statements. */
  lemma {:induction false} UnpackParts(parts: seq<Text>, statements: seq<Text>)
    requires |parts| == |statements| + 1
    requires forall i :: 0 <= i < |statements| ==> Without(parts[i], NEW_LINE) == Encode(Bytes(statements[i]))
    requires Without(parts[|statements|], NEW_LINE) == []
    ensures Unpacked(parts) == Ok(NonBlank(CarriedAll(statements)))
    decreases |statements|
  {
    BlankWithoutBreaks(parts[0]);
    if statements == [] {
      assert parts[1..] == [];
    } else {
      var bytes := Bytes(statements[0]);
      UnpackParts(parts[1..], statements[1..]);
      assert CarriedAll(statements)[1..] == CarriedAll(statements[1..]);
      EncodedPlain(bytes);
      DecodeEncode(bytes, parts[0]);
    }
  }

  lemma BlankWithoutBreaks(t: Text)
    ensures IsBlank(t) <==> IsBlank(Without(t, NEW_LINE))
  {}

  lemma {:induction false} SplitEncoded(statements: seq<Text>)
    ensures var parts := Split(EncodedStatements(statements), DOT);
      && |parts| == |statements| + 1
      && (forall i :: 0 <= i < |statements| ==> parts[i] == Encode(Bytes(statements[i])))
      && parts[|statements|] == []
    decreases |statements|
  {
    hide Encode, Bytes;
    if statements != [] {
      var part, rest := Encode(Bytes(statements[0])), EncodedStatements(statements[1..]);
      EncodedPlain(Bytes(statements[0]));
      SplitEncoded(statements[1..]);
      SplitPart(part, DOT, rest);
      EncodedStatementsCons(statements[0], statements[1..]);
      assert [statements[0]] + statements[1..] == statements;
    }
  }

  /** What `execute` makes of a statement that bears the identifier after its first quote. */
  lemma InterceptedBody(keyIdentifier: Text, head: Text, body: Text, tail: Text)
    requires SpellsAt(head, 0, "pragma key =") && QUOTE !in head && QUOTE !in tail
    ensures Intercepted(keyIdentifier, head + [QUOTE] + (keyIdentifier + body) + [QUOTE] + tail)
         == Unpacked(Split(body, DOT))
  {
    hide Unpacked, Split, SubstringBeforeLast, StartsWithIgnoreCase;
    var value := keyIdentifier + body + [QUOTE] + tail;
    var sql := head + [QUOTE] + (keyIdentifier + body) + [QUOTE] + tail;
    assert sql == head + [QUOTE] + value;
    assert SpellsAt(sql, 0, "pragma key =");
    PragmaKeySpelled(sql);
    IndexOfFirst(head, QUOTE, value);
    assert sql[|head| + 1..] == value;
    assert value[|keyIdentifier|..] == body + [QUOTE] + tail;
    BeforeLastQuote(body, tail);
  }

  lemma PragmaKeySpelled(sql: Text)
    ensures StartsWithIgnoreCase(sql, KEY_PREFIX) <==> SpellsAt(sql, 0, "pragma key =")
  {
    StartsSpelled(sql, 0, KEY_PREFIX, "pragma key =");
    assert sql[0..] == sql;
  }

  /**
   * A statement that does not start with `pragma key =`, case aside, or that does not bear the
   * identifier after its first quote, is passed on as it stands, once.
   */
  lemma PassedOn(keyIdentifier: Text, sql: Text)
    requires !SpellsAt(sql, 0, "pragma key =")
      || ((forall k :: 0 <= k < |sql| && sql[k] == Unit('\'') && Unit('\'') !in sql[..k] ==>
             !(keyIdentifier <= sql[k + 1..]))
          && (Unit('\'') !in sql ==> !(keyIdentifier <= sql)))
    ensures Intercepted(keyIdentifier, sql) == Ok([sql])
  {
    hide StartsWithIgnoreCase, Unpacked, Split, SubstringBeforeLast, SpellsAt;
    PragmaKeySpelled(sql);
    var i := IndexOf(sql, QUOTE);
    if i == |sql| {
      assert sql[..i] == sql;
    }
  }

  /** Unpacking fails exactly when a part that is not blank does not decode, and as an SQL error. */
  lemma {:induction false} UnpackedFails(parts: seq<Text>)
    ensures Unpacked(parts).Err? <==> exists part :: part in parts && !IsBlank(part) && Decode(part).Err?
    ensures Unpacked(parts).Err? ==> Unpacked(parts) == Err(SqlError)
    decreases |parts|
  {
    hide Decode, IsBlank;
    if parts != [] {
      UnpackedFails(parts[1..]);
      assert parts == [parts[0]] + parts[1..];
      assert parts[0] in parts;
    }
  }

  /** With the identifier but a part that is no Base64, nothing is passed on. */
  lemma MalformedIsRejected(keyIdentifier: Text, head: Text, body: Text, tail: Text)
    requires SpellsAt(head, 0, "pragma key =") && QUOTE !in head && QUOTE !in tail
    ensures var r := Intercepted(keyIdentifier, head + [Unit('\'')] + (keyIdentifier + body) + [Unit('\'')] + tail);
      && (r.Err? <==> exists part :: part in Split(body, Unit('.')) && !IsBlank(part) && Decode(part).Err?)
      && (r.Err? ==> r == Err(SqlError))
  {
    hide Intercepted, Unpacked, Split, Decode, IsBlank, SpellsAt;
    InterceptedBody(keyIdentifier, head, body, tail);
    UnpackedFails(Split(body, DOT));
  }

  /**
   * Round trip: a packed list in a `pragma key` statement, however that is spelled and whatever
   * stands around the password, comes out statement by statement, in order, each carried through
   * its bytes; only blank statements are lost. It holds for every list of statements, so wherever
   * the line breaks fall.
   */
  lemma AnyCarrier(keyIdentifier: Text, head: Text, statements: seq<Text>, tail: Text)
    requires |keyIdentifier| <= LINE_INTERVAL && QUOTE !in keyIdentifier
    requires SpellsAt(head, 0, "pragma key =") && QUOTE !in head && QUOTE !in tail
    ensures Intercepted(keyIdentifier, head + [QUOTE] + Packed(keyIdentifier, statements) + [QUOTE] + tail)
         == Ok(NonBlank(CarriedAll(statements)))
  {
    hide Packed, EncodedStatements, Encode, Bytes, Unpacked, CarriedAll, Intercepted, SpellsAt;
    var password := Packed(keyIdentifier, statements);
    PackedStarts(keyIdentifier, statements);
    var body := password[|keyIdentifier|..];
    assert password == keyIdentifier + body;
    InterceptedBody(keyIdentifier, head, body, tail);
    PackedBody(keyIdentifier, statements, body);
    SplitWithout(body, DOT, NEW_LINE);
    SplitEncoded(statements);
    UnpackParts(Split(body, DOT), statements);
  }

  /** And so does the statement that JDBC makes of a password. */
  lemma CarrierRoundTrip(keyIdentifier: Text, statements: seq<Text>)
    requires |keyIdentifier| <= LINE_INTERVAL && QUOTE !in keyIdentifier
    ensures Intercepted(keyIdentifier, PragmaKeySql(Packed(keyIdentifier, statements)))
         == Ok(NonBlank(CarriedAll(statements)))
  {
    hide Packed, Intercepted;
    var password, head := Packed(keyIdentifier, statements), Ascii("pragma key = ");
    PasswordPlain(keyIdentifier, statements);
    DoubledAbsent(password, QUOTE);
    assert PragmaKeySql(password) == head + [QUOTE] + password + [QUOTE] + [];
    AnyCarrier(keyIdentifier, head, statements, []);
  }

  /** The carrier's text: the identifier, and a dot after each encoded statement, in lines of 64. */
  lemma PackedText(keyIdentifier: Text, statements: seq<Text>)
    ensures Packed(keyIdentifier, statements) == Wrapped(keyIdentifier + EncodedStatements(statements), 64)
    ensures EncodedStatements(statements)
         == if statements == [] then []
            else Encode(Bytes(statements[0])) + Ascii(".") + EncodedStatements(statements[1..])
  {
    if statements == [] {
      EncodedNone();
    } else {
      hide EncodedStatements, Encode, Bytes;
      EncodedStatementsCons(statements[0], statements[1..]);
      assert [statements[0]] + statements[1..] == statements;
      assert Ascii(".") == [DOT];
    }
  }

  /** A statement is lost on its way exactly when all its low bytes are white space of ASCII. */
  lemma BlankWhenCarried(t: Text)
    ensures IsBlank(Carried(t)) <==>
      forall u :: u in t ==> 0x09 <= u % 0x100 <= 0x0D || 0x1C <= u % 0x100 <= 0x20
  {
    if IsBlank(Carried(t)) {
      forall u | u in t
        ensures IsWhitespace(FromByte(ToByte(u)))
      {
        var i :| 0 <= i < |t| && t[i] == u;
        assert Carried(t)[i] in Carried(t);
      }
    } else {
      var i :| 0 <= i < |t| && !IsWhitespace(Carried(t)[i]);
      assert t[i] in t && Carried(t)[i] == FromByte(ToByte(t[i]));
    }
  }

  lemma PackedStarts(keyIdentifier: Text, statements: seq<Text>)
    requires |keyIdentifier| <= LINE_INTERVAL
    ensures keyIdentifier <= Packed(keyIdentifier, statements)
  {
    PackedStartsWithIdentifier(keyIdentifier, EncodedStatements(statements));
  }

  lemma BeforeLastQuote(body: Text, tail: Text)
    requires QUOTE !in tail
    ensures SubstringBeforeLast(body + [QUOTE] + tail, QUOTE) == body
  {
    var t := body + [QUOTE] + tail;
    assert t[|body|] == QUOTE;
    assert forall k :: |body| < k < |t| ==> t[k] == tail[k - |body| - 1] && t[k] in tail;
  }

  lemma PackedBody(keyIdentifier: Text, statements: seq<Text>, body: Text)
    requires keyIdentifier + body == Packed(keyIdentifier, statements)
    ensures Without(body, NEW_LINE) == EncodedStatements(statements)
  {
    var id := Without(keyIdentifier, NEW_LINE);
    UnwrapWrapped(keyIdentifier + EncodedStatements(statements), LINE_INTERVAL);
    WithoutConcat(keyIdentifier, EncodedStatements(statements), NEW_LINE);
    WithoutConcat(keyIdentifier, body, NEW_LINE);
    EncodedStatementsPlain(statements);
    WithoutAbsent(EncodedStatements(statements), NEW_LINE);
    assert id + Without(body, NEW_LINE) == id + EncodedStatements(statements);
    assert (id + Without(body, NEW_LINE))[|id|..] == (id + EncodedStatements(statements))[|id|..];
  }

  lemma PackedStartsWithIdentifier(keyIdentifier: Text, rest: Text)
    requires |keyIdentifier| <= LINE_INTERVAL
    ensures keyIdentifier <= Wrapped(keyIdentifier + rest, LINE_INTERVAL)
  {
    var fed := keyIdentifier + rest;
    WrappedFirstLine(fed, LINE_INTERVAL);
    if |fed| > LINE_INTERVAL {
      assert fed[..LINE_INTERVAL][..|keyIdentifier|] == keyIdentifier;
    }
  }

  lemma PasswordPlain(keyIdentifier: Text, statements: seq<Text>)
    requires QUOTE !in keyIdentifier
    ensures QUOTE !in Packed(keyIdentifier, statements)
  {
    var fed := keyIdentifier + EncodedStatements(statements);
    var password := Packed(keyIdentifier, statements);
    EncodedStatementsPlain(statements);
    UnwrapWrapped(fed, LINE_INTERVAL);
    assert QUOTE in password <==> QUOTE in Without(password, NEW_LINE);
  }

  /** What stands between the first quote and the end of JDBC's statement. */
  lemma PragmaKeyValue(password: Text)
    requires QUOTE !in password
    ensures StartsWithIgnoreCase(PragmaKeySql(password), KEY_PREFIX)
    ensures SubstringAfter(PragmaKeySql(password), QUOTE) == password + [QUOTE]
  {
    var sql := PragmaKeySql(password);
    var head := Ascii("pragma key = ");
    DoubledAbsent(password, QUOTE);
    assert sql == head + [QUOTE] + (password + [QUOTE]);
    IndexOfFirst(head, QUOTE, password + [QUOTE]);
  }

  /**
   * Identifier framing: the password is recognised exactly when the identifier fits on the
   * first line. A longer one is broken, and JDBC's statement reaches SQLite as it stands.
   */
  lemma IdentifierFraming(keyIdentifier: Text, statements: seq<Text>)
    requires QUOTE !in keyIdentifier && NEW_LINE !in keyIdentifier
    ensures var sql := PragmaKeySql(Packed(keyIdentifier, statements));
      keyIdentifier <= SubstringAfter(sql, QUOTE) <==> |keyIdentifier| <= LINE_INTERVAL
    ensures var sql := PragmaKeySql(Packed(keyIdentifier, statements));
      |keyIdentifier| > LINE_INTERVAL ==> Intercepted(keyIdentifier, sql) == Ok([sql])
  {
    var fed := keyIdentifier + EncodedStatements(statements);
    var password := Packed(keyIdentifier, statements);
    PasswordPlain(keyIdentifier, statements);
    PragmaKeyValue(password);
    if |keyIdentifier| <= LINE_INTERVAL {
      PackedStartsWithIdentifier(keyIdentifier, EncodedStatements(statements));
    } else {
      WrappedFirstLine(fed, LINE_INTERVAL);
      assert (fed[..LINE_INTERVAL] + [NEW_LINE])[LINE_INTERVAL] == NEW_LINE;
      assert (password + [QUOTE])[LINE_INTERVAL] == NEW_LINE;
      assert keyIdentifier[LINE_INTERVAL] in keyIdentifier;
    }
  }
}
