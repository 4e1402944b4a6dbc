/**
 * The Base64 codec the driver takes from its encoding library: section 4 of RFC 4648, with a
 * streaming encoder that can be flushed and a decoder that skips white space.
 */
module Base64 {
  import opened Wrappers
  import opened Texts

  type Byte = b: int | 0 <= b < 0x100
  type Sextet = s: int | 0 <= s < 64

  const PAD: CodeUnit := Unit('=')

  function Symbol(v: Sextet): CodeUnit {
    if v < 26 then 0x41 + v
    else if v < 52 then 0x61 + (v - 26)
    else if v < 62 then 0x30 + (v - 52)
    else if v == 62 then 0x2B
    else 0x2F
  }

  function SymbolValue(u: CodeUnit): Option<Sextet> {
    if 0x41 <= u <= 0x5A then Some(u - 0x41)
    else if 0x61 <= u <= 0x7A then Some(u - 0x61 + 26)
    else if 0x30 <= u <= 0x39 then Some(u - 0x30 + 52)
    else if u == 0x2B then Some(62)
    else if u == 0x2F then Some(63)
    else None
  }

  /** What the encoder can emit: a symbol of the alphabet or the pad. */
  predicate IsEncodeUnit(u: CodeUnit) {
    SymbolValue(u).Some? || u == PAD
  }

  function EncodeBlock(a: Byte, b: Byte, c: Byte): Text {
    [Symbol(a / 4), Symbol((a % 4) * 16 + b / 16), Symbol((b % 16) * 4 + c / 64), Symbol(c % 64)]
  }

  function Encode(bytes: seq<Byte>): Text
  {
    match |bytes|
    case 0 => []
    case 1 => [Symbol(bytes[0] / 4), Symbol((bytes[0] % 4) * 16), PAD, PAD]
    case 2 =>
      [Symbol(bytes[0] / 4), Symbol((bytes[0] % 4) * 16 + bytes[1] / 16), Symbol((bytes[1] % 16) * 4), PAD]
    case _ => EncodeBlock(bytes[0], bytes[1], bytes[2]) + Encode(bytes[3..])
  }

  lemma {:induction false} EncodeUnits(bytes: seq<Byte>)
    ensures forall u :: u in Encode(bytes) ==> IsEncodeUnit(u)
    ensures Encode(bytes) == [] <==> bytes == []
    decreases |bytes|
  {
    forall v: Sextet
      ensures IsEncodeUnit(Symbol(v))
    {
      SymbolRoundTrip(v);
    }
    if |bytes| >= 3 {
      EncodeUnits(bytes[3..]);
    }
  }

  /** Whole blocks are encoded independently of what follows them. */
  lemma {:induction false} EncodeAppend(a: seq<Byte>, b: seq<Byte>)
    requires |a| % 3 == 0
    ensures Encode(a + b) == Encode(a) + Encode(b)
    decreases |a|
  {
    if a == [] {
      assert a + b == b;
    } else {
      assert (a + b)[3..] == a[3..] + b;
      EncodeAppend(a[3..], b);
    }
  }

  lemma EncodeNothing()
    ensures Encode([]) == []
  {}

  lemma EncodeFullBlock(before: Text, whole: seq<Byte>, block: seq<Byte>)
    requires |whole| % 3 == 0 && |block| == 3
    ensures before + Encode(whole + block) == before + Encode(whole) + Encode(block)
  {
    EncodeAppend(whole, block);
  }

  /******* Decoding *******/

  predicate IsLenient(u: CodeUnit) {
    u in {0x09, 0x0A, 0x0D, 0x20}
  }

  function Squeeze(t: Text): Text {
    if t == [] then []
    else if IsLenient(t[0]) then Squeeze(t[1..])
    else [t[0]] + Squeeze(t[1..])
  }

  /** Four sextets carry three bytes. */
  function JoinSextets(s0: Sextet, s1: Sextet, s2: Sextet, s3: Sextet): seq<Byte> {
    [s0 * 4 + s1 / 16, (s1 % 16) * 16 + s2 / 4, (s2 % 4) * 64 + s3]
  }

  /** Two or three left over symbols carry one or two bytes; a single one is malformed. */
  function DecodeTail(t: Text): Option<seq<Byte>>
    requires |t| < 4
  {
    if t == [] then Some([])
    else if |t| == 1 || SymbolValue(t[0]).None? || SymbolValue(t[1]).None? then None
    else if |t| == 2 then Some(JoinSextets(SymbolValue(t[0]).value, SymbolValue(t[1]).value, 0, 0)[..1])
    else if SymbolValue(t[2]).None? then None
    else Some(JoinSextets(SymbolValue(t[0]).value, SymbolValue(t[1]).value, SymbolValue(t[2]).value, 0)[..2])
  }

  /** The symbols before the padding. */
  function DecodeSymbols(t: Text): Option<seq<Byte>> {
    if |t| < 4 then DecodeTail(t)
    else if exists i :: 0 <= i < 4 && SymbolValue(t[i]).None? then None
    else
      match DecodeSymbols(t[4..])
      case None => None
      case Some(rest) =>
        Some(JoinSextets(SymbolValue(t[0]).value, SymbolValue(t[1]).value,
                         SymbolValue(t[2]).value, SymbolValue(t[3]).value) + rest)
  }

  function Decode(t: Text): Result<seq<Byte>> {
    var s := Squeeze(t);
    var i := IndexOf(s, PAD);
    if exists u :: u in s[i..] && u != PAD then Err(Encoding)
    else
      match DecodeSymbols(s[..i])
      case None => Err(Encoding)
      case Some(bytes) => Ok(bytes)
  }

  lemma {:induction false} SqueezeBreaks(t: Text, s: Text)
    requires Without(t, 0x0A) == s
    requires forall u :: u in s ==> IsEncodeUnit(u)
    ensures Squeeze(t) == s
    decreases |t|
  {
    if t != [] {
      if t[0] == 0x0A {
        SqueezeBreaks(t[1..], s);
      } else {
        assert t[0] in s;
        SqueezeBreaks(t[1..], s[1..]);
      }
    }
  }

  lemma SymbolRoundTrip(v: Sextet)
    ensures SymbolValue(Symbol(v)) == Some(v)
    ensures Symbol(v) != PAD
  {}

  /** `t` is symbols that decode to `bytes`, followed by nothing but padding. */
  ghost predicate Encodes(t: Text, bytes: seq<Byte>) {
    && (forall u :: u in t[IndexOf(t, PAD)..] ==> u == PAD)
    && DecodeSymbols(t[..IndexOf(t, PAD)]) == Some(bytes)
  }

  lemma EncodeShapeOne(a: Byte)
    ensures Encodes(Encode([a]), [a])
  {
    var t := Encode([a]);
    SymbolRoundTrip(a / 4);
    SymbolRoundTrip((a % 4) * 16);
    JoinSplit(a, 0, 0);
    assert t[..2] == [Symbol(a / 4), Symbol((a % 4) * 16)];
    assert JoinSextets(a / 4, (a % 4) * 16, 0, 0)[..1] == [a];
    assert t == t[..2] + [PAD] + [PAD];
    IndexOfFirst(t[..2], PAD, [PAD]);
  }

  lemma EncodeShapeTwo(a: Byte, b: Byte)
    ensures Encodes(Encode([a, b]), [a, b])
  {
    var t := Encode([a, b]);
    SymbolRoundTrip(a / 4);
    SymbolRoundTrip((a % 4) * 16 + b / 16);
    SymbolRoundTrip((b % 16) * 4);
    JoinSplit(a, b, 0);
    assert t[..3] == [Symbol(a / 4), Symbol((a % 4) * 16 + b / 16), Symbol((b % 16) * 4)];
    assert JoinSextets(a / 4, (a % 4) * 16 + b / 16, (b % 16) * 4, 0)[..2] == [a, b];
    assert t == t[..3] + [PAD] + [];
    IndexOfFirst(t[..3], PAD, []);
  }

  lemma JoinSplit(a: Byte, b: Byte, c: Byte)
    ensures JoinSextets(a / 4, (a % 4) * 16 + b / 16, (b % 16) * 4 + c / 64, c % 64) == [a, b, c]
  {}

  lemma DecodeBlock(a: Byte, b: Byte, c: Byte, rest: Text)
    requires DecodeSymbols(rest).Some?
    ensures DecodeSymbols(EncodeBlock(a, b, c) + rest) == Some([a, b, c] + DecodeSymbols(rest).value)
  {
    var t := EncodeBlock(a, b, c) + rest;
    SymbolRoundTrip(a / 4);
    SymbolRoundTrip((a % 4) * 16 + b / 16);
    SymbolRoundTrip((b % 16) * 4 + c / 64);
    SymbolRoundTrip(c % 64);
    JoinSplit(a, b, c);
    assert t[4..] == rest;
  }

  lemma EncodesBlock(a: Byte, b: Byte, c: Byte, rest: Text, bytes: seq<Byte>)
    requires Encodes(rest, bytes)
    ensures Encodes(EncodeBlock(a, b, c) + rest, [a, b, c] + bytes)
  {
    var head := EncodeBlock(a, b, c);
    var t := head + rest;
    var j := IndexOf(rest, PAD);
    IndexOfSkip(head, rest, PAD);
    assert t[4 + j..] == rest[j..];
    assert t[..4 + j] == head + rest[..j];
    DecodeBlock(a, b, c, rest[..j]);
  }

  lemma {:induction false} EncodeShape(bytes: seq<Byte>)
    ensures Encodes(Encode(bytes), bytes)
    decreases |bytes|
  {
    if bytes == [] {
    } else if |bytes| == 1 {
      assert bytes == [bytes[0]];
      EncodeShapeOne(bytes[0]);
    } else if |bytes| == 2 {
      assert bytes == [bytes[0], bytes[1]];
      EncodeShapeTwo(bytes[0], bytes[1]);
    } else {
      EncodeShape(bytes[3..]);
      EncodesBlock(bytes[0], bytes[1], bytes[2], Encode(bytes[3..]), bytes[3..]);
      assert bytes == [bytes[0], bytes[1], bytes[2]] + bytes[3..];
    }
  }

  lemma {:induction false} IndexOfSkip(a: Text, b: Text, u: CodeUnit)
    requires u !in a
    ensures IndexOf(a + b, u) == |a| + IndexOf(b, u)
    decreases |a|
  {
    if a == [] {
      assert a + b == b;
    } else {
      assert (a + b)[1..] == a[1..] + b;
      IndexOfSkip(a[1..], b, u);
    }
  }

  /** Decoding undoes encoding, wherever line breaks were inserted in between. */
  lemma DecodeEncode(bytes: seq<Byte>, t: Text)
    requires Without(t, 0x0A) == Encode(bytes)
    ensures Decode(t) == Ok(bytes)
  {
    EncodeUnits(bytes);
    SqueezeBreaks(t, Encode(bytes));
    EncodeShape(bytes);
  }

  /******* The alphabet *******/

  /** Table 1 of RFC 4648. */
  const ALPHABET: string := "ABCDEFGHIJKLMNOPQRSTUVWXYZ" + "abcdefghijklmnopqrstuvwxyz" + "0123456789+/"

  /** The v-th symbol of the alphabet. */
  function Letter(v: Sextet): CodeUnit {
    Unit(ALPHABET[v])
  }

  /** The first three bytes, missing ones being 0. */
  function GroupNumber(bytes: seq<Byte>): (n: int)
    requires bytes != []
    ensures 0 <= n < 0x100_0000
  {
    var b: int, c: int := if |bytes| > 1 then bytes[1] else 0, if |bytes| > 2 then bytes[2] else 0;
    bytes[0] as int * 0x1_0000 + b * 0x100 + c
  }

  lemma SextetsOf(a: Byte, b: Byte, c: Byte)
    ensures var n := a as int * 0x1_0000 + b as int * 0x100 + c as int;
      && n / 0x4_0000 == a / 4 && n / 0x1000 % 64 == (a % 4) * 16 + b / 16
      && n / 64 % 64 == (b % 16) * 4 + c / 64 && n % 64 == c % 64
  {
    var a1: int, a0: int, b1: int, b0: int, c1: int, c0: int := a / 4, a % 4, b / 16, b % 16, c / 64, c % 64;
    assert a as int == 4 * a1 + a0 && b as int == 16 * b1 + b0 && c as int == 64 * c1 + c0;
    FourSextets(a1, a0 * 16 + b1, b0 * 4 + c1, c0);
  }

  lemma FourSextets(s0: int, s1: int, s2: int, s3: int)
    requires 0 <= s0 < 64 && 0 <= s1 < 64 && 0 <= s2 < 64 && 0 <= s3 < 64
    ensures var n := s0 * 0x4_0000 + s1 * 0x1000 + s2 * 64 + s3;
      n / 0x4_0000 == s0 && n / 0x1000 % 64 == s1 && n / 64 % 64 == s2 && n % 64 == s3
  {
    var n := s0 * 0x4_0000 + s1 * 0x1000 + s2 * 64 + s3;
    assert n / 64 == s0 * 0x1000 + s1 * 64 + s2;
    assert n / 0x1000 == s0 * 64 + s1;
  }

  /**
   * Each group of up to three bytes is a number of 24 bits, written as four letters of six bits
   * each, highest first; what the last group has no bits for is padding.
   */
  lemma EncodedGroup(bytes: seq<Byte>)
    requires bytes != []
    ensures var n := GroupNumber(bytes);
      Encode(bytes)
      == [Letter(n / 0x4_0000), Letter(n / 0x1000 % 64),
          if |bytes| > 1 then Letter(n / 64 % 64) else PAD, if |bytes| > 2 then Letter(n % 64) else PAD]
       + Encode(if |bytes| > 3 then bytes[3..] else [])
  {
    hide Symbol, Letter;
    var b, c := if |bytes| > 1 then bytes[1] else 0, if |bytes| > 2 then bytes[2] else 0;
    SextetsOf(bytes[0], b, c);
    SymbolIsLetter(bytes[0] / 4);
    SymbolIsLetter((bytes[0] % 4) * 16 + b / 16);
    SymbolIsLetter((b % 16) * 4 + c / 64);
    SymbolIsLetter(c % 64);
    EncodeNothing();
    if |bytes| == 3 {
      assert bytes[3..] == [];
    }
  }

  lemma SymbolIsLetter(v: Sextet)
    ensures Symbol(v) == Letter(v)
  {
    if v < 26 {
      assert ALPHABET[v] == "ABCDEFGHIJKLMNOPQRSTUVWXYZ"[v];
    } else if v < 52 {
      assert ALPHABET[v] == "abcdefghijklmnopqrstuvwxyz"[v - 26];
    } else {
      assert ALPHABET[v] == "0123456789+/"[v - 52];
    }
  }

  predicate IsLetter(u: CodeUnit) {
    exists v: Sextet :: u == Letter(v)
  }

  lemma SymbolsAreLetters(u: CodeUnit)
    ensures SymbolValue(u).Some? <==> IsLetter(u)
  {
    hide Letter;
    if SymbolValue(u).Some? {
      SymbolIsLetter(SymbolValue(u).value);
      SymbolOfValue(u);
    }
    if IsLetter(u) {
      var v: Sextet :| u == Letter(v);
      SymbolIsLetter(v);
      SymbolRoundTrip(v);
    }
  }

  lemma SymbolOfValue(u: CodeUnit)
    requires SymbolValue(u).Some?
    ensures Symbol(SymbolValue(u).value) == u
  {}

  predicate AllSymbols(t: Text) {
    forall u :: u in t ==> SymbolValue(u).Some?
  }

  lemma DecodesTail(t: Text)
    requires |t| < 4
    ensures DecodeTail(t).Some? <==> |t| != 1 && AllSymbols(t)
  {
    hide SymbolValue, JoinSextets;
    assert forall i :: 0 <= i < |t| ==> t[i] in t;
    assert |t| == 2 ==> t == [t[0], t[1]];
    assert |t| == 3 ==> t == [t[0], t[1], t[2]];
  }

  lemma DecodesBlock(t: Text)
    requires |t| >= 4
    ensures DecodeSymbols(t).Some? <==> DecodeSymbols(t[4..]).Some? && AllSymbols(t[..4])
  {
    hide SymbolValue, JoinSextets;
    assert forall i :: 0 <= i < 4 ==> t[..4][i] == t[i];
  }

  lemma AllSymbolsConcat(a: Text, b: Text)
    ensures AllSymbols(a + b) <==> AllSymbols(a) && AllSymbols(b)
  {
    hide SymbolValue;
    assert forall u :: u in a + b <==> u in a || u in b;
  }

  lemma DecodesShort(t: Text)
    requires |t| < 4
    ensures DecodeSymbols(t).Some? <==> |t| % 4 != 1 && AllSymbols(t)
  {
    DecodesTail(t);
    hide DecodeTail, AllSymbols;
  }

  lemma {:induction false} DecodesSymbols(t: Text)
    ensures DecodeSymbols(t).Some? <==> |t| % 4 != 1 && AllSymbols(t)
    decreases |t|
  {
    hide AllSymbols, DecodeSymbols;
    if |t| < 4 {
      DecodesShort(t);
    } else {
      var rest := t[4..];
      DecodesBlock(t);
      DecodesSymbols(rest);
      AllSymbolsConcat(t[..4], rest);
      assert t == t[..4] + rest;
    }
  }

  /** A text without tabs, line feeds, carriage returns and spaces. */
  function Dense(t: Text): Text {
    Without(Without(Without(Without(t, 0x09), 0x0A), 0x0D), 0x20)
  }

  lemma {:induction false} SqueezeIsDense(t: Text)
    ensures Squeeze(t) == Dense(t)
    decreases |t|
  {
    if t != [] {
      SqueezeIsDense(t[1..]);
      DenseStep(t);
    }
  }

  lemma DenseStep(t: Text)
    requires t != []
    ensures Dense(t) == if t[0] in {0x09, 0x0A, 0x0D, 0x20} then Dense(t[1..]) else [t[0]] + Dense(t[1..])
  {
    WithoutStep(t, 0x09);
    WithoutStep(Without(t, 0x09), 0x0A);
    WithoutStep(Without(Without(t, 0x09), 0x0A), 0x0D);
    WithoutStep(Without(Without(Without(t, 0x09), 0x0A), 0x0D), 0x20);
    assert forall a: CodeUnit, x: Text :: ([a] + x)[1..] == x;
  }

  lemma WithoutStep(t: Text, drop: CodeUnit)
    ensures t != [] ==>
      Without(t, drop) == if t[0] == drop then Without(t[1..], drop) else [t[0]] + Without(t[1..], drop)
  {}

  /**
   * Exactly the texts that decode: apart from white space they are letters of the alphabet, not one
   * of them left over, and then nothing but padding.
   */
  lemma DecodesExactly(t: Text)
    ensures var s := Dense(t);
      var i := IndexOf(s, Unit('='));
      Decode(t).Ok? <==>
        (forall u :: u in s[..i] ==> IsLetter(u)) && i % 4 != 1 && (forall u :: u in s[i..] ==> u == Unit('='))
    ensures Decode(t).Err? ==> Decode(t) == Err(Encoding)
  {
    hide SymbolValue, IsLetter, Dense, Squeeze, DecodeSymbols;
    SqueezeIsDense(t);
    var s := Dense(t);
    var i := IndexOf(s, PAD);
    DecodesSymbols(s[..i]);
    forall u
      ensures SymbolValue(u).Some? <==> IsLetter(u)
    {
      SymbolsAreLetters(u);
    }
  }
}
