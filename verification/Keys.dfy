/** Encryption keys and the SQL literals they are printed as. */
module Keys {
  import opened Wrappers
  import opened Texts
  import opened SqlTokens
  import opened Base64
  import opened LineBreaks
  import opened Transport
  import opened Ciphers

  /** A passphrase, or the hex digits of an already derived key and its optional salt. */
  datatype Key = Key(value: Text, isRaw: bool)

  const EMPTY_KEY := Key([], false)

  function Passphrase(value: Text): Key {
    Key(value, false)
  }

  /******* Base16, section 8 of RFC 4648 *******/

  type Nibble = n: int | 0 <= n < 16

  function HexUnit(n: Nibble): CodeUnit {
    if n < 10 then 0x30 + n else 0x41 + (n - 10)
  }

  function HexValue(u: CodeUnit): Option<Nibble> {
    if 0x30 <= u <= 0x39 then Some(u - 0x30)
    else if 0x41 <= u <= 0x46 then Some(u - 0x41 + 10)
    else if 0x61 <= u <= 0x66 then Some(u - 0x61 + 10)
    else None
  }

  function Hex(bytes: seq<Byte>): (t: Text)
    ensures |t| == 2 * |bytes|
    ensures forall u :: u in t ==> HexValue(u).Some?
  {
    if bytes == [] then []
    else [HexUnit(bytes[0] / 16), HexUnit(bytes[0] % 16)] + Hex(bytes[1..])
  }

  function UnHex(t: Text): Option<seq<Byte>> {
    if t == [] then Some([])
    else if |t| == 1 || HexValue(t[0]).None? || HexValue(t[1]).None? then None
    else
      match UnHex(t[2..])
      case None => None
      case Some(rest) => Some([HexValue(t[0]).value * 16 + HexValue(t[1]).value] + rest)
  }

  lemma NibbleRoundTrip(n: Nibble)
    ensures HexValue(HexUnit(n)) == Some(n)
  {}

  lemma {:induction false} HexRoundTrip(bytes: seq<Byte>)
    ensures UnHex(Hex(bytes)) == Some(bytes)
    decreases |bytes|
  {
    if bytes != [] {
      HexRoundTrip(bytes[1..]);
      NibbleRoundTrip(bytes[0] / 16);
      NibbleRoundTrip(bytes[0] % 16);
      hide HexValue, HexUnit;
      assert Hex(bytes)[2..] == Hex(bytes[1..]);
      assert bytes == [bytes[0]] + bytes[1..];
    }
  }

  lemma {:induction false} HexConcat(a: seq<Byte>, b: seq<Byte>)
    ensures Hex(a + b) == Hex(a) + Hex(b)
    decreases |a|
  {
    if a == [] {
      assert a + b == b;
    } else {
      assert (a + b)[1..] == a[1..] + b;
      HexConcat(a[1..], b);
    }
  }

  /** Each byte is two digits of the Base16 alphabet, table 5 of RFC 4648, the higher one first. */
  lemma {:induction false} HexDigits(bytes: seq<Byte>, i: nat)
    requires i < |bytes|
    ensures Hex(bytes)[2 * i] == Unit("0123456789ABCDEF"[bytes[i] / 16])
    ensures Hex(bytes)[2 * i + 1] == Unit("0123456789ABCDEF"[bytes[i] % 16])
    decreases |bytes|
  {
    HexUnitOfTable(bytes[0] / 16);
    HexUnitOfTable(bytes[0] % 16);
    hide HexUnit;
    if i > 0 {
      HexDigits(bytes[1..], i - 1);
      assert Hex(bytes)[2 * i] == Hex(bytes[1..])[2 * (i - 1)];
      assert Hex(bytes)[2 * i + 1] == Hex(bytes[1..])[2 * (i - 1) + 1];
    }
  }

  lemma HexUnitOfTable(n: Nibble)
    ensures HexUnit(n) == Unit("0123456789ABCDEF"[n])
  {}

  /******* Raw keys *******/

  const RAW_KEY_SIZE := 32
  const SALT_SIZE := 16

  /** `Byte.MAX_VALUE`: longer than any raw key, so that none is broken. */
  const RAW_LINE_INTERVAL := 127

  function RawKey(key: seq<Byte>, salt: Option<seq<Byte>>): Result<Key> {
    if |key| != RAW_KEY_SIZE || (salt.Some? && |salt.value| != SALT_SIZE) then Err(IllegalArgument)
    else Ok(Key(Hex(key + if salt.Some? then salt.value else []), true))
  }

  /** What `Passphrase` and `RawKey` can return. */
  predicate IsKey(k: Key) {
    k.isRaw ==> |k.value| in {64, 96} && forall u :: u in k.value ==> HexValue(u).Some?
  }

  method FeedHex(out: LineBreakFeed, bytes: array<Byte>)
    requires out.Valid()
    modifies out
    ensures out.Valid() && out.fed == old(out.fed) + Hex(bytes[..])
  {
    assert bytes[..0] == [];
    for i := 0 to bytes.Length
      invariant out.Valid() && out.fed == old(out.fed) + Hex(bytes[..i])
    {
      HexConcat(bytes[..i], [bytes[i]]);
      assert bytes[..i] + [bytes[i]] == bytes[..i + 1];
      assert Hex([bytes[i]]) == [HexUnit(bytes[i] / 16), HexUnit(bytes[i] % 16)] + Hex([]);
      out.Output(HexUnit(bytes[i] / 16));
      out.Output(HexUnit(bytes[i] % 16));
    }
    assert bytes[..bytes.Length] == bytes[..];
  }

  /** `Key.raw`: on success the caller's key bytes are zeroed when asked for, never the salt. */
  method Raw(key: array<Byte>, salt: array?<Byte>, fillKey: bool) returns (r: Result<Key>)
    modifies key
    ensures r == RawKey(old(key[..]), if salt == null then None else Some(old(salt[..])))
    ensures r.Ok? && fillKey ==> forall i :: 0 <= i < key.Length ==> key[i] == 0
    ensures !(r.Ok? && fillKey) ==> key[..] == old(key[..])
    ensures r.Ok? && salt != null ==> salt[..] == old(salt[..])
  {
    if key.Length != RAW_KEY_SIZE { return Err(IllegalArgument); }
    if salt != null && salt.Length != SALT_SIZE { return Err(IllegalArgument); }
    var out := new LineBreakFeed(RAW_LINE_INTERVAL);
    FeedHex(out, key);
    if salt != null {
      FeedHex(out, salt);
      HexConcat(key[..], salt[..]);
    } else {
      assert key[..] + [] == key[..];
    }
    ghost var all := key[..] + if salt == null then [] else salt[..];
    assert out.fed == Hex(all);
    WrappedFirstLine(out.fed, RAW_LINE_INTERVAL);
    r := Ok(Key(out.sb, true));
    if fillKey {
      for i := 0 to key.Length
        invariant forall j :: 0 <= j < i ==> key[j] == 0
        invariant salt != null ==> salt[..] == old(salt[..])
      {
        key[i] := 0;
      }
    }
  }

  /** A raw key is one line of 64 or 96 hex digits that decode to the key and then the salt. */
  lemma RawKeyDecodes(key: seq<Byte>, salt: Option<seq<Byte>>)
    requires RawKey(key, salt).Ok?
    ensures var k := RawKey(key, salt).value;
      && IsKey(k) && k.isRaw
      && |k.value| == (if salt.Some? then 96 else 64)
      && UnHex(k.value) == Some(key + if salt.Some? then salt.value else [])
      && NEW_LINE !in k.value
  {
    HexRoundTrip(key + if salt.Some? then salt.value else []);
    assert HexValue(NEW_LINE).None?;
  }

  /******* Printing *******/

  /** Raw keys exist for two ciphers only. */
  predicate Suits(k: Key, c: Cipher) {
    k.isRaw ==> c == SQLCIPHER || c == CHACHA20
  }

  /** `Key.retrieveFormatted`. */
  function RetrieveFormatted(k: Key, c: Cipher): Result<Text> {
    if !k.isRaw then Ok([QUOTE] + Doubled(k.value, QUOTE) + [QUOTE])
    else
      match c
      case SQLCIPHER => Ok([DOUBLE_QUOTE] + Ascii("x'") + k.value + Ascii("'\""))
      case CHACHA20 => Ok([QUOTE] + Ascii("raw:") + k.value + [QUOTE])
      case _ => Err(IllegalArgument)
  }

  /** The secret SQLite receives: what the printed literal denotes. */
  function Secret(k: Key, c: Cipher): Text {
    if !k.isRaw then k.value
    else if c == SQLCIPHER then Ascii("x'") + k.value + [QUOTE]
    else Ascii("raw:") + k.value
  }

  /** A key without the unit 0, which would end the statement inside its literal. */
  predicate IsWhole(k: Key) {
    NUL !in k.value
  }

  /**
   * Printing fails exactly for a raw key and a cipher that has none; otherwise SQL reads the
   * printed literal to its end and gets the secret, whatever quotes the passphrase holds, unless
   * it holds a unit 0: then nothing is read at all.
   */
  lemma FormattedDenotesSecret(k: Key, c: Cipher)
    requires IsKey(k)
    ensures RetrieveFormatted(k, c).Ok? <==> Suits(k, c)
    ensures Suits(k, c) ==>
      ReadValue(RetrieveFormatted(k, c).value) == if IsWhole(k) then Accepted(Secret(k, c)) else Refused
  {
    if Suits(k, c) {
      if !k.isRaw {
        PrintedIsRead(k.value, QUOTE);
      } else {
        assert HexValue(NUL).None?;
        var quote := if c == SQLCIPHER then DOUBLE_QUOTE else QUOTE;
        assert RetrieveFormatted(k, c).value == [quote] + Secret(k, c) + [quote];
        PlainIsRead(Secret(k, c), quote);
      }
    }
  }

  /** What the engine takes a hexadecimal secret for: the key's bytes and then the salt's. */
  datatype Extracted = Extracted(bytes: seq<Byte>, bypassesDerivation: bool)

  /** `sqlite3mcExtractRawKey` on secrets in ASCII, without the forms that hold the bytes as they are. */
  function ExtractRawKey(secret: Text): Option<Extracted> {
    var isTagged := Ascii("raw:") <= secret && |secret| > 4;
    var hex :=
      if isTagged && |secret| in {4 + 64, 4 + 96} then Some(secret[4..])
      else if !isTagged && |secret| in {64 + 3, 96 + 3} && (Has(secret, 0, 'x') || Has(secret, 0, 'X'))
              && Has(secret, 1, '\'') then Some(secret[2..|secret| - 1])
      else None;
    match hex
    case None => None
    case Some(digits) =>
      match UnHex(digits)
      case None => None
      case Some(bytes) => Some(Extracted(bytes, isTagged))
  }

  /**
   * Two ciphers take a raw key, and from its literal the engine extracts exactly the caller's bytes.
   * It is only under ChaCha20 that it then leaves out the derivation of a key.
   */
  lemma RawKeyIsExtracted(key: seq<Byte>, salt: Option<seq<Byte>>, c: Cipher)
    requires RawKey(key, salt).Ok?
    ensures var literal := RetrieveFormatted(RawKey(key, salt).value, c);
      && (literal.Ok? <==> c == SQLCIPHER || c == CHACHA20)
      && (literal.Ok? ==>
           var reading := ReadValue(literal.value);
           && reading.Accepted?
           && ExtractRawKey(reading.value)
              == Some(Extracted(key + if salt.Some? then salt.value else [], c == CHACHA20)))
  {
    var k := RawKey(key, salt).value;
    RawKeyDecodes(key, salt);
    FormattedDenotesSecret(k, c);
    if Suits(k, c) {
      assert IsWhole(k) by {
        assert HexValue(NUL).None?;
      }
      hide ReadValue, RetrieveFormatted, UnHex, Hex, HexValue;
      var s := Secret(k, c);
      if c == SQLCIPHER {
        assert s[0] == Unit('x') && s[1] == QUOTE;
        assert s[2..|s| - 1] == k.value;
      } else {
        assert s[4..] == k.value;
      }
    }
  }

  lemma PlainIsRead(v: Text, quote: CodeUnit)
    requires quote == QUOTE || quote == DOUBLE_QUOTE
    requires quote !in v && NUL !in v
    ensures ReadValue([quote] + v + [quote]) == Accepted(v)
  {
    DoubledAbsent(v, quote);
    PrintedIsRead(v, quote);
  }

  /**
   * Two keys are the same secret to a cipher exactly when they are equal, or one is raw and
   * the other is the passphrase that spells the raw key's own notation.
   */
  lemma SameSecret(k: Key, l: Key, c: Cipher)
    requires IsKey(k) && IsKey(l) && Suits(k, c) && Suits(l, c)
    ensures Secret(k, c) == Secret(l, c) <==>
      || k == l
      || (k.isRaw && l == Passphrase(Secret(k, c)))
      || (l.isRaw && k == Passphrase(Secret(l, c)))
  {
    if k.isRaw && l.isRaw && Secret(k, c) == Secret(l, c) {
      if c == SQLCIPHER {
        assert k.value == Secret(k, c)[2..|Secret(k, c)| - 1];
        assert l.value == Secret(l, c)[2..|Secret(l, c)| - 1];
      } else {
        assert k.value == Secret(k, c)[4..];
        assert l.value == Secret(l, c)[4..];
      }
    }
  }

  /** Only passphrases can hold units that the carrier of the JVM driver does not preserve. */
  predicate IsExactKey(k: Key) {
    k.isRaw || IsExact(k.value)
  }

  lemma FormattedExact(k: Key, c: Cipher)
    requires IsKey(k) && Suits(k, c)
    ensures IsExact(RetrieveFormatted(k, c).value) <==> IsExactKey(k)
  {
    var t := RetrieveFormatted(k, c).value;
    if !k.isRaw {
      DoubledUnits(k.value, QUOTE);
      assert forall u :: u in t <==> u in k.value || u == QUOTE;
    } else {
      assert forall u :: u in k.value ==> HexValue(u).Some? && IsExactUnit(u);
      assert forall u :: u in Ascii("x'") + Ascii("raw:") + Ascii("'\"") ==> IsExactUnit(u);
      assert forall u :: u in t ==>
        u in Ascii("x'") + Ascii("raw:") + Ascii("'\"") || u in k.value || u in {QUOTE, DOUBLE_QUOTE};
    }
  }

  lemma {:induction false} DoubledUnits(t: Text, quote: CodeUnit)
    ensures forall u :: u in Doubled(t, quote) <==> u in t
    decreases |t|
  {
    if t != [] {
      DoubledUnits(t[1..], quote);
    }
  }
}
