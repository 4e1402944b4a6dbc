/**
 * Kotlin strings. A Kotlin `Char` is a UTF-16 code unit, surrogates included, so a string is a
 * sequence of numbers below 0x10000; `Ascii` lifts a Dafny literal.
 */
module Texts {
  import opened Wrappers
  import opened Division

  type CodeUnit = u: int | 0 <= u < 0x1_0000
  type Text = seq<CodeUnit>

  function Unit(c: char): CodeUnit {
    if c as int < 0x1_0000 then c as int else 0xFFFD
  }

  function Ascii(s: string): (t: Text)
    ensures |t| == |s|
    ensures forall i :: 0 <= i < |s| ==> t[i] == Unit(s[i])
  {
    seq(|s|, i requires 0 <= i < |s| => Unit(s[i]))
  }

  ghost predicate IsBmp(s: string) {
    forall c :: c in s ==> c as int < 0x1_0000
  }

  lemma AsciiInjective(a: string, b: string)
    requires IsBmp(a) && IsBmp(b)
    requires Ascii(a) == Ascii(b)
    ensures a == b
  {
    forall i | 0 <= i < |a|
      ensures a[i] == b[i]
    {
      assert a[i] in a && b[i] in b;
      assert Unit(a[i]) == Ascii(a)[i] == Ascii(b)[i] == Unit(b[i]);
    }
  }

  lemma AsciiConcat(a: string, b: string)
    ensures Ascii(a + b) == Ascii(a) + Ascii(b)
  {}

  /******* White space *******/

  /** `Char.isWhitespace`. */
  predicate IsWhitespace(u: CodeUnit) {
    || 0x09 <= u <= 0x0D
    || 0x1C <= u <= 0x20
    || u in {0xA0, 0x1680, 0x2028, 0x2029, 0x202F, 0x205F, 0x3000}
    || 0x2000 <= u <= 0x200A
  }

  /** `CharSequence.isBlank`. */
  predicate IsBlank(t: Text) {
    forall u :: u in t ==> IsWhitespace(u)
  }

  /******* Searching and splitting *******/

  /** The position of the first `u` in `t`, or `|t|` when there is none. */
  function IndexOf(t: Text, u: CodeUnit): (i: nat)
    ensures i <= |t|
    ensures u !in t[..i]
    ensures i < |t| ==> t[i] == u
  {
    if t == [] || t[0] == u then 0
    else
      var i := IndexOf(t[1..], u) + 1;
      assert t[..i] == [t[0]] + t[1..][..i - 1];
      i
  }

  lemma IndexOfFirst(a: Text, u: CodeUnit, b: Text)
    requires u !in a
    ensures IndexOf(a + [u] + b, u) == |a|
  {
    var t := a + [u] + b;
    var i := IndexOf(t, u);
    assert forall k :: 0 <= k < |a| ==> t[k] == a[k] && a[k] in a;
    assert t[|a|] == u;
    assert forall k :: 0 <= k < i ==> t[..i][k] == t[k];
  }

  /** `String.split(delimiter)`: always at least one part. */
  function Split(t: Text, d: CodeUnit): (parts: seq<Text>)
    ensures |parts| >= 1
    decreases |t|
  {
    if t == [] then [[]]
    else
      var rest := Split(t[1..], d);
      if t[0] == d then [[]] + rest
      else [[t[0]] + rest[0]] + rest[1..]
  }

  /** A part without delimiter, followed by one, is split off as it stands. */
  lemma {:induction false} SplitPart(part: Text, d: CodeUnit, rest: Text)
    requires d !in part
    ensures Split(part + [d] + rest, d) == [part] + Split(rest, d)
    decreases |part|
  {
    var t := part + [d] + rest;
    if part == [] {
      assert t[1..] == rest;
    } else {
      assert t[1..] == part[1..] + [d] + rest;
      SplitPart(part[1..], d, rest);
      assert part == [part[0]] + part[1..];
    }
  }

  /** `t` without the units that `drop` holds of. */
  function Without(t: Text, drop: CodeUnit): (r: Text)
    ensures drop !in r
    ensures forall u :: u in r <==> u in t && u != drop
  {
    if t == [] then []
    else if t[0] == drop then Without(t[1..], drop)
    else [t[0]] + Without(t[1..], drop)
  }

  lemma {:induction false} WithoutConcat(a: Text, b: Text, drop: CodeUnit)
    ensures Without(a + b, drop) == Without(a, drop) + Without(b, drop)
    decreases |a|
  {
    if a == [] {
      assert a + b == b;
    } else {
      assert (a + b)[1..] == a[1..] + b;
      WithoutConcat(a[1..], b, drop);
    }
  }

  lemma {:induction false} WithoutAbsent(t: Text, drop: CodeUnit)
    requires drop !in t
    ensures Without(t, drop) == t
    decreases |t|
  {
    if t != [] {
      WithoutAbsent(t[1..], drop);
      assert t == [t[0]] + t[1..];
    }
  }

  /** Removing a unit other than the delimiter can be done before or after splitting. */
  lemma {:induction false} SplitWithout(t: Text, d: CodeUnit, drop: CodeUnit)
    requires d != drop
    ensures |Split(Without(t, drop), d)| == |Split(t, d)|
    ensures forall i :: 0 <= i < |Split(t, d)| ==> Split(Without(t, drop), d)[i] == Without(Split(t, d)[i], drop)
    decreases |t|
  {
    if t != [] {
      SplitWithout(t[1..], d, drop);
      var rest, w := Split(t[1..], d), Without(t[1..], drop);
      WithoutConcat([t[0]], rest[0], drop);
      assert Without([t[0]], drop) == if t[0] == drop then [] else [t[0]];
      if t[0] == d {
        assert Split(t, d) == [[]] + rest;
        assert ([d] + w)[1..] == w;
        assert Split(Without(t, drop), d) == [[]] + Split(w, d);
      } else {
        assert Split(t, d) == [[t[0]] + rest[0]] + rest[1..];
        if t[0] != drop {
          assert ([t[0]] + w)[1..] == w;
          assert Split(Without(t, drop), d) == [[t[0]] + Split(w, d)[0]] + Split(w, d)[1..];
        }
      }
    }
  }

  /** Case folding as far as it reaches ASCII letters: four units beyond ASCII fold to one. */
  function LowerUnit(u: CodeUnit): CodeUnit {
    if 0x41 <= u <= 0x5A then u + 0x20
    else if u == 0x212A then 0x6B
    else if u == 0x17F then 0x73
    else if u == 0x130 || u == 0x131 then 0x69
    else u
  }

  /** `startsWith(prefix, ignoreCase = true)` for an ASCII prefix. */
  predicate StartsWithIgnoreCase(t: Text, prefix: Text) {
    && |prefix| <= |t|
    && forall i :: 0 <= i < |prefix| ==> LowerUnit(t[i]) == LowerUnit(prefix[i])
  }

  predicate EqualsIgnoreCase(t: Text, u: Text) {
    |t| == |u| && StartsWithIgnoreCase(t, u)
  }

  /** What spells a unit that is no capital letter, case aside. */
  predicate EitherCase(u: CodeUnit, c: char) {
    || u == Unit(c)
    || ('a' <= c <= 'z' && u == Unit(c) - 0x20)
    || (c == 'k' && u == 0x212A)
    || (c == 's' && u == 0x17F)
    || (c == 'i' && u in {0x130, 0x131})
  }

  /** `t` spells `s`, written without capital letters, from `i` on, case aside. */
  predicate SpellsAt(t: Text, i: nat, s: string) {
    i + |s| <= |t| && forall j :: 0 <= j < |s| ==> EitherCase(t[i + j], s[j])
  }

  predicate IsLowerOf(s: string, prefix: Text) {
    && |s| == |prefix|
    && forall j :: 0 <= j < |s| ==>
         s[j] as int < 0x80 && !('A' <= s[j] <= 'Z') && LowerUnit(prefix[j]) == Unit(s[j])
  }

  lemma FoldedUnit(u: CodeUnit, c: char)
    requires c as int < 0x80 && !('A' <= c <= 'Z')
    ensures LowerUnit(u) == Unit(c) <==> EitherCase(u, c)
  {}

  /** Comparing ignoring case is spelling. */
  lemma StartsSpelled(t: Text, i: nat, prefix: Text, s: string)
    requires i <= |t| && IsLowerOf(s, prefix)
    ensures StartsWithIgnoreCase(t[i..], prefix) <==> SpellsAt(t, i, s)
  {
    hide LowerUnit, EitherCase;
    if |s| <= |t| - i {
      forall j | 0 <= j < |s|
        ensures LowerUnit(t[i..][j]) == LowerUnit(prefix[j]) <==> EitherCase(t[i + j], s[j])
      {
        FoldedUnit(t[i + j], s[j]);
      }
    }
  }

  const QUOTE: CodeUnit := Unit('\'')
  const EQUALS: CodeUnit := Unit('=')

  /** `replace(quote, quote + quote)`; `escapeSQL` is this for the single quote. */
  function Doubled(t: Text, quote: CodeUnit): (r: Text) {
    if t == [] then []
    else (if t[0] == quote then [quote, quote] else [t[0]]) + Doubled(t[1..], quote)
  }

  lemma DoubledCons(u: CodeUnit, rest: Text, quote: CodeUnit)
    ensures Doubled([u] + rest, quote) == (if u == quote then [quote, quote] else [u]) + Doubled(rest, quote)
  {
    assert ([u] + rest)[1..] == rest;
  }

  lemma {:induction false} DoubledAbsent(t: Text, quote: CodeUnit)
    requires quote !in t
    ensures Doubled(t, quote) == t
    decreases |t|
  {
    if t != [] {
      DoubledAbsent(t[1..], quote);
      assert t == [t[0]] + t[1..];
    }
  }

  /******* Decimal integers *******/

  const INT_MIN := -0x8000_0000
  const INT_MAX := 0x7FFF_FFFF

  predicate IsDigit(u: CodeUnit) {
    0x30 <= u <= 0x39
  }

  function Digits(n: nat): (t: Text)
    ensures |t| >= 1
    ensures forall u :: u in t ==> IsDigit(u)
  {
    if n < 10 then [0x30 + n] else Digits(n / 10) + [0x30 + n % 10]
  }

  /** `Int.toString`. */
  function Decimal(n: int): (t: Text)
    ensures |t| >= 1
    ensures forall u :: u in t ==> IsDigit(u) || u == Unit('-')
  {
    if n < 0 then [Unit('-')] + Digits(-n) else Digits(n)
  }

  function DigitsValue(t: Text): Option<int> {
    if t == [] then Some(0)
    else if !IsDigit(t[|t| - 1]) then None
    else
      match DigitsValue(t[..|t| - 1])
      case None => None
      case Some(n) => Some(10 * n + (t[|t| - 1] - 0x30))
  }

  /** `String.toIntOrNull` on ASCII digits: an optional sign, at least one digit, 32 bits. */
  function ToIntOrNull(t: Text): Option<int> {
    if t == [] then None
    else
      var signed := t[0] == Unit('-') || t[0] == Unit('+');
      var digits := if signed then t[1..] else t;
      if digits == [] then None
      else
        match DigitsValue(digits)
        case None => None
        case Some(n) =>
          var v := if t[0] == Unit('-') then -n else n;
          if INT_MIN <= v <= INT_MAX then Some(v) else None
  }

  lemma {:induction false} DigitsRoundTrip(n: nat)
    ensures DigitsValue(Digits(n)) == Some(n)
    decreases n
  {
    if n < 10 {
      assert Digits(n)[..0] == [];
    } else {
      DigitsRoundTrip(n / 10);
      var t := Digits(n);
      assert t[..|t| - 1] == Digits(n / 10);
    }
  }

  /** Every 32-bit integer is read back from its decimal text. */
  lemma DecimalRoundTrip(n: int)
    requires INT_MIN <= n <= INT_MAX
    ensures ToIntOrNull(Decimal(n)) == Some(n)
  {
    hide Digits, DigitsValue;
    if n < 0 {
      DigitsRoundTrip(-n);
      assert Decimal(n)[1..] == Digits(-n);
    } else {
      DigitsRoundTrip(n);
      assert Digits(n)[0] in Digits(n);
    }
  }

  /******* What decimal texts are *******/

  function Pow10(k: nat): (p: nat)
    ensures p >= 1
  {
    if k == 0 then 1 else 10 * Pow10(k - 1)
  }

  lemma DigitsStep(n: nat)
    ensures Digits(n) == (if n < 10 then [] else Digits(n / 10)) + [Unit("0123456789"[n % 10])]
  {
    DecimalUnit(n % 10);
  }

  lemma DecimalUnit(d: nat)
    requires d < 10
    ensures Unit("0123456789"[d]) == 0x30 + d
  {}

  /** There are as many digits as the number needs. */
  lemma {:induction false} DigitsAreFew(n: nat)
    ensures n < Pow10(|Digits(n)|)
    ensures |Digits(n)| > 1 ==> Pow10(|Digits(n)| - 1) <= n
    decreases n
  {
    DigitsStep(n);
    hide Digits;
    assert Pow10(1) == 10 * Pow10(0) == 10;
    if n >= 10 {
      DigitsAreFew(n / 10);
    }
  }

  /** The k-th digit from the right is that of 10^k. */
  lemma {:induction false} DigitsArePositional(n: nat, k: nat)
    requires k < |Digits(n)|
    ensures Digits(n)[|Digits(n)| - 1 - k] == Unit("0123456789"[n / Pow10(k) % 10])
    decreases n
  {
    DigitsStep(n);
    Pow10Div(n, k);
    hide Digits, Pow10;
    if k > 0 {
      DigitsArePositional(n / 10, k - 1);
      assert Digits(n)[|Digits(n)| - 1 - k] == Digits(n / 10)[|Digits(n / 10)| - 1 - (k - 1)];
    }
  }

  lemma Pow10Div(n: nat, k: nat)
    ensures n / Pow10(k) == if k == 0 then n else n / 10 / Pow10(k - 1)
  {
    if k > 0 {
      DivByTen(n, Pow10(k - 1));
    }
  }

  function Zeros(k: nat): Text {
    seq(k, _ => 0x30)
  }

  ghost predicate IsPadded(t: Text, n: nat) {
    exists k: nat :: t == Zeros(k) + Digits(n)
  }

  lemma {:induction false} DigitsValueDefined(t: Text)
    ensures DigitsValue(t).Some? <==> forall u :: u in t ==> IsDigit(u)
    ensures DigitsValue(t).Some? ==> DigitsValue(t).value >= 0
    decreases |t|
  {
    if t != [] {
      var init, last := t[..|t| - 1], t[|t| - 1];
      DigitsValueDefined(init);
      assert t == init + [last];
    }
  }

  /** One digit more. */
  lemma PaddedSnoc(t: Text, n: nat, d: CodeUnit)
    requires IsPadded(t, n) && IsDigit(d)
    ensures IsPadded(t + [d], 10 * n + (d - 0x30))
  {
    var k: nat :| t == Zeros(k) + Digits(n);
    if n == 0 {
      assert t + [d] == Zeros(k + 1) + Digits(d - 0x30);
    } else {
      assert t + [d] == Zeros(k) + Digits(10 * n + (d - 0x30));
    }
  }

  lemma PaddedDigit(d: CodeUnit)
    requires IsDigit(d)
    ensures DigitsValue([d]) == Some(d - 0x30) && IsPadded([d], d - 0x30)
  {
    assert [d][..0] == [];
    assert [d] == Zeros(0) + Digits(d - 0x30);
  }

  /** A text of digits has zeros perhaps and then the digits of its value. */
  lemma {:induction false} DigitsArePadded(t: Text)
    requires t != [] && DigitsValue(t).Some? && DigitsValue(t).value >= 0
    ensures IsPadded(t, DigitsValue(t).value)
    decreases |t|
  {
    var init, last := t[..|t| - 1], t[|t| - 1];
    assert t == init + [last];
    if init == [] {
      PaddedDigit(last);
    } else {
      DigitsValueDefined(init);
      DigitsArePadded(init);
      hide IsPadded;
      PaddedSnoc(init, DigitsValue(init).value, last);
    }
  }

  /** The texts that `toIntOrNull` takes, and for what: a sign perhaps, zeros perhaps, the digits. */
  ghost predicate Denotes(t: Text, n: int) {
    || (n >= 0 && IsPadded(t, n))
    || (t != [] && t[0] == Unit('+') && n >= 0 && IsPadded(t[1..], n))
    || (t != [] && t[0] == Unit('-') && n <= 0 && IsPadded(t[1..], -n))
  }

  lemma {:induction false} PaddedValue(k: nat, n: nat)
    ensures DigitsValue(Zeros(k) + Digits(n)) == Some(n)
    decreases k, n
  {
    var t := Zeros(k) + Digits(n);
    if n >= 10 {
      PaddedValue(k, n / 10);
      assert t[..|t| - 1] == Zeros(k) + Digits(n / 10);
    } else {
      assert t[..|t| - 1] == Zeros(k);
      ZerosValue(k);
    }
  }

  lemma {:induction false} ZerosValue(k: nat)
    ensures DigitsValue(Zeros(k)) == Some(0)
    decreases k
  {
    if k > 0 {
      ZerosValue(k - 1);
      assert Zeros(k)[..k - 1] == Zeros(k - 1);
    }
  }

  lemma DenotedIsRead(t: Text, n: int)
    requires INT_MIN <= n <= INT_MAX && Denotes(t, n)
    ensures ToIntOrNull(t) == Some(n)
  {
    hide DigitsValue, Digits;
    if n >= 0 && IsPadded(t, n) {
      var k: nat :| t == Zeros(k) + Digits(n);
      PaddedValue(k, n);
      assert t[0] == if k > 0 then 0x30 else Digits(n)[0];
      assert Digits(n)[0] in Digits(n);
    } else if t[0] == Unit('+') && n >= 0 && IsPadded(t[1..], n) {
      var k: nat :| t[1..] == Zeros(k) + Digits(n);
      PaddedValue(k, n);
    } else {
      var k: nat :| t[1..] == Zeros(k) + Digits(-n);
      PaddedValue(k, -n);
    }
  }

  /** A text is read as a 32-bit integer exactly when it denotes one, and as that one. */
  lemma ToIntOrNullExact(t: Text, n: int)
    ensures ToIntOrNull(t) == Some(n) <==> INT_MIN <= n <= INT_MAX && Denotes(t, n)
  {
    hide DigitsValue, Digits;
    if INT_MIN <= n <= INT_MAX && Denotes(t, n) {
      DenotedIsRead(t, n);
    }
    if ToIntOrNull(t) == Some(n) {
      var digits := if t[0] == Unit('-') || t[0] == Unit('+') then t[1..] else t;
      DigitsValueDefined(digits);
      DigitsArePadded(digits);
    }
  }
}
