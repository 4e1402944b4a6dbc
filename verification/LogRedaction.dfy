/** What a redacting logger lets through. */
module LogRedaction {
  import opened Texts
  import opened Ciphers
  import opened Statements

  const LOG_PREFIX: Text := Ascii("EXECUTE\n PRAGMA")
  const REDACTED: Text := Ascii(" [REDACTED];")

  predicate ContainsIgnoreCase(t: Text, part: Text) {
    exists i :: 0 <= i <= |t| && StartsWithIgnoreCase(t[i..], part)
  }

  function KeyMark(p: McPragma): Text {
    Ascii(PragmaName(p) + " =")
  }

  predicate IsKeyLog(log: Text) {
    && StartsWithIgnoreCase(log, LOG_PREFIX)
    && (ContainsIgnoreCase(log, KeyMark(RE_KEY)) || ContainsIgnoreCase(log, KeyMark(KEY)))
  }

  /** `replaceAfter("=", "")`: a text without the delimiter is left alone. */
  function UpToEquals(t: Text): Text {
    var i := IndexOf(t, EQUALS);
    if i == |t| then t else t[..i + 1]
  }

  function Cleansed(redactLogs: bool, log: Text): Text {
    if redactLogs && IsKeyLog(log) then UpToEquals(log) + REDACTED else log
  }

  /** A key mark holds an equals sign, so that something is always cut. */
  lemma KeyLogHasEquals(log: Text)
    requires IsKeyLog(log)
    ensures IndexOf(log, EQUALS) < |log|
  {
    assert KeyMark(RE_KEY)[6] == EQUALS && KeyMark(KEY)[4] == EQUALS;
    hide KeyMark;
    if ContainsIgnoreCase(log, KeyMark(RE_KEY)) {
      MarkHasEquals(log, KeyMark(RE_KEY));
    } else {
      MarkHasEquals(log, KeyMark(KEY));
    }
  }

  lemma MarkHasEquals(log: Text, mark: Text)
    requires mark != [] && mark[|mark| - 1] == EQUALS && ContainsIgnoreCase(log, mark)
    ensures IndexOf(log, EQUALS) < |log|
  {
    var i :| 0 <= i <= |log| && StartsWithIgnoreCase(log[i..], mark);
    assert LowerUnit(log[i..][|mark| - 1]) == LowerUnit(EQUALS) == EQUALS;
    var k := i + |mark| - 1;
    assert log[k] == EQUALS;
    assert log[k] in log && log[..|log|] == log;
  }

  /**
   * Independence: what is written for a key log is determined by its text up to the first equals
   * sign, so that two such logs that agree so far cannot be told apart.
   */
  lemma RedactionIndependence(a: Text, b: Text)
    requires IsKeyLog(a) && IsKeyLog(b)
    requires a[..IndexOf(a, EQUALS)] == b[..IndexOf(b, EQUALS)]
    ensures Cleansed(true, a) == Cleansed(true, b)
  {
    KeyLogHasEquals(a);
    KeyLogHasEquals(b);
    hide IsKeyLog;
    var i := IndexOf(a, EQUALS);
    assert a[..i + 1] == a[..i] + [EQUALS] && b[..IndexOf(b, EQUALS) + 1] == b[..IndexOf(b, EQUALS)] + [EQUALS];
  }

  lemma KeyStatementIsKeyLog(p: McPragma, rest: Text)
    requires p == KEY || p == RE_KEY
    ensures IsKeyLog(Ascii("EXECUTE\n PRAGMA " + PragmaName(p) + " =") + rest)
  {
    var log := Ascii("EXECUTE\n PRAGMA " + PragmaName(p) + " =") + rest;
    assert log[16..] == KeyMark(p) + rest;
    assert StartsWithIgnoreCase(log[16..], KeyMark(p));
  }

  /** The log of a key or rekey statement is the same for every key. */
  lemma KeyStatementsAreRedacted(p: McPragma, literal: Text)
    requires p == KEY || p == RE_KEY
    ensures Cleansed(true, Ascii("EXECUTE\n ") + Assignment(PragmaName(p), literal))
         == Ascii("EXECUTE\n PRAGMA " + PragmaName(p) + " = [REDACTED];")
  {
    hide PragmaName;
    var name := PragmaName(p);
    var head := Ascii("EXECUTE\n PRAGMA " + name + " ");
    var log := Ascii("EXECUTE\n ") + Assignment(name, literal);
    var rest := [Unit(' ')] + literal;
    assert head + [EQUALS] == Ascii("EXECUTE\n PRAGMA " + name + " =");
    assert log == head + [EQUALS] + rest;
    KeyStatementIsKeyLog(p, rest);
    hide IsKeyLog;
    HeadHasNoEquals(p);
    IndexOfFirst(head, EQUALS, rest);
    assert log[..|head| + 1] == head + [EQUALS];
    assert head + [EQUALS] + REDACTED == Ascii("EXECUTE\n PRAGMA " + name + " = [REDACTED];");
  }

  lemma HeadHasNoEquals(p: McPragma)
    requires p == KEY || p == RE_KEY
    ensures EQUALS !in Ascii("EXECUTE\n PRAGMA " + PragmaName(p) + " ")
  {}

  /** Some part of the log spells it, case aside. */
  ghost predicate Mentions(log: Text, s: string) {
    exists i: nat :: SpellsAt(log, i, s)
  }

  lemma ContainsSpelled(t: Text, part: Text, s: string)
    requires IsLowerOf(s, part)
    ensures ContainsIgnoreCase(t, part) <==> Mentions(t, s)
  {
    hide StartsWithIgnoreCase, SpellsAt, IsLowerOf;
    forall i: nat | i <= |t|
      ensures StartsWithIgnoreCase(t[i..], part) <==> SpellsAt(t, i, s)
    {
      StartsSpelled(t, i, part, s);
    }
    if Mentions(t, s) {
      var i: nat :| SpellsAt(t, i, s);
      SpelledInside(t, i, s);
      assert StartsWithIgnoreCase(t[i..], part);
    }
  }

  lemma SpelledInside(t: Text, i: nat, s: string)
    requires SpellsAt(t, i, s)
    ensures i <= |t|
  {}

  lemma LogWords()
    ensures IsLowerOf("execute\n pragma", LOG_PREFIX)
    ensures IsLowerOf("rekey =", KeyMark(RE_KEY)) && IsLowerOf("key =", KeyMark(KEY))
  {
    assert PragmaName(RE_KEY) + " =" == "rekey =" && PragmaName(KEY) + " =" == "key =";
  }

  /**
   * What is written for every log: the log as it stands when redaction is off, when it does not
   * start as an executed pragma or when it mentions neither key, and otherwise its text up to the
   * first equals sign and a mark in place of the rest.
   */
  lemma RedactsExactly(redactLogs: bool, log: Text)
    ensures
      if redactLogs && SpellsAt(log, 0, "execute\n pragma") && (Mentions(log, "rekey =") || Mentions(log, "key =")) then
        exists k :: 0 <= k < |log| && log[k] == Unit('=') && Unit('=') !in log[..k]
          && Cleansed(redactLogs, log) == log[..k + 1] + Ascii(" [REDACTED];")
      else Cleansed(redactLogs, log) == log
  {
    LogWords();
    hide StartsWithIgnoreCase, SpellsAt, IsLowerOf, ContainsIgnoreCase, KeyMark;
    StartsSpelled(log, 0, LOG_PREFIX, "execute\n pragma");
    assert log[0..] == log;
    ContainsSpelled(log, KeyMark(RE_KEY), "rekey =");
    ContainsSpelled(log, KeyMark(KEY), "key =");
    if redactLogs && IsKeyLog(log) {
      KeyLogHasEquals(log);
      var k := IndexOf(log, EQUALS);
      assert REDACTED == Ascii(" [REDACTED];");
      assert log[k] == Unit('=') && Unit('=') !in log[..k];
      assert Cleansed(redactLogs, log) == log[..k + 1] + Ascii(" [REDACTED];");
    }
  }
}
