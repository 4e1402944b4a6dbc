/** The ChaCha20 builder, the encryption builder and the migration builder. */
module ConfigBuilders {
  import opened Wrappers
  import opened Texts
  import opened Ciphers
  import opened Builders

  /******* ChaCha20 *******/

  class ChaCha20Builder {
    var legacy: int
    var legacyPageSize: int
    var kdfIter: int

    function Built(): CipherConfig
      reads this
    {
      ChaCha20Config(legacy, legacyPageSize, kdfIter)
    }

    ghost predicate Valid()
      reads this
    {
      Built().Valid()
    }

    constructor (other: CipherConfig)
      requires other.ChaCha20Config? && other.Valid()
      ensures Valid() && Built() == other
    {
      legacy, legacyPageSize, kdfIter := other.legacy, other.legacyPageSize, other.kdfIter;
    }

    method Legacy(n: Int32) returns (ok: bool)
      requires Valid()
      modifies this
      ensures Valid() && ok == (0 <= n <= 1)
      ensures Built() == if ok then ChaCha20Config(n, old(legacyPageSize), old(kdfIter)) else old(Built())
    {
      ok := 0 <= n <= 1;
      if ok { legacy := n; }
    }

    method LegacyPageSize(n: Int32) returns (ok: bool)
      requires Valid()
      modifies this
      ensures Valid() && ok == IsLegacyPageSize(n)
      ensures Built() == if ok then ChaCha20Config(old(legacy), n, old(kdfIter)) else old(Built())
    {
      PageSizeCheckIsExact(n);
      ok := PassesPageSizeCheck(n);
      if ok { legacyPageSize := n; }
    }

    method KdfIter(n: Int32) returns (ok: bool)
      requires Valid()
      modifies this
      ensures Valid() && ok == (n > 0)
      ensures Built() == if ok then ChaCha20Config(old(legacy), old(legacyPageSize), n) else old(Built())
    {
      ok := n > 0;
      if ok { kdfIter := n; }
    }

    method Preset(sqleet: bool)
      modifies this
      ensures Valid() && Built() == if sqleet then CHACHA20_SQLEET else CHACHA20_DEFAULT
    {
      legacy, legacyPageSize, kdfIter := if sqleet then 1 else 0, 4096, if sqleet then 12345 else 64007;
    }
  }

  /******* The encryption configuration *******/

  /** The fields of `EncryptionConfig.Builder`. */
  datatype Draft = Draft(cipherConfig: Option<CipherConfig>, hmacCheck: bool, mcLegacyWal: bool)

  const EMPTY_DRAFT := Draft(None, true, false)

  /**
   * The public calls. `Use` is any call that stores a cipher configuration; `Ascon128From` is
   * `ascon128(other, block)`, which builds one and does not store it.
   */
  datatype ConfigCall = HmacCheck(b: bool) | McLegacyWal(b: bool) | Use(c: CipherConfig) | Ascon128From(c: CipherConfig)

  function Drafted(d: Draft, call: ConfigCall): Draft {
    match call
    case HmacCheck(b) => d.(hmacCheck := b)
    case McLegacyWal(b) => d.(mcLegacyWal := b)
    case Use(c) => d.(cipherConfig := Some(c))
    case Ascon128From(_) => d
  }

  function DraftedAll(d: Draft, calls: seq<ConfigCall>): Draft
    decreases |calls|
  {
    if calls == [] then d else Drafted(DraftedAll(d, calls[..|calls| - 1]), calls[|calls| - 1])
  }

  function BuiltConfig(d: Draft): Option<EncryptionConfig> {
    match d.cipherConfig
    case None => None
    case Some(c) => Some(EncryptionConfig(c, d.hmacCheck, d.mcLegacyWal))
  }

  class EncryptionConfigBuilder {
    var cipherConfig: Option<CipherConfig>
    var hmacCheck: bool
    var mcLegacyWal: bool

    function State(): Draft
      reads this
    {
      Draft(cipherConfig, hmacCheck, mcLegacyWal)
    }

    constructor (other: Option<EncryptionConfig>)
      ensures other.None? ==> State() == EMPTY_DRAFT
      ensures other.Some? ==> BuiltConfig(State()) == other
    {
      cipherConfig, hmacCheck, mcLegacyWal := None, true, false;
      if other.Some? {
        cipherConfig, hmacCheck, mcLegacyWal :=
          Some(other.value.cipherConfig), other.value.hmacCheck, other.value.mcLegacyWal;
      }
    }

    method Call(call: ConfigCall)
      modifies this
      ensures State() == Drafted(old(State()), call)
    {
      match call {
        case HmacCheck(b) => hmacCheck := b;
        case McLegacyWal(b) => mcLegacyWal := b;
        case Use(c) => cipherConfig := Some(c);
        case Ascon128From(_) =>
      }
    }

    method Build() returns (r: Option<EncryptionConfig>)
      ensures r == BuiltConfig(State())
    {
      r := if cipherConfig.None? then None else Some(EncryptionConfig(cipherConfig.value, hmacCheck, mcLegacyWal));
    }
  }

  /** What is built is what the last storing call stored, and nothing if there was none. */
  lemma {:induction false} BuildsLastUsed(calls: seq<ConfigCall>)
    ensures match DraftedAll(EMPTY_DRAFT, calls).cipherConfig
      case None => forall call :: call in calls ==> !call.Use?
      case Some(c) =>
        exists i :: 0 <= i < |calls| && calls[i] == Use(c) && forall j :: i < j < |calls| ==> !calls[j].Use?
    decreases |calls|
  {
    if calls != [] {
      var n, init := |calls| - 1, calls[..|calls| - 1];
      BuildsLastUsed(init);
      assert calls == init + [calls[n]];
      match DraftedAll(EMPTY_DRAFT, init).cipherConfig {
        case None =>
        case Some(c) =>
          var i :| 0 <= i < n && init[i] == Use(c) && forall j :: i < j < n ==> !init[j].Use?;
          assert calls[i] == Use(c) && forall j :: i < j < n ==> calls[j] == init[j];
      }
    }
  }

  datatype Setting = TheCipher | TheHmacCheck | TheLegacyWal

  predicate Sets(call: ConfigCall, setting: Setting) {
    match setting
    case TheCipher => call.Use?
    case TheHmacCheck => call.HmacCheck?
    case TheLegacyWal => call.McLegacyWal?
  }

  /** The position of the last call that sets a setting, or -1. */
  function LastCall(calls: seq<ConfigCall>, setting: Setting): (i: int)
    ensures -1 <= i < |calls|
    ensures 0 <= i ==> Sets(calls[i], setting)
    ensures forall j :: i < j < |calls| ==> !Sets(calls[j], setting)
    decreases |calls|
  {
    if calls == [] then -1
    else if Sets(calls[|calls| - 1], setting) then |calls| - 1
    else
      var i := LastCall(calls[..|calls| - 1], setting);
      assert forall j :: i < j < |calls| - 1 ==> calls[j] == calls[..|calls| - 1][j];
      i
  }

  /** What the last calls leave. */
  function LastSettings(d: Draft, calls: seq<ConfigCall>): Draft {
    var use, check, wal := LastCall(calls, TheCipher), LastCall(calls, TheHmacCheck), LastCall(calls, TheLegacyWal);
    Draft(if use < 0 then d.cipherConfig else Some(calls[use].c),
          if check < 0 then d.hmacCheck else calls[check].b,
          if wal < 0 then d.mcLegacyWal else calls[wal].b)
  }

  lemma {:induction false} DraftsLastSettings(d: Draft, calls: seq<ConfigCall>)
    ensures DraftedAll(d, calls) == LastSettings(d, calls)
    decreases |calls|
  {
    if calls != [] {
      DraftsLastSettings(d, calls[..|calls| - 1]);
      LastSettingsSnoc(d, calls);
    }
  }

  lemma LastSettingsSnoc(d: Draft, calls: seq<ConfigCall>)
    requires calls != []
    ensures LastSettings(d, calls) == Drafted(LastSettings(d, calls[..|calls| - 1]), calls[|calls| - 1])
  {
    LastCallSnoc(calls, TheCipher);
    LastCallSnoc(calls, TheHmacCheck);
    LastCallSnoc(calls, TheLegacyWal);
    hide LastCall;
    var init := calls[..|calls| - 1];
    assert forall i :: 0 <= i < |init| ==> init[i] == calls[i];
  }

  lemma LastCallSnoc(calls: seq<ConfigCall>, setting: Setting)
    requires calls != []
    ensures LastCall(calls, setting)
         == if Sets(calls[|calls| - 1], setting) then |calls| - 1 else LastCall(calls[..|calls| - 1], setting)
  {}

  /**
   * Whatever the builder held: each setting that is built is the one that its own last call was
   * given, and the one held before when there was no such call. Without a cipher configuration
   * nothing is built.
   */
  lemma BuildsLastSettings(d: Draft, calls: seq<ConfigCall>)
    ensures var use, check, wal :=
        LastCall(calls, TheCipher), LastCall(calls, TheHmacCheck), LastCall(calls, TheLegacyWal);
      BuiltConfig(DraftedAll(d, calls))
      == if use < 0 && d.cipherConfig.None? then None
         else Some(EncryptionConfig(if use < 0 then d.cipherConfig.value else calls[use].c,
                                    if check < 0 then d.hmacCheck else calls[check].b,
                                    if wal < 0 then d.mcLegacyWal else calls[wal].b))
  {
    DraftsLastSettings(d, calls);
  }

  lemma DraftedSnoc(d: Draft, calls: seq<ConfigCall>, call: ConfigCall)
    ensures DraftedAll(d, calls + [call]) == Drafted(DraftedAll(d, calls), call)
  {
    assert (calls + [call])[..|calls|] == calls;
  }

  ghost predicate UsesSome(calls: seq<ConfigCall>) {
    exists i :: 0 <= i < |calls| && calls[i].Use?
  }

  /**
   * A deviation: wherever it stands among the calls, `ascon128(other, block)` might as well not
   * be there. What is built is what storing its configuration would have built exactly when the
   * builder already held that one or a later call stores another.
   */
  lemma {:induction false} Ascon128FromIsLost(
      d: Draft, before: seq<ConfigCall>, c: CipherConfig, after: seq<ConfigCall>)
    ensures var lost := DraftedAll(d, before + [Ascon128From(c)] + after);
      && lost == DraftedAll(d, before + after)
      && (lost == DraftedAll(d, before + [Use(c)] + after) <==>
           DraftedAll(d, before).cipherConfig == Some(c) || UsesSome(after))
    ensures var lost := DraftedAll(d, before + [Ascon128From(c)] + after);
      var stored := DraftedAll(d, before + [Use(c)] + after);
      (lost.hmacCheck, lost.mcLegacyWal) == (stored.hmacCheck, stored.mcLegacyWal)
    decreases |after|
  {
    var lost, stored := before + [Ascon128From(c)], before + [Use(c)];
    DraftedSnoc(d, before, Ascon128From(c));
    DraftedSnoc(d, before, Use(c));
    if after == [] {
      assert lost + [] == lost && stored + [] == stored && before + [] == before;
    } else {
      hide DraftedAll, UsesSome, Drafted;
      var init, last := after[..|after| - 1], after[|after| - 1];
      Ascon128FromIsLost(d, before, c, init);
      DraftedLast(d, lost, after);
      DraftedLast(d, stored, after);
      DraftedLast(d, before, after);
      OneMoreCall(DraftedAll(d, lost + init), DraftedAll(d, stored + init), last);
      UsesSomeSnoc(init, last);
      assert after == init + [last];
    }
  }

  lemma DraftedLast(d: Draft, calls: seq<ConfigCall>, more: seq<ConfigCall>)
    requires more != []
    ensures DraftedAll(d, calls + more)
         == Drafted(DraftedAll(d, calls + more[..|more| - 1]), more[|more| - 1])
  {
    DraftedSnoc(d, calls + more[..|more| - 1], more[|more| - 1]);
    assert calls + more == calls + more[..|more| - 1] + [more[|more| - 1]];
  }

  lemma OneMoreCall(a: Draft, b: Draft, call: ConfigCall)
    requires a.hmacCheck == b.hmacCheck && a.mcLegacyWal == b.mcLegacyWal
    ensures var x, y := Drafted(a, call), Drafted(b, call);
      && x.hmacCheck == y.hmacCheck && x.mcLegacyWal == y.mcLegacyWal
      && (x == y <==> a == b || call.Use?)
  {}

  lemma UsesSomeSnoc(calls: seq<ConfigCall>, call: ConfigCall)
    ensures UsesSome(calls + [call]) <==> UsesSome(calls) || call.Use?
  {
    if UsesSome(calls) {
      var i :| 0 <= i < |calls| && calls[i].Use?;
      assert (calls + [call])[i].Use?;
    }
    if call.Use? {
      assert (calls + [call])[|calls|].Use?;
    }
  }

  /** So a new builder has nothing to build after it. */
  lemma Ascon128FromAlone(c: CipherConfig)
    ensures BuiltConfig(DraftedAll(EMPTY_DRAFT, [Ascon128From(c)])) == None
    ensures BuiltConfig(DraftedAll(EMPTY_DRAFT, [Use(c)])) == Some(EncryptionConfig(c, true, false))
  {
    Ascon128FromIsLost(EMPTY_DRAFT, [], c, []);
    DraftedSnoc(EMPTY_DRAFT, [], Use(c));
    assert [] + [Ascon128From(c)] + [] == [Ascon128From(c)] && [] + [Use(c)] == [Use(c)];
  }

  /******* Migrations *******/

  /** Equality ignores the note. */
  datatype Migration = Migration(note: Text, encryptionConfig: EncryptionConfig)

  function ConfigsOf(ms: seq<Migration>): (r: seq<EncryptionConfig>)
    ensures |r| == |ms|
  {
    seq(|ms|, i requires 0 <= i < |ms| => ms[i].encryptionConfig)
  }

  /** `mutableSetOf` with `add`: insertion order, later duplicates dropped. */
  function Declared(configs: seq<EncryptionConfig>): (r: seq<EncryptionConfig>)
    ensures forall c :: c in r <==> c in configs
    ensures forall i, j :: 0 <= i < j < |r| ==> r[i] != r[j]
    ensures r == [] <==> configs == []
  {
    if configs == [] then []
    else
      var init, last := configs[..|configs| - 1], configs[|configs| - 1];
      assert configs == init + [last];
      var r := Declared(init);
      if last in r then r else r + [last]
  }

  function FirstIndex(configs: seq<EncryptionConfig>, c: EncryptionConfig): (i: nat)
    requires c in configs
    ensures i < |configs| && configs[i] == c && c !in configs[..i]
  {
    if configs[0] == c then 0
    else
      assert configs == [configs[0]] + configs[1..];
      var i := FirstIndex(configs[1..], c) + 1;
      assert configs[..i] == [configs[0]] + configs[1..][..i - 1];
      i
  }

  lemma FirstIndexSnoc(configs: seq<EncryptionConfig>, last: EncryptionConfig, c: EncryptionConfig)
    requires c in configs
    ensures FirstIndex(configs + [last], c) == FirstIndex(configs, c)
  {
    var all := configs + [last];
    var i, j := FirstIndex(configs, c), FirstIndex(all, c);
    assert all[..i] == configs[..i];
    assert all[i] == c;
    assert forall k :: 0 <= k < i ==> all[..i][k] == all[k];
    assert forall k :: 0 <= k < j ==> all[..j][k] == all[k];
  }

  /** The declared order is the order of first occurrence. */
  lemma {:induction false} DeclaredKeepsOrder(configs: seq<EncryptionConfig>, i: nat, j: nat)
    requires i < j < |Declared(configs)|
    ensures FirstIndex(configs, Declared(configs)[i]) < FirstIndex(configs, Declared(configs)[j])
    decreases |configs|
  {
    var init, last := configs[..|configs| - 1], configs[|configs| - 1];
    assert configs == init + [last];
    var r := Declared(init);
    if j < |r| {
      assert Declared(configs)[i] == r[i] && Declared(configs)[j] == r[j];
      DeclaredKeepsOrder(init, i, j);
      FirstIndexSnoc(init, last, r[i]);
      FirstIndexSnoc(init, last, r[j]);
    } else {
      assert last !in init;
      FirstIndexSnoc(init, last, r[i]);
    }
  }

  predicate IsDistinct(configs: seq<EncryptionConfig>) {
    forall i, j :: 0 <= i < j < |configs| ==> configs[i] != configs[j]
  }

  /** Exactly the lists that a set holds are declared as they stand. */
  lemma {:induction false} DistinctIsDeclared(configs: seq<EncryptionConfig>)
    ensures Declared(configs) == configs <==> IsDistinct(configs)
    decreases |configs|
  {
    if configs != [] && IsDistinct(configs) {
      var init, last := configs[..|configs| - 1], configs[|configs| - 1];
      DistinctIsDeclared(init);
      assert configs == init + [last];
    }
  }

  class MigrationConfigBuilder {
    var migrations: seq<Migration>
    ghost var added: seq<EncryptionConfig>

    ghost predicate Valid()
      reads this
    {
      ConfigsOf(migrations) == Declared(added)
    }

    /** A copy of another configuration's migrations, or none. */
    constructor (other: Option<seq<Migration>>)
      requires other.Some? ==> IsDistinct(ConfigsOf(other.value))
      ensures Valid() && migrations == (if other.Some? then other.value else []) && added == ConfigsOf(migrations)
    {
      migrations := if other.Some? then other.value else [];
      added := if other.Some? then ConfigsOf(other.value) else [];
      DistinctIsDeclared(if other.Some? then ConfigsOf(other.value) else []);
    }

    /** `migrationFrom`; a block that configures no cipher adds nothing. */
    method MigrationFrom(migration: Option<Migration>)
      requires Valid()
      modifies this
      ensures Valid()
      ensures added == old(added) + if migration.Some? then [migration.value.encryptionConfig] else []
      ensures migrations
           == old(migrations)
            + if migration.Some? && migration.value.encryptionConfig !in ConfigsOf(old(migrations))
              then [migration.value] else []
    {
      if migration.None? { return; }
      var c := migration.value.encryptionConfig;
      if c !in ConfigsOf(migrations) {
        migrations := migrations + [migration.value];
      }
      added := added + [c];
      assert added[..|added| - 1] == old(added);
    }

    /** Null when nothing was declared. */
    method Build() returns (r: Option<seq<Migration>>)
      requires Valid()
      ensures r == if added == [] then None else Some(migrations)
      ensures r.Some? ==> ConfigsOf(r.value) == Declared(added)
    {
      r := if migrations == [] then None else Some(migrations);
    }
  }
}
