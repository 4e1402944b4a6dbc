/**
 * The connection properties of the JVM driver: the first successful connection packs both
 * pragma maps, and every later one is made with the cached packing of the swapped map.
 */
module JdbcProperties {
  import opened Wrappers
  import opened Texts
  import opened Transport
  import opened Ciphers
  import opened McPragmas
  import opened Statements
  import opened Engine
  import opened Connections

  /** The entries of the `Properties` object; the JDBC driver acts on the first two. */
  datatype PropName = PASSWORD | HEX_KEY_MODE | Other(name: Text)

  type Entries = map<PropName, Text>

  /** All of the object's state. `key` is null only for ephemeral databases. */
  datatype State = State(key: Option<Pragmas>, rekey: Option<Pragmas>, initialized: bool, entries: Entries)

  /******* The JDBC driver *******/

  /** The statement JDBC executes first on a new connection; a key mode changes its form. */
  function JdbcKeySql(entries: Entries): Option<Text> {
    if PASSWORD !in entries || entries[PASSWORD] == [] then None
    else if HEX_KEY_MODE in entries then Some(Ascii("pragma hexkey = '") + entries[PASSWORD] + [QUOTE])
    else Some(PragmaKeySql(entries[PASSWORD]))
  }

  function JdbcStatements(keyIdentifier: Text, entries: Entries): Result<seq<Text>> {
    match JdbcKeySql(entries)
    case None => Ok([])
    case Some(sql) => Intercepted(keyIdentifier, sql)
  }

  /** The connection that `block` makes from properties. */
  function JdbcConnect(keyIdentifier: Text, entries: Entries, disk: Disk, env: Env): Connected {
    match JdbcStatements(keyIdentifier, entries)
    case Err(_) => Connected(disk, [], false)
    case Ok(statements) => Connect(disk, statements, env)
  }

  /******* The properties object as a state machine *******/

  /** What `packMCSqlStatements` makes of a set of properties. */
  function PackedEntries(s: State, entries: Entries, keyIdentifier: Text): Result<Entries> {
    if s.key.None? then Ok(entries)
    else
      match Compiled(s.key.value)
      case Err(_) => Err(SqlError)
      case Ok(keys) =>
        if s.rekey.None? then Ok(entries[PASSWORD := Packed(keyIdentifier, keys + [])] - {HEX_KEY_MODE})
        else
          match Compiled(s.rekey.value)
          case Err(_) => Err(SqlError)
          case Ok(rekeys) => Ok(entries[PASSWORD := Packed(keyIdentifier, keys + rekeys)] - {HEX_KEY_MODE})
  }

  /** The maps after a connection: a rekey map replaces the key map. */
  function AfterConnect(s: State): State {
    if s.key.Some? && s.rekey.Some? then s.(key := Some(Swapped(s.rekey.value)), rekey := None) else s
  }

  /** One call of `withKeyProps` that no other call interleaves with. */
  function WithKeyProps(s: State, keyIdentifier: Text, disk: Disk, env: Env): (State, Connected) {
    if s.initialized then (s, JdbcConnect(keyIdentifier, s.entries, disk, env))
    else
      match if PASSWORD in s.entries then Ok(s.entries) else PackedEntries(s, s.entries, keyIdentifier)
      case Err(_) => (s, Connected(disk, [], false))
      case Ok(keyProp) =>
        var conn := JdbcConnect(keyIdentifier, keyProp, disk, env);
        if !conn.ok then (s, conn)
        else
          var after := AfterConnect(s);
          if s.key.None? || PASSWORD in s.entries then (after.(initialized := true), conn)
          else
            match PackedEntries(after, s.entries, keyIdentifier)
            case Err(_) => (after, conn.(ok := false))
            case Ok(entries) => (after.(entries := entries, initialized := true), conn)
  }

  function ClearedMaps(s: State): State {
    s.(key := if s.key.Some? then Some(map[]) else None, rekey := if s.rekey.Some? then Some(map[]) else None)
  }

  function Cleared(s: State): State {
    ClearedMaps(s).(entries := map[])
  }

  /** The loop that moves the entries of a rekey map into an empty key map. */
  method PutSwapped(target: PragmaMap, rekeys: Pragmas)
    requires target.entries == map[] && KEY !in rekeys
    modifies target
    ensures target.entries == Swapped(rekeys)
  {
    var todo := rekeys.Keys;
    assert rekeys - todo == map[];
    while todo != {}
      invariant todo <= rekeys.Keys
      invariant target.entries == Swapped(rekeys - todo)
      decreases todo
    {
      var p :| p in todo;
      SwapOne(rekeys - todo, p, rekeys[p]);
      assert rekeys - (todo - {p}) == (rekeys - todo)[p := rekeys[p]];
      target.Put(if p == RE_KEY then KEY else p, rekeys[p]);
      todo := todo - {p};
    }
    assert rekeys - {} == rekeys;
  }

  lemma SwapOne(done: Pragmas, p: McPragma, value: Text)
    requires KEY !in done && p != KEY && p !in done
    ensures Swapped(done[p := value]) == Swapped(done)[if p == RE_KEY then KEY else p := value]
  {}

  class JdbcMcProperties {
    const keyPragma: PragmaMap?
    var rekeyPragma: PragmaMap?
    var isInitialized: bool
    var entries: Entries

    ghost predicate Valid()
      reads this
    {
      rekeyPragma != null ==> rekeyPragma != keyPragma
    }

    ghost function Abstract(): State
      reads this, keyPragma, rekeyPragma
    {
      State(if keyPragma == null then None else Some(keyPragma.entries),
            if rekeyPragma == null then None else Some(rekeyPragma.entries),
            isInitialized, entries)
    }

    /** The four requirements on the maps are preconditions; the factory's maps meet them. */
    constructor (keyPragma: PragmaMap?, rekeyPragma: PragmaMap?, entries: Entries)
      requires keyPragma != null ==> KEY in keyPragma.entries && RE_KEY !in keyPragma.entries
      requires rekeyPragma != null ==> RE_KEY in rekeyPragma.entries && KEY !in rekeyPragma.entries
      ensures Valid() && this.keyPragma == keyPragma && this.rekeyPragma == rekeyPragma
      ensures isInitialized == (keyPragma == null) && this.entries == entries
    {
      this.keyPragma, this.rekeyPragma := keyPragma, rekeyPragma;
      this.isInitialized, this.entries := keyPragma == null, entries;
    }

    method Pack(props: Entries, keyIdentifier: Text) returns (r: Result<Entries>)
      ensures r == PackedEntries(Abstract(), props, keyIdentifier)
    {
      if keyPragma == null { return Ok(props); }
      var keys := ToMcSqlStatements(keyPragma);
      if keys.Err? { return Err(SqlError); }
      var rekeys: Option<seq<Text>> := None;
      if rekeyPragma != null {
        var compiled := ToMcSqlStatements(rekeyPragma);
        if compiled.Err? { return Err(SqlError); }
        rekeys := Some(compiled.value);
      }
      var password := PackStatements(keyIdentifier, keys.value, rekeys);
      r := Ok(props[PASSWORD := password] - {HEX_KEY_MODE});
    }

    method JdbcConnectTo(props: Entries, keyIdentifier: Text, db: Database, env: Env)
      returns (executed: seq<Text>, ok: bool)
      modifies db
      ensures Connected(db.disk, executed, ok) == JdbcConnect(keyIdentifier, props, old(db.disk), env)
    {
      var statements := JdbcStatements(keyIdentifier, props);
      if statements.Err? { return [], false; }
      executed, ok := db.Open(statements.value, env);
    }

    /** Moves the rekey map's entries into the key map, in place. */
    method SwapIn()
      requires Valid() && keyPragma != null && rekeyPragma != null
      requires KEY !in rekeyPragma.entries
      modifies this, keyPragma, rekeyPragma
      ensures Valid() && rekeyPragma == null && isInitialized == old(isInitialized) && entries == old(entries)
      ensures keyPragma.entries == Swapped(old(rekeyPragma.entries))
      ensures old(rekeyPragma).entries == map[]
    {
      keyPragma.Clear();
      PutSwapped(keyPragma, rekeyPragma.entries);
      rekeyPragma.Clear();
      rekeyPragma := null;
    }

    method WithKeyPropsTo(keyIdentifier: Text, db: Database, env: Env) returns (executed: seq<Text>, ok: bool)
      requires Valid()
      requires rekeyPragma != null ==> KEY !in rekeyPragma.entries
      modifies this, db, keyPragma, rekeyPragma
      ensures Valid()
      ensures (Abstract(), Connected(db.disk, executed, ok))
           == WithKeyProps(old(Abstract()), keyIdentifier, old(db.disk), env)
      ensures rekeyPragma == old(rekeyPragma)
           || (rekeyPragma == null && old(rekeyPragma != null) && old(rekeyPragma).entries == map[])
    {
      hide PackedEntries, JdbcConnect, Swapped;
      if isInitialized {
        executed, ok := JdbcConnectTo(entries, keyIdentifier, db, env);
        return;
      }
      var keyProp := entries;
      if PASSWORD !in keyProp {
        var packed := Pack(keyProp, keyIdentifier);
        if packed.Err? { return [], false; }
        keyProp := packed.value;
      }
      executed, ok := JdbcConnectTo(keyProp, keyIdentifier, db, env);
      if !ok { return; }
      if keyPragma != null {
        if rekeyPragma != null {
          SwapIn();
        }
        if PASSWORD !in entries {
          var packed := Pack(entries, keyIdentifier);
          if packed.Err? { return executed, false; }
          entries := packed.value;
        }
      }
      isInitialized := true;
    }

    method Clear()
      requires Valid()
      modifies this, keyPragma, rekeyPragma
      ensures Valid() && Abstract() == Cleared(old(Abstract())) && rekeyPragma == old(rekeyPragma)
    {
      if keyPragma != null { keyPragma.Clear(); }
      if rekeyPragma != null { rekeyPragma.Clear(); }
      entries := map[];
    }
  }
}
