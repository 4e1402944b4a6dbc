/** The native driver's connections: the same protocol, with neither packing nor cache. */
module NativeDriver {
  import opened Wrappers
  import opened Texts
  import opened Ciphers
  import opened McPragmas
  import opened Statements
  import opened Engine
  import opened JdbcProperties
  import opened Connections

  /** The two maps; an empty rekey map counts as none. */
  datatype NativeState = NativeState(key: Pragmas, rekey: Option<Pragmas>)

  predicate WantsRekey(s: NativeState) {
    s.rekey.Some? && s.rekey.value != map[]
  }

  /** What a connection executes, an error when compiling the key map throws before any of it. */
  function NativeStatements(s: NativeState): Result<seq<Text>> {
    match (Compiled(s.key), if WantsRekey(s) then Compiled(s.rekey.value) else Ok([]))
    case (Ok(keys), Ok(rekeys)) => Ok(keys + rekeys)
    case (Ok(keys), Err(_)) => Ok(keys)
    case (Err(e), _) => Err(e)
  }

  /** Whether both lists compile, so that a connection can come about at all. */
  predicate BothCompile(s: NativeState) {
    Compiles(s.key) && (WantsRekey(s) ==> Compiles(s.rekey.value))
  }

  /**
   * One call of `onCreateConnection`. The maps are swapped as soon as the rekey list is through,
   * so even when the connection fails after that.
   */
  function NativeConnect(s: NativeState, disk: Disk, env: Env): (NativeState, Connected) {
    match NativeStatements(s)
    case Err(_) => (s, Connected(disk, [], false))
    case Ok(statements) =>
      var conn := Connect(disk, statements, env);
      if !BothCompile(s) then (s, conn.(ok := false))
      else if WantsRekey(s) && conn.executed == statements then
        (NativeState(Swapped(s.rekey.value), Some(map[])), conn)
      else (s, conn)
  }

  function NativeCleared(s: NativeState): NativeState {
    NativeState(map[], if s.rekey.Some? then Some(map[]) else None)
  }

  class NativeConnections {
    const keyPragma: PragmaMap
    const rekeyPragma: PragmaMap?

    ghost predicate Valid()
      reads this
    {
      rekeyPragma != null ==> rekeyPragma != keyPragma
    }

    ghost function Abstract(): NativeState
      reads this, keyPragma, rekeyPragma
    {
      NativeState(keyPragma.entries, if rekeyPragma == null then None else Some(rekeyPragma.entries))
    }

    constructor (keyPragma: PragmaMap, rekeyPragma: PragmaMap?)
      requires rekeyPragma != keyPragma
      ensures Valid() && this.keyPragma == keyPragma && this.rekeyPragma == rekeyPragma
    {
      this.keyPragma, this.rekeyPragma := keyPragma, rekeyPragma;
    }

    method OnCreateConnection(db: Database, env: Env) returns (executed: seq<Text>, ok: bool)
      requires Valid()
      requires rekeyPragma != null ==> KEY !in rekeyPragma.entries
      modifies db, keyPragma, rekeyPragma
      ensures (Abstract(), Connected(db.disk, executed, ok)) == NativeConnect(old(Abstract()), old(db.disk), env)
    {
      var keys := ToMcSqlStatements(keyPragma);
      if keys.Err? { return [], false; }
      if rekeyPragma == null || rekeyPragma.entries == map[] {
        assert keys.value + [] == keys.value;
        executed, ok := db.Open(keys.value, env);
        return;
      }
      var rekeys := ToMcSqlStatements(rekeyPragma);
      if rekeys.Err? {
        executed, ok := db.Open(keys.value, env);
        return executed, false;
      }
      executed, ok := db.Open(keys.value + rekeys.value, env);
      if executed == keys.value + rekeys.value {
        keyPragma.Clear();
        PutSwapped(keyPragma, rekeyPragma.entries);
        rekeyPragma.Clear();
      }
    }

    /** `close`: the rekey map is empty by then. */
    method Close()
      modifies keyPragma
      ensures keyPragma.entries == map[]
      ensures rekeyPragma != null && rekeyPragma != keyPragma ==> rekeyPragma.entries == old(rekeyPragma.entries)
    {
      keyPragma.Clear();
    }

    /** The clean-up when the first connection fails. */
    method Clear()
      requires Valid()
      modifies keyPragma, rekeyPragma
      ensures Abstract() == NativeCleared(old(Abstract()))
    {
      keyPragma.Clear();
      if rekeyPragma != null { rekeyPragma.Clear(); }
    }
  }
}
