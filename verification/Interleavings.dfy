/**
 * `withKeyProps` and `clear` called by any number of threads at once. Every read and write of
 * shared state is a step of its own, the lock aside; what happens while the lock is held by
 * another thread can interleave with all the rest.
 */
module Interleavings {
  import opened Wrappers
  import opened Texts
  import opened Transport
  import opened McPragmas
  import opened Statements
  import opened Engine
  import opened Protocol
  import opened Connections
  import opened JdbcProperties
  import opened Refinement
  import opened EndToEnd
  import opened WireKeys

  type Thread = nat

  /** Where a thread stands. */
  datatype Phase =
    | Outside
    | Fast                      // has read the object as initialised
    | Waiting                   // has read it as not initialised and wants the lock
    | Locked                    // holds the lock and has not looked again
    | LateFast                  // holds the lock and has found it initialised after all
    | Prepared(props: Entries)  // holds the lock and its own packed copy of the properties
    | FirstOpen                 // holds the lock; its connection is open
    | Moved                     // holds the lock; the rekey map has replaced the key map
    | Cached                    // holds the lock; the password is cached
    | ClearWaiting              // wants the lock to clear the maps
    | ClearedMapsOnly           // has cleared the maps, not yet the entries

  datatype Action =
    | Enter | Acquire | Recheck | ConnectReady(env: Env) | Prepare | ConnectFirst(env: Env) | Move | Cache | Finish
    | EnterClear | ClearMaps | ClearEntries

  /** The object, its lock, the threads, the database file, and what has happened so far. */
  datatype Machine = Machine(
    s: State, lock: Option<Thread>, phases: map<Thread, Phase>, disk: Disk,
    mapsCleared: bool, allCleared: bool, rekeys: nat)

  function PhaseOf(m: Machine, t: Thread): Phase {
    if t in m.phases then m.phases[t] else Outside
  }

  predicate HoldsLock(p: Phase) {
    p.Locked? || p.LateFast? || p.Prepared? || p.FirstOpen? || p.Moved? || p.Cached?
  }

  /** Phases between building the first connection's properties and publishing the result. */
  predicate IsInitialising(p: Phase) {
    p.Prepared? || p.FirstOpen? || p.Moved? || p.Cached?
  }

  function At(m: Machine, t: Thread, p: Phase): Machine {
    m.(phases := m.phases[t := p])
  }

  function Leave(m: Machine, t: Thread): Machine {
    At(m, t, Outside).(lock := None)
  }

  predicate Enabled(m: Machine, t: Thread, a: Action) {
    var p := PhaseOf(m, t);
    match a
    case Enter => p == Outside
    case Acquire => p == Waiting && m.lock == None
    case Recheck => p == Locked
    case ConnectReady(_) => p == Fast || p == LateFast
    case Prepare => p == Locked && !m.s.initialized
    case ConnectFirst(_) => p.Prepared?
    case Move => p == FirstOpen
    case Cache => p == Moved
    case Finish => p == Cached
    case EnterClear => p == Outside
    case ClearMaps => p == ClearWaiting && m.lock == None
    case ClearEntries => p == ClearedMapsOnly
  }

  /** The properties that the first connection is made with, or that are cached after it. */
  function PropsFor(s: State, id: Text): Result<Entries> {
    if PASSWORD in s.entries then Ok(s.entries) else PackedEntries(s, s.entries, id)
  }

  /** The entries that a step makes a connection with, if it makes one. */
  function ConnectsWith(m: Machine, t: Thread, a: Action): Option<Entries> {
    match a
    case ConnectReady(_) => Some(m.s.entries)
    case ConnectFirst(_) =>
      (match PhaseOf(m, t)
       case Prepared(props) => Some(props)
       case _ => None)
    case _ => None
  }

  function Do(m: Machine, t: Thread, a: Action, id: Text): Machine
    requires Enabled(m, t, a)
  {
    match a
    case Enter => At(m, t, if m.s.initialized then Fast else Waiting)
    case Acquire => At(m, t, Locked).(lock := Some(t))
    case Recheck => if m.s.initialized then At(m, t, LateFast) else m
    case ConnectReady(env) =>
      var conn := JdbcConnect(id, m.s.entries, m.disk, env);
      (if PhaseOf(m, t) == Fast then At(m, t, Outside) else Leave(m, t)).(disk := conn.disk)
    case Prepare =>
      (match PropsFor(m.s, id)
       case Err(_) => Leave(m, t)
       case Ok(props) => At(m, t, Prepared(props)))
    case ConnectFirst(env) =>
      var conn := JdbcConnect(id, PhaseOf(m, t).props, m.disk, env);
      if conn.ok then
        At(m, t, FirstOpen).(disk := conn.disk, rekeys := m.rekeys + if m.s.rekey.Some? then 1 else 0)
      else Leave(m, t).(disk := conn.disk)
    case Move => At(m, t, Moved).(s := AfterConnect(m.s))
    case Cache =>
      (match PropsFor(m.s, id)
       case Err(_) => Leave(m, t)
       case Ok(props) => At(m, t, Cached).(s := m.s.(entries := props)))
    case Finish => Leave(m, t).(s := m.s.(initialized := true))
    case EnterClear => At(m, t, ClearWaiting)
    case ClearMaps => At(m, t, ClearedMapsOnly).(s := ClearedMaps(m.s), mapsCleared := true)
    case ClearEntries => At(m, t, Outside).(s := m.s.(entries := map[]), allCleared := true)
  }

  /** The statements of the connection a step makes, if it makes one. */
  function Executes(m: Machine, t: Thread, a: Action, id: Text): Option<Result<seq<Text>>> {
    match ConnectsWith(m, t, a)
    case None => None
    case Some(entries) => Some(JdbcStatements(id, entries))
  }

  datatype Step = Step(thread: Thread, action: Action)

  predicate CanRun(m: Machine, steps: seq<Step>, id: Text)
    decreases |steps|
  {
    steps != [] ==>
      && Enabled(m, steps[0].thread, steps[0].action)
      && CanRun(Do(m, steps[0].thread, steps[0].action, id), steps[1..], id)
  }

  function After(m: Machine, steps: seq<Step>, id: Text): Machine
    requires CanRun(m, steps, id)
    decreases |steps|
  {
    if steps == [] then m else After(Do(m, steps[0].thread, steps[0].action, id), steps[1..], id)
  }

  /******* The invariant *******/

  ghost predicate CarriesPassword(entries: Entries, id: Text, statements: seq<Text>) {
    PASSWORD in entries && entries[PASSWORD] == Packed(id, statements) && HEX_KEY_MODE !in entries
  }

  /** The object while no `clear` has begun, given what its initialising thread, if any, has done. */
  ghost predicate Unclear(plan: Plan, id: Text, s: State, p: Option<Phase>)
    requires plan.Valid()
  {
    match p
    case None => JvmFresh(plan, s) || JvmReady(plan, id, s)
    case Some(Prepared(props)) => JvmFresh(plan, s) && CarriesPassword(props, id, plan.First())
    case Some(FirstOpen) => JvmFresh(plan, s)
    case Some(Moved) => JvmFresh(plan, s.(key := Some(plan.KeyMap()), rekey := plan.RekeyMap()))
                        && s.key == Some(plan.LaterMap()) && s.rekey == None
    case Some(Cached) => JvmReady(plan, id, s.(initialized := true)) && !s.initialized
    case _ => false
  }

  /** The object once the maps have been cleared. */
  ghost predicate MapsAreCleared(plan: Plan, id: Text, s: State)
    requires plan.Valid()
  {
    && s.key == Some(map[]) && (s.rekey == None || s.rekey == Some(map[]))
    && (PASSWORD in s.entries ==> s.initialized && CarriesPassword(s.entries, id, plan.Later()))
  }

  /** The phase of the thread that is initialising the object, if one is. */
  function Initialising(m: Machine): Option<Phase> {
    if m.lock.Some? && IsInitialising(PhaseOf(m, m.lock.value)) then Some(PhaseOf(m, m.lock.value)) else None
  }

  /** One thread holds the lock, exactly when it is taken; the flags are as the phases say. */
  ghost predicate LockInv(m: Machine) {
    && (forall t: Thread :: HoldsLock(PhaseOf(m, t)) <==> m.lock == Some(t))
    && (forall t: Thread :: PhaseOf(m, t) == ClearedMapsOnly ==> m.mapsCleared)
    && (forall t: Thread :: PhaseOf(m, t) == Fast || PhaseOf(m, t) == LateFast ==> m.s.initialized)
  }

  /** The object, when the thread initialising it, if any, is in phase `i`. */
  ghost predicate ObjectInv(
      plan: Plan, id: Text, s: State, i: Option<Phase>, mapsCleared: bool, allCleared: bool, rekeys: nat)
    requires plan.Valid()
  {
    && (if mapsCleared then i.None? && MapsAreCleared(plan, id, s) else Unclear(plan, id, s, i))
    && (allCleared ==> mapsCleared && PASSWORD !in s.entries)
    && rekeys <= 1
    && (!s.initialized && (i.None? || i.value.Prepared?) ==> rekeys == 0)
  }

  ghost predicate Inv(plan: Plan, id: Text, m: Machine)
    requires plan.Valid()
  {
    LockInv(m) && ObjectInv(plan, id, m.s, Initialising(m), m.mapsCleared, m.allCleared, m.rekeys)
  }

  function Created(s: State, disk: Disk): Machine {
    Machine(s, None, map[], disk, false, false, 0)
  }

  lemma CreatedInv(plan: Plan, id: Text, s: State, disk: Disk)
    requires plan.Valid() && JvmFresh(plan, s)
    ensures Inv(plan, id, Created(s, disk))
  {
    hide JvmFresh;
  }

  /******* Each step keeps it *******/

  /** Packing a fresh object. */
  lemma PackFresh(plan: Plan, id: Text, s: State)
    requires plan.Valid() && JvmFresh(plan, s)
    ensures PropsFor(s, id).Ok? && CarriesPassword(PropsFor(s, id).value, id, plan.First())
  {
    hide Compiled, Packed, KeyList, RekeyList, Swapped;
    PlanCompiles(plan);
    assert KeyList(plan.config, plan.key) + [] == KeyList(plan.config, plan.key);
  }

  /** Packing again after the swap cannot fail. */
  lemma PackLater(plan: Plan, id: Text, s: State)
    requires plan.Valid() && s.key == Some(plan.LaterMap()) && s.rekey == None && PASSWORD !in s.entries
    ensures PropsFor(s, id).Ok? && CarriesPassword(PropsFor(s, id).value, id, plan.Later())
  {
    hide Compiled, Packed, KeyList, RekeyList, Swapped, KeyedPragmas;
    PlanCompiles(plan);
    assert plan.Later() + [] == plan.Later();
  }

  lemma PackMoved(plan: Plan, id: Text, s: State)
    requires plan.Valid() && Unclear(plan, id, s, Some(Moved))
    ensures PropsFor(s, id).Ok? && Unclear(plan, id, s.(entries := PropsFor(s, id).value), Some(Cached))
  {
    PackLater(plan, id, s);
    CachedIsReady(plan, id, s, PropsFor(s, id).value);
  }

  lemma CachedIsReady(plan: Plan, id: Text, s: State, props: Entries)
    requires plan.Valid() && s.key == Some(plan.LaterMap()) && s.rekey == None && !s.initialized
    requires CarriesPassword(props, id, plan.Later())
    ensures Unclear(plan, id, s.(entries := props), Some(Cached))
  {
    hide Packed, Plan.Later, Plan.KeyMap, Plan.RekeyMap, Plan.LaterMap;
  }

  lemma MoveFresh(plan: Plan, id: Text, s: State)
    requires plan.Valid() && JvmFresh(plan, s)
    ensures Unclear(plan, id, AfterConnect(s), Some(Moved))
  {
    hide Compiled, KeyedPragmas, Swapped;
  }

  lemma PackCleared(plan: Plan, id: Text, s: State)
    requires plan.Valid() && MapsAreCleared(plan, id, s) && !s.initialized
    ensures PropsFor(s, id).Err?
  {
    assert Compiled(map[]).Err?;
  }

  lemma FreshOrReady(plan: Plan, id: Text, s: State)
    requires plan.Valid() && (JvmFresh(plan, s) || JvmReady(plan, id, s))
    ensures s.initialized <==> JvmReady(plan, id, s)
    ensures !s.initialized <==> JvmFresh(plan, s)
  {}

  /** Clearing the maps when no thread is initialising. */
  lemma ClearUnclear(plan: Plan, id: Text, s: State)
    requires plan.Valid() && Unclear(plan, id, s, None)
    ensures MapsAreCleared(plan, id, ClearedMaps(s))
  {
    hide Packed, KeyedPragmas;
  }

  lemma FlagStays(s: State)
    ensures AfterConnect(s).initialized == s.initialized && ClearedMaps(s).initialized == s.initialized
  {}

  /** What a step does to its own thread and to the lock. */
  lemma PhaseStep(m: Machine, t: Thread, a: Action, id: Text)
    requires Enabled(m, t, a)
    ensures var next, p, q := Do(m, t, a, id), PhaseOf(m, t), PhaseOf(Do(m, t, a, id), t);
      && (forall u: Thread :: u != t ==> PhaseOf(next, u) == PhaseOf(m, u))
      && next.lock == (if HoldsLock(q) && !HoldsLock(p) then Some(t)
                       else if HoldsLock(p) && !HoldsLock(q) then None else m.lock)
      && (HoldsLock(q) && !HoldsLock(p) ==> m.lock == None)
  {
    hide PropsFor, AfterConnect, ClearedMaps, JdbcConnect;
  }

  /** And to the flags. */
  lemma FlagStep(m: Machine, t: Thread, a: Action, id: Text)
    requires Enabled(m, t, a)
    ensures var next, q := Do(m, t, a, id), PhaseOf(Do(m, t, a, id), t);
      && (m.mapsCleared ==> next.mapsCleared) && (q == ClearedMapsOnly ==> next.mapsCleared)
      && (m.s.initialized ==> next.s.initialized)
      && (q == Fast || q == LateFast ==> next.s.initialized)
  {
    hide PropsFor, AfterConnect, ClearedMaps, JdbcConnect;
    FlagStays(m.s);
  }

  /** The lock part, and which phase the initialising thread is in afterwards. */
  lemma LockStep(m: Machine, t: Thread, a: Action, id: Text)
    requires LockInv(m) && Enabled(m, t, a)
    ensures var next := Do(m, t, a, id);
      var p := PhaseOf(next, t);
      && LockInv(next)
      && Initialising(next)
         == if HoldsLock(PhaseOf(m, t)) || HoldsLock(p) then (if IsInitialising(p) then Some(p) else None)
            else Initialising(m)
    ensures HoldsLock(PhaseOf(m, t)) && IsInitialising(PhaseOf(m, t)) ==> Initialising(m) == Some(PhaseOf(m, t))
    ensures HoldsLock(PhaseOf(m, t)) && !IsInitialising(PhaseOf(m, t)) ==> Initialising(m) == None
    ensures m.lock == None ==> Initialising(m) == None
    ensures PhaseOf(m, t) == ClearedMapsOnly ==> m.mapsCleared
  {
    hide Do, Enabled, PhaseOf;
    PhaseStep(m, t, a, id);
    FlagStep(m, t, a, id);
  }

  lemma ObjectPrepare(plan: Plan, id: Text, s: State, mapsCleared: bool, allCleared: bool, rekeys: nat)
    requires plan.Valid() && ObjectInv(plan, id, s, None, mapsCleared, allCleared, rekeys) && !s.initialized
    ensures match PropsFor(s, id)
      case Err(_) => mapsCleared
      case Ok(props) => ObjectInv(plan, id, s, Some(Prepared(props)), mapsCleared, allCleared, rekeys)
  {
    hide MapsAreCleared, JvmFresh, JvmReady, CarriesPassword, PropsFor;
    if mapsCleared {
      PackCleared(plan, id, s);
    } else {
      FreshOrReady(plan, id, s);
      PackFresh(plan, id, s);
    }
  }

  lemma ObjectConnectFirst(
      plan: Plan, id: Text, s: State, props: Entries, mapsCleared: bool, allCleared: bool, rekeys: nat)
    requires plan.Valid() && ObjectInv(plan, id, s, Some(Prepared(props)), mapsCleared, allCleared, rekeys)
    ensures ObjectInv(plan, id, s, None, mapsCleared, allCleared, rekeys)
    ensures ObjectInv(plan, id, s, Some(FirstOpen), mapsCleared, allCleared, rekeys + if s.rekey.Some? then 1 else 0)
  {
    hide MapsAreCleared, JvmFresh, JvmReady, CarriesPassword;
    FreshShape(plan, s);
  }

  lemma ObjectMove(plan: Plan, id: Text, s: State, mapsCleared: bool, allCleared: bool, rekeys: nat)
    requires plan.Valid() && ObjectInv(plan, id, s, Some(FirstOpen), mapsCleared, allCleared, rekeys)
    ensures ObjectInv(plan, id, AfterConnect(s), Some(Moved), mapsCleared, allCleared, rekeys)
  {
    assert JvmFresh(plan, s);
    MoveFresh(plan, id, s);
    hide MapsAreCleared, Unclear, JvmFresh, Swapped;
  }

  lemma ObjectCache(plan: Plan, id: Text, s: State, mapsCleared: bool, allCleared: bool, rekeys: nat)
    requires plan.Valid() && ObjectInv(plan, id, s, Some(Moved), mapsCleared, allCleared, rekeys)
    ensures PropsFor(s, id).Ok?
    ensures ObjectInv(plan, id, s.(entries := PropsFor(s, id).value), Some(Cached), mapsCleared, allCleared, rekeys)
  {
    PackMoved(plan, id, s);
    hide MapsAreCleared, Unclear, PropsFor;
  }

  lemma ObjectFinish(plan: Plan, id: Text, s: State, mapsCleared: bool, allCleared: bool, rekeys: nat)
    requires plan.Valid() && ObjectInv(plan, id, s, Some(Cached), mapsCleared, allCleared, rekeys)
    ensures ObjectInv(plan, id, s.(initialized := true), None, mapsCleared, allCleared, rekeys)
  {
    hide MapsAreCleared, JvmFresh, JvmReady;
  }

  lemma ObjectClearMaps(plan: Plan, id: Text, s: State, mapsCleared: bool, allCleared: bool, rekeys: nat)
    requires plan.Valid() && ObjectInv(plan, id, s, None, mapsCleared, allCleared, rekeys)
    ensures ObjectInv(plan, id, ClearedMaps(s), None, true, allCleared, rekeys)
  {
    if !mapsCleared {
      ClearUnclear(plan, id, s);
    }
    hide Unclear;
  }

  lemma ObjectClearEntries(plan: Plan, id: Text, s: State, i: Option<Phase>, allCleared: bool, rekeys: nat)
    requires plan.Valid() && ObjectInv(plan, id, s, i, true, allCleared, rekeys)
    ensures ObjectInv(plan, id, s.(entries := map[]), i, true, true, rekeys)
  {
    hide Unclear;
  }

  /** The object part, by what the step does to the object. */
  lemma ObjectStep(plan: Plan, id: Text, m: Machine, t: Thread, a: Action)
    requires plan.Valid() && Inv(plan, id, m) && Enabled(m, t, a)
    ensures var next := Do(m, t, a, id);
      ObjectInv(plan, id, next.s, Initialising(next), next.mapsCleared, next.allCleared, next.rekeys)
  {
    hide ObjectInv, PropsFor, LockInv, Initialising, AfterConnect, ClearedMaps, JdbcConnect;
    LockStep(m, t, a, id);
    match a
    case Prepare => ObjectPrepare(plan, id, m.s, m.mapsCleared, m.allCleared, m.rekeys);
    case ConnectFirst(_) =>
      ObjectConnectFirst(plan, id, m.s, PhaseOf(m, t).props, m.mapsCleared, m.allCleared, m.rekeys);
    case Move => ObjectMove(plan, id, m.s, m.mapsCleared, m.allCleared, m.rekeys);
    case Cache => ObjectCache(plan, id, m.s, m.mapsCleared, m.allCleared, m.rekeys);
    case Finish => ObjectFinish(plan, id, m.s, m.mapsCleared, m.allCleared, m.rekeys);
    case ClearMaps => ObjectClearMaps(plan, id, m.s, m.mapsCleared, m.allCleared, m.rekeys);
    case ClearEntries => ObjectClearEntries(plan, id, m.s, Initialising(m), m.allCleared, m.rekeys);
    case _ =>
  }

  lemma StepKeepsInv(plan: Plan, id: Text, m: Machine, t: Thread, a: Action)
    requires plan.Valid() && Inv(plan, id, m) && Enabled(m, t, a)
    ensures Inv(plan, id, Do(m, t, a, id))
  {
    hide ObjectInv, LockInv, Do, Enabled;
    LockStep(m, t, a, id);
    ObjectStep(plan, id, m, t, a);
  }

  lemma {:induction false} RunKeepsInv(plan: Plan, id: Text, m: Machine, steps: seq<Step>)
    requires plan.Valid() && Inv(plan, id, m) && CanRun(m, steps, id)
    ensures Inv(plan, id, After(m, steps, id))
    decreases |steps|
  {
    hide Inv, Do, Enabled;
    if steps != [] {
      StepKeepsInv(plan, id, m, steps[0].thread, steps[0].action);
      RunKeepsInv(plan, id, Do(m, steps[0].thread, steps[0].action, id), steps[1..]);
    }
  }

  /******* Main results *******/

  /**
   * Under every interleaving of any number of calls: once initialised and until cleared there is
   * no rekey map and the cached password packs the current key map; while not initialised, and
   * nobody is in the middle of it, the object is as it was created, so that a failed first
   * connection changes nothing; and at most one successful connection carried a rekey list.
   */
  lemma EveryInterleaving(plan: Plan, id: Text, s: State, disk: Disk, steps: seq<Step>)
    requires plan.Valid() && JvmFresh(plan, s) && CanRun(Created(s, disk), steps, id)
    ensures var m := After(Created(s, disk), steps, id);
      && (m.s.initialized && !m.mapsCleared ==>
           && m.s.rekey == None && m.s.key == Some(plan.LaterMap())
           && Compiled(m.s.key.value) == Ok(plan.Later())
           && CarriesPassword(m.s.entries, id, plan.Later()))
      && (!m.s.initialized && !m.mapsCleared && m.lock == None ==> JvmFresh(plan, m.s))
      && m.rekeys <= 1
  {
    hide CanRun, After, JvmFresh, Packed, Compiled;
    CreatedInv(plan, id, s, disk);
    RunKeepsInv(plan, id, Created(s, disk), steps);
    PlanCompiles(plan);
    var m := After(Created(s, disk), steps, id);
    if !m.mapsCleared && (m.s.initialized || m.lock == None) {
      UnclearCases(plan, id, m.s, Initialising(m));
    }
  }

  lemma UnclearCases(plan: Plan, id: Text, s: State, i: Option<Phase>)
    requires plan.Valid() && Unclear(plan, id, s, i)
    ensures s.initialized ==> JvmReady(plan, id, s)
    ensures i.None? && !s.initialized ==> JvmFresh(plan, s)
  {
    hide Packed, KeyedPragmas, Swapped;
  }

  /** The statements of properties that carry a password. */
  lemma PasswordStatements(id: Text, entries: Entries, statements: seq<Text>)
    requires IsKeyIdentifier(id) && CarriesPassword(entries, id, statements)
    ensures JdbcStatements(id, entries) == Ok(JvmList(statements))
  {
    hide Intercepted, PragmaKeySql, Packed;
    IdentifierFits(id);
    CarrierRoundTrip(id, statements);
    PackedNonEmpty(id, statements);
  }

  /** What a connection made from a ready object executes. */
  lemma ReadyStatements(plan: Plan, id: Text, m: Machine)
    requires plan.Valid() && IsKeyIdentifier(id) && Inv(plan, id, m) && m.s.initialized
    ensures var statements := JdbcStatements(id, m.s.entries);
      statements == Ok(JvmList(plan.Later())) || (statements == Ok([]) && PASSWORD !in m.s.entries)
    ensures m.allCleared ==> JdbcStatements(id, m.s.entries) == Ok([])
  {
    hide Packed, JvmList, LockInv, Initialising, KeyedPragmas, Swapped, Intercepted;
    if !m.mapsCleared {
      UnclearCases(plan, id, m.s, Initialising(m));
    }
    if PASSWORD in m.s.entries {
      PasswordStatements(id, m.s.entries, plan.Later());
    }
  }

  /** What the first connection executes. */
  lemma FirstStatements(plan: Plan, id: Text, m: Machine, t: Thread)
    requires plan.Valid() && IsKeyIdentifier(id) && Inv(plan, id, m) && PhaseOf(m, t).Prepared?
    ensures !m.mapsCleared && JdbcStatements(id, PhaseOf(m, t).props) == Ok(JvmList(plan.First()))
  {
    hide Packed, JvmList, MapsAreCleared, JvmFresh, JdbcStatements;
    assert HoldsLock(PhaseOf(m, t));
    assert Initialising(m) == Some(PhaseOf(m, t));
    PasswordStatements(id, PhaseOf(m, t).props, plan.First());
  }

  /**
   * Under every interleaving, a connection executes the first list, the later list, or nothing:
   * the first only while initialising, the later one only when ready, and after `clear` is
   * through nothing at all.
   */
  lemma EveryConnection(
      plan: Plan, id: Text, s: State, disk: Disk, steps: seq<Step>, t: Thread, a: Action)
    requires plan.Valid() && IsKeyIdentifier(id) && JvmFresh(plan, s) && CanRun(Created(s, disk), steps, id)
    requires var m := After(Created(s, disk), steps, id); Enabled(m, t, a) && Executes(m, t, a, id).Some?
    ensures var m := After(Created(s, disk), steps, id);
      var statements := Executes(m, t, a, id).value;
      && (a.ConnectFirst? ==> statements == Ok(JvmList(plan.First())) && !m.mapsCleared)
      && (a.ConnectReady? ==>
           statements == Ok(JvmList(plan.Later())) || (statements == Ok([]) && PASSWORD !in m.s.entries))
      && (m.allCleared ==> statements == Ok([]))
  {
    hide CanRun, After, JvmFresh, JdbcStatements, JvmList, ObjectInv;
    CreatedInv(plan, id, s, disk);
    RunKeepsInv(plan, id, Created(s, disk), steps);
    var m := After(Created(s, disk), steps, id);
    if a.ConnectReady? {
      ReadyStatements(plan, id, m);
    } else {
      FirstStatements(plan, id, m, t);
      ClearedMeansMapsCleared(plan, id, m);
    }
  }

  lemma ClearedMeansMapsCleared(plan: Plan, id: Text, m: Machine)
    requires plan.Valid() && Inv(plan, id, m)
    ensures m.allCleared ==> m.mapsCleared
  {
    hide MapsAreCleared, Unclear;
  }

  /******* The file *******/

  /** The first connection has succeeded, though the object may not say so yet. */
  predicate HasOpened(m: Machine) {
    m.s.initialized || Initialising(m) in {Some(FirstOpen), Some(Moved), Some(Cached)}
  }

  /**
   * The file holds its contents. If the keys arrive, its encryption is the old one or their target,
   * the latter once a connection has succeeded. If the rekey is cut off no connection has succeeded,
   * and the encryption is the old one or the target with what is left of it. Otherwise no connection
   * has succeeded and the encryption is the old one.
   */
  ghost predicate FileInv(plan: Plan, original: Disk, m: Machine)
    requires plan.Valid()
  {
    match ArrivalOfPlan(true, plan)
    case Works(arrived) =>
      IsSafe(arrived, original, m.disk) && (HasOpened(m) ==> m.disk.codec == TargetCodec(arrived))
    case Halfway(arrived) => IsSafe(arrived, original, m.disk) && !HasOpened(m)
    case Idle => SameButWal(original, m.disk) && !HasOpened(m)
  }

  lemma OpenedStep(m: Machine, t: Thread, a: Action, id: Text)
    requires LockInv(m) && Enabled(m, t, a)
    ensures var next := Do(m, t, a, id);
      && (HasOpened(next) && !HasOpened(m) ==> a.ConnectFirst? && PhaseOf(next, t) == FirstOpen)
      && (a.ConnectReady? ==> m.s.initialized)
      && (!a.ConnectReady? && !a.ConnectFirst? ==> next.disk == m.disk)
  {
    LockStep(m, t, a, id);
    hide LockInv, PropsFor, AfterConnect, ClearedMaps, JdbcConnect, Initialising;
    FlagStays(m.s);
  }

  /** A connection that executes nothing. */
  lemma ConnectNothing(disk: Disk, env: Env)
    ensures SameButWal(disk, Connect(disk, [], env).disk)
  {}

  /** What the connection of a ready object does to the file. */
  lemma ReadyKeepsFile(plan: Plan, id: Text, original: Disk, m: Machine, env: Env)
    requires plan.Valid() && IsKeyIdentifier(id) && Inv(plan, id, m) && m.s.initialized
    requires ArrivalOfPlan(true, plan).Works? && IsSafe(ArrivalOfPlan(true, plan).plan, original, m.disk)
    requires m.disk.codec == TargetCodec(ArrivalOfPlan(true, plan).plan)
    ensures var arrived, conn := ArrivalOfPlan(true, plan).plan, JdbcConnect(id, m.s.entries, m.disk, env);
      && IsSafe(arrived, original, conn.disk) && conn.disk.codec == TargetCodec(arrived)
      && (!m.mapsCleared ==> arrived.Valid() && (conn.ok <==> RunsThrough(env, arrived.Later())))
  {
    hide Inv, ArrivalOfPlan, JvmList, JdbcStatements, Plan.First, Plan.Later, RunsThrough, Connect, TargetCodec;
    var arrived := ArrivalOfPlan(true, plan).plan;
    ArrivedPlan(true, plan);
    WorkingFirst(true, plan, m.disk, env);
    ReadyStatements(plan, id, m);
    LaterStays(arrived, original, m.disk, env);
    ConnectNothing(m.disk, env);
    if !m.mapsCleared {
      ReadyCarries(plan, id, m);
    }
  }

  lemma ReadyCarries(plan: Plan, id: Text, m: Machine)
    requires plan.Valid() && IsKeyIdentifier(id) && Inv(plan, id, m) && m.s.initialized && !m.mapsCleared
    ensures JdbcStatements(id, m.s.entries) == Ok(JvmList(plan.Later()))
  {
    hide Packed, JvmList, LockInv, Initialising, JdbcStatements, Plan.KeyMap, Plan.RekeyMap, Plan.LaterMap, Plan.Later;
    UnclearCases(plan, id, m.s, Initialising(m));
    PasswordStatements(id, m.s.entries, plan.Later());
  }

  /** What the first connection does to it. */
  lemma FirstKeepsFile(plan: Plan, id: Text, original: Disk, m: Machine, t: Thread, env: Env)
    requires plan.Valid() && IsKeyIdentifier(id) && Inv(plan, id, m) && PhaseOf(m, t).Prepared?
    requires FileInv(plan, original, m)
    ensures var conn := JdbcConnect(id, PhaseOf(m, t).props, m.disk, env);
      match ArrivalOfPlan(true, plan)
      case Works(arrived) =>
        IsSafe(arrived, original, conn.disk) && (conn.ok ==> conn.disk.codec == TargetCodec(arrived))
      case Halfway(arrived) => IsSafe(arrived, original, conn.disk) && !conn.ok
      case Idle => SameButWal(original, conn.disk) && !conn.ok
  {
    hide Inv, ArrivalOfPlan, JvmList, JdbcStatements, Plan.First, Plan.Later, RunsThrough, Connect, TargetCodec,
      SourceCodec;
    FirstStatements(plan, id, m, t);
    match ArrivalOfPlan(true, plan) {
      case Works(arrived) =>
        ArrivedPlan(true, plan);
        WorkingFirst(true, plan, m.disk, env);
        FirstIsSafe(arrived, original, m.disk, env);
      case Halfway(arrived) => HalfwayFirst(true, plan, m.disk, env);
      case Idle => IdleFirst(true, plan, m.disk, env);
    }
  }

  lemma PreparedIsNotOpen(plan: Plan, id: Text, m: Machine, t: Thread)
    requires plan.Valid() && Inv(plan, id, m) && PhaseOf(m, t).Prepared?
    ensures !HasOpened(m)
  {
    hide CarriesPassword, MapsAreCleared, Plan.KeyMap, Plan.RekeyMap;
    assert HoldsLock(PhaseOf(m, t));
  }

  lemma StepKeepsFile(plan: Plan, id: Text, original: Disk, m: Machine, t: Thread, a: Action)
    requires plan.Valid() && IsKeyIdentifier(id) && Inv(plan, id, m) && Enabled(m, t, a)
    requires FileInv(plan, original, m)
    ensures FileInv(plan, original, Do(m, t, a, id))
  {
    hide ObjectInv, LockInv, HasOpened, ArrivalOfPlan, JdbcConnect, IsSafe, TargetCodec, SameButWal, PropsFor,
      AfterConnect, ClearedMaps;
    OpenedStep(m, t, a, id);
    OpenedFlag(m);
    match a
    case ConnectReady(env) =>
      if ArrivalOfPlan(true, plan).Works? {
        ReadyKeepsFile(plan, id, original, m, env);
      }
    case ConnectFirst(env) =>
      FirstKeepsFile(plan, id, original, m, t, env);
      PreparedIsNotOpen(plan, id, m, t);
    case _ =>
  }

  lemma OpenedFlag(m: Machine)
    ensures m.s.initialized ==> HasOpened(m)
  {}

  lemma {:induction false} RunKeepsFile(plan: Plan, id: Text, original: Disk, m: Machine, steps: seq<Step>)
    requires plan.Valid() && IsKeyIdentifier(id) && Inv(plan, id, m) && CanRun(m, steps, id)
    requires FileInv(plan, original, m)
    ensures FileInv(plan, original, After(m, steps, id))
    decreases |steps|
  {
    hide Inv, FileInv, Do, Enabled;
    if steps != [] {
      StepKeepsInv(plan, id, m, steps[0].thread, steps[0].action);
      StepKeepsFile(plan, id, original, m, steps[0].thread, steps[0].action);
      RunKeepsFile(plan, id, original, Do(m, steps[0].thread, steps[0].action, id), steps[1..]);
    }
  }

  /**
   * The file is safe under every interleaving, after every step, as `FileInv` says for each fate
   * of the keys. Until a `clear` every connection of a ready object opens it, unless disturbed.
   */
  lemma EveryFile(plan: Plan, id: Text, s: State, disk: Disk, steps: seq<Step>, env: Env)
    requires plan.Valid() && IsKeyIdentifier(id) && JvmFresh(plan, s) && CanRun(Created(s, disk), steps, id)
    ensures var m := After(Created(s, disk), steps, id);
      && FileInv(plan, disk, m)
      && (m.s.initialized && !m.mapsCleared ==>
           && ArrivalOfPlan(true, plan).Works? && ArrivalOfPlan(true, plan).plan.Valid()
           && (JdbcConnect(id, m.s.entries, m.disk, env).ok <==>
                RunsThrough(env, ArrivalOfPlan(true, plan).plan.Later())))
  {
    hide CanRun, After, JvmFresh, Inv, JdbcConnect, RunsThrough, ArrivalOfPlan, Plan.Later, HasOpened, IsSafe,
      TargetCodec;
    CreatedInv(plan, id, s, disk);
    CreatedFile(plan, s, disk);
    RunKeepsInv(plan, id, Created(s, disk), steps);
    RunKeepsFile(plan, id, disk, Created(s, disk), steps);
    var m := After(Created(s, disk), steps, id);
    OpenedFlag(m);
    if m.s.initialized && !m.mapsCleared && ArrivalOfPlan(true, plan).Works? {
      ArrivedPlan(true, plan);
      ReadyKeepsFile(plan, id, disk, m, env);
    }
  }

  lemma CreatedFile(plan: Plan, s: State, disk: Disk)
    requires plan.Valid() && JvmFresh(plan, s)
    ensures FileInv(plan, disk, Created(s, disk))
  {
    hide ArrivalOfPlan, TargetCodec, Plan.KeyMap, Plan.RekeyMap;
  }

  /******* An undisturbed call *******/

  function StepsOf(t: Thread, actions: seq<Action>): seq<Step> {
    seq(|actions|, i requires 0 <= i < |actions| => Step(t, actions[i]))
  }

  lemma RunCons(m: Machine, t: Thread, a: Action, actions: seq<Action>, id: Text)
    requires Enabled(m, t, a) && CanRun(Do(m, t, a, id), StepsOf(t, actions), id)
    ensures CanRun(m, StepsOf(t, [a] + actions), id)
    ensures After(m, StepsOf(t, [a] + actions), id) == After(Do(m, t, a, id), StepsOf(t, actions), id)
  {
    hide Enabled, Do;
    assert StepsOf(t, [a] + actions)[1..] == StepsOf(t, actions);
  }

  lemma RunNil(m: Machine, t: Thread, id: Text)
    ensures CanRun(m, StepsOf(t, []), id) && After(m, StepsOf(t, []), id) == m
  {}

  /** One step of a thread: its phase and the object afterwards. */
  lemma OneStep(m: Machine, t: Thread, a: Action, id: Text)
    requires Enabled(m, t, a)
    requires a == Enter ==> !m.s.initialized
    requires a == Prepare || a == Cache ==> PropsFor(m.s, id).Ok?
    ensures var next := Do(m, t, a, id);
      match a
      case Enter => PhaseOf(next, t) == Waiting && next.s == m.s && next.lock == m.lock
      case Acquire => PhaseOf(next, t) == Locked && next.s == m.s
      case Prepare => PhaseOf(next, t) == Prepared(PropsFor(m.s, id).value) && next.s == m.s
      case ConnectFirst(env) =>
        var conn := JdbcConnect(id, PhaseOf(m, t).props, m.disk, env);
        next.s == m.s && next.disk == conn.disk && (conn.ok ==> PhaseOf(next, t) == FirstOpen)
      case Move => PhaseOf(next, t) == Moved && next.s == AfterConnect(m.s)
      case Cache => PhaseOf(next, t) == Cached && next.s == m.s.(entries := PropsFor(m.s, id).value)
      case Finish => next.s == m.s.(initialized := true)
      case _ => true
    ensures !a.ConnectReady? && !a.ConnectFirst? ==> Do(m, t, a, id).disk == m.disk
  {
    hide PropsFor, AfterConnect, JdbcConnect;
  }

  /** The second half of a first call, from its open connection on. */
  lemma CompletingCall(m: Machine, t: Thread, id: Text)
    requires PhaseOf(m, t) == FirstOpen && PropsFor(AfterConnect(m.s), id).Ok?
    ensures var steps, moved := StepsOf(t, [Move, Cache, Finish]), AfterConnect(m.s);
      && CanRun(m, steps, id)
      && After(m, steps, id).s == moved.(entries := PropsFor(moved, id).value, initialized := true)
      && After(m, steps, id).disk == m.disk
  {
    hide PropsFor, AfterConnect, CanRun, After, StepsOf;
    OneStep(m, t, Move, id);
    var m1 := Do(m, t, Move, id);
    OneStep(m1, t, Cache, id);
    var m2 := Do(m1, t, Cache, id);
    OneStep(m2, t, Finish, id);
    var m3 := Do(m2, t, Finish, id);
    RunNil(m3, t, id);
    RunCons(m2, t, Finish, [], id);
    RunCons(m1, t, Cache, [Finish] + [], id);
    RunCons(m, t, Move, [Cache] + ([Finish] + []), id);
    assert [Move] + ([Cache] + ([Finish] + [])) == [Move, Cache, Finish];
  }

  /** The first half: the thread gets the lock, packs and connects. */
  lemma OpeningCall(m: Machine, t: Thread, env: Env, tail: seq<Action>, id: Text) returns (next: Machine)
    requires !m.s.initialized && m.lock == None && PhaseOf(m, t) == Outside && PropsFor(m.s, id).Ok?
    ensures var conn := JdbcConnect(id, PropsFor(m.s, id).value, m.disk, env);
      next.s == m.s && next.disk == conn.disk && (conn.ok ==> PhaseOf(next, t) == FirstOpen)
    ensures CanRun(next, StepsOf(t, tail), id) ==>
      var steps := StepsOf(t, [Enter, Acquire, Prepare] + [ConnectFirst(env)] + tail);
      CanRun(m, steps, id) && After(m, steps, id) == After(next, StepsOf(t, tail), id)
  {
    hide PropsFor, CanRun, After, StepsOf, JdbcConnect;
    OneStep(m, t, Enter, id);
    var m1 := Do(m, t, Enter, id);
    OneStep(m1, t, Acquire, id);
    var m2 := Do(m1, t, Acquire, id);
    OneStep(m2, t, Prepare, id);
    var m3 := Do(m2, t, Prepare, id);
    OneStep(m3, t, ConnectFirst(env), id);
    next := Do(m3, t, ConnectFirst(env), id);
    if CanRun(next, StepsOf(t, tail), id) {
      RunCons(m3, t, ConnectFirst(env), tail, id);
      RunCons(m2, t, Prepare, [ConnectFirst(env)] + tail, id);
      RunCons(m1, t, Acquire, [Prepare] + ([ConnectFirst(env)] + tail), id);
      RunCons(m, t, Enter, [Acquire] + ([Prepare] + ([ConnectFirst(env)] + tail)), id);
      assert [Enter] + ([Acquire] + ([Prepare] + ([ConnectFirst(env)] + tail)))
          == [Enter, Acquire, Prepare] + [ConnectFirst(env)] + tail;
    }
  }

  /**
   * A first call that nothing interleaves with does exactly what the method does: taking its
   * steps one after the other gives the state that `WithKeyProps` specifies.
   */
  lemma SequentialCall(plan: Plan, id: Text, m: Machine, t: Thread, env: Env)
    requires plan.Valid() && IsKeyIdentifier(id) && JvmFresh(plan, m.s) && m.lock == None && PhaseOf(m, t) == Outside
    ensures var (next, conn) := WithKeyProps(m.s, id, m.disk, env);
      var steps := StepsOf(t, [Enter, Acquire, Prepare] + [ConnectFirst(env)]
                              + if conn.ok then [Move, Cache, Finish] else []);
      CanRun(m, steps, id) && After(m, steps, id).s == next && After(m, steps, id).disk == conn.disk
  {
    PackFresh(plan, id, m.s);
    MoveFresh(plan, id, m.s);
    PackMoved(plan, id, AfterConnect(m.s));
    FreshShape(plan, m.s);
    FirstCallState(plan, id, m.s, m.disk, env);
    hide WithKeyProps, PropsFor, AfterConnect, JvmFresh, CanRun, After, StepsOf, Unclear, CarriesPassword,
      JdbcConnect;
    var (next, conn) := WithKeyProps(m.s, id, m.disk, env);
    var tail := if conn.ok then [Move, Cache, Finish] else [];
    var m4 := OpeningCall(m, t, env, tail, id);
    if conn.ok {
      CompletingCall(m4, t, id);
    } else {
      RunNil(m4, t, id);
    }
  }

  lemma FirstCallState(plan: Plan, id: Text, s: State, disk: Disk, env: Env)
    requires plan.Valid() && IsKeyIdentifier(id) && JvmFresh(plan, s)
    ensures var (next, conn) := WithKeyProps(s, id, disk, env);
      if conn.ok then
        var moved := AfterConnect(s);
        PropsFor(moved, id).Ok? && next == moved.(entries := PropsFor(moved, id).value, initialized := true)
      else next == s
    ensures PropsFor(s, id).Ok?
    ensures WithKeyProps(s, id, disk, env).1 == JdbcConnect(id, PropsFor(s, id).value, disk, env)
  {
    JvmFirst(plan, id, s, disk, env);
    PackFresh(plan, id, s);
    MoveFresh(plan, id, s);
    PackMoved(plan, id, AfterConnect(s));
    FreshShape(plan, s);
    CallShape(s, id, disk, env);
    hide WithKeyProps, PropsFor, AfterConnect, Unclear, JvmReady, JvmFresh, Connect, JdbcConnect;
  }

  lemma FreshShape(plan: Plan, s: State)
    requires plan.Valid() && JvmFresh(plan, s)
    ensures !s.initialized && PASSWORD !in s.entries && s.key.Some?
  {}

  /** A first call, whatever was packed. */
  lemma CallShape(s: State, id: Text, disk: Disk, env: Env)
    requires !s.initialized && PASSWORD !in s.entries && s.key.Some?
    requires PropsFor(s, id).Ok? && PropsFor(AfterConnect(s), id).Ok?
    ensures var (next, conn) := WithKeyProps(s, id, disk, env);
      && conn == JdbcConnect(id, PropsFor(s, id).value, disk, env)
      && (conn.ok ==>
           next == AfterConnect(s).(entries := PropsFor(AfterConnect(s), id).value, initialized := true))
  {
    hide PackedEntries, JdbcConnect, Swapped;
  }

  /** A call on a ready object, by a thread that finds it so at once or only behind the lock. */
  lemma ReadyCall(m: Machine, t: Thread, env: Env, id: Text)
    requires m.s.initialized && (PhaseOf(m, t) == Outside || (PhaseOf(m, t) == Waiting && m.lock == None))
    ensures var steps := StepsOf(
        t, (if PhaseOf(m, t) == Outside then [Enter] else [Acquire, Recheck]) + [ConnectReady(env)]);
      var (next, conn) := WithKeyProps(m.s, id, m.disk, env);
      && CanRun(m, steps, id)
      && After(m, steps, id).s == next == m.s && After(m, steps, id).disk == conn.disk
      && After(m, steps, id).lock == m.lock && PhaseOf(After(m, steps, id), t) == Outside
  {
    hide JdbcConnect, CanRun, After, StepsOf;
    if PhaseOf(m, t) == Outside {
      var m1 := Do(m, t, Enter, id);
      var m2 := Do(m1, t, ConnectReady(env), id);
      RunNil(m2, t, id);
      RunCons(m1, t, ConnectReady(env), [], id);
      RunCons(m, t, Enter, [ConnectReady(env)] + [], id);
      assert [Enter] + ([ConnectReady(env)] + []) == [Enter] + [ConnectReady(env)];
    } else {
      var m1 := Do(m, t, Acquire, id);
      var m2 := Do(m1, t, Recheck, id);
      var m3 := Do(m2, t, ConnectReady(env), id);
      RunNil(m3, t, id);
      RunCons(m2, t, ConnectReady(env), [], id);
      RunCons(m1, t, Recheck, [ConnectReady(env)] + [], id);
      RunCons(m, t, Acquire, [Recheck] + ([ConnectReady(env)] + []), id);
      assert [Acquire] + ([Recheck] + ([ConnectReady(env)] + [])) == [Acquire, Recheck] + [ConnectReady(env)];
    }
  }

  /** A `clear` that nothing interleaves with leaves what the method leaves. */
  lemma ClearCall(m: Machine, t: Thread, id: Text)
    requires m.lock == None && PhaseOf(m, t) == Outside
    ensures var steps := StepsOf(t, [EnterClear, ClearMaps, ClearEntries]);
      && CanRun(m, steps, id)
      && After(m, steps, id).s == Cleared(m.s) && After(m, steps, id).disk == m.disk
      && After(m, steps, id).mapsCleared && After(m, steps, id).allCleared
  {
    hide CanRun, After, StepsOf;
    var m1 := Do(m, t, EnterClear, id);
    var m2 := Do(m1, t, ClearMaps, id);
    var m3 := Do(m2, t, ClearEntries, id);
    RunNil(m3, t, id);
    RunCons(m2, t, ClearEntries, [], id);
    RunCons(m1, t, ClearMaps, [ClearEntries] + [], id);
    RunCons(m, t, EnterClear, [ClearMaps] + ([ClearEntries] + []), id);
    assert [EnterClear] + ([ClearMaps] + ([ClearEntries] + [])) == [EnterClear, ClearMaps, ClearEntries];
  }

  /******* Nobody waits for ever *******/

  /** How far a thread is from leaving: each of its steps, but for looking again, takes it nearer. */
  function Remaining(p: Phase): nat {
    match p
    case Outside => 0
    case Fast | LateFast | ClearedMapsOnly | Cached => 1
    case Moved | ClearWaiting => 2
    case FirstOpen => 3
    case Prepared(_) => 4
    case Locked => 5
    case Waiting => 6
  }

  /** What a thread that is inside does next. */
  function NextOf(m: Machine, t: Thread, env: Env): Action {
    match PhaseOf(m, t)
    case Fast | LateFast => ConnectReady(env)
    case Waiting => Acquire
    case Locked => if m.s.initialized then Recheck else Prepare
    case Prepared(_) => ConnectFirst(env)
    case FirstOpen => Move
    case Moved => Cache
    case Cached => Finish
    case ClearWaiting => ClearMaps
    case ClearedMapsOnly => ClearEntries
    case Outside => Enter
  }

  /**
   * No deadlock: after any steps, each thread inside can take its next step, which brings it nearer
   * to leaving, or else waits for the lock, and then the thread that holds the lock can.
   */
  lemma NoDeadlock(plan: Plan, id: Text, s: State, disk: Disk, steps: seq<Step>, t: Thread, env: Env)
    requires plan.Valid() && JvmFresh(plan, s) && CanRun(Created(s, disk), steps, id)
    requires PhaseOf(After(Created(s, disk), steps, id), t) != Outside
    ensures var m := After(Created(s, disk), steps, id);
      var u := if Enabled(m, t, NextOf(m, t, env)) || m.lock.None? then t else m.lock.value;
      && Enabled(m, u, NextOf(m, u, env))
      && Remaining(PhaseOf(Do(m, u, NextOf(m, u, env), id), u)) < Remaining(PhaseOf(m, u))
      && (u != t ==> PhaseOf(m, t) in {Waiting, ClearWaiting})
  {
    hide JvmFresh, CanRun, After, ObjectInv, PropsFor, JdbcConnect, AfterConnect, ClearedMaps;
    CreatedInv(plan, id, s, disk);
    RunKeepsInv(plan, id, Created(s, disk), steps);
    var m := After(Created(s, disk), steps, id);
    StepsNearer(m, t, env, id);
    if m.lock.Some? {
      assert HoldsLock(PhaseOf(m, m.lock.value));
      StepsNearer(m, m.lock.value, env, id);
    }
  }

  lemma StepsNearer(m: Machine, t: Thread, env: Env, id: Text)
    requires PhaseOf(m, t) != Outside
    ensures Enabled(m, t, NextOf(m, t, env)) <==> PhaseOf(m, t) in {Waiting, ClearWaiting} ==> m.lock.None?
    ensures Enabled(m, t, NextOf(m, t, env)) ==>
      Remaining(PhaseOf(Do(m, t, NextOf(m, t, env), id), t)) < Remaining(PhaseOf(m, t))
  {
    hide PropsFor, JdbcConnect, AfterConnect, ClearedMaps;
  }
}
