/** The pool as a concurrent protocol (internal/dbx/pool.go with the handlers of
    internal/server/handlers_connections.go): every interleaving of Get, Test, evictIdle, Stop and
    the update and delete handlers, one locked section or store access at a time. */
module PoolProtocol {
  import opened Text
  import opened Pool

  datatype Connection =
    Connection(name: string, kind: string, host: string, port: int, username: string, password: string,
               database: string, sslMode: string, params: string)

  /** What happened around the Get that built an entry, between its store read and its insertion:
      an eviction by a handler, or a delete handler between its eviction and its store delete. */
  datatype Overlap = Overlap(evicted: bool, deleting: bool)

  const NO_OVERLAP := Overlap(false, false)

  /** A call in flight, by the last step it took. */
  datatype Thread =
    | GetMissed(id: int)
    | GetRead(id: int, conn: Connection, overlap: Overlap)
    | GetOpened(id: int, driver: DriverId, overlap: Overlap, pinged: bool)
    | TestOpened(driver: DriverId)
    | UpdateWritten(id: int)
    | DeleteEvicted(id: int)
    | SweepCutoff(cutoff: Time)

  datatype World = World(
    pool: State,
    store: map<int, Connection>,
    usedIds: set<int>,                    // ids the store has given out; it gives none twice
    everOpened: map<DriverId, Connection>,    // every driver ever opened, with its configuration
    leaked: set<DriverId>,                // held by a Get that died inserting into the nil map
    built: map<DriverId, Overlap>,        // history: what overlapped the Get that inserted the driver
    threads: map<nat, Thread>,
    now: Time,
    idleTTL: nat)

  datatype Action =
    | Tick(now: Time)
    | GetLookUp(t: nat, id: int)
    | GetReadStore(t: nat)
    | GetOpen(t: nat, ok: bool, driver: DriverId)
    | GetPing(t: nat, ok: bool)
    | GetInsert(t: nat)
    | TestOpen(t: nat, ok: bool, conn: Connection, driver: DriverId)
    | TestClose(t: nat)
    | CreateRow(id: int, conn: Connection)
    | UpdateWrite(t: nat, id: int, conn: Connection, updatePassword: bool, ok: bool)
    | UpdateEvict(t: nat)
    | DeleteEvict(t: nat, id: int)
    | DeleteRow(t: nat, ok: bool)
    | SweepStart(t: nat)
    | SweepLocked(t: nat)
    | StopPool

  // ---------- steps ----------

  predicate Deleting(w: World, id: int) {
    exists t :: t in w.threads && w.threads[t] == DeleteEvicted(id)
  }

  predicate Updating(w: World, id: int) {
    exists t :: t in w.threads && w.threads[t] == UpdateWritten(id)
  }

  function Done(w: World, t: nat): World { w.(threads := w.threads - {t}) }

  function At(w: World, t: nat, th: Thread): World { w.(threads := w.threads[t := th]) }

  /** The Gets in flight for an id that have read the store see the eviction pass by. */
  function Crossed(th: Thread, id: int): Thread {
    match th
    case GetRead(i, c, o) => if i == id then GetRead(i, c, o.(evicted := true)) else th
    case GetOpened(i, d, o, p) => if i == id then GetOpened(i, d, o.(evicted := true), p) else th
    case _ => th
  }

  function EvictedBy(w: World, id: int): World {
    w.(pool := Evicted(w.pool, id), threads := map t | t in w.threads :: Crossed(w.threads[t], id))
  }

  /** The row written by Update: without a new password the old one stays, and a missing row stays missing. */
  function RowUpdated(store: map<int, Connection>, id: int, conn: Connection, updatePassword: bool)
    : map<int, Connection>
  {
    if id !in store then store
    else store[id := if updatePassword then conn else conn.(password := store[id].password)]
  }

  /** The successor of a world, or None if the action cannot happen there. */
  ghost function Step(w: World, a: Action): Option<World> {
    match a
    case Tick(now) => if now < w.now then None else Some(w.(now := now))
    case GetLookUp(t, id) =>
      if t in w.threads then None
      else
        var (p, hit) := LookedUp(w.pool, id, w.now);
        if hit.Some? then Some(w.(pool := p)) else Some(At(w, t, GetMissed(id)))
    case GetReadStore(t) =>
      if t !in w.threads || !w.threads[t].GetMissed? then None
      else
        var id := w.threads[t].id;
        if id !in w.store then Some(Done(w, t))
        else Some(At(w, t, GetRead(id, w.store[id], Overlap(false, Deleting(w, id)))))
    case GetOpen(t, ok, d) =>
      if t !in w.threads || !w.threads[t].GetRead? || d in w.everOpened then None
      else if !ok then Some(Done(w, t))
      else
        var th := w.threads[t];
        Some(At(w, t, GetOpened(th.id, d, th.overlap, false)).(everOpened := w.everOpened[d := th.conn]))
    case GetPing(t, ok) =>
      if t !in w.threads || !w.threads[t].GetOpened? || w.threads[t].pinged then None
      else if ok then Some(At(w, t, w.threads[t].(pinged := true)))
      else Some(Done(w, t).(pool := CloseDriver(w.pool, w.threads[t].driver)))
    case GetInsert(t) =>
      if t !in w.threads || !w.threads[t].GetOpened? || !w.threads[t].pinged then None
      else
        var th := w.threads[t];
        var (p, outcome) := InsertedOrYielded(w.pool, th.id, th.driver, w.now);
        var w' := Done(w, t).(pool := p);
        if outcome.Inserted? then Some(w'.(built := w.built[th.driver := th.overlap]))
        else if outcome.Yielded? then Some(w')
        else Some(w'.(leaked := w.leaked + {th.driver}))
    case TestOpen(t, ok, conn, d) =>
      if t in w.threads || d in w.everOpened then None
      else if !ok then Some(w)
      else Some(At(w, t, TestOpened(d)).(everOpened := w.everOpened[d := conn]))
    case TestClose(t) =>
      if t !in w.threads || !w.threads[t].TestOpened? then None
      else Some(Done(w, t).(pool := CloseDriver(w.pool, w.threads[t].driver)))
    case CreateRow(id, conn) =>
      if id in w.usedIds || id in w.store then None
      else Some(w.(store := w.store[id := conn], usedIds := w.usedIds + {id}))
    case UpdateWrite(t, id, conn, updatePassword, ok) =>
      if t in w.threads then None
      else if !ok then Some(w)
      else Some(At(w, t, UpdateWritten(id)).(store := RowUpdated(w.store, id, conn, updatePassword)))
    case UpdateEvict(t) =>
      if t !in w.threads || !w.threads[t].UpdateWritten? then None
      else Some(EvictedBy(Done(w, t), w.threads[t].id))
    case DeleteEvict(t, id) =>
      if t in w.threads then None else Some(At(EvictedBy(w, id), t, DeleteEvicted(id)))
    case DeleteRow(t, ok) =>
      if t !in w.threads || !w.threads[t].DeleteEvicted? then None
      else if !ok then Some(Done(w, t))
      else Some(Done(w, t).(store := w.store - {w.threads[t].id}))
    case SweepStart(t) =>
      if t in w.threads then None else Some(At(w, t, SweepCutoff(w.now - w.idleTTL)))
    case SweepLocked(t) =>
      if t !in w.threads || !w.threads[t].SweepCutoff? then None
      else Some(Done(w, t).(pool := IdleEvicted(w.pool, w.threads[t].cutoff)))
    case StopPool => if w.pool.stopped then None else Some(w.(pool := Stopped(w.pool)))
  }

  ghost function Run(w: World, actions: seq<Action>): Option<World>
    decreases |actions|
  {
    if actions == [] then Some(w)
    else
      match Step(w, actions[0])
      case None => None
      case Some(w') => Run(w', actions[1..])
  }

  predicate Initial(w: World) {
    && w.pool == State(map[], multiset{}, false) && w.threads == map[] && w.store.Keys <= w.usedIds
    && w.everOpened == map[] && w.leaked == {} && w.built == map[]
  }

  predicate IsGetStep(a: Action) {
    a.GetLookUp? || a.GetReadStore? || a.GetOpen? || a.GetPing? || a.GetInsert?
  }

  // ---------- where every driver is ----------

  datatype Place = Cached(id: int) | Held(t: nat) | Leaked | Closed

  predicate Holds(th: Thread, d: DriverId) {
    (th.GetOpened? || th.TestOpened?) && th.driver == d
  }

  predicate IsAt(w: World, d: DriverId, p: Place) {
    match p
    case Cached(id) => id in w.pool.drivers && w.pool.drivers[id].driver == d
    case Held(t) => t in w.threads && Holds(w.threads[t], d)
    case Leaked => d in w.leaked
    case Closed => d in w.pool.closed
  }

  /** The place map is right about the world: every driver is where the map says and nowhere else. */
  ghost predicate Consistent(w: World, place: map<DriverId, Place>) {
    && place.Keys == w.everOpened.Keys
    && (forall id :: id in w.pool.drivers ==>
          w.pool.drivers[id].driver in place && place[w.pool.drivers[id].driver] == Cached(id))
    && (forall t, d :: t in w.threads && Holds(w.threads[t], d) ==> d in place && place[d] == Held(t))
    && (forall d :: d in w.leaked ==> d in place && place[d] == Leaked)
    && (forall d :: w.pool.closed[d] == if d in place && place[d] == Closed then 1 else 0)
    && (forall d :: d in place ==> IsAt(w, d, place[d]))
    && (w.pool.stopped ==> w.pool.drivers == map[])
    && (w.leaked != {} ==> w.pool.stopped)
  }

  /** Ranging over entries that hold their own drivers closes each of those drivers once. */
  lemma {:induction false} DriversOfPlaced(m: map<int, Entry>, ids: set<int>, place: map<DriverId, Place>, d: DriverId)
    requires ids <= m.Keys
    requires forall id :: id in m ==> m[id].driver in place && place[m[id].driver] == Cached(id)
    ensures DriversOf(m, ids)[d] ==
            if d in place && place[d].Cached? && place[d].id in ids && m[place[d].id].driver == d then 1 else 0
    decreases ids
  {
    if ids != {} {
      SomeMember(ids);
      var id :| id in ids && DriversOf(m, ids) == multiset{m[id].driver} + DriversOf(m, ids - {id});
      DriversOfPlaced(m, ids - {id}, place, d);
    }
  }

  /** Where the driver of a Get ends up in the second locked section. */
  function InsertedAt(w: World, id: int, d: DriverId): Place {
    var outcome := InsertedOrYielded(w.pool, id, d, w.now).1;
    if outcome.Inserted? then Cached(id) else if outcome.Yielded? then Closed else Leaked
  }

  /** The places after a step that can be taken. */
  ghost function Moved(w: World, a: Action, place: map<DriverId, Place>): map<DriverId, Place>
    requires Step(w, a).Some?
  {
    match a
    case GetOpen(t, ok, d) => if ok then place[d := Held(t)] else place
    case GetPing(t, ok) => if ok then place else place[w.threads[t].driver := Closed]
    case GetInsert(t) => place[w.threads[t].driver := InsertedAt(w, w.threads[t].id, w.threads[t].driver)]
    case TestOpen(t, ok, _, d) => if ok then place[d := Held(t)] else place
    case TestClose(t) => place[w.threads[t].driver := Closed]
    case UpdateEvict(t) => Without(w.pool, {w.threads[t].id}, place)
    case DeleteEvict(_, id) => Without(w.pool, {id}, place)
    case SweepLocked(t) => Without(w.pool, IdleIds(w.pool, w.threads[t].cutoff), place)
    case StopPool => Without(w.pool, w.pool.drivers.Keys, place)
    case _ => place
  }

  /** The drivers cached under some ids are closed. */
  function Without(p: State, ids: set<int>, place: map<DriverId, Place>): map<DriverId, Place> {
    map d | d in place ::
      if place[d].Cached? && place[d].id in ids && place[d].id in p.drivers then Closed else place[d]
  }

  // ---------- every step keeps the places ----------

  /** A step that changes neither pool, nor drivers, nor who holds what. */
  lemma SameHoldings(w: World, w': World, place: map<DriverId, Place>)
    requires Consistent(w, place)
    requires w'.pool == w.pool && w'.everOpened.Keys == w.everOpened.Keys && w'.leaked == w.leaked
    requires forall t, d :: (t in w.threads && Holds(w.threads[t], d)) <==> (t in w'.threads && Holds(w'.threads[t], d))
    ensures Consistent(w', place)
  {
    forall d | d in place ensures IsAt(w', d, place[d]) {
      assert IsAt(w, d, place[d]);
    }
  }

  lemma TouchKeepsPlaces(w: World, id: int, place: map<DriverId, Place>)
    requires Consistent(w, place) && id in w.pool.drivers
    ensures Consistent(w.(pool := Touch(w.pool, id, w.now)), place)
  {
    var w' := w.(pool := Touch(w.pool, id, w.now));
    forall d | d in place ensures IsAt(w', d, place[d]) {
      assert IsAt(w, d, place[d]);
    }
  }

  lemma OpenKeepsPlaces(w: World, t: nat, th: Thread, d: DriverId, conn: Connection, place: map<DriverId, Place>)
    requires Consistent(w, place) && d !in w.everOpened
    requires t in w.threads ==> w.threads[t].GetRead?
    requires (th.GetOpened? || th.TestOpened?) && th.driver == d
    ensures Consistent(At(w, t, th).(everOpened := w.everOpened[d := conn]), place[d := Held(t)])
  {
    var w', place' := At(w, t, th).(everOpened := w.everOpened[d := conn]), place[d := Held(t)];
    forall e | e in place' ensures IsAt(w', e, place'[e]) {
      if e != d { assert IsAt(w, e, place[e]); }
    }
    forall u, e | u in w'.threads && Holds(w'.threads[u], e) ensures e in place' && place'[e] == Held(u) {
      if u != t { assert Holds(w.threads[u], e); }
    }
    assert w.pool.closed[d] == 0;
  }

  /** A call that holds a driver leaves. What the others hold stays theirs. */
  lemma OthersStillHeld(w: World, t: nat, place: map<DriverId, Place>, u: nat, e: DriverId)
    requires Consistent(w, place) && t in w.threads && (w.threads[t].GetOpened? || w.threads[t].TestOpened?)
    requires u in Done(w, t).threads && Holds(Done(w, t).threads[u], e)
    ensures e in place && place[e] == Held(u) && e != w.threads[t].driver
  {
    assert Holds(w.threads[t], w.threads[t].driver);
    assert Holds(w.threads[u], e);
  }

  /** Every other driver stays where it is, if the pool and the leaked drivers only grow. */
  lemma OthersStillAt(w: World, t: nat, place: map<DriverId, Place>, w': World, e: DriverId)
    requires Consistent(w, place) && t in w.threads && (w.threads[t].GetOpened? || w.threads[t].TestOpened?)
    requires w'.threads == Done(w, t).threads && w.leaked <= w'.leaked && w.pool.closed <= w'.pool.closed
    requires forall id :: id in w.pool.drivers ==> id in w'.pool.drivers && w'.pool.drivers[id] == w.pool.drivers[id]
    requires e in place && e != w.threads[t].driver
    ensures IsAt(w', e, place[e])
  {
    assert IsAt(w, e, place[e]);
  }

  /** Closing a held driver counts one more closing, for it alone. */
  lemma CloseHeldCount(w: World, t: nat, place: map<DriverId, Place>, e: DriverId)
    requires Consistent(w, place) && t in w.threads && (w.threads[t].GetOpened? || w.threads[t].TestOpened?)
    ensures var d := w.threads[t].driver;
            && d in place && place[d] == Held(t)
            && CloseDriver(w.pool, d).closed[e] ==
               if e in place[d := Closed] && place[d := Closed][e] == Closed then 1 else 0
  {
    assert Holds(w.threads[t], w.threads[t].driver);
  }

  lemma ClosedPlaces(w: World, t: nat, place: map<DriverId, Place>, w': World, place': map<DriverId, Place>)
    requires Consistent(w, place) && t in w.threads && (w.threads[t].GetOpened? || w.threads[t].TestOpened?)
    requires var d := w.threads[t].driver; d in place && place[d] == Held(t) && place' == place[d := Closed]
    requires w'.threads == Done(w, t).threads && w'.everOpened == w.everOpened && w'.leaked == w.leaked
    requires w'.pool.drivers == w.pool.drivers && w'.pool.stopped == w.pool.stopped && w.pool.closed <= w'.pool.closed
    requires forall e :: w'.pool.closed[e] == if e in place' && place'[e] == Closed then 1 else 0
    ensures Consistent(w', place')
  {
    forall e | e in place' ensures IsAt(w', e, place'[e]) {
      ClosedOrStillAt(w, t, place, w', e);
    }
    forall u, e | u in w'.threads && Holds(w'.threads[u], e) ensures e in place' && place'[e] == Held(u) {
      OthersStillHeld(w, t, place, u, e);
    }
  }

  lemma ClosedOrStillAt(w: World, t: nat, place: map<DriverId, Place>, w': World, e: DriverId)
    requires Consistent(w, place) && t in w.threads && (w.threads[t].GetOpened? || w.threads[t].TestOpened?)
    requires w'.threads == Done(w, t).threads && w'.leaked == w.leaked
    requires w'.pool.drivers == w.pool.drivers && w.pool.closed <= w'.pool.closed
    requires w.threads[t].driver in w'.pool.closed && (e in place || e == w.threads[t].driver)
    ensures IsAt(w', e, place[w.threads[t].driver := Closed][e])
  {
    if e != w.threads[t].driver { OthersStillAt(w, t, place, w', e); }
  }

  lemma CloseHeldKeepsPlaces(w: World, t: nat, place: map<DriverId, Place>)
    requires Consistent(w, place) && t in w.threads && (w.threads[t].GetOpened? || w.threads[t].TestOpened?)
    ensures var d := w.threads[t].driver;
            Consistent(Done(w, t).(pool := CloseDriver(w.pool, d)), place[d := Closed])
  {
    var d := w.threads[t].driver;
    var w', place' := Done(w, t).(pool := CloseDriver(w.pool, d)), place[d := Closed];
    CloseHeldCount(w, t, place, d);
    forall e ensures w'.pool.closed[e] == if e in place' && place'[e] == Closed then 1 else 0 {
      CloseHeldCount(w, t, place, e);
    }
    ClosedPlaces(w, t, place, w', place');
  }

  /** A driver held by a Get goes into the empty slot of the map. */
  lemma CacheKeepsPlaces(w: World, t: nat, place: map<DriverId, Place>, w': World)
    requires Consistent(w, place) && t in w.threads && w.threads[t].GetOpened?
    requires w.threads[t].id !in w.pool.drivers && !w.pool.stopped
    requires var th := w.threads[t];
             w' == Done(w, t).(pool := w.pool.(drivers := w.pool.drivers[th.id := Entry(th.driver, w.now)]),
                               built := w'.built)
    ensures Consistent(w', place[w.threads[t].driver := Cached(w.threads[t].id)])
  {
    var id, d := w.threads[t].id, w.threads[t].driver;
    assert Holds(w.threads[t], d);
    var place' := place[d := Cached(id)];
    forall e | e in place' ensures IsAt(w', e, place'[e]) {
      if e != d { OthersStillAt(w, t, place, w', e); }
    }
    forall u, e | u in w'.threads && Holds(w'.threads[u], e) ensures e in place' && place'[e] == Held(u) {
      OthersStillHeld(w, t, place, u, e);
    }
  }

  lemma LeakKeepsPlaces(w: World, t: nat, place: map<DriverId, Place>)
    requires Consistent(w, place) && t in w.threads && w.threads[t].GetOpened? && w.pool.stopped
    ensures var d := w.threads[t].driver;
            Consistent(Done(w, t).(leaked := w.leaked + {d}), place[d := Leaked])
  {
    var d := w.threads[t].driver;
    assert Holds(w.threads[t], d);
    var w', place' := Done(w, t).(leaked := w.leaked + {d}), place[d := Leaked];
    forall e | e in place' ensures IsAt(w', e, place'[e]) {
      if e != d { OthersStillAt(w, t, place, w', e); }
    }
    forall u, e | u in w'.threads && Holds(w'.threads[u], e) ensures e in place' && place'[e] == Held(u) {
      OthersStillHeld(w, t, place, u, e);
    }
  }

  /** Some ids are dropped from the map and their drivers closed. */
  lemma DropKeepsPlaces(w: World, ids: set<int>, p: State, place: map<DriverId, Place>)
    requires Consistent(w, place) && ids <= w.pool.drivers.Keys
    requires p.drivers == w.pool.drivers - ids
    requires p.closed == w.pool.closed + DriversOf(w.pool.drivers, ids)
    requires p.stopped ==> p.drivers == map[]
    requires w.pool.stopped ==> p.stopped
    ensures Consistent(w.(pool := p), Without(w.pool, ids, place))
  {
    var w', place' := w.(pool := p), Without(w.pool, ids, place);
    forall d ensures p.closed[d] == if d in place' && place'[d] == Closed then 1 else 0 {
      DriversOfPlaced(w.pool.drivers, ids, place, d);
      if d in place { assert IsAt(w, d, place[d]); }
    }
    forall d | d in place' ensures IsAt(w', d, place'[d]) {
      assert IsAt(w, d, place[d]);
    }
  }

  lemma DriversOfOne(m: map<int, Entry>, id: int)
    requires id in m
    ensures DriversOf(m, {id}) == multiset{m[id].driver}
  {
    DriversOfRemove(m, {id}, id);
    assert {id} - {id} == {};
  }

  /** Eviction of one id, with the Gets in flight for it marked. */
  lemma EvictKeepsPlaces(w: World, id: int, place: map<DriverId, Place>)
    requires Consistent(w, place)
    ensures Consistent(EvictedBy(w, id), Without(w.pool, {id}, place))
  {
    var place' := Without(w.pool, {id}, place);
    if id in w.pool.drivers {
      DriversOfOne(w.pool.drivers, id);
      DropKeepsPlaces(w, {id}, Evicted(w.pool, id), place);
    } else {
      assert place' == place;
    }
    SameHoldings(w.(pool := Evicted(w.pool, id)), EvictedBy(w, id), place');
  }

  lemma ThreadlessKeepsPlaces(w: World, t: nat, place: map<DriverId, Place>)
    requires Consistent(w, place)
    requires t in w.threads ==> !w.threads[t].GetOpened? && !w.threads[t].TestOpened?
    ensures Consistent(Done(w, t), place)
    ensures forall th: Thread :: !th.GetOpened? && !th.TestOpened? ==> Consistent(At(w, t, th), place)
  {
    SameHoldings(w, Done(w, t), place);
    forall th: Thread | !th.GetOpened? && !th.TestOpened? ensures Consistent(At(w, t, th), place) {
      SameHoldings(w, At(w, t, th), place);
    }
  }

  lemma InsertKeepsPlaces(w: World, t: nat, place: map<DriverId, Place>)
    requires Consistent(w, place) && Step(w, GetInsert(t)).Some?
    ensures Consistent(Step(w, GetInsert(t)).value, Moved(w, GetInsert(t), place))
  {
    var th := w.threads[t];
    if th.id in w.pool.drivers {
      CloseHeldKeepsPlaces(w, t, place);
      TouchKeepsPlaces(Done(w, t).(pool := CloseDriver(w.pool, th.driver)), th.id, place[th.driver := Closed]);
    } else if w.pool.stopped {
      LeakKeepsPlaces(w, t, place);
    } else {
      CacheKeepsPlaces(w, t, place, Step(w, GetInsert(t)).value);
    }
  }

  lemma GetStepKeepsPlaces(w: World, a: Action, place: map<DriverId, Place>)
    requires Consistent(w, place) && Step(w, a).Some?
    requires IsGetStep(a)
    ensures Consistent(Step(w, a).value, Moved(w, a, place))
  {
    var w' := Step(w, a).value;
    match a
    case GetLookUp(t, id) =>
      if id in w.pool.drivers { TouchKeepsPlaces(w, id, place); } else { ThreadlessKeepsPlaces(w, t, place); }
    case GetReadStore(t) => ThreadlessKeepsPlaces(w, t, place);
    case GetOpen(t, ok, d) =>
      if ok {
        OpenKeepsPlaces(w, t, GetOpened(w.threads[t].id, d, w.threads[t].overlap, false), d, w.threads[t].conn, place);
      } else {
        ThreadlessKeepsPlaces(w, t, place);
      }
    case GetPing(t, ok) =>
      if ok { SameHoldings(w, w', place); } else { CloseHeldKeepsPlaces(w, t, place); }
    case GetInsert(t) => InsertKeepsPlaces(w, t, place);
  }

  lemma EvictStepKeepsPlaces(w: World, a: Action, place: map<DriverId, Place>)
    requires Consistent(w, place) && Step(w, a).Some? && (a.UpdateEvict? || a.DeleteEvict?)
    ensures Consistent(Step(w, a).value, Moved(w, a, place))
  {
    match a
    case UpdateEvict(t) =>
      ThreadlessKeepsPlaces(w, t, place);
      EvictKeepsPlaces(Done(w, t), w.threads[t].id, place);
    case DeleteEvict(t, id) =>
      EvictKeepsPlaces(w, id, place);
      ThreadlessKeepsPlaces(EvictedBy(w, id), t, Without(w.pool, {id}, place));
  }

  lemma SweepStepKeepsPlaces(w: World, a: Action, place: map<DriverId, Place>)
    requires Consistent(w, place) && Step(w, a).Some? && (a.SweepLocked? || a.StopPool?)
    ensures Consistent(Step(w, a).value, Moved(w, a, place))
  {
    var w' := Step(w, a).value;
    match a
    case SweepLocked(t) =>
      ThreadlessKeepsPlaces(w, t, place);
      DropKeepsPlaces(Done(w, t), IdleIds(w.pool, w.threads[t].cutoff), w'.pool, place);
    case StopPool =>
      assert w.pool.drivers - w.pool.drivers.Keys == map[];
      DropKeepsPlaces(w, w.pool.drivers.Keys, w'.pool, place);
  }

  lemma StepKeepsPlaces(w: World, a: Action, place: map<DriverId, Place>)
    requires Consistent(w, place) && Step(w, a).Some?
    ensures Consistent(Step(w, a).value, Moved(w, a, place))
  {
    var w' := Step(w, a).value;
    match a
    case Tick(_) => SameHoldings(w, w', place);
    case TestOpen(t, ok, conn, d) => if ok { OpenKeepsPlaces(w, t, TestOpened(d), d, conn, place); }
    case TestClose(t) => CloseHeldKeepsPlaces(w, t, place);
    case CreateRow(_, _) => SameHoldings(w, w', place);
    case UpdateWrite(t, id, _, _, ok) => if ok { SameHoldings(w, w', place); }
    case UpdateEvict(_) => EvictStepKeepsPlaces(w, a, place);
    case DeleteEvict(_, _) => EvictStepKeepsPlaces(w, a, place);
    case DeleteRow(t, ok) => SameHoldings(w, w', place);
    case SweepStart(t) => ThreadlessKeepsPlaces(w, t, place);
    case SweepLocked(_) => SweepStepKeepsPlaces(w, a, place);
    case StopPool => SweepStepKeepsPlaces(w, a, place);
    case _ => GetStepKeepsPlaces(w, a, place);
  }

  // ---------- ownership, over all runs ----------

  lemma {:induction false} RunKeepsPlaces(w: World, actions: seq<Action>, place: map<DriverId, Place>)
    returns (place': map<DriverId, Place>)
    requires Consistent(w, place) && Run(w, actions).Some?
    ensures Consistent(Run(w, actions).value, place')
    decreases |actions|
  {
    if actions == [] {
      place' := place;
    } else {
      StepKeepsPlaces(w, actions[0], place);
      place' := RunKeepsPlaces(Step(w, actions[0]).value, actions[1..], Moved(w, actions[0], place));
    }
  }

  function CachedUnder(w: World, d: DriverId): set<int> {
    set id | id in w.pool.drivers && w.pool.drivers[id].driver == d
  }

  function Holders(w: World, d: DriverId): set<nat> {
    set t | t in w.threads && Holds(w.threads[t], d)
  }

  /** In how many places a driver is: cached under ids, held by calls in flight, leaked, closings. */
  function Places(w: World, d: DriverId): nat {
    |CachedUnder(w, d)| + |Holders(w, d)| + (if d in w.leaked then 1 else 0) + w.pool.closed[d]
  }

  lemma ConsistentMeansOnePlace(w: World, place: map<DriverId, Place>, d: DriverId)
    requires Consistent(w, place)
    ensures Places(w, d) == if d in w.everOpened then 1 else 0
  {
    assert d in place ==> IsAt(w, d, place[d]);
    var ids: set<int> := if d in place && place[d].Cached? then {place[d].id} else {};
    var holders: set<nat> := if d in place && place[d].Held? then {place[d].t} else {};
    assert forall id: int :: id in CachedUnder(w, d) <==> id in ids;
    assert forall t: nat :: t in Holders(w, d) <==> t in holders;
    SameSet<int>(CachedUnder(w, d), ids);
    SameSet<nat>(Holders(w, d), holders);
  }

  /** In every interleaving each driver ever opened is in exactly one place: cached under one id,
      held by one call in flight, closed exactly once, or leaked by a Get that found the nil map.
      No other driver is anywhere. */
  lemma DriversOwnedOnce(w0: World, actions: seq<Action>, d: DriverId)
    requires Initial(w0) && Run(w0, actions).Some?
    ensures Places(Run(w0, actions).value, d) == if d in Run(w0, actions).value.everOpened then 1 else 0
  {
    assert Consistent(w0, map[]);
    var place := RunKeepsPlaces(w0, actions, map[]);
    ConsistentMeansOnePlace(Run(w0, actions).value, place, d);
  }

  /** The driver that Get returns when it takes this step, if it returns one. */
  function Returned(w: World, a: Action): Option<DriverId> {
    match a
    case GetLookUp(t, id) => LookedUp(w.pool, id, w.now).1
    case GetInsert(t) =>
      if t in w.threads && w.threads[t].GetOpened? then
        var outcome := InsertedOrYielded(w.pool, w.threads[t].id, w.threads[t].driver, w.now).1;
        if outcome.Inserted? then Some(w.threads[t].driver)
        else if outcome.Yielded? then Some(outcome.existing)
        else None
      else None
    case _ => None
  }

  /** Get returns a driver that is open at that moment and cached under the id asked for. */
  lemma ReturnedIsOpen(w0: World, actions: seq<Action>, a: Action)
    requires Initial(w0) && Run(w0, actions).Some?
    requires var w := Run(w0, actions).value; Step(w, a).Some? && Returned(w, a).Some?
    ensures var w := Run(w0, actions).value;
            var w', d := Step(w, a).value, Returned(w, a).value;
            var id := if a.GetLookUp? then a.id else w.threads[a.t].id;
            d in w'.everOpened && w'.pool.closed[d] == 0 && id in w'.pool.drivers && w'.pool.drivers[id].driver == d
  {
    assert Consistent(w0, map[]);
    var place := RunKeepsPlaces(w0, actions, map[]);
    var w := Run(w0, actions).value;
    StepKeepsPlaces(w, a, place);
  }

  /** A Get dies inserting, and leaks its driver, exactly if Stop came before. */
  lemma InsertLeaksIffStopped(w0: World, actions: seq<Action>, t: nat)
    requires Initial(w0) && Run(w0, actions).Some?
    requires Step(Run(w0, actions).value, GetInsert(t)).Some?
    ensures var w := Run(w0, actions).value;
            Step(w, GetInsert(t)).value.leaked != w.leaked <==> w.pool.stopped
  {
    assert Consistent(w0, map[]);
    var place := RunKeepsPlaces(w0, actions, map[]);
    var w := Run(w0, actions).value;
    assert Holds(w.threads[t], w.threads[t].driver);
  }

  predicate IsGet(th: Thread) { th.GetMissed? || th.GetRead? || th.GetOpened? }

  predicate NoGetInFlight(w: World) { forall t :: t in w.threads ==> !IsGet(w.threads[t]) }

  lemma {:induction false} NoGetStaysAway(w: World, actions: seq<Action>)
    requires NoGetInFlight(w) && w.leaked == {} && Run(w, actions).Some?
    requires forall i :: 0 <= i < |actions| ==> !actions[i].GetLookUp?
    ensures NoGetInFlight(Run(w, actions).value) && Run(w, actions).value.leaked == {}
    decreases |actions|
  {
    if actions != [] {
      NoGetAfterStep(w, actions[0]);
      NoGetStaysAway(Step(w, actions[0]).value, actions[1..]);
    }
  }

  lemma NoGetAfterStep(w: World, a: Action)
    requires NoGetInFlight(w) && w.leaked == {} && Step(w, a).Some? && !a.GetLookUp?
    ensures NoGetInFlight(Step(w, a).value) && Step(w, a).value.leaked == {}
  {
  }

  lemma {:induction false} RunConcat(w: World, a: seq<Action>, b: seq<Action>)
    ensures Run(w, a + b) == match Run(w, a) case None => None case Some(w') => Run(w', b)
    decreases |a|
  {
    if a == [] {
      assert a + b == b;
    } else {
      assert (a + b)[0] == a[0] && (a + b)[1..] == a[1..] + b;
      if Step(w, a[0]).Some? { RunConcat(Step(w, a[0]).value, a[1..], b); }
    }
  }

  /** Nothing leaks before Stop. */
  lemma NoLeakBeforeStop(w0: World, actions: seq<Action>)
    requires Initial(w0) && Run(w0, actions).Some? && !Run(w0, actions).value.pool.stopped
    ensures Run(w0, actions).value.leaked == {}
  {
    assert Consistent(w0, map[]);
    var _ := RunKeepsPlaces(w0, actions, map[]);
  }

  lemma NothingOpenMeansClosed(w: World, place: map<DriverId, Place>)
    requires Consistent(w, place) && w.pool.stopped && w.leaked == {}
    requires forall t :: t in w.threads ==> !w.threads[t].TestOpened? && !w.threads[t].GetOpened?
    ensures forall d :: d in w.everOpened ==> w.pool.closed[d] == 1
  {
    forall d | d in w.everOpened ensures w.pool.closed[d] == 1 {
      assert IsAt(w, d, place[d]);
    }
  }

  /** A clean stop: when no Get is in flight at Stop and none starts later, no driver leaks, and
      once no Test is in flight every driver ever opened has been closed exactly once. */
  lemma CleanStopClosesAll(w0: World, before: seq<Action>, after: seq<Action>)
    requires Initial(w0) && Run(w0, before).Some? && NoGetInFlight(Run(w0, before).value)
    requires Step(Run(w0, before).value, StopPool).Some?
    requires Run(Step(Run(w0, before).value, StopPool).value, after).Some?
    requires forall i :: 0 <= i < |after| ==> !after[i].GetLookUp?
    ensures var w := Run(Step(Run(w0, before).value, StopPool).value, after).value;
            && w.leaked == {}
            && ((forall t :: t in w.threads ==> !w.threads[t].TestOpened?) ==>
                  forall d :: d in w.everOpened ==> w.pool.closed[d] == 1)
  {
    var w1 := Run(w0, before).value;
    var w2 := Step(w1, StopPool).value;
    var w := Run(w2, after).value;
    assert Consistent(w0, map[]);
    var place1 := RunKeepsPlaces(w0, before, map[]);
    StepKeepsPlaces(w1, StopPool, place1);
    var place := RunKeepsPlaces(w2, after, Moved(w1, StopPool, place1));
    NoLeakBeforeStop(w0, before);
    NoGetStaysAway(w2, after);
    StaysStopped(w2, after);
    if forall t :: t in w.threads ==> !w.threads[t].TestOpened? {
      NothingOpenMeansClosed(w, place);
    }
  }

  lemma RunCons(w: World, a: Action, rest: seq<Action>)
    ensures Run(w, [a] + rest) == match Step(w, a) case None => None case Some(w') => Run(w', rest)
  {
    assert ([a] + rest)[1..] == rest;
  }

  lemma StepStaysStopped(w: World, a: Action)
    requires w.pool.stopped && Step(w, a).Some?
    ensures Step(w, a).value.pool.stopped
  {
  }

  lemma {:induction false} StaysStopped(w: World, actions: seq<Action>)
    requires w.pool.stopped && Run(w, actions).Some?
    ensures Run(w, actions).value.pool.stopped
    decreases |actions|
  {
    if actions != [] {
      StepStaysStopped(w, actions[0]);
      StaysStopped(Step(w, actions[0]).value, actions[1..]);
    }
  }

  /** An uninterrupted Get up to its ping, on an id that is not cached. */
  function GetUpToPing(t: nat, id: int, d: DriverId): seq<Action> {
    [GetLookUp(t, id)] + ([GetReadStore(t)] + ([GetOpen(t, true, d)] + ([GetPing(t, true)] + [])))
  }

  lemma GetReachesPing(w: World, t: nat, id: int, d: DriverId)
    requires t !in w.threads && id in w.store && id !in w.pool.drivers && d !in w.everOpened
    ensures Run(w, GetUpToPing(t, id, d)) ==
            Some(At(w, t, GetOpened(id, d, Overlap(false, Deleting(w, id)), true))
                 .(everOpened := w.everOpened[d := w.store[id]]))
  {
    var w1 := Step(w, GetLookUp(t, id)).value;
    assert Deleting(w1, id) <==> Deleting(w, id) by {
      assert forall u :: u in w.threads && w.threads[u] == DeleteEvicted(id) ==> w1.threads[u] == DeleteEvicted(id);
    }
    var w2 := Step(w1, GetReadStore(t)).value;
    var w3 := Step(w2, GetOpen(t, true, d)).value;
    var w4 := Step(w3, GetPing(t, true)).value;
    assert w4.threads == w.threads[t := GetOpened(id, d, Overlap(false, Deleting(w, id)), true)];
    RunCons(w3, GetPing(t, true), []);
    RunCons(w2, GetOpen(t, true, d), [GetPing(t, true)] + []);
    RunCons(w1, GetReadStore(t), [GetOpen(t, true, d)] + ([GetPing(t, true)] + []));
    RunCons(w, GetLookUp(t, id), [GetReadStore(t)] + ([GetOpen(t, true, d)] + ([GetPing(t, true)] + [])));
  }

  /** The hypothesis is needed: a Get that is past its lookup when Stop runs leaks its driver. */
  lemma StopDuringGetLeaks(w0: World, id: int, t: nat, d: DriverId)
    requires Initial(w0) && id in w0.store
    ensures var actions := GetUpToPing(t, id, d) + ([StopPool] + ([GetInsert(t)] + []));
            Run(w0, actions).Some? && Run(w0, actions).value.leaked == {d}
  {
    GetReachesPing(w0, t, id, d);
    var w4 := Run(w0, GetUpToPing(t, id, d)).value;
    var w5 := Step(w4, StopPool).value;
    RunCons(w5, GetInsert(t), []);
    RunCons(w4, StopPool, [GetInsert(t)] + []);
    RunConcat(w0, GetUpToPing(t, id, d), [StopPool] + ([GetInsert(t)] + []));
  }

  // ---------- idle eviction ----------

  predicate CutoffOld(w: World, th: Thread) { th.SweepCutoff? ==> th.cutoff <= w.now - w.idleTTL }

  predicate UsedInPast(p: State, now: Time) { forall id :: id in p.drivers ==> p.drivers[id].lastUsed <= now }

  predicate CutoffsOld(w: World) {
    UsedInPast(w.pool, w.now) && forall t :: t in w.threads ==> CutoffOld(w, w.threads[t])
  }

  lemma {:induction false} RunKeepsCutoffs(w: World, actions: seq<Action>)
    requires CutoffsOld(w) && Run(w, actions).Some?
    ensures CutoffsOld(Run(w, actions).value)
    decreases |actions|
  {
    if actions != [] {
      StepKeepsCutoffs(w, actions[0]);
      RunKeepsCutoffs(Step(w, actions[0]).value, actions[1..]);
    }
  }

  lemma StepKeepsCutoffs(w: World, a: Action)
    requires CutoffsOld(w) && Step(w, a).Some?
    ensures CutoffsOld(Step(w, a).value)
  {
    var w' := Step(w, a).value;
    StepUsesNow(w, a);
    forall t | t in w'.threads ensures CutoffOld(w', w'.threads[t]) {
      if t in w.threads { assert CutoffOld(w, w.threads[t]); }
    }
  }

  lemma StepUsesNow(w: World, a: Action)
    requires UsedInPast(w.pool, w.now) && Step(w, a).Some?
    ensures UsedInPast(Step(w, a).value.pool, Step(w, a).value.now)
    ensures Step(w, a).value.now >= w.now && Step(w, a).value.idleTTL == w.idleTTL
  {
  }

  /** Idle eviction is exact although its cutoff is read before the lock, whatever happened in
      between: precisely the entries used before the cutoff go, each of their drivers is closed
      once, their number is what evictIdle returns, and an entry used within the last idleTTL of
      the moment of eviction is never among them. */
  lemma SweepIsExact(w0: World, actions: seq<Action>, t: nat)
    requires Initial(w0) && Run(w0, actions).Some?
    requires Step(Run(w0, actions).value, SweepLocked(t)).Some?
    ensures var w := Run(w0, actions).value;
            var w', cutoff := Step(w, SweepLocked(t)).value, w.threads[t].cutoff;
            && (forall id :: id in w'.pool.drivers <==> id in w.pool.drivers && w.pool.drivers[id].lastUsed >= cutoff)
            && (forall id :: id in w'.pool.drivers ==> w'.pool.drivers[id] == w.pool.drivers[id])
            && (forall id :: id in w.pool.drivers && id !in w'.pool.drivers ==>
                  var d := w.pool.drivers[id].driver;
                  && w.pool.drivers[id].lastUsed < w.now - w.idleTTL
                  && w.pool.closed[d] == 0 && w'.pool.closed[d] == 1)
            && |w'.pool.closed| - |w.pool.closed| == |IdleIds(w.pool, cutoff)|
            && |IdleIds(w.pool, cutoff)| == |w.pool.drivers.Keys| - |w'.pool.drivers.Keys|
  {
    assert Consistent(w0, map[]);
    var place := RunKeepsPlaces(w0, actions, map[]);
    RunKeepsCutoffs(w0, actions);
    var w := Run(w0, actions).value;
    var idle := IdleIds(w.pool, w.threads[t].cutoff);
    forall id | id in idle ensures DriversOf(w.pool.drivers, idle)[w.pool.drivers[id].driver] == 1 {
      DriversOfPlaced(w.pool.drivers, idle, place, w.pool.drivers[id].driver);
    }
    DriversOfSize(w.pool.drivers, idle);
    assert (w.pool.drivers - idle).Keys == w.pool.drivers.Keys - idle;
  }

  lemma {:induction false} DriversOfSize(m: map<int, Entry>, ids: set<int>)
    requires ids <= m.Keys
    ensures |DriversOf(m, ids)| == |ids|
    decreases ids
  {
    if ids != {} {
      SomeMember(ids);
      var id :| id in ids && DriversOf(m, ids) == multiset{m[id].driver} + DriversOf(m, ids - {id});
      DriversOfSize(m, ids - {id});
    }
  }
}
