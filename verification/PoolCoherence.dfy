/** When the pool agrees with the store (internal/dbx/pool.go, internal/server/handlers_connections.go):
    Update writes the store and then evicts, Delete evicts and then deletes the row. */
module PoolCoherence {
  import opened Text
  import opened Pool
  import opened PoolProtocol

  // ---------- the invariant ----------

  /** The configuration agrees with the stored one, or there is a reason why it need not: an update
      of the id has its eviction still to come, or a handler overlapped the Get that read it. */
  predicate Explained(w: World, id: int, conn: Connection, o: Overlap) {
    (id in w.store && w.store[id] == conn) || Updating(w, id) || o.evicted || o.deleting
  }

  /** A delete of the id under way has overlapped the Get that read the configuration. */
  predicate DeleteSeen(w: World, id: int, o: Overlap) {
    Deleting(w, id) ==> o.evicted || o.deleting
  }

  predicate Good(w: World, id: int, conn: Connection, o: Overlap) {
    Explained(w, id, conn, o) && DeleteSeen(w, id, o)
  }

  predicate GoodEntry(w: World, id: int)
    requires id in w.pool.drivers
  {
    var d := w.pool.drivers[id].driver;
    d in w.everOpened && d in w.built && Good(w, id, w.everOpened[d], w.built[d])
  }

  predicate GoodThread(w: World, th: Thread) {
    match th
    case GetRead(id, conn, o) => Good(w, id, conn, o)
    case GetOpened(id, d, o, _) => d in w.everOpened && Good(w, id, w.everOpened[d], o)
    case _ => true
  }

  predicate Coherent(w: World) {
    && (forall id :: id in w.pool.drivers ==> GoodEntry(w, id))
    && (forall t :: t in w.threads ==> GoodThread(w, w.threads[t]))
  }

  // ---------- the row of an update ----------

  /** What an update writes: the new row, with the old password where none is given; a row that is not
      there stays away, and no other row changes. */
  lemma UpdateWritesRow(w: World, u: nat, id: int, conn: Connection, updatePassword: bool)
    requires Step(w, UpdateWrite(u, id, conn, updatePassword, true)).Some?
    ensures var w' := Step(w, UpdateWrite(u, id, conn, updatePassword, true)).value;
            && w'.store.Keys == w.store.Keys
            && (forall other :: other in w.store && other != id ==> w'.store[other] == w.store[other])
            && (id in w.store && updatePassword ==> w'.store[id] == conn)
            && (id in w.store && !updatePassword ==>
                  w'.store[id].password == w.store[id].password
                  && conn == w'.store[id].(password := conn.password))
  {
  }

  // ---------- every step keeps it ----------

  /** Nothing that concerns the id has changed for the worse. */
  predicate Undisturbed(w: World, w': World, id: int) {
    && (id in w.store ==> id in w'.store && w'.store[id] == w.store[id])
    && (Updating(w, id) ==> Updating(w', id))
    && (Deleting(w', id) ==> Deleting(w, id))
  }

  lemma GoodStays(w: World, w': World, id: int, conn: Connection, o: Overlap)
    requires Good(w, id, conn, o) && Undisturbed(w, w', id)
    ensures Good(w', id, conn, o)
  {
  }

  /** A step that leaves every id undisturbed keeps entries and threads good if it keeps them as they are. */
  lemma EntryStays(w: World, w': World, id: int)
    requires id in w.pool.drivers && GoodEntry(w, id) && Undisturbed(w, w', id)
    requires id in w'.pool.drivers && w'.pool.drivers[id].driver == w.pool.drivers[id].driver
    requires var d := w.pool.drivers[id].driver;
             d in w'.everOpened && w'.everOpened[d] == w.everOpened[d] && d in w'.built && w'.built[d] == w.built[d]
    ensures GoodEntry(w', id)
  {
    var d := w.pool.drivers[id].driver;
    GoodStays(w, w', id, w.everOpened[d], w.built[d]);
  }

  lemma ThreadStays(w: World, w': World, th: Thread)
    requires GoodThread(w, th)
    requires (th.GetRead? || th.GetOpened?) ==> Undisturbed(w, w', th.id)
    requires forall d :: d in w.everOpened ==> d in w'.everOpened && w'.everOpened[d] == w.everOpened[d]
    ensures GoodThread(w', th)
  {
    match th
    case GetRead(id, conn, o) => GoodStays(w, w', id, conn, o);
    case GetOpened(id, d, o, _) => GoodStays(w, w', id, w.everOpened[d], o);
    case _ =>
  }

  predicate IsHandler(th: Thread) { th.UpdateWritten? || th.DeleteEvicted? }

  /** The handlers under way are the same. */
  ghost predicate SameHandlers(w: World, w': World) {
    forall t, th: Thread :: IsHandler(th) ==>
      ((t in w.threads && w.threads[t] == th) <==> (t in w'.threads && w'.threads[t] == th))
  }

  lemma SameHandlersUndisturbed(w: World, w': World, id: int)
    requires SameHandlers(w, w') && (id in w.store ==> id in w'.store && w'.store[id] == w.store[id])
    ensures Undisturbed(w, w', id)
    ensures Deleting(w, id) == Deleting(w', id)
  {
    if Updating(w, id) {
      var t :| t in w.threads && w.threads[t] == UpdateWritten(id);
      assert IsHandler(UpdateWritten(id)) && w'.threads[t] == UpdateWritten(id);
    }
    if Deleting(w', id) {
      var t :| t in w'.threads && w'.threads[t] == DeleteEvicted(id);
      assert IsHandler(DeleteEvicted(id)) && w.threads[t] == DeleteEvicted(id);
    }
    if Deleting(w, id) {
      var t :| t in w.threads && w.threads[t] == DeleteEvicted(id);
      assert IsHandler(DeleteEvicted(id)) && w'.threads[t] == DeleteEvicted(id);
    }
  }

  predicate IsHandlerStep(a: Action) { a.UpdateWrite? || a.UpdateEvict? || a.DeleteEvict? || a.DeleteRow? }

  lemma GetHandlers(w: World, a: Action, w': World)
    requires Step(w, a) == Some(w') && IsGetStep(a)
    ensures SameHandlers(w, w')
  {
  }

  lemma QuietHandlers(w: World, a: Action, w': World)
    requires Step(w, a) == Some(w') && !IsHandlerStep(a)
    ensures SameHandlers(w, w')
  {
    if IsGetStep(a) { GetHandlers(w, a, w'); }
  }

  lemma QuietRows(w: World, a: Action, w': World, id: int)
    requires Step(w, a) == Some(w') && !IsHandlerStep(a) && id in w.store
    ensures id in w'.store && w'.store[id] == w.store[id]
  {
  }

  lemma QuietUndisturbed(w: World, a: Action, w': World, id: int)
    requires Step(w, a) == Some(w') && !IsHandlerStep(a)
    ensures Undisturbed(w, w', id) && Deleting(w, id) == Deleting(w', id)
  {
    QuietHandlers(w, a, w');
    if id in w.store { QuietRows(w, a, w', id); }
    SameHandlersUndisturbed(w, w', id);
  }

  /** Steps of Get, Test, evictIdle, Stop, Create and the clock: no handler moves. */
  lemma QuietStepKeepsCoherent(w: World, a: Action, place: map<DriverId, Place>)
    requires Coherent(w) && Consistent(w, place) && Step(w, a).Some? && !IsHandlerStep(a)
    ensures Coherent(Step(w, a).value)
  {
    var w' := Step(w, a).value;
    forall id ensures Undisturbed(w, w', id) {
      QuietUndisturbed(w, a, w', id);
    }
    forall id | id in w'.pool.drivers ensures GoodEntry(w', id) {
      QuietEntry(w, a, place, id, w');
    }
    forall t | t in w'.threads ensures GoodThread(w', w'.threads[t]) {
      QuietThread(w, a, t, w');
    }
  }

  /** The entry of `id` and what is known of its driver are the same. */
  predicate SameEntry(w: World, w': World, id: int)
    requires id in w.pool.drivers && id in w'.pool.drivers
  {
    var d := w.pool.drivers[id].driver;
    && w'.pool.drivers[id].driver == d
    && d in w.everOpened && d in w'.everOpened && w'.everOpened[d] == w.everOpened[d]
    && d in w.built && d in w'.built && w'.built[d] == w.built[d]
  }

  /** The entry of `id` is the driver of the Get of this step. */
  predicate NewEntry(w: World, a: Action, w': World, id: int)
    requires id in w'.pool.drivers
  {
    && a.GetInsert? && a.t in w.threads && w.threads[a.t].GetOpened? && w.threads[a.t].id == id
    && w'.pool.drivers[id].driver == w.threads[a.t].driver && w'.everOpened == w.everOpened
    && w'.built == w.built[w.threads[a.t].driver := w.threads[a.t].overlap]
  }

  predicate EntryKnown(w: World, id: int) {
    id in w.pool.drivers ==> w.pool.drivers[id].driver in w.everOpened && w.pool.drivers[id].driver in w.built
  }

  lemma EntryAfterInsert(w: World, a: Action, place: map<DriverId, Place>, id: int, w': World)
    requires Consistent(w, place) && a.GetInsert? && Step(w, a) == Some(w') && id in w'.pool.drivers
             && EntryKnown(w, id)
    ensures if id in w.pool.drivers then SameEntry(w, w', id) else NewEntry(w, a, w', id)
  {
    assert Holds(w.threads[a.t], w.threads[a.t].driver);
  }

  lemma OpenedStays(w: World, a: Action, d: DriverId, w': World)
    requires Step(w, a) == Some(w') && d in w.everOpened
    ensures d in w'.everOpened && w'.everOpened[d] == w.everOpened[d]
  {
  }

  lemma SlotAfterGet(w: World, a: Action, id: int, w': World)
    requires IsGetStep(a) && !a.GetInsert? && Step(w, a) == Some(w') && id in w'.pool.drivers
    ensures id in w.pool.drivers && w'.pool.drivers[id].driver == w.pool.drivers[id].driver && w'.built == w.built
  {
  }

  lemma SlotAfterOther(w: World, a: Action, id: int, w': World)
    requires !a.GetInsert? && Step(w, a) == Some(w') && id in w'.pool.drivers
    ensures id in w.pool.drivers && w'.pool.drivers[id].driver == w.pool.drivers[id].driver && w'.built == w.built
  {
    if IsGetStep(a) { SlotAfterGet(w, a, id, w'); }
  }

  lemma EntryAfterOther(w: World, a: Action, id: int, w': World)
    requires !a.GetInsert? && Step(w, a) == Some(w') && id in w'.pool.drivers && EntryKnown(w, id)
    ensures id in w.pool.drivers && SameEntry(w, w', id)
  {
    SlotAfterOther(w, a, id, w');
    OpenedStays(w, a, w.pool.drivers[id].driver, w');
  }

  /** What a step does to an entry: it was there with the same driver, or a Get has put its driver in. */
  lemma EntryAfterStep(w: World, a: Action, place: map<DriverId, Place>, id: int, w': World)
    requires Consistent(w, place) && Step(w, a) == Some(w') && id in w'.pool.drivers && EntryKnown(w, id)
    ensures if id in w.pool.drivers then SameEntry(w, w', id) else NewEntry(w, a, w', id)
  {
    if a.GetInsert? {
      EntryAfterInsert(w, a, place, id, w');
    } else {
      EntryAfterOther(w, a, id, w');
    }
  }

  /** A handler's thread after a handler's step. */
  lemma HandlerThread(w: World, a: Action, t: nat, w': World)
    requires Step(w, a) == Some(w') && IsHandlerStep(a)
    ensures t in w.threads && w.threads[t].UpdateWritten? ==>
              (t in w'.threads && w'.threads[t] == w.threads[t]) || w.threads[t].id !in w'.pool.drivers
    ensures t in w'.threads && w'.threads[t].DeleteEvicted? ==>
              (t in w.threads && w'.threads[t] == w.threads[t]) || w'.threads[t].id !in w'.pool.drivers
  {
  }

  /** While an entry stays, an update of its id under way goes on: its eviction would take the entry. */
  lemma UpdatingStays(w: World, a: Action, id: int, w': World)
    requires Step(w, a) == Some(w') && id in w'.pool.drivers && Updating(w, id)
    ensures Updating(w', id)
  {
    if IsHandlerStep(a) {
      var t :| t in w.threads && w.threads[t] == UpdateWritten(id);
      HandlerThread(w, a, t, w');
      assert w'.threads[t] == UpdateWritten(id);
    } else {
      QuietUndisturbed(w, a, w', id);
    }
  }

  /** While an entry stays, no delete of its id begins: its eviction would take the entry. */
  lemma NoNewDelete(w: World, a: Action, id: int, w': World)
    requires Step(w, a) == Some(w') && id in w'.pool.drivers && Deleting(w', id)
    ensures Deleting(w, id)
  {
    if IsHandlerStep(a) {
      var t :| t in w'.threads && w'.threads[t] == DeleteEvicted(id);
      HandlerThread(w, a, t, w');
      assert w.threads[t] == DeleteEvicted(id);
    } else {
      QuietUndisturbed(w, a, w', id);
    }
  }

  lemma QuietEntry(w: World, a: Action, place: map<DriverId, Place>, id: int, w': World)
    requires Coherent(w) && Consistent(w, place) && Step(w, a) == Some(w')
    requires id in w'.pool.drivers && Undisturbed(w, w', id)
    ensures GoodEntry(w', id)
  {
    assert id in w.pool.drivers ==> GoodEntry(w, id);
    EntryAfterStep(w, a, place, id, w');
    if id in w.pool.drivers {
      EntryStays(w, w', id);
    } else {
      var th := w.threads[a.t];
      assert GoodThread(w, th);
      GoodStays(w, w', id, w.everOpened[th.driver], th.overlap);
    }
  }

  lemma QuietThread(w: World, a: Action, t: nat, w': World)
    requires Coherent(w) && Step(w, a) == Some(w') && !IsHandlerStep(a)
    requires (forall id :: Undisturbed(w, w', id)) && t in w'.threads
    ensures GoodThread(w', w'.threads[t])
  {
    if t in w.threads && w'.threads[t] == w.threads[t] {
      ThreadStays(w, w', w.threads[t]);
    } else if a.GetReadStore? {
      var id := w.threads[t].id;
      assert Undisturbed(w, w', id);
    } else if a.GetOpen? || a.GetPing? {
      assert GoodThread(w, w.threads[t]);
      ThreadStays(w, w', w.threads[t]);
    }
  }

  lemma UpdateWriteKeepsCoherent(w: World, a: Action)
    requires Coherent(w) && Step(w, a).Some? && a.UpdateWrite? && a.ok
    ensures Coherent(Step(w, a).value)
  {
    var w' := Step(w, a).value;
    assert w'.threads[a.t] == UpdateWritten(a.id);
    assert Updating(w', a.id);
    forall id ensures id == a.id || Undisturbed(w, w', id) {
      if Updating(w, id) {
        var t :| t in w.threads && w.threads[t] == UpdateWritten(id);
        assert w'.threads[t] == UpdateWritten(id);
      }
      if Deleting(w', id) {
        var t :| t in w'.threads && w'.threads[t] == DeleteEvicted(id);
        assert w.threads[t] == DeleteEvicted(id);
      }
    }
    assert forall id :: Deleting(w', id) ==> Deleting(w, id) by {
      forall id | Deleting(w', id) ensures Deleting(w, id) {
        var t :| t in w'.threads && w'.threads[t] == DeleteEvicted(id);
        assert w.threads[t] == DeleteEvicted(id);
      }
    }
    forall id | id in w'.pool.drivers ensures GoodEntry(w', id) {
      assert GoodEntry(w, id);
      if id != a.id { EntryStays(w, w', id); }
    }
    forall t | t in w'.threads ensures GoodThread(w', w'.threads[t]) {
      if t in w.threads {
        assert GoodThread(w, w.threads[t]);
        if IsGet(w.threads[t]) && w.threads[t].id != a.id { ThreadStays(w, w', w.threads[t]); }
      }
    }
  }

  /** An eviction empties the slot and marks the Gets in flight, so nothing of the id is left to explain. */
  lemma EvictionKeepsCoherent(w: World, w': World, evicted: int)
    requires Coherent(w)
    requires w'.pool == Evicted(w.pool, evicted) && w'.store == w.store && w'.everOpened == w.everOpened
             && w'.built == w.built
    requires forall id :: id == evicted || Undisturbed(w, w', id)
    requires forall t :: t in w'.threads && (w'.threads[t].GetRead? || w'.threads[t].GetOpened?) ==>
               t in w.threads && w'.threads[t] == Crossed(w.threads[t], evicted)
    ensures Coherent(w')
  {
    forall id | id in w'.pool.drivers ensures GoodEntry(w', id) {
      assert GoodEntry(w, id);
      EntryStays(w, w', id);
    }
    forall t | t in w'.threads ensures GoodThread(w', w'.threads[t]) {
      if w'.threads[t].GetRead? || w'.threads[t].GetOpened? {
        assert GoodThread(w, w.threads[t]);
        if w.threads[t].id != evicted { ThreadStays(w, w', w.threads[t]); }
      }
    }
  }

  lemma UpdateEvictKeepsCoherent(w: World, a: Action)
    requires Coherent(w) && Step(w, a).Some? && a.UpdateEvict?
    ensures Coherent(Step(w, a).value)
  {
    var w', evicted := Step(w, a).value, w.threads[a.t].id;
    forall id | id != evicted ensures Undisturbed(w, w', id) {
      if Updating(w, id) {
        var t :| t in w.threads && w.threads[t] == UpdateWritten(id);
        assert w'.threads[t] == UpdateWritten(id);
      }
      if Deleting(w', id) {
        var t :| t in w'.threads && w'.threads[t] == DeleteEvicted(id);
        assert w.threads[t] == DeleteEvicted(id);
      }
    }
    EvictionKeepsCoherent(w, w', evicted);
  }

  lemma DeleteEvictKeepsCoherent(w: World, a: Action)
    requires Coherent(w) && Step(w, a).Some? && a.DeleteEvict?
    ensures Coherent(Step(w, a).value)
  {
    var w' := Step(w, a).value;
    forall id | id != a.id ensures Undisturbed(w, w', id) {
      if Updating(w, id) {
        var t :| t in w.threads && w.threads[t] == UpdateWritten(id);
        assert w'.threads[t] == UpdateWritten(id);
      }
      if Deleting(w', id) {
        var t :| t in w'.threads && w'.threads[t] == DeleteEvicted(id);
        assert w.threads[t] == DeleteEvicted(id);
      }
    }
    EvictionKeepsCoherent(w, w', a.id);
  }

  lemma DeleteRowKeepsCoherent(w: World, a: Action)
    requires Coherent(w) && Step(w, a).Some? && a.DeleteRow?
    ensures Coherent(Step(w, a).value)
  {
    var w', deleted := Step(w, a).value, w.threads[a.t].id;
    assert Deleting(w, deleted);
    forall id ensures (Updating(w, id) ==> Updating(w', id)) && (Deleting(w', id) ==> Deleting(w, id)) {
      if Updating(w, id) {
        var t :| t in w.threads && w.threads[t] == UpdateWritten(id);
        assert w'.threads[t] == UpdateWritten(id);
      }
      if Deleting(w', id) {
        var t :| t in w'.threads && w'.threads[t] == DeleteEvicted(id);
        assert w.threads[t] == DeleteEvicted(id);
      }
    }
    forall id | id in w'.pool.drivers ensures GoodEntry(w', id) {
      assert GoodEntry(w, id);
      if id != deleted { EntryStays(w, w', id); }
    }
    forall t | t in w'.threads ensures GoodThread(w', w'.threads[t]) {
      assert GoodThread(w, w.threads[t]);
      if IsGet(w.threads[t]) && w.threads[t].id != deleted { ThreadStays(w, w', w.threads[t]); }
    }
  }

  lemma StepKeepsCoherent(w: World, a: Action, place: map<DriverId, Place>)
    requires Coherent(w) && Consistent(w, place) && Step(w, a).Some?
    ensures Coherent(Step(w, a).value)
  {
    match a
    case UpdateWrite(_, _, _, _, ok) => if ok { UpdateWriteKeepsCoherent(w, a); }
    case UpdateEvict(_) => UpdateEvictKeepsCoherent(w, a);
    case DeleteEvict(_, _) => DeleteEvictKeepsCoherent(w, a);
    case DeleteRow(_, _) => DeleteRowKeepsCoherent(w, a);
    case _ => QuietStepKeepsCoherent(w, a, place);
  }

  lemma {:induction false} RunKeepsCoherent(w: World, actions: seq<Action>, place: map<DriverId, Place>)
    requires Coherent(w) && Consistent(w, place) && Run(w, actions).Some?
    ensures Coherent(Run(w, actions).value)
    decreases |actions|
  {
    if actions != [] {
      StepKeepsCoherent(w, actions[0], place);
      StepKeepsPlaces(w, actions[0], place);
      RunKeepsCoherent(Step(w, actions[0]).value, actions[1..], Moved(w, actions[0], place));
    }
  }

  /** Cache coherence in every interleaving: a cached driver has the stored configuration, unless an
      update of the id has its eviction pending, or an eviction for the id ran while the Get that
      built the entry was between its store read and its insertion, or that Get read the store
      while a delete of the id was between its eviction and its store delete. */
  lemma CachedAgreesOrExplained(w0: World, actions: seq<Action>, id: int)
    requires Initial(w0) && Run(w0, actions).Some?
    requires id in Run(w0, actions).value.pool.drivers
    ensures var w := Run(w0, actions).value;
            var d := w.pool.drivers[id].driver;
            && d in w.everOpened && d in w.built
            && ((id in w.store && w.store[id] == w.everOpened[d])
                || Updating(w, id) || w.built[d].evicted || w.built[d].deleting)
  {
    assert Consistent(w0, map[]);
    RunKeepsCoherent(w0, actions, map[]);
    assert GoodEntry(Run(w0, actions).value, id);
  }

  // ---------- handlers that do not overlap with Gets ----------

  /** No update or delete of an id is half done while a Get of that id is in flight. */
  predicate NoOverlaps(w: World) {
    forall t, u :: t in w.threads && u in w.threads && IsHandler(w.threads[t]) && IsGet(w.threads[u]) ==>
      w.threads[t].id != w.threads[u].id
  }

  /** NoOverlaps holds all along a run. */
  ghost predicate Separate(w: World, actions: seq<Action>)
    decreases |actions|
  {
    NoOverlaps(w) && (actions != [] && Step(w, actions[0]).Some? ==> Separate(Step(w, actions[0]).value, actions[1..]))
  }

  predicate UnmarkedThread(th: Thread) { th.GetRead? || th.GetOpened? ==> th.overlap == NO_OVERLAP }

  predicate Unmarked(w: World) {
    && (forall id :: id in w.pool.drivers ==>
          w.pool.drivers[id].driver in w.built && w.built[w.pool.drivers[id].driver] == NO_OVERLAP)
    && (forall t :: t in w.threads ==> UnmarkedThread(w.threads[t]))
  }

  lemma ThreadStaysUnmarked(w: World, a: Action, t: nat)
    requires Unmarked(w) && NoOverlaps(w) && Step(w, a).Some? && NoOverlaps(Step(w, a).value)
    requires t in Step(w, a).value.threads
    ensures UnmarkedThread(Step(w, a).value.threads[t])
  {
    var w' := Step(w, a).value;
    assert t in w.threads ==> UnmarkedThread(w.threads[t]);
    if a.GetReadStore? && Deleting(w, w.threads[a.t].id) {
      var u :| u in w.threads && w.threads[u] == DeleteEvicted(w.threads[a.t].id);
      assert IsHandler(w.threads[u]) && IsGet(w.threads[a.t]);
    }
    if a.UpdateEvict? && t in w.threads && IsGet(w.threads[t]) {
      assert IsHandler(w.threads[a.t]);
    }
    if a.DeleteEvict? && t in w.threads && IsGet(w.threads[t]) {
      assert IsHandler(w'.threads[a.t]) && IsGet(w'.threads[t]);
    }
  }

  lemma StepKeepsUnmarked(w: World, a: Action, place: map<DriverId, Place>)
    requires Unmarked(w) && Consistent(w, place)
    requires NoOverlaps(w) && Step(w, a).Some? && NoOverlaps(Step(w, a).value)
    ensures Unmarked(Step(w, a).value)
  {
    var w' := Step(w, a).value;
    forall t | t in w'.threads ensures UnmarkedThread(w'.threads[t]) {
      ThreadStaysUnmarked(w, a, t);
    }
    forall id | id in w'.pool.drivers
      ensures w'.pool.drivers[id].driver in w'.built && w'.built[w'.pool.drivers[id].driver] == NO_OVERLAP
    {
      EntryAfterStep(w, a, place, id, w');
      if id !in w.pool.drivers {
        assert UnmarkedThread(w.threads[a.t]);
      }
    }
  }

  lemma {:induction false} SeparateRunUnmarked(w: World, actions: seq<Action>, place: map<DriverId, Place>)
    requires Unmarked(w) && Consistent(w, place) && Run(w, actions).Some? && Separate(w, actions)
    ensures Unmarked(Run(w, actions).value)
    decreases |actions|
  {
    if actions != [] {
      var w' := Step(w, actions[0]).value;
      assert NoOverlaps(w');
      StepKeepsUnmarked(w, actions[0], place);
      StepKeepsPlaces(w, actions[0], place);
      SeparateRunUnmarked(w', actions[1..], Moved(w, actions[0], place));
    }
  }

  /** On separate runs no deleted id comes back: what is cached or about to be is stored, and an id
      that is being deleted is not cached. */
  predicate StoredIds(w: World) {
    && (forall id :: id in w.pool.drivers ==> id in w.store && !Deleting(w, id))
    && (forall t :: t in w.threads && (w.threads[t].GetRead? || w.threads[t].GetOpened?) ==> w.threads[t].id in w.store)
  }

  /** Only a delete removes a row. */
  lemma RowRemoved(w: World, a: Action, id: int, w': World)
    requires Step(w, a) == Some(w') && id in w.store && id !in w'.store
    ensures Deleting(w, id)
  {
    assert a.DeleteRow? && w.threads[a.t] == DeleteEvicted(id);
  }

  lemma EntryStaysStored(w: World, a: Action, id: int, w': World)
    requires StoredIds(w) && NoOverlaps(w) && Step(w, a) == Some(w') && id in w'.pool.drivers
    ensures id in w'.store
  {
    if a.GetInsert? {
      assert w'.store == w.store;
    } else {
      SlotAfterOther(w, a, id, w');
    }
    if id in w.store && id !in w'.store {
      RowRemoved(w, a, id, w');
    }
  }

  lemma DeletingApart(w: World, id: int, t: nat)
    requires NoOverlaps(w)
    ensures Deleting(w, id) && t in w.threads && IsGet(w.threads[t]) ==> w.threads[t].id != id
  {
    if Deleting(w, id) && t in w.threads && IsGet(w.threads[t]) {
      var u :| u in w.threads && w.threads[u] == DeleteEvicted(id);
      assert IsHandler(w.threads[u]);
    }
  }

  lemma EntryStaysUndeleted(w: World, a: Action, id: int, w': World)
    requires StoredIds(w) && NoOverlaps(w) && Step(w, a) == Some(w') && id in w'.pool.drivers
    ensures !Deleting(w', id)
  {
    if Deleting(w', id) {
      NoNewDelete(w, a, id, w');
      if a.GetInsert? {
        DeletingApart(w, id, a.t);
      } else {
        SlotAfterOther(w, a, id, w');
      }
    }
  }

  lemma ThreadStaysStored(w: World, a: Action, t: nat, w': World)
    requires StoredIds(w) && NoOverlaps(w) && Step(w, a) == Some(w')
    requires t in w'.threads && (w'.threads[t].GetRead? || w'.threads[t].GetOpened?)
    ensures w'.threads[t].id in w'.store
  {
    ReadThread(w, a, t, w');
    var id := w'.threads[t].id;
    if id !in w'.store {
      RowRemoved(w, a, id, w');
      DeletingApart(w, id, t);
    }
  }

  /** A Get that has read the store was one before the step, or has just found its row. */
  lemma ReadThread(w: World, a: Action, t: nat, w': World)
    requires Step(w, a) == Some(w') && t in w'.threads && (w'.threads[t].GetRead? || w'.threads[t].GetOpened?)
    ensures t in w.threads && IsGet(w.threads[t]) && w.threads[t].id == w'.threads[t].id
    ensures w.threads[t].GetMissed? ==> w.threads[t].id in w.store
  {
  }

  lemma StepKeepsStored(w: World, a: Action)
    requires StoredIds(w) && NoOverlaps(w) && Step(w, a).Some?
    ensures StoredIds(Step(w, a).value)
  {
    var w' := Step(w, a).value;
    forall id | id in w'.pool.drivers ensures id in w'.store && !Deleting(w', id) {
      EntryStaysStored(w, a, id, w');
      EntryStaysUndeleted(w, a, id, w');
    }
    forall t | t in w'.threads && (w'.threads[t].GetRead? || w'.threads[t].GetOpened?)
      ensures w'.threads[t].id in w'.store
    {
      ThreadStaysStored(w, a, t, w');
    }
  }

  lemma {:induction false} SeparateRunStored(w: World, actions: seq<Action>)
    requires StoredIds(w) && Run(w, actions).Some? && Separate(w, actions)
    ensures StoredIds(Run(w, actions).value)
    decreases |actions|
  {
    if actions != [] {
      StepKeepsStored(w, actions[0]);
      SeparateRunStored(Step(w, actions[0]).value, actions[1..]);
    }
  }

  /** When handlers and Gets of one id never overlap, a cached driver has the stored configuration,
      except between an update's store write and its eviction, and an id that is not stored has no
      entry. */
  lemma SeparateRunAgrees(w0: World, actions: seq<Action>, id: int)
    requires Initial(w0) && Run(w0, actions).Some? && Separate(w0, actions)
    ensures var w := Run(w0, actions).value;
            && (id in w.pool.drivers && !Updating(w, id) ==>
                  && id in w.store && w.pool.drivers[id].driver in w.everOpened
                  && w.everOpened[w.pool.drivers[id].driver] == w.store[id])
            && (id !in w.store ==> id !in w.pool.drivers)
  {
    assert Consistent(w0, map[]);
    SeparateRunUnmarked(w0, actions, map[]);
    SeparateRunStored(w0, actions);
    if id in Run(w0, actions).value.pool.drivers {
      CachedAgreesOrExplained(w0, actions, id);
    }
  }

  // ---------- the two overlaps that leave a stale entry behind ----------

  /** From a Get about to insert, an update and then the insertion. */
  lemma UpdateThenInsert(w: World, id: int, t: nat, u: nat, d: DriverId, o: Overlap, conn: Connection)
    requires w.threads == map[t := GetOpened(id, d, o, true)] && t != u
    requires id in w.store && w.store[id] != conn && w.pool.drivers == map[] && !w.pool.stopped
    requires d in w.everOpened && w.everOpened[d] == w.store[id]
    ensures var actions := [UpdateWrite(u, id, conn, true, true)] + ([UpdateEvict(u)] + ([GetInsert(t)] + []));
            Run(w, actions).Some?
            && var w' := Run(w, actions).value;
               w'.threads == map[] && id in w'.pool.drivers && w'.pool.drivers[id].driver in w'.everOpened
               && id in w'.store && w'.everOpened[w'.pool.drivers[id].driver] != w'.store[id]
  {
    var w2 := Step(w, UpdateWrite(u, id, conn, true, true)).value;
    var w3 := Step(w2, UpdateEvict(u)).value;
    var w4 := Step(w3, GetInsert(t)).value;
    assert w3.threads.Keys == {t};
    assert w4.threads.Keys == {};
    RunCons(w3, GetInsert(t), []);
    RunCons(w2, UpdateEvict(u), [GetInsert(t)] + []);
    RunCons(w, UpdateWrite(u, id, conn, true, true), [UpdateEvict(u)] + ([GetInsert(t)] + []));
  }

  /** An update whose write and eviction both fall between a Get's store read and its insertion:
      nothing is in flight any more, and the cached driver has the old configuration. */
  lemma UpdateInsideGetLeavesStaleEntry(w0: World, id: int, t: nat, u: nat, d: DriverId, conn: Connection)
    requires Initial(w0) && id in w0.store && w0.store[id] != conn && t != u
    ensures var actions := GetUpToPing(t, id, d)
                           + ([UpdateWrite(u, id, conn, true, true)] + ([UpdateEvict(u)] + ([GetInsert(t)] + [])));
            Run(w0, actions).Some?
            && var w := Run(w0, actions).value;
               w.threads == map[] && id in w.pool.drivers && w.pool.drivers[id].driver in w.everOpened
               && id in w.store && w.everOpened[w.pool.drivers[id].driver] != w.store[id]
  {
    GetReachesPing(w0, t, id, d);
    UpdateThenInsert(Run(w0, GetUpToPing(t, id, d)).value, id, t, u, d, Overlap(false, Deleting(w0, id)), conn);
    RunConcat(w0, GetUpToPing(t, id, d),
              [UpdateWrite(u, id, conn, true, true)] + ([UpdateEvict(u)] + ([GetInsert(t)] + [])));
  }

  /** From a Get about to insert, its insertion and then the store delete of a handler. */
  lemma InsertThenDelete(w: World, id: int, t: nat, u: nat, d: DriverId, o: Overlap)
    requires w.threads == map[u := DeleteEvicted(id), t := GetOpened(id, d, o, true)] && t != u
    requires w.pool.drivers == map[] && !w.pool.stopped
    ensures var actions := [GetInsert(t)] + ([DeleteRow(u, true)] + []);
            Run(w, actions).Some?
            && var w' := Run(w, actions).value; w'.threads == map[] && id in w'.pool.drivers && id !in w'.store
  {
    var w3 := Step(w, GetInsert(t)).value;
    var w4 := Step(w3, DeleteRow(u, true)).value;
    assert w4.threads.Keys == {};
    RunCons(w3, DeleteRow(u, true), []);
    RunCons(w, GetInsert(t), [DeleteRow(u, true)] + []);
  }

  /** Delete evicts first: a whole Get between its eviction and its store delete leaves an entry
      for an id that no longer exists. */
  lemma GetInsideDeleteLeavesEntry(w0: World, id: int, t: nat, u: nat, d: DriverId)
    requires Initial(w0) && id in w0.store && t != u
    ensures var actions := [DeleteEvict(u, id)]
                           + (GetUpToPing(t, id, d) + ([GetInsert(t)] + ([DeleteRow(u, true)] + [])));
            Run(w0, actions).Some?
            && var w := Run(w0, actions).value;
               w.threads == map[] && id in w.pool.drivers && id !in w.store
  {
    var w1 := Step(w0, DeleteEvict(u, id)).value;
    assert w1.threads.Keys == {u};
    GetReachesPing(w1, t, id, d);
    InsertThenDelete(Run(w1, GetUpToPing(t, id, d)).value, id, t, u, d, Overlap(false, Deleting(w1, id)));
    RunConcat(w1, GetUpToPing(t, id, d), [GetInsert(t)] + ([DeleteRow(u, true)] + []));
    RunCons(w0, DeleteEvict(u, id), GetUpToPing(t, id, d) + ([GetInsert(t)] + ([DeleteRow(u, true)] + [])));
  }
}
